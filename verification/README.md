# unid: queues, pool, checksum and UDP machinery, verified

This project models the parts of the unid code base where getting it wrong is easiest: the lock-free
single-producer single-consumer queues, the intrusive pool allocator with its C++ wrapper and the UDP
endpoints that live on it, the table-driven CRC-32, the asynchronous write queue with the echo server
on top, and the `Unid_block` wire format. Everything stated below is proved for all inputs, all runs or
all interleavings; nothing is executed.

## How the model is built

**Queues.** `SpscProtocol` splits every push and pop of `ringbuffer` (`Plain`) and `ringbuffer2`
(`Cached`) at its shared accesses. Producer and consumer steps interleave freely, and memory is weak: an
atomic index keeps every value ever stored in it, and an acquire load may return any of them not older
than the last one this thread saw. Clocks record what happens before what, so that a data race on a slot
is a statement about a state. `SpscCalls` says what the callers of push and pop see of it. `BoundedFifo` is
the abstract queue. `enqueue` and `dequeue` of the
shared-memory `Circular_queue` make the same accesses in the same order as `ringbuffer`, so the `Plain`
machine is theirs too, apart from their plain `size` field. `RingBuffers` and `CircularQueues` are the
four classes as programs over arrays, used by one thread.

**Pool.** `Memory` is a byte-addressed 64-bit little-endian memory and the blocks `malloc` has handed
out; each request carries a choice that may be a fitting address or a failure. `PoolModel` says what a
pool is: the list of free chunks and the list of arrays, as they are wired up inside that memory.
`LibPool` runs the C code against it, `PoolLimits` shows that what it asks of its callers is needed,
`Neighbours` and `SharedRuns` are about what else lives on the heap, `MempoolModel` is the C++ wrapper,
`PoolRuns` and `UdpEndpoint` are whole runs of its users. `PoolRuns.Ledger`, `SharedRuns.Stand` and
`UdpDesk.Desk` are the references: they know counts and private buffers, and no addresses of chunks.
`PoolLaws`, `SharedLaws` and `UdpLaws` say what the references mean in terms of calls and answers alone.

**Checksum.** `BitStrings` is polynomial long division over the two-element field, on sequences of
Booleans; `Crc32` is the program on 32-bit words, `CrcTheorems` what follows about messages.

**Events.** `WriteQueue` and `EchoServer` take the event loop's choices (which handler next, whether a
send failed, what the kernel wrote when) as inputs.

## Where the code needs a condition

- `Mempool::expand` destroys the pool when it cannot grow it, and keeps the pointer. The object stays
  usable after a call if and only if the call succeeded, which is if and only if the request is not zero
  and both allocations are granted (`MempoolModel.Mempool.Expand`). The destructor runs in any case, and
  starts by reading the structure. A life ends cleanly if and only if no expansion failed; after a failure
  that structure is in no live block (`PoolRuns.UseAndDestroy`, `PoolRuns.Life`).
- A failed asynchronous operation never gives its chunk back. Each failure strands exactly one chunk, and
  a failed receive is not started again (`UdpDesk.EveryChunkAccounted`).
- The write queue does not pop a message whose send failed, and starts a send only when the queue was
  empty, so the first error stops it for good. A queue at rest has sent everything if and only if no send
  failed (`WriteQueue.AtRestAllSent`).
- With stale loads a push or pop may be refused early (`SpscProtocol.PushRefusedEarly`,
  `PopRefusedEarly`), never wrongly accepted. A refusal is truthful if and only if the load saw the newest
  store (`SpscProtocol.PushRefusalExact`, `PopRefusalExact`).
- `ALIGN2BOUNDARY` rounds up if and only if the addition does not wrap, and yields 0 otherwise and for 0
  (`LibPool.AlignIsLeast`). `PoolNew` and `PoolExpand` ask for a chunk size that is neither, and a product
  that fits `size_t`: no valid pool of that many chunks of that size exists otherwise
  (`PoolLimits.NewNeeds`, `PoolLimits.ExpandNeeds`).
- `pool_free` checks nothing but null. It leaves a valid pool if and only if the pointer is a chunk that is
  out (`PoolLimits.FreeExact`). A second release closes the free list to a cycle
  (`PoolLimits.ReleasedTwice`).
- The checksum notices every burst of up to 32 bits. At every bit offset of every message of at least five
  bytes there is a burst of 33 bits it misses (`CrcTheorems.LongerBurstExists`).
- The constructor of an endpoint throws if and only if every chunk of the shared pool is already out
  (`UdpEndpoint.Endpoint.Open`).
- The comment on `serialize` calls network order little-endian in one place and big-endian in another.
  The code writes big-endian, and so does the model.
- `enqueue` of the shared-memory queue is documented to return false on a full queue and throws; `ok` is
  false there in the model.

## Model

| member | source | states |
|---|---|---|
| SpscProtocol.StepKeepsInv | spike/ipc_ringbuffer.cpp:54-86 | Every step of either thread, with any stale load, keeps the invariant that relates wrapped indices, cached indices, clocks and slots to the unbounded push and pop counts |
| SpscProtocol.WrapIsMod | spike/ipc_ringbuffer.cpp:18-21 | The index after k advances with the compare-and-reset is k modulo the capacity |
| SpscProtocol.EveryRunIsFifo | spike/ipc_ringbuffer.cpp:45-87 | In every interleaving the popped values are a prefix of the pushed values, and at most capacity - 1 are in between |
| SpscProtocol.EveryRunIsRaceFree | spike/ipc_ringbuffer.cpp:22-40 | In every interleaving slot writes and reads are ordered by the acquire and release pairs, the threads never work on one slot, and an unread slot is never overwritten |
| SpscProtocol.EveryRunRefinesFifo | spike/ipc_ringbuffer.cpp:16-42 | Every trace of either variant is a trace of one bounded first-in first-out queue; with fresh loads also every refusal is one |
| BoundedFifo.AcceptedTraceIsFifo | spike/ipc_ringbuffer.cpp:9-43 | What that means: contents plus pushes equal pops plus what is left, in order, and the bound is kept |
| BoundedFifo.AcceptedExact | spike/ipc_ringbuffer.cpp:16-42 | In an accepted trace an item goes in only with room and out only if one is in, and an honest refusal comes only from a full or an empty queue |
| SpscProtocol.PushRefusalExact | spike/ipc_ringbuffer.cpp:60-65 | A push is refused exactly when the store it saw is capacity - 1 pushes old; the queue is then full exactly when that was the newest store |
| SpscProtocol.PopRefusalExact | spike/ipc_ringbuffer.cpp:73-78 | The same for a pop and an empty queue |
| SpscCalls.PushEndsWithAnswer | spike/ipc_ringbuffer.cpp:54-69 | A step of the producer ends the push exactly if it tells the caller whether the item was taken; steps of the consumer do neither |
| SpscCalls.PopEndsWithAnswer | spike/ipc_ringbuffer.cpp:71-86 | The same of a pop |
| SpscCalls.PushesAnswered | spike/ipc_ringbuffer.cpp:16-28 | Over every run each push called is answered once and in order, but for one under way, and the queue has taken exactly the items of those told so |
| SpscCalls.PopsAnswered | spike/ipc_ringbuffer.cpp:30-42 | Over every run each pop called is answered once, but for one under way, and what the queue gave and took is what its callers were told |
| SpscCalls.ProducerMay | spike/ipc_ringbuffer.cpp:54-69 | What the producer may do next in every state, in particular see every published read index from the last one seen on |
| SpscCalls.ConsumerMay | spike/ipc_ringbuffer.cpp:71-86 | The same of the consumer |
| SpscCalls.FreshExact | spike/ipc_ringbuffer.cpp:22 | A run counts as fresh exactly as long as every load returns the newest store |
| SpscCalls.PushLoadsWhenFull | spike/ipc_ringbuffer.cpp:60-61 | `ringbuffer` loads the read index on every push, `ringbuffer2` exactly when its copy makes the buffer look full |
| SpscCalls.PopLoadsWhenEmpty | spike/ipc_ringbuffer.cpp:73-74 | `ringbuffer` loads the write index on every pop, `ringbuffer2` exactly when its copy makes the buffer look empty |
| SpscProtocol.PushRefusedEarly | spike/ipc_ringbuffer.cpp:60-65 | In either variant there is a run in which a push is refused on an empty queue, because its load is stale |
| SpscProtocol.PopRefusedEarly | spike/ipc_ringbuffer.cpp:73-78 | In either variant there is a run in which a pop is refused on a queue that holds an item |
| SpscProtocol.NoThreadBlocks | spike/ipc_ringbuffer.cpp:45-87 | In every reachable state each thread can take its next step and stays inside the buffer |
| SpscProtocol.PushReturns | spike/ipc_ringbuffer.cpp:54-69 | Whatever the consumer does in between, a push under way returns within three more steps of its own thread, so every push takes at most four |
| SpscProtocol.PopReturns | spike/ipc_ringbuffer.cpp:71-86 | The same of a pop |
| SpscProtocol.PushSucceeds | spike/ipc_ringbuffer.cpp:54-69 | In every state with room a push with a fresh load goes through in at most four steps |
| SpscProtocol.PopSucceeds | spike/ipc_ringbuffer.cpp:71-86 | In every state with an item a pop with a fresh load yields the oldest in at most four steps |
| SpscProtocol.PopMakesRoom | spike/ipc_ringbuffer.cpp:113-126 | After one completed pop there is room, so the push that was refused is accepted when it is tried again |
| SpscProtocol.BenchIsCorrect | spike/ipc_ringbuffer.cpp:103-138 | The consumer's order check never fires, and the final spin ends only when all that was pushed has been popped |
| SpscCalls.CountingExact | spike/ipc_ringbuffer.cpp:124-127 | The runs of `bench` are exactly those in which each push brings the number of pushes accepted so far |
| RingBuffers.RingBuffer.Push | spike/ipc_ringbuffer.cpp:16-28 | Appends if and only if fewer than capacity - 1 items are in; otherwise changes nothing |
| RingBuffers.RingBuffer.Pop | spike/ipc_ringbuffer.cpp:30-42 | Removes and yields the oldest item if and only if there is one |
| RingBuffers.RingBuffer2.Push | spike/ipc_ringbuffer.cpp:54-69 | The same contract although the full test uses the cached read index |
| RingBuffers.RingBuffer2.Pop | spike/ipc_ringbuffer.cpp:71-86 | The same contract although the empty test uses the cached write index |
| CircularQueues.SizedQueue.Enqueue | spike/circular_queue.cpp:35-44 | Appends if and only if not all slots are taken, `size` is the abstract length; the fields are 32-bit integers and every operation on them stays in range |
| CircularQueues.SizedQueue.Dequeue | spike/circular_queue.cpp:47-56 | Removes the oldest item if and only if there is one |
| CircularQueues.IpcQueue.Create | spike/ipc_circular_queue.cpp:15-24 | Refuses capacity 0 and nothing else; the new queue is empty |
| CircularQueues.IpcQueue.Increment | spike/ipc_circular_queue.cpp:76-78 | With 32-bit wrap-around the remainder is the cyclic successor of every valid index |
| CircularQueues.IpcQueue.Enqueue | spike/ipc_circular_queue.cpp:32-44 | Appends if and only if fewer than capacity - 1 items are in, and throws otherwise; `size` stays the length under 32-bit arithmetic |
| CircularQueues.IpcQueue.Dequeue | spike/ipc_circular_queue.cpp:47-57 | Removes and yields the oldest item if and only if there is one, else leaves the output as it was |
| CircularQueues.IpcQueue.WasEmpty | spike/ipc_circular_queue.cpp:60-62 | Used alone, true exactly when nothing is in |
| CircularQueues.IpcQueue.WasFull | spike/ipc_circular_queue.cpp:65-68 | Used alone, true exactly when capacity - 1 items are in |
| CircularQueues.RunAll | spike/circular_queue.cpp:35-66 | Over every sequence of calls the two ring buffers and the shared-memory queue with room + 1 slots and the size-counted queue with room slots give one and the same log of replies and values |
| BoundedFifo.LogIsFifo | spike/circular_queue.cpp:35-56 | In that log every call is answered, the items handed out are those taken in, oldest first, and the bound is kept |
| BoundedFifo.LogExact | spike/circular_queue.cpp:35-66 | A push is refused exactly with all room taken, a pop exactly with nothing in |
| Crc32.GenerateTable | spike/crc32.cpp:6-16 | Entry i is the register after eight single-bit division steps from i |
| Crc32.TableStep | spike/crc32.cpp:30 | One table look-up, shift and exclusive or is eight single-bit steps on the next byte |
| Crc32.Engine.Compute | spike/crc32.cpp:19-33 | For every buffer, length and initial value, and whether or not the table is already there, the result is the bit-at-a-time checksum |
| BitStrings.FeedIsRemainder | spike/crc32.cpp:27-32 | Feeding the register bit by bit is polynomial long division of the message times x^32 |
| CrcTheorems.ChecksumIsRemainder | spike/crc32.cpp:19-33 | The checksum is the complemented remainder of that division, as section 8 of RFC 1952 describes it |
| CrcTheorems.ChecksumConcat | spike/crc32.cpp:19-33 | Starting from the checksum of a, the checksum of b is that of a followed by b |
| CrcTheorems.ChecksumAffine | spike/crc32.cpp:27-32 | For messages of one length crc(a) ^ crc(b) ^ crc(a ^ b) is the checksum of the zero message |
| CrcTheorems.BitBurstDetected | spike/crc32.cpp:27-32 | Messages that differ only within 32 consecutive bits, at any bit offset, have different checksums |
| CrcTheorems.ByteBurstDetected | spike/crc32.cpp:27-32 | In particular messages that differ only within four consecutive bytes |
| CrcTheorems.LongerBurstMissed | spike/crc32.cpp:27-32 | Adding the generator to any 33 consecutive bits of a message gives another message with the same checksum, so 32 is exact |
| CrcTheorems.LongerBurstExists | spike/crc32.cpp:19-33 | There is such a message for every message of at least five bytes and every bit offset |
| CrcTheorems.CollisionIsDivisibility | spike/crc32.cpp:27-32 | Two messages of one length collide if and only if the generator divides their difference |
| CrcTheorems.TrailerExact | spike/crc32.cpp:19-33 | A message with four bytes behind it has one fixed checksum if and only if those bytes are the message's checksum |
| LibPool.AlignIsLeast | common/src/libpool.c:97-98 | The aligned size is the least multiple of the pointer size that holds the request, if and only if the addition does not wrap |
| LibPool.AlignIsMasking | common/src/libpool.c:97-98 | The aligned size is what the macro computes bit by bit: the sum, wrapped to 64 bits, with the mask ~7 |
| LibPool.MaskRoundsDown | common/src/libpool.c:97-98 | For every width, masking out the k low bits is rounding down to a multiple of 2^k |
| PoolModel.ChunksApart | common/src/libpool.c:239-241 | Two different chunks, of one array or two, never overlap |
| PoolModel.ChunkWriteKeepsPool | common/src/libpool.c:234-246 | Whatever a user writes inside an outstanding chunk, the free list and the array list stay as they are |
| PoolModel.Conservation | common/src/libpool.c:374-440 | In a valid pool free and outstanding chunks are together exactly the chunks of all arrays, and their numbers add up |
| LibPool.Allocator.PoolNew | common/src/libpool.c:178-254 | Yields a valid pool with all chunks free in address order, or 0 and no block of its own, the former if and only if the size is not zero and all three requests are granted; no other block is touched |
| LibPool.Allocator.PoolExpand | common/src/libpool.c:266-322 | Adds exactly the new chunks at the front of the free list, or changes neither memory nor blocks, with the exact condition; outstanding chunks keep their contents |
| LibPool.Allocator.PoolDestroy | common/src/libpool.c:329-364 | Releases exactly the structure, every list node and every array, once each |
| LibPool.Allocator.PoolAlloc | common/src/libpool.c:374-410 | Yields the first free chunk, or 0 if and only if there is none or no pool; only the head pointer changes |
| LibPool.Allocator.PoolFree | common/src/libpool.c:416-440 | Puts an outstanding chunk at the front of the free list; only the head pointer and the chunk's first word change |
| LibPool.Allocator.PoolAvailable | common/src/libpool.c:446-460 | Terminates with the length of the free list, without overflow |
| PoolLimits.FreeExact | common/src/libpool.c:416-440 | For every pointer that is not null, the two stores leave a valid pool, whichever, if and only if the pointer is an outstanding chunk |
| PoolLimits.ReleasedTwice | common/src/libpool.c:431-432 | Releasing a chunk that is on the free list leaves no valid pool: the list has become a cycle |
| PoolLimits.NewNeeds | common/src/libpool.c:194-221 | A pool as `pool_new` should make it implies a chunk size that is not zero and does not wrap, and a countable total |
| PoolLimits.ExpandNeeds | common/src/libpool.c:286-299 | A pool expanded by that many chunks implies a countable product |
| LibPool.PoolIndependent | common/src/libpool.c:131-139 | A pool stays valid whatever happens to blocks it does not own |
| Neighbours.NeighbourKept | common/src/libpool.c:131-139 | A pool that shares no block with the one worked on stays valid, and still shares none |
| Neighbours.SharedHeap.New | common/src/libpool.c:178-254 | Beside any number of pools on one heap, a new one is made or not, and all are valid with no block in common |
| Neighbours.SharedHeap.Alloc | common/src/libpool.c:374-410 | Allocating from one pool keeps all pools valid and separate, and every block and byte that is not this pool's |
| Neighbours.SharedHeap.Free | common/src/libpool.c:416-440 | The same of releasing a chunk |
| Neighbours.SharedHeap.Expand | common/src/libpool.c:266-322 | The same of expanding, successful or not |
| Neighbours.SharedHeap.Destroy | common/src/libpool.c:329-364 | The same of destroying one pool |
| SharedRuns.Tenants.Run | common/src/libpool.c:178-460 | However operations on any number of pools are mixed, every answer is the one the reference computes, including which pools can be made and grown; all pools stay valid and separate, and no block that is not theirs is touched |
| SharedRuns.Tenants.Serve | common/src/libpool.c:178-460 | The same of one call; a release takes back just the chunk named |
| SharedLaws.PoolAlone | common/src/libpool.c:374-440 | Over every run the state of a pool is that of the calls to it, wherever it is listed and whatever happens to the others |
| SharedLaws.PoolAnswersExact | common/src/libpool.c:374-440 | After every run a pool grants a chunk exactly while the calls to it leave one, and takes one back exactly from those out |
| SharedLaws.NewPoolExact | common/src/libpool.c:178-254 | After every run a pool is made exactly if the sizes can be counted, are not zero, and all three requests are granted |
| SharedLaws.GrowAndDropExact | common/src/libpool.c:266-364 | After every run a pool grows exactly if asked for something that is granted, and every pool there is can be dropped |
| MempoolModel.Mempool.Create | common/src/mempool.cpp:19-28 | Throws if and only if the pool cannot be made, and then nothing is left behind |
| MempoolModel.Mempool.Alloc | common/include/common/mempool.hpp:66-73 | Throws if and only if all pool_sz + extra_sz chunks are out; otherwise the chunk was not out before |
| MempoolModel.Mempool.Free | common/include/common/mempool.hpp:80 | Takes exactly that chunk back; a null pointer changes nothing |
| MempoolModel.Mempool.Expand | common/src/mempool.cpp:35-44 | The pool is still valid if and only if the expansion succeeded, with the exact condition; a success added just its two blocks, a failure has released every block of the pool, and no foreign block is touched |
| MempoolModel.Mempool.Destroy | common/src/mempool.cpp:30-33 | Releases exactly the blocks of a pool that is still there |
| MempoolModel.Mempool.Report | common/src/mempool.cpp:46-49 | Available plus outstanding chunks equal pool_sz + extra_sz, without overflow |
| PoolRuns.Users.Run | common/include/common/mempool.hpp:66-80 | Every run of allocations, releases, expansions, statistics, reads and writes gives exactly the outcomes of a counter with one private buffer per chunk, including which expansions fail: no call and no write ever changes another user's bytes, or any block that is not the pool's |
| PoolRuns.Users.Serve | common/include/common/mempool.hpp:66-80 | The same of one call; a release takes back just the chunk named |
| PoolLaws.AnswersExact | common/include/common/mempool.hpp:66-80 | After every run: a chunk is granted exactly while the answers so far leave one, releases, reads and writes are done exactly for a chunk that is out and bytes inside it, the statistics are the chunks left, and an expansion succeeds exactly if granted |
| PoolLaws.BufferKept | common/src/libpool.c:416-440 | Over every run a chunk its user does not write keeps its bytes, wherever releases move it in the list |
| PoolLaws.ReadAfterFree | common/include/common/mempool.hpp:80 | After a release the other chunks are still out, with their own bytes |
| PoolLaws.ReadAfterWrite | common/include/common/mempool.hpp:66-80 | After a write and any calls about other chunks a read yields the written bytes where they were written, and the old ones elsewhere |
| PoolLaws.ReadAfterAlloc | common/include/common/mempool.hpp:66-73 | After an allocation and any calls about other chunks a read yields what the user was shown |
| PoolRuns.UseAndDestroy | common/src/mempool.cpp:30-44 | Any run followed by the destructor ends cleanly if and only if no expansion failed; after a failure no live block contains the cell the destructor reads first |
| PoolRuns.Life | common/src/mempool.cpp:19-44 | From the constructor through any run the pool's blocks come and go and the heap is left with the blocks it had and the bytes in them; the destructor ends cleanly if and only if no expansion failed |
| PoolRuns.RunBalance | common/src/mempool.cpp:35-49 | Over every run, chunks out are chunks taken less chunks returned, the pool is never overdrawn and grows by exactly what was added |
| UdpEndpoint.Endpoint.Open | server/network/udp_server.cpp:17-29 | Beside users who already hold chunks, it throws if and only if all chunks are out; otherwise one receive is outstanding. The chunks already out keep their bytes |
| UdpEndpoint.Endpoint.AsyncReceive | server/network/udp_server.cpp:38-60 | Takes one chunk for the receive, and throws if and only if all are owned |
| UdpEndpoint.Endpoint.OnReceive | server/network/udp_server.cpp:43-53 | The handler sees exactly the datagram, the endpoint variable names its sender, the chunk goes back, and starting the next receive never fails |
| UdpEndpoint.Endpoint.AsyncSend | server/network/udp_server.cpp:63-77 | Ownership of the caller's chunk moves to the send, bytes unchanged, addressed to what the endpoint variable names at that moment |
| UdpEndpoint.Endpoint.OnSend | client/network/udp_client.cpp:71-86 | What is sent, and where to, is what chunk and endpoint variable held when the send was started, whatever happened since; the chunk goes back |
| UdpEndpoint.Endpoint.OnError | server/network/udp_server.cpp:54-57 | The chunk of a failed operation is owned by nobody and not free |
| UdpEndpoint.Endpoint.Available | server/network/udp_server.cpp:38-77 | Free chunks plus those receiving, sending, with the caller or stranded are the whole pool, and no chunk is owned twice |
| UdpEndpoint.WindowIsPrivate | server/network/udp_server.cpp:24-42 | The receive buffer is no longer than its chunk, lies inside a live block, and overlaps neither pool structures nor any other chunk |
| UdpEndpoint.Endpoint.ReceiveBufferInside | server/network/udp_server.cpp:40-42 | So does the buffer of the outstanding receive of every endpoint, beside all chunks others hold |
| UdpEndpoint.Endpoint.Run | client/network/udp_client.cpp:46-86 | Every run of completions, failures and application calls is explained by the ownership desk |
| UdpDesk.EveryChunkAccounted | server/network/udp_server.cpp:38-77 | Over every run one chunk is stranded per failure, never two receives are out, and the receive survives every success and no failure |
| UdpDesk.EveryDatagramAccounted | server/network/udp_server.cpp:63-77 | Over every run, for every payload and destination, times handed over equal times sent plus times lost plus times in flight, although receives overwrite the endpoint variable at any moment |
| UdpLaws.ReceivesExact | server/network/udp_server.cpp:41-57 | After every run each datagram of at most chunk_size_ bytes is delivered, and a failure noticed, exactly as long as no receive has failed |
| UdpLaws.OwnersExact | server/network/udp_server.cpp:63-77 | After every run the other answers depend on who owns the chunk, and on a chunk being left |
| UdpLaws.EffectsExact | server/network/udp_server.cpp:63-77 | What an answered event does to the one chunk it is about, all others staying as they are |
| UdpLaws.ReceiveEffectsExact | server/network/udp_server.cpp:43-57 | A completed receive gives up its chunk and another is started; a failed one leaves its chunk stranded |
| UdpLaws.FillExact | server/network/udp_server.cpp:63-66 | A write of the application puts the bytes where it says and leaves the others |
| UdpLaws.RemoteExact | server/network/udp_server.cpp:41-42 | The endpoint variable names whom a receive last put there |
| UdpLaws.SlotKept | server/network/udp_server.cpp:38-77 | Over every run a chunk no event names keeps owner and bytes |
| UdpLaws.SentAsHandedOver | client/network/udp_client.cpp:71-86 | From `async_send` to its completion, with any events between, what is sent is what the chunk held then, to the endpoint named then |
| UdpEndpoint.Life | server/network/udp_server.cpp:17-77 | From its constructor through every run: the answers are those the desk explains from the first receive on, free and owned chunks are the whole pool, at most one receive is out, it is out exactly if none failed, and as many chunks are stranded as operations failed |
| WriteQueue.Queue.OnPost | spike/asio_async_udp/client.cpp:24-33 | Queues the message and starts a send exactly when none is outstanding and none has failed |
| WriteQueue.Queue.OnSent | spike/asio_async_udp/client.cpp:36-49 | The message that left is the one the send was started with and the front of the queue; success goes on with the next, failure stops |
| WriteQueue.Queue.Run | spike/asio_async_udp/server.cpp:42-69 | Every order of posts and completions follows the abstract line, with at most one send outstanding |
| WriteQueue.RunKeepsOrder | spike/asio_async_udp/client.cpp:24-49 | Over every run sent, queued and posted messages are, in this order, exactly those asked for |
| WriteQueue.FailureWedges | spike/asio_async_udp/client.cpp:45-47 | After the first failed send nothing is ever sent again and the failed message stays in front |
| WriteQueue.AtRestAllSent | spike/asio_async_udp/client.cpp:24-49 | A run at rest has sent all messages in order if and only if no send failed |
| WriteQueue.HandlersAreBounded | spike/asio_async_udp/client.cpp:24-49 | Every request costs at most two handlers, so the event loop comes to rest |
| WriteQueue.Queue.Drain | spike/asio_async_udp/client.cpp:36-49 | Without errors, whatever handler the loop picks, all messages are sent in order |
| EchoServer.Server.OnReceive | spike/asio_async_udp/server.cpp:23-40 | Asks for one reply: the prefix and the received bytes, to the endpoint they came from |
| EchoServer.Server.Run | spike/asio_async_udp/server.cpp:23-69 | Every run drives the reply queue only by what was heard, although buffer and endpoint variable are overwritten at any moment |
| EchoServer.RepliesAreEchoes | spike/asio_async_udp/server.cpp:23-52 | Over every run the replies sent are a prefix of the echoes of what was heard, in order and to the senders |
| EchoServer.EchoExact | spike/asio_async_udp/server.cpp:32-33 | One reply per datagram, in order: the text behind the prefix, to the endpoint it came from |
| EchoServer.HeardExact | spike/asio_async_udp/server.cpp:23-40 | A datagram is heard exactly if it has at most 1024 bytes and no receive has failed before |
| EchoServer.TurnsExact | spike/asio_async_udp/server.cpp:42-69 | The write queue gets the event loop's turns as they come, and a reply for each datagram when it is heard |
| EchoServer.AtRestAllAnswered | spike/asio_async_udp/server.cpp:23-69 | A server at rest has answered all it heard if and only if no send failed |
| EchoServer.Serve | spike/asio_async_udp/server.cpp:12-81 | From construction on, reply i that was sent is "Echo: " and the text of datagram i that was heard, to its sender |
| UnidBlock.Block.Serialize | spike/benchmark/serializers/unidserial.cpp:58-97 | Every field sits big-endian at its offset in 26 bytes |
| UnidBlock.Block.Deserialize | spike/benchmark/serializers/unidserial.cpp:115-142 | The fields are the big-endian values at the offsets; a wrong size is refused and changes nothing |
| UnidBlock.HoldsDetermines | spike/benchmark/serializers/unidserial.cpp:33-40 | The six ranges tile the buffer, so the fields determine every byte |
| UnidBlock.HoldsExact | spike/benchmark/serializers/unidserial.cpp:33-40 | The format byte by byte: which four, two or eight bytes each field is, most significant first |
| UnidBlock.SwappedIsBig | spike/benchmark/serializers/unidserial.cpp:60-65 | The bytes of a swapped little-endian integer spell it in network order, for every width |
| UnidBlock.LoadedIsBig | spike/benchmark/serializers/unidserial.cpp:124-139 | Copying bytes into a little-endian integer and swapping it reads them in network order, and back |
| UnidBlock.WriteThenRead | spike/benchmark/serializers/unidserial.cpp:58-142 | Deserializing a serialized block restores it |
| UnidBlock.ReadThenWrite | spike/benchmark/serializers/unidserial.cpp:58-142 | Serializing a deserialized buffer restores all 26 bytes |

## Left out

- Ring buffers of capacity 0: `push` would index an empty vector; the model asks for at least one slot.
- CircularQueues.RunAll: for less than 2^31 slots, the range of the size-counted queue's `int` fields.
- The `size` field of the shared-memory queue under concurrent use: it is not atomic, so it is covered for one thread only. The constructor's `memset`, which clears a number of bytes rather than of elements, has no effect on the contents and is not modelled.
- Memory orders other than the acquire, release and relaxed accesses as used; CPU pinning and timing of the benchmark.
- The libpool builds with `LIBPOOL_THREAD_SAFE` or `LIBPOOL_NO_ALIGNMENT`, and the Valgrind annotations: the library is built without them.
- UdpEndpoint.Endpoint.OnReceive: the client's receive size is an uninitialised member, shadowed in its constructor (client/network/udp_client.cpp:28), so the statement about datagram and buffer is for the server's size.
- UdpEndpoint.Endpoint.Run: one endpoint and the application share a pool, as in both programs (server/main.cpp:39-47, client/main.cpp:42-49); two endpoints on one `Mempool` are not modelled.
- UdpEndpoint.Endpoint.AsyncReceive: it is public, but only the constructor and the receive handler call it, and so it is in a run.
- WriteQueue.Queue.Run: handlers posted to the event loop run in the order they were posted, as with one thread running it.
- EchoServer.Server.Run: datagrams longer than the 1024-byte buffer do not complete; what the operating system does with them is outside.
- Sockets, name resolution, threads, `main` functions, logging and printed output.
- `Config`, TOML dates, XDG paths and `Utility`: thin wrappers over other libraries.
- The event emitter, callback and shared-memory demonstrations, the other UDP demo pair and the FlatBuffers benchmark: they would only add easy or repeated members.
