/** `Mempool`, the C++ wrapper around one pool. Exceptions are results: a refused allocation
    throws, and so does a failed expansion, after destroying the pool. */
module MempoolModel {
  import opened Memory
  import opened PoolModel
  import opened LibPool
  import opened Neighbours

  datatype Stats = Stats(chunkSz: nat, poolSz: nat, extraSz: nat, available: nat)

  class Mempool {
    const heap: Allocator
    const poolSz: nat
    const chunkSz: nat
    var extraSz: nat
    const pool: nat
    ghost var view: View

    ghost predicate Valid()
      reads this, heap
    {
      && pool != 0
      && 0 < chunkSz <= ADDRESS_SPACE - POINTER_SIZE
      && view.chunk == Align(chunkSz)
      && Total(view.arrays) == poolSz + extraSz
      && PoolValid(heap.bytes, heap.blocks, pool, view)
    }

    /** The chunks handed out and not yet given back. */
    ghost function Out(): set<nat>
      reads this
    {
      Outstanding(view)
    }

    /** The blocks of the external allocator this pool holds. */
    ghost function Mine(): set<nat>
      reads this
    {
      OwnedBlocks(pool, view)
    }

    /** The same, for a pool that may have been destroyed. */
    ghost function Holding(alive: bool): set<nat>
      reads this
    {
      if alive then Mine() else {}
    }

    constructor FromPool(heap: Allocator, poolSz: nat, chunkSz: nat, pool: nat, ghost view: View)
      requires pool != 0 && 0 < chunkSz <= ADDRESS_SPACE - POINTER_SIZE
      requires PoolValid(heap.bytes, heap.blocks, pool, view) && IsNew(view, poolSz, Align(chunkSz))
      ensures Valid() && this.heap == heap && this.poolSz == poolSz && this.chunkSz == chunkSz
      ensures this.pool == pool && this.view == view && extraSz == 0 && Out() == {}
    {
      this.heap, this.poolSz, this.chunkSz, this.pool := heap, poolSz, chunkSz, pool;
      this.extraSz, this.view := 0, view;
    }

    /** The constructor of the source; null stands for its exception. */
    static method Create(heap: Allocator, poolSz: nat, chunkSz: nat, choices: (nat, nat, nat))
      returns (m: Mempool?)
      requires BlocksValid(heap.blocks)
      requires 0 < chunkSz <= ADDRESS_SPACE - POINTER_SIZE && Span(poolSz, Align(chunkSz)) < ADDRESS_SPACE
      modifies heap
      ensures BlocksValid(heap.blocks) && BlocksKept(old(heap.bytes), heap.bytes, old(heap.blocks))
      ensures m != null <==> poolSz > 0 && GrantsNew(old(heap.blocks), choices, Span(poolSz, Align(chunkSz)))
      ensures OthersKept(old(heap.bytes), old(heap.blocks), {}, heap.bytes, heap.blocks,
                         if m == null then {} else m.Mine())
      ensures m == null ==> heap.blocks == old(heap.blocks)
      ensures m != null ==>
                && fresh(m) && m.Valid() && m.heap == heap && m.poolSz == poolSz && m.chunkSz == chunkSz
                && m.extraSz == 0 && m.Out() == {}
    {
      ghost var bytes, blocks := heap.bytes, heap.blocks;
      var pool;
      ghost var v;
      pool, v := heap.PoolNew(poolSz, chunkSz, choices);
      if pool == 0 {
        NewOthers(bytes, blocks, heap.bytes, heap.blocks, {});
        return null;
      }
      NewOthers(bytes, blocks, heap.bytes, heap.blocks, OwnedBlocks(pool, v));
      m := new Mempool.FromPool(heap, poolSz, chunkSz, pool, v);
    }

    /** 0 stands for the exception: it is thrown exactly when every chunk is out. */
    method Alloc() returns (chunk: nat)
      requires Valid()
      modifies this`view, heap`bytes
      ensures Valid()
      ensures chunk == 0 <==> |old(Out())| == poolSz + extraSz
      ensures chunk == 0 ==> view == old(view) && heap.bytes == old(heap.bytes)
      ensures chunk != 0 ==>
                && old(view).free != [] && chunk == old(view).free[0] && view == Popped(old(view))
                && chunk !in old(Out()) && Out() == old(Out()) + {chunk}
                && SameOutside(old(heap.bytes), heap.bytes, pool, POINTER_SIZE)
      ensures OthersKept(old(heap.bytes), heap.blocks, old(Mine()), heap.bytes, heap.blocks, Mine())
    {
      AllocAccounting(heap.bytes, heap.blocks, pool, view);
      chunk := TakeHead();
    }

    method TakeHead() returns (chunk: nat)
      requires Valid()
      modifies this`view, heap`bytes
      ensures Valid()
      ensures chunk == 0 <==> old(view).free == []
      ensures chunk == 0 ==> view == old(view) && heap.bytes == old(heap.bytes)
      ensures chunk != 0 ==>
                && chunk == old(view).free[0] && view == Popped(old(view))
                && SameOutside(old(heap.bytes), heap.bytes, pool, POINTER_SIZE)
      ensures OthersKept(old(heap.bytes), heap.blocks, old(Mine()), heap.bytes, heap.blocks, Mine())
    {
      ghost var m, v := heap.bytes, view;
      chunk := heap.PoolAlloc(pool, v);
      if chunk != 0 {
        AllocOthers(m, heap.bytes, heap.blocks, pool, v);
        view := Popped(v);
      }
    }

    method Free(ptr: nat)
      requires Valid() && (ptr == 0 || ptr in Out())
      modifies this`view, heap`bytes
      ensures Valid()
      ensures ptr == 0 ==> view == old(view) && heap.bytes == old(heap.bytes)
      ensures ptr != 0 ==>
                && view == Pushed(old(view), ptr) && Out() == old(Out()) - {ptr}
                && SameOutsideTwo(old(heap.bytes), heap.bytes, pool, POINTER_SIZE, ptr, POINTER_SIZE)
      ensures OthersKept(old(heap.bytes), heap.blocks, old(Mine()), heap.bytes, heap.blocks, Mine())
    {
      ghost var bytes := heap.bytes;
      heap.PoolFree(pool, ptr, view);
      if ptr != 0 {
        FreeOthers(bytes, heap.bytes, heap.blocks, pool, view, ptr);
        PushedOutstanding(view, ptr);
        view := Pushed(view, ptr);
      }
    }

    /** A failed expansion has destroyed the pool although `pool` still names it. */
    method Expand(extra: nat, choices: (nat, nat)) returns (ok: bool)
      requires Valid() && Span(extra, view.chunk) < ADDRESS_SPACE
      modifies this`view, this`extraSz, heap
      ensures Valid() <==> ok
      ensures ok <==> extra > 0 && Grants(old(heap.blocks), choices, Span(extra, old(view).chunk))
      ensures ok ==>
                && extraSz == old(extraSz) + extra && IsGrown(old(view), view, extra)
                && KeptBut(old(heap.bytes), heap.bytes, old(heap.blocks), pool, 2 * POINTER_SIZE)
                && heap.blocks == MoreBlocks(old(heap.blocks), choices, Span(extra, view.chunk))
                && Added(old(heap.blocks), heap.blocks, Mine() - old(Mine()))
      ensures !ok ==>
                && extraSz == old(extraSz) && view == old(view)
                && heap.blocks == old(heap.blocks) - Mine()
      ensures OthersKept(old(heap.bytes), old(heap.blocks), old(Mine()), heap.bytes, heap.blocks,
                         Holding(ok))
    {
      ok := TryExpand(extra, choices);
      if !ok {
        Destroy();
        assert pool !in heap.blocks;
      }
    }

    method TryExpand(extra: nat, choices: (nat, nat)) returns (ok: bool)
      requires Valid() && Span(extra, view.chunk) < ADDRESS_SPACE
      modifies this`view, this`extraSz, heap
      ensures Valid()
      ensures ok <==> extra > 0 && Grants(old(heap.blocks), choices, Span(extra, old(view).chunk))
      ensures ok ==>
                && extraSz == old(extraSz) + extra
                && Expanded(old(heap.bytes), old(heap.blocks), heap.bytes, heap.blocks, pool, old(view), view, extra)
                && heap.blocks == MoreBlocks(old(heap.blocks), choices, Span(extra, old(view).chunk))
                && OthersKept(old(heap.bytes), old(heap.blocks), old(Mine()), heap.bytes, heap.blocks, Mine())
      ensures !ok ==>
                && extraSz == old(extraSz) && view == old(view)
                && heap.bytes == old(heap.bytes) && heap.blocks == old(heap.blocks)
    {
      ghost var v';
      ok, v' := Grow(extra, choices, view);
      if ok {
        view := v';
        extraSz := extraSz + extra;
      }
    }

    method Grow(extra: nat, choices: (nat, nat), ghost v: View) returns (ok: bool, ghost v': View)
      requires pool != 0 && PoolValid(heap.bytes, heap.blocks, pool, v) && Span(extra, v.chunk) < ADDRESS_SPACE
      modifies heap
      ensures ok <==> extra > 0 && Grants(old(heap.blocks), choices, Span(extra, v.chunk))
      ensures ok ==>
                && Expanded(old(heap.bytes), old(heap.blocks), heap.bytes, heap.blocks, pool, v, v', extra)
                && heap.blocks == MoreBlocks(old(heap.blocks), choices, Span(extra, v.chunk))
                && OthersKept(old(heap.bytes), old(heap.blocks), OwnedBlocks(pool, v),
                              heap.bytes, heap.blocks, OwnedBlocks(pool, v'))
      ensures !ok ==> heap.bytes == old(heap.bytes) && heap.blocks == old(heap.blocks)
    {
      ghost var m, blocks := heap.bytes, heap.blocks;
      ok, v' := heap.PoolExpand(pool, extra, choices, v);
      if ok {
        ExpandOthers(m, blocks, heap.bytes, heap.blocks, pool, v, v', extra);
      }
    }

    /** The destructor. It needs a pool that is still there, which a failed expansion, the only
        operation above that does not keep `Valid()`, takes away. */
    method Destroy()
      requires Valid()
      modifies heap`blocks
      ensures heap.blocks == old(heap.blocks) - Mine()
      ensures OthersKept(heap.bytes, old(heap.blocks), Mine(), heap.bytes, heap.blocks, {})
    {
      DestroyOthers(heap.bytes, heap.blocks, pool, view);
      heap.PoolDestroy(pool, view);
    }

    /** The counters add up, and none of them wraps. */
    method Report() returns (s: Stats)
      requires Valid()
      ensures s == Stats(chunkSz, poolSz, extraSz, |view.free|)
      ensures s.available + |Out()| == s.poolSz + s.extraSz < ADDRESS_SPACE
    {
      Conservation(heap.bytes, heap.blocks, pool, view);
      TotalFits(heap.bytes, heap.blocks, pool, view);
      var available := heap.PoolAvailable(pool, view);
      return Stats(chunkSz, poolSz, extraSz, available);
    }

    /** A user, or the kernel on a user's behalf, writes into a chunk it holds. */
    method Write(c: nat, offset: nat, data: seq<byte>)
      requires Valid() && c in Out() && offset + |data| <= view.chunk
      modifies heap`bytes
      ensures Valid() && heap.bytes == Store(old(heap.bytes), c + offset, data)
      ensures OthersKept(old(heap.bytes), heap.blocks, Mine(), heap.bytes, heap.blocks, Mine())
    {
      ghost var before := heap.bytes;
      heap.bytes := Store(heap.bytes, c + offset, data);
      ChunkWriteKeepsPool(before, heap.bytes, heap.blocks, pool, view, c);
      ChunkWriteOthers(before, heap.bytes, heap.blocks, pool, view, c, c + offset, |data|);
    }
  }
}
