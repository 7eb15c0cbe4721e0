/** The two `Circular_queue` classes used by one thread at a time: the size-counted one, whose
    rear starts at -1 and which fills every slot, and the shared-memory one, which keeps a slot
    empty. Machine integers are written out where the source computes with them. */
module CircularQueues {
  import opened RingIndex
  import opened BoundedFifo
  import RingBuffers

  const TWO_TO_THE_31 := 0x8000_0000

  /** The `int` of the source: every result of an operation on it is shown to be in range. */
  newtype int32 = x: int | -0x8000_0000 <= x < 0x8000_0000

  const TWO_TO_THE_32 := 0x1_0000_0000

  /** The items of the size-counted queue. */
  function Window(d: seq<int>, front: nat, size: nat): (s: seq<int>)
    requires front <= |d| && size <= |d|
    ensures |s| == size
  {
    if front + size <= |d| then d[front..front + size] else d[front..] + d[..front + size - |d|]
  }

  /** `(i + 1) % capacity` on `int`, for the indices the queue uses. */
  method Advance(i: int32, capacity: int32) returns (r: int32)
    requires -1 <= i < capacity && 0 < capacity
    ensures r == if i + 1 == capacity then 0 else i + 1
  {
    if i >= 0 {
      RemainderWraps(i as int, capacity as int);
    } else {
      DivModUnique(0, capacity as int, 0, 0);
    }
    r := (i + 1) % capacity;
  }

  class SizedQueue {
    var front: int32
    var rear: int32
    const capacity: int32
    var size: int32
    const arr: array<int>

    ghost predicate Valid()
      reads this
    {
      && 0 <= capacity as int == arr.Length
      && 0 <= size <= capacity
      && (capacity == 0 ==> front == 0)
      && (capacity > 0 ==> 0 <= front < capacity)
      && -1 <= rear && (capacity > 0 ==> rear < capacity)
      && (capacity > 0 ==> Wrapped(rear as int + 1) == Wrapped(front as int + size as int))
    }

    ghost function Wrapped(i: int): int
    {
      if i >= capacity as int then i - capacity as int else i
    }

    ghost function Contents(): seq<int>
      requires Valid()
      reads this, arr
    {
      Window(arr[..], front as int, size as int)
    }

    constructor (k: nat)
      requires k < TWO_TO_THE_31
      ensures Valid() && fresh(arr) && arr.Length == k && Contents() == []
    {
      capacity := k as int32;
      arr := new int[k];
      front, rear, size := 0, -1, 0;
    }

    method Enqueue(value: int) returns (ok: bool)
      requires Valid()
      modifies this, arr
      ensures Valid()
      ensures ok <==> |old(Contents())| < arr.Length
      ensures Contents() == if ok then old(Contents()) + [value] else old(Contents())
      ensures size as int == |Contents()|
    {
      var full := IsFull();
      if full {
        return false;
      }
      rear := Advance(rear, capacity);
      ghost var before := arr[..];
      arr[rear] := value;
      assert arr[..] == before[rear as int := value];
      WindowPush(before, front as int, size as int, rear as int, value);
      size := size + 1;
      return true;
    }

    /** The source leaves the element in place; it is returned here so that it can be compared. */
    method Dequeue() returns (ok: bool, taken: int)
      requires Valid()
      modifies this
      ensures Valid()
      ensures ok <==> old(Contents()) != []
      ensures ok ==> taken == old(Contents())[0] && Contents() == old(Contents())[1..]
      ensures !ok ==> Contents() == old(Contents())
      ensures size as int == |Contents()|
    {
      var empty := IsEmpty();
      if empty {
        return false, 0;
      }
      taken := arr[front];
      WindowPop(arr[..], front as int, size as int);
      front := Advance(front, capacity);
      size := size - 1;
      ok := true;
    }

    method IsEmpty() returns (b: bool)
      requires Valid()
      ensures b <==> Contents() == []
    {
      return size == 0;
    }

    method IsFull() returns (b: bool)
      requires Valid()
      ensures b <==> |Contents()| == arr.Length
    {
      return size == capacity;
    }
  }

  lemma WindowPush(d: seq<int>, front: nat, size: nat, at: nat, v: int)
    requires front < |d| && size < |d|
    requires at == if front + size < |d| then front + size else front + size - |d|
    ensures Window(d[at := v], front, size + 1) == Window(d, front, size) + [v]
  {
    var d' := d[at := v];
    if front + size + 1 <= |d| {
      assert d'[front..front + size + 1] == d[front..front + size] + [v];
    } else if front + size == |d| {
      assert d'[front..] + d'[..1] == d[front..front + size] + [v];
    } else {
      assert d'[front..] + d'[..at + 1] == (d[front..] + d[..at]) + [v];
    }
  }

  lemma WindowPop(d: seq<int>, front: nat, size: nat)
    requires front < |d| && 0 < size <= |d|
    ensures Window(d, front, size)[0] == d[front]
    ensures Window(d, Next(front, |d|), size - 1) == Window(d, front, size)[1..]
  {
    var n := Next(front, |d|);
    if front + size <= |d| {
      assert n == 0 ==> size == 1;
      assert d[front..front + size][1..] == d[front + 1..front + size];
    } else if n == 0 {
      assert (d[front..] + d[..size - 1])[1..] == d[0..size - 1];
    } else {
      var k := front + size - |d|;
      assert (d[front..] + d[..k])[1..] == d[n..] + d[..k];
    }
  }

  /** Addition on `uint32_t`; subtracting one is adding the largest value. */
  method Plus(x: nat, y: nat) returns (r: nat)
    requires x < TWO_TO_THE_32 && y < TWO_TO_THE_32
    ensures r == if x + y < TWO_TO_THE_32 then x + y else x + y - TWO_TO_THE_32
  {
    r := (x + y) % TWO_TO_THE_32;
  }

  class IpcQueue {
    const queue: array<int>
    var front: nat
    var rear: nat
    const capacity: nat
    var size: nat

    ghost predicate Valid()
      reads this, queue
    {
      && 0 < capacity == queue.Length < TWO_TO_THE_32
      && front < capacity && rear < capacity
      && size == |Slice(queue[..], front, rear)|
    }

    ghost function Contents(): seq<int>
      requires Valid()
      reads this, queue
    {
      Slice(queue[..], front, rear)
    }

    constructor (cap: nat)
      requires 0 < cap < TWO_TO_THE_32
      ensures Valid() && fresh(queue) && capacity == cap && Contents() == []
    {
      capacity := cap;
      queue := new int[cap];
      front, rear, size := 0, 0, 0;
    }

    /** A capacity of zero is refused with an exception. */
    static method Create(cap: nat) returns (q: IpcQueue?)
      requires cap < TWO_TO_THE_32
      ensures q == null <==> cap == 0
      ensures q != null ==> fresh(q) && fresh(q.queue) && q.Valid() && q.capacity == cap && q.Contents() == []
    {
      if cap == 0 {
        return null;
      }
      q := new IpcQueue(cap);
    }

    method Increment(index: nat) returns (r: nat)
      requires index < capacity < TWO_TO_THE_32
      ensures r == Next(index, capacity)
    {
      RemainderWraps(index, capacity);
      r := ((index + 1) % TWO_TO_THE_32) % capacity;
    }

    /** `ok` is false where the source throws on overflow; it never returns false. */
    method Enqueue(unid: int) returns (ok: bool)
      requires Valid()
      modifies this, queue
      ensures Valid()
      ensures ok <==> |old(Contents())| < capacity - 1
      ensures Contents() == if ok then old(Contents()) + [unid] else old(Contents())
    {
      SlicePush(queue[..], front, rear, unid);
      var nextRear := Increment(rear);
      if nextRear != front {
        ghost var before := queue[..];
        queue[rear] := unid;
        assert queue[..] == before[rear := unid];
        rear := nextRear;
        size := Plus(size, 1);
        return true;
      }
      return false;
    }

    method Dequeue(unid: int) returns (ok: bool, out: int)
      requires Valid()
      modifies this
      ensures Valid()
      ensures ok <==> old(Contents()) != []
      ensures ok ==> out == old(Contents())[0] && Contents() == old(Contents())[1..]
      ensures !ok ==> out == unid && Contents() == old(Contents())
    {
      SlicePop(queue[..], front, rear);
      if front == rear {
        return false, unid;
      }
      out := queue[front];
      front := Increment(front);
      size := Plus(size, TWO_TO_THE_32 - 1);
      ok := true;
    }

    method WasEmpty() returns (b: bool)
      requires Valid()
      ensures b <==> Contents() == []
    {
      SlicePop(queue[..], front, rear);
      return front == rear;
    }

    method WasFull() returns (b: bool)
      requires Valid()
      ensures b <==> |Contents()| == capacity - 1
    {
      SlicePush(queue[..], front, rear, 0);
      var nextRear := Increment(rear);
      return nextRear == front;
    }
  }

  method RunPlain(room: nat, calls: seq<Call>) returns (log: seq<Reply>)
    requires room < TWO_TO_THE_31
    ensures log == Log(room, [], calls)
  {
    var queue := new RingBuffers.RingBuffer(room + 1);
    log := [];
    assert calls[..0] == [];
    for i := 0 to |calls|
      invariant queue.Valid() && fresh(queue) && fresh(queue.data) && queue.data.Length == room + 1
      invariant queue.Contents() == Final(room, [], calls[..i])
      invariant log == Log(room, [], calls[..i])
    {
      assert calls[..i + 1] == calls[..i] + [calls[i]];
      LogExtends(room, [], calls[..i], calls[i]);
      match calls[i] {
        case Push(v) =>
          var ok := queue.Push(v);
          log := log + [if ok then Accepted else Refused];
        case Pop =>
          var ok, v := queue.Pop(0);
          log := log + [if ok then Got(v) else Refused];
      }
    }
    assert calls[..|calls|] == calls;
  }

  method RunCached(room: nat, calls: seq<Call>) returns (log: seq<Reply>)
    requires room < TWO_TO_THE_31
    ensures log == Log(room, [], calls)
  {
    var queue := new RingBuffers.RingBuffer2(room + 1);
    log := [];
    assert calls[..0] == [];
    for i := 0 to |calls|
      invariant queue.Valid() && fresh(queue) && fresh(queue.data) && queue.data.Length == room + 1
      invariant queue.Contents() == Final(room, [], calls[..i])
      invariant log == Log(room, [], calls[..i])
    {
      assert calls[..i + 1] == calls[..i] + [calls[i]];
      LogExtends(room, [], calls[..i], calls[i]);
      match calls[i] {
        case Push(v) =>
          var ok := queue.Push(v);
          log := log + [if ok then Accepted else Refused];
        case Pop =>
          var ok, v := queue.Pop(0);
          log := log + [if ok then Got(v) else Refused];
      }
    }
    assert calls[..|calls|] == calls;
  }

  method RunIpc(room: nat, calls: seq<Call>) returns (log: seq<Reply>)
    requires room < TWO_TO_THE_31
    ensures log == Log(room, [], calls)
  {
    var queue := new IpcQueue(room + 1);
    log := [];
    assert calls[..0] == [];
    for i := 0 to |calls|
      invariant queue.Valid() && fresh(queue) && fresh(queue.queue) && queue.queue.Length == room + 1
      invariant queue.Contents() == Final(room, [], calls[..i])
      invariant log == Log(room, [], calls[..i])
    {
      assert calls[..i + 1] == calls[..i] + [calls[i]];
      LogExtends(room, [], calls[..i], calls[i]);
      match calls[i] {
        case Push(v) =>
          var ok := queue.Enqueue(v);
          log := log + [if ok then Accepted else Refused];
        case Pop =>
          var ok, v := queue.Dequeue(0);
          log := log + [if ok then Got(v) else Refused];
      }
    }
    assert calls[..|calls|] == calls;
  }

  method RunSized(room: nat, calls: seq<Call>) returns (log: seq<Reply>)
    requires room < TWO_TO_THE_31
    ensures log == Log(room, [], calls)
  {
    var queue := new SizedQueue(room);
    log := [];
    assert calls[..0] == [];
    for i := 0 to |calls|
      invariant queue.Valid() && fresh(queue) && fresh(queue.arr) && queue.arr.Length == room
      invariant queue.Contents() == Final(room, [], calls[..i])
      invariant log == Log(room, [], calls[..i])
    {
      assert calls[..i + 1] == calls[..i] + [calls[i]];
      LogExtends(room, [], calls[..i], calls[i]);
      match calls[i] {
        case Push(v) =>
          var ok := queue.Enqueue(v);
          log := log + [if ok then Accepted else Refused];
        case Pop =>
          var ok, v := queue.Dequeue();
          log := log + [if ok then Got(v) else Refused];
      }
    }
    assert calls[..|calls|] == calls;
  }

  /** Any sequence of calls gets the same replies from all four queues: the three that keep a
      slot empty, built with one slot more, and the size-counted one. */
  method RunAll(room: nat, calls: seq<Call>)
    returns (plain: seq<Reply>, cached: seq<Reply>, ipc: seq<Reply>, sized: seq<Reply>)
    requires room < TWO_TO_THE_31
    ensures plain == cached == ipc == sized == Log(room, [], calls)
  {
    plain := RunPlain(room, calls);
    cached := RunCached(room, calls);
    ipc := RunIpc(room, calls);
    sized := RunSized(room, calls);
  }
}
