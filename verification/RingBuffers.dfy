/** `ringbuffer` and `ringbuffer2` used by one thread at a time. Both are specified by their
    contents alone, so they cannot be told apart from outside. */
module RingBuffers {
  import opened RingIndex

  class RingBuffer {
    const data: array<int>
    var readIdx: nat
    var writeIdx: nat

    ghost predicate Valid()
      reads this
    {
      readIdx < data.Length && writeIdx < data.Length
    }

    ghost function Contents(): seq<int>
      requires Valid()
      reads this, data
    {
      Slice(data[..], readIdx, writeIdx)
    }

    constructor (capacity: nat)
      requires capacity > 0
      ensures Valid() && fresh(data) && data.Length == capacity && Contents() == []
    {
      data := new int[capacity](_ => 0);
      readIdx, writeIdx := 0, 0;
    }

    method Push(val: int) returns (ok: bool)
      requires Valid()
      modifies this, data
      ensures Valid()
      ensures ok <==> |old(Contents())| < data.Length - 1
      ensures Contents() == if ok then old(Contents()) + [val] else old(Contents())
    {
      SlicePush(data[..], readIdx, writeIdx, val);
      var nextWriteIdx := writeIdx + 1;
      if nextWriteIdx == data.Length {
        nextWriteIdx := 0;
      }
      if nextWriteIdx == readIdx {
        return false;
      }
      ghost var before := data[..];
      data[writeIdx] := val;
      assert data[..] == before[writeIdx := val];
      writeIdx := nextWriteIdx;
      return true;
    }

    /** A refused pop leaves the caller's variable as it was. */
    method Pop(val: int) returns (ok: bool, out: int)
      requires Valid()
      modifies this
      ensures Valid()
      ensures ok <==> old(Contents()) != []
      ensures ok ==> out == old(Contents())[0] && Contents() == old(Contents())[1..]
      ensures !ok ==> out == val && Contents() == old(Contents())
    {
      SlicePop(data[..], readIdx, writeIdx);
      if readIdx == writeIdx {
        return false, val;
      }
      out := data[readIdx];
      var nextReadIdx := readIdx + 1;
      if nextReadIdx == data.Length {
        nextReadIdx := 0;
      }
      readIdx := nextReadIdx;
      ok := true;
    }
  }

  class RingBuffer2 {
    const data: array<int>
    var readIdx: nat
    var writeIdxCached: nat
    var writeIdx: nat
    var readIdxCached: nat

    /** A cached index may lag behind the real one, never run ahead of it. */
    ghost predicate Valid()
      reads this
    {
      && readIdx < data.Length && writeIdx < data.Length
      && readIdxCached < data.Length && writeIdxCached < data.Length
      && Dist(readIdxCached, writeIdx, data.Length) >= Dist(readIdx, writeIdx, data.Length)
      && Dist(readIdx, writeIdxCached, data.Length) <= Dist(readIdx, writeIdx, data.Length)
    }

    ghost function Contents(): seq<int>
      requires Valid()
      reads this, data
    {
      Slice(data[..], readIdx, writeIdx)
    }

    constructor (capacity: nat)
      requires capacity > 0
      ensures Valid() && fresh(data) && data.Length == capacity && Contents() == []
    {
      data := new int[capacity](_ => 0);
      readIdx, writeIdx := 0, 0;
      readIdxCached, writeIdxCached := 0, 0;
    }

    method Push(val: int) returns (ok: bool)
      requires Valid()
      modifies this, data
      ensures Valid()
      ensures ok <==> |old(Contents())| < data.Length - 1
      ensures Contents() == if ok then old(Contents()) + [val] else old(Contents())
    {
      SlicePush(data[..], readIdx, writeIdx, val);
      var nextWriteIdx := writeIdx + 1;
      if nextWriteIdx == data.Length {
        nextWriteIdx := 0;
      }
      if nextWriteIdx == readIdxCached {
        readIdxCached := readIdx;
        if nextWriteIdx == readIdxCached {
          return false;
        }
      }
      ghost var before := data[..];
      data[writeIdx] := val;
      assert data[..] == before[writeIdx := val];
      writeIdx := nextWriteIdx;
      return true;
    }

    method Pop(val: int) returns (ok: bool, out: int)
      requires Valid()
      modifies this
      ensures Valid()
      ensures ok <==> old(Contents()) != []
      ensures ok ==> out == old(Contents())[0] && Contents() == old(Contents())[1..]
      ensures !ok ==> out == val && Contents() == old(Contents())
    {
      SlicePop(data[..], readIdx, writeIdx);
      if readIdx == writeIdxCached {
        writeIdxCached := writeIdx;
        if readIdx == writeIdxCached {
          return false, val;
        }
      }
      out := data[readIdx];
      var nextReadIdx := readIdx + 1;
      if nextReadIdx == data.Length {
        nextReadIdx := 0;
      }
      readIdx := nextReadIdx;
      ok := true;
    }
  }
}
