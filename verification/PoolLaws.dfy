/** What the ledger of `PoolRuns` comes to, in terms of what was asked and answered: when each call
    succeeds, and that every chunk keeps the bytes its own user gave it. */
module PoolLaws {
  import opened Memory
  import opened PoolModel
  import opened LibPool
  import opened PoolRuns

  lemma {:induction false} ExplainsPrefix(l: Ledger, ops: seq<Op>, outs: seq<Outcome>, op: Op, out: Outcome)
    requires |ops| == |outs| && Broken !in outs && Explains(l, ops + [op], outs + [out])
    ensures Explains(l, ops, outs) && Allowed(AfterAll(l, ops, outs), op, out)
    ensures AfterAll(l, ops, outs).size == l.size
    ensures AfterAll(l, ops + [op], outs + [out]) == After(AfterAll(l, ops, outs), op, out)
    decreases |ops|
  {
    var ops', outs' := ops + [op], outs + [out];
    if ops == [] {
      assert ops'[1..] == [] && ops'[0] == op && outs'[0] == out;
    } else {
      assert ops'[0] == ops[0] && outs'[0] == outs[0] && outs[0] in outs;
      assert ops'[1..] == ops[1..] + [op] && outs'[1..] == outs[1..] + [out];
      ExplainsPrefix(After(l, ops[0], outs[0]), ops[1..], outs[1..], op, out);
    }
  }

  /** Chunks out, and chunks there are, after what was answered so far. */
  function Out(l: Ledger, ops: seq<Op>, outs: seq<Outcome>): int {
    |l.bufs| + Taken(ops, outs) - Returned(ops, outs)
  }

  function Capacity(l: Ledger, ops: seq<Op>, outs: seq<Outcome>): nat {
    l.total + Bought(ops, outs)
  }

  /** Every answer of every run: a chunk is granted exactly while one is left; releases, reads and
      writes are done exactly for a chunk that is out and bytes inside it; the statistics are the
      chunks left; an expansion succeeds exactly if it is for something and granted. */
  lemma AnswersExact(l: Ledger, ops: seq<Op>, outs: seq<Outcome>, op: Op, out: Outcome)
    requires |ops| == |outs| && Broken !in outs && Explains(l, ops + [op], outs + [out])
    requires |l.bufs| <= l.total
    ensures op.OpAlloc? ==>
              if Out(l, ops, outs) < Capacity(l, ops, outs) then out.Got? && |out.contents| == l.size
              else out == Thrown
    ensures op.OpFree? ==> out == if op.k < Out(l, ops, outs) then Done else Ignored
    ensures op.OpRead? ==> if op.k < Out(l, ops, outs) then out.Contents? else out == Ignored
    ensures op.OpWrite? ==>
              out == if op.k < Out(l, ops, outs) && op.offset + |op.data| <= l.size then Done else Ignored
    ensures op.OpStats? ==> out.Available? && out.count == Capacity(l, ops, outs) - Out(l, ops, outs)
    ensures op.OpExpand? ==>
              var size := Span(op.extra, l.size);
              out == if size >= ADDRESS_SPACE then Ignored
                     else if op.extra > 0 && Grants(AfterAll(l, ops, outs).blocks, op.choices, size) then Done
                     else Broken
  {
    ExplainsPrefix(l, ops, outs, op, out);
    RunBalance(l, ops, outs);
  }

  // ---------------------------------------------------------------------------------------
  // The bytes of one chunk

  /** Where a user's chunk is listed after a call: releasing an older one moves it down, releasing
      it ends its story. */
  function Moved(k: int, op: Op, out: Outcome): int {
    if op.OpFree? && out == Done && op.k <= k then (if op.k == k then -1 else k - 1) else k
  }

  function Place(k: int, ops: seq<Op>, outs: seq<Outcome>): int
    decreases |ops|
  {
    if k < 0 || ops == [] || outs == [] then k else Place(Moved(k, ops[0], outs[0]), ops[1..], outs[1..])
  }

  predicate Unwritten(k: int, ops: seq<Op>, outs: seq<Outcome>)
    decreases |ops|
  {
    k < 0 || ops == [] || outs == []
    || (!(ops[0].OpWrite? && ops[0].k == k) && Unwritten(Moved(k, ops[0], outs[0]), ops[1..], outs[1..]))
  }

  lemma OneBufferKept(l: Ledger, op: Op, out: Outcome, k: nat)
    requires Allowed(l, op, out) && k < |l.bufs| && !(op.OpWrite? && op.k == k) && Moved(k, op, out) >= 0
    ensures Moved(k, op, out) < |After(l, op, out).bufs|
    ensures After(l, op, out).bufs[Moved(k, op, out)] == l.bufs[k]
  {
  }

  /** Whatever others do, a chunk its own user does not write keeps its bytes. */
  lemma {:induction false} BufferKept(l: Ledger, ops: seq<Op>, outs: seq<Outcome>, k: nat)
    requires Explains(l, ops, outs) && Broken !in outs && k < |l.bufs|
    requires Unwritten(k, ops, outs) && Place(k, ops, outs) >= 0
    ensures Place(k, ops, outs) < |AfterAll(l, ops, outs).bufs|
    ensures AfterAll(l, ops, outs).bufs[Place(k, ops, outs)] == l.bufs[k]
    decreases |ops|
  {
    if ops != [] {
      assert outs[0] in outs;
      StaysOut(Moved(k, ops[0], outs[0]), ops[1..], outs[1..]);
      OneBufferKept(l, ops[0], outs[0], k);
      BufferKept(After(l, ops[0], outs[0]), ops[1..], outs[1..], Moved(k, ops[0], outs[0]));
    }
  }

  /** A story that has ended does not go on. */
  lemma StaysOut(k: int, ops: seq<Op>, outs: seq<Outcome>)
    requires Place(k, ops, outs) >= 0
    ensures k >= 0
  {
  }

  /** What is read is what the chunk held, however many calls about other chunks came between. */
  lemma ReadYields(l: Ledger, ops: seq<Op>, outs: seq<Outcome>, k: nat, out: Outcome)
    requires |ops| == |outs| && Broken !in outs && k < |l.bufs|
    requires Unwritten(k, ops, outs) && Place(k, ops, outs) >= 0
    requires Explains(l, ops + [OpRead(Place(k, ops, outs))], outs + [out])
    ensures out == Contents(l.bufs[k])
  {
    ExplainsPrefix(l, ops, outs, OpRead(Place(k, ops, outs)), out);
    BufferKept(l, ops, outs, k);
  }

  /** In particular after the release of another chunk. */
  lemma {:induction false} ReadAfterFree(l: Ledger, k: nat, j: nat, outs: seq<Outcome>)
    requires Explains(l, [OpFree(k), OpRead(j)], outs) && k < |l.bufs| && j < |l.bufs| - 1
    ensures |outs| == 2 && outs[0] == Done && outs[1] == Contents(l.bufs[if j < k then j else j + 1])
  {
    var ops := [OpFree(k), OpRead(j)];
    var l', rest := After(l, OpFree(k), Done), outs[1..];
    assert ops[0] == OpFree(k) && ops[1..] == [OpRead(j)] && ops[1..][1..] == [];
    assert Explains(l', ops[1..], rest);
    assert Allowed(l', OpRead(j), rest[0]) && Explains(After(l', OpRead(j), rest[0]), [], rest[1..]);
    assert outs == [outs[0]] + [outs[1]] && ops == [OpFree(k)] + [OpRead(j)];
    FreedPlace(k, j);
    ReadYields(l, [OpFree(k)], [outs[0]], if j < k then j else j + 1, outs[1]);
  }

  lemma FreedPlace(k: nat, j: nat)
    ensures var i := if j < k then j else j + 1;
            Place(i, [OpFree(k)], [Done]) == j && Unwritten(i, [OpFree(k)], [Done])
  {
    assert [OpFree(k)][1..] == [];
  }

  /** After a write and any calls about other chunks, a read yields the written bytes where they
      were written and the old ones everywhere else. */
  lemma ReadAfterWrite(l: Ledger, k: nat, offset: nat, data: seq<byte>, ops: seq<Op>, outs: seq<Outcome>, out: Outcome)
    requires k < |l.bufs| && |l.bufs[k]| == l.size && offset + |data| <= l.size
    requires |ops| == |outs| && Broken !in outs && Unwritten(k, ops, outs) && Place(k, ops, outs) >= 0
    requires Explains(l, [OpWrite(k, offset, data)] + (ops + [OpRead(Place(k, ops, outs))]), [Done] + (outs + [out]))
    ensures out.Contents? && |out.data| == l.size && out.data[offset..offset + |data|] == data
    ensures forall i | 0 <= i < l.size && !(offset <= i < offset + |data|) :: out.data[i] == l.bufs[k][i]
  {
    var op := OpWrite(k, offset, data);
    var ops', outs' := ops + [OpRead(Place(k, ops, outs))], outs + [out];
    assert ([op] + ops')[1..] == ops' && ([Done] + outs')[1..] == outs';
    ReadYields(After(l, op, Done), ops, outs, k, out);
  }

  /** A chunk just granted holds what its user was shown. */
  lemma ReadAfterAlloc(l: Ledger, contents: seq<byte>, ops: seq<Op>, outs: seq<Outcome>, out: Outcome)
    requires |ops| == |outs| && Broken !in outs
    requires Unwritten(|l.bufs|, ops, outs) && Place(|l.bufs|, ops, outs) >= 0
    requires Explains(l, [OpAlloc] + (ops + [OpRead(Place(|l.bufs|, ops, outs))]), [Got(contents)] + (outs + [out]))
    ensures out == Contents(contents)
  {
    var ops', outs' := ops + [OpRead(Place(|l.bufs|, ops, outs))], outs + [out];
    assert ([OpAlloc] + ops')[1..] == ops' && ([Got(contents)] + outs')[1..] == outs';
    ReadYields(After(l, OpAlloc, Got(contents)), ops, outs, |l.bufs|, out);
  }
}
