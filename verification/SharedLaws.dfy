/** What the stand of `SharedRuns` comes to: every pool is answered from its own calls alone. */
module SharedLaws {
  import opened Memory
  import opened PoolModel
  import opened LibPool
  import opened SharedRuns

  predicate Even(st: Stand) {
    |st.shelves| == |st.owned|
  }

  lemma {:induction false} AnswersOneMore(st: Stand, ops: seq<Op>, op: Op)
    requires Even(st)
    ensures Answers(st, ops + [op]) == Answers(st, ops) + [Answer(AfterAll(st, ops), op)]
    ensures AfterAll(st, ops + [op]) == After(AfterAll(st, ops), op)
    decreases |ops|
  {
    if ops == [] {
      assert ops + [op] == [op] && [op][1..] == [];
      AfterEven(st, op);
    } else {
      assert (ops + [op])[0] == ops[0] && (ops + [op])[1..] == ops[1..] + [op];
      AfterEven(st, ops[0]);
      AnswersOneMore(After(st, ops[0]), ops[1..], op);
    }
  }

  /** How many chunks a call takes out of pool i, and how many it adds to it. */
  function OutBy(i: int, op: Op, r: Reply): int {
    if r == Yes && op.Take? && op.i == i then 1 else if r == Yes && op.Give? && op.i == i then -1 else 0
  }

  function MoreBy(i: int, op: Op, r: Reply): nat {
    if r == Yes && op.Grow? && op.i == i then op.extra else 0
  }

  /** Where pool i is listed after a call: dropping one before it moves it down, dropping it ends
      its story. */
  function Moved(i: int, op: Op, r: Reply): int {
    if r == Yes && op.Drop? && op.i <= i then (if op.i == i then -1 else i - 1) else i
  }

  function Place(i: int, ops: seq<Op>, replies: seq<Reply>): int
    decreases |ops|
  {
    if i < 0 || ops == [] || replies == [] then i else Place(Moved(i, ops[0], replies[0]), ops[1..], replies[1..])
  }

  function AllOut(i: int, ops: seq<Op>, replies: seq<Reply>): int
    decreases |ops|
  {
    if i < 0 || ops == [] || replies == [] then 0
    else OutBy(i, ops[0], replies[0]) + AllOut(Moved(i, ops[0], replies[0]), ops[1..], replies[1..])
  }

  function AllMore(i: int, ops: seq<Op>, replies: seq<Reply>): nat
    decreases |ops|
  {
    if i < 0 || ops == [] || replies == [] then 0
    else MoreBy(i, ops[0], replies[0]) + AllMore(Moved(i, ops[0], replies[0]), ops[1..], replies[1..])
  }

  lemma OneStep(st: Stand, op: Op, i: nat)
    requires Even(st) && i < |st.shelves| && Moved(i, op, Answer(st, op)) >= 0
    ensures var r, st' := Answer(st, op), After(st, op);
            var j, sh := Moved(i, op, r), st.shelves[i];
            && j < |st'.shelves| && st'.shelves[j].size == sh.size
            && st'.shelves[j].out == sh.out + OutBy(i, op, r)
            && st'.shelves[j].total == sh.total + MoreBy(i, op, r)
  {
  }

  /** Over every run, the state of a pool is that of its own calls, whatever is done to others. */
  lemma {:induction false} PoolAlone(st: Stand, ops: seq<Op>, i: nat)
    requires Even(st) && i < |st.shelves| && Place(i, ops, Answers(st, ops)) >= 0
    ensures var replies, sh := Answers(st, ops), st.shelves[i];
            var j, shelves := Place(i, ops, replies), AfterAll(st, ops).shelves;
            && j < |shelves| && shelves[j].size == sh.size
            && shelves[j].out == sh.out + AllOut(i, ops, replies)
            && shelves[j].total == sh.total + AllMore(i, ops, replies)
    decreases |ops|
  {
    if ops != [] {
      var r := Answer(st, ops[0]);
      AfterEven(st, ops[0]);
      assert Answers(st, ops)[1..] == Answers(After(st, ops[0]), ops[1..]);
      StillThere(Moved(i, ops[0], r), ops[1..], Answers(st, ops)[1..]);
      OneStep(st, ops[0], i);
      PoolAlone(After(st, ops[0]), ops[1..], Moved(i, ops[0], r));
    }
  }

  lemma StillThere(i: int, ops: seq<Op>, replies: seq<Reply>)
    requires Place(i, ops, replies) >= 0
    ensures i >= 0
  {
  }

  /** So after any run a pool grants a chunk exactly while its own calls leave one, and takes one
      back exactly from those that are out. */
  lemma PoolAnswersExact(st: Stand, ops: seq<Op>, i: nat, op: Op)
    requires Even(st) && i < |st.shelves| && Place(i, ops, Answers(st, ops)) >= 0
    requires (op.Take? || op.Give?) && op.i == Place(i, ops, Answers(st, ops))
    ensures var replies, sh := Answers(st, ops), st.shelves[i];
            var out, total := sh.out + AllOut(i, ops, replies), sh.total + AllMore(i, ops, replies);
            Answers(st, ops + [op])
              == replies + [if op.Take? then (if out < total then Yes else No) else if op.k < out then Yes else Skipped]
  {
    AnswersOneMore(st, ops, op);
    PoolAlone(st, ops, i);
  }

  /** A pool is made exactly if the sizes can be counted, the size is not zero and the external
      allocator grants all three requests; it then has all its chunks in. */
  lemma NewPoolExact(st: Stand, ops: seq<Op>, op: Op)
    requires Even(st) && op.NewPool?
    ensures var st1, st2, size := AfterAll(st, ops), AfterAll(st, ops + [op]), Span(op.poolSz, Align(op.chunkSz));
            var sized := 0 < op.chunkSz <= ADDRESS_SPACE - POINTER_SIZE && size < ADDRESS_SPACE;
            if !sized then Answers(st, ops + [op]) == Answers(st, ops) + [Skipped]
            else if op.poolSz > 0 && GrantsNew(st1.blocks, op.threeChoices, size)
            then Answers(st, ops + [op]) == Answers(st, ops) + [Yes]
                 && st2.shelves == st1.shelves + [Shelf(op.poolSz, 0, Align(op.chunkSz))]
            else Answers(st, ops + [op]) == Answers(st, ops) + [No] && st2 == st1
  {
    AnswersOneMore(st, ops, op);
  }

  /** A pool grows exactly if asked for something the external allocator grants, and any pool
      there is can be dropped. */
  lemma GrowAndDropExact(st: Stand, ops: seq<Op>, op: Op)
    requires Even(st) && (op.Grow? || op.Drop?)
    ensures var st1, answers := AfterAll(st, ops), Answers(st, ops);
            if op.i >= |st1.shelves| then Answers(st, ops + [op]) == answers + [Skipped]
            else if op.Drop?
            then Answers(st, ops + [op]) == answers + [Yes]
                 && AfterAll(st, ops + [op]).shelves == st1.shelves[..op.i] + st1.shelves[op.i + 1..]
            else
              var size := Span(op.extra, st1.shelves[op.i].size);
              Answers(st, ops + [op])
                == answers + [if size >= ADDRESS_SPACE then Skipped
                              else if op.extra > 0 && Grants(st1.blocks, op.twoChoices, size) then Yes else No]
  {
    AnswersOneMore(st, ops, op);
  }
}
