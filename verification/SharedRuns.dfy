/** Whole runs of any number of pools on one heap, with operations on them mixed in any order. */
module SharedRuns {
  import opened Memory
  import opened PoolModel
  import opened LibPool
  import opened Neighbours

  /** The reference for one pool: how many chunks it has, how many are out, how big they are. */
  datatype Shelf = Shelf(total: nat, out: nat, size: nat)

  /** All pools, the blocks each has of the external allocator, and all live blocks. */
  datatype Stand = Stand(shelves: seq<Shelf>, owned: seq<set<nat>>, blocks: Blocks)

  datatype Op =
    | NewPool(poolSz: nat, chunkSz: nat, threeChoices: (nat, nat, nat))
    | Take(i: nat)
    | Give(i: nat, k: nat)
    | Grow(i: nat, extra: nat, twoChoices: (nat, nat))
    | Drop(i: nat)

  datatype Reply = Yes | No | Skipped

  /** Calls no correct program makes are not passed on. */
  predicate Sensible(shelves: seq<Shelf>, op: Op) {
    match op
    case NewPool(poolSz, chunkSz, _) =>
      0 < chunkSz <= ADDRESS_SPACE - POINTER_SIZE && Span(poolSz, Align(chunkSz)) < ADDRESS_SPACE
    case Take(i) => i < |shelves|
    case Give(i, k) => i < |shelves| && k < shelves[i].out
    case Grow(i, extra, _) => i < |shelves| && Span(extra, shelves[i].size) < ADDRESS_SPACE
    case Drop(i) => i < |shelves|
  }

  /** Whether the call succeeds: every pool answers from its own shelf, and the external allocator
      from the live blocks. */
  predicate Succeeds(st: Stand, op: Op)
    requires Sensible(st.shelves, op)
  {
    match op
    case NewPool(poolSz, chunkSz, choices) =>
      poolSz > 0 && GrantsNew(st.blocks, choices, Span(poolSz, Align(chunkSz)))
    case Take(i) => st.shelves[i].out < st.shelves[i].total
    case Give(_, _) => true
    case Grow(i, extra, choices) => extra > 0 && Grants(st.blocks, choices, Span(extra, st.shelves[i].size))
    case Drop(_) => true
  }

  function Answer(st: Stand, op: Op): Reply {
    if !Sensible(st.shelves, op) then Skipped else if Succeeds(st, op) then Yes else No
  }

  function After(st: Stand, op: Op): Stand
    requires |st.shelves| == |st.owned|
  {
    if Answer(st, op) != Yes then st
    else
      var shelves, owned := st.shelves, st.owned;
      match op
      case NewPool(poolSz, chunkSz, choices) =>
        Stand(shelves + [Shelf(poolSz, 0, Align(chunkSz))], owned + [{choices.0, choices.1, choices.2}],
              NewBlocks(st.blocks, choices, Span(poolSz, Align(chunkSz))))
      case Take(i) => st.(shelves := shelves[i := shelves[i].(out := shelves[i].out + 1)])
      case Give(i, _) => st.(shelves := shelves[i := shelves[i].(out := shelves[i].out - 1)])
      case Grow(i, extra, choices) =>
        Stand(shelves[i := shelves[i].(total := shelves[i].total + extra)],
              owned[i := owned[i] + {choices.0, choices.1}],
              MoreBlocks(st.blocks, choices, Span(extra, shelves[i].size)))
      case Drop(i) => Stand(Without(shelves, i), Without(owned, i), st.blocks - owned[i])
  }

  lemma AfterEven(st: Stand, op: Op)
    requires |st.shelves| == |st.owned|
    ensures |After(st, op).shelves| == |After(st, op).owned|
  {
  }

  function Answers(st: Stand, ops: seq<Op>): seq<Reply>
    requires |st.shelves| == |st.owned|
    decreases |ops|
  {
    if ops == [] then []
    else
      AfterEven(st, ops[0]);
      [Answer(st, ops[0])] + Answers(After(st, ops[0]), ops[1..])
  }

  function AfterAll(st: Stand, ops: seq<Op>): (st': Stand)
    requires |st.shelves| == |st.owned|
    ensures |st'.shelves| == |st'.owned|
    decreases |ops|
  {
    if ops == [] then st
    else
      AfterEven(st, ops[0]);
      AfterAll(After(st, ops[0]), ops[1..])
  }

  // ---------------------------------------------------------------------------------------
  // All blocks of all pools

  ghost function AllMine(pools: seq<nat>, views: seq<View>): set<nat>
    requires |pools| == |views|
  {
    set i, b | 0 <= i < |pools| && b in OwnedBlocks(pools[i], views[i]) :: b
  }

  /** Those of all but one. */
  ghost function Rest(pools: seq<nat>, views: seq<View>, k: nat): set<nat>
    requires |pools| == |views|
  {
    set i, b | 0 <= i < |pools| && i != k && b in OwnedBlocks(pools[i], views[i]) :: b
  }

  lemma MineSplits(pools: seq<nat>, views: seq<View>, k: nat, v': View)
    requires |pools| == |views| && k < |pools|
    ensures AllMine(pools, views) == OwnedBlocks(pools[k], views[k]) + Rest(pools, views, k)
    ensures AllMine(pools, views[k := v']) == OwnedBlocks(pools[k], v') + Rest(pools, views, k)
  {
    var views' := views[k := v'];
    forall b ensures b in Rest(pools, views', k) <==> b in Rest(pools, views, k) {
      if b in Rest(pools, views, k) {
        var i :| 0 <= i < |pools| && i != k && b in OwnedBlocks(pools[i], views[i]);
        assert views'[i] == views[i];
      }
    }
    OneAndRest(pools, views, k);
    OneAndRest(pools, views', k);
  }

  lemma OneAndRest(pools: seq<nat>, views: seq<View>, k: nat)
    requires |pools| == |views| && k < |pools|
    ensures AllMine(pools, views) == OwnedBlocks(pools[k], views[k]) + Rest(pools, views, k)
  {
  }

  lemma MineMore(pools: seq<nat>, views: seq<View>, p: nat, v: View)
    requires |pools| == |views|
    ensures AllMine(pools + [p], views + [v]) == AllMine(pools, views) + OwnedBlocks(p, v)
  {
    var pools', views' := pools + [p], views + [v];
    forall b | b in OwnedBlocks(p, v) ensures b in AllMine(pools', views') {
      assert pools'[|pools|] == p && views'[|pools|] == v;
    }
    forall b | b in AllMine(pools, views) ensures b in AllMine(pools', views') {
      var i :| 0 <= i < |pools| && b in OwnedBlocks(pools[i], views[i]);
      assert pools'[i] == pools[i] && views'[i] == views[i];
    }
  }

  lemma MineLess(pools: seq<nat>, views: seq<View>, k: nat)
    requires |pools| == |views| && k < |pools|
    ensures AllMine(Without(pools, k), Without(views, k)) == Rest(pools, views, k)
  {
    var pools', views' := Without(pools, k), Without(views, k);
    forall b | b in Rest(pools, views, k) ensures b in AllMine(pools', views') {
      var i :| 0 <= i < |pools| && i != k && b in OwnedBlocks(pools[i], views[i]);
      var j := if i < k then i else i - 1;
      assert pools'[j] == pools[i] && views'[j] == views[i];
    }
  }

  /** What was kept beside one pool is kept beside all of them. */
  lemma Lifted(m: Bytes, blocks: Blocks, mine: set<nat>, m': Bytes, blocks': Blocks, mine': set<nat>, rest: set<nat>)
    requires OthersKept(m, blocks, mine, m', blocks', mine')
    ensures OthersKept(m, blocks, mine + rest, m', blocks', mine' + rest)
  {
    assert blocks'.Keys - (mine' + rest) == (blocks'.Keys - mine') - rest;
    assert blocks.Keys - (mine + rest) == (blocks.Keys - mine) - rest;
  }

  // ---------------------------------------------------------------------------------------
  // The users of the pools

  /** Exactly the outstanding chunks of a pool, each once. */
  ghost predicate Lends(h: seq<nat>, v: View) {
    Distinct(h) && Members(h) == Outstanding(v)
  }

  ghost predicate AllLend(held: seq<seq<nat>>, sizes: seq<nat>, views: seq<View>) {
    && |held| == |sizes| == |views|
    && forall i | 0 <= i < |views| :: Lends(held[i], views[i]) && sizes[i] == views[i].chunk
  }

  ghost function ShelfOf(v: View, h: seq<nat>): Shelf {
    Shelf(Total(v.arrays), |h|, v.chunk)
  }

  ghost function ShelvesOf(views: seq<View>, held: seq<seq<nat>>): (shelves: seq<Shelf>)
    requires |views| == |held|
    ensures |shelves| == |views| && forall i | 0 <= i < |views| :: shelves[i] == ShelfOf(views[i], held[i])
  {
    seq(|views|, i requires 0 <= i < |views| => ShelfOf(views[i], held[i]))
  }

  ghost function OwnedOf(pools: seq<nat>, views: seq<View>): (owned: seq<set<nat>>)
    requires |pools| == |views|
    ensures |owned| == |views| && forall i | 0 <= i < |views| :: owned[i] == OwnedBlocks(pools[i], views[i])
  {
    seq(|views|, i requires 0 <= i < |views| => OwnedBlocks(pools[i], views[i]))
  }

  ghost function StandOf(pools: seq<nat>, views: seq<View>, held: seq<seq<nat>>, blocks: Blocks): (st: Stand)
    requires |pools| == |views| == |held|
    ensures |st.shelves| == |st.owned| == |views|
  {
    Stand(ShelvesOf(views, held), OwnedOf(pools, views), blocks)
  }

  lemma OwnedSame(pools: seq<nat>, views: seq<View>, i: nat, v': View)
    requires |pools| == |views| && i < |views| && v'.arrays == views[i].arrays
    ensures OwnedOf(pools, views[i := v']) == OwnedOf(pools, views)
  {
    assert OwnedBlocks(pools[i], v') == OwnedBlocks(pools[i], views[i]);
  }

  lemma OwnedMore(pools: seq<nat>, views: seq<View>, i: nat, v': View, more: set<nat>)
    requires |pools| == |views| && i < |views|
    requires OwnedBlocks(pools[i], v') == OwnedBlocks(pools[i], views[i]) + more
    ensures OwnedOf(pools, views[i := v']) == OwnedOf(pools, views)[i := OwnedOf(pools, views)[i] + more]
  {
  }

  lemma OwnedNew(pools: seq<nat>, views: seq<View>, p: nat, v: View)
    requires |pools| == |views|
    ensures OwnedOf(pools + [p], views + [v]) == OwnedOf(pools, views) + [OwnedBlocks(p, v)]
  {
  }

  lemma OwnedLess(pools: seq<nat>, views: seq<View>, i: nat)
    requires |pools| == |views| && i < |views|
    ensures OwnedOf(Without(pools, i), Without(views, i)) == Without(OwnedOf(pools, views), i)
  {
  }

  lemma LendMore(h: seq<nat>, v: View)
    requires Lends(h, v) && FreeSound(v) && v.free != []
    ensures Lends(h + [v.free[0]], Popped(v))
  {
    var c := v.free[0];
    PoppedOutstanding(v);
    assert Members(h + [c]) == Members(h) + {c};
    forall i | 0 <= i < |h| ensures h[i] != c {
      assert h[i] in Members(h);
    }
  }

  lemma LendLess(h: seq<nat>, v: View, k: nat)
    requires Lends(h, v) && k < |h|
    ensures h[k] in Outstanding(v) && Lends(Without(h, k), Pushed(v, h[k]))
  {
    assert h[k] in Members(h);
    WithoutMembers(h, k);
    PushedOutstanding(v, h[k]);
  }

  /** An empty free list is a full shelf. */
  lemma ShelfExact(m: Bytes, blocks: Blocks, p: nat, v: View, h: seq<nat>)
    requires PoolValid(m, blocks, p, v) && Lends(h, v)
    ensures |h| <= Total(v.arrays) && (v.free == [] <==> |h| == Total(v.arrays))
  {
    MembersCount(h);
    Conservation(m, blocks, p, v);
  }

  /** What was kept beside the pool worked on is kept beside all of them. */
  lemma AllKept(m: Bytes, blocks: Blocks, m': Bytes, blocks': Blocks, pools: seq<nat>, views: seq<View>,
                k: nat, v': View)
    requires |pools| == |views| && k < |pools|
    requires OthersKept(m, blocks, OwnedBlocks(pools[k], views[k]), m', blocks', OwnedBlocks(pools[k], v'))
    ensures OthersKept(m, blocks, AllMine(pools, views), m', blocks', AllMine(pools, views[k := v']))
  {
    MineSplits(pools, views, k, v');
    Lifted(m, blocks, OwnedBlocks(pools[k], views[k]), m', blocks', OwnedBlocks(pools[k], v'), Rest(pools, views, k));
  }

  lemma AllKeptMore(m: Bytes, blocks: Blocks, m': Bytes, blocks': Blocks, pools: seq<nat>, views: seq<View>,
                    p: nat, v: View)
    requires |pools| == |views| && OthersKept(m, blocks, {}, m', blocks', OwnedBlocks(p, v))
    ensures OthersKept(m, blocks, AllMine(pools, views), m', blocks', AllMine(pools + [p], views + [v]))
  {
    var all := AllMine(pools, views);
    MineMore(pools, views, p, v);
    Lifted(m, blocks, {}, m', blocks', OwnedBlocks(p, v), all);
    assert {} + all == all && OwnedBlocks(p, v) + all == all + OwnedBlocks(p, v);
  }

  lemma AllKeptSame(m: Bytes, blocks: Blocks, m': Bytes, blocks': Blocks, all: set<nat>)
    requires OthersKept(m, blocks, {}, m', blocks', {})
    ensures OthersKept(m, blocks, all, m', blocks', all)
  {
    Lifted(m, blocks, {}, m', blocks', {}, all);
    assert {} + all == all;
  }

  lemma AllKeptLess(m: Bytes, blocks: Blocks, m': Bytes, blocks': Blocks, pools: seq<nat>, views: seq<View>, k: nat)
    requires |pools| == |views| && k < |pools|
    requires OthersKept(m, blocks, OwnedBlocks(pools[k], views[k]), m', blocks', {})
    ensures OthersKept(m, blocks, AllMine(pools, views), m', blocks', AllMine(Without(pools, k), Without(views, k)))
  {
    var rest := Rest(pools, views, k);
    MineSplits(pools, views, k, views[k]);
    MineLess(pools, views, k);
    Lifted(m, blocks, OwnedBlocks(pools[k], views[k]), m', blocks', {}, rest);
    assert {} + rest == rest;
  }

  /** The books after one pool's view and list of held chunks have changed. */
  lemma Booked(views: seq<View>, held: seq<seq<nat>>, sizes: seq<nat>, i: nat, v': View, h': seq<nat>)
    requires AllLend(held, sizes, views) && i < |views| && Lends(h', v') && v'.chunk == views[i].chunk
    ensures AllLend(held[i := h'], sizes, views[i := v'])
    ensures ShelvesOf(views[i := v'], held[i := h']) == ShelvesOf(views, held)[i := ShelfOf(v', h')]
  {
  }

  lemma TakeBooked(st: Stand, pools: seq<nat>, views: seq<View>, held: seq<seq<nat>>, sizes: seq<nat>,
                   op: Op, h': seq<nat>)
    requires AllLend(held, sizes, views) && |pools| == |views|
    requires st == StandOf(pools, views, held, st.blocks)
    requires op.Take? && op.i < |views| && views[op.i].free != [] && |held[op.i]| < Total(views[op.i].arrays)
    requires |h'| == |held[op.i]| + 1 && Lends(h', Popped(views[op.i]))
    ensures var views', held' := views[op.i := Popped(views[op.i])], held[op.i := h'];
            && AllLend(held', sizes, views')
            && Answer(st, op) == Yes && After(st, op) == StandOf(pools, views', held', st.blocks)
  {
    Booked(views, held, sizes, op.i, Popped(views[op.i]), h');
    OwnedSame(pools, views, op.i, Popped(views[op.i]));
  }

  lemma GiveBooked(st: Stand, pools: seq<nat>, views: seq<View>, held: seq<seq<nat>>, sizes: seq<nat>, op: Op)
    requires AllLend(held, sizes, views) && |pools| == |views|
    requires st == StandOf(pools, views, held, st.blocks)
    requires op.Give? && op.i < |views| && op.k < |held[op.i]|
    ensures held[op.i][op.k] in Outstanding(views[op.i])
    ensures var views' := views[op.i := Pushed(views[op.i], held[op.i][op.k])];
            var held' := held[op.i := Without(held[op.i], op.k)];
            && AllLend(held', sizes, views')
            && Answer(st, op) == Yes && After(st, op) == StandOf(pools, views', held', st.blocks)
  {
    var v' := Pushed(views[op.i], held[op.i][op.k]);
    LendLess(held[op.i], views[op.i], op.k);
    Booked(views, held, sizes, op.i, v', Without(held[op.i], op.k));
    OwnedSame(pools, views, op.i, v');
  }

  lemma GrowBooked(st: Stand, pools: seq<nat>, views: seq<View>, held: seq<seq<nat>>, sizes: seq<nat>, op: Op,
                   v': View, need: nat, blocks': Blocks)
    requires AllLend(held, sizes, views) && |pools| == |views|
    requires st == StandOf(pools, views, held, st.blocks)
    requires op.Grow? && Sensible(st.shelves, op) && need == Span(op.extra, views[op.i].chunk)
    requires op.extra > 0 && Grants(st.blocks, op.twoChoices, need) && IsGrown(views[op.i], v', op.extra)
    requires OwnedBlocks(pools[op.i], v') == OwnedBlocks(pools[op.i], views[op.i]) + {op.twoChoices.0, op.twoChoices.1}
    requires blocks' == MoreBlocks(st.blocks, op.twoChoices, need)
    ensures AllLend(held, sizes, views[op.i := v'])
    ensures Answer(st, op) == Yes && After(st, op) == StandOf(pools, views[op.i := v'], held, blocks')
  {
    assert held[op.i := held[op.i]] == held;
    Booked(views, held, sizes, op.i, v', held[op.i]);
    OwnedMore(pools, views, op.i, v', {op.twoChoices.0, op.twoChoices.1});
  }

  lemma GrowRefused(st: Stand, op: Op, size: nat, need: nat)
    requires |st.shelves| == |st.owned| && op.Grow? && Sensible(st.shelves, op)
    requires size == st.shelves[op.i].size && need == Span(op.extra, size)
    requires !(op.extra > 0 && Grants(st.blocks, op.twoChoices, need))
    ensures Answer(st, op) == No && After(st, op) == st
  {
  }

  lemma NewBooked(st: Stand, pools: seq<nat>, views: seq<View>, held: seq<seq<nat>>, sizes: seq<nat>, op: Op,
                  p: nat, v: View, blocks': Blocks)
    requires AllLend(held, sizes, views) && |pools| == |views|
    requires st == StandOf(pools, views, held, st.blocks)
    requires op.NewPool? && Sensible(st.shelves, op) && Succeeds(st, op) && IsNew(v, op.poolSz, Align(op.chunkSz))
    requires OwnedBlocks(p, v) == {op.threeChoices.0, op.threeChoices.1, op.threeChoices.2}
    requires blocks' == NewBlocks(st.blocks, op.threeChoices, Span(op.poolSz, Align(op.chunkSz)))
    ensures AllLend(held + [[]], sizes + [Align(op.chunkSz)], views + [v])
    ensures Answer(st, op) == Yes
    ensures After(st, op) == StandOf(pools + [p], views + [v], held + [[]], blocks')
  {
    assert Lends([], v);
    OwnedNew(pools, views, p, v);
  }

  lemma DropBooked(st: Stand, pools: seq<nat>, views: seq<View>, held: seq<seq<nat>>, sizes: seq<nat>, op: Op)
    requires AllLend(held, sizes, views) && |pools| == |views|
    requires st == StandOf(pools, views, held, st.blocks)
    requires op.Drop? && op.i < |views|
    ensures AllLend(Without(held, op.i), Without(sizes, op.i), Without(views, op.i))
    ensures Answer(st, op) == Yes
    ensures After(st, op) == StandOf(Without(pools, op.i), Without(views, op.i), Without(held, op.i),
                                     st.blocks - OwnedBlocks(pools[op.i], views[op.i]))
  {
    OwnedLess(pools, views, op.i);
  }

  /** The same as `Sensible`, from what the program itself knows. */
  predicate Known(held: seq<seq<nat>>, sizes: seq<nat>, op: Op)
    requires |held| == |sizes|
  {
    match op
    case NewPool(poolSz, chunkSz, _) =>
      0 < chunkSz <= ADDRESS_SPACE - POINTER_SIZE && Span(poolSz, Align(chunkSz)) < ADDRESS_SPACE
    case Take(i) => i < |held|
    case Give(i, k) => i < |held| && k < |held[i]|
    case Grow(i, extra, _) => i < |held| && Span(extra, sizes[i]) < ADDRESS_SPACE
    case Drop(i) => i < |held|
  }

  lemma KnownIsSensible(views: seq<View>, held: seq<seq<nat>>, sizes: seq<nat>, op: Op)
    requires AllLend(held, sizes, views)
    ensures Known(held, sizes, op) <==> Sensible(ShelvesOf(views, held), op)
  {
  }

  class Tenants {
    const shared: SharedHeap
    var held: seq<seq<nat>>
    var sizes: seq<nat>

    ghost predicate Valid()
      reads this, shared, shared.heap
    {
      shared.Valid() && AllLend(held, sizes, shared.views)
    }

    ghost function State(): (st: Stand)
      requires |shared.pools| == |shared.views| == |held|
      reads this, shared, shared.heap
      ensures |st.shelves| == |st.owned|
    {
      StandOf(shared.pools, shared.views, held, shared.heap.blocks)
    }

    ghost function Mine(): set<nat>
      requires |shared.pools| == |shared.views|
      reads shared
    {
      AllMine(shared.pools, shared.views)
    }

    constructor (shared: SharedHeap)
      requires shared.Valid() && shared.pools == []
      ensures Valid() && this.shared == shared && State() == Stand([], [], shared.heap.blocks) && Mine() == {}
    {
      this.shared, held, sizes := shared, [], [];
    }

    /** The pool's side of an allocation. */
    method Draw(i: nat, ghost v: View) returns (c: nat)
      requires Valid() && i < |held| && v == shared.views[i]
      modifies shared`views, shared.heap`bytes
      ensures shared.Valid() && |held[i]| <= Total(v.arrays)
      ensures c == 0 <==> |held[i]| == Total(v.arrays)
      ensures c == 0 ==> shared.views == old(shared.views)
      ensures c != 0 ==>
                && v.free != [] && c == v.free[0] && Lends(held[i] + [c], Popped(v))
                && shared.views == old(shared.views)[i := Popped(v)]
      ensures OthersKept(old(shared.heap.bytes), shared.heap.blocks, old(Mine()),
                         shared.heap.bytes, shared.heap.blocks, Mine())
    {
      ghost var m, blocks, pools, views := shared.heap.bytes, shared.heap.blocks, shared.pools, shared.views;
      assert Standing(m, blocks, pools[i], v);
      ShelfExact(m, blocks, pools[i], v, held[i]);
      c := shared.Alloc(i);
      AllKept(m, blocks, shared.heap.bytes, blocks, pools, views, i, shared.views[i]);
      if c != 0 {
        LendMore(held[i], v);
      }
    }

    method TakeFrom(op: Op) returns (r: Reply)
      requires Valid() && op.Take? && op.i < |held|
      modifies this, shared, shared.heap
      ensures Valid() && r == Answer(old(State()), op) && State() == After(old(State()), op)
      ensures OthersKept(old(shared.heap.bytes), old(shared.heap.blocks), old(Mine()),
                         shared.heap.bytes, shared.heap.blocks, Mine())
    {
      ghost var st, pools, views := State(), shared.pools, shared.views;
      var c := Draw(op.i, views[op.i]);
      r := No;
      if c != 0 {
        r := Yes;
        TakeBooked(st, pools, views, held, sizes, op, held[op.i] + [c]);
        held := held[op.i := held[op.i] + [c]];
      }
    }

    /** The pool's side of a release. */
    method PutBack(i: nat, c: nat)
      requires shared.Valid() && i < |shared.pools| == |shared.views| && c in Outstanding(shared.views[i])
      modifies shared`views, shared.heap`bytes
      ensures shared.Valid() && |old(shared.views)| == |shared.pools|
      ensures shared.views == old(shared.views)[i := Pushed(old(shared.views)[i], c)]
      ensures OthersKept(old(shared.heap.bytes), shared.heap.blocks, old(Mine()),
                         shared.heap.bytes, shared.heap.blocks, Mine())
    {
      ghost var m, blocks, pools, views := shared.heap.bytes, shared.heap.blocks, shared.pools, shared.views;
      assert Standing(m, blocks, pools[i], views[i]);
      ghost var _ := ChunkInBlock(blocks, pools[i], views[i], c);
      shared.Free(i, c);
      AllKept(m, blocks, shared.heap.bytes, blocks, pools, views, i, shared.views[i]);
    }

    /** Just that chunk of just that pool goes back. */
    method GiveTo(op: Op) returns (r: Reply)
      requires Valid() && op.Give? && op.i < |held| && op.k < |held[op.i]|
      modifies this, shared, shared.heap
      ensures Valid() && r == Answer(old(State()), op) && State() == After(old(State()), op)
      ensures held == old(held)[op.i := Without(old(held)[op.i], op.k)]
      ensures OthersKept(old(shared.heap.bytes), old(shared.heap.blocks), old(Mine()),
                         shared.heap.bytes, shared.heap.blocks, Mine())
    {
      GiveBooked(State(), shared.pools, shared.views, held, sizes, op);
      PutBack(op.i, held[op.i][op.k]);
      held := held[op.i := Without(held[op.i], op.k)];
      r := Yes;
    }

    /** The pool's side of an expansion. */
    method Enlarge(i: nat, extra: nat, choices: (nat, nat), ghost need: nat) returns (ok: bool)
      requires shared.Valid() && i < |shared.pools| == |shared.views|
      requires need == Span(extra, shared.views[i].chunk) < ADDRESS_SPACE
      modifies shared`views, shared.heap
      ensures shared.Valid() && |old(shared.views)| == |shared.views| == |shared.pools|
      ensures ok <==> extra > 0 && Grants(old(shared.heap.blocks), choices, need)
      ensures ok ==>
                && IsGrown(old(shared.views)[i], shared.views[i], extra)
                && shared.heap.blocks == MoreBlocks(old(shared.heap.blocks), choices, need)
                && OwnedBlocks(shared.pools[i], shared.views[i])
                   == OwnedBlocks(shared.pools[i], old(shared.views)[i]) + {choices.0, choices.1}
      ensures !ok ==> shared.heap.blocks == old(shared.heap.blocks)
      ensures shared.views == if ok then old(shared.views)[i := shared.views[i]] else old(shared.views)
      ensures OthersKept(old(shared.heap.bytes), old(shared.heap.blocks), old(Mine()),
                         shared.heap.bytes, shared.heap.blocks, Mine())
    {
      ghost var m, blocks, pools, views := shared.heap.bytes, shared.heap.blocks, shared.pools, shared.views;
      ok := shared.Expand(i, extra, choices);
      AllKept(m, blocks, shared.heap.bytes, shared.heap.blocks, pools, views, i, shared.views[i]);
    }

    method GrowPool(op: Op) returns (r: Reply)
      requires Valid() && op.Grow? && Sensible(State().shelves, op)
      modifies this, shared, shared.heap
      ensures Valid() && r == Answer(old(State()), op) && State() == After(old(State()), op)
      ensures OthersKept(old(shared.heap.bytes), old(shared.heap.blocks), old(Mine()),
                         shared.heap.bytes, shared.heap.blocks, Mine())
    {
      ghost var st, pools, views := State(), shared.pools, shared.views;
      ghost var need := Span(op.extra, views[op.i].chunk);
      var ok := Enlarge(op.i, op.extra, op.twoChoices, need);
      if ok {
        r := Yes;
        GrowBooked(st, pools, views, held, sizes, op, shared.views[op.i], need, shared.heap.blocks);
      } else {
        r := No;
        GrowRefused(st, op, views[op.i].chunk, need);
      }
    }

    /** The new pool's side of its creation. */
    method Build(op: Op) returns (ok: bool)
      requires shared.Valid() && |shared.pools| == |shared.views| && op.NewPool? && Sensible([], op)
      modifies shared, shared.heap
      ensures shared.Valid() && |old(shared.views)| == |old(shared.pools)| && |shared.views| == |shared.pools|
      ensures var size := Span(op.poolSz, Align(op.chunkSz));
              && (ok <==> op.poolSz > 0 && GrantsNew(old(shared.heap.blocks), op.threeChoices, size))
              && shared.heap.blocks
                 == if ok then NewBlocks(old(shared.heap.blocks), op.threeChoices, size) else old(shared.heap.blocks)
      ensures if ok
              then var n := |old(shared.views)|;
                   && |shared.views| == n + 1
                   && shared.views == old(shared.views) + [shared.views[n]]
                   && shared.pools == old(shared.pools) + [shared.pools[n]]
                   && IsNew(shared.views[n], op.poolSz, Align(op.chunkSz))
                   && OwnedBlocks(shared.pools[n], shared.views[n])
                      == {op.threeChoices.0, op.threeChoices.1, op.threeChoices.2}
              else shared.views == old(shared.views) && shared.pools == old(shared.pools)
      ensures OthersKept(old(shared.heap.bytes), old(shared.heap.blocks), old(Mine()),
                         shared.heap.bytes, shared.heap.blocks, Mine())
    {
      ghost var m, blocks, pools, views := shared.heap.bytes, shared.heap.blocks, shared.pools, shared.views;
      ok := shared.New(op.poolSz, op.chunkSz, op.threeChoices);
      if ok {
        ghost var p, v := shared.pools[|pools|], shared.views[|pools|];
        assert shared.pools == pools + [p] && shared.views == views + [v];
        AllKeptMore(m, blocks, shared.heap.bytes, shared.heap.blocks, pools, views, p, v);
      } else {
        AllKeptSame(m, blocks, shared.heap.bytes, shared.heap.blocks, AllMine(pools, views));
      }
    }

    method CreatePool(op: Op) returns (r: Reply)
      requires Valid() && op.NewPool? && Sensible([], op)
      modifies this, shared, shared.heap
      ensures Valid() && r == Answer(old(State()), op) && State() == After(old(State()), op)
      ensures OthersKept(old(shared.heap.bytes), old(shared.heap.blocks), old(Mine()),
                         shared.heap.bytes, shared.heap.blocks, Mine())
    {
      ghost var st, pools, views := State(), shared.pools, shared.views;
      var ok := Build(op);
      r := No;
      if ok {
        r := Yes;
        NewBooked(st, pools, views, held, sizes, op, shared.pools[|views|], shared.views[|views|], shared.heap.blocks);
        held, sizes := held + [[]], sizes + [Align(op.chunkSz)];
      }
    }

    /** The pool's side of its end. */
    method TearDown(i: nat)
      requires shared.Valid() && i < |shared.pools| == |shared.views|
      modifies shared, shared.heap`blocks
      ensures shared.Valid() && i < |old(shared.views)| == |old(shared.pools)| && |shared.views| == |shared.pools|
      ensures shared.views == Without(old(shared.views), i) && shared.pools == Without(old(shared.pools), i)
      ensures shared.heap.blocks == old(shared.heap.blocks) - OwnedBlocks(old(shared.pools)[i], old(shared.views)[i])
      ensures OthersKept(shared.heap.bytes, old(shared.heap.blocks), old(Mine()),
                         shared.heap.bytes, shared.heap.blocks, Mine())
    {
      ghost var blocks, pools, views := shared.heap.blocks, shared.pools, shared.views;
      shared.Destroy(i);
      AllKeptLess(shared.heap.bytes, blocks, shared.heap.bytes, shared.heap.blocks, pools, views, i);
    }

    method DropPool(op: Op) returns (r: Reply)
      requires Valid() && op.Drop? && op.i < |held|
      modifies this, shared, shared.heap
      ensures Valid() && r == Answer(old(State()), op) && State() == After(old(State()), op)
      ensures OthersKept(old(shared.heap.bytes), old(shared.heap.blocks), old(Mine()),
                         shared.heap.bytes, shared.heap.blocks, Mine())
    {
      DropBooked(State(), shared.pools, shared.views, held, sizes, op);
      TearDown(op.i);
      held, sizes := Without(held, op.i), Without(sizes, op.i);
      r := Yes;
    }

    /** Whether the call may be passed on. */
    method IsSensible(op: Op) returns (b: bool)
      requires Valid()
      ensures b <==> Sensible(State().shelves, op)
    {
      b := Known(held, sizes, op);
      KnownIsSensible(shared.views, held, sizes, op);
    }

    method Serve(op: Op) returns (r: Reply)
      requires Valid()
      modifies this, shared, shared.heap
      ensures Valid() && r == Answer(old(State()), op) && State() == After(old(State()), op)
      ensures op.Give? && r == Yes ==>
                && op.i < |old(held)| && op.k < |old(held)[op.i]|
                && held == old(held)[op.i := Without(old(held)[op.i], op.k)]
      ensures OthersKept(old(shared.heap.bytes), old(shared.heap.blocks), old(Mine()),
                         shared.heap.bytes, shared.heap.blocks, Mine())
    {
      var sensible := IsSensible(op);
      if !sensible {
        return Skipped;
      }
      if op.NewPool? {
        r := CreatePool(op);
      } else if op.Grow? {
        r := GrowPool(op);
      } else if op.Take? {
        r := TakeFrom(op);
      } else if op.Give? {
        r := GiveTo(op);
      } else {
        r := DropPool(op);
      }
    }

    /** However operations on the pools are mixed, each pool answers as if it were alone, all stay
        valid, and nobody else's blocks are touched. */
    method Run(ops: seq<Op>) returns (replies: seq<Reply>)
      requires Valid()
      modifies this, shared, shared.heap
      ensures Valid() && replies == Answers(old(State()), ops) && State() == AfterAll(old(State()), ops)
      ensures OthersKept(old(shared.heap.bytes), old(shared.heap.blocks), old(Mine()),
                         shared.heap.bytes, shared.heap.blocks, Mine())
      decreases |ops|
    {
      if ops == [] {
        return [];
      }
      ghost var m, blocks, mine := shared.heap.bytes, shared.heap.blocks, Mine();
      var r := Serve(ops[0]);
      ghost var m1, blocks1, mine1 := shared.heap.bytes, shared.heap.blocks, Mine();
      var rest := Run(ops[1..]);
      replies := [r] + rest;
      OthersKeptTwice(m, blocks, mine, m1, blocks1, mine1, shared.heap.bytes, shared.heap.blocks, Mine());
    }
  }
}
