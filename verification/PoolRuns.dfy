/** Whole runs of a `Mempool`: seen from its users, any sequence of calls behaves like a counter
    of chunks and one private buffer per chunk handed out. */
module PoolRuns {
  import opened Memory
  import opened PoolModel
  import opened LibPool
  import opened Neighbours
  import opened MempoolModel

  datatype Op =
    | OpAlloc
    | OpFree(k: nat)
    | OpExpand(extra: nat, choices: (nat, nat))
    | OpStats
    | OpWrite(k: nat, offset: nat, data: seq<byte>)
    | OpRead(k: nat)

  datatype Outcome =
    | Got(contents: seq<byte>)
    | Thrown
    | Done
    | Ignored
    | Available(count: nat)
    | Contents(data: seq<byte>)
    | Broken

  function Patched(b: seq<byte>, offset: nat, data: seq<byte>): seq<byte> {
    if offset + |data| <= |b| then b[..offset] + data + b[offset + |data|..] else b
  }

  /** The reference: how many chunks there are, how big they are, the private buffers of those
      that are out, oldest first, and the live blocks of the external allocator. */
  datatype Ledger = Ledger(total: nat, size: nat, bufs: seq<seq<byte>>, blocks: Blocks)

  /** The live blocks after an expansion. */
  function Enlarged(l: Ledger, extra: nat, choices: (nat, nat)): Blocks {
    MoreBlocks(l.blocks, choices, Span(extra, l.size))
  }

  /** Whether the pool can be expanded. */
  predicate Granted(l: Ledger, extra: nat, choices: (nat, nat)) {
    extra > 0 && Grants(l.blocks, choices, Span(extra, l.size))
  }

  /** Calls that no correct user makes (about a chunk that is not held, past the end of one, or
      for more bytes than there are addresses) are not passed on to the pool. */
  predicate Sensible(l: Ledger, op: Op) {
    match op
    case OpFree(k) => k < |l.bufs|
    case OpRead(k) => k < |l.bufs|
    case OpWrite(k, offset, data) => k < |l.bufs| && offset + |data| <= l.size
    case OpExpand(extra, _) => Span(extra, l.size) < ADDRESS_SPACE
    case _ => true
  }

  predicate Allowed(l: Ledger, op: Op, out: Outcome) {
    if !Sensible(l, op) then out == Ignored
    else
      match op
      case OpAlloc => if |l.bufs| < l.total then out.Got? && |out.contents| == l.size else out == Thrown
      case OpFree(_) => out == Done
      case OpExpand(extra, choices) => out == if Granted(l, extra, choices) then Done else Broken
      case OpStats => out.Available? && l.total == |l.bufs| + out.count
      case OpWrite(_, _, _) => out == Done
      case OpRead(k) => out == Contents(l.bufs[k])
  }

  function After(l: Ledger, op: Op, out: Outcome): Ledger {
    if !Sensible(l, op) then l
    else
      match op
      case OpAlloc => if out.Got? then l.(bufs := l.bufs + [out.contents]) else l
      case OpFree(k) => l.(bufs := Without(l.bufs, k))
      case OpExpand(extra, choices) =>
        if out == Done
        then l.(total := l.total + extra, blocks := Enlarged(l, extra, choices))
        else l
      case OpWrite(k, offset, data) => l.(bufs := Amended(l.bufs, k, offset, data))
      case _ => l
  }

  lemma AfterExpand(l: Ledger, extra: nat, choices: (nat, nat), l': Ledger)
    requires Sensible(l, OpExpand(extra, choices))
    requires l'.total == l.total + extra && l'.size == l.size && l'.bufs == l.bufs
    requires l'.blocks == Enlarged(l, extra, choices)
    ensures l' == After(l, OpExpand(extra, choices), Done)
  {
  }

  /** The outcomes of a whole run; a failed expansion ends it. */
  predicate Explains(l: Ledger, ops: seq<Op>, outs: seq<Outcome>)
    decreases |ops|
  {
    if ops == [] then outs == []
    else
      && outs != []
      && Allowed(l, ops[0], outs[0])
      && if outs[0] == Broken then |outs| == 1 else Explains(After(l, ops[0], outs[0]), ops[1..], outs[1..])
  }

  function AfterAll(l: Ledger, ops: seq<Op>, outs: seq<Outcome>): Ledger
    decreases |ops|
  {
    if ops == [] || outs == [] then l else AfterAll(After(l, ops[0], outs[0]), ops[1..], outs[1..])
  }

  /** Allocations and releases that went through, and chunks added. */
  function Taken(ops: seq<Op>, outs: seq<Outcome>): nat {
    if ops == [] || outs == [] then 0 else (if outs[0].Got? then 1 else 0) + Taken(ops[1..], outs[1..])
  }

  function Returned(ops: seq<Op>, outs: seq<Outcome>): nat {
    if ops == [] || outs == [] then 0
    else (if ops[0].OpFree? && outs[0] == Done then 1 else 0) + Returned(ops[1..], outs[1..])
  }

  function Bought(ops: seq<Op>, outs: seq<Outcome>): nat {
    if ops == [] || outs == [] then 0
    else (if ops[0].OpExpand? && outs[0] == Done then ops[0].extra else 0) + Bought(ops[1..], outs[1..])
  }

  /** Over a whole run: what is out is what was taken less what was returned, the pool is never
      overdrawn, and it grows by exactly what was bought. */
  lemma {:induction false} RunBalance(l: Ledger, ops: seq<Op>, outs: seq<Outcome>)
    requires Explains(l, ops, outs) && |l.bufs| <= l.total
    ensures var e := AfterAll(l, ops, outs);
            && |e.bufs| + Returned(ops, outs) == |l.bufs| + Taken(ops, outs)
            && |e.bufs| <= e.total == l.total + Bought(ops, outs)
    decreases |ops|
  {
    if ops != [] {
      var l' := After(l, ops[0], outs[0]);
      if outs[0] == Broken {
        assert outs[1..] == [];
      } else {
        RunBalance(l', ops[1..], outs[1..]);
      }
    }
  }

  /** The chunks a user holds are exactly the outstanding ones, each with the expected bytes. */
  ghost predicate Holds(m: Bytes, v: View, held: seq<nat>, bufs: seq<seq<byte>>) {
    && |held| == |bufs|
    && Distinct(held)
    && Members(held) == Outstanding(v)
    && Contain(m, v.chunk, held, bufs)
  }

  ghost predicate Contain(m: Bytes, size: nat, held: seq<nat>, bufs: seq<seq<byte>>)
    requires |held| == |bufs|
  {
    forall i | 0 <= i < |held| :: Load(m, held[i], size) == bufs[i]
  }

  lemma HoldsCount(m: Bytes, blocks: Blocks, p: nat, v: View, held: seq<nat>, bufs: seq<seq<byte>>)
    requires PoolValid(m, blocks, p, v) && Holds(m, v, held, bufs)
    ensures |bufs| == |Outstanding(v)| <= Total(v.arrays)
  {
    MembersCount(held);
    Conservation(m, blocks, p, v);
  }

  lemma HeldNotNull(m: Bytes, blocks: Blocks, p: nat, v: View, c: nat)
    requires PoolValid(m, blocks, p, v) && c in Outstanding(v)
    ensures c != 0
  {
    var i := ChunkInBlock(blocks, p, v, c);
  }

  lemma LoadKept(m: Bytes, m': Bytes, c: nat, size: nat)
    requires forall x: nat | c <= x < c + size :: ByteAt(m', x) == ByteAt(m, x)
    ensures Load(m', c, size) == Load(m, c, size)
  {
  }

  function Loads(m: Bytes, held: seq<nat>, size: nat): (bufs: seq<seq<byte>>)
    ensures |bufs| == |held| && Contain(m, size, held, bufs)
  {
    seq(|held|, i requires 0 <= i < |held| => Load(m, held[i], size))
  }

  /** The held chunks are as they were. */
  ghost predicate HeldKept(m: Bytes, m': Bytes, held: seq<nat>, size: nat) {
    forall i | 0 <= i < |held| :: Load(m', held[i], size) == Load(m, held[i], size)
  }

  lemma HeldAfterAlloc(m: Bytes, m': Bytes, blocks: Blocks, p: nat, v: View, held: seq<nat>)
    requires BlocksValid(blocks) && Owns(blocks, p, v) && Members(held) == Outstanding(v)
    requires SameOutside(m, m', p, POINTER_SIZE)
    ensures HeldKept(m, m', held, v.chunk)
  {
    forall i | 0 <= i < |held| ensures Load(m', held[i], v.chunk) == Load(m, held[i], v.chunk) {
      assert held[i] in Members(held);
      ChunkApartHeader(blocks, p, v, held[i]);
      LoadKept(m, m', held[i], v.chunk);
    }
  }

  lemma HeldAfterFree(m: Bytes, m': Bytes, blocks: Blocks, p: nat, v: View, held: seq<nat>, c: nat)
    requires BlocksValid(blocks) && Owns(blocks, p, v) && v.chunk >= POINTER_SIZE
    requires Members(held) <= Outstanding(v) && c in Outstanding(v) && c !in held
    requires SameOutsideTwo(m, m', p, POINTER_SIZE, c, POINTER_SIZE)
    ensures HeldKept(m, m', held, v.chunk)
  {
    forall i | 0 <= i < |held| ensures Load(m', held[i], v.chunk) == Load(m, held[i], v.chunk) {
      assert held[i] in Members(held);
      ChunkApartHeader(blocks, p, v, held[i]);
      ChunksApart(blocks, p, v, c, held[i]);
      LoadKept(m, m', held[i], v.chunk);
    }
  }

  lemma HeldAfterExpand(m: Bytes, m': Bytes, blocks: Blocks, p: nat, v: View, held: seq<nat>)
    requires BlocksValid(blocks) && Owns(blocks, p, v) && Members(held) == Outstanding(v)
    requires KeptBut(m, m', blocks, p, 2 * POINTER_SIZE)
    ensures HeldKept(m, m', held, v.chunk)
  {
    forall i | 0 <= i < |held| ensures Load(m', held[i], v.chunk) == Load(m, held[i], v.chunk) {
      assert held[i] in Members(held);
      ChunkApartHeader(blocks, p, v, held[i]);
      var k := ChunkInBlock(blocks, p, v, held[i]);
      assert ArrayOwned(blocks, p, v.arrays[k], v.chunk);
      LoadKept(m, m', held[i], v.chunk);
    }
  }

  /** m' is m with that data at a. */
  ghost predicate Stored(m: Bytes, m': Bytes, a: nat, data: seq<byte>) {
    SameOutside(m, m', a, |data|) && Load(m', a, |data|) == data
  }

  lemma HeldAfterWrite(m: Bytes, m': Bytes, blocks: Blocks, p: nat, v: View, held: seq<nat>,
                       c: nat, offset: nat, data: seq<byte>)
    requires BlocksValid(blocks) && Owns(blocks, p, v)
    requires Members(held) <= Outstanding(v) && c in Outstanding(v) && c !in held
    requires offset + |data| <= v.chunk && Stored(m, m', c + offset, data)
    ensures HeldKept(m, m', held, v.chunk)
  {
    forall i | 0 <= i < |held| ensures Load(m', held[i], v.chunk) == Load(m, held[i], v.chunk) {
      assert held[i] in Members(held);
      ChunksApart(blocks, p, v, c, held[i]);
      LoadKept(m, m', held[i], v.chunk);
    }
  }

  lemma HoldsGains(m: Bytes, m': Bytes, v: View, v': View, held: seq<nat>, bufs: seq<seq<byte>>, c: nat)
    requires Holds(m, v, held, bufs) && HeldKept(m, m', held, v.chunk) && v'.chunk == v.chunk
    requires c !in Outstanding(v) && Outstanding(v') == Outstanding(v) + {c}
    ensures Holds(m', v', held + [c], bufs + [Load(m', c, v.chunk)])
  {
    assert Members(held + [c]) == Members(held) + {c};
    forall i | 0 <= i < |held| ensures held[i] != c {
      assert held[i] in Members(held);
    }
  }

  lemma HoldsLoses(m: Bytes, m': Bytes, v: View, v': View, held: seq<nat>, bufs: seq<seq<byte>>, k: nat)
    requires Holds(m, v, held, bufs) && k < |held| && v'.chunk == v.chunk
    requires HeldKept(m, m', Without(held, k), v.chunk)
    requires Outstanding(v') == Outstanding(v) - {held[k]}
    ensures Holds(m', v', Without(held, k), Without(bufs, k))
  {
    WithoutMembers(held, k);
    var w := Without(held, k);
    forall i | 0 <= i < |w| ensures Load(m', w[i], v.chunk) == Without(bufs, k)[i] {
      assert w[i] == held[if i < k then i else i + 1];
    }
  }

  lemma PatchedLoad(m: Bytes, m': Bytes, c: nat, size: nat, offset: nat, data: seq<byte>)
    requires offset + |data| <= size && Stored(m, m', c + offset, data)
    ensures Load(m', c, size) == Patched(Load(m, c, size), offset, data)
  {
    var loaded, patched := Load(m', c, size), Patched(Load(m, c, size), offset, data);
    forall i | 0 <= i < size ensures loaded[i] == patched[i] {
      if offset <= i < offset + |data| {
        assert Load(m', c + offset, |data|)[i - offset] == data[i - offset];
      }
    }
  }

  lemma HoldsPatched(m: Bytes, m': Bytes, v: View, held: seq<nat>, bufs: seq<seq<byte>>,
                     k: nat, offset: nat, data: seq<byte>)
    requires Holds(m, v, held, bufs) && k < |held| && offset + |data| <= v.chunk
    requires Stored(m, m', held[k] + offset, data) && HeldKept(m, m', Without(held, k), v.chunk)
    ensures Holds(m', v, held, Amended(bufs, k, offset, data))
  {
    PatchedLoad(m, m', held[k], v.chunk, offset, data);
    forall i | 0 <= i < |held| && i != k ensures Load(m', held[i], v.chunk) == bufs[i] {
      assert held[i] == Without(held, k)[if i < k then i else i - 1];
    }
  }

  lemma HoldsAfterAlloc(m: Bytes, m': Bytes, blocks: Blocks, p: nat, v: View, held: seq<nat>, bufs: seq<seq<byte>>)
    requires PoolValid(m, blocks, p, v) && v.free != [] && Holds(m, v, held, bufs)
    requires SameOutside(m, m', p, POINTER_SIZE)
    ensures Holds(m', Popped(v), held + [v.free[0]], bufs + [Load(m', v.free[0], v.chunk)])
  {
    AllocAccounting(m, blocks, p, v);
    HeldAfterAlloc(m, m', blocks, p, v, held);
    HoldsGains(m, m', v, Popped(v), held, bufs, v.free[0]);
  }

  function Amended(bufs: seq<seq<byte>>, k: nat, offset: nat, data: seq<byte>): (r: seq<seq<byte>>)
    ensures |r| == |bufs|
  {
    if k < |bufs| then bufs[k := Patched(bufs[k], offset, data)] else bufs
  }

  lemma HoldsAfterWrite(m: Bytes, m': Bytes, blocks: Blocks, p: nat, v: View, held: seq<nat>, bufs: seq<seq<byte>>,
                        k: nat, offset: nat, data: seq<byte>, a: nat)
    requires BlocksValid(blocks) && Owns(blocks, p, v)
    requires Holds(m, v, held, bufs) && k < |held| && offset + |data| <= v.chunk
    requires a == held[k] + offset && Stored(m, m', a, data)
    ensures Holds(m', v, held, Amended(bufs, k, offset, data))
  {
    assert held[k] in Members(held);
    WithoutMembers(held, k);
    HeldAfterWrite(m, m', blocks, p, v, Without(held, k), held[k], offset, data);
    HoldsPatched(m, m', v, held, bufs, k, offset, data);
  }

  /** The ledger of a pool none of whose chunks are out. */
  ghost function Fresh(pool: Mempool): Ledger
    reads pool, pool.heap
  {
    Ledger(pool.poolSz + pool.extraSz, pool.view.chunk, [], pool.heap.blocks)
  }

  /** Everybody who uses one `Mempool`. */
  class Users {
    const pool: Mempool
    var held: seq<nat>
    ghost var bufs: seq<seq<byte>>

    ghost predicate Valid()
      reads this, pool, pool.heap
    {
      pool.Valid() && Holds(pool.heap.bytes, pool.view, held, bufs)
    }

    ghost function Capacity(): nat
      reads pool
    {
      pool.poolSz + pool.extraSz
    }

    lemma Bounded()
      requires Valid()
      ensures |held| == |bufs| == |pool.Out()| <= Capacity()
    {
      HoldsCount(pool.heap.bytes, pool.heap.blocks, pool.pool, pool.view, held, bufs);
    }

    /** The users of a pool some of whose chunks may be out already. */
    constructor (pool: Mempool, held: seq<nat>)
      requires pool.Valid() && Distinct(held) && Members(held) == pool.Out()
      ensures Valid() && this.pool == pool && this.held == held
    {
      this.pool, this.held := pool, held;
      this.bufs := Loads(pool.heap.bytes, held, pool.view.chunk);
    }

    lemma NobodyYet()
      requires Valid() && held == []
      ensures State() == Fresh(pool)
    {
      assert bufs == [];
    }

    method Alloc() returns (out: Outcome)
      requires Valid()
      modifies this, pool`view, pool.heap`bytes
      ensures Valid() && pool.view.chunk == old(pool.view.chunk)
      ensures if |old(bufs)| < Capacity()
              then out.Got? && |out.contents| == pool.view.chunk && bufs == old(bufs) + [out.contents]
              else out == Thrown && bufs == old(bufs)
      ensures OthersKept(old(pool.heap.bytes), pool.heap.blocks, old(pool.Mine()),
                         pool.heap.bytes, pool.heap.blocks, pool.Mine())
    {
      Bounded();
      var c := Take();
      if c == 0 {
        return Thrown;
      }
      out := Got(Load(pool.heap.bytes, c, Align(pool.chunkSz)));
      held, bufs := held + [c], bufs + [out.contents];
    }

    method Take() returns (c: nat)
      requires Valid()
      modifies pool`view, pool.heap`bytes
      ensures pool.Valid() && pool.view.chunk == old(pool.view.chunk)
      ensures c == 0 <==> |old(pool.Out())| == Capacity()
      ensures c == 0 ==> Valid()
      ensures OthersKept(old(pool.heap.bytes), pool.heap.blocks, old(pool.Mine()),
                         pool.heap.bytes, pool.heap.blocks, pool.Mine())
      ensures c != 0 ==>
                Holds(pool.heap.bytes, pool.view, held + [c], bufs + [Load(pool.heap.bytes, c, pool.view.chunk)])
    {
      ghost var m, v := pool.heap.bytes, pool.view;
      c := pool.Alloc();
      if c != 0 {
        HoldsAfterAlloc(m, pool.heap.bytes, pool.heap.blocks, pool.pool, v, held, bufs);
      }
    }

    method Free(k: nat)
      requires Valid() && k < |held|
      modifies this, pool`view, pool.heap`bytes
      ensures Valid() && pool.view.chunk == old(pool.view.chunk)
      ensures |old(bufs)| == |old(held)| && bufs == Without(old(bufs), k)
      ensures held == Without(old(held), k) && pool.Out() == old(pool.Out()) - {old(held)[k]}
      ensures OthersKept(old(pool.heap.bytes), pool.heap.blocks, old(pool.Mine()),
                         pool.heap.bytes, pool.heap.blocks, pool.Mine())
    {
      ghost var m, v := pool.heap.bytes, pool.view;
      var c := held[k];
      assert c in Members(held);
      WithoutMembers(held, k);
      HeldNotNull(m, pool.heap.blocks, pool.pool, v, c);
      pool.Free(c);
      HeldAfterFree(m, pool.heap.bytes, pool.heap.blocks, pool.pool, v, Without(held, k), c);
      HoldsLoses(m, pool.heap.bytes, v, pool.view, held, bufs, k);
      held, bufs := Without(held, k), Without(bufs, k);
    }

    method Expand(extra: nat, choices: (nat, nat)) returns (ok: bool)
      requires Valid() && Span(extra, pool.view.chunk) < ADDRESS_SPACE
      modifies pool`view, pool`extraSz, pool.heap
      ensures ok <==> Granted(old(State()), extra, choices)
      ensures ok ==>
                && Valid() && Capacity() == old(Capacity()) + extra && pool.view.chunk == old(pool.view.chunk)
                && pool.heap.blocks == Enlarged(old(State()), extra, choices)
      ensures OthersKept(old(pool.heap.bytes), old(pool.heap.blocks), old(pool.Mine()),
                         pool.heap.bytes, pool.heap.blocks, pool.Holding(ok))
    {
      ghost var m, blocks, v := pool.heap.bytes, pool.heap.blocks, pool.view;
      ok := pool.Expand(extra, choices);
      if ok {
        HeldAfterExpand(m, pool.heap.bytes, blocks, pool.pool, v, held);
      }
    }

    method Write(k: nat, offset: nat, data: seq<byte>)
      requires Valid() && k < |held| && offset + |data| <= pool.view.chunk
      modifies this`bufs, pool.heap`bytes
      ensures Valid() && bufs == Amended(old(bufs), k, offset, data)
      ensures OthersKept(old(pool.heap.bytes), pool.heap.blocks, old(pool.Mine()),
                         pool.heap.bytes, pool.heap.blocks, pool.Mine())
    {
      ghost var m := pool.heap.bytes;
      var c := held[k];
      assert c in Members(held);
      ghost var a := c + offset;
      Fill(c, offset, data, m, a);
      HoldsAfterWrite(m, pool.heap.bytes, pool.heap.blocks, pool.pool, pool.view, held, bufs, k, offset, data, a);
      bufs := Amended(bufs, k, offset, data);
    }

    method Fill(c: nat, offset: nat, data: seq<byte>, ghost m: Bytes, ghost a: nat)
      requires pool.Valid() && c in pool.Out() && offset + |data| <= pool.view.chunk
      requires m == pool.heap.bytes && a == c + offset
      modifies pool.heap`bytes
      ensures pool.Valid() && Stored(m, pool.heap.bytes, a, data)
      ensures OthersKept(m, pool.heap.blocks, pool.Mine(), pool.heap.bytes, pool.heap.blocks, pool.Mine())
    {
      pool.Write(c, offset, data);
    }

    ghost function State(): Ledger
      reads this, pool, pool.heap
    {
      Ledger(Capacity(), pool.view.chunk, bufs, pool.heap.blocks)
    }

    method Read(k: nat) returns (data: seq<byte>)
      requires Valid() && k < |held|
      ensures |bufs| == |held| && data == bufs[k]
    {
      data := Load(pool.heap.bytes, held[k], Align(pool.chunkSz));
    }

    method Count() returns (n: nat)
      requires Valid()
      ensures Capacity() == |bufs| + n
    {
      Bounded();
      var s := pool.Report();
      n := s.available;
    }

    /** One call, as the reference predicts it. */
    method Serve(op: Op) returns (out: Outcome)
      requires Valid()
      modifies this, pool`view, pool`extraSz, pool.heap
      ensures Allowed(old(State()), op, out)
      ensures out != Broken ==> Valid() && State() == After(old(State()), op, out)
      ensures OthersKept(old(pool.heap.bytes), old(pool.heap.blocks), old(pool.Mine()),
                         pool.heap.bytes, pool.heap.blocks, pool.Holding(out != Broken))
      ensures op.OpFree? && op.k < |old(held)| ==>
                held == Without(old(held), op.k) && pool.Out() == old(pool.Out()) - {old(held)[op.k]}
    {
      match op {
        case OpAlloc => out := Alloc();
        case OpFree(k) =>
          if k >= |held| { return Ignored; }
          Free(k);
          out := Done;
        case OpStats =>
          var n := Count();
          out := Available(n);
        case OpRead(k) =>
          if k >= |held| { return Ignored; }
          var data := Read(k);
          out := Contents(data);
        case OpExpand(extra, choices) => out := ServeExpand(extra, choices);
        case OpWrite(k, offset, data) => out := ServeWrite(k, offset, data);
      }
    }

    method ServeExpand(extra: nat, choices: (nat, nat)) returns (out: Outcome)
      requires Valid()
      modifies this, pool`view, pool`extraSz, pool.heap
      ensures Allowed(old(State()), OpExpand(extra, choices), out)
      ensures out != Broken ==> Valid() && State() == After(old(State()), OpExpand(extra, choices), out)
      ensures OthersKept(old(pool.heap.bytes), old(pool.heap.blocks), old(pool.Mine()),
                         pool.heap.bytes, pool.heap.blocks, pool.Holding(out != Broken))
    {
      if Span(extra, Align(pool.chunkSz)) >= ADDRESS_SPACE {
        return Ignored;
      }
      ghost var l := State();
      var ok := Expand(extra, choices);
      out := if ok then Done else Broken;
      if ok {
        AfterExpand(l, extra, choices, State());
      }
    }

    method ServeWrite(k: nat, offset: nat, data: seq<byte>) returns (out: Outcome)
      requires Valid()
      modifies this, pool`view, pool`extraSz, pool.heap
      ensures Allowed(old(State()), OpWrite(k, offset, data), out)
      ensures out != Broken ==> Valid() && State() == After(old(State()), OpWrite(k, offset, data), out)
      ensures OthersKept(old(pool.heap.bytes), old(pool.heap.blocks), old(pool.Mine()),
                         pool.heap.bytes, pool.heap.blocks, pool.Holding(out != Broken))
    {
      if k >= |held| || offset + |data| > Align(pool.chunkSz) {
        return Ignored;
      }
      Write(k, offset, data);
      out := Done;
    }

    /** Every run is one the reference explains, and ends in the state it says. Whatever the users
        do, nobody else's blocks are touched; a run that broke the pool leaves none of its own. */
    method Run(ops: seq<Op>) returns (outs: seq<Outcome>)
      requires Valid()
      modifies this, pool`view, pool`extraSz, pool.heap
      ensures Explains(old(State()), ops, outs)
      ensures Broken !in outs ==> Valid() && State() == AfterAll(old(State()), ops, outs)
      ensures OthersKept(old(pool.heap.bytes), old(pool.heap.blocks), old(pool.Mine()),
                         pool.heap.bytes, pool.heap.blocks, pool.Holding(Broken !in outs))
      decreases |ops|
    {
      if ops == [] {
        return [];
      }
      ghost var m, blocks, mine := pool.heap.bytes, pool.heap.blocks, pool.Mine();
      var out := Serve(ops[0]);
      if out == Broken {
        return [out];
      }
      ghost var m1, blocks1, mine1 := pool.heap.bytes, pool.heap.blocks, pool.Mine();
      var rest := Run(ops[1..]);
      outs := [out] + rest;
      assert outs[1..] == rest;
      OthersKeptTwice(m, blocks, mine, m1, blocks1, mine1,
                      pool.heap.bytes, pool.heap.blocks, pool.Holding(Broken !in outs));
    }
  }

  /** The cell at a is part of a live block. */
  ghost predicate Readable(blocks: Blocks, a: nat) {
    exists b | b in blocks :: Cell(blocks, b, a)
  }

  /** Once a pool's blocks are gone, the cell its destructor reads first is in no live block. */
  lemma NothingToDestroy(m: Bytes, blocks: Blocks, p: nat, v: View, m': Bytes, blocks': Blocks)
    requires BlocksValid(blocks) && Owns(blocks, p, v)
    requires OthersKept(m, blocks, OwnedBlocks(p, v), m', blocks', {})
    ensures !Readable(blocks', p + 8)
  {
    var none: set<nat> := {};
    assert blocks'.Keys - none == blocks'.Keys;
    forall b | b in blocks' ensures !Cell(blocks', b, p + 8) {
      assert b in blocks.Keys - OwnedBlocks(p, v);
      assert SameBlock(m, blocks, m', blocks', b) && Apart(b, blocks[b], p, blocks[p]);
    }
  }

  /** A constructed pool is used and its destructor runs. That ends cleanly if and only if no
      expansion failed: otherwise the pool is gone, and the destructor starts by reading from it. */
  method UseAndDestroy(pool: Mempool, ops: seq<Op>) returns (outs: seq<Outcome>, clean: bool)
    requires pool.Valid() && pool.Out() == {}
    modifies pool`view, pool`extraSz, pool.heap
    ensures Explains(old(Fresh(pool)), ops, outs)
    ensures clean <==> Broken !in outs
    ensures !clean ==> !Readable(pool.heap.blocks, pool.pool + 8)
    ensures OthersKept(old(pool.heap.bytes), old(pool.heap.blocks), old(pool.Mine()),
                       pool.heap.bytes, pool.heap.blocks, {})
  {
    ghost var m, blocks, v := pool.heap.bytes, pool.heap.blocks, pool.view;
    outs := RunFresh(pool, ops);
    clean := Broken !in outs;
    if clean {
      ghost var m1, blocks1, mine1 := pool.heap.bytes, pool.heap.blocks, pool.Mine();
      pool.Destroy();
      OthersKeptTwice(m, blocks, OwnedBlocks(pool.pool, v), m1, blocks1, mine1, m1, pool.heap.blocks, {});
    } else {
      NothingToDestroy(m, blocks, pool.pool, v, pool.heap.bytes, pool.heap.blocks);
    }
  }

  method RunFresh(pool: Mempool, ops: seq<Op>) returns (outs: seq<Outcome>)
    requires pool.Valid() && pool.Out() == {}
    modifies pool`view, pool`extraSz, pool.heap
    ensures Explains(old(Fresh(pool)), ops, outs)
    ensures Broken !in outs ==> pool.Valid()
    ensures OthersKept(old(pool.heap.bytes), old(pool.heap.blocks), old(pool.Mine()),
                       pool.heap.bytes, pool.heap.blocks, pool.Holding(Broken !in outs))
  {
    ghost var l := Fresh(pool);
    var users := new Users(pool, []);
    users.NobodyYet();
    assert users.State() == l;
    outs := users.Run(ops);
  }

  /** From the constructor through any run to the destructor: the heap has the blocks it had, with
      the bytes they had. The end is clean if and only if no expansion failed. */
  method Life(heap: Allocator, poolSz: nat, chunkSz: nat, choices: (nat, nat, nat), ops: seq<Op>)
    returns (pool: Mempool?, outs: seq<Outcome>, clean: bool, ghost start: Ledger)
    requires BlocksValid(heap.blocks)
    requires 0 < chunkSz <= ADDRESS_SPACE - POINTER_SIZE && Span(poolSz, Align(chunkSz)) < ADDRESS_SPACE
    modifies heap
    ensures heap.blocks == old(heap.blocks) && BlocksKept(old(heap.bytes), heap.bytes, old(heap.blocks))
    ensures pool != null <==> poolSz > 0 && GrantsNew(old(heap.blocks), choices, Span(poolSz, Align(chunkSz)))
    ensures pool != null ==>
              && start.total == poolSz && start.size == Align(chunkSz) && start.bufs == []
              && Explains(start, ops, outs)
    ensures clean <==> Broken !in outs
    ensures !clean ==> pool != null && !Readable(heap.blocks, pool.pool + 8)
  {
    ghost var m, blocks := heap.bytes, heap.blocks;
    outs, clean, start := [], true, Ledger(0, 0, [], map[]);
    pool := Mempool.Create(heap, poolSz, chunkSz, choices);
    if pool != null {
      ghost var m1, blocks1, mine1 := heap.bytes, heap.blocks, pool.Mine();
      start := Fresh(pool);
      outs, clean := UseAndDestroy(pool, ops);
      OthersKeptTwice(m, blocks, {}, m1, blocks1, mine1, heap.bytes, heap.blocks, {});
    }
    NothingLeft(m, blocks, heap.bytes, heap.blocks);
  }
}
