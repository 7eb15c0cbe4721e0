/** The single-producer single-consumer ring buffers as a concurrent step system.

    Every push and pop is split at its shared accesses, and producer and consumer steps
    interleave arbitrarily. Memory is not sequentially consistent: each atomic index keeps the
    whole list of values ever stored in it, and an acquire load may return any of them that is
    not older than the last one the same thread saw. Happens-before is tracked by clocks: a
    release store carries the clock of its thread, an acquire load joins it. The plain slot
    accesses carry no order of their own, so the protocol has to make them race free. */
module SpscProtocol {
  import opened BoundedFifo
  import opened RingIndex

  /** `Plain` is `ringbuffer` (and the shared-memory `Circular_queue`), which loads the other
      index on every call. `Cached` is `ringbuffer2`, which loads it only when its private copy
      makes the buffer look full or empty. */
  datatype Variant = Plain | Cached

  /** One entry in the modification order of an atomic index. */
  datatype Store = Store(idx: nat, clock: nat)

  /** A slot remembers which producer write and which consumer read touched it last. */
  datatype Slot = Slot(val: int, wrote: nat, read: nat)

  /** What a thread knows: its own clock, the part of the other thread's clock that happens
      before its next step, the newest store of the other index it saw, and its cached copy. */
  datatype Thread = Thread(clock: nat, view: nat, seen: nat, cached: nat)

  datatype ProducerPc =
    | PIdle
    | PLoadOther(val: int, w: nat, next: nat)
    | PWrite(val: int, w: nat, next: nat)
    | PPublish(val: int, w: nat, next: nat)

  datatype ConsumerPc =
    | CIdle
    | CLoadOther(r: nat)
    | CRead(r: nat)
    | CPublish(r: nat, val: int)

  datatype State = State(
    cap: nat,
    variant: Variant,
    wr: seq<Store>,
    rd: seq<Store>,
    slots: seq<Slot>,
    prod: Thread,
    cons: Thread,
    ppc: ProducerPc,
    cpc: ConsumerPc,
    pushed: seq<int>,
    popped: seq<int>)

  /** The scheduler's choice. A load also chooses which store it observes. */
  datatype Event =
    | PushStart(val: int)
    | PushLoad(pos: nat)
    | PushWrite
    | PushPublish
    | PopStart
    | PopLoad(pos: nat)
    | PopRead
    | PopPublish

  function Max(a: nat, b: nat): nat {
    if a < b then b else a
  }

  function Init(cap: nat, variant: Variant): State {
    State(cap, variant, [Store(0, 0)], [Store(0, 0)], seq(cap, _ => Slot(0, 0, 0)),
          Thread(0, 0, 0, 0), Thread(0, 0, 0, 0), PIdle, CIdle, [], [])
  }

  predicate Enabled(s: State, e: Event) {
    match e
    case PushStart(_) => s.ppc.PIdle? && |s.wr| > 0
    case PushLoad(pos) => s.ppc.PLoadOther? && s.prod.seen <= pos < |s.rd|
    case PushWrite => s.ppc.PWrite? && s.ppc.w < |s.slots|
    case PushPublish => s.ppc.PPublish?
    case PopStart => s.cpc.CIdle? && |s.rd| > 0
    case PopLoad(pos) => s.cpc.CLoadOther? && s.cons.seen <= pos < |s.wr|
    case PopRead => s.cpc.CRead? && s.cpc.r < |s.slots|
    case PopPublish => s.cpc.CPublish?
  }

  function Step(s: State, e: Event): State
    requires Enabled(s, e)
  {
    match e
    case PushStart(v) =>
      var w := s.wr[|s.wr| - 1].idx;
      var next := Next(w, s.cap);
      if s.variant.Cached? && next != s.prod.cached
      then s.(ppc := PWrite(v, w, next))
      else s.(ppc := PLoadOther(v, w, next))
    case PushLoad(pos) =>
      var st := s.rd[pos];
      var prod := s.prod.(seen := pos, cached := st.idx, view := Max(s.prod.view, st.clock));
      s.(prod := prod,
         ppc := if s.ppc.next == st.idx then PIdle else PWrite(s.ppc.val, s.ppc.w, s.ppc.next))
    case PushWrite =>
      var t := s.prod.clock + 1;
      s.(prod := s.prod.(clock := t),
         slots := s.slots[s.ppc.w := s.slots[s.ppc.w].(val := s.ppc.val, wrote := t)],
         ppc := PPublish(s.ppc.val, s.ppc.w, s.ppc.next))
    case PushPublish =>
      s.(wr := s.wr + [Store(s.ppc.next, s.prod.clock)],
         pushed := s.pushed + [s.ppc.val],
         ppc := PIdle)
    case PopStart =>
      var r := s.rd[|s.rd| - 1].idx;
      if s.variant.Cached? && r != s.cons.cached
      then s.(cpc := CRead(r))
      else s.(cpc := CLoadOther(r))
    case PopLoad(pos) =>
      var st := s.wr[pos];
      var cons := s.cons.(seen := pos, cached := st.idx, view := Max(s.cons.view, st.clock));
      s.(cons := cons, cpc := if s.cpc.r == st.idx then CIdle else CRead(s.cpc.r))
    case PopRead =>
      var t := s.cons.clock + 1;
      s.(cons := s.cons.(clock := t),
         slots := s.slots[s.cpc.r := s.slots[s.cpc.r].(read := t)],
         cpc := CPublish(s.cpc.r, s.slots[s.cpc.r].val))
    case PopPublish =>
      s.(rd := s.rd + [Store(Next(s.cpc.r, s.cap), s.cons.clock)],
         popped := s.popped + [s.cpc.val],
         cpc := CIdle)
  }

  /** What the step shows to the callers of push and pop. */
  function Observe(s: State, e: Event): Action
    requires Enabled(s, e)
  {
    match e
    case PushLoad(pos) => if s.ppc.next == s.rd[pos].idx then PushFull else Internal
    case PushPublish => PushOk(s.ppc.val)
    case PopLoad(pos) => if s.cpc.r == s.wr[pos].idx then PopEmpty else Internal
    case PopPublish => PopOk(s.cpc.val)
    case _ => Internal
  }

  predicate Legal(s: State, run: seq<Event>)
    decreases |run|
  {
    run == [] || (Enabled(s, run[0]) && Legal(Step(s, run[0]), run[1..]))
  }

  function Exec(s: State, run: seq<Event>): State
    requires Legal(s, run)
    decreases |run|
  {
    if run == [] then s else Exec(Step(s, run[0]), run[1..])
  }

  function Trace(s: State, run: seq<Event>): seq<Action>
    requires Legal(s, run)
    decreases |run|
  {
    if run == [] then [] else [Observe(s, run[0])] + Trace(Step(s, run[0]), run[1..])
  }

  /** If the step is a load, it returns the newest store. */
  predicate FreshLoad(s: State, e: Event) {
    (e.PushLoad? ==> e.pos == |s.rd| - 1) && (e.PopLoad? ==> e.pos == |s.wr| - 1)
  }

  /** Every load of the run returns the newest store. */
  predicate Fresh(s: State, run: seq<Event>)
    requires Legal(s, run)
    decreases |run|
  {
    run == [] ||
    (FreshLoad(s, run[0]) && Fresh(Step(s, run[0]), run[1..]))
  }

  // ---------------------------------------------------------------------------------------
  // Wrapped indices and unbounded counts

  /** The index reached from 0 by k increments. */
  function Wrap(k: nat, cap: nat): nat {
    if k == 0 then 0 else Next(Wrap(k - 1, cap), cap)
  }

  lemma {:induction false} WrapIsMod(k: nat, cap: nat)
    requires cap > 0
    ensures Wrap(k, cap) == k % cap
  {
    if k > 0 {
      WrapIsMod(k - 1, cap);
      NextRemainder(k, cap, (k - 1) / cap, (k - 1) % cap);
    }
  }

  lemma NextRemainder(k: nat, cap: nat, q: nat, r: nat)
    requires k == q * cap + r + 1 && r < cap
    ensures k % cap == Next(r, cap)
  {
    if r + 1 == cap {
      assert q * cap + cap == (q + 1) * cap;
      DivModUnique(k, cap, q + 1, 0);
    } else {
      DivModUnique(k, cap, q, r + 1);
    }
  }

  lemma {:induction false} WrapBound(k: nat, cap: nat)
    requires cap > 0
    ensures Wrap(k, cap) < cap
  {
    if k > 0 {
      WrapBound(k - 1, cap);
    }
  }

  lemma {:induction false} WrapAdd(k: nat, n: nat, cap: nat)
    requires n < cap
    ensures Wrap(k + n, cap)
         == if Wrap(k, cap) + n < cap then Wrap(k, cap) + n else Wrap(k, cap) + n - cap
  {
    WrapBound(k, cap);
    if n > 0 {
      WrapAdd(k, n - 1, cap);
    }
  }

  /** Counts less than a full turn apart have the same index only if they are equal. */
  lemma WrapInjective(a: nat, b: nat, cap: nat)
    requires cap > 0
    requires a <= b < a + cap
    ensures Wrap(a, cap) == Wrap(b, cap) <==> a == b
  {
    WrapAdd(a, b - a, cap);
    WrapBound(a, cap);
  }

  /** A full turn brings the index back. */
  lemma WrapTurn(k: nat, cap: nat)
    requires cap > 0
    ensures Wrap(k + cap, cap) == Wrap(k, cap)
  {
    WrapAdd(k, cap - 1, cap);
    WrapBound(k, cap);
  }

  // ---------------------------------------------------------------------------------------
  // The invariant

  /** Pushes whose slot is written, and pops whose slot is read, whether or not published. */
  function Written(s: State): nat {
    |s.pushed| + if s.ppc.PPublish? then 1 else 0
  }

  function Taken(s: State): nat {
    |s.popped| + if s.cpc.CPublish? then 1 else 0
  }

  function Value(s: State, j: nat): int
    requires j < Written(s)
  {
    if j < |s.pushed| then s.pushed[j] else s.ppc.val
  }

  /** The k-th store of an index is the index after k increments, published at clock k. */
  predicate StoresInv(stores: seq<Store>, count: nat, cap: nat) {
    && |stores| == count + 1
    && forall k | 0 <= k < |stores| :: stores[k] == Store(Wrap(k, cap), k)
  }

  /** pops <= seenWrites <= pushes, seenReads <= pops, pushes - seenReads <= capacity - 1:
      both private copies may be stale, but only in the safe direction. */
  predicate CountsInv(s: State) {
    && s.prod.seen <= |s.popped| <= s.cons.seen <= |s.pushed|
    && |s.pushed| - s.prod.seen <= s.cap - 1
    && (s.ppc.PWrite? || s.ppc.PPublish? ==> |s.pushed| + 1 - s.prod.seen <= s.cap - 1)
    && (s.cpc.CRead? || s.cpc.CPublish? ==> |s.popped| < s.cons.seen)
  }

  predicate ThreadsInv(s: State) {
    && s.prod.clock == Written(s) && s.prod.view == s.prod.seen
    && s.prod.cached == Wrap(s.prod.seen, s.cap)
    && s.cons.clock == Taken(s) && s.cons.view == s.cons.seen
    && s.cons.cached == Wrap(s.cons.seen, s.cap)
    && (!s.ppc.PIdle? ==>
          s.ppc.w == Wrap(|s.pushed|, s.cap) && s.ppc.next == Wrap(|s.pushed| + 1, s.cap))
    && (!s.cpc.CIdle? ==> s.cpc.r == Wrap(|s.popped|, s.cap))
    && (s.cpc.CPublish? ==> |s.popped| < |s.pushed| && s.cpc.val == s.pushed[|s.popped|])
  }

  /** Every written and not yet released slot holds its item and was last written by it; the
      last read of any slot belongs to a pop of that slot. */
  predicate SlotsInv(s: State)
  {
    && |s.slots| == s.cap
    && (forall j | |s.popped| <= j < Written(s) ::
          Wrap(j, s.cap) < s.cap
          && s.slots[Wrap(j, s.cap)].val == Value(s, j)
          && s.slots[Wrap(j, s.cap)].wrote == j + 1)
    && (forall i | 0 <= i < s.cap :: ReadInv(s, i))
  }

  predicate ReadInv(s: State, i: nat)
    requires i < |s.slots|
  {
    s.slots[i].read > 0 ==>
      s.slots[i].read <= Taken(s) && Wrap(s.slots[i].read - 1, s.cap) == i
  }

  ghost predicate Inv(s: State) {
    && s.cap > 0
    && StoresInv(s.wr, |s.pushed|, s.cap)
    && StoresInv(s.rd, |s.popped|, s.cap)
    && CountsInv(s)
    && ThreadsInv(s)
    && SlotsInv(s)
    && s.popped <= s.pushed
  }

  lemma InitInv(cap: nat, variant: Variant)
    requires cap > 0
    ensures Inv(Init(cap, variant))
  {
  }

  /** The slot about to be written is not the slot of any item still to be read. */
  lemma WriteSlotIsFree(s: State, j: nat)
    requires Inv(s) && s.ppc.PWrite?
    requires |s.popped| <= j < |s.pushed|
    ensures Wrap(j, s.cap) != s.ppc.w
  {
    WrapInjective(j, |s.pushed|, s.cap);
  }

  /** Steps that touch no slot and publish nothing keep the slot invariant. */
  lemma SlotsFrame(s: State, s': State)
    requires SlotsInv(s)
    requires s'.cap == s.cap && s'.slots == s.slots
    requires s'.pushed == s.pushed && s'.popped == s.popped
    requires s'.ppc == s.ppc || !(s.ppc.PPublish? || s'.ppc.PPublish?)
    requires Taken(s') == Taken(s)
    ensures SlotsInv(s')
  {
    assert forall j :: |s.popped| <= j < Written(s) ==> Value(s', j) == Value(s, j);
    ReadInvStays(s, s');
  }

  lemma PushStartKeepsInv(s: State, v: int)
    requires Inv(s) && Enabled(s, PushStart(v))
    ensures Inv(Step(s, PushStart(v)))
  {
    PushStartCounts(s, v);
    SlotsFrame(s, Step(s, PushStart(v)));
  }

  /** The cached test passes only with room for one more. */
  lemma PushStartCounts(s: State, v: int)
    requires s.cap > 0 && StoresInv(s.wr, |s.pushed|, s.cap) && CountsInv(s) && ThreadsInv(s)
    requires Enabled(s, PushStart(v))
    ensures CountsInv(Step(s, PushStart(v))) && ThreadsInv(Step(s, PushStart(v)))
  {
    var n := |s.pushed|;
    assert s.wr[n] == Store(Wrap(n, s.cap), n);
    assert Wrap(n + 1, s.cap) == Next(Wrap(n, s.cap), s.cap);
    if n + 1 == s.prod.seen + s.cap {
      WrapTurn(s.prod.seen, s.cap);
    }
  }

  lemma PushLoadKeepsInv(s: State, pos: nat)
    requires Inv(s) && Enabled(s, PushLoad(pos))
    ensures Inv(Step(s, PushLoad(pos)))
  {
    if |s.pushed| + 1 == pos + s.cap {
      WrapTurn(pos, s.cap);
    }
    SlotsFrame(s, Step(s, PushLoad(pos)));
  }

  lemma PushWriteKeepsInv(s: State)
    requires Inv(s) && Enabled(s, PushWrite)
    ensures Inv(Step(s, PushWrite))
  {
    var s' := Step(s, PushWrite);
    forall j | |s'.popped| <= j < Written(s')
      ensures Wrap(j, s.cap) < s.cap
           && s'.slots[Wrap(j, s.cap)].val == Value(s', j)
           && s'.slots[Wrap(j, s.cap)].wrote == j + 1
    {
      WrapBound(j, s.cap);
      if j < |s.pushed| {
        WriteSlotIsFree(s, j);
      }
    }
    ReadInvStays(s, s');
  }

  lemma PushPublishKeepsInv(s: State)
    requires Inv(s) && Enabled(s, PushPublish)
    ensures Inv(Step(s, PushPublish))
  {
    assert Wrap(|s.pushed| + 1, s.cap) == Next(Wrap(|s.pushed|, s.cap), s.cap);
    StoresGrow(s.wr, |s.pushed|, s.cap);
    PushPublishKeepsSlots(s);
  }

  lemma PushPublishKeepsSlots(s: State)
    requires SlotsInv(s) && s.ppc.PPublish?
    ensures SlotsInv(Step(s, PushPublish))
  {
    var s' := Step(s, PushPublish);
    assert forall j :: |s.popped| <= j < Written(s) ==> Value(s', j) == Value(s, j);
    ReadInvStays(s, s');
  }

  /** Steps other than the read of a slot leave every slot's last read alone. */
  lemma ReadInvStays(s: State, s': State)
    requires s'.cap == s.cap && |s.slots| == |s'.slots| == s.cap && Taken(s) <= Taken(s')
    requires forall i | 0 <= i < s.cap :: s'.slots[i].read == s.slots[i].read
    requires forall i | 0 <= i < s.cap :: ReadInv(s, i)
    ensures forall i | 0 <= i < s.cap :: ReadInv(s', i)
  {
    forall i | 0 <= i < s.cap ensures ReadInv(s', i) {
      assert ReadInv(s, i);
    }
  }

  lemma PopStartKeepsInv(s: State)
    requires Inv(s) && Enabled(s, PopStart)
    ensures Inv(Step(s, PopStart))
  {
    WrapInjective(|s.popped|, s.cons.seen, s.cap);
    SlotsFrame(s, Step(s, PopStart));
  }

  lemma PopLoadKeepsInv(s: State, pos: nat)
    requires Inv(s) && Enabled(s, PopLoad(pos))
    ensures Inv(Step(s, PopLoad(pos)))
  {
    WrapInjective(|s.popped|, pos, s.cap);
    SlotsFrame(s, Step(s, PopLoad(pos)));
  }

  lemma PopReadKeepsInv(s: State)
    requires Inv(s) && Enabled(s, PopRead)
    ensures Inv(Step(s, PopRead))
  {
    var s' := Step(s, PopRead);
    forall i | 0 <= i < s'.cap ensures ReadInv(s', i) {
      assert ReadInv(s, i);
    }
    forall j | |s'.popped| <= j < Written(s')
      ensures Wrap(j, s.cap) < s.cap
           && s'.slots[Wrap(j, s.cap)].val == Value(s', j)
           && s'.slots[Wrap(j, s.cap)].wrote == j + 1
    {
      assert Value(s', j) == Value(s, j);
    }
  }

  lemma PopPublishKeepsInv(s: State)
    requires Inv(s) && Enabled(s, PopPublish)
    ensures Inv(Step(s, PopPublish))
  {
    StoresGrow(s.rd, |s.popped|, s.cap);
    PopPublishKeepsSlots(s);
  }

  lemma PopPublishKeepsSlots(s: State)
    requires SlotsInv(s) && s.cpc.CPublish?
    ensures SlotsInv(Step(s, PopPublish))
  {
    var s' := Step(s, PopPublish);
    assert forall j :: |s.popped| <= j < Written(s) ==> Value(s', j) == Value(s, j);
    ReadInvStays(s, s');
  }

  /** Publishing the next index. */
  lemma StoresGrow(stores: seq<Store>, count: nat, cap: nat)
    requires StoresInv(stores, count, cap)
    ensures StoresInv(stores + [Store(Next(Wrap(count, cap), cap), count + 1)], count + 1, cap)
  {
    assert Wrap(count + 1, cap) == Next(Wrap(count, cap), cap);
  }

  lemma StepKeepsInv(s: State, e: Event)
    requires Inv(s) && Enabled(s, e)
    ensures Inv(Step(s, e))
  {
    match e {
      case PushStart(v) => PushStartKeepsInv(s, v);
      case PushLoad(pos) => PushLoadKeepsInv(s, pos);
      case PushWrite => PushWriteKeepsInv(s);
      case PushPublish => PushPublishKeepsInv(s);
      case PopStart => PopStartKeepsInv(s);
      case PopLoad(pos) => PopLoadKeepsInv(s, pos);
      case PopRead => PopReadKeepsInv(s);
      case PopPublish => PopPublishKeepsInv(s);
    }
  }

  lemma {:induction false} RunKeepsInv(s: State, run: seq<Event>)
    requires Inv(s) && Legal(s, run)
    ensures Inv(Exec(s, run))
    decreases |run|
  {
    if run != [] {
      StepKeepsInv(s, run[0]);
      RunKeepsInv(Step(s, run[0]), run[1..]);
    }
  }

  // ---------------------------------------------------------------------------------------
  // Whole-run theorems

  /** Items leave in the order they were pushed, none lost, duplicated or invented, and the
      published indices never describe more than capacity - 1 items. */
  lemma EveryRunIsFifo(cap: nat, variant: Variant, run: seq<Event>)
    requires cap > 0 && Legal(Init(cap, variant), run)
    ensures var s := Exec(Init(cap, variant), run);
            s.popped <= s.pushed && |s.pushed| - |s.popped| <= cap - 1
  {
    InitInv(cap, variant);
    RunKeepsInv(Init(cap, variant), run);
    ExecKeepsCap(Init(cap, variant), run);
  }

  lemma {:induction false} ExecKeepsCap(s: State, run: seq<Event>)
    requires Legal(s, run)
    ensures Exec(s, run).cap == s.cap && Exec(s, run).variant == s.variant
    decreases |run|
  {
    if run != [] {
      ExecKeepsCap(Step(s, run[0]), run[1..]);
    }
  }

  /** The plain accesses of a step are ordered after every conflicting access: the producer
      writes a slot only after the last read of it happened, the consumer reads a slot only
      after the last write of it happened. */
  predicate RaceFree(s: State) {
    && (s.ppc.PWrite? ==> s.ppc.w < |s.slots| && s.slots[s.ppc.w].read <= s.prod.view)
    && (s.cpc.CRead? ==> s.cpc.r < |s.slots| && s.slots[s.cpc.r].wrote <= s.cons.view)
  }

  /** The two threads never work on the same slot, and the slot being written holds no item
      that is still to be read. */
  predicate SlotsApart(s: State) {
    && (s.ppc.PWrite? || s.ppc.PPublish? ==>
          && (s.cpc.CRead? || s.cpc.CPublish? ==> s.ppc.w != s.cpc.r)
          && forall j | |s.popped| <= j < |s.pushed| :: Wrap(j, s.cap) != s.ppc.w)
  }

  lemma InvIsRaceFree(s: State)
    requires Inv(s)
    ensures RaceFree(s) && SlotsApart(s)
  {
    WrapBound(|s.pushed|, s.cap);
    WrapBound(|s.popped|, s.cap);
    if s.ppc.PWrite? {
      var t := s.slots[s.ppc.w].read;
      assert ReadInv(s, s.ppc.w);
      if t > s.prod.seen {
        WrapInjective(t - 1, |s.pushed|, s.cap);
      }
    }
    if s.ppc.PWrite? || s.ppc.PPublish? {
      forall j | |s.popped| <= j < |s.pushed| ensures Wrap(j, s.cap) != s.ppc.w {
        WrapInjective(j, |s.pushed|, s.cap);
      }
    }
  }

  /** No run, with however stale loads, ever reaches a data race on a slot. */
  lemma EveryRunIsRaceFree(cap: nat, variant: Variant, run: seq<Event>)
    requires cap > 0 && Legal(Init(cap, variant), run)
    ensures var s := Exec(Init(cap, variant), run);
            RaceFree(s) && SlotsApart(s)
  {
    InitInv(cap, variant);
    RunKeepsInv(Init(cap, variant), run);
    InvIsRaceFree(Exec(Init(cap, variant), run));
  }

  /** The abstract queue of a state: what is published and not yet popped. */
  function Contents(s: State): seq<int>
    requires |s.popped| <= |s.pushed|
  {
    s.pushed[|s.popped|..]
  }

  /** A step is refined by what it shows: the abstract queue allows it and follows it. */
  ghost predicate Refines(s: State, e: Event, honest: bool) {
    && Enabled(s, e)
    && |s.popped| <= |s.pushed|
    && s.cap > 0
    && var s' := Step(s, e);
       && |s'.popped| <= |s'.pushed|
       && Allows(s.cap - 1, Contents(s), Observe(s, e), honest)
       && Contents(s') == After(Contents(s), Observe(s, e))
  }

  lemma LoadRefinesFifo(s: State, e: Event, honest: bool)
    requires Inv(s) && Enabled(s, e) && (e.PushLoad? || e.PopLoad?)
    requires honest ==> FreshLoad(s, e)
    ensures Refines(s, e, honest)
  {
    match e {
      case PushLoad(pos) => PushRefusalExact(s, pos);
      case PopLoad(pos) => PopRefusalExact(s, pos);
    }
  }

  lemma PublishRefinesFifo(s: State, e: Event, honest: bool)
    requires Inv(s) && Enabled(s, e) && (e.PushPublish? || e.PopPublish?)
    ensures Refines(s, e, honest)
  {
    var q, n := Contents(s), |s.popped|;
    if e.PushPublish? {
      assert (s.pushed + [s.ppc.val])[n..] == q + [s.ppc.val];
    } else {
      assert q[0] == s.pushed[n] && q[1..] == s.pushed[n + 1..];
    }
  }

  lemma StepRefinesFifo(s: State, e: Event, honest: bool)
    requires Inv(s) && Enabled(s, e)
    requires honest ==> FreshLoad(s, e)
    ensures Refines(s, e, honest)
  {
    if e.PushLoad? || e.PopLoad? {
      LoadRefinesFifo(s, e, honest);
    } else if e.PushPublish? || e.PopPublish? {
      PublishRefinesFifo(s, e, honest);
    }
  }

  ghost predicate AllRefine(s: State, run: seq<Event>, honest: bool)
    requires Legal(s, run)
    decreases |run|
  {
    run == [] || (Refines(s, run[0], honest) && AllRefine(Step(s, run[0]), run[1..], honest))
  }

  lemma {:induction false} RunStepsRefine(s: State, run: seq<Event>, honest: bool)
    requires Inv(s) && Legal(s, run)
    requires honest ==> Fresh(s, run)
    ensures AllRefine(s, run, honest)
    decreases |run|
  {
    if run != [] {
      StepKeepsInv(s, run[0]);
      StepRefinesFifo(s, run[0], honest);
      RunStepsRefine(Step(s, run[0]), run[1..], honest);
    }
  }

  lemma {:induction false} RefinedRunIsAccepted(s: State, run: seq<Event>, honest: bool)
    requires s.cap > 0 && |s.popped| <= |s.pushed|
    requires Legal(s, run) && AllRefine(s, run, honest)
    ensures Accepts(s.cap - 1, Contents(s), Trace(s, run), honest)
    decreases |run|
  {
    if run != [] {
      StepKeepsCap(s, run[0]);
      RefinedRunIsAccepted(Step(s, run[0]), run[1..], honest);
      assert Trace(s, run)[1..] == Trace(Step(s, run[0]), run[1..]);
    }
  }

  lemma StepKeepsCap(s: State, e: Event)
    requires Enabled(s, e)
    ensures Step(s, e).cap == s.cap && Step(s, e).variant == s.variant
  {
  }

  /** Every run is a trace of one bounded queue with room for capacity - 1 items. When loads
      are fresh every refusal is honest: it happens at a moment the queue really is full (or
      empty). With stale loads only refusals may be early; successes are never affected. */
  lemma EveryRunRefinesFifo(cap: nat, variant: Variant, run: seq<Event>, honest: bool)
    requires cap > 0 && Legal(Init(cap, variant), run)
    requires honest ==> Fresh(Init(cap, variant), run)
    ensures Accepts(cap - 1, [], Trace(Init(cap, variant), run), honest)
  {
    InitInv(cap, variant);
    RunStepsRefine(Init(cap, variant), run, honest);
    RefinedRunIsAccepted(Init(cap, variant), run, honest);
  }

  /** A push is refused exactly when the store it saw is capacity - 1 pushes old, and that
      refusal is honest exactly when the store it saw is the newest one. */
  lemma PushRefusalExact(s: State, pos: nat)
    requires Inv(s) && Enabled(s, PushLoad(pos))
    ensures Observe(s, PushLoad(pos)) == PushFull <==> |s.pushed| - pos == s.cap - 1
    ensures Observe(s, PushLoad(pos)) == PushFull ==>
              (|Contents(s)| == s.cap - 1 <==> pos == |s.rd| - 1)
  {
    var n := |s.pushed|;
    if n + 1 == pos + s.cap {
      WrapTurn(pos, s.cap);
    } else {
      WrapInjective(pos, n + 1, s.cap);
    }
  }

  lemma PopRefusalExact(s: State, pos: nat)
    requires Inv(s) && Enabled(s, PopLoad(pos))
    ensures Observe(s, PopLoad(pos)) == PopEmpty <==> pos == |s.popped|
    ensures Observe(s, PopLoad(pos)) == PopEmpty ==>
              (Contents(s) == [] <==> pos == |s.wr| - 1)
  {
    WrapInjective(|s.popped|, pos, s.cap);
  }

  lemma {:induction false} RunExtends(s: State, run: seq<Event>, e: Event)
    requires Legal(s, run) && Enabled(Exec(s, run), e)
    ensures Legal(s, run + [e]) && Exec(s, run + [e]) == Step(Exec(s, run), e)
    decreases |run|
  {
    if run == [] {
      assert run + [e] == [e] && [e][1..] == [];
    } else {
      assert (run + [e])[0] == run[0] && (run + [e])[1..] == run[1..] + [e];
      RunExtends(Step(s, run[0]), run[1..], e);
    }
  }

  /** One item goes through a push into a fresh buffer of two slots. */
  lemma FirstPush(variant: Variant) returns (run: seq<Event>, s: State)
    ensures Legal(Init(2, variant), run) && s == Exec(Init(2, variant), run)
    ensures s == Init(2, variant).(
                   wr := [Store(0, 0), Store(1, 1)], pushed := [7],
                   slots := [Slot(7, 1, 0), Slot(0, 0, 0)], prod := Thread(1, 0, 0, 0))
  {
    var s0 := Init(2, variant);
    run := [];
    RunExtends(s0, run, PushStart(7));
    run := run + [PushStart(7)];
    if variant.Plain? {
      RunExtends(s0, run, PushLoad(0));
      run := run + [PushLoad(0)];
    }
    RunExtends(s0, run, PushWrite);
    run := run + [PushWrite];
    RunExtends(s0, run, PushPublish);
    run := run + [PushPublish];
    s := Exec(s0, run);
    assert s.slots == [Slot(7, 1, 0), Slot(0, 0, 0)];
    assert s.wr == [Store(0, 0), Store(1, 1)];
  }

  /** Early refusals do happen, in either variant: a pop is refused on a queue that holds an item
      when its load misses the push. */
  lemma PopRefusedEarly(variant: Variant) returns (run: seq<Event>, s: State)
    ensures Legal(Init(2, variant), run) && s == Exec(Init(2, variant), run)
    ensures Enabled(s, PopLoad(0)) && Observe(s, PopLoad(0)) == PopEmpty
    ensures s.pushed == [7] && s.popped == []
  {
    run, s := FirstPush(variant);
    RunExtends(Init(2, variant), run, PopStart);
    run, s := run + [PopStart], Step(s, PopStart);
  }

  /** And a push is refused on an empty queue when its load misses the pop that emptied it. */
  lemma PushRefusedEarly(variant: Variant) returns (run: seq<Event>, s: State)
    ensures Legal(Init(2, variant), run) && s == Exec(Init(2, variant), run)
    ensures Enabled(s, PushLoad(0)) && Observe(s, PushLoad(0)) == PushFull
    ensures s.pushed == s.popped == [7]
  {
    run, s := FirstPush(variant);
    var s0 := Init(2, variant);
    RunExtends(s0, run, PopStart);
    run := run + [PopStart];
    RunExtends(s0, run, PopLoad(1));
    run := run + [PopLoad(1)];
    RunExtends(s0, run, PopRead);
    run := run + [PopRead];
    RunExtends(s0, run, PopPublish);
    run := run + [PopPublish];
    RunExtends(s0, run, PushStart(8));
    run := run + [PushStart(8)];
    s := Exec(s0, run);
  }

  function ProducerStep(s: State): Event {
    match s.ppc
    case PIdle => PushStart(0)
    case PLoadOther(_, _, _) => PushLoad(if |s.rd| == 0 then 0 else |s.rd| - 1)
    case PWrite(_, _, _) => PushWrite
    case PPublish(_, _, _) => PushPublish
  }

  function ConsumerStep(s: State): Event {
    match s.cpc
    case CIdle => PopStart
    case CLoadOther(_) => PopLoad(if |s.wr| == 0 then 0 else |s.wr| - 1)
    case CRead(_) => PopRead
    case CPublish(_, _) => PopPublish
  }

  /** Neither thread ever waits for the other: in every reachable state both have a step to
      take, and no access ever leaves the buffer. */
  lemma NoThreadBlocks(cap: nat, variant: Variant, run: seq<Event>)
    requires cap > 0 && Legal(Init(cap, variant), run)
    ensures var s := Exec(Init(cap, variant), run);
            Enabled(s, ProducerStep(s)) && Enabled(s, ConsumerStep(s))
  {
    InitInv(cap, variant);
    RunKeepsInv(Init(cap, variant), run);
    var s := Exec(Init(cap, variant), run);
    WrapBound(|s.pushed|, s.cap);
    WrapBound(|s.popped|, s.cap);
  }

  /** Steps a push, or a pop, still needs at most. */
  function PushRank(pc: ProducerPc): nat {
    match pc
    case PIdle => 0
    case PPublish(_, _, _) => 1
    case PWrite(_, _, _) => 2
    case PLoadOther(_, _, _) => 3
  }

  function PopRank(pc: ConsumerPc): nat {
    match pc
    case CIdle => 0
    case CPublish(_, _) => 1
    case CRead(_) => 2
    case CLoadOther(_) => 3
  }

  predicate ByProducer(e: Event) {
    e.PushStart? || e.PushLoad? || e.PushWrite? || e.PushPublish?
  }

  function ProducerSteps(run: seq<Event>): nat {
    if run == [] then 0 else (if ByProducer(run[0]) then 1 else 0) + ProducerSteps(run[1..])
  }

  function ConsumerSteps(run: seq<Event>): nat {
    if run == [] then 0 else (if ByProducer(run[0]) then 0 else 1) + ConsumerSteps(run[1..])
  }

  /** Whatever the other thread does in between, a push under way returns within its rank of steps
      of its own, and so any push within four. */
  lemma {:induction false} PushReturns(s: State, run: seq<Event>) returns (k: nat)
    requires Legal(s, run) && ProducerSteps(run) >= PushRank(s.ppc)
    ensures k <= |run| && Legal(s, run[..k]) && Exec(s, run[..k]).ppc.PIdle?
    ensures ProducerSteps(run[..k]) <= PushRank(s.ppc)
    decreases |run|
  {
    k := 0;
    if !s.ppc.PIdle? {
      var rest := PushReturns(Step(s, run[0]), run[1..]);
      k := rest + 1;
      assert run[..k][0] == run[0] && run[..k][1..] == run[1..][..rest];
    }
  }

  lemma {:induction false} PopReturns(s: State, run: seq<Event>) returns (k: nat)
    requires Legal(s, run) && ConsumerSteps(run) >= PopRank(s.cpc)
    ensures k <= |run| && Legal(s, run[..k]) && Exec(s, run[..k]).cpc.CIdle?
    ensures ConsumerSteps(run[..k]) <= PopRank(s.cpc)
    decreases |run|
  {
    k := 0;
    if !s.cpc.CIdle? {
      var rest := PopReturns(Step(s, run[0]), run[1..]);
      k := rest + 1;
      assert run[..k][0] == run[0] && run[..k][1..] == run[1..][..rest];
    }
  }

  /** With room in the queue and a fresh load, a push of its own four steps goes through. */
  lemma PushSucceeds(s: State, v: int) returns (run: seq<Event>)
    requires Inv(s) && s.ppc.PIdle? && |Contents(s)| < s.cap - 1
    ensures Legal(s, run) && |run| <= 4 && Exec(s, run).ppc.PIdle?
    ensures Exec(s, run).pushed == s.pushed + [v] && Exec(s, run).popped == s.popped
  {
    run := PushAdmitted(s, v);
    RunExtends(s, run, PushWrite);
    run := run + [PushWrite];
    RunExtends(s, run, PushPublish);
    run := run + [PushPublish];
  }

  lemma PushAdmitted(s: State, v: int) returns (run: seq<Event>)
    requires Inv(s) && s.ppc.PIdle? && |Contents(s)| < s.cap - 1
    ensures Legal(s, run) && |run| <= 2 && Enabled(Exec(s, run), PushWrite)
    ensures Exec(s, run).ppc.val == v && Exec(s, run).pushed == s.pushed && Exec(s, run).popped == s.popped
  {
    StepKeepsInv(s, PushStart(v));
    var s1 := Step(s, PushStart(v));
    RunExtends(s, [], PushStart(v));
    run := [] + [PushStart(v)];
    if s1.ppc.PLoadOther? {
      PushLoadAdmits(s1);
      RunExtends(s, run, PushLoad(|s1.rd| - 1));
      run := run + [PushLoad(|s1.rd| - 1)];
    } else {
      PushSlotExists(s1);
    }
  }

  lemma PushSlotExists(s: State)
    requires Inv(s) && s.ppc.PWrite?
    ensures Enabled(s, PushWrite)
  {
    WrapBound(|s.pushed|, s.cap);
  }

  lemma PushLoadAdmits(s: State)
    requires Inv(s) && s.ppc.PLoadOther? && |Contents(s)| < s.cap - 1
    ensures Enabled(s, PushLoad(|s.rd| - 1)) && Enabled(Step(s, PushLoad(|s.rd| - 1)), PushWrite)
  {
    PushRefusalExact(s, |s.rd| - 1);
    StepKeepsInv(s, PushLoad(|s.rd| - 1));
    PushSlotExists(Step(s, PushLoad(|s.rd| - 1)));
  }

  /** And a pop of a queue that is not empty yields its oldest item. */
  lemma PopSucceeds(s: State) returns (run: seq<Event>)
    requires Inv(s) && s.cpc.CIdle? && Contents(s) != []
    ensures Legal(s, run) && |run| <= 4 && Exec(s, run).cpc.CIdle?
    ensures Exec(s, run).popped == s.popped + [Contents(s)[0]] && Exec(s, run).pushed == s.pushed
  {
    run := PopAdmitted(s);
    RunExtends(s, run, PopRead);
    run := run + [PopRead];
    RunExtends(s, run, PopPublish);
    var whole := run + [PopPublish];
    RunKeepsInv(s, whole);
    run := whole;
  }

  lemma PopAdmitted(s: State) returns (run: seq<Event>)
    requires Inv(s) && s.cpc.CIdle? && Contents(s) != []
    ensures Legal(s, run) && |run| <= 2 && Enabled(Exec(s, run), PopRead)
    ensures Exec(s, run).pushed == s.pushed && Exec(s, run).popped == s.popped
  {
    StepKeepsInv(s, PopStart);
    var s1 := Step(s, PopStart);
    RunExtends(s, [], PopStart);
    run := [] + [PopStart];
    if s1.cpc.CLoadOther? {
      PopLoadAdmits(s1);
      RunExtends(s, run, PopLoad(|s1.wr| - 1));
      run := run + [PopLoad(|s1.wr| - 1)];
    } else {
      PopSlotExists(s1);
    }
  }

  lemma PopSlotExists(s: State)
    requires Inv(s) && s.cpc.CRead?
    ensures Enabled(s, PopRead)
  {
    WrapBound(|s.popped|, s.cap);
  }

  lemma PopLoadAdmits(s: State)
    requires Inv(s) && s.cpc.CLoadOther? && Contents(s) != []
    ensures Enabled(s, PopLoad(|s.wr| - 1)) && Enabled(Step(s, PopLoad(|s.wr| - 1)), PopRead)
  {
    PopRefusalExact(s, |s.wr| - 1);
    StepKeepsInv(s, PopLoad(|s.wr| - 1));
    PopSlotExists(Step(s, PopLoad(|s.wr| - 1)));
  }

  lemma {:induction false} OnlyPops(s: State, run: seq<Event>)
    requires Legal(s, run) && PushPublish !in run
    ensures Exec(s, run).pushed == s.pushed && Exec(s, run).cap == s.cap
    ensures |Exec(s, run).popped| >= |s.popped| + if PopPublish in run then 1 else 0
    decreases |run|
  {
    if run != [] {
      OnlyPops(Step(s, run[0]), run[1..]);
    }
  }

  /** One completed pop makes room: a push refused by a full queue is then accepted. */
  lemma PopMakesRoom(s: State, run: seq<Event>)
    requires Inv(s) && Legal(s, run) && PopPublish in run && PushPublish !in run
    ensures Inv(Exec(s, run)) && |Contents(Exec(s, run))| < Exec(s, run).cap - 1
  {
    RunKeepsInv(s, run);
    OnlyPops(s, run);
  }

  // ---------------------------------------------------------------------------------------
  // The benchmark protocol

  /** The producer of `bench` retries one value until it is accepted, then takes the next:
      every push attempt carries the number of pushes accepted so far. */
  predicate CountingProducer(s: State, run: seq<Event>)
    requires Legal(s, run)
    decreases |run|
  {
    run == [] ||
    ((run[0].PushStart? ==> run[0].val == |s.pushed|) &&
     CountingProducer(Step(s, run[0]), run[1..]))
  }

  predicate CountingInv(s: State) {
    && (forall i | 0 <= i < |s.pushed| :: s.pushed[i] == i)
    && (!s.ppc.PIdle? ==> s.ppc.val == |s.pushed|)
  }

  lemma {:induction false} CountingRun(s: State, run: seq<Event>)
    requires Legal(s, run) && CountingProducer(s, run) && CountingInv(s)
    ensures CountingInv(Exec(s, run))
    decreases |run|
  {
    if run != [] {
      CountingRun(Step(s, run[0]), run[1..]);
    }
  }

  /** The consumer's check `val != i` of `bench` never fires, and when the producer's final
      spin sees the two indices equal, everything it pushed has been consumed. */
  lemma BenchIsCorrect(cap: nat, variant: Variant, run: seq<Event>, pos: nat)
    requires cap > 0 && Legal(Init(cap, variant), run)
    requires CountingProducer(Init(cap, variant), run)
    ensures var s := Exec(Init(cap, variant), run);
            && (forall i | 0 <= i < |s.popped| :: s.popped[i] == i)
            && |s.wr| > 0
            && (s.prod.seen <= pos < |s.rd| && s.rd[pos].idx == s.wr[|s.wr| - 1].idx ==>
                  s.popped == s.pushed)
  {
    var s0 := Init(cap, variant);
    var s := Exec(s0, run);
    InitInv(cap, variant);
    RunKeepsInv(s0, run);
    CountingRun(s0, run);
    forall i | 0 <= i < |s.popped| ensures s.popped[i] == i {
      assert s.popped[i] == s.pushed[i];
    }
    if s.prod.seen <= pos < |s.rd| {
      WrapInjective(pos, |s.pushed|, s.cap);
    }
  }
}
