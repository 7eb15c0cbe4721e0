/** The ring buffers seen by their callers: every call gets one answer, the answer says what
    happened to the item it brought, and the scheduler may do all that is claimed of it. */
module SpscCalls {
  import opened BoundedFifo
  import opened RingIndex
  import opened SpscProtocol

  predicate PushAnswer(a: Action) {
    a.PushOk? || a.PushFull?
  }

  predicate PopAnswer(a: Action) {
    a.PopOk? || a.PopEmpty?
  }

  /** A push is over exactly when it has answered, and only its own thread moves it. */
  lemma PushEndsWithAnswer(s: State, e: Event)
    requires Enabled(s, e)
    ensures ByProducer(e) ==> (Step(s, e).ppc.PIdle? <==> PushAnswer(Observe(s, e)))
    ensures !ByProducer(e) ==> Step(s, e).ppc == s.ppc && !PushAnswer(Observe(s, e))
  {
  }

  lemma PopEndsWithAnswer(s: State, e: Event)
    requires Enabled(s, e)
    ensures !ByProducer(e) ==> (Step(s, e).cpc.CIdle? <==> PopAnswer(Observe(s, e)))
    ensures ByProducer(e) ==> Step(s, e).cpc == s.cpc && !PopAnswer(Observe(s, e))
  {
  }

  // ---------------------------------------------------------------------------------------
  // Whole runs

  /** The items pushes were called with, in order. */
  function Requests(run: seq<Event>): seq<int> {
    if run == [] then [] else (if run[0].PushStart? then [run[0].val] else []) + Requests(run[1..])
  }

  /** The answers to pushes, in order: accepted or refused. */
  function Verdicts(trace: seq<Action>): seq<bool> {
    if trace == [] then []
    else (if PushAnswer(trace[0]) then [trace[0].PushOk?] else []) + Verdicts(trace[1..])
  }

  /** The items whose verdict is true. */
  function Chosen(items: seq<int>, verdicts: seq<bool>): seq<int>
    requires |verdicts| <= |items|
  {
    if verdicts == [] then []
    else (if verdicts[0] then [items[0]] else []) + Chosen(items[1..], verdicts[1..])
  }

  /** The item of a push under way. */
  function Pending(s: State): seq<int> {
    if s.ppc.PIdle? then [] else [s.ppc.val]
  }

  lemma PushStepTells(s: State, e: Event)
    requires Enabled(s, e)
    ensures var s', a := Step(s, e), Observe(s, e);
            if PushAnswer(a)
            then !e.PushStart? && Pending(s') == [] && |Pending(s)| == 1
                 && s'.pushed == s.pushed + if a.PushOk? then Pending(s) else []
            else s'.pushed == s.pushed && Pending(s') == Pending(s) + Requests([e])
  {
    assert [e][1..] == [];
  }

  lemma ChosenStep(x: int, ok: bool, items: seq<int>, verdicts: seq<bool>)
    requires |verdicts| <= |items|
    ensures Chosen([x] + items, [ok] + verdicts) == (if ok then [x] else []) + Chosen(items, verdicts)
    ensures ([x] + items)[|verdicts| + 1..] == items[|verdicts|..]
  {
    assert ([x] + items)[1..] == items && ([ok] + verdicts)[1..] == verdicts;
  }

  lemma RequestsStep(run: seq<Event>)
    requires run != []
    ensures Requests(run) == Requests([run[0]]) + Requests(run[1..])
  {
    assert [run[0]][1..] == [];
  }

  /** What the answers say of the items asked for: which went in, and which is under way. */
  predicate Told(before: seq<int>, after: seq<int>, pending: seq<int>, items: seq<int>, verdicts: seq<bool>) {
    && |verdicts| <= |items| && pending == items[|verdicts|..]
    && after == before + Chosen(items, verdicts)
  }

  lemma ToldAnswer(before: seq<int>, after: seq<int>, pending: seq<int>, x: int, ok: bool,
                   items: seq<int>, verdicts: seq<bool>)
    requires Told(before + (if ok then [x] else []), after, pending, items, verdicts)
    ensures Told(before, after, pending, [x] + items, [ok] + verdicts)
  {
    ChosenStep(x, ok, items, verdicts);
    Regroup(before, if ok then [x] else [], Chosen(items, verdicts));
  }

  lemma Regroup(a: seq<int>, b: seq<int>, c: seq<int>)
    ensures (a + b) + c == a + (b + c)
  {
  }

  lemma Heads(p: seq<int>, q: seq<int>, more: seq<int>, verdicts: seq<bool>)
    ensures [] + verdicts == verdicts && [] + more == more
    ensures p + ([] + more) == p + more && p + (q + more) == (p + q) + more
  {
  }

  lemma {:induction false} PushesAnsweredFrom(s: State, run: seq<Event>)
    requires Legal(s, run)
    ensures var s' := Exec(s, run);
            Told(s.pushed, s'.pushed, Pending(s'), Pending(s) + Requests(run), Verdicts(Trace(s, run)))
    decreases |run|
  {
    if run != [] {
      var e, s1 := run[0], Step(s, run[0]);
      PushesAnsweredFrom(s1, run[1..]);
      PushesAnsweredStep(s, e, Exec(s, run), Requests(run[1..]), Verdicts(Trace(s1, run[1..])));
      RequestsStep(run);
      VerdictsStep(Observe(s, e), Trace(s1, run[1..]));
    }
  }

  lemma VerdictsStep(a: Action, trace: seq<Action>)
    ensures Verdicts([a] + trace) == (if PushAnswer(a) then [a.PushOk?] else []) + Verdicts(trace)
  {
    assert ([a] + trace)[1..] == trace;
  }

  lemma PushesAnsweredStep(s: State, e: Event, s': State, more: seq<int>, verdicts: seq<bool>)
    requires Enabled(s, e)
    requires Told(Step(s, e).pushed, s'.pushed, Pending(s'), Pending(Step(s, e)) + more, verdicts)
    ensures var a := Observe(s, e);
            Told(s.pushed, s'.pushed, Pending(s'), Pending(s) + (Requests([e]) + more),
                 (if PushAnswer(a) then [a.PushOk?] else []) + verdicts)
  {
    PushStepTells(s, e);
    Heads(Pending(s), Requests([e]), more, verdicts);
    var a := Observe(s, e);
    if PushAnswer(a) {
      assert Requests([e]) == [];
      ToldAnswer(s.pushed, s'.pushed, Pending(s'), Pending(s)[0], a.PushOk?, more, verdicts);
      assert Pending(s) == [Pending(s)[0]];
    }
  }

  /** Over every run: each push called is answered once, in order, but for one that is still under
      way, and the queue has taken exactly the items of the pushes that were told so. */
  lemma PushesAnswered(cap: nat, variant: Variant, run: seq<Event>)
    requires cap > 0 && Legal(Init(cap, variant), run)
    ensures var items, verdicts := Requests(run), Verdicts(Trace(Init(cap, variant), run));
            var s := Exec(Init(cap, variant), run);
            && |items| == |verdicts| + (if s.ppc.PIdle? then 0 else 1)
            && s.pushed == Chosen(items, verdicts)
  {
    var s0 := Init(cap, variant);
    PushesAnsweredFrom(s0, run);
    assert Pending(s0) + Requests(run) == Requests(run);
    var chosen := Chosen(Requests(run), Verdicts(Trace(s0, run)));
    assert s0.pushed + chosen == chosen;
  }

  function PopCalls(run: seq<Event>): nat {
    if run == [] then 0 else (if run[0].PopStart? then 1 else 0) + PopCalls(run[1..])
  }

  function PopAnswers(trace: seq<Action>): nat {
    if trace == [] then 0 else (if PopAnswer(trace[0]) then 1 else 0) + PopAnswers(trace[1..])
  }

  function Busy(s: State): nat {
    if s.cpc.CIdle? then 0 else 1
  }

  lemma PopStepTells(s: State, e: Event)
    requires Enabled(s, e)
    ensures var s', a := Step(s, e), Observe(s, e);
            && (if e.PopStart? then 1 else 0) + Busy(s) == (if PopAnswer(a) then 1 else 0) + Busy(s')
            && s'.popped == s.popped + (if a.PopOk? then [a.popped] else [])
            && s'.pushed == s.pushed + (if a.PushOk? then [a.pushed] else [])
  {
  }

  lemma {:induction false} PopsAnsweredFrom(s: State, run: seq<Event>)
    requires Legal(s, run)
    ensures PopCalls(run) + Busy(s) == PopAnswers(Trace(s, run)) + Busy(Exec(s, run))
    ensures Exec(s, run).popped == s.popped + Pops(Trace(s, run))
    ensures Exec(s, run).pushed == s.pushed + Pushes(Trace(s, run))
    decreases |run|
  {
    if run != [] {
      var s1 := Step(s, run[0]);
      PopsAnsweredFrom(s1, run[1..]);
      PopStepTells(s, run[0]);
      var a, rest := Observe(s, run[0]), Trace(s1, run[1..]);
      TraceStep(a, rest);
      Regroup(s.popped, if a.PopOk? then [a.popped] else [], Pops(rest));
      Regroup(s.pushed, if a.PushOk? then [a.pushed] else [], Pushes(rest));
    }
  }

  lemma TraceStep(a: Action, trace: seq<Action>)
    ensures Pops([a] + trace) == (if a.PopOk? then [a.popped] else []) + Pops(trace)
    ensures Pushes([a] + trace) == (if a.PushOk? then [a.pushed] else []) + Pushes(trace)
    ensures PopAnswers([a] + trace) == (if PopAnswer(a) then 1 else 0) + PopAnswers(trace)
  {
    assert ([a] + trace)[1..] == trace;
  }

  /** Over every run: each pop called is answered once, but for one still under way, and what the
      queue has given away and taken is what its callers were told. */
  lemma PopsAnswered(cap: nat, variant: Variant, run: seq<Event>)
    requires cap > 0 && Legal(Init(cap, variant), run)
    ensures var trace, s := Trace(Init(cap, variant), run), Exec(Init(cap, variant), run);
            && PopCalls(run) == PopAnswers(trace) + Busy(s)
            && s.popped == Pops(trace) && s.pushed == Pushes(trace)
  {
    var s0 := Init(cap, variant);
    PopsAnsweredFrom(s0, run);
    assert s0.popped + Pops(Trace(s0, run)) == Pops(Trace(s0, run));
    assert s0.pushed + Pushes(Trace(s0, run)) == Pushes(Trace(s0, run));
  }

  // ---------------------------------------------------------------------------------------
  // What the scheduler may choose

  /** A call may start whenever none is under way; a load may see every store from the last one
      seen up to the newest, however stale; the other steps never wait. */
  lemma ProducerMay(s: State, v: int, pos: nat)
    requires Inv(s)
    ensures Enabled(s, PushStart(v)) <==> s.ppc.PIdle?
    ensures Enabled(s, PushLoad(pos)) <==> s.ppc.PLoadOther? && s.prod.seen <= pos <= |s.popped|
    ensures Enabled(s, PushWrite) <==> s.ppc.PWrite?
    ensures Enabled(s, PushPublish) <==> s.ppc.PPublish?
  {
    WrapBound(|s.pushed|, s.cap);
  }

  lemma ConsumerMay(s: State, pos: nat)
    requires Inv(s)
    ensures Enabled(s, PopStart) <==> s.cpc.CIdle?
    ensures Enabled(s, PopLoad(pos)) <==> s.cpc.CLoadOther? && s.cons.seen <= pos <= |s.pushed|
    ensures Enabled(s, PopRead) <==> s.cpc.CRead?
    ensures Enabled(s, PopPublish) <==> s.cpc.CPublish?
  {
    WrapBound(|s.popped|, s.cap);
  }

  /** `ringbuffer` loads the other index on every call, `ringbuffer2` exactly when its copy makes
      the buffer look full. */
  lemma PushLoadsWhenFull(s: State, v: int)
    requires Inv(s) && s.ppc.PIdle?
    ensures Step(s, PushStart(v)).ppc.PLoadOther?
       <==> s.variant.Plain? || |s.pushed| - s.prod.seen == s.cap - 1
  {
    var n := |s.pushed|;
    assert Wrap(n + 1, s.cap) == Next(Wrap(n, s.cap), s.cap);
    if n + 1 == s.prod.seen + s.cap {
      WrapTurn(s.prod.seen, s.cap);
    } else {
      WrapInjective(s.prod.seen, n + 1, s.cap);
    }
  }

  lemma PopLoadsWhenEmpty(s: State)
    requires Inv(s) && s.cpc.CIdle?
    ensures Step(s, PopStart).cpc.CLoadOther? <==> s.variant.Plain? || s.cons.seen == |s.popped|
  {
    WrapInjective(|s.popped|, s.cons.seen, s.cap);
  }

  /** A run is fresh as long as every load returns the newest store. */
  lemma {:induction false} FreshExact(s: State, run: seq<Event>, e: Event)
    requires Legal(s, run) && Enabled(Exec(s, run), e)
    ensures Legal(s, run + [e]) && Fresh(s, [])
    ensures var s' := Exec(s, run);
            Fresh(s, run + [e]) <==>
              && Fresh(s, run)
              && (e.PushLoad? ==> e.pos + 1 == |s'.rd|) && (e.PopLoad? ==> e.pos + 1 == |s'.wr|)
    decreases |run|
  {
    RunExtends(s, run, e);
    if run == [] {
      assert run + [e] == [e] && [e][1..] == [];
    } else {
      assert (run + [e])[0] == run[0] && (run + [e])[1..] == run[1..] + [e];
      FreshExact(Step(s, run[0]), run[1..], e);
    }
  }

  /** The producer of `bench` is free to do anything but to push another number than the next. */
  lemma {:induction false} CountingExact(s: State, run: seq<Event>, e: Event)
    requires Legal(s, run) && Enabled(Exec(s, run), e)
    ensures Legal(s, run + [e]) && CountingProducer(s, [])
    ensures CountingProducer(s, run + [e]) <==>
              CountingProducer(s, run) && (e.PushStart? ==> e.val == |Exec(s, run).pushed|)
    decreases |run|
  {
    RunExtends(s, run, e);
    if run == [] {
      assert run + [e] == [e] && [e][1..] == [];
    } else {
      assert (run + [e])[0] == run[0] && (run + [e])[1..] == run[1..] + [e];
      CountingExact(Step(s, run[0]), run[1..], e);
    }
  }
}
