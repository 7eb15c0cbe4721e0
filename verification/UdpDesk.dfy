/** What the users of a UDP endpoint see: who owns which chunk, and what each event answers.
    This is the reference the endpoint is measured against; it knows no addresses. */
module UdpDesk {
  import opened Memory
  import opened PoolModel
  import PoolRuns

  /** One chunk that is out of the pool. */
  datatype Slot =
    | Receiving
    | Sending(payload: seq<byte>, to: int)
    | Caller(contents: seq<byte>)
    | Stranded

  /** `total` chunks of `size` usable bytes; a receive is started for at most `window` bytes.
      `remote` is the one endpoint variable: receives overwrite it, sends go to it. */
  datatype Desk = Desk(total: nat, size: nat, window: nat, remote: int, slots: seq<Slot>)

  /** Completions of the two asynchronous operations, an outstanding receive writing the endpoint
      variable, and what the application does. */
  datatype Event =
    | Arrive(datagram: seq<byte>, remote: int)
    | ArriveFailed(remote: int)
    | Overwrite(remote: int)
    | SendDone(k: nat)
    | SendFailed(k: nat)
    | Take
    | Fill(k: nat, offset: nat, data: seq<byte>)
    | Release(k: nat)
    | Send(k: nat, length: nat)

  datatype Answer =
    | Delivered(datagram: seq<byte>)
    | Sent(payload: seq<byte>, to: int)
    | Failed
    | Granted(contents: seq<byte>)
    | Thrown
    | Done
    | Ignored

  /** The chunk of the outstanding receive, or the number of slots. */
  function Where(slots: seq<Slot>): (r: nat)
    ensures r <= |slots| && (r < |slots| ==> slots[r] == Receiving)
    ensures forall i | 0 <= i < r :: slots[i] != Receiving
  {
    if slots == [] then 0 else if slots[0] == Receiving then 0 else 1 + Where(slots[1..])
  }

  predicate OwnedByCaller(slots: seq<Slot>, k: nat) {
    k < |slots| && slots[k].Caller?
  }

  predicate InFlight(slots: seq<Slot>, k: nat) {
    k < |slots| && slots[k].Sending?
  }

  /** Whether the event can happen here; the rest is ignored. */
  predicate Possible(d: Desk, e: Event) {
    match e
    case Arrive(data, _) => Where(d.slots) < |d.slots| && |data| <= d.window
    case ArriveFailed(_) => Where(d.slots) < |d.slots|
    case Overwrite(_) => Where(d.slots) < |d.slots|
    case SendDone(k) => InFlight(d.slots, k)
    case SendFailed(k) => InFlight(d.slots, k)
    case Take => true
    case Fill(k, offset, data) => OwnedByCaller(d.slots, k) && offset + |data| <= d.size
    case Release(k) => OwnedByCaller(d.slots, k)
    case Send(k, length) => OwnedByCaller(d.slots, k) && length <= |d.slots[k].contents|
  }

  predicate Allowed(d: Desk, e: Event, a: Answer) {
    if !Possible(d, e) then a == Ignored
    else
      match e
      case Arrive(data, _) => a == Delivered(data)
      case ArriveFailed(_) => a == Failed
      case SendDone(k) => a == Sent(d.slots[k].payload, d.slots[k].to)
      case SendFailed(k) => a == Failed
      case Take => if |d.slots| < d.total then a.Granted? && |a.contents| == d.size else a == Thrown
      case _ => a == Done
  }

  function Slots(slots: seq<Slot>, remote: int, e: Event, a: Answer): seq<Slot> {
    match e
    case Arrive(_, _) =>
      if Where(slots) < |slots| then Without(slots, Where(slots)) + [Receiving] else slots
    case Overwrite(_) => slots
    case ArriveFailed(_) => if Where(slots) < |slots| then slots[Where(slots) := Stranded] else slots
    case SendDone(k) => if InFlight(slots, k) then Without(slots, k) else slots
    case SendFailed(k) => if InFlight(slots, k) then slots[k := Stranded] else slots
    case Take => if a.Granted? then slots + [Caller(a.contents)] else slots
    case Fill(k, offset, data) =>
      if OwnedByCaller(slots, k)
      then slots[k := Caller(PoolRuns.Patched(slots[k].contents, offset, data))] else slots
    case Release(k) => if OwnedByCaller(slots, k) then Without(slots, k) else slots
    case Send(k, length) =>
      if OwnedByCaller(slots, k) && length <= |slots[k].contents|
      then slots[k := Sending(slots[k].contents[..length], remote)] else slots
  }

  function After(d: Desk, e: Event, a: Answer): Desk {
    if !Possible(d, e) then d
    else
      d.(slots := Slots(d.slots, d.remote, e, a),
         remote := if e.Arrive? || e.ArriveFailed? || e.Overwrite? then e.remote else d.remote)
  }

  predicate Explains(d: Desk, events: seq<Event>, answers: seq<Answer>)
    decreases |events|
  {
    if events == [] then answers == []
    else
      && answers != []
      && Allowed(d, events[0], answers[0])
      && Explains(After(d, events[0], answers[0]), events[1..], answers[1..])
  }

  function AfterAll(d: Desk, events: seq<Event>, answers: seq<Answer>): Desk
    decreases |events|
  {
    if events == [] || answers == [] then d
    else AfterAll(After(d, events[0], answers[0]), events[1..], answers[1..])
  }

  // ---------------------------------------------------------------------------------------
  // Laws of every run

  function Bit(b: bool): nat {
    if b then 1 else 0
  }

  /** How many slots are in that state. */
  function Count(slots: seq<Slot>, s: Slot): nat {
    if slots == [] then 0 else Bit(slots[0] == s) + Count(slots[1..], s)
  }

  lemma {:induction false} CountConcat(a: seq<Slot>, b: seq<Slot>, s: Slot)
    ensures Count(a + b, s) == Count(a, s) + Count(b, s)
  {
    if a == [] {
      assert a + b == b;
    } else {
      assert (a + b)[0] == a[0] && (a + b)[1..] == a[1..] + b;
      CountConcat(a[1..], b, s);
    }
  }

  lemma CountWithout(slots: seq<Slot>, k: nat, s: Slot)
    requires k < |slots|
    ensures Count(slots, s) == Count(Without(slots, k), s) + Bit(slots[k] == s)
  {
    var before, here, after := slots[..k], [slots[k]], slots[k + 1..];
    assert slots == before + (here + after);
    CountConcat(before, here + after, s);
    CountConcat(here, after, s);
    CountConcat(before, after, s);
    assert Count(here, s) == Bit(slots[k] == s);
  }

  lemma CountReplaced(slots: seq<Slot>, k: nat, x: Slot, s: Slot)
    requires k < |slots|
    ensures Count(slots[k := x], s) + Bit(slots[k] == s) == Count(slots, s) + Bit(x == s)
  {
    CountWithout(slots, k, s);
    CountWithout(slots[k := x], k, s);
    assert Without(slots[k := x], k) == Without(slots, k);
  }

  /** Whether this step hands the datagram p for that endpoint to the socket, or loses it to an
      error. */
  predicate Asks(d: Desk, e: Event, p: seq<byte>, to: int) {
    e.Send? && Possible(d, e) && d.slots[e.k].contents[..e.length] == p && d.remote == to
  }

  predicate Loses(d: Desk, e: Event, p: seq<byte>, to: int) {
    e.SendFailed? && Possible(d, e) && d.slots[e.k] == Sending(p, to)
  }

  /** The slot a possible event takes away, and the one it puts there. */
  function Leaving(d: Desk, e: Event): seq<Slot>
    requires Possible(d, e)
  {
    match e
    case Arrive(_, _) => [Receiving]
    case ArriveFailed(_) => [Receiving]
    case Overwrite(_) => []
    case Take => []
    case _ => [d.slots[e.k]]
  }

  function Entering(d: Desk, e: Event, a: Answer): seq<Slot>
    requires Possible(d, e)
  {
    match e
    case Arrive(_, _) => [Receiving]
    case ArriveFailed(_) => [Stranded]
    case Overwrite(_) => []
    case SendFailed(_) => [Stranded]
    case SendDone(_) => []
    case Release(_) => []
    case Take => if a.Granted? then [Caller(a.contents)] else []
    case _ => [Slots(d.slots, d.remote, e, a)[e.k]]
  }

  lemma StepCount(d: Desk, e: Event, a: Answer, s: Slot)
    requires Possible(d, e)
    ensures Count(After(d, e, a).slots, s) + Count(Leaving(d, e), s) == Count(d.slots, s) + Count(Entering(d, e, a), s)
  {
    var slots := d.slots;
    var r := Where(slots);
    match e {
      case Overwrite(_) =>
      case Arrive(_, _) =>
        CountWithout(slots, r, s);
        CountConcat(Without(slots, r), [Receiving], s);
      case ArriveFailed(_) => CountReplaced(slots, r, Stranded, s);
      case SendDone(k) => CountWithout(slots, k, s);
      case SendFailed(k) => CountReplaced(slots, k, Stranded, s);
      case Take => CountConcat(slots, Entering(d, e, a), s);
      case Release(k) => CountWithout(slots, k, s);
      case _ => CountReplaced(slots, e.k, Slots(slots, d.remote, e, a)[e.k], s);
    }
  }

  lemma StepBalance(d: Desk, e: Event, a: Answer, p: seq<byte>, to: int)
    requires Allowed(d, e, a)
    ensures Count(After(d, e, a).slots, Sending(p, to)) + Bit(a == Sent(p, to)) + Bit(Loses(d, e, p, to))
         == Count(d.slots, Sending(p, to)) + Bit(Asks(d, e, p, to))
  {
    if Possible(d, e) {
      StepCount(d, e, a, Sending(p, to));
    }
  }

  predicate ReceiveFails(e: Event, a: Answer) {
    e.ArriveFailed? && a == Failed
  }

  lemma StepChunks(d: Desk, e: Event, a: Answer)
    requires Allowed(d, e, a)
    ensures Count(After(d, e, a).slots, Stranded) == Count(d.slots, Stranded) + Bit(a == Failed)
    ensures Count(After(d, e, a).slots, Receiving) + Bit(ReceiveFails(e, a)) == Count(d.slots, Receiving)
    ensures |d.slots| <= d.total ==> |After(d, e, a).slots| <= d.total
  {
    if Possible(d, e) {
      StepCount(d, e, a, Stranded);
      StepCount(d, e, a, Receiving);
    }
  }

  function AllAsked(d: Desk, events: seq<Event>, answers: seq<Answer>, p: seq<byte>, to: int): nat
    decreases |events|
  {
    if events == [] || answers == [] then 0
    else Bit(Asks(d, events[0], p, to)) + AllAsked(After(d, events[0], answers[0]), events[1..], answers[1..], p, to)
  }

  function AllLost(d: Desk, events: seq<Event>, answers: seq<Answer>, p: seq<byte>, to: int): nat
    decreases |events|
  {
    if events == [] || answers == [] then 0
    else Bit(Loses(d, events[0], p, to)) + AllLost(After(d, events[0], answers[0]), events[1..], answers[1..], p, to)
  }

  function Answers(answers: seq<Answer>, a: Answer): nat {
    if answers == [] then 0 else Bit(answers[0] == a) + Answers(answers[1..], a)
  }

  /** Over every run, for every datagram p and endpoint: as often as p was handed to the socket
      while the variable named that endpoint, it was sent there with just the bytes it had then,
      or lost to an error, or is still in flight. */
  lemma {:induction false} EveryDatagramAccounted(d: Desk, events: seq<Event>, answers: seq<Answer>,
                                                  p: seq<byte>, to: int)
    requires Explains(d, events, answers)
    ensures var end := AfterAll(d, events, answers).slots;
            Count(end, Sending(p, to)) + Answers(answers, Sent(p, to)) + AllLost(d, events, answers, p, to)
              == Count(d.slots, Sending(p, to)) + AllAsked(d, events, answers, p, to)
    decreases |events|
  {
    if events != [] {
      StepBalance(d, events[0], answers[0], p, to);
      EveryDatagramAccounted(After(d, events[0], answers[0]), events[1..], answers[1..], p, to);
    }
  }

  function ReceiveFailures(events: seq<Event>, answers: seq<Answer>): nat
    decreases |events|
  {
    if events == [] || answers == [] then 0
    else Bit(ReceiveFails(events[0], answers[0])) + ReceiveFailures(events[1..], answers[1..])
  }

  /** Over every run: exactly one chunk is stranded per failed operation, the pool is never
      overdrawn, no second receive is ever started, and the one receive is restarted after every
      success and lost for good with its first failure. */
  lemma {:induction false} EveryChunkAccounted(d: Desk, events: seq<Event>, answers: seq<Answer>)
    requires Explains(d, events, answers) && |d.slots| <= d.total
    ensures var end := AfterAll(d, events, answers).slots;
            && Count(end, Stranded) == Count(d.slots, Stranded) + Answers(answers, Failed)
            && Count(end, Receiving) + ReceiveFailures(events, answers) == Count(d.slots, Receiving)
            && |end| <= d.total
    decreases |events|
  {
    if events != [] {
      StepChunks(d, events[0], answers[0]);
      EveryChunkAccounted(After(d, events[0], answers[0]), events[1..], answers[1..]);
    }
  }

  /** There is a receive to complete exactly while the count of receives is not zero. */
  lemma {:induction false} WhereCounts(slots: seq<Slot>)
    ensures Where(slots) < |slots| <==> Count(slots, Receiving) > 0
  {
    if slots != [] {
      WhereCounts(slots[1..]);
    }
  }

  /** The desk a run starts from: chunks that were out before, and the first receive. */
  function Opened(bufs: seq<seq<byte>>): (slots: seq<Slot>)
    ensures |slots| == |bufs| + 1
  {
    Callers(bufs) + [Receiving]
  }

  function Callers(bufs: seq<seq<byte>>): (slots: seq<Slot>)
    ensures |slots| == |bufs|
    ensures forall i | 0 <= i < |bufs| :: slots[i] == Caller(bufs[i])
  {
    if bufs == [] then [] else [Caller(bufs[0])] + Callers(bufs[1..])
  }

  lemma {:induction false} CallersCount(bufs: seq<seq<byte>>, s: Slot)
    requires !s.Caller?
    ensures Count(Callers(bufs), s) == 0
  {
    if bufs != [] {
      assert Callers(bufs)[1..] == Callers(bufs[1..]);
      CallersCount(bufs[1..], s);
    }
  }

  lemma OpenedCount(bufs: seq<seq<byte>>, s: Slot)
    requires !s.Caller?
    ensures Count(Opened(bufs), s) == Bit(s == Receiving)
  {
    CallersCount(bufs, s);
    CountConcat(Callers(bufs), [Receiving], s);
  }

  /** Everything an endpoint's life promises, from its first receive on. */
  lemma LifeConserves(d: Desk, bufs: seq<seq<byte>>, events: seq<Event>, answers: seq<Answer>)
    requires d.slots == Opened(bufs) && |d.slots| <= d.total && Explains(d, events, answers)
    ensures var end := AfterAll(d, events, answers).slots;
            && |end| <= d.total
            && Count(end, Receiving) <= 1
            && (Where(end) < |end| <==> ReceiveFailures(events, answers) == 0)
            && Count(end, Stranded) == Answers(answers, Failed)
  {
    OpenedCount(bufs, Receiving);
    OpenedCount(bufs, Stranded);
    EveryChunkAccounted(d, events, answers);
    WhereCounts(AfterAll(d, events, answers).slots);
  }
}
