/** What the desk of `UdpDesk` comes to: when each event is answered and how, what it does to whom,
    and that a datagram leaves as it was handed over. */
module UdpLaws {
  import opened Memory
  import opened PoolModel
  import opened UdpDesk

  lemma {:induction false} ExplainsPrefix(d: Desk, events: seq<Event>, answers: seq<Answer>, e: Event, a: Answer)
    requires |events| == |answers| && Explains(d, events + [e], answers + [a])
    ensures Explains(d, events, answers) && Allowed(AfterAll(d, events, answers), e, a)
    ensures AfterAll(d, events + [e], answers + [a]) == After(AfterAll(d, events, answers), e, a)
    ensures var d' := AfterAll(d, events, answers);
            d'.total == d.total && d'.size == d.size && d'.window == d.window
    decreases |events|
  {
    var events', answers' := events + [e], answers + [a];
    if events == [] {
      assert events'[1..] == [] && events'[0] == e && answers'[0] == a && answers'[1..] == [];
    } else {
      assert events'[0] == events[0] && answers'[0] == answers[0];
      assert events'[1..] == events[1..] + [e] && answers'[1..] == answers[1..] + [a];
      ExplainsPrefix(After(d, events[0], answers[0]), events[1..], answers[1..], e, a);
    }
  }

  // ---------------------------------------------------------------------------------------
  // When an event is answered

  /** Every datagram that fits is delivered, and every failure noticed, exactly as long as no
      receive has failed. */
  lemma ReceivesExact(d: Desk, events: seq<Event>, answers: seq<Answer>, e: Event, a: Answer)
    requires |events| == |answers| && Explains(d, events + [e], answers + [a]) && |d.slots| <= d.total
    ensures var armed := Count(d.slots, Receiving) > ReceiveFailures(events, answers);
            && (e.Arrive? ==> a == if armed && |e.datagram| <= d.window then Delivered(e.datagram) else Ignored)
            && (e.ArriveFailed? ==> a == if armed then Failed else Ignored)
            && (e.Overwrite? ==> a == if armed then Done else Ignored)
  {
    ExplainsPrefix(d, events, answers, e, a);
    EveryChunkAccounted(d, events, answers);
    WhereCounts(AfterAll(d, events, answers).slots);
  }

  /** Everything else depends on who owns the chunk, and on the pool. */
  lemma OwnersExact(d: Desk, events: seq<Event>, answers: seq<Answer>, e: Event, a: Answer)
    requires |events| == |answers| && Explains(d, events + [e], answers + [a])
    ensures var s := AfterAll(d, events, answers).slots;
            && (e.SendDone? ==>
                  a == if e.k < |s| && s[e.k].Sending? then Sent(s[e.k].payload, s[e.k].to) else Ignored)
            && (e.SendFailed? ==> a == if e.k < |s| && s[e.k].Sending? then Failed else Ignored)
            && (e.Release? ==> a == if e.k < |s| && s[e.k].Caller? then Done else Ignored)
            && (e.Fill? ==>
                  a == if e.k < |s| && s[e.k].Caller? && e.offset + |e.data| <= d.size then Done else Ignored)
            && (e.Send? ==>
                  a == if e.k < |s| && s[e.k].Caller? && e.length <= |s[e.k].contents| then Done else Ignored)
            && (e.Take? ==> if |s| < d.total then a.Granted? && |a.contents| == d.size else a == Thrown)
  {
    ExplainsPrefix(d, events, answers, e, a);
  }

  // ---------------------------------------------------------------------------------------
  // What an answered event does

  /** An event that is not answered changes nothing. The others take away, add or change just the
      one slot they are about. */
  lemma EffectsExact(d: Desk, e: Event, a: Answer)
    requires Allowed(d, e, a)
    ensures var s, s' := d.slots, After(d, e, a).slots;
            && (a == Ignored || a == Thrown || e.Overwrite? ==> s' == s)
            && (a.Sent? || (e.Release? && a == Done) ==> e.k < |s| && s' == s[..e.k] + s[e.k + 1..])
            && (a.Granted? ==> s' == s + [Caller(a.contents)])
            && (e.SendFailed? && a == Failed ==> e.k < |s| && s' == s[e.k := Stranded])
            && (e.Send? && a == Done ==>
                  e.k < |s| && s[e.k].Caller? && e.length <= |s[e.k].contents|
                  && s' == s[e.k := Sending(s[e.k].contents[..e.length], d.remote)])
            && (e.Fill? && a == Done ==>
                  e.k < |s| && |s'| == |s| && s[e.k].Caller? && s'[e.k].Caller?
                  && s' == s[e.k := s'[e.k]])
  {
  }

  /** A receive that completes or fails is taken from where it was. */
  lemma ReceiveEffectsExact(d: Desk, e: Event, a: Answer) returns (r: nat)
    requires Allowed(d, e, a) && (a.Delivered? || (e.ArriveFailed? && a == Failed))
    ensures r < |d.slots| && d.slots[r] == Receiving
    ensures a.Delivered? ==> After(d, e, a).slots == d.slots[..r] + d.slots[r + 1..] + [Receiving]
    ensures a == Failed ==> After(d, e, a).slots == d.slots[r := Stranded]
  {
    r := Where(d.slots);
  }

  /** A write puts the bytes where it says and leaves the others. */
  lemma FillExact(d: Desk, e: Event)
    requires e.Fill? && Allowed(d, e, Done) && e.k < |d.slots| && d.slots[e.k].Caller?
    requires |d.slots[e.k].contents| == d.size
    ensures var c, s' := d.slots[e.k].contents, After(d, e, Done).slots;
            && e.k < |s'| && s'[e.k].Caller? && |s'[e.k].contents| == |c| && e.offset + |e.data| <= |c|
            && s'[e.k].contents[e.offset..e.offset + |e.data|] == e.data
            && (forall i | 0 <= i < |c| && !(e.offset <= i < e.offset + |e.data|) :: s'[e.k].contents[i] == c[i])
  {
  }

  /** The endpoint variable names whom a receive last put there. */
  lemma RemoteExact(d: Desk, e: Event, a: Answer)
    requires Allowed(d, e, a)
    ensures After(d, e, a).remote
         == if a != Ignored && (e.Arrive? || e.ArriveFailed? || e.Overwrite?) then e.remote else d.remote
  {
  }

  // ---------------------------------------------------------------------------------------
  // One slot through a run

  /** The slot an event takes away, or -1. */
  function Gone(d: Desk, e: Event, a: Answer): int {
    if a.Delivered? then Where(d.slots)
    else if a.Sent? && e.SendDone? then e.k
    else if e.Release? && a == Done then e.k
    else -1
  }

  function Moved(d: Desk, e: Event, a: Answer, k: int): int {
    var g := Gone(d, e, a);
    if g < 0 || k < g then k else if k == g then -1 else k - 1
  }

  /** The event is about slot k. */
  predicate Names(e: Event, k: int) {
    (e.SendDone? || e.SendFailed? || e.Fill? || e.Release? || e.Send?) && e.k == k
  }

  function Place(d: Desk, events: seq<Event>, answers: seq<Answer>, k: int): int
    decreases |events|
  {
    if k < 0 || events == [] || answers == [] then k
    else Place(After(d, events[0], answers[0]), events[1..], answers[1..], Moved(d, events[0], answers[0], k))
  }

  predicate Untouched(d: Desk, events: seq<Event>, answers: seq<Answer>, k: int)
    decreases |events|
  {
    k < 0 || events == [] || answers == []
    || (!Names(events[0], k)
        && Untouched(After(d, events[0], answers[0]), events[1..], answers[1..], Moved(d, events[0], answers[0], k)))
  }

  lemma OneSlotKept(d: Desk, e: Event, a: Answer, k: nat)
    requires Allowed(d, e, a) && k < |d.slots| && d.slots[k] != Receiving && !Names(e, k)
    ensures 0 <= Moved(d, e, a, k) < |After(d, e, a).slots|
    ensures After(d, e, a).slots[Moved(d, e, a, k)] == d.slots[k]
  {
  }

  /** A chunk nobody names keeps owner and bytes, whatever else happens. */
  lemma {:induction false} SlotKept(d: Desk, events: seq<Event>, answers: seq<Answer>, k: nat)
    requires Explains(d, events, answers) && k < |d.slots| && d.slots[k] != Receiving
    requires Untouched(d, events, answers, k)
    ensures 0 <= Place(d, events, answers, k) < |AfterAll(d, events, answers).slots|
    ensures AfterAll(d, events, answers).slots[Place(d, events, answers, k)] == d.slots[k]
    decreases |events|
  {
    if events != [] {
      var e, a := events[0], answers[0];
      OneSlotKept(d, e, a, k);
      SlotKept(After(d, e, a), events[1..], answers[1..], Moved(d, e, a, k));
    }
  }

  /** From `async_send` to its completion, with any events between: what is sent are the bytes the
      chunk held then, to the endpoint the variable named then. */
  lemma SentAsHandedOver(d: Desk, k: nat, length: nat, events: seq<Event>, answers: seq<Answer>, a: Answer)
    requires k < |d.slots| && d.slots[k].Caller? && length <= |d.slots[k].contents| && |events| == |answers|
    requires var d' := After(d, Send(k, length), Done);
             Untouched(d', events, answers, k)
             && Explains(d', events + [SendDone(Nat(Place(d', events, answers, k)))], answers + [a])
    ensures a == Sent(d.slots[k].contents[..length], d.remote)
  {
    var d' := After(d, Send(k, length), Done);
    var e := SendDone(Nat(Place(d', events, answers, k)));
    EffectsExact(d, Send(k, length), Done);
    ExplainsPrefix(d', events, answers, e, a);
    SlotKept(d', events, answers, k);
    OwnersExact(d', events, answers, e, a);
  }

  function Nat(k: int): nat {
    if k < 0 then 0 else k
  }
}
