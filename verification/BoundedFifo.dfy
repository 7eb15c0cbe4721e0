/** The abstract queue every queue of the repository is measured against: a first-in
    first-out sequence that holds at most `room` items. Two views of it are used: a trace
    checker for the concurrent protocol, and an executable log for sequential runs. */
module BoundedFifo {

  /** What one completed call (or one internal step) looks like from outside. */
  datatype Action =
    | Internal
    | PushOk(pushed: int)
    | PushFull
    | PopOk(popped: int)
    | PopEmpty

  /** `q` after the action, if the queue allows it. A refusal is `honest` when it is only
      allowed on a queue that really is full or empty. */
  predicate Allows(room: nat, q: seq<int>, a: Action, honest: bool) {
    match a
    case Internal => true
    case PushOk(_) => |q| < room
    case PushFull => honest ==> |q| == room
    case PopOk(v) => |q| > 0 && q[0] == v
    case PopEmpty => honest ==> q == []
  }

  function After(q: seq<int>, a: Action): seq<int> {
    match a
    case PushOk(v) => q + [v]
    case PopOk(_) => if q == [] then [] else q[1..]
    case _ => q
  }

  /** A whole trace is accepted when every action is allowed where it happens. */
  predicate Accepts(room: nat, q: seq<int>, trace: seq<Action>, honest: bool)
    decreases |trace|
  {
    trace == [] ||
    (Allows(room, q, trace[0], honest) && Accepts(room, After(q, trace[0]), trace[1..], honest))
  }

  function AfterAll(q: seq<int>, trace: seq<Action>): seq<int>
    decreases |trace|
  {
    if trace == [] then q else AfterAll(After(q, trace[0]), trace[1..])
  }

  /** The items a trace puts in and takes out, in order. */
  function Pushes(trace: seq<Action>): seq<int> {
    if trace == [] then []
    else (if trace[0].PushOk? then [trace[0].pushed] else []) + Pushes(trace[1..])
  }

  function Pops(trace: seq<Action>): seq<int> {
    if trace == [] then []
    else (if trace[0].PopOk? then [trace[0].popped] else []) + Pops(trace[1..])
  }

  /** An accepted trace is first-in first-out and loses nothing: what was in the queue followed
      by what was pushed is what was popped followed by what is left, and the queue never
      holds more than `room` items. */
  lemma {:induction false} AcceptedTraceIsFifo(room: nat, q: seq<int>, trace: seq<Action>, honest: bool)
    requires Accepts(room, q, trace, honest)
    requires |q| <= room
    ensures q + Pushes(trace) == Pops(trace) + AfterAll(q, trace)
    ensures |AfterAll(q, trace)| <= room
    decreases |trace|
  {
    if trace != [] {
      var a := trace[0];
      AcceptedTraceIsFifo(room, After(q, a), trace[1..], honest);
      ActionBalance(q, a, Pushes(trace[1..]), Pops(trace[1..]), AfterAll(q, trace), room, honest);
    }
  }

  lemma ActionBalance(q: seq<int>, a: Action, ins: seq<int>, outs: seq<int>, left: seq<int>, room: nat, honest: bool)
    requires Allows(room, q, a, honest) && After(q, a) + ins == outs + left
    ensures q + ((if a.PushOk? then [a.pushed] else []) + ins)
         == ((if a.PopOk? then [a.popped] else []) + outs) + left
  {
    match a
    case PushOk(v) => assert q + ([v] + ins) == (q + [v]) + ins;
    case PopOk(v) =>
      assert q + ins == [v] + (q[1..] + ins);
      assert ([v] + outs) + left == [v] + (outs + left);
    case _ =>
      assert [] + ins == ins && [] + outs == outs;
  }

  /** How many items are in after the actions so far. */
  function Inside(q: seq<int>, trace: seq<Action>): int {
    |q| + |Pushes(trace)| - |Pops(trace)|
  }

  /** Where in an accepted trace each action happens: an item is taken only with room and given
      only in turn, and an honest refusal only by a full or an empty queue. */
  lemma {:induction false} AcceptedExact(room: nat, q: seq<int>, trace: seq<Action>, honest: bool, i: nat)
    requires Accepts(room, q, trace, honest) && i < |trace|
    ensures trace[i].PushOk? ==> Inside(q, trace[..i]) < room
    ensures trace[i].PopOk? ==> Inside(q, trace[..i]) > 0
    ensures honest && trace[i].PushFull? ==> Inside(q, trace[..i]) == room
    ensures honest && trace[i].PopEmpty? ==> Inside(q, trace[..i]) == 0
    decreases |trace|
  {
    if i > 0 {
      AcceptedExact(room, After(q, trace[0]), trace[1..], honest, i - 1);
      assert trace[..i][1..] == trace[1..][..i - 1] && trace[..i][0] == trace[0];
    }
  }

  /** A call made by a sequential user. */
  datatype Call = Push(val: int) | Pop

  /** What the call returns: accepted or refused, and the item for a successful pop. */
  datatype Reply = Accepted | Refused | Got(val: int)

  function Respond(room: nat, q: seq<int>, c: Call): (Reply, seq<int>) {
    match c
    case Push(v) => if |q| < room then (Accepted, q + [v]) else (Refused, q)
    case Pop => if q == [] then (Refused, q) else (Got(q[0]), q[1..])
  }

  function Log(room: nat, q: seq<int>, calls: seq<Call>): seq<Reply>
    decreases |calls|
  {
    if calls == [] then []
    else
      var (r, q') := Respond(room, q, calls[0]);
      [r] + Log(room, q', calls[1..])
  }

  function Final(room: nat, q: seq<int>, calls: seq<Call>): seq<int>
    decreases |calls|
  {
    if calls == [] then q else Final(room, Respond(room, q, calls[0]).1, calls[1..])
  }

  /** One more call at the end of a run: the step a driver loop takes. */
  lemma {:induction false} LogExtends(room: nat, q: seq<int>, calls: seq<Call>, c: Call)
    ensures Log(room, q, calls + [c])
         == Log(room, q, calls) + [Respond(room, Final(room, q, calls), c).0]
    ensures Final(room, q, calls + [c]) == Respond(room, Final(room, q, calls), c).1
    decreases |calls|
  {
    if calls == [] {
      assert [c][1..] == [];
      assert calls + [c] == [c];
    } else {
      assert (calls + [c])[0] == calls[0];
      assert (calls + [c])[1..] == calls[1..] + [c];
      LogExtends(room, Respond(room, q, calls[0]).1, calls[1..], c);
    }
  }

  /** The items of the pushes that were accepted. */
  function Taken(calls: seq<Call>, log: seq<Reply>): seq<int> {
    if calls == [] || log == [] then []
    else (if calls[0].Push? && log[0] == Accepted then [calls[0].val] else []) + Taken(calls[1..], log[1..])
  }

  /** The items that were handed out. */
  function Given(log: seq<Reply>): seq<int> {
    if log == [] then [] else (if log[0].Got? then [log[0].val] else []) + Given(log[1..])
  }

  /** Every call is answered, the items handed out are those taken in, oldest first, and the queue
      never holds more than `room`. */
  lemma {:induction false} LogIsFifo(room: nat, q: seq<int>, calls: seq<Call>)
    requires |q| <= room
    ensures var log := Log(room, q, calls);
            && |log| == |calls|
            && q + Taken(calls, log) == Given(log) + Final(room, q, calls)
            && |Final(room, q, calls)| <= room
    decreases |calls|
  {
    if calls != [] {
      var (r, q') := Respond(room, q, calls[0]);
      LogIsFifo(room, q', calls[1..]);
      var rest := Log(room, q', calls[1..]);
      assert Log(room, q, calls)[1..] == rest;
      RespondBalance(room, q, calls[0], Taken(calls[1..], rest), Given(rest), Final(room, q, calls));
    }
  }

  lemma RespondBalance(room: nat, q: seq<int>, c: Call, ins: seq<int>, outs: seq<int>, left: seq<int>)
    requires Respond(room, q, c).1 + ins == outs + left
    ensures var r := Respond(room, q, c).0;
            q + ((if c.Push? && r == Accepted then [c.val] else []) + ins)
              == ((if r.Got? then [r.val] else []) + outs) + left
  {
    var (r, q') := Respond(room, q, c);
    if r == Accepted {
      assert q + ([c.val] + ins) == q' + ins;
    } else if r.Got? {
      assert q + ins == [q[0]] + (q' + ins);
      assert ([r.val] + outs) + left == [r.val] + (outs + left);
    }
    assert [] + ins == ins && [] + outs == outs;
  }

  /** A push is refused exactly when `room` items are in, a pop exactly when none is. */
  lemma LogExact(room: nat, calls: seq<Call>, c: Call)
    ensures var log := Log(room, [], calls);
            var inside, reply := |Taken(calls, log)| - |Given(log)|, Log(room, [], calls + [c]);
            && |reply| == |calls| + 1 && reply[..|calls|] == log
            && (c.Push? ==> reply[|calls|] == if inside < room then Accepted else Refused)
            && (c.Pop? ==> if inside > 0 then reply[|calls|].Got? else reply[|calls|] == Refused)
  {
    LogIsFifo(room, [], calls);
    LogExtends(room, [], calls, c);
    assert |[] + Taken(calls, Log(room, [], calls))| == |Given(Log(room, [], calls)) + Final(room, [], calls)|;
  }
}
