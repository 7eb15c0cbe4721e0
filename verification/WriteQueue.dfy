/** The asynchronous write queue of the UDP demo programs: requests are posted to the event loop,
    the posted handler queues the message, and one send at a time works the queue off. */
module WriteQueue {

  datatype Option<T> = None | Some(value: T)

  /** Handlers not yet run, messages queued, messages sent, and whether a send has failed. */
  datatype Line<T> = Line(posts: seq<T>, queue: seq<T>, done: seq<T>, failed: bool)

  datatype Event<T> = Ask(item: T) | RunPost | SendDone | SendFailed

  predicate Flying<T>(l: Line<T>) {
    l.queue != [] && !l.failed
  }

  predicate Enabled<T>(l: Line<T>, e: Event<T>) {
    match e
    case Ask(_) => true
    case RunPost => l.posts != []
    case _ => Flying(l)
  }

  function Step<T>(l: Line<T>, e: Event<T>): Line<T> {
    if !Enabled(l, e) then l
    else
      match e
      case Ask(x) => l.(posts := l.posts + [x])
      case RunPost => l.(posts := l.posts[1..], queue := l.queue + [l.posts[0]])
      case SendDone => l.(queue := l.queue[1..], done := l.done + [l.queue[0]])
      case SendFailed => l.(failed := true)
  }

  function StepAll<T>(l: Line<T>, events: seq<Event<T>>): Line<T>
    decreases |events|
  {
    if events == [] then l else StepAll(Step(l, events[0]), events[1..])
  }

  function Asked<T>(events: seq<Event<T>>): seq<T> {
    if events == [] then []
    else (if events[0].Ask? then [events[0].item] else []) + Asked(events[1..])
  }

  /** Everything a line has been asked for, oldest first. */
  function All<T>(l: Line<T>): seq<T> {
    l.done + l.queue + l.posts
  }

  // ---------------------------------------------------------------------------------------
  // Laws of every run

  lemma StepKeepsOrder<T>(l: Line<T>, e: Event<T>)
    ensures All(Step(l, e)) == All(l) + if e.Ask? then [e.item] else []
  {
    var l' := Step(l, e);
    if e.RunPost? && Enabled(l, e) {
      assert l.posts == [l.posts[0]] + l.posts[1..];
    } else if e.SendDone? && Enabled(l, e) {
      assert l.queue == [l.queue[0]] + l.queue[1..];
    }
  }

  /** Nothing is lost, repeated or overtaken: what was sent, what is queued and what is still
      posted are, in this order, exactly what was asked for. */
  lemma {:induction false} RunKeepsOrder<T>(l: Line<T>, events: seq<Event<T>>)
    ensures All(StepAll(l, events)) == All(l) + Asked(events)
    decreases |events|
  {
    if events != [] {
      var e := events[0];
      StepKeepsOrder(l, e);
      RunKeepsOrder(Step(l, e), events[1..]);
      assert All(l) + Asked(events)
          == (All(l) + if e.Ask? then [e.item] else []) + Asked(events[1..]);
    }
  }

  /** Whether a send fails in the run. */
  predicate FailsIn<T>(l: Line<T>, events: seq<Event<T>>)
    decreases |events|
  {
    events != [] && ((events[0] == SendFailed && Flying(l)) || FailsIn(Step(l, events[0]), events[1..]))
  }

  /** The first send error stops the queue for good: nothing is sent after it, and the message
      that failed stays at the front. */
  lemma {:induction false} FailureWedges<T>(l: Line<T>, events: seq<Event<T>>)
    requires l.failed && l.queue != []
    ensures StepAll(l, events).done == l.done && StepAll(l, events).failed
    ensures l.queue <= StepAll(l, events).queue
    decreases |events|
  {
    if events != [] {
      FailureWedges(Step(l, events[0]), events[1..]);
    }
  }

  predicate Sound<T>(l: Line<T>) {
    l.failed ==> l.queue != []
  }

  lemma {:induction false} RunKeepsSound<T>(l: Line<T>, events: seq<Event<T>>)
    requires Sound(l)
    ensures Sound(StepAll(l, events))
    ensures StepAll(l, events).failed <==> l.failed || FailsIn(l, events)
    decreases |events|
  {
    if events != [] {
      RunKeepsSound(Step(l, events[0]), events[1..]);
      if l.failed {
        FailureWedges(l, events);
      }
    }
  }

  /** No handler is waiting and no send is in flight. */
  predicate Quiet<T>(l: Line<T>) {
    l.posts == [] && !Flying(l)
  }

  /** A run of a fresh queue that has come to rest has sent everything it was asked for, in
      order, if and only if no send failed. */
  lemma AtRestAllSent<T>(events: seq<Event<T>>)
    requires Quiet(StepAll(Line([], [], [], false), events))
    ensures StepAll(Line([], [], [], false), events).done == Asked(events)
       <==> !FailsIn(Line([], [], [], false), events)
  {
    var start := Line([], [], [], false);
    var l := StepAll(start, events);
    RunKeepsOrder(start, events);
    RunKeepsSound(start, events);
    assert All(start) == [];
    assert [] + Asked(events) == Asked(events);
    assert l.done + l.queue == Asked(events);
    assert l.queue == [] ==> l.done + l.queue == l.done;
  }

  /** How many handlers are still to run if no more is asked for. */
  function Work<T>(l: Line<T>): nat {
    2 * |l.posts| + if l.failed then 0 else |l.queue|
  }

  function Handlers<T>(l: Line<T>, events: seq<Event<T>>): nat
    decreases |events|
  {
    if events == [] then 0
    else (if !events[0].Ask? && Enabled(l, events[0]) then 1 else 0) + Handlers(Step(l, events[0]), events[1..])
  }

  /** The event loop cannot run for ever without new requests: every request takes at most two
      handlers, and a queue that is not at rest has one to run. */
  lemma {:induction false} HandlersAreBounded<T>(l: Line<T>, events: seq<Event<T>>)
    ensures Handlers(l, events) + Work(StepAll(l, events)) <= Work(l) + 2 * |Asked(events)|
    ensures Work(l) == 0 <==> Quiet(l)
    decreases |events|
  {
    if events != [] {
      HandlersAreBounded(Step(l, events[0]), events[1..]);
    }
  }

  // ---------------------------------------------------------------------------------------
  // The program

  class Queue<T> {
    /** Handlers in the event loop, `write_queue_`, and whether a send is outstanding. */
    var posts: seq<T>
    var queue: seq<T>
    var inFlight: bool
    /** What the outstanding send was started with, and what has been sent. */
    ghost var flying: Option<T>
    ghost var done: seq<T>
    ghost var failed: bool

    /** At most one send is outstanding, and its buffer is the front of the queue, unchanged. */
    ghost predicate Valid()
      reads this
    {
      && (inFlight <==> queue != [] && !failed)
      && flying == (if inFlight then Some(queue[0]) else None)
      && (failed ==> queue != [])
    }

    ghost function View(): Line<T>
      reads this
    {
      Line(posts, queue, done, failed)
    }

    constructor ()
      ensures Valid() && View() == Line([], [], [], false)
    {
      posts, queue, inFlight := [], [], false;
      flying, done, failed := None, [], false;
    }

    method Send(item: T)
      requires Valid()
      modifies this`posts
      ensures Valid() && View() == Step(old(View()), Ask(item))
    {
      posts := posts + [item];
    }

    /** The posted handler. */
    method OnPost()
      requires Valid() && posts != []
      modifies this
      ensures Valid() && View() == Step(old(View()), RunPost)
    {
      var item := posts[0];
      posts := posts[1..];
      var writeInProgress := queue != [];
      queue := queue + [item];
      if !writeInProgress {
        StartWrite();
      }
    }

    /** Never called while a send is outstanding. */
    method StartWrite()
      requires queue != [] && !inFlight
      modifies this`inFlight, this`flying
      ensures inFlight && flying == Some(queue[0])
    {
      inFlight, flying := true, Some(queue[0]);
    }

    /** The completion handler. What left the machine is the front of the queue as it is now,
        which is what the send was started with. */
    method OnSent(ok: bool) returns (sent: T)
      requires Valid() && inFlight
      modifies this
      ensures Valid() && View() == Step(old(View()), if ok then SendDone else SendFailed)
      ensures old(flying) == Some(sent)
      ensures ok ==> done == old(done) + [sent]
    {
      sent := queue[0];
      inFlight, flying := false, None;
      if ok {
        done := done + [sent];
        queue := queue[1..];
        if queue != [] {
          StartWrite();
        }
      } else {
        failed := true;
      }
    }

    method Handle(e: Event<T>)
      requires Valid()
      modifies this
      ensures Valid() && View() == Step(old(View()), e)
    {
      match e {
        case Ask(item) => Send(item);
        case RunPost => if posts != [] { OnPost(); }
        case SendDone => if inFlight { var _ := OnSent(true); }
        case SendFailed => if inFlight { var _ := OnSent(false); }
      }
    }

    method Run(events: seq<Event<T>>)
      requires Valid()
      modifies this
      ensures Valid() && View() == StepAll(old(View()), events)
    {
      var i := 0;
      while i < |events|
        invariant i <= |events| && Valid()
        invariant StepAll(View(), events[i..]) == StepAll(old(View()), events)
      {
        Handle(events[i]);
        i := i + 1;
      }
    }

    /** Whatever order the event loop picks, if no send fails everything asked for is sent. */
    method Drain()
      requires Valid() && !failed
      modifies this
      ensures Valid() && posts == [] && queue == [] && !inFlight
      ensures done == All(old(View()))
    {
      ghost var all := All(View());
      while posts != [] || inFlight
        invariant Valid() && !failed && All(View()) == all
        decreases Work(View())
      {
        if {
          case posts != [] =>
            StepKeepsOrder(View(), RunPost);
            OnPost();
          case inFlight =>
            StepKeepsOrder(View(), SendDone);
            var _ := OnSent(true);
        }
      }
      assert all == done;
    }
  }
}
