/** The echo server of the UDP demo: one receive buffer and one endpoint variable, both overwritten
    by every datagram, and a write queue of replies that own copies. */
module EchoServer {
  import opened WriteQueue

  const BUFFER_SIZE: nat := 1024

  datatype Datagram = Datagram(from: int, text: string)
  datatype Reply = Reply(data: string, client: int)

  function Echo(d: Datagram): Reply {
    Reply("Echo: " + d.text, d.from)
  }

  function Echoes(ds: seq<Datagram>): seq<Reply> {
    if ds == [] then [] else [Echo(ds[0])] + Echoes(ds[1..])
  }

  datatype Happening =
    | Arrival(datagram: Datagram)
    | ArrivalFailed
    | Garble(bytes: string, remote: int)
    | Turn(e: Event<Reply>)

  /** The receives that complete: those that fit, up to the first failed one. */
  function Heard(on: bool, hs: seq<Happening>): seq<Datagram> {
    if hs == [] || !on then []
    else
      match hs[0]
      case Arrival(d) => if |d.text| <= BUFFER_SIZE then [d] + Heard(on, hs[1..]) else Heard(on, hs[1..])
      case ArrivalFailed => []
      case _ => Heard(on, hs[1..])
  }

  /** The write queue's side of a run. */
  function Turns(on: bool, hs: seq<Happening>): seq<Event<Reply>>
    decreases |hs|
  {
    if hs == [] then []
    else
      match hs[0]
      case Arrival(d) =>
        (if on && |d.text| <= BUFFER_SIZE then [Ask(Echo(d))] else []) + Turns(on, hs[1..])
      case ArrivalFailed => Turns(false, hs[1..])
      case Garble(_, _) => Turns(on, hs[1..])
      case Turn(e) => (if e.Ask? then [] else [e]) + Turns(on, hs[1..])
  }

  lemma {:induction false} AskedConcat(a: seq<Event<Reply>>, b: seq<Event<Reply>>)
    ensures Asked(a + b) == Asked(a) + Asked(b)
  {
    if a == [] {
      assert a + b == b;
    } else {
      assert (a + b)[0] == a[0] && (a + b)[1..] == a[1..] + b;
      AskedConcat(a[1..], b);
    }
  }

  /** The replies asked for are the echoes of what was heard, in order. */
  lemma {:induction false} TurnsAskForEchoes(on: bool, hs: seq<Happening>)
    ensures Asked(Turns(on, hs)) == if on then Echoes(Heard(on, hs)) else []
    decreases |hs|
  {
    if hs != [] {
      match hs[0] {
        case Arrival(d) =>
          TurnsAskForEchoes(on, hs[1..]);
          if on && |d.text| <= BUFFER_SIZE {
            AskedConcat([Ask(Echo(d))], Turns(on, hs[1..]));
            assert ([d] + Heard(on, hs[1..]))[1..] == Heard(on, hs[1..]);
          } else {
            AskedConcat([], Turns(on, hs[1..]));
          }
        case ArrivalFailed => TurnsAskForEchoes(false, hs[1..]);
        case Garble(_, _) => TurnsAskForEchoes(on, hs[1..]);
        case Turn(e) =>
          TurnsAskForEchoes(on, hs[1..]);
          AskedConcat(if e.Ask? then [] else [e], Turns(on, hs[1..]));
      }
    }
  }

  /** On every run from the start, the replies sent are a prefix of the echoes of the datagrams
      heard, in order, each to the endpoint its datagram came from; the rest is still queued. */
  lemma RepliesAreEchoes(hs: seq<Happening>)
    ensures var l := StepAll(Line([], [], [], false), Turns(true, hs));
            All(l) == Echoes(Heard(true, hs)) && l.done <= Echoes(Heard(true, hs))
  {
    var start := Line([], [], [], false);
    RunKeepsOrder(start, Turns(true, hs));
    TurnsAskForEchoes(true, hs);
    assert All(start) == [];
  }

  // ---------------------------------------------------------------------------------------
  // What the run amounts to, happening by happening

  /** One reply per datagram, in order: the text behind the prefix, back to where it came from. */
  lemma {:induction false} EchoExact(ds: seq<Datagram>, i: nat)
    requires i < |ds|
    ensures |Echoes(ds)| == |ds|
    ensures Echoes(ds)[i].client == ds[i].from && Echoes(ds)[i].data == "Echo: " + ds[i].text
  {
    if |ds| > 1 {
      EchoExact(ds[1..], if i > 0 then i - 1 else 0);
    }
  }

  /** A datagram is heard exactly if it has at most 1024 bytes and no receive has failed before. */
  lemma {:induction false} HeardExact(hs: seq<Happening>, h: Happening)
    ensures Heard(true, []) == []
    ensures Heard(true, hs + [h])
         == Heard(true, hs)
            + if ArrivalFailed !in hs && h.Arrival? && |h.datagram.text| <= 1024 then [h.datagram] else []
    decreases |hs|
  {
    var all := hs + [h];
    if hs == [] {
      assert all == [h] && all[1..] == [];
    } else {
      assert all[0] == hs[0] && all[1..] == hs[1..] + [h];
      if hs[0] != ArrivalFailed {
        HeardExact(hs[1..], h);
        assert ArrivalFailed in hs <==> ArrivalFailed in hs[1..];
      }
    }
  }

  /** The write queue gets the event loop's turns as they come, and a reply for each datagram heard
      at the moment it is heard. */
  lemma TurnsExact(on: bool, hs: seq<Happening>, h: Happening)
    ensures Turns(on, []) == []
    ensures Turns(on, hs + [h])
         == Turns(on, hs)
            + if h.Turn? && !h.e.Ask? then [h.e]
              else if on && ArrivalFailed !in hs && h.Arrival? && |h.datagram.text| <= 1024
              then [Ask(Reply("Echo: " + h.datagram.text, h.datagram.from))]
              else []
  {
    TurnsThenOne(on, hs, h);
    assert [h][1..] == [];
  }

  lemma {:induction false} TurnsThenOne(on: bool, hs: seq<Happening>, h: Happening)
    ensures Turns(on, hs + [h]) == Turns(on, hs) + Turns(on && ArrivalFailed !in hs, [h])
    decreases |hs|
  {
    if hs == [] {
      assert hs + [h] == [h];
    } else {
      var on' := on && hs[0] != ArrivalFailed;
      assert (hs + [h])[0] == hs[0] && (hs + [h])[1..] == hs[1..] + [h];
      TurnsSplit(on, hs + [h]);
      TurnsSplit(on, hs);
      TurnsThenOne(on', hs[1..], h);
    }
  }

  /** A server at rest has answered everything it heard if and only if no send failed. */
  lemma AtRestAllAnswered(hs: seq<Happening>)
    requires Quiet(StepAll(Line([], [], [], false), Turns(true, hs)))
    ensures StepAll(Line([], [], [], false), Turns(true, hs)).done == Echoes(Heard(true, hs))
       <==> !FailsIn(Line([], [], [], false), Turns(true, hs))
  {
    AtRestAllSent(Turns(true, hs));
    TurnsAskForEchoes(true, hs);
  }

  class Server {
    const replies: Queue<Reply>
    const recvBuffer: array<char>
    var remote: int
    var receiving: bool

    ghost predicate Valid()
      reads this, replies
    {
      replies.Valid() && recvBuffer.Length == BUFFER_SIZE
    }

    constructor ()
      ensures Valid() && receiving && fresh(replies) && fresh(recvBuffer)
      ensures replies.View() == Line([], [], [], false)
    {
      replies := new Queue();
      recvBuffer := new char[BUFFER_SIZE];
      remote, receiving := 0, true;
    }

    /** The kernel writes a datagram, or part of one, into the buffer and the endpoint variable. */
    method Overwrite(bytes: string, from: int)
      requires Valid() && |bytes| <= BUFFER_SIZE
      modifies this`remote, recvBuffer
      ensures recvBuffer[..|bytes|] == bytes && remote == from
    {
      for i := 0 to |bytes|
        invariant recvBuffer[..i] == bytes[..i]
      {
        recvBuffer[i] := bytes[i];
      }
      remote := from;
    }

    /** The receive handler, without an error. */
    method OnReceive(received: nat)
      requires Valid() && receiving && received <= BUFFER_SIZE
      modifies replies`posts
      ensures Valid()
      ensures replies.View()
           == Step(old(replies.View()), Ask(Echo(Datagram(remote, recvBuffer[..received]))))
    {
      var message := recvBuffer[..received];
      var reply := "Echo: " + message;
      replies.Send(Reply(reply, remote));
    }

    /** The receive handler with an error: the receive is not started again. */
    method OnReceiveError()
      requires Valid() && receiving
      modifies this`receiving
      ensures Valid() && !receiving
    {
      receiving := false;
    }

    /** One happening; what the kernel does to the buffer in between never reaches a reply. */
    method Handle(h: Happening)
      requires Valid()
      modifies this, replies, recvBuffer
      ensures Valid() && replies.View() == StepAll(old(replies.View()), Turns(old(receiving), [h]))
      ensures receiving == (old(receiving) && h != ArrivalFailed)
    {
      assert [h][1..] == [];
      match h {
        case Arrival(d) =>
          if receiving && |d.text| <= BUFFER_SIZE {
            Overwrite(d.text, d.from);
            OnReceive(|d.text|);
            assert Turns(true, [h]) == [Ask(Echo(d))];
          }
        case ArrivalFailed =>
          if receiving {
            OnReceiveError();
          }
        case Garble(bytes, from) =>
          if receiving && |bytes| <= BUFFER_SIZE {
            Overwrite(bytes, from);
          }
        case Turn(e) =>
          if !e.Ask? {
            replies.Handle(e);
            assert Turns(old(receiving), [h]) == [e];
          }
      }
    }

    method Run(hs: seq<Happening>)
      requires Valid()
      modifies this, replies, recvBuffer
      ensures Valid() && replies.View() == StepAll(old(replies.View()), Turns(old(receiving), hs))
      decreases |hs|
    {
      if hs != [] {
        Handle(hs[0]);
        ghost var on := receiving;
        Run(hs[1..]);
        TurnsSplit(old(receiving), hs);
        StepAllConcat(old(replies.View()), Turns(old(receiving), [hs[0]]), Turns(on, hs[1..]));
      }
    }
  }

  /** A server's whole life: every reply it has sent is the echo of a datagram it heard, in the
      order heard and to the endpoint heard from. */
  method Serve(hs: seq<Happening>) returns (s: Server)
    ensures fresh(s) && s.Valid() && All(s.replies.View()) == Echoes(Heard(true, hs))
    ensures s.replies.View() == StepAll(Line([], [], [], false), Turns(true, hs))
    ensures var heard, sent := Heard(true, hs), s.replies.done;
            && |sent| <= |heard|
            && forall i | 0 <= i < |sent| ::
                 sent[i].client == heard[i].from && sent[i].data == "Echo: " + heard[i].text
  {
    s := new Server();
    s.Run(hs);
    RepliesAreEchoes(hs);
    ghost var heard, sent := Heard(true, hs), s.replies.done;
    EchoesCount(heard);
    forall i | 0 <= i < |sent| ensures sent[i].client == heard[i].from && sent[i].data == "Echo: " + heard[i].text {
      EchoExact(heard, i);
    }
  }

  lemma EchoesCount(ds: seq<Datagram>)
    ensures |Echoes(ds)| == |ds|
  {
    if ds != [] {
      EchoExact(ds, 0);
    }
  }

  lemma TurnsSplit(on: bool, hs: seq<Happening>)
    requires hs != []
    ensures Turns(on, hs) == Turns(on, [hs[0]]) + Turns(on && hs[0] != ArrivalFailed, hs[1..])
  {
    assert [hs[0]][1..] == [];
  }

  lemma {:induction false} StepAllConcat(l: Line<Reply>, a: seq<Event<Reply>>, b: seq<Event<Reply>>)
    ensures StepAll(l, a + b) == StepAll(StepAll(l, a), b)
    decreases |a|
  {
    if a == [] {
      assert a + b == b;
    } else {
      assert (a + b)[0] == a[0] && (a + b)[1..] == a[1..] + b;
      StepAllConcat(Step(l, a[0]), a[1..], b);
    }
  }
}
