/** `Udp_server`, and the same machine in `Udp_client`: asynchronous operations that own pool
    chunks. A completion handler remembers its chunk; here it remembers the chunk's slot. */
module UdpEndpoint {
  import opened Memory
  import opened PoolModel
  import opened LibPool
  import opened Neighbours
  import opened MempoolModel
  import opened PoolRuns
  import opened UdpDesk

  /** What the program knows of a chunk that is out: which operation owns it, and with which
      arguments. The bytes are in memory only. */
  datatype Role = Receives | Sends(length: nat, to: int) | Held | Lost

  predicate Plays(r: Role, s: Slot) {
    match s
    case Receiving => r == Receives
    case Sending(p, to) => r == Sends(|p|, to)
    case Caller(_) => r == Held
    case Stranded => r == Lost
  }

  ghost predicate Cast(roles: seq<Role>, slots: seq<Slot>) {
    |roles| == |slots| && forall i | 0 <= i < |slots| :: Plays(roles[i], slots[i])
  }

  /** What a slot says about the bytes of its chunk: a datagram in flight is still there. */
  predicate Shows(b: seq<byte>, s: Slot) {
    match s
    case Sending(p, _) => p <= b
    case Caller(c) => c == b
    case _ => true
  }

  ghost predicate Shown(bufs: seq<seq<byte>>, slots: seq<Slot>) {
    |bufs| == |slots| && forall i | 0 <= i < |slots| :: Shows(bufs[i], slots[i])
  }

  lemma ShownWithout(bufs: seq<seq<byte>>, roles: seq<Role>, slots: seq<Slot>, k: nat)
    requires Shown(bufs, slots) && Cast(roles, slots) && k < |slots|
    ensures Shown(Without(bufs, k), Without(slots, k)) && Cast(Without(roles, k), Without(slots, k))
  {
    forall i | 0 <= i < |slots| - 1
      ensures Shows(Without(bufs, k)[i], Without(slots, k)[i])
      ensures Plays(Without(roles, k)[i], Without(slots, k)[i])
    {
      var j := if i < k then i else i + 1;
      assert Shows(bufs[j], slots[j]) && Plays(roles[j], slots[j]);
    }
  }

  lemma ShownMore(bufs: seq<seq<byte>>, slots: seq<Slot>, b: seq<byte>, s: Slot)
    requires Shown(bufs, slots) && Shows(b, s)
    ensures Shown(bufs + [b], slots + [s])
  {
  }

  lemma ShownAmended(bufs: seq<seq<byte>>, slots: seq<Slot>, k: nat, offset: nat, data: seq<byte>, s: Slot)
    requires Shown(bufs, slots) && k < |slots| && Shows(Patched(bufs[k], offset, data), s)
    ensures Shown(Amended(bufs, k, offset, data), slots[k := s])
  {
  }

  lemma CallersShown(bufs: seq<seq<byte>>)
    ensures Shown(bufs, Callers(bufs)) && Cast(seq(|bufs|, _ => Held), Callers(bufs))
  {
  }

  lemma ShownCallers(now: seq<seq<byte>>, bufs: seq<seq<byte>>)
    requires Shown(now, Callers(bufs))
    ensures now == bufs
  {
    forall i | 0 <= i < |bufs| ensures now[i] == bufs[i] {
      assert Shows(now[i], Callers(bufs)[i]);
    }
  }

  lemma TakeExplained(d: Desk, a: Answer, d': Desk)
    requires if |d.slots| < d.total
             then a.Granted? && |a.contents| == d.size && d' == d.(slots := d.slots + [Caller(a.contents)])
             else a == Answer.Thrown && d' == d
    ensures UdpDesk.Allowed(d, Event.Take, a) && d' == UdpDesk.After(d, Event.Take, a)
  {
  }

  class Endpoint {
    const users: Users
    const window: nat
    /** `remote_endpoint_`. */
    var remote: int
    var roles: seq<Role>
    ghost var slots: seq<Slot>

    ghost predicate Valid()
      reads this, users, users.pool, users.pool.heap
    {
      users.Valid() && Shown(users.bufs, slots) && Cast(roles, slots) && window == users.pool.chunkSz
    }

    ghost function State(): Desk
      reads this, users.pool
    {
      Desk(users.Capacity(), users.pool.view.chunk, window, remote, slots)
    }

    /** An endpoint beside users that may already hold chunks; no receive is out yet. */
    constructor Idle(users: Users, remote: int)
      requires users.Valid()
      ensures Valid() && this.users == users && this.remote == remote && slots == Callers(users.bufs)
    {
      users.Bounded();
      CallersShown(users.bufs);
      this.users, this.remote := users, remote;
      roles := seq(|users.held|, _ => Held);
      slots := Callers(users.bufs);
      window := users.pool.chunkSz;
    }

    /** A chunk leaves the pool for a new slot. */
    method Draw(role: Role) returns (out: Outcome)
      requires Valid() && (role == Receives || role == Held)
      modifies this`slots, this`roles, users, users.pool`view, users.pool.heap`bytes
      ensures Valid() && users.pool.view.chunk == old(users.pool.view.chunk)
      ensures if |old(slots)| < users.Capacity()
              then out.Got? && |out.contents| == users.pool.view.chunk
                   && slots == old(slots) + [if role == Receives then Receiving else Caller(out.contents)]
              else out.Thrown? && slots == old(slots)
    {
      ghost var bufs := users.bufs;
      out := users.Alloc();
      if out.Got? {
        Enrol(role, bufs, out.contents);
      }
    }

    method Enrol(role: Role, ghost bufs: seq<seq<byte>>, ghost b: seq<byte>)
      requires Shown(bufs, slots) && Cast(roles, slots) && (role == Receives || role == Held)
      modifies this`slots, this`roles
      ensures slots == old(slots) + [if role == Receives then Receiving else Caller(b)]
      ensures Shown(bufs + [b], slots) && Cast(roles, slots)
    {
      ghost var s := if role == Receives then Receiving else Caller(b);
      ShownMore(bufs, slots, b, s);
      roles, slots := roles + [role], slots + [s];
    }

    /** Called by the constructor of the source and by the receive handler. */
    method AsyncReceive() returns (ok: bool)
      requires Valid()
      modifies this`slots, this`roles, users, users.pool`view, users.pool.heap`bytes
      ensures Valid() && users.pool.view.chunk == old(users.pool.view.chunk)
      ensures ok <==> |old(slots)| < users.Capacity()
      ensures slots == if ok then old(slots) + [Receiving] else old(slots)
    {
      var out := Draw(Receives);
      ok := out.Got?;
    }

    /** The constructor of the source, which starts the first receive. Null stands for its
        exception, thrown exactly when every chunk of the pool is out already; whoever holds
        them finds them unchanged in either case. */
    static method Open(users: Users, remote: int) returns (e: Endpoint?)
      requires users.Valid()
      modifies users, users.pool`view, users.pool.heap`bytes
      ensures users.Valid()
      ensures e == null <==> |old(users.held)| == users.Capacity()
      ensures e == null ==> users.bufs == old(users.bufs)
      ensures e != null ==>
                && fresh(e) && e.Valid() && e.users == users && e.remote == remote
                && e.slots == Opened(old(users.bufs))
    {
      users.Bounded();
      ghost var bufs := users.bufs;
      var made := new Endpoint.Idle(users, remote);
      var ok := made.AsyncReceive();
      if ok {
        return made;
      }
      ShownCallers(users.bufs, bufs);
      return null;
    }

    /** The kernel fills the buffer of the receive, which lies inside its chunk; the handler then
        reads it. */
    method Land(r: nat, datagram: seq<byte>) returns (seen: seq<byte>)
      requires Valid() && r < |slots| && slots[r] == Receiving && |datagram| <= window
      modifies users`bufs, users.pool.heap`bytes
      ensures Valid() && seen == datagram
    {
      AlignIsLeast(window);
      ghost var bufs := users.bufs;
      users.Write(r, 0, datagram);
      ShownAmended(bufs, slots, r, 0, datagram, Receiving);
      assert slots[r := Receiving] == slots;
      var data := users.Read(r);
      seen := data[..|datagram|];
    }

    /** A datagram has arrived in the chunk of slot r: the handler sees just its bytes, gives the
        chunk back, and the next receive always finds a chunk. */
    method OnReceive(r: nat, datagram: seq<byte>, from: int) returns (seen: seq<byte>)
      requires Valid() && r < |slots| && slots[r] == Receiving && |datagram| <= window
      modifies this, users, users.pool`view, users.pool.heap`bytes
      ensures Valid() && users.pool.view.chunk == old(users.pool.view.chunk)
      ensures seen == datagram && slots == Without(old(slots), r) + [Receiving] && remote == from
    {
      remote := from;
      seen := Land(r, datagram);
      Renew(r);
    }

    /** A chunk given back is there to be taken again, so the next receive never fails. */
    method Renew(r: nat)
      requires Valid() && r < |slots|
      modifies this`slots, this`roles, users, users.pool`view, users.pool.heap`bytes
      ensures Valid() && users.pool.view.chunk == old(users.pool.view.chunk)
      ensures slots == Without(old(slots), r) + [Receiving]
    {
      users.Bounded();
      GiveBack(r);
      var ok := AsyncReceive();
    }

    /** `mempool_.free` on the chunk of a slot. */
    method GiveBack(k: nat)
      requires Valid() && k < |slots|
      modifies this`slots, this`roles, users, users.pool`view, users.pool.heap`bytes
      ensures Valid() && users.pool.view.chunk == old(users.pool.view.chunk)
      ensures slots == Without(old(slots), k)
    {
      ShownWithout(users.bufs, roles, slots, k);
      users.Free(k);
      roles, slots := Without(roles, k), Without(slots, k);
    }

    /** The send in flight from slot k is complete: what its chunk holds now is what was handed
        over, and it goes back to the pool. The operation kept the endpoint it was given. */
    method OnSend(k: nat) returns (payload: seq<byte>, to: int)
      requires Valid() && InFlight(slots, k)
      modifies this`slots, this`roles, users, users.pool`view, users.pool.heap`bytes
      ensures Valid() && users.pool.view.chunk == old(users.pool.view.chunk)
      ensures payload == old(slots)[k].payload && to == old(slots)[k].to
      ensures slots == Without(old(slots), k)
    {
      payload, to := Transmit(k);
      GiveBack(k);
    }

    /** The kernel reads the buffer of the send from memory. */
    method Transmit(k: nat) returns (payload: seq<byte>, to: int)
      requires Valid() && InFlight(slots, k)
      ensures payload == slots[k].payload && to == slots[k].to
    {
      assert Shows(users.bufs[k], slots[k]) && Plays(roles[k], slots[k]);
      var data := users.Read(k);
      payload, to := data[..roles[k].length], roles[k].to;
    }

    /** The error branch of either handler: nobody holds the chunk any more, and it is not free. */
    method OnError(k: nat)
      requires Valid() && k < |slots|
      modifies this`slots, this`roles
      ensures Valid() && slots == old(slots)[k := Stranded]
    {
      roles, slots := roles[k := Lost], slots[k := Stranded];
    }

    /** The chunk goes to the endpoint the variable names at this moment. */
    method AsyncSend(k: nat, length: nat)
      requires Valid() && OwnedByCaller(slots, k) && length <= |slots[k].contents|
      modifies this`slots, this`roles
      ensures Valid() && slots == old(slots)[k := Sending(old(slots)[k].contents[..length], remote)]
    {
      assert Shows(users.bufs[k], slots[k]);
      roles := roles[k := Sends(length, remote)];
      slots := slots[k := Sending(slots[k].contents[..length], remote)];
    }

    /** The application takes a chunk from the shared pool. */
    method Take() returns (a: Answer)
      requires Valid()
      modifies this`slots, this`roles, users, users.pool`view, users.pool.heap`bytes
      ensures Valid() && UdpDesk.Allowed(old(State()), Event.Take, a)
      ensures State() == UdpDesk.After(old(State()), Event.Take, a)
    {
      ghost var d := State();
      var out := Draw(Held);
      a := if out.Got? then Answer.Granted(out.contents) else Answer.Thrown;
      TakeExplained(d, a, State());
    }

    /** The application writes into a chunk of its own. */
    method Put(k: nat, offset: nat, data: seq<byte>)
      requires Valid() && OwnedByCaller(slots, k) && offset + |data| <= users.pool.view.chunk
      modifies this`slots, users`bufs, users.pool.heap`bytes
      ensures Valid() && slots == old(slots)[k := Caller(Patched(old(slots)[k].contents, offset, data))]
    {
      ghost var bufs := users.bufs;
      assert Shows(bufs[k], slots[k]);
      users.Write(k, offset, data);
      ghost var s := Caller(Patched(slots[k].contents, offset, data));
      ShownAmended(bufs, slots, k, offset, data, s);
      slots := slots[k := s];
    }

    /** What is free and what is owned by somebody, or stranded, is the whole pool. */
    method Available() returns (n: nat)
      requires Valid()
      ensures n + |slots| == users.pool.poolSz + users.pool.extraSz
      ensures forall i, j | 0 <= i < j < |slots| :: users.held[i] != users.held[j]
    {
      n := users.Count();
    }

    // -------------------------------------------------------------------------------------
    // Events

    /** The slot of the outstanding receive. */
    method Waiting() returns (r: nat)
      requires Valid()
      ensures r == Where(slots)
    {
      r := 0;
      while r < |roles| && roles[r] != Receives
        invariant r <= |roles| && forall i | 0 <= i < r :: slots[i] != Receiving
      {
        assert Plays(roles[r], slots[r]);
        r := r + 1;
      }
      if r < |roles| {
        assert Plays(roles[r], slots[r]);
      }
    }

    method IsHeld(k: nat) returns (b: bool)
      requires Valid()
      ensures b <==> OwnedByCaller(slots, k)
      ensures b ==> |slots[k].contents| == Align(window)
    {
      users.Bounded();
      if k < |roles| {
        assert Plays(roles[k], slots[k]) && Shows(users.bufs[k], slots[k]);
        assert Load(users.pool.heap.bytes, users.held[k], users.pool.view.chunk) == users.bufs[k];
      }
      b := k < |roles| && roles[k] == Held;
    }

    method IsSending(k: nat) returns (b: bool)
      requires Valid()
      ensures b <==> InFlight(slots, k)
    {
      if k < |roles| {
        assert Plays(roles[k], slots[k]);
      }
      b := k < |roles| && roles[k].Sends?;
    }

    method ServeSocket(e: Event) returns (a: Answer)
      requires Valid() && (e.Arrive? || e.ArriveFailed? || e.Overwrite? || e.SendDone? || e.SendFailed?)
      modifies this, users, users.pool`view, users.pool.heap`bytes
      ensures Valid() && UdpDesk.Allowed(old(State()), e, a) && State() == UdpDesk.After(old(State()), e, a)
    {
      if e.SendDone? || e.SendFailed? {
        a := ServeSent(e);
      } else {
        a := ServeReceived(e);
      }
    }

    method ServeReceived(e: Event) returns (a: Answer)
      requires Valid() && (e.Arrive? || e.ArriveFailed? || e.Overwrite?)
      modifies this, users, users.pool`view, users.pool.heap`bytes
      ensures Valid() && UdpDesk.Allowed(old(State()), e, a) && State() == UdpDesk.After(old(State()), e, a)
    {
      a := Answer.Ignored;
      var r := Waiting();
      if r < |roles| {
        match e {
          case Arrive(datagram, from) =>
            if |datagram| <= window {
              var seen := OnReceive(r, datagram, from);
              a := Delivered(seen);
            }
          case ArriveFailed(left) =>
            remote := left;
            OnError(r);
            a := Failed;
          case Overwrite(left) =>
            remote := left;
            a := Answer.Done;
        }
      }
    }

    method ServeSent(e: Event) returns (a: Answer)
      requires Valid() && (e.SendDone? || e.SendFailed?)
      modifies this, users, users.pool`view, users.pool.heap`bytes
      ensures Valid() && UdpDesk.Allowed(old(State()), e, a) && State() == UdpDesk.After(old(State()), e, a)
    {
      a := Answer.Ignored;
      var sending := IsSending(e.k);
      if sending {
        if e.SendDone? {
          var payload, to := OnSend(e.k);
          a := Sent(payload, to);
        } else {
          OnError(e.k);
          a := Failed;
        }
      }
    }

    method ServeCaller(e: Event) returns (a: Answer)
      requires Valid() && (e.Take? || e.Fill? || e.Release? || e.Send?)
      modifies this, users, users.pool`view, users.pool.heap`bytes
      ensures Valid() && UdpDesk.Allowed(old(State()), e, a) && State() == UdpDesk.After(old(State()), e, a)
    {
      if e.Take? {
        a := Take();
      } else if e.Fill? {
        a := ServeFill(e);
      } else if e.Release? {
        a := ServeRelease(e);
      } else {
        a := ServeSend(e);
      }
    }

    method ServeFill(e: Event) returns (a: Answer)
      requires Valid() && e.Fill?
      modifies this, users, users.pool`view, users.pool.heap`bytes
      ensures Valid() && UdpDesk.Allowed(old(State()), e, a) && State() == UdpDesk.After(old(State()), e, a)
    {
      a := Answer.Ignored;
      var held := IsHeld(e.k);
      if held && e.offset + |e.data| <= Align(window) {
        Put(e.k, e.offset, e.data);
        a := Answer.Done;
      }
    }

    method ServeRelease(e: Event) returns (a: Answer)
      requires Valid() && e.Release?
      modifies this, users, users.pool`view, users.pool.heap`bytes
      ensures Valid() && UdpDesk.Allowed(old(State()), e, a) && State() == UdpDesk.After(old(State()), e, a)
    {
      a := Answer.Ignored;
      var held := IsHeld(e.k);
      if held {
        GiveBack(e.k);
        a := Answer.Done;
      }
    }

    method ServeSend(e: Event) returns (a: Answer)
      requires Valid() && e.Send?
      modifies this, users, users.pool`view, users.pool.heap`bytes
      ensures Valid() && UdpDesk.Allowed(old(State()), e, a) && State() == UdpDesk.After(old(State()), e, a)
    {
      a := Answer.Ignored;
      var held := IsHeld(e.k);
      if held && e.length <= Align(window) {
        AsyncSend(e.k, e.length);
        a := Answer.Done;
      }
    }

    /** The buffer of the outstanding receive lies inside a live block of the pool, in a chunk of
        its own. */
    lemma ReceiveBufferInside(r: nat) returns (home: nat)
      requires Valid() && r < |slots| && slots[r] == Receiving
      ensures |users.held| == |slots|
      ensures home in users.pool.heap.blocks && home <= users.held[r]
      ensures users.held[r] + window <= home + users.pool.heap.blocks[home]
      ensures forall i | 0 <= i < |slots| && i != r ::
                Apart(users.held[r], window, users.held[i], users.pool.view.chunk)
    {
      var pool := users.pool;
      var c := users.held[r];
      assert c in Members(users.held);
      home := WindowIsPrivate(pool.heap.bytes, pool.heap.blocks, pool.pool, pool.view, c, window);
      forall i | 0 <= i < |slots| && i != r ensures Apart(c, window, users.held[i], pool.view.chunk) {
        assert users.held[i] in Members(users.held);
      }
    }

    /** Every run of events is one the desk explains, and leaves the owners it says. */
    method Run(events: seq<Event>) returns (answers: seq<Answer>)
      requires Valid()
      modifies this, users, users.pool`view, users.pool.heap`bytes
      ensures Valid() && UdpDesk.Explains(old(State()), events, answers)
      ensures State() == UdpDesk.AfterAll(old(State()), events, answers)
      decreases |events|
    {
      if events == [] {
        return [];
      }
      var e := events[0];
      var a;
      if e.Take? || e.Fill? || e.Release? || e.Send? {
        a := ServeCaller(e);
      } else {
        a := ServeSocket(e);
      }
      var rest := Run(events[1..]);
      answers := [a] + rest;
      assert answers[1..] == rest;
    }
  }

  /** The buffer of a receive lies inside its chunk and so inside a live block, and is private: it
      overlaps neither the pool's own structures nor any other chunk, free or not. */
  lemma WindowIsPrivate(m: Bytes, blocks: Blocks, p: nat, v: View, c: nat, window: nat) returns (home: nat)
    requires PoolValid(m, blocks, p, v) && c in Outstanding(v)
    requires window <= ADDRESS_SPACE - POINTER_SIZE && v.chunk == Align(window)
    ensures window <= v.chunk
    ensures home in blocks && home <= c && c + window <= home + blocks[home]
    ensures Apart(c, window, p, POOL_SIZE)
    ensures forall k | 0 <= k < |v.arrays| :: Apart(c, window, v.arrays[k].node, NODE_SIZE)
    ensures forall d | d in Chunks(v.arrays, v.chunk) && d != c :: Apart(c, window, d, v.chunk)
  {
    AlignIsLeast(window);
    home := ChunkHome(blocks, p, v, c);
    ChunkApartHeader(blocks, p, v, c);
    forall k | 0 <= k < |v.arrays| ensures Apart(c, window, v.arrays[k].node, NODE_SIZE) {
      ChunkApartNode(blocks, p, v, c, k);
    }
    forall d | d in Chunks(v.arrays, v.chunk) && d != c ensures Apart(c, window, d, v.chunk) {
      ChunksApart(blocks, p, v, c, d);
    }
  }

  /** An endpoint's whole life, from its constructor through any run: the answers are those the
      desk explains from the first receive on, free and owned chunks are the whole pool, at most
      one receive is out, it is out exactly if none has failed, and as many chunks are stranded as
      operations failed. */
  method Life(users: Users, remote: int, events: seq<Event>)
    returns (started: bool, answers: seq<Answer>, available: nat, ghost start: Desk, ghost slots: seq<Slot>)
    requires users.Valid()
    modifies users, users.pool`view, users.pool.heap`bytes
    ensures users.Valid()
    ensures started <==> |old(users.held)| < users.Capacity()
    ensures start == Desk(users.Capacity(), users.pool.view.chunk, users.pool.chunkSz, remote, Opened(old(users.bufs)))
    ensures started ==>
              UdpDesk.Explains(start, events, answers) && slots == UdpDesk.AfterAll(start, events, answers).slots
    ensures started ==>
              && available + |slots| == users.Capacity() && |slots| == |users.held|
              && Count(slots, Receiving) <= 1
              && (Receiving in slots <==> ReceiveFailures(events, answers) == 0)
              && Count(slots, Stranded) == Answers(answers, Failed)
  {
    users.Bounded();
    ghost var bufs := users.bufs;
    answers, slots, available := [], [], 0;
    start := Desk(users.Capacity(), users.pool.view.chunk, users.pool.chunkSz, remote, Opened(bufs));
    var e := Endpoint.Open(users, remote);
    started := e != null;
    if started {
      answers := e.Run(events);
      available := e.Available();
      slots := e.slots;
      LifeConserves(start, bufs, events, answers);
      assert Where(slots) < |slots| <==> Receiving in slots;
    }
  }
}
