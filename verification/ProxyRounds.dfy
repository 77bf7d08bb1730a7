// What a round makes of each entry, in the terms of the entry's own fields: whom select is asked
// about, who is accepted, where handshakes and resolvers go, and when an exception leaves the loop.
module ProxyRounds {
  import opened Bytes
  import opened Sockets
  import H = Handshake
  import N = Resolver
  import R = Relay
  import opened Proxy
  import opened ProxyInvariant
  import opened ProxySteps
  import opened ProxyRun
  import opened ProxyTheorems
  import opened ProxyProgress
  import opened ProxyCalls

  // ---------------------------------------------------------------- prepareSets

  /** Somebody waits for data on this descriptor, or it is the listener. */
  ghost predicate ReadDue(p: State, fd: int) {
    || fd == p.listener
    || (exists h <- p.handshakes ::
          h.client == fd && (!h.trace.state.firstStepCompleted || h.trace.state.output == []))
    || (exists r <- p.resolvings :: r.resolver.fd == fd && r.resolver.requestSended && !r.resolver.responseRecived)
    || (exists e <- p.relays ::
          (e.conn.client == fd && e.conn.cf.count == 0) || (e.conn.forward == fd && e.conn.fc.count == 0))
  }

  /** Somebody has, or may have, something to send on this descriptor. */
  ghost predicate WriteDue(p: State, fd: int) {
    || (exists h <- p.handshakes :: h.client == fd)
    || (exists r <- p.resolvings :: r.resolver.fd == fd && !r.resolver.requestSended)
    || (exists e <- p.relays ::
          (e.conn.forward == fd && e.conn.cf.count > 0) || (e.conn.client == fd && e.conn.fc.count > 0))
  }

  lemma AskedIsDue(p: State, fd: int)
    ensures ReadAsked(p, fd) ==> ReadDue(p, fd)
    ensures WriteAsked(p, fd) ==> WriteDue(p, fd)
  {
  }

  lemma DueIsAskedToRead(p: State, fd: int)
    requires ReadDue(p, fd)
    ensures ReadAsked(p, fd)
  {
    if h :| h in p.handshakes && h.client == fd && (!h.trace.state.firstStepCompleted || h.trace.state.output == []) {
      assert fd in HandshakeReads(h);
    } else if r :| r in p.resolvings && r.resolver.fd == fd && r.resolver.requestSended && !r.resolver.responseRecived {
      assert fd in ResolverReads(r.resolver);
    } else if fd != p.listener {
      var e :| e in p.relays && ((e.conn.client == fd && e.conn.cf.count == 0)
                                 || (e.conn.forward == fd && e.conn.fc.count == 0));
      assert fd in R.AskedRead(e.conn);
    }
  }

  lemma DueIsAskedToWrite(p: State, fd: int)
    requires WriteDue(p, fd)
    ensures WriteAsked(p, fd)
  {
    if h :| h in p.handshakes && h.client == fd {
    } else if r :| r in p.resolvings && r.resolver.fd == fd && !r.resolver.requestSended {
      assert fd in ResolverWrites(r.resolver);
    } else {
      var e :| e in p.relays && ((e.conn.forward == fd && e.conn.cf.count > 0)
                                 || (e.conn.client == fd && e.conn.fc.count > 0));
      assert fd in R.AskedWrite(e.conn);
    }
  }

  /** Select is asked about exactly the descriptors that are due. */
  lemma MasksAreExact(p: State)
    requires Prepare(p).Running?
    ensures var q := Prepare(p).state;
            forall fd :: (fd in q.readset <==> ReadDue(q, fd)) && (fd in q.writeset <==> WriteDue(q, fd))
  {
    hide Prepare, R.AskedRead, R.AskedWrite, HandshakeReads, ResolverReads, ResolverWrites, ReadDue, WriteDue;
    PrepareAsked(p);
    PrepareFillsAll(p);
    var q := Prepare(p).state;
    forall fd ensures (fd in q.readset <==> ReadDue(q, fd)) && (fd in q.writeset <==> WriteDue(q, fd)) {
      AskedIsDue(q, fd);
      if ReadDue(q, fd) { DueIsAskedToRead(q, fd); }
      if WriteDue(q, fd) { DueIsAskedToWrite(q, fd); }
    }
  }

  /** The descriptor is one of a connection to be dropped. */
  ghost predicate Dropped(relays: seq<Relaying>, fd: int) {
    exists e <- relays :: e.conn.toDisconnect && (fd == e.conn.client || fd == e.conn.forward)
  }

  lemma {:induction false} SweepSorts(p: State, todo: seq<Relaying>)
    ensures var q := Sweep(p, todo);
            && p.relays <= q.relays && p.closed <= q.closed
            && (forall e <- todo :: if e.conn.toDisconnect then e in q.closed[|p.closed|..]
                  else e in q.relays[|p.relays|..])
            && (forall e <- q.relays[|p.relays|..] :: e in todo && !e.conn.toDisconnect)
            && (forall e <- q.closed[|p.closed|..] :: e in todo && e.conn.toDisconnect)
    decreases |todo|
  {
    hide R.AskedRead, R.AskedWrite;
    if todo != [] {
      var r, q := SweepOne(p, todo[0]), Sweep(p, todo);
      SweepSorts(r, todo[1..]);
      assert forall e <- todo :: e == todo[0] || e in todo[1..];
      if todo[0].conn.toDisconnect {
        assert q.closed[|p.closed|..] == [todo[0]] + q.closed[|r.closed|..];
      } else {
        assert q.relays[|p.relays|..] == [todo[0]] + q.relays[|r.relays|..];
      }
    }
  }

  lemma {:induction false} SweepShuts(p: State, todo: seq<Relaying>)
    ensures var q := Sweep(p, todo);
            && (forall fd :: fd in q.open <==> fd in p.open && !Dropped(todo, fd))
            && q.log == p.log && q.clients == p.clients && q.handshakes == p.handshakes && q.resolvings == p.resolvings
    decreases |todo|
  {
    hide R.AskedRead, R.AskedWrite;
    if todo != [] {
      SweepShuts(SweepOne(p, todo[0]), todo[1..]);
      assert forall e <- todo :: e == todo[0] || e in todo[1..];
    }
  }

  /**
    prepareSets drops exactly the connections that are to be dropped, closes both descriptors of each
    and no other, and leaves everything else as it was.
   */
  lemma PrepareDrops(p: State)
    requires Prepare(p).Running?
    ensures var q := Prepare(p).state;
            && (forall e <- p.relays :: if e.conn.toDisconnect then e in q.closed else e in q.relays)
            && (forall e <- q.relays :: e in p.relays && !e.conn.toDisconnect)
            && p.closed <= q.closed && (forall e <- q.closed[|p.closed|..] :: e in p.relays && e.conn.toDisconnect)
            && (forall fd :: fd in q.open <==> fd in p.open && !Dropped(p.relays, fd))
            && q.log == p.log && q.clients == p.clients && q.handshakes == p.handshakes && q.resolvings == p.resolvings
  {
    hide Sweep;
    PrepareIs(p);
    SweepSorts(p.(relays := [], readset := {p.listener}, writeset := {}), p.relays);
    SweepShuts(p.(relays := [], readset := {p.listener}, writeset := {}), p.relays);
    var q := Prepare(p).state;
    assert q.relays[0..] == q.relays;
  }

  // ---------------------------------------------------------------- processPendingConnections

  /** A handshake in which nothing has happened yet. */
  ghost predicate Unstarted(h: Handshaking, c: Client) {
    && h.client == c.fd && h.trace.received == [] && h.trace.attempts == [] && !h.trace.returned
    && var s := h.trace.state;
       s.client == c.fd && s.input == c.memory && s.output == [] && !s.firstStepCompleted && !s.drop
            && s.dest == NOWHERE
  }

  /** With the listener ready one client is accepted, unless accept fails or select could not look at it. */
  lemma AcceptsOneIff(p: State, k: Kernel)
    requires ValidKernel(k)
    ensures var fd := k.fresh'(p.open);
            && (Pending(p, k).Thrown? <==> p.listener in p.readset && (k.acceptFails || fd >= 1024))
            && (p.listener !in p.readset ==> Pending(p, k) == Running(p))
            && (p.listener in p.readset && Pending(p, k).Running? ==>
                  var q := Pending(p, k).state;
                  && |q.clients| == |p.clients| + 1 && q.clients[..|p.clients|] == p.clients
                  && |q.handshakes| == |p.handshakes| + 1 && q.handshakes[..|p.handshakes|] == p.handshakes
                  && var h, c := q.handshakes[|p.handshakes|], q.clients[|p.clients|];
                     && h.id == |p.clients| && Unstarted(h, c) && c.fd == fd
                     && fd !in p.open && q.open == p.open + {fd} && fd < q.fdMax
                     && q == p.(open := q.open, fdMax := q.fdMax, clients := q.clients, handshakes := q.handshakes))
  {
  }

  // ---------------------------------------------------------------- processWaitingForHandshake

  /** The handshake after a call with what the masks and the kernel have for its client. */
  ghost function FedTrace(p: State, h: Handshaking, k: Kernel): H.Trace
    requires ValidKernel(k) && Tracks(p.clients, h)
  {
    H.Feed(h.trace, H.HandshakeInput(h.client in p.readset, h.client in p.writeset, k.handshakeIo(h.client)))
  }

  /** A relay that nothing has gone through yet. */
  ghost predicate Untouched(c: R.RelayState) {
    && c.cf.count == 0 && c.fc.count == 0 && !c.toDisconnect
    && c.cf.received == [] && c.cf.delivered == [] && c.fc.received == [] && c.fc.delivered == []
  }

  /** Where a pass leaves a handshake: listed, with a resolver, or relayed, and its messages in the log. */
  ghost predicate HandshakeGoes(p: State, h: Handshaking, t: H.Trace, q: State) {
    && Messages(q.log, h.id) == t.received
    && if !t.returned then Handshaking(h.id, h.client, t) in q.handshakes
       else if t.state.dest.domain then
         exists r <- q.resolvings ::
           && r.id == h.id && r.client == h.client && r.port == t.state.dest.port && r.resolver.fd !in p.open
           && !r.resolver.requestSended && !r.resolver.responseRecived && !r.resolver.drop
       else
         exists e <- q.relays ::
           && e.id == h.id && e.conn.client == h.client && e.target == ByText(t.state.dest.addr, t.state.dest.port)
           && e.conn.forward !in p.open && Untouched(e.conn)
  }

  lemma HandshakeOneGoes(p: State, h: Handshaking, k: Kernel)
    requires ValidKernel(k) && HandshakingOk(p.clients, p.log, h)
    ensures var q := HandshakeOne(p, h, k);
            && HandshakeGoes(p, h, FedTrace(p, h, k), q)
            && p.open <= q.open && SameMasks(p, q) && q.clients == p.clients
            && p.handshakes <= q.handshakes && p.resolvings <= q.resolvings && p.relays <= q.relays
            && q.log == p.log + MessageEvent(h.id, h.trace, FedTrace(p, h, k))
  {
    hide H.Feed, H.TraceOk, N.NewBuffer, UpToZero, Messages, Answers;
    FedShape(p, h, k);
    FeedAddrFits(p, h, k);
    FeedMessages(p, h, k);
    var q, t := HandshakeOne(p, h, k), FedTrace(p, h, k);
    if !t.returned {
      assert q.handshakes[|p.handshakes|] == Handshaking(h.id, h.client, t);
    } else if t.state.dest.domain {
      assert q.resolvings[|p.resolvings|] in q.resolvings;
    } else {
      assert q.relays[|p.relays|] in q.relays;
    }
  }

  lemma FedShape(p: State, h: Handshaking, k: Kernel)
    requires ValidKernel(k) && HandshakingOk(p.clients, p.log, h)
    ensures FedTrace(p, h, k) == FeedOne(p, h, k)
  {
  }

  /** A pass logs nothing for clients it does not look at. */
  lemma {:induction false} HandshakePassLog(p: State, todo: seq<Handshaking>, k: Kernel, id: nat)
    requires ValidKernel(k) && (forall h <- todo :: Tracks(p.clients, h)) && forall h <- todo :: h.id != id
    ensures var q := HandshakePass(p, todo, k);
            Messages(q.log, id) == Messages(p.log, id) && Answers(q.log, id) == Answers(p.log, id)
    decreases |todo|
  {
    hide H.Feed, H.TraceOk, N.NewResolver, R.NewRelay, Tracks, Messages, Answers;
    if todo != [] {
      assert todo[0] in todo && forall h <- todo[1..] :: h in todo;
      OtherLog(p.log, MessageEvent(todo[0].id, todo[0].trace, FeedOne(p, todo[0], k)), id);
      FeedAddrFits(p, todo[0], k);
      HandshakePassLog(HandshakeOne(p, todo[0], k), todo[1..], k, id);
    }
  }

  /** What has become of an entry stays so while the pass goes on to others. */
  lemma GoesStays(p: State, h: Handshaking, t: H.Trace, r: State, q: State)
    requires HandshakeGoes(p, h, t, r) && Messages(q.log, h.id) == Messages(r.log, h.id)
    requires r.handshakes <= q.handshakes && r.resolvings <= q.resolvings && r.relays <= q.relays
    ensures HandshakeGoes(p, h, t, q)
  {
    hide Messages, Untouched;
    assert forall e <- r.handshakes :: e in q.handshakes;
    assert forall e <- r.resolvings :: e in q.resolvings;
    assert forall e <- r.relays :: e in q.relays;
  }

  lemma GoesEarlier(p: State, r: State, h: Handshaking, t: H.Trace, q: State)
    requires HandshakeGoes(r, h, t, q) && p.open <= r.open
    ensures HandshakeGoes(p, h, t, q)
  {
    hide Messages, Untouched;
  }

  lemma {:induction false} HandshakePassEach(p: State, todo: seq<Handshaking>, k: Kernel, h: Handshaking)
    requires ValidKernel(k) && Inv(WithHandshakes(p, todo)) && (forall e <- todo :: Tracks(p.clients, e)) && h in todo
    ensures Tracks(p.clients, h) && HandshakeGoes(p, h, FedTrace(p, h, k), HandshakePass(p, todo, k))
    decreases |todo|
  {
    hide Inv, HandshakeOne, Tracks, HandshakeGoes, FedTrace, HandshakingOk, TiedOthers, Owned, Ids, H.Feed;
    assert [todo[0]] + todo[1..] == todo;
    assert todo[0] in todo && forall e <- todo[1..] :: e in todo;
    TakeHandshake(p, todo[0], todo[1..]);
    var r := HandshakeOne(p, todo[0], k);
    HandshakeOneGoes(p, todo[0], k);
    HandshakeOneInv(p, todo[0], todo[1..], k);
    if h in todo[1..] {
      HandshakePassEach(r, todo[1..], k, h);
      SameFed(p, r, h, k);
      GoesEarlier(p, r, h, FedTrace(p, h, k), HandshakePass(r, todo[1..], k));
    } else {
      HandshakePassLog(r, todo[1..], k, h.id);
      HandshakePassMoved(r, todo[1..], k);
      GoesStays(p, h, FedTrace(p, h, k), r, HandshakePass(r, todo[1..], k));
    }
  }

  lemma SameFed(p: State, r: State, h: Handshaking, k: Kernel)
    requires ValidKernel(k) && Tracks(p.clients, h) && r.clients == p.clients && SameMasks(p, r)
    ensures FedTrace(p, h, k) == FedTrace(r, h, k)
  {
  }

  /** processWaitingForHandshake: every listed handshake is fed once and goes where its trace says. */
  lemma HandshakesEach(p: State, k: Kernel, h: Handshaking)
    requires ValidKernel(k) && Inv(p) && h in p.handshakes
    ensures Tracks(p.clients, h) && HandshakeGoes(p, h, FedTrace(p, h, k), Handshakes(p, k))
  {
    hide Inv, HandshakePass, Tracks, HandshakeGoes, FedTrace;
    InvEntries(p);
    var cleared := p.(handshakes := []);
    assert WithHandshakes(cleared, p.handshakes) == p by { assert [] + p.handshakes == p.handshakes; }
    HandshakePassEach(cleared, p.handshakes, k, h);
    SameFed(p, cleared, h, k);
    GoesEarlier(p, cleared, h, FedTrace(p, h, k), Handshakes(p, k));
  }

  // ---------------------------------------------------------------- processWaitingForResolving

  /** Where a pass leaves a resolver: listed with its query perhaps out, or relayed; and its reply in the log. */
  ghost predicate ResolverGoes(p: State, r: Resolving, k: Kernel, q: State)
    requires ValidKernel(k)
  {
    var fd := r.resolver.fd;
    var io := k.resolverIo(fd);
    && Messages(q.log, r.id) == Messages(p.log, r.id)
    && Answers(q.log, r.id) == Answers(p.log, r.id)
         + (if fd in p.readset && io.received.Bytes? then [io.received.data] else [])
    && if fd in p.readset then
         exists e <- q.relays ::
           && e.id == r.id && e.conn.client == r.client && e.conn.forward != fd && Untouched(e.conn)
           && e.target.ByAddress? && e.target.port == r.port
           && (!io.received.Bytes? ==> e.target.address == r.resolver.addr)
       else
         exists e <- q.resolvings ::
           && e.id == r.id && e.client == r.client && e.port == r.port && e.resolver.fd == fd
           && e.resolver.buf == r.resolver.buf && e.resolver.addr == r.resolver.addr && !e.resolver.responseRecived
           && (e.resolver.requestSended <==> r.resolver.requestSended || (fd in p.writeset && io.sent.Took?))
  }

  /** What a call logs for each client. */
  lemma ResolverLogs(log: seq<Event>, r: Resolving, writable: bool, done: bool, io: N.ResolverIo, id: nat)
    ensures var more := log + QueryEvent(r, writable, io) + if done then AnswerEvent(r.id, io) else [];
            && Messages(more, id) == Messages(log, id)
            && Answers(more, id)
                 == Answers(log, id) + if done && id == r.id && io.received.Bytes? then [io.received.data] else []
  {
    hide Messages, Answers, N.Packet;
    var query, answer := QueryEvent(r, writable, io), if done then AnswerEvent(r.id, io) else [];
    LogGrows(log, query, id);
    LogGrows(log + query, answer, id);
    assert Messages(log + query, id) == Messages(log, id) && Answers(log + query, id) == Answers(log, id);
  }

  /** What a call leaves of the resolver, and the log behind it. */
  lemma ResolveOneLeaves(p: State, r: Resolving, k: Kernel)
    requires ValidKernel(k) && N.ValidState(r.resolver) && !r.resolver.responseRecived && ResolveOne(p, r, k).Running?
    ensures var q, fd, io := ResolveOne(p, r, k).state, r.resolver.fd, k.resolverIo(r.resolver.fd);
            && q.log == p.log + QueryEvent(r, fd in p.writeset, io)
                          + (if fd in p.readset then AnswerEvent(r.id, io) else [])
            && SameMasks(p, q) && p.resolvings <= q.resolvings && p.relays <= q.relays
            && if fd in p.readset then
                 && |q.relays| == |p.relays| + 1
                 && var e := q.relays[|p.relays|];
                    && e.id == r.id && e.conn.client == r.client && e.conn.forward !in p.open && Untouched(e.conn)
                    && e.target.ByAddress? && e.target.port == r.port
                    && (!io.received.Bytes? ==> e.target.address == r.resolver.addr)
               else
                 && |q.resolvings| == |p.resolvings| + 1
                 && var e := q.resolvings[|p.resolvings|];
                    && e.id == r.id && e.client == r.client && e.port == r.port && e.resolver.fd == fd
                    && e.resolver.buf == r.resolver.buf && e.resolver.addr == r.resolver.addr
                    && !e.resolver.responseRecived
                    && (e.resolver.requestSended <==>
                          r.resolver.requestSended || (fd in p.writeset && io.sent.Took?))
  {
    hide N.Exchange, QueryEvent, AnswerEvent;
    var fd, io := r.resolver.fd, k.resolverIo(r.resolver.fd);
    N.OneCall(r.resolver, fd in p.readset, fd in p.writeset, io);
    assert p.log + QueryEvent(r, fd in p.writeset, io) + [] == p.log + QueryEvent(r, fd in p.writeset, io);
  }

  lemma ResolveOneGoes(p: State, r: Resolving, k: Kernel)
    requires ValidKernel(k) && N.ValidState(r.resolver) && !r.resolver.responseRecived && ResolveOne(p, r, k).Running?
    ensures var q := ResolveOne(p, r, k).state;
            && (r.resolver.fd in p.open ==> ResolverGoes(p, r, k, q)) && SameMasks(p, q)
            && p.resolvings <= q.resolvings && p.relays <= q.relays
            && forall id: nat :: id != r.id ==>
                 Messages(q.log, id) == Messages(p.log, id) && Answers(q.log, id) == Answers(p.log, id)
  {
    hide ResolveOne, Messages, Answers, QueryEvent, AnswerEvent, Untouched, ValidKernel, N.ValidState;
    var q, fd, io := ResolveOne(p, r, k).state, r.resolver.fd, k.resolverIo(r.resolver.fd);
    ResolveOneLeaves(p, r, k);
    forall id: nat
      ensures Messages(q.log, id) == Messages(p.log, id)
      ensures Answers(q.log, id) == Answers(p.log, id)
                + if fd in p.readset && id == r.id && io.received.Bytes? then [io.received.data] else []
    {
      ResolverLogs(p.log, r, fd in p.writeset, fd in p.readset, io, id);
    }
    if fd in p.readset {
      assert q.relays[|p.relays|] in q.relays;
    } else {
      assert q.resolvings[|p.resolvings|] in q.resolvings;
    }
  }

  lemma {:induction false} ResolvePassLog(p: State, todo: seq<Resolving>, k: Kernel, id: nat)
    requires ValidKernel(k) && ResolveReady(todo) && ResolvePass(p, todo, k).Running? && forall r <- todo :: r.id != id
    ensures var q := ResolvePass(p, todo, k).state;
            Messages(q.log, id) == Messages(p.log, id) && Answers(q.log, id) == Answers(p.log, id)
    decreases |todo|
  {
    hide ResolveOne, Messages, Answers, N.ValidState;
    if todo != [] {
      assert todo[0] in todo && forall r <- todo[1..] :: r in todo;
      ResolveOneGoes(p, todo[0], k);
      ResolvePassLog(ResolveOne(p, todo[0], k).state, todo[1..], k, id);
    }
  }

  ghost predicate ResolveReady(todo: seq<Resolving>) {
    forall r <- todo :: N.ValidState(r.resolver) && !r.resolver.responseRecived
  }

  lemma ResolverStays(p: State, r: Resolving, k: Kernel, m: State, q: State)
    requires ValidKernel(k) && ResolverGoes(p, r, k, m) && m.resolvings <= q.resolvings && m.relays <= q.relays
    requires Messages(q.log, r.id) == Messages(m.log, r.id) && Answers(q.log, r.id) == Answers(m.log, r.id)
    ensures ResolverGoes(p, r, k, q)
  {
    hide Messages, Answers, Untouched;
    assert forall e <- m.resolvings :: e in q.resolvings;
    assert forall e <- m.relays :: e in q.relays;
  }

  lemma ResolverEarlier(p: State, m: State, r: Resolving, k: Kernel, q: State)
    requires ValidKernel(k) && ResolverGoes(m, r, k, q) && SameMasks(p, m)
    requires Messages(m.log, r.id) == Messages(p.log, r.id) && Answers(m.log, r.id) == Answers(p.log, r.id)
    ensures ResolverGoes(p, r, k, q)
  {
    hide Messages, Answers, Untouched;
  }

  lemma {:induction false} ResolvePassEach(p: State, todo: seq<Resolving>, k: Kernel, r: Resolving)
    requires ValidKernel(k) && Inv(WithResolvings(p, todo)) && ResolveReady(todo) && r in todo
    requires ResolvePass(p, todo, k).Running?
    ensures ResolverGoes(p, r, k, ResolvePass(p, todo, k).state)
    decreases |todo|
  {
    hide Inv, ResolveOne, ResolverGoes, ResolvingOk, TiedOthers, Owned, Ids, N.ValidState;
    assert [todo[0]] + todo[1..] == todo;
    assert todo[0] in todo && forall e <- todo[1..] :: e in todo;
    TakeResolving(p, todo[0], todo[1..]);
    var m, q := ResolveOne(p, todo[0], k).state, ResolvePass(p, todo, k).state;
    ResolveOneGoes(p, todo[0], k);
    ResolveOneInv(p, todo[0], todo[1..], k);
    if r in todo[1..] {
      ResolvePassEach(m, todo[1..], k, r);
      ResolverEarlier(p, m, r, k, q);
    } else {
      ResolvePassLog(m, todo[1..], k, r.id);
      ResolvePassMoved(m, todo[1..], k);
      ResolverStays(p, r, k, m, q);
    }
  }

  /** processWaitingForResolving: every listed resolver is called once; at a message, or at its end, it is relayed. */
  lemma ResolvingsEach(p: State, k: Kernel, r: Resolving)
    requires ValidKernel(k) && Inv(p) && r in p.resolvings && Resolvings(p, k).Running?
    ensures ResolverGoes(p, r, k, Resolvings(p, k).state)
  {
    hide Inv, ResolvePass, ResolverGoes, N.ValidState;
    InvEntries(p);
    var cleared := p.(resolvings := []);
    assert WithResolvings(cleared, p.resolvings) == p by { assert [] + p.resolvings == p.resolvings; }
    ResolvePassEach(cleared, p.resolvings, k, r);
    ResolverEarlier(p, cleared, r, k, Resolvings(p, k).state);
  }

  /** The pass is left exactly when a resolver stays that select could not look at. */
  lemma {:induction false} ResolvePassThrownIff(p: State, todo: seq<Resolving>, k: Kernel)
    requires ValidKernel(k) && ResolveReady(todo)
    ensures (forall r <- todo :: N.ValidState(r.resolver))
    ensures ResolvePass(p, todo, k).Thrown? <==>
              exists r <- todo :: r.resolver.fd !in p.readset && r.resolver.fd >= 1024
    decreases |todo|
  {
    hide N.ValidState, N.Exchange, R.NewRelay;
    if todo != [] {
      var e := todo[0];
      assert e in todo && forall r <- todo[1..] :: r in todo;
      N.OneCall(e.resolver, e.resolver.fd in p.readset, e.resolver.fd in p.writeset, k.resolverIo(e.resolver.fd));
      if ResolveOne(p, e, k).Running? {
        ResolvePassThrownIff(ResolveOne(p, e, k).state, todo[1..], k);
        assert forall r <- todo :: r == e || r in todo[1..];
      }
    }
  }

  // ---------------------------------------------------------------- processConnections

  /** A listed relay is called once in the round, with the masks and what the kernel has for its two descriptors. */
  lemma RoundCallsRelay(p: State, k: Kernel, i: nat)
    requires ValidKernel(k) && Inv(p) && Round(p, k).Running? && i < |Prepare(p).state.relays|
    ensures k.ready.Ready? && i < |Round(p, k).state.relays|
    ensures var q, e := Prepare(p).state, Round(p, k).state.relays[i];
            var before, rd, wr := q.relays[i], q.readset * k.ready.rd, q.writeset * k.ready.wr;
            var c := before.conn;
            && e.id == before.id && e.target == before.target && e.memory == before.memory
            && e.conn.client == c.client && e.conn.forward == c.forward
            && e.calls == before.calls
                 + (if rd == {} && wr == {} then []
                    else [R.RelayInput(rd, wr, R.RelayIo(k.received(c.client), k.received(c.forward),
                                                         k.sent(c.forward), k.sent(c.client)))])
  {
    hide Inv, Prepare, Serve, Connections, R.RelayOk, R.Exchange;
    PrepareInv(p);
    var q := Prepare(p).state;
    var s, before := Selected(q, k.ready.rd, k.ready.wr), q.relays[i];
    if s.readset != {} || s.writeset != {} {
      var c := ServedInPlace(s, k);
      ConnectionAt(c, k, i);
      RelayShape(c, before, k);
    } else {
      assert before.calls + [] == before.calls;
    }
  }
}
