// Relays made in a round are called in that same round, before they could ask for anything: with
// which descriptors the masks answer them all the same.
module ProxyNewcomers {
  import opened Bytes
  import opened Sockets
  import H = Handshake
  import N = Resolver
  import R = Relay
  import opened Proxy
  import opened ProxyInvariant
  import opened ProxySteps
  import opened ProxyRun
  import opened ProxyTheorems
  import opened ProxyProgress
  import opened ProxyCalls

  // ---------------------------------------------------------------- where they come from

  /** The handshake that returned 1 and was made into this relay, with a socket that was not open. */
  ghost predicate MadeByHandshake(p: State, h: Handshaking, e: Relaying, k: Kernel)
    requires ValidKernel(k) && Tracks(p.clients, h)
  {
    && FeedOne(p, h, k).returned && !FeedOne(p, h, k).state.dest.domain
    && e.id == h.id && e.conn.client == h.client && e.conn.forward !in p.open
    && e.conn.cf.count == 0 && e.conn.fc.count == 0
  }

  lemma {:induction false} HandshakePassRelays(p: State, todo: seq<Handshaking>, k: Kernel)
    requires ValidKernel(k) && forall h <- todo :: Tracks(p.clients, h)
    ensures var q := HandshakePass(p, todo, k);
            && |p.relays| <= |q.relays|
            && forall i :: |p.relays| <= i < |q.relays| ==> exists h <- todo :: MadeByHandshake(p, h, q.relays[i], k)
    decreases |todo|
  {
    hide HandshakeOne, Tracks, FeedOne;
    if todo != [] {
      assert todo[0] in todo && forall h <- todo[1..] :: h in todo;
      var r, q := HandshakeOne(p, todo[0], k), HandshakePass(p, todo, k);
      HandshakeOneMakes(p, todo[0], k);
      HandshakePassRelays(r, todo[1..], k);
      forall i | |p.relays| <= i < |q.relays| ensures exists h <- todo :: MadeByHandshake(p, h, q.relays[i], k) {
        if i >= |r.relays| {
          var h :| h in todo[1..] && MadeByHandshake(r, h, q.relays[i], k);
          SameFeed(p, r, h, k);
          assert MadeByHandshake(p, h, q.relays[i], k);
        } else {
          HandshakePassMoved(r, todo[1..], k);
          assert q.relays[i] == r.relays[i];
        }
      }
    }
  }

  lemma SameFeed(p: State, r: State, h: Handshaking, k: Kernel)
    requires ValidKernel(k) && Tracks(p.clients, h) && r.clients == p.clients && SameMasks(p, r)
    ensures FeedOne(r, h, k) == FeedOne(p, h, k)
  {
  }

  lemma HandshakeOneMakes(p: State, h: Handshaking, k: Kernel)
    requires ValidKernel(k) && Tracks(p.clients, h)
    ensures var r := HandshakeOne(p, h, k);
            && p.open <= r.open && SameMasks(p, r)
            && |p.relays| <= |r.relays| <= |p.relays| + 1
            && (|r.relays| > |p.relays| ==> MadeByHandshake(p, h, r.relays[|p.relays|], k))
  {
    hide FeedOne, N.NewResolver;
    FeedAddrFits(p, h, k);
  }

  /** The resolver that reported completion and was made into this relay. */
  ghost predicate MadeByResolver(p: State, r: Resolving, e: Relaying) {
    && r.resolver.fd in p.readset && e.id == r.id && e.conn.client == r.client
    && e.conn.cf.count == 0 && e.conn.fc.count == 0
  }

  /** A descriptor of the pass that was open before it can be taken again once its resolver is done. */
  lemma {:induction false} ResolvePassRelays(p: State, todo: seq<Resolving>, k: Kernel)
    requires ValidKernel(k) && forall r <- todo :: N.ValidState(r.resolver)
    requires ResolvePass(p, todo, k).Running?
    ensures var q := ResolvePass(p, todo, k).state;
            && |p.relays| <= |q.relays|
            && (forall i :: |p.relays| <= i < |q.relays| ==> exists r <- todo :: MadeByResolver(p, r, q.relays[i]))
            && (forall i :: |p.relays| <= i < |q.relays| && q.relays[i].conn.forward in p.open ==>
                  exists r <- todo :: r.resolver.fd in p.readset && r.resolver.fd == q.relays[i].conn.forward)
    decreases |todo|
  {
    hide ResolveOne, N.ValidState;
    if todo != [] {
      assert todo[0] in todo && forall r <- todo[1..] :: r in todo;
      var m, q := ResolveOne(p, todo[0], k).state, ResolvePass(p, todo, k).state;
      ResolveOneMakes(p, todo[0], k);
      ResolvePassRelays(m, todo[1..], k);
      ResolvePassMoved(m, todo[1..], k);
      forall i | |p.relays| <= i < |q.relays| ensures exists r <- todo :: MadeByResolver(p, r, q.relays[i]) {
        if i >= |m.relays| {
          var r :| r in todo[1..] && MadeByResolver(m, r, q.relays[i]);
          assert MadeByResolver(p, r, q.relays[i]);
        }
      }
      forall i | |p.relays| <= i < |q.relays| && q.relays[i].conn.forward in p.open
        ensures exists r <- todo :: r.resolver.fd in p.readset && r.resolver.fd == q.relays[i].conn.forward
      {
        if i >= |m.relays| && q.relays[i].conn.forward in m.open {
          var r :| r in todo[1..] && r.resolver.fd in m.readset && r.resolver.fd == q.relays[i].conn.forward;
        }
      }
    }
  }

  lemma ResolveOneMakes(p: State, r: Resolving, k: Kernel)
    requires ValidKernel(k) && N.ValidState(r.resolver) && ResolveOne(p, r, k).Running?
    ensures var m := ResolveOne(p, r, k).state;
            && SameMasks(p, m) && |p.relays| <= |m.relays| <= |p.relays| + 1
            && (|m.relays| > |p.relays| ==>
                  MadeByResolver(p, r, m.relays[|p.relays|]) && m.relays[|p.relays|].conn.forward !in p.open)
            && (forall fd <- p.open :: fd in m.open || (fd == r.resolver.fd && fd in p.readset))
  {
    hide N.AfterReceive, N.AfterSend;
  }

  // ---------------------------------------------------------------- what the masks answer them

  /** Nobody asks for the descriptor of a client that waits for its resolver. */
  lemma ResolvingClientUnasked(p: State, e: Resolving)
    requires Owns(p) && MasksAsked(p) && e in p.resolvings
    ensures e.client !in p.readset && e.client !in p.writeset
  {
    hide Owns, ReadAsked, WriteAsked, R.AskedRead, R.AskedWrite, H.WantsRead, HandshakeFds, RelayFds;
    ResolvingClientApart(p, e);
    if e.client in p.readset { ReadersOwn(p, e.client); }
    if e.client in p.writeset { WritersOwn(p, e.client); }
  }

  lemma ResolvingClientApart(p: State, e: Resolving)
    requires Owns(p) && e in p.resolvings
    ensures e.client != e.resolver.fd && e.client != p.listener
    ensures forall h <- p.handshakes :: e.client !in HandshakeFds(h)
    ensures forall r <- p.resolvings :: r != e ==> e.client !in ResolveFds(r)
    ensures forall d <- p.relays :: e.client !in RelayFds(d)
  {
    hide Gather, RelayFds;
    var fd, rest := e.client, Gather(p.resolvings, ResolveFds);
    GatherOne(p.resolvings, ResolveFds, e);
    PartsApart(p, multiset{fd}, multiset{e.resolver.fd}, fd);
    PartsApart(p, multiset{p.listener}, rest, fd);
    forall h | h in p.handshakes ensures fd !in HandshakeFds(h) {
      GatherOne(p.handshakes, HandshakeFds, h);
      PartsApart(p, HandshakeFds(h), rest, fd);
    }
    forall d | d in p.relays ensures fd !in RelayFds(d) {
      GatherOne(p.relays, RelayFds, d);
      PartsApart(p, rest, RelayFds(d), fd);
    }
    forall r | r in p.resolvings && r != e ensures fd !in ResolveFds(r) {
      GatherTwo(p.resolvings, ResolveFds, r, e);
      PartsApart(p, ResolveFds(r), ResolveFds(e), fd);
    }
  }

  /** The handshake's call read something: a message, or the end of the stream. */
  predicate ReadInCall(before: H.Trace, after: H.Trace) {
    |after.received| > |before.received| || after.attempts == before.attempts
  }

  /** A handshake called as it asked returns 1 with its client ready to read exactly if it has just read. */
  lemma ReturnsReady(p: State, h: Handshaking, k: Kernel)
    requires ValidKernel(k) && Tracks(p.clients, h) && HandshakeCalledAsAsked(p, h) && FeedOne(p, h, k).returned
    ensures h.client in p.readset <==> ReadInCall(h.trace, FeedOne(p, h, k))
  {
    hide H.MethodReply, H.RequestReply, H.ReadRequest, H.InputAfter, H.Replies;
  }

  /** The relay was listed when select was asked, and is called only as it asked. */
  ghost predicate RelayCalledAsAsked(p: State, e: Relaying) {
    R.Answers(e.conn, p.readset, p.writeset)
  }

  /** What the relays of processConnections are, from the three passes before. */
  ghost predicate RelaysJoin(q: State, b: State, c: State) {
    q.relays <= b.relays && b.relays <= c.relays && SameMasks(b, c)
  }

  lemma RelaysJoined(s: State, k: Kernel)
    requires ValidKernel(k) && Inv(s) && Pending(s, k).Running? && Resolvings(AtResolvers(s, k), k).Running?
    ensures RelaysJoin(s, AtResolvers(s, k), Resolvings(AtResolvers(s, k), k).state)
    ensures SameMasks(s, AtResolvers(s, k))
  {
    hide Inv, HandshakePass, ResolvePass;
    PendingInv(s, k);
    PendingMoves(s, k);
    HandshakesStep(Pending(s, k).state, k);
    ResolvingsStep(AtResolvers(s, k), k);
  }

  /** A relay made from a handshake in this round: its own socket is never ready; its client's sometimes is. */
  ghost predicate HandshakeNewcomer(a: State, c: State, e: Relaying, k: Kernel)
    requires ValidKernel(k) && forall h <- a.handshakes :: Tracks(a.clients, h)
  {
    && e.conn.forward !in c.readset && e.conn.forward !in c.writeset
    && exists h <- a.handshakes ::
         MadeByHandshake(a, h, e, k) && (e.conn.client in c.readset <==> ReadInCall(h.trace, FeedOne(a, h, k)))
  }

  /**
    A relay made from a resolver in this round: its client is never ready, and its own socket is ready
    to read exactly if it has the descriptor of a resolver that was listed before the pass.
   */
  ghost predicate ResolverNewcomer(b: State, c: State, e: Relaying) {
    && e.conn.cf.count == 0 && e.conn.fc.count == 0
    && e.conn.client !in c.readset && e.conn.client !in c.writeset
    && (e.conn.forward in c.readset <==> exists r <- b.resolvings :: r.resolver.fd == e.conn.forward)
    && e.conn.forward !in c.writeset
  }

  lemma MadeFrom(a: State, k: Kernel, e: Relaying) returns (h: Handshaking)
    requires ValidKernel(k) && Inv(a)
    requires |a.relays| <= |Handshakes(a, k).relays| && e in Handshakes(a, k).relays[|a.relays|..]
    ensures h in a.handshakes && Tracks(a.clients, h) && MadeByHandshake(a, h, e, k)
  {
    hide Inv, HandshakePass, Tracks, FeedOne, ValidKernel;
    InvEntries(a);
    var cleared := a.(handshakes := []);
    HandshakePassRelays(cleared, a.handshakes, k);
    h :| h in a.handshakes && MadeByHandshake(cleared, h, e, k);
    SameFeed(a, cleared, h, k);
  }

  lemma HandshakeNewcomers(a: State, k: Kernel, e: Relaying)
    requires ValidKernel(k) && Inv(a) && a.readset <= a.open && a.writeset <= a.open
    requires forall h <- a.handshakes :: Tracks(a.clients, h) && HandshakeCalledAsAsked(a, h)
    requires |a.relays| <= |Handshakes(a, k).relays| && e in Handshakes(a, k).relays[|a.relays|..]
    ensures HandshakeNewcomer(a, a, e, k)
  {
    hide Inv, Handshakes, Tracks, FeedOne, ReadInCall, HandshakeCalledAsAsked, ValidKernel;
    var h := MadeFrom(a, k, e);
    ReturnsReady(a, h, k);
  }

  lemma DoneFrom(b: State, k: Kernel, e: Relaying)
    requires ValidKernel(k) && Inv(b)
    requires Resolvings(b, k).Running? && |b.relays| <= |Resolvings(b, k).state.relays|
    requires e in Resolvings(b, k).state.relays[|b.relays|..]
    ensures exists r <- b.resolvings :: MadeByResolver(b, r, e)
    ensures e.conn.forward in b.open ==>
              exists r <- b.resolvings :: r.resolver.fd in b.readset && r.resolver.fd == e.conn.forward
  {
    hide Inv, ResolvePass, ValidKernel;
    InvEntries(b);
    var cleared := b.(resolvings := []);
    ResolvePassRelays(cleared, b.resolvings, k);
    var r :| r in b.resolvings && MadeByResolver(cleared, r, e);
    assert MadeByResolver(b, r, e);
  }

  lemma ResolverNewcomers(b: State, k: Kernel, e: Relaying)
    requires ValidKernel(k) && Inv(b) && b.readset <= b.open && b.writeset <= b.open
    requires forall r <- b.resolvings :: ResolverCalledAsAsked(b, r)
    requires forall r <- b.resolvings ::
               r.resolver.fd in b.readset ==> r.client !in b.readset && r.client !in b.writeset
    requires Resolvings(b, k).Running? && |b.relays| <= |Resolvings(b, k).state.relays|
    requires e in Resolvings(b, k).state.relays[|b.relays|..]
    ensures ResolverNewcomer(b, b, e)
  {
    hide Inv, Resolvings, Owns, ValidKernel;
    InvOwns(b);
    DoneFrom(b, k, e);
    var fd := e.conn.forward;
    if r :| r in b.resolvings && r.resolver.fd == fd {
      assert fd in ResolveFds(r);
      OpenIffListed(b, fd);
    }
  }

  /** What the passes know about masks and open descriptors when they start. */
  ghost predicate Passes(q: State, s: State, a: State, b: State, k: Kernel)
    requires ValidKernel(k)
  {
    && Owns(q) && MasksAsked(q) && k.ready.Ready?
    && s == q.(readset := q.readset * k.ready.rd, writeset := q.writeset * k.ready.wr)
    && Pending(s, k) == Running(a) && Inv(a) && b == Handshakes(a, k)
  }

  lemma PassMasks(q: State, s: State, a: State, b: State, k: Kernel)
    requires ValidKernel(k) && Passes(q, s, a, b, k)
    ensures SameMasks(s, a) && SameMasks(a, b)
    ensures a.readset <= a.open && a.writeset <= a.open && b.readset <= b.open && b.writeset <= b.open
    ensures a.relays == s.relays
    ensures forall r <- b.resolvings :: r in q.resolvings || r.resolver.fd !in b.readset
  {
    hide Inv, Owns, MasksAsked, HandshakePass;
    MasksAreOpen(q);
    PendingMoves(s, k);
    HandshakesStep(a, k);
    InvEntries(a);
    HandshakePassOpens(a.(handshakes := []), a.handshakes, k);
  }

  lemma HandshakesCalled(q: State, s: State, a: State, b: State, k: Kernel)
    requires ValidKernel(k) && Passes(q, s, a, b, k)
    requires |a.relays| <= |b.relays| && forall h <- a.handshakes :: HandshakeCalledAsAsked(a, h)
    ensures forall h <- a.handshakes :: Tracks(a.clients, h)
    ensures forall e <- b.relays[|a.relays|..] :: HandshakeNewcomer(a, a, e, k)
  {
    hide Inv, Handshakes, Tracks, HandshakeNewcomer, HandshakeCalledAsAsked, ValidKernel, Owns, MasksAsked;
    PassMasks(q, s, a, b, k);
    InvEntries(a);
    forall e | e in b.relays[|a.relays|..] ensures HandshakeNewcomer(a, a, e, k) {
      HandshakeNewcomers(a, k, e);
    }
  }

  lemma ResolversCalled(q: State, s: State, a: State, b: State, c: State, k: Kernel)
    requires ValidKernel(k) && Passes(q, s, a, b, k)
    requires Resolvings(b, k) == Running(c) && |b.relays| <= |c.relays|
    requires forall r <- b.resolvings :: ResolverCalledAsAsked(b, r)
    ensures forall e <- c.relays[|b.relays|..] :: ResolverNewcomer(b, b, e)
  {
    hide Inv, Owns, MasksAsked, Handshakes, Resolvings, ResolverNewcomer, ResolverCalledAsAsked;
    PassMasks(q, s, a, b, k);
    forall r | r in b.resolvings && r.resolver.fd in b.readset
      ensures r.client !in b.readset && r.client !in b.writeset
    {
      ResolvingClientUnasked(q, r);
    }
    forall e | e in c.relays[|b.relays|..] ensures ResolverNewcomer(b, b, e) {
      ResolverNewcomers(b, k, e);
    }
  }

  /**
    In every round, whatever select answers: the relays listed when it was asked are called only as
    they asked. Those made in the round are called all the same. One made from a handshake finds its
    client ready exactly if that handshake has read in this very call, so that the data select saw is
    already gone; one made from a resolver never does, and finds its own socket ready exactly if it
    got the descriptor of a resolver whose socket was closed in this pass.
   */
  lemma RelaysCalled(p: State, k: Kernel)
    requires ValidKernel(k) && Inv(p) && Prepare(p).Running? && k.ready.Ready?
    ensures Inv(Prepare(p).state)
    ensures var s := Selected(Prepare(p).state, k.ready.rd, k.ready.wr);
            Pending(s, k).Running? && Resolvings(AtResolvers(s, k), k).Running? ==>
              var a, b, c := Pending(s, k).state, AtResolvers(s, k), Resolvings(AtResolvers(s, k), k).state;
              && RelaysJoin(s, b, c)
              && (forall h <- a.handshakes :: Tracks(a.clients, h))
              && (forall e <- s.relays :: RelayCalledAsAsked(c, e))
              && (forall e <- b.relays[|s.relays|..] :: HandshakeNewcomer(a, c, e, k))
              && (forall e <- c.relays[|b.relays|..] :: ResolverNewcomer(b, c, e))
  {
    hide Inv, Prepare, Owns, MasksAsked, HandshakePass, ResolvePass, Tracks, HandshakeCalledAsAsked,
         ResolverCalledAsAsked, Pending, Handshakes, Resolvings, RelayCalledAsAsked;
    CalledAsAsked(p, k);
    PrepareInv(p);
    PrepareAsked(p);
    var q := Prepare(p).state;
    InvOwns(q);
    MasksAreOpen(q);
    var s := Selected(q, k.ready.rd, k.ready.wr);
    if Pending(s, k).Running? && Resolvings(AtResolvers(s, k), k).Running? {
      PendingInv(s, k);
      var a, b, c := Pending(s, k).state, AtResolvers(s, k), Resolvings(AtResolvers(s, k), k).state;
      RelaysJoined(s, k);
      ListedCalled(q, s, c, k);
      PassMasks(q, s, a, b, k);
      HandshakesCalled(q, s, a, b, k);
      ResolversCalled(q, s, a, b, c, k);
      SameAnswers(a, b, c, k);
    }
  }

  lemma ListedCalled(q: State, s: State, c: State, k: Kernel)
    requires Owns(q) && MasksAsked(q) && k.ready.Ready? && SameMasks(s, c)
    requires s == q.(readset := q.readset * k.ready.rd, writeset := q.writeset * k.ready.wr)
    ensures forall e <- s.relays :: RelayCalledAsAsked(c, e)
  {
    hide Owns, MasksAsked, R.Answers;
    forall e | e in s.relays ensures RelayCalledAsAsked(c, e) {
      SelectAnswers(q, e, k.ready.rd, k.ready.wr);
    }
  }

  /** The masks stay what select answered, pass after pass. */
  lemma SameAnswers(a: State, b: State, c: State, k: Kernel)
    requires ValidKernel(k) && SameMasks(a, c) && SameMasks(b, c)
    requires forall h <- a.handshakes :: Tracks(a.clients, h)
    ensures forall e :: HandshakeNewcomer(a, a, e, k) ==> HandshakeNewcomer(a, c, e, k)
    ensures forall e :: ResolverNewcomer(b, b, e) ==> ResolverNewcomer(b, c, e)
  {
    hide Tracks, FeedOne, MadeByHandshake, ReadInCall;
  }

  /** What a new relay's first call hands to recv: both its descriptors, as far as the masks have them. */
  lemma NewcomerReads(c: State, e: Relaying, k: Kernel)
    requires ValidKernel(k) && R.RelayOk(e.conn) && e.conn.cf.count == 0 && e.conn.fc.count == 0
    ensures var r := RelayOne(c, e, k).conn;
            && r.cf.received == e.conn.cf.received
                 + (if e.conn.client in c.readset then R.Chunks(k.received(e.conn.client)) else [])
            && r.fc.received == e.conn.fc.received
                 + (if e.conn.forward in c.readset then R.Chunks(k.received(e.conn.forward)) else [])
  {
    RelayShape(c, e, k);
  }

  // ---------------------------------------------------------------- both happen

  /**
    A greeted client whose request for an IPv4 address is read and answered in one call: the relay
    made from it is called with the client still in the mask of readable descriptors.
   */
  lemma ReadAgainUnasked(p: State, h: Handshaking, k: Kernel, a: seq<byte>, port: nat)
    requires ValidKernel(k) && Tracks(p.clients, h)
    requires |a| == 4 && port < 65536
    requires h.trace.state.firstStepCompleted && h.trace.state.output == [] && !h.trace.state.drop
    requires h.client in p.readset && h.client in p.writeset
    requires k.handshakeIo(h.client) == H.HandshakeIo(Bytes(H.Ipv4Request(a, port)), Took(10))
    ensures var q := HandshakeOne(p, h, k);
            && |q.relays| == |p.relays| + 1
            && var e := q.relays[|p.relays|];
               e.id == h.id && e.conn.client == h.client && e.conn.client in q.readset && e.conn.cf.count == 0
  {
    hide H.MethodReply, H.RequestReply, H.InputAfter, H.Replies, H.QuadText, H.ReadRequest;
    H.Ipv4RequestRead(a, port, h.trace.state.input);
  }

  /**
    Two resolvers done in one pass: if the kernel gives the second relay the descriptor that the
    first resolver has just been closed on, that relay's socket is ready before it was asked about.
   */
  lemma ClosedDescriptorComesBack(p: State, r1: Resolving, r2: Resolving, k: Kernel)
    requires ValidKernel(k) && N.ValidState(r1.resolver) && N.ValidState(r2.resolver)
    requires !r1.resolver.responseRecived && !r2.resolver.responseRecived && r1.resolver.fd != r2.resolver.fd
    requires r1.resolver.fd in p.readset && r2.resolver.fd in p.readset && {r1.resolver.fd, r2.resolver.fd} <= p.open
    requires k.fresh'(p.open + {k.fresh'(p.open)} - {r1.resolver.fd}) == r1.resolver.fd
    ensures var o := ResolvePass(p, [r1, r2], k);
            && o.Running? && |o.state.relays| == |p.relays| + 2
            && o.state.relays[|p.relays| + 1].id == r2.id
            && o.state.relays[|p.relays| + 1].conn.forward == r1.resolver.fd
            && o.state.relays[|p.relays| + 1].conn.forward in o.state.readset
  {
    hide N.AfterReceive;
    var m := ResolveOne(p, r1, k).state;
    assert [r1, r2][1..] == [r2] && [r2][1..] == [];
    assert ResolvePass(m, [r2], k) == ResolvePass(ResolveOne(m, r2, k).state, [], k);
  }
}
