// Which handshaking clients the server can still get any further, over its rounds.
module ProxyLiveness {
  import opened Bytes
  import opened Sockets
  import H = Handshake
  import N = Resolver
  import R = Relay
  import opened Proxy
  import opened ProxyInvariant
  import opened ProxySteps
  import opened ProxyRun
  import opened ProxyTheorems
  import opened ProxyProgress
  import opened ProxyGuarantees
  import opened ProxyCalls
  import opened ProxyRounds

  // ---------------------------------------------------------------- resolvers within reach

  ghost predicate Within(p: State) {
    forall r <- p.resolvings :: r.resolver.fd < FD_SETSIZE
  }

  lemma {:induction false} ResolvePassWithin(p: State, todo: seq<Resolving>, k: Kernel)
    requires ValidKernel(k) && (forall e <- todo :: N.ValidState(e.resolver)) && ResolvePass(p, todo, k).Running?
    requires Within(p)
    ensures Within(ResolvePass(p, todo, k).state)
    decreases |todo|
  {
    hide N.Exchange, R.NewRelay, N.ValidState;
    if todo != [] {
      assert todo[0] in todo && forall e <- todo[1..] :: e in todo;
      ResolvePassWithin(ResolveOne(p, todo[0], k).state, todo[1..], k);
    }
  }

  lemma RoundWithin(p: State, k: Kernel)
    requires ValidKernel(k) && Inv(p) && Within(p) && Round(p, k).Running?
    ensures Within(Round(p, k).state)
  {
    hide Inv, Prepare, Pending, HandshakePass, ResolvePass;
    PrepareInv(p);
    PrepareMoves(p);
    var s := Selected(Prepare(p).state, k.ready.rd, k.ready.wr);
    if s.readset != {} || s.writeset != {} {
      PendingInv(s, k);
      var b := Handshakes(Pending(s, k).state, k);
      InvEntries(b);
      ResolvePassWithin(b.(resolvings := []), b.resolvings, k);
    }
  }

  lemma {:induction false} RunWithin(p: State, ks: seq<Kernel>)
    requires ValidKernels(ks) && Inv(p) && Within(p) && Run(p, ks).Running?
    ensures Within(Run(p, ks).state)
    decreases |ks|
  {
    hide Inv, Round, ValidKernel, Within;
    if ks != [] {
      RoundWithin(p, ks[0]);
      RunWithin(Round(p, ks[0]).state, ks[1..]);
    }
  }

  lemma {:induction false} FillResolvingsRuns(p: State, todo: seq<Resolving>)
    requires forall r <- todo :: r.resolver.fd < FD_SETSIZE
    ensures FillResolvings(p, todo).Running?
    decreases |todo|
  {
    hide ResolverReads, ResolverWrites;
    if todo != [] {
      var r := todo[0].resolver;
      assert todo[0] in todo && forall x <- todo[1..] :: x in todo;
      FillResolvingsRuns(p.(readset := p.readset + ResolverReads(r), writeset := p.writeset + ResolverWrites(r),
                            fdMax := Reach(p.fdMax, r.fd)), todo[1..]);
    }
  }

  lemma {:induction false} SweepCloses(p: State, todo: seq<Relaying>)
    ensures Sweep(p, todo).open <= p.open
    decreases |todo|
  {
    if todo != [] {
      SweepCloses(SweepOne(p, todo[0]), todo[1..]);
    }
  }

  lemma PrepareRuns(p: State)
    requires Within(p)
    ensures Prepare(p).Running? && Prepare(p).state.open <= p.open && Within(Prepare(p).state)
  {
    hide Sweep, FillHandshakes, FillResolvings;
    var cleared := p.(relays := [], readset := {p.listener}, writeset := {});
    var swept := Sweep(cleared, p.relays);
    SweepMoves(cleared, p.relays);
    SweepCloses(cleared, p.relays);
    FillHandshakesMasks(swept, swept.handshakes);
    FillResolvingsRuns(FillHandshakes(swept, swept.handshakes), swept.resolvings);
    PrepareIs(p);
  }

  // ---------------------------------------------------------------- a kernel for one client

  /** A descriptor that is not open, of n + 1 candidates. */
  function Avoid(s: set<int>, n: nat): (fd: int)
    requires |s| <= n
    ensures 0 <= fd <= n && fd !in s
  {
    if n !in s then n else Avoid(s - {n}, n - 1)
  }

  /** There is a descriptor left that select can look at. */
  ghost predicate HasFree(open: set<int>) {
    exists fd :: 0 <= fd < FD_SETSIZE && fd !in open
  }

  ghost function FreeFd(open: set<int>): (fd: int)
    ensures fd !in open && (HasFree(open) ==> fd < FD_SETSIZE)
  {
    if HasFree(open) then var fd :| 0 <= fd < FD_SETSIZE && fd !in open; fd else Avoid(open, |open|)
  }

  /** A kernel that makes only these descriptors ready, and has the same answers for all of them. */
  ghost function Solo(rd: set<int>, wr: set<int>, hio: H.HandshakeIo, rio: N.ResolverIo,
                      got: Received, put: Sent): (k: Kernel)
    requires H.ValidIo(hio) && !hio.received.RecvWouldBlock? && N.ValidIo(rio) && Fits(got, R.BUFSIZE)
    ensures ValidKernel(k) && k.ready == Ready(rd, wr) && !k.acceptFails
    ensures forall open :: HasFree(open) ==> k.fresh'(open) < FD_SETSIZE
    ensures forall fd :: k.handshakeIo(fd) == hio && k.resolverIo(fd) == rio
    ensures forall fd :: k.received(fd) == got && k.sent(fd) == put
  {
    Kernel(open => FreeFd(open), Ready(rd, wr), false, _ => hio, _ => rio, _ => got, _ => put, seq(N.BUFFER, _ => 0), 0)
  }

  /** The socket takes a query if it is offered one, and gives this message. */
  function Resolves(reply: seq<byte>): (io: N.ResolverIo)
    requires 1 <= |reply| <= 65536
    ensures N.ValidIo(io)
  {
    N.ResolverIo(Took(0), Bytes(reply), seq(8, _ => 0), 0)
  }

  /** Only this client does anything, as a client in its handshake. */
  ghost function OnlyThis(client: int, hio: H.HandshakeIo): (k: Kernel)
    requires H.ValidIo(hio) && !hio.received.RecvWouldBlock?
    ensures ValidKernel(k)
  {
    Solo({client}, {client}, hio, Resolves([0]), RecvWouldBlock, SendWouldBlock)
  }

  // ---------------------------------------------------------------- the passes under that kernel

  lemma {:induction false} HandshakePassAppend(p: State, a: seq<Handshaking>, b: seq<Handshaking>, k: Kernel)
    requires ValidKernel(k) && (forall e <- a :: Tracks(p.clients, e)) && forall e <- b :: Tracks(p.clients, e)
    ensures (forall e <- a + b :: Tracks(p.clients, e)) && HandshakePass(p, a, k).clients == p.clients
    ensures HandshakePass(p, a + b, k) == HandshakePass(HandshakePass(p, a, k), b, k)
    decreases |a|
  {
    hide HandshakeOne, Tracks;
    if a == [] {
      assert a + b == b;
    } else {
      assert a[0] in a && forall e <- a[1..] :: e in a;
      assert (a + b)[0] == a[0] && (a + b)[1..] == a[1..] + b;
      HandshakePassAppend(HandshakeOne(p, a[0], k), a[1..], b, k);
    }
  }

  lemma PassOne(p: State, e: Handshaking, k: Kernel)
    requires ValidKernel(k) && Tracks(p.clients, e)
    ensures HandshakePass(p, [e], k) == HandshakeOne(p, e, k)
  {
    hide HandshakeOne, Tracks;
    assert [e][1..] == [];
  }

  /** Handshakes that the masks leave out are kept as they are. */
  lemma {:induction false} QuietHandshakes(p: State, todo: seq<Handshaking>, k: Kernel)
    requires ValidKernel(k) && forall e <- todo :: Tracks(p.clients, e)
    requires forall e <- todo :: e.client !in p.readset && e.client !in p.writeset
    ensures HandshakePass(p, todo, k) == p.(handshakes := p.handshakes + todo)
    decreases |todo|
  {
    hide Tracks, HandshakeOne;
    if todo == [] {
      assert p.handshakes + todo == p.handshakes;
    } else {
      assert todo[0] in todo && forall e <- todo[1..] :: e in todo;
      QuietHandshake(p, todo[0], k);
      QuietHandshakes(HandshakeOne(p, todo[0], k), todo[1..], k);
      assert p.handshakes + [todo[0]] + todo[1..] == p.handshakes + todo;
    }
  }

  lemma QuietHandshake(p: State, e: Handshaking, k: Kernel)
    requires ValidKernel(k) && Tracks(p.clients, e) && e.client !in p.readset && e.client !in p.writeset
    ensures HandshakeOne(p, e, k) == p.(handshakes := p.handshakes + [e])
  {
    var t := FeedOne(p, e, k);
    assert e.trace.received + [] == e.trace.received && e.trace.attempts + [] == e.trace.attempts;
    assert p.log + [] == p.log;
    assert t == e.trace && e.(trace := t) == e;
  }

  /** So are resolvers, within the reach of select. */
  lemma {:induction false} QuietResolvers(p: State, todo: seq<Resolving>, k: Kernel)
    requires ValidKernel(k) && forall e <- todo :: N.ValidState(e.resolver)
    requires forall e <- todo ::
               e.resolver.fd !in p.readset && e.resolver.fd !in p.writeset && e.resolver.fd < FD_SETSIZE
    ensures ResolvePass(p, todo, k).Running?
    ensures var q := ResolvePass(p, todo, k).state; q == p.(resolvings := p.resolvings + todo, fdMax := q.fdMax)
    decreases |todo|
  {
    hide N.ValidState, ResolveOne;
    if todo == [] {
      assert p.resolvings + todo == p.resolvings;
    } else {
      assert todo[0] in todo && forall e <- todo[1..] :: e in todo;
      QuietResolver(p, todo[0], k);
      QuietResolvers(ResolveOne(p, todo[0], k).state, todo[1..], k);
      assert p.resolvings + [todo[0]] + todo[1..] == p.resolvings + todo;
    }
  }

  lemma QuietResolver(p: State, e: Resolving, k: Kernel)
    requires ValidKernel(k) && N.ValidState(e.resolver) && e.resolver.fd < FD_SETSIZE
    requires e.resolver.fd !in p.readset && e.resolver.fd !in p.writeset
    ensures ResolveOne(p, e, k) == Running(p.(resolvings := p.resolvings + [e], fdMax := Reach(p.fdMax, e.resolver.fd)))
  {
    assert p.log + [] == p.log;
    assert e.(resolver := e.resolver) == e;
  }

  /** No other handshake has the client's descriptor. */
  lemma OthersApart(p: State, a: seq<Handshaking>, e: Handshaking, b: seq<Handshaking>)
    requires Owns(p) && p.handshakes == a + [e] + b
    ensures forall h <- a + b :: h.client != e.client
  {
    hide Gather, ResolveFds, RelayFds;
    GatherMiddle(a, e, b, HandshakeFds);
    forall h | h in a + b ensures h.client != e.client {
      if h in a { GatherOne(a, HandshakeFds, h); } else { GatherOne(b, HandshakeFds, h); }
      assert HandshakeFds(h) + HandshakeFds(e) <= Gather(p.handshakes, HandshakeFds);
      PartsApart(p, HandshakeFds(h), HandshakeFds(e), e.client);
    }
  }

  /** In a pass under that kernel the client's own handshake is called, and nobody else's. */
  lemma OneHandshake(s: State, e: Handshaking, k: Kernel) returns (a: seq<Handshaking>, b: seq<Handshaking>)
    requires ValidKernel(k) && Inv(s) && e in s.handshakes
    requires s.readset <= {e.client} && s.writeset <= {e.client}
    ensures s.handshakes == a + [e] + b && Tracks(s.clients, e)
    ensures var r := HandshakeOne(s.(handshakes := a), e, k); Handshakes(s, k) == r.(handshakes := r.handshakes + b)
  {
    hide Inv, Owns, Tracks, HandshakeOne, HandshakePass, ValidKernel;
    InvEntries(s);
    InvOwns(s);
    var i :| 0 <= i < |s.handshakes| && s.handshakes[i] == e;
    a, b := s.handshakes[..i], s.handshakes[i + 1..];
    assert s.handshakes == a + [e] + b;
    OthersApart(s, a, e, b);
    var p := s.(handshakes := []);
    assert forall h <- a :: h in a + b;
    assert forall h <- b :: h in a + b;
    HandshakePassAppend(p, a + [e], b, k);
    HandshakePassAppend(p, a, [e], k);
    QuietHandshakes(p, a, k);
    assert [] + a == a;
    var m := s.(handshakes := a);
    PassOne(m, e, k);
    HandshakeOneMoved(m, e, k);
    QuietHandshakes(HandshakeOne(m, e, k), b, k);
  }

  /** A client that sends this when it is waited for, and takes this when it is sent something. */
  function Doing(hio: H.HandshakeIo): H.HandshakeInput {
    H.HandshakeInput(true, true, hio)
  }

  /** Readable exactly while it waits for a message, the handshake is fed like that client's. */
  lemma FedByClient(p: State, e: Handshaking, k: Kernel)
    requires ValidKernel(k) && Tracks(p.clients, e) && e.client in p.writeset
    requires e.client in p.readset <==> H.WantsRead(e.trace.state)
    ensures H.Shape(e.trace.state) && H.ValidIo(k.handshakeIo(e.client))
    ensures FedTrace(p, e, k) == FeedOne(p, e, k) == H.Feed(e.trace, Doing(k.handshakeIo(e.client)))
  {
    hide H.MethodReply, H.RequestReply, H.ReadRequest, H.InputAfter, H.Replies;
  }

  /** The client got to a resolver or to a relay. */
  ghost predicate GotOn(p: State, id: nat) {
    id in RIds(p.resolvings) || id in LIds(p.relays)
  }

  /** What the call made of the client: a step on, its messages in the log, at most one socket more. */
  ghost predicate SteppedOn(s: State, e: Handshaking, t: H.Trace, q: State) {
    && Messages(q.log, e.id) == t.received
    && if !t.returned then e.(trace := t) in q.handshakes && q.open == s.open
       else if t.state.dest.domain then e.id in RIds(q.resolvings)
       else e.id in LIds(q.relays)
  }

  /** After the pass over the handshakes. */
  lemma HandshakeStepsOn(s: State, e: Handshaking, k: Kernel)
    requires ValidKernel(k) && Inv(s) && e in s.handshakes && Within(s)
    requires k.fresh'(s.open) < FD_SETSIZE && s.readset <= {e.client} && s.writeset == {e.client}
    requires e.client in s.readset <==> H.WantsRead(e.trace.state)
    ensures H.Shape(e.trace.state) && H.ValidIo(k.handshakeIo(e.client))
    ensures var b := Handshakes(s, k);
            && SteppedOn(s, e, H.Feed(e.trace, Doing(k.handshakeIo(e.client))), b) && Within(b) && SameMasks(s, b)
            && (forall r <- b.resolvings :: r in s.resolvings || r.resolver.fd !in s.open)
  {
    hide Inv, Owns, HandshakePass, H.Feed, R.NewRelay, N.NewBuffer, Tracks, H.TraceOk, H.WantsRead, FedTrace, Messages;
    var before, after := OneHandshake(s, e, k);
    var p := s.(handshakes := before);
    HandshakesEach(s, k, e);
    FedByClient(s, e, k);
    FedByClient(p, e, k);
    HandshakeOneMoved(p, e, k);
    var r, b, t := HandshakeOne(p, e, k), Handshakes(s, k), FedTrace(s, e, k);
    FeedAddrFits(p, e, k);
    if t.returned {
      if t.state.dest.domain {
        assert RIds(b.resolvings)[|s.resolvings|] == e.id;
      } else {
        assert LIds(b.relays)[|s.relays|] == e.id;
      }
    } else {
      assert r.handshakes[|before|] == e.(trace := t);
      assert b.handshakes[|before|] == e.(trace := t);
    }
  }

  /** Nobody's resolver has the client's descriptor. */
  lemma ResolversElsewhere(s: State, e: Handshaking, b: State)
    requires Owns(s) && e in s.handshakes
    requires forall r <- b.resolvings :: r in s.resolvings || r.resolver.fd !in s.open
    ensures forall r <- b.resolvings :: r.resolver.fd != e.client
  {
    hide Owns, RelayFds;
    HandshakeApart(s, e);
    OpenIffListed(s, e.client);
    assert e.client in HandshakeFds(e);
    forall r | r in b.resolvings ensures r.resolver.fd != e.client {
      if r in s.resolvings { assert r.resolver.fd in ResolveFds(r); }
    }
  }

  lemma ResolvingsQuiet(b: State, k: Kernel)
    requires ValidKernel(k) && Inv(b) && Within(b)
    requires forall r <- b.resolvings :: r.resolver.fd !in b.readset && r.resolver.fd !in b.writeset
    ensures Resolvings(b, k).Running?
    ensures var c := Resolvings(b, k).state; c == b.(fdMax := c.fdMax)
  {
    hide Inv, ResolvePass, ValidKernel, N.ValidState;
    InvEntries(b);
    QuietResolvers(b.(resolvings := []), b.resolvings, k);
    assert [] + b.resolvings == b.resolvings;
  }

  lemma ServeStepsOn(s: State, e: Handshaking, k: Kernel)
    requires ValidKernel(k) && Inv(s) && e in s.handshakes && Within(s) && s.listener != e.client
    requires k.fresh'(s.open) < FD_SETSIZE && s.readset <= {e.client} && s.writeset == {e.client}
    requires e.client in s.readset <==> H.WantsRead(e.trace.state)
    ensures H.Shape(e.trace.state) && H.ValidIo(k.handshakeIo(e.client))
    ensures Serve(s, k).Running?
    ensures SteppedOn(s, e, H.Feed(e.trace, Doing(k.handshakeIo(e.client))), Serve(s, k).state)
  {
    hide Inv, Owns, Handshakes, Resolvings, Connections, H.Feed, H.WantsRead, H.Shape, ValidKernel, Within, H.ValidIo,
         Messages;
    HandshakeStepsOn(s, e, k);
    var b := Handshakes(s, k);
    InvOwns(s);
    ResolversElsewhere(s, e, b);
    ResolvingsQuiet(b, k);
    ConnectionsStep(Resolvings(b, k).state, k);
  }

  // ---------------------------------------------------------------- rounds and runs

  lemma RoundStepsOn(p: State, e: Handshaking, hio: H.HandshakeIo)
    requires Inv(p) && e in p.handshakes && Within(p) && HasFree(p.open)
    requires H.ValidIo(hio) && !hio.received.RecvWouldBlock?
    ensures H.Shape(e.trace.state)
    ensures var o := Round(p, OnlyThis(e.client, hio));
            && o.Running? && Within(o.state)
            && exists s :: SteppedOn(s, e, H.Feed(e.trace, Doing(hio)), o.state) && s.open <= p.open
  {
    hide Inv, Owns, Prepare, MasksAsked, Serve, H.Feed, H.WantsRead, H.Shape, H.ValidIo, SteppedOn, Within,
         Solo, ValidKernel;
    var c, k := e.client, OnlyThis(e.client, hio);
    PrepareRuns(p);
    PrepareInv(p);
    PrepareMoves(p);
    PrepareAsked(p);
    PrepareFillsAll(p);
    var q := Prepare(p).state;
    InvOwns(q);
    HandshakeApart(q, e);
    SelectAnswersHandshake(q, e, {c});
    assert H.WantsRead(e.trace.state) ==> c in HandshakeReads(e);
    var s := Selected(q, {c}, {c});
    WithinSame(q, s);
    assert q.open <= p.open;
    ServeStepsOn(s, e, k);
    RoundWithin(p, k);
  }

  lemma WithinSame(p: State, q: State)
    requires Within(p) && q.resolvings == p.resolvings
    ensures Within(q)
  {
  }

  /** A client is not in two lists at once. */
  lemma NotBoth(p: State, id: nat)
    requires Inv(p) && id in HIds(p.handshakes)
    ensures !GotOn(p, id)
  {
    hide Gather, Owns, Tied, AllIds;
    AllIdsOnce(|p.clients|, id);
    var i :| 0 <= i < |p.handshakes| && p.handshakes[i].id == id;
    GatherIn(p.handshakes, HandshakeId, p.handshakes[i], id);
    if j :| 0 <= j < |p.resolvings| && p.resolvings[j].id == id {
      GatherIn(p.resolvings, ResolveId, p.resolvings[j], id);
    }
    if j :| 0 <= j < |p.relays| && p.relays[j].id == id {
      GatherIn(p.relays, RelayId, p.relays[j], id);
    }
    assert Ids(p)[id] <= 1;
  }

  /** Two further rounds at most bring a handshake without `drop` to its resolver or relay. */
  lemma TwoRoundsOn(p: State, e: Handshaking) returns (ks: seq<Kernel>)
    requires Inv(p) && e in p.handshakes && Within(p) && HasFree(p.open) && !e.trace.state.drop
    ensures 1 <= |ks| <= 2 && ValidKernels(ks) && Run(p, ks).Running? && GotOn(Run(p, ks).state, e.id)
  {
    hide Inv, Round, H.Feed, OnlyThis, ValidKernel, H.Shape, HIds, RIds, LIds;
    InvEntries(p);
    var hio := H.GO_ON.io;
    var k, t := OnlyThis(e.client, hio), H.Feed(e.trace, Doing(hio));
    RoundStepsOn(p, e, hio);
    var q := Round(p, k).state;
    var s :| SteppedOn(s, e, t, q) && s.open <= p.open;
    if t.returned {
      ks := [k];
      RunOne(p, k);
    } else {
      HandshakeGoesOn(p, e);
      var e' := e.(trace := t);
      assert HasFree(q.open);
      RoundStepsOn(q, e', hio);
      ks := [k, k];
      RunOne(q, k);
      assert ks[1..] == [k];
    }
  }

  lemma RunOne(p: State, k: Kernel)
    requires ValidKernel(k) && Inv(p)
    ensures ValidKernels([k]) && Run(p, [k]) == Round(p, k)
  {
    hide Inv, Round, ValidKernel;
    assert [k][1..] == [];
  }

  lemma HandshakeGoesOn(p: State, e: Handshaking)
    requires Tracks(p.clients, e) && !e.trace.state.drop
    ensures H.Shape(e.trace.state)
    ensures var t := H.Feed(e.trace, H.GO_ON);
            H.Shape(t.state) && (!t.returned ==> H.Feed(t, H.GO_ON).returned)
  {
    hide H.Feed;
    H.GoOnTwice(e.trace, e.client, p.clients[e.id].memory);
    H.TraceShape(e.trace, e.client, p.clients[e.id].memory);
  }

  /**
    After every run, as long as a descriptor that select can look at is free: a listed handshake
    gets to its resolver or relay in some further rounds exactly if it has not set `drop`.
   */
  lemma GetsOnIff(pid: nat, listener: int, ks: seq<Kernel>, p: State, e: Handshaking)
    requires ValidKernels(ks) && From(pid, listener, ks) == Running(p) && e in p.handshakes && HasFree(p.open)
    ensures Inv(p)
    ensures !e.trace.state.drop <==>
              exists more :: ValidKernels(more) && Run(p, more).Running? && GotOn(Run(p, more).state, e.id)
  {
    hide Inv, Run, ValidKernels, GotOn;
    InitialInv(pid, listener);
    RunWithin(Initial(pid, listener), ks);
    if e.trace.state.drop {
      forall more | ValidKernels(more) && Run(p, more).Running? ensures !GotOn(Run(p, more).state, e.id) {
        DroppedStays(p, more, e);
        var q := Run(p, more).state;
        var i :| 0 <= i < |q.handshakes| && q.handshakes[i] == e;
        assert HIds(q.handshakes)[i] == e.id;
        NotBoth(q, e.id);
      }
    } else {
      var more := TwoRoundsOn(p, e);
    }
  }
}
