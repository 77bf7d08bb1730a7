// What the server does for its clients: after every run it can accept another one, bring those it has
// to their relays, and carry bytes for them, whatever state the others are in.
module ProxyServed {
  import opened Bytes
  import opened Sockets
  import opened Wrappers
  import H = Handshake
  import N = Resolver
  import R = Relay
  import D = DnsMessage
  import DnsCodec
  import opened Proxy
  import opened ProxyInvariant
  import opened ProxySteps
  import opened ProxyRun
  import opened ProxyTheorems
  import opened ProxyProgress
  import opened ProxyGuarantees
  import opened ProxyCalls
  import opened ProxyRounds
  import opened ProxyLiveness

  // ---------------------------------------------------------------- rounds that leave the others alone

  /** No handshake is ready. */
  ghost predicate HandshakesIdle(s: State) {
    forall h <- s.handshakes :: h.client !in s.readset && h.client !in s.writeset
  }

  ghost predicate ResolversIdle(s: State) {
    forall r <- s.resolvings :: r.resolver.fd !in s.readset && r.resolver.fd !in s.writeset
  }

  lemma IdleHandshakes(s: State, k: Kernel)
    requires ValidKernel(k) && Inv(s) && HandshakesIdle(s)
    ensures Handshakes(s, k) == s
  {
    hide Inv, HandshakePass, Tracks, ValidKernel;
    InvEntries(s);
    QuietHandshakes(s.(handshakes := []), s.handshakes, k);
    assert [] + s.handshakes == s.handshakes;
  }

  /** The listener's descriptor is nobody else's. */
  lemma ListenerApart(p: State)
    requires Owns(p)
    ensures forall h <- p.handshakes :: h.client != p.listener
    ensures forall r <- p.resolvings :: r.client != p.listener && r.resolver.fd != p.listener
    ensures forall e <- p.relays :: e.conn.client != p.listener && e.conn.forward != p.listener
  {
    hide Gather, Owns;
    forall h | h in p.handshakes ensures h.client != p.listener { HandshakeApart(p, h); }
    forall r | r in p.resolvings ensures r.client != p.listener && r.resolver.fd != p.listener {
      GatherOne(p.resolvings, ResolveFds, r);
      if r.client == p.listener { PartsApart(p, multiset{p.listener}, ResolveFds(r), p.listener); }
      ResolverApart(p, r);
    }
    forall e | e in p.relays ensures e.conn.client != p.listener && e.conn.forward != p.listener {
      RelayApart(p, e, e.conn.client);
      RelayApart(p, e, e.conn.forward);
    }
  }

  // ---------------------------------------------------------------- accepting

  const NOTHING := H.GO_ON.io

  ghost function OnlyListener(listener: int): (k: Kernel)
    ensures ValidKernel(k)
  {
    Solo({listener}, {}, NOTHING, Resolves([0]), RecvWouldBlock, SendWouldBlock)
  }

  lemma AcceptServes(s: State, k: Kernel)
    requires ValidKernel(k) && Inv(s) && Within(s) && s.readset == {s.listener} && s.writeset == {}
    requires !k.acceptFails && k.fresh'(s.open) < FD_SETSIZE
    ensures Serve(s, k).Running?
    ensures var q := Serve(s, k).state;
            && |q.clients| == |s.clients| + 1 && q.clients[..|s.clients|] == s.clients
            && q.clients[|s.clients|].fd !in s.open && q.open == s.open + {q.clients[|s.clients|].fd}
            && (exists h <- q.handshakes :: h.id == |s.clients| && Unstarted(h, q.clients[h.id]))
            && q.resolvings == s.resolvings && LIds(q.relays) == LIds(s.relays)
  {
    hide Inv, Owns, Handshakes, Resolvings, Connections, Pending, ValidKernel, Unstarted, LIds;
    AcceptsOneIff(s, k);
    PendingInv(s, k);
    var a := Pending(s, k).state;
    InvOwns(a);
    ListenerApart(a);
    IdleHandshakes(a, k);
    ResolvingsQuiet(a, k);
    ConnectionsStep(Resolvings(a, k).state, k);
    assert a.handshakes[|s.handshakes|] in a.handshakes;
  }

  /** After every run one further round accepts another client, as long as a descriptor is free for it. */
  lemma AcceptsAnother(p: State) returns (k: Kernel)
    requires Inv(p) && Within(p) && HasFree(p.open)
    ensures ValidKernel(k) && Round(p, k).Running? && Within(Round(p, k).state)
    ensures var q := Round(p, k).state;
            && |q.clients| == |p.clients| + 1 && q.clients[..|p.clients|] == p.clients
            && q.open <= p.open + {q.clients[|p.clients|].fd}
            && (exists h <- q.handshakes :: h.id == |p.clients| && Unstarted(h, q.clients[h.id]))
            && q.resolvings == p.resolvings
  {
    hide Inv, Owns, Prepare, Serve, ValidKernel, Within, Solo, Unstarted;
    k := OnlyListener(p.listener);
    PrepareRuns(p);
    PrepareInv(p);
    PrepareDrops(p);
    PrepareFillsAll(p);
    var q := Prepare(p).state;
    PrepareListener(p);
    var s := Selected(q, {p.listener}, {});
    WithinSame(q, s);
    assert s.readset == {p.listener};
    AcceptServes(s, k);
    RoundWithin(p, k);
  }

  lemma PrepareListener(p: State)
    requires Prepare(p).Running?
    ensures Prepare(p).state.listener == p.listener
  {
    PrepareIs(p);
    SweepKeepsReach(p.(relays := [], readset := {p.listener}, writeset := {}), p.relays);
  }

  // ---------------------------------------------------------------- resolving

  lemma QuietRelay(c: State, e: Relaying, k: Kernel)
    requires ValidKernel(k) && R.RelayOk(e.conn)
    requires {e.conn.client, e.conn.forward} !! c.readset && {e.conn.client, e.conn.forward} !! c.writeset
    ensures RelayOne(c, e, k).conn == e.conn
  {
    RelayShape(c, e, k);
  }

  /** The entry at its place after processConnections. */
  lemma ServedRelay(c: State, k: Kernel, e: Relaying) returns (e': Relaying)
    requires ValidKernel(k) && Inv(c) && e in c.relays
    ensures R.RelayOk(e.conn) && e' == RelayOne(c, e, k) && e' in Connections(c, k).relays
  {
    hide Inv, R.RelayOk, RelayOne;
    InvEntries(c);
    var i :| 0 <= i < |c.relays| && c.relays[i] == e;
    ConnectionAt(c, k, i);
    e' := Connections(c, k).relays[i];
  }

  /** The resolver's client is relayed to its port, nothing has gone through yet, and its reply is in the log. */
  ghost predicate Resolved(q: State, r: Resolving, answers: seq<seq<byte>>) {
    && Answers(q.log, r.id) == answers
    && exists e <- q.relays ::
         && e.id == r.id && e.conn.client == r.client && e.target.ByAddress? && e.target.port == r.port
              && Untouched(e.conn)
  }

  /** The resolver is still listed, with its query out or not. */
  ghost predicate StillListed(q: State, r: Resolving, sent: bool) {
    exists e <- q.resolvings ::
      e.id == r.id && e.client == r.client && e.port == r.port && e.resolver.fd == r.resolver.fd
           && e.resolver.requestSended == sent
  }

  lemma ResolvePassRuns(s: State, k: Kernel)
    requires ValidKernel(k) && Inv(s) && Within(s)
    ensures Resolvings(s, k).Running?
  {
    hide Inv, ResolvePass, N.ValidState;
    InvEntries(s);
    ResolvePassThrownIff(s.(resolvings := []), s.resolvings, k);
  }

  /** Only this resolver is called, and then the connections. */
  lemma ResolverAlone(s: State, r: Resolving, k: Kernel)
    requires ValidKernel(k) && Inv(s) && Within(s) && r in s.resolvings
    requires s.readset + s.writeset <= {r.resolver.fd}
    ensures Resolvings(s, k).Running? && r.client != r.resolver.fd
    ensures var c := Resolvings(s, k).state;
            Serve(s, k) == Running(Connections(c, k)) && ResolverGoes(s, r, k, c) && SameMasks(s, c)
  {
    hide Inv, Owns, Handshakes, Resolvings, Connections, ValidKernel, ResolverGoes, Within;
    InvOwns(s);
    ListenerApart(s);
    ResolverApart(s, r);
    assert forall h <- s.handshakes :: r.resolver.fd in HandshakeFds(h) <==> h.client == r.resolver.fd;
    IdleHandshakes(s, k);
    ResolvePassRuns(s, k);
    ResolvingsEach(s, k, r);
    ResolvingsStep(s, k);
  }

  /** The relay just made is called too, but finds nothing ready. */
  lemma NewRelayWaits(s: State, c: State, r: Resolving, k: Kernel)
    requires ValidKernel(k) && Inv(c) && ResolverGoes(s, r, k, c) && SameMasks(s, c)
    requires r.resolver.fd in s.readset && k.resolverIo(r.resolver.fd).received.Bytes?
    requires s.readset + s.writeset <= {r.resolver.fd} && r.client != r.resolver.fd
    ensures Resolved(Connections(c, k), r, Answers(s.log, r.id) + [k.resolverIo(r.resolver.fd).received.data])
  {
    hide Inv, Connections, ValidKernel, Messages, Answers, Untouched, R.RelayOk, RelayOne;
    ConnectionsStep(c, k);
    var e :| e in c.relays && e.id == r.id && e.conn.client == r.client && e.conn.forward != r.resolver.fd
             && Untouched(e.conn) && e.target.ByAddress? && e.target.port == r.port;
    var e' := ServedRelay(c, k, e);
    QuietRelay(c, e, k);
    RelayOneKeeps(c, e, k);
  }

  lemma ResolveServes(s: State, r: Resolving, k: Kernel)
    requires ValidKernel(k) && Inv(s) && Within(s) && r in s.resolvings
    requires s.readset + s.writeset <= {r.resolver.fd}
    ensures Serve(s, k).Running?
    ensures var q, fd, io := Serve(s, k).state, r.resolver.fd, k.resolverIo(r.resolver.fd);
            && Messages(q.log, r.id) == Messages(s.log, r.id)
            && (fd in s.readset && io.received.Bytes? ==> Resolved(q, r, Answers(s.log, r.id) + [io.received.data]))
            && (fd !in s.readset ==>
                  Answers(q.log, r.id) == Answers(s.log, r.id)
                  && StillListed(q, r, r.resolver.requestSended || (fd in s.writeset && io.sent.Took?)))
  {
    hide Inv, Serve, Resolvings, Connections, ValidKernel, Messages, Answers, Resolved, Untouched;
    ResolverAlone(s, r, k);
    var c := Resolvings(s, k).state;
    ConnectionsStep(c, k);
    if r.resolver.fd in s.readset && k.resolverIo(r.resolver.fd).received.Bytes? {
      NewRelayWaits(s, c, r, k);
    }
    assert Answers(s.log, r.id) + [] == Answers(s.log, r.id);
  }

  lemma RelayOneKeeps(c: State, e: Relaying, k: Kernel)
    requires ValidKernel(k) && R.RelayOk(e.conn)
    ensures var e' := RelayOne(c, e, k);
            e'.id == e.id && e'.target == e.target && e'.conn.client == e.conn.client
                 && e'.conn.forward == e.conn.forward
  {
    RelayShape(c, e, k);
  }

  ghost function OnlyResolver(fd: int, reply: seq<byte>): (k: Kernel)
    requires 1 <= |reply| <= 65536
    ensures ValidKernel(k)
  {
    Solo({fd}, {fd}, NOTHING, Resolves(reply), RecvWouldBlock, SendWouldBlock)
  }

  lemma ResolveRound(p: State, r: Resolving, reply: seq<byte>)
    requires Inv(p) && Within(p) && r in p.resolvings && 1 <= |reply| <= 65536
    ensures var o := Round(p, OnlyResolver(r.resolver.fd, reply));
            && o.Running? && Within(o.state) && Messages(o.state.log, r.id) == Messages(p.log, r.id)
            && if r.resolver.requestSended then Resolved(o.state, r, Answers(p.log, r.id) + [reply])
               else Answers(o.state.log, r.id) == Answers(p.log, r.id) && StillListed(o.state, r, true)
  {
    hide Inv, Owns, Prepare, MasksAsked, Serve, ValidKernel, Within, Messages, Answers, Resolved, StillListed;
    var fd, k := r.resolver.fd, OnlyResolver(r.resolver.fd, reply);
    PrepareRuns(p);
    PrepareInv(p);
    PrepareDrops(p);
    PrepareAsked(p);
    MasksAreExact(p);
    var q := Prepare(p).state;
    InvOwns(q);
    InvEntries(q);
    SelectAnswersResolver(q, r, {fd}, {fd});
    assert r.resolver.requestSended ==> ReadDue(q, fd);
    assert !r.resolver.requestSended ==> WriteDue(q, fd);
    var s := Selected(q, {fd}, {fd});
    WithinSame(q, s);
    ResolveServes(s, r, k);
    RoundWithin(p, k);
  }

  /**
    For a listed resolver and any message, two further rounds at most relay its client to its port,
    with that message as the one reply it has received.
   */
  lemma ResolvesInTwo(p: State, r: Resolving, reply: seq<byte>) returns (ks: seq<Kernel>)
    requires Inv(p) && Within(p) && r in p.resolvings && 1 <= |reply| <= 65536
    ensures 1 <= |ks| <= 2 && ValidKernels(ks) && Run(p, ks).Running? && Within(Run(p, ks).state)
    ensures var q := Run(p, ks).state; Resolved(q, r, [reply]) && Messages(q.log, r.id) == Messages(p.log, r.id)
  {
    hide Inv, Round, OnlyResolver, ValidKernel, Within, Messages, Answers, Untouched;
    var k := OnlyResolver(r.resolver.fd, reply);
    NoAnswerYet(p, r);
    ResolveRound(p, r, reply);
    RunOne(p, k);
    if r.resolver.requestSended {
      ks := [k];
    } else {
      var q := Round(p, k).state;
      var e :| e in q.resolvings && e.id == r.id && e.client == r.client && e.port == r.port
               && e.resolver.fd == r.resolver.fd && e.resolver.requestSended;
      ResolveRound(q, e, reply);
      RunOne(q, k);
      ks := [k, k];
      assert ks[1..] == [k];
    }
  }

  lemma NoAnswerYet(p: State, r: Resolving)
    requires Inv(p) && r in p.resolvings
    ensures Answers(p.log, r.id) == []
  {
    hide Owns, Counts, HandshakingOk, RelayingOk, ClosedOk, Answers, H.ReadRequest, H.InputAfter, D.IsQueryBuffer;
    assert ResolvingOk(p.pid, p.clients, p.log, r);
  }

  // ---------------------------------------------------------------- carrying

  lemma RelayServes(s: State, e: Relaying, k: Kernel)
    requires ValidKernel(k) && Inv(s) && Within(s) && e in s.relays
    requires s.readset + s.writeset <= {e.conn.client, e.conn.forward}
    ensures R.RelayOk(e.conn) && Serve(s, k).Running?
    ensures exists e' <- Serve(s, k).state.relays :: e' == RelayOne(s, e, k)
  {
    hide Inv, Owns, Handshakes, Resolvings, Connections, ValidKernel, Within, R.RelayOk, RelayOne;
    InvOwns(s);
    ListenerApart(s);
    RelayApart(s, e, e.conn.client);
    RelayApart(s, e, e.conn.forward);
    assert forall h <- s.handshakes :: h.client in HandshakeFds(h);
    assert forall r <- s.resolvings :: r.resolver.fd in ResolveFds(r);
    IdleHandshakes(s, k);
    ResolvingsQuiet(s, k);
    var c := Resolvings(s, k).state;
    var e' := ServedRelay(c, k, e);
    SameCall(s, c, e, k);
  }

  lemma SameCall(s: State, c: State, e: Relaying, k: Kernel)
    requires ValidKernel(k) && R.RelayOk(e.conn) && SameMasks(s, c)
    ensures RelayOne(s, e, k) == RelayOne(c, e, k)
  {
  }

  ghost function OnlyRelay(rd: set<int>, wr: set<int>, got: Received, put: Sent): (k: Kernel)
    requires Fits(got, R.BUFSIZE)
    ensures ValidKernel(k)
  {
    Solo(rd, wr, NOTHING, Resolves([0]), got, put)
  }

  /** The relay after a call with these masks and answers is listed. */
  ghost predicate ListedAs(q: State, e: Relaying, conn: R.RelayState) {
    exists e' <- q.relays :: e'.id == e.id && e'.target == e.target && e'.conn == conn
  }

  /** A listed relay can be called with just what it asks for, whatever the others do. */
  lemma RelayRound(p: State, e: Relaying, rd: set<int>, wr: set<int>, got: Received, put: Sent)
    requires Inv(p) && Within(p) && e in p.relays && !e.conn.toDisconnect && Fits(got, R.BUFSIZE)
    requires rd <= R.AskedRead(e.conn) && wr <= R.AskedWrite(e.conn) && (rd != {} || wr != {})
    ensures R.RelayOk(e.conn) && R.LaneShape(e.conn.cf) && R.LaneShape(e.conn.fc)
    ensures var o := Round(p, OnlyRelay(rd, wr, got, put));
            o.Running? && Within(o.state)
                 && ListedAs(o.state, e, R.Exchange(e.conn, rd, wr, R.RelayIo(got, got, put, put)))
  {
    hide Inv, Owns, Prepare, Serve, ValidKernel, Within, R.RelayOk, RelayOne, R.AskedRead, R.AskedWrite;
    var k := OnlyRelay(rd, wr, got, put);
    PrepareRuns(p);
    PrepareInv(p);
    PrepareDrops(p);
    PrepareFillsAll(p);
    var q := Prepare(p).state;
    var s := Selected(q, rd, wr);
    assert s.readset == rd && s.writeset == wr;
    WithinSame(q, s);
    OwnFds(e.conn);
    RelayServes(s, e, k);
    RelayOneKeeps(s, e, k);
    RelayShape(s, e, k);
    RoundWithin(p, k);
  }

  lemma OwnFds(r: R.RelayState)
    ensures R.AskedRead(r) <= {r.client, r.forward} && R.AskedWrite(r) <= {r.client, r.forward}
  {
  }

  lemma JoinValid(a: seq<Kernel>, b: seq<Kernel>)
    requires ValidKernels(a) && ValidKernels(b)
    ensures ValidKernels(a + b)
  {
  }

  lemma {:induction false} RunJoin(p: State, a: seq<Kernel>, b: seq<Kernel>)
    requires ValidKernels(a) && ValidKernels(b) && Inv(p) && Run(p, a).Running?
    ensures ValidKernels(a + b) && Run(p, a + b) == Run(Run(p, a).state, b)
    decreases |a|
  {
    hide Inv, Round, ValidKernel, ValidKernels;
    JoinValid(a, b);
    if a == [] {
      assert a + b == b;
    } else {
      RestValid(a);
      assert (a + b)[0] == a[0] && (a + b)[1..] == a[1..] + b;
      RunJoin(Round(p, a[0]).state, a[1..], b);
    }
  }

  /** What waits in a slot is delivered in one further round. */
  lemma SlotGoesOut(p: State, e: Relaying, up: bool) returns (k: Kernel, conn: R.RelayState)
    requires Inv(p) && Within(p) && e in p.relays && !e.conn.toDisconnect && e.conn.client != e.conn.forward
    requires R.LaneShape(e.conn.cf) && R.LaneShape(e.conn.fc) && (if up then e.conn.cf.count else e.conn.fc.count) > 0
    ensures ValidKernel(k) && Round(p, k).Running? && Within(Round(p, k).state) && ListedAs(Round(p, k).state, e, conn)
    ensures conn.client == e.conn.client && conn.forward == e.conn.forward && !conn.toDisconnect
    ensures up ==> conn.fc == e.conn.fc
                   && conn.cf == e.conn.cf.(count := 0, delivered := e.conn.cf.delivered + [R.Pending(e.conn.cf)])
    ensures !up ==> conn.cf == e.conn.cf
                    && conn.fc == e.conn.fc.(count := 0, delivered := e.conn.fc.delivered + [R.Pending(e.conn.fc)])
  {
    hide Inv, Round, ValidKernel, Within, R.LaneOk;
    var wr, put := {if up then e.conn.forward else e.conn.client}, Took(R.BUFSIZE);
    RelayRound(p, e, {}, wr, RecvWouldBlock, put);
    k := OnlyRelay({}, wr, RecvWouldBlock, put);
    conn := R.Exchange(e.conn, {}, wr, R.RelayIo(RecvWouldBlock, RecvWouldBlock, put, put));
  }

  /** An empty slot is filled with whatever its source gives in one further round. */
  lemma SlotComesIn(p: State, e: Relaying, up: bool, data: seq<byte>) returns (k: Kernel, conn: R.RelayState)
    requires Inv(p) && Within(p) && e in p.relays && !e.conn.toDisconnect && e.conn.client != e.conn.forward
    requires R.LaneShape(e.conn.cf) && R.LaneShape(e.conn.fc) && (if up then e.conn.cf.count else e.conn.fc.count) == 0
    requires 1 <= |data| <= 4096
    ensures ValidKernel(k) && Round(p, k).Running? && Within(Round(p, k).state) && ListedAs(Round(p, k).state, e, conn)
    ensures conn.client == e.conn.client && conn.forward == e.conn.forward && !conn.toDisconnect
    ensures R.LaneShape(conn.cf) && R.LaneShape(conn.fc)
    ensures up ==> conn.fc == e.conn.fc && conn.cf.count == |data| && R.Pending(conn.cf) == data
                   && conn.cf.received == e.conn.cf.received + [data] && conn.cf.delivered == e.conn.cf.delivered
    ensures !up ==> conn.cf == e.conn.cf && conn.fc.count == |data| && R.Pending(conn.fc) == data
                    && conn.fc.received == e.conn.fc.received + [data] && conn.fc.delivered == e.conn.fc.delivered
  {
    hide Inv, Round, ValidKernel, Within, R.LaneOk;
    var rd := {if up then e.conn.client else e.conn.forward};
    RelayRound(p, e, rd, {}, Bytes(data), SendWouldBlock);
    k := OnlyRelay(rd, {}, Bytes(data), SendWouldBlock);
    conn := R.Exchange(e.conn, rd, {}, R.RelayIo(Bytes(data), Bytes(data), SendWouldBlock, SendWouldBlock));
  }

  /** Two further rounds take data from one side of a listed relay to the other. */
  lemma CarriesOne(p: State, e: Relaying, up: bool, data: seq<byte>)
    returns (ks: seq<Kernel>, e': Relaying)
    requires Inv(p) && Within(p) && e in p.relays && !e.conn.toDisconnect && e.conn.client != e.conn.forward
    requires R.LaneShape(e.conn.cf) && R.LaneShape(e.conn.fc) && (if up then e.conn.cf.count else e.conn.fc.count) == 0
    requires 1 <= |data| <= 4096
    ensures ValidKernels(ks) && Run(p, ks).Running? && Within(Run(p, ks).state)
    ensures e' in Run(p, ks).state.relays && e'.id == e.id && e'.target == e.target && !e'.conn.toDisconnect
    ensures e'.conn.client == e.conn.client && e'.conn.forward == e.conn.forward
    ensures R.LaneShape(e'.conn.cf) && R.LaneShape(e'.conn.fc)
    ensures up ==> e'.conn.fc == e.conn.fc && e'.conn.cf.count == 0
                   && e'.conn.cf.delivered == e.conn.cf.delivered + [data]
    ensures !up ==> e'.conn.cf == e.conn.cf && e'.conn.fc.count == 0
                    && e'.conn.fc.delivered == e.conn.fc.delivered + [data]
  {
    hide Inv, Round, ValidKernel, Within, R.LaneOk;
    var k1, conn1 := SlotComesIn(p, e, up, data);
    var q := Round(p, k1).state;
    var m :| m in q.relays && m.id == e.id && m.target == e.target && m.conn == conn1;
    var k2, conn2 := SlotGoesOut(q, m, up);
    e' :| e' in Round(q, k2).state.relays && e'.id == m.id && e'.target == m.target && e'.conn == conn2;
    ks := [k1, k2];
    RunOne(q, k2);
    assert ks[1..] == [k2];
  }

  lemma RelayEnds(p: State, e: Relaying)
    requires Inv(p) && e in p.relays
    ensures e.conn.client != e.conn.forward && R.LaneShape(e.conn.cf) && R.LaneShape(e.conn.fc)
  {
    hide Gather, Counts;
    RelayEndsApart(p, e);
    InvEntries(p);
    R.LaneOkShape(e.conn.cf);
    R.LaneOkShape(e.conn.fc);
  }

  // ---------------------------------------------------------------- from connect to data, both ways

  lemma SmallIsFree(open: set<int>, s: set<int>)
    requires |open| <= 1023 && s <= open
    ensures HasFree(s)
  {
    var fd := Avoid(open, |open|);
  }

  lemma OneMoreOpen(a: set<int>, b: set<int>, fd: int)
    requires b <= a + {fd}
    ensures |b| <= |a| + 1
  {
    assert b == (b * a) + (b - a) && b - a <= {fd};
    SubsetSize(b * a, a);
    SubsetSize(b - a, {fd});
  }

  lemma {:induction false} SubsetSize(a: set<int>, b: set<int>)
    requires a <= b
    ensures |a| <= |b|
  {
    assert b == a + (b - a);
  }

  /** A new client that greets and asks for a host gets to a resolver for that port in three rounds. */
  lemma NewClientResolves(p: State, greeting: seq<byte>, host: seq<byte>, port: nat)
    returns (ks: seq<Kernel>, r: Resolving)
    requires Inv(p) && Within(p) && |p.open| <= 1022
    requires 1 <= |greeting| <= 1024 && |host| <= 255 && port < 65536
    ensures ValidKernels(ks) && Run(p, ks).Running? && Within(Run(p, ks).state)
    ensures r in Run(p, ks).state.resolvings && r.id == |p.clients|
    ensures Messages(Run(p, ks).state.log, r.id) == [greeting, H.DomainRequest(host, port)]
  {
    hide Inv, Round, ValidKernel, Within, Messages, H.DomainRequest, H.TraceOk, H.Feed, HIds, RIds, LIds;
    var k1 := AcceptsAnother(p) by { SmallIsFree(p.open, p.open); }
    var q1 := Round(p, k1).state;
    var h1 :| h1 in q1.handshakes && h1.id == |p.clients| && Unstarted(h1, q1.clients[h1.id]);
    OneMoreOpen(p.open, q1.open, q1.clients[|p.clients|].fd);
    SmallIsFree(q1.open, q1.open);
    var h2, q2 := HandshakeRead(q1, h1, greeting);
    SmallIsFree(q1.open, q2.open);
    var request := H.DomainRequest(host, port);
    RequestSize(host, port);
    RequestRound(q2, h2, greeting, host, port);
    var k3 := OnlyThis(h2.client, Sends(request));
    var q3 := Round(q2, k3).state;
    r := EntryOf(q3, h2.id);
    ks := [k1, OnlyThis(h1.client, Sends(greeting)), k3];
    RunOne(q2, k3);
    assert ks[1..][1..] == [k3] && ks[1..][0] == ks[1];
  }

  function Sends(m: seq<byte>): (io: H.HandshakeIo)
    requires 1 <= |m| <= 1024
    ensures H.ValidIo(io)
  {
    H.HandshakeIo(Bytes(m), Took(10))
  }

  lemma RequestSize(host: seq<byte>, port: nat)
    requires |host| <= 255 && port < 65536
    ensures 1 <= |H.DomainRequest(host, port)| <= 1024
  {
  }

  lemma EntryOf(q: State, id: nat) returns (r: Resolving)
    requires id in RIds(q.resolvings)
    ensures r in q.resolvings && r.id == id
  {
    var i :| 0 <= i < |q.resolvings| && q.resolvings[i].id == id;
    r := q.resolvings[i];
  }

  /** The round in which an unstarted handshake reads and answers its greeting. */
  lemma HandshakeRead(p: State, h: Handshaking, m: seq<byte>) returns (h': Handshaking, q: State)
    requires Inv(p) && Within(p) && HasFree(p.open) && h in p.handshakes && h.id < |p.clients|
    requires Unstarted(h, p.clients[h.id]) && 1 <= |m| <= 1024
    ensures Round(p, OnlyThis(h.client, Sends(m))) == Running(q) && Inv(q) && Within(q) && q.open <= p.open
    ensures h' in q.handshakes && h'.id == h.id && h'.client == h.client && h'.trace.received == [m]
    ensures var s := h'.trace.state; s.firstStepCompleted && s.output == [] && !s.drop && !h'.trace.returned
  {
    hide Inv, Round, Within, H.TraceOk, H.Feed, Messages;
    InvEntries(p);
    RoundStepsOn(p, h, Sends(m));
    H.EveryRequestGoesOn(h.trace, h.client, p.clients[h.id].memory, m);
    q := Round(p, OnlyThis(h.client, Sends(m))).state;
    var t := H.Feed(h.trace, Doing(Sends(m)));
    var s :| SteppedOn(s, h, t, q) && s.open <= p.open;
    h' := h.(trace := t);
  }

  /** The round in which the request is read and answered: the client is resolving. */
  lemma RequestRound(p: State, h: Handshaking, greeting: seq<byte>, host: seq<byte>, port: nat)
    requires Inv(p) && Within(p) && HasFree(p.open) && h in p.handshakes
    requires |host| <= 255 && port < 65536 && h.trace.received == [greeting]
    requires var s := h.trace.state; s.firstStepCompleted && s.output == [] && !s.drop && !h.trace.returned
    ensures 1 <= |H.DomainRequest(host, port)| <= 1024
    ensures var o := Round(p, OnlyThis(h.client, Sends(H.DomainRequest(host, port))));
            && o.Running? && Within(o.state) && h.id in RIds(o.state.resolvings)
            && Messages(o.state.log, h.id) == [greeting, H.DomainRequest(host, port)]
  {
    hide Inv, Round, Within, H.TraceOk, H.Feed, Messages, H.DomainRequest, H.ReadRequest, RIds, LIds;
    RequestSize(host, port);
    InvEntries(p);
    var m := H.DomainRequest(host, port);
    RoundStepsOn(p, h, Sends(m));
    var memory := p.clients[h.id].memory;
    H.EveryRequestGoesOn(h.trace, h.client, memory, m);
    var q, t := Round(p, OnlyThis(h.client, Sends(m))).state, H.Feed(h.trace, Doing(Sends(m)));
    var s :| SteppedOn(s, h, t, q) && s.open <= p.open;
    H.TraceDestination(t, h.client, memory);
    H.TwoPieces(memory, greeting, m);
    H.DomainRequestRead(host, port, Overlay(greeting, memory));
  }

  /**
    Whatever state a run has left the server in: as long as two more descriptors fit below 1024, some
    further rounds accept a new client, relay it to the port it asks for at the address in the reply,
    and carry what it sends and what it is sent.
   */
  lemma AnybodyIsServed(pid: nat, listener: int, ks: seq<Kernel>, p: State,
                        greeting: seq<byte>, host: seq<byte>, port: nat,
                        reply: seq<byte>, alias: seq<byte>, address: seq<byte>, up: seq<byte>, down: seq<byte>)
    returns (more: seq<Kernel>, e: Relaying)
    requires ValidKernels(ks) && From(pid, listener, ks) == Running(p) && |p.open| <= 1022
    requires 1 <= |greeting| <= 1024 && |host| <= 255 && port < 65536
    requires DnsCodec.HostOk(host) && DnsCodec.HostOk(alias) && |address| == 4
    requires 1 <= |reply| <= 65536 && D.AliasReply(reply, host, alias, address)
    requires 1 <= |up| <= 4096 && 1 <= |down| <= 4096
    ensures Inv(p) && ValidKernels(more) && Run(p, more).Running? && e in Run(p, more).state.relays
    ensures e.id == |p.clients| && e.target.ByAddress? && e.target.port == port
    ensures StoreLow(e.target.address, 4) == address
    ensures e.conn.cf.delivered == [up] && e.conn.fc.delivered == [down]
  {
    hide Inv, Run, ValidKernels, Within, Messages, Answers, StoreLow, H.DomainRequest, DnsCodec.HostOk, D.AliasReply;
    InitialInv(pid, listener);
    FromWithin(pid, listener, ks);
    var ks1, r := NewClientResolves(p, greeting, host, port);
    var q1 := Run(p, ks1).state;
    var ks2 := ResolvesInTwo(q1, r, reply);
    RunJoin(p, ks1, ks2);
    var q2 := Run(q1, ks2).state;
    var e2 :| e2 in q2.relays && e2.id == r.id && e2.conn.client == r.client && e2.target.ByAddress?
              && e2.target.port == r.port && Untouched(e2.conn);
    RelayedAsAsked(q2, e2, greeting, host, port, reply, alias, address);
    RelayEnds(q2, e2);
    var ks3, e3 := CarriesOne(q2, e2, true, up);
    RunJoin(p, ks1 + ks2, ks3);
    var q3 := Run(q2, ks3).state;
    var ks4, e4 := CarriesOne(q3, e3, false, down);
    RunJoin(p, ks1 + ks2 + ks3, ks4);
    more, e := ks1 + ks2 + ks3 + ks4, e4;
  }

  lemma FromWithin(pid: nat, listener: int, ks: seq<Kernel>)
    requires ValidKernels(ks) && From(pid, listener, ks).Running?
    ensures Inv(From(pid, listener, ks).state) && Within(From(pid, listener, ks).state)
  {
    hide Inv, Run, ValidKernels;
    InitialInv(pid, listener);
    RunWithin(Initial(pid, listener), ks);
  }

  /** After every run, while a descriptor below 1024 is free, some further round accepts one client more. */
  lemma CanAccept(pid: nat, listener: int, ks: seq<Kernel>, p: State)
    requires ValidKernels(ks) && From(pid, listener, ks) == Running(p) && HasFree(p.open)
    ensures Inv(p)
    ensures exists k :: ValidKernel(k) && Round(p, k).Running? && |Round(p, k).state.clients| == |p.clients| + 1
  {
    hide Inv, Round, Run, ValidKernel, ValidKernels, Within;
    FromWithin(pid, listener, ks);
    var k := AcceptsAnother(p);
  }

  /**
    After every run, for every listed resolver and every message, some further rounds relay the
    client; if the message is a reply the code can serve, then to the address in it.
   */
  lemma CanResolve(pid: nat, listener: int, ks: seq<Kernel>, p: State, r: Resolving, reply: seq<byte>)
    returns (more: seq<Kernel>, e: Relaying)
    requires ValidKernels(ks) && From(pid, listener, ks) == Running(p) && r in p.resolvings && 1 <= |reply| <= 65536
    ensures Inv(p) && ValidKernels(more) && Run(p, more).Running? && e in Run(p, more).state.relays
    ensures e.id == r.id && e.conn.client == r.client && e.target.ByAddress? && e.target.port == r.port
    ensures D.Reply(reply) && D.AnswerCount(reply) > 0 ==> Some(StoreLow(e.target.address, 4)) == D.ReplyAddress(reply)
  {
    hide Inv, Run, ValidKernels, Within, Messages, Answers, StoreLow, D.Reply, D.AnswerCount, D.ReplyAddress, Untouched;
    FromWithin(pid, listener, ks);
    more := ResolvesInTwo(p, r, reply);
    var q := Run(p, more).state;
    e :| e in q.relays && e.id == r.id && e.conn.client == r.client && e.target.ByAddress? && e.target.port == r.port;
    RelayAddress(q, e, reply);
  }

  lemma RelayAddress(q: State, e: Relaying, reply: seq<byte>)
    requires Inv(q) && e in q.relays && e.target.ByAddress? && Answers(q.log, e.id) == [reply]
    ensures D.Reply(reply) && D.AnswerCount(reply) > 0 ==> Some(StoreLow(e.target.address, 4)) == D.ReplyAddress(reply)
  {
    hide Owns, Counts, H.ReadRequest, Messages, Answers, D.Reply, D.ReplyAddress, D.AnswerCount, StoreLow, R.RelayOk;
    assert RelayingOk(q.clients, q.log, e);
    assert reply in Answers(q.log, e.id);
  }

  // ---------------------------------------------------------------- clients that hang up

  /** In a round in which it is called, a handshake whose trace returned is no longer among the handshakes. */
  lemma ReturnedLeaves(p: State, k: Kernel, h: Handshaking)
    requires ValidKernel(k) && Inv(p) && Serve(p, k).Running? && h in p.handshakes
    ensures Tracks(p.clients, h)
    ensures var t, q := FedTrace(p, h, k), Serve(p, k).state;
            t.returned ==>
              && h.id !in HIds(q.handshakes)
              && (!t.state.dest.domain ==>
                    exists e <- q.relays :: e.id == h.id && e.target == ByText(t.state.dest.addr, t.state.dest.port))
  {
    hide Inv, Pending, Handshakes, Resolvings, Connections, Tracks, FedTrace, HIds, RIds, LIds, Messages,
         R.RelayOk, RelayOne;
    AcceptsOneIff(p, k);
    PendingInv(p, k);
    InvEntries(p);
    var a := Pending(p, k).state;
    assert h in a.handshakes by {
      assert p.listener in p.readset ==> a.handshakes[..|p.handshakes|] == p.handshakes;
      assert p.handshakes <= a.handshakes;
    }
    HandshakesEach(a, k, h);
    FedWith(p, a, h, k);
    var b := Handshakes(a, k);
    ResolvingsStep(b, k);
    var c := Resolvings(b, k).state;
    ConnectionsStep(c, k);
    var t := FedTrace(p, h, k);
    if t.returned {
      Moved(a, h, t, b);
      if h.id in HIds(b.handshakes) { NotBoth(b, h.id); }
      if !t.state.dest.domain {
        var e :| e in b.relays && e.id == h.id && e.target == ByText(t.state.dest.addr, t.state.dest.port);
        assert e in c.relays;
        var e' := ServedRelay(c, k, e);
        RelayOneKeeps(c, e, k);
      }
    }
  }

  lemma FedWith(p: State, a: State, h: Handshaking, k: Kernel)
    requires ValidKernel(k) && Tracks(p.clients, h) && Tracks(a.clients, h) && SameMasks(p, a)
    ensures FedTrace(p, h, k) == FedTrace(a, h, k)
  {
  }

  lemma Moved(a: State, h: Handshaking, t: H.Trace, b: State)
    requires HandshakeGoes(a, h, t, b) && t.returned
    ensures GotOn(b, h.id)
  {
    if t.state.dest.domain {
      var r :| r in b.resolvings && r.id == h.id;
      var i :| 0 <= i < |b.resolvings| && b.resolvings[i] == r;
      assert RIds(b.resolvings)[i] == h.id;
    } else {
      var e :| e in b.relays && e.id == h.id;
      var i :| 0 <= i < |b.relays| && b.relays[i] == e;
      assert LIds(b.relays)[i] == h.id;
    }
  }

  /**
    A client that ends its stream while its handshake waits for a message leaves the handshakes in
    that round: it gets a relay to nowhere.
   */
  lemma HangUpLeaves(p: State, k: Kernel, h: Handshaking)
    requires ValidKernel(k) && Inv(p) && Round(p, k).Running? && h in p.handshakes
    requires !h.trace.state.drop && h.trace.state.output == []
    requires k.ready.Ready? && h.client in k.ready.rd && k.handshakeIo(h.client).received == EndOfStream
    ensures h.id !in HIds(Round(p, k).state.handshakes)
    ensures exists e <- Round(p, k).state.relays :: e.id == h.id && e.target == ByText([], 0)
  {
    hide Inv, Prepare, Serve, Tracks, HIds, Unstarted, ReadDue, WriteDue;
    PrepareInv(p);
    PrepareDrops(p);
    MasksAreExact(p);
    var q := Prepare(p).state;
    HangsUp(q, h);
    var s := Selected(q, k.ready.rd, k.ready.wr);
    assert h.client in s.readset;
    InvEntries(s);
    ReturnedLeaves(s, k, h);
    EndsNowhere(s, h, k);
  }

  lemma HangsUp(q: State, h: Handshaking)
    requires h in q.handshakes && h.trace.state.output == []
    ensures ReadDue(q, h.client)
  {
  }

  lemma EndsNowhere(s: State, h: Handshaking, k: Kernel)
    requires ValidKernel(k) && Tracks(s.clients, h) && h.client in s.readset
    requires !h.trace.state.drop && h.trace.state.output == [] && k.handshakeIo(h.client).received == EndOfStream
    ensures var t := FedTrace(s, h, k); t.returned && t.state.dest == NOWHERE
  {
    H.WaitingForMessage(h.trace, h.client, s.clients[h.id].memory);
    H.WhenReadingEnds(h.trace, H.HandshakeInput(true, h.client in s.writeset, k.handshakeIo(h.client)));
  }

  // ---------------------------------------------------------------- when the loop is left

  /** The first half of an iteration, once select has answered. */
  lemma LeftAtResolvers(s: State, k: Kernel)
    requires ValidKernel(k) && Inv(s) && Within(s) && Pending(s, k).Running? && s.readset <= s.open
    ensures Resolvings(AtResolvers(s, k), k).Thrown? <==>
              exists r <- AtResolvers(s, k).resolvings :: r.resolver.fd >= 1024
  {
    hide Inv, HandshakePass, ResolvePass, N.ValidState, ValidKernel;
    PendingInv(s, k);
    PendingMoves(s, k);
    AcceptsOneIff(s, k);
    var a := Pending(s, k).state;
    InvEntries(a);
    HandshakesStep(a, k);
    HandshakePassOpens(a.(handshakes := []), a.handshakes, k);
    var b := AtResolvers(s, k);
    InvEntries(b);
    ResolvePassThrownIff(b.(resolvings := []), b.resolvings, k);
    assert a.open == s.open || a.open >= s.open;
    forall r | r in b.resolvings && r.resolver.fd >= 1024 ensures r.resolver.fd !in b.readset {
      assert r !in s.resolvings;
      assert r.resolver.fd !in a.open;
    }
  }

  /**
    After every run, an exception leaves the next round exactly if select fails, or a client has to be
    accepted that accept or the range check refuses, or a resolver made in this round has a
    descriptor that select cannot look at.
   */
  lemma LeftIff(pid: nat, listener: int, ks: seq<Kernel>, p: State, k: Kernel)
    requires ValidKernels(ks) && From(pid, listener, ks) == Running(p) && ValidKernel(k)
    ensures Inv(p) && Prepare(p).Running? && Inv(Prepare(p).state)
    ensures if k.ready.SelectFailed? then Round(p, k).Thrown?
            else
              var s := Selected(Prepare(p).state, k.ready.rd, k.ready.wr);
              if s.listener in s.readset && (k.acceptFails || k.fresh'(s.open) >= 1024) then Round(p, k).Thrown?
              else
                && Pending(s, k).Running?
                && (Round(p, k).Thrown? <==> exists r <- AtResolvers(s, k).resolvings :: r.resolver.fd >= 1024)
  {
    hide Inv, Run, Owns, ValidKernels, ValidKernel, Prepare, Handshakes, Resolvings, Connections, Pending, MasksAsked;
    FromWithin(pid, listener, ks);
    PrepareRuns(p);
    PrepareInv(p);
    PrepareAsked(p);
    var q := Prepare(p).state;
    InvOwns(q);
    MasksAreOpen(q);
    if k.ready.Ready? {
      var s := Selected(q, k.ready.rd, k.ready.wr);
      AcceptsOneIff(s, k);
      if Pending(s, k).Running? {
        PendingInv(s, k);
        LeftAtResolvers(s, k);
        if s.readset == {} && s.writeset == {} {
          IdleHandshakes(s, k);
          assert AtResolvers(s, k) == s;
        }
      }
    }
  }
}
