// The guarantees of the proxy over whole runs from the start.
module ProxyGuarantees {
  import opened Bytes
  import opened Wrappers
  import D = DnsMessage
  import DnsCodec
  import H = Handshake
  import N = Resolver
  import R = Relay
  import opened Proxy
  import opened ProxyInvariant
  import opened ProxySteps
  import opened ProxyRun
  import opened ProxyProgress
  import opened ProxyTheorems

  ghost function From(pid: nat, listener: int, ks: seq<Kernel>): Outcome
    requires ValidKernels(ks)
  {
    InitialInv(pid, listener);
    Run(Initial(pid, listener), ks)
  }

  lemma FromInv(pid: nat, listener: int, ks: seq<Kernel>, p: State)
    requires ValidKernels(ks) && From(pid, listener, ks) == Running(p)
    ensures Inv(p)
  {
    hide Inv, Run;
    InitialInv(pid, listener);
  }

  /**
    At every top of the loop the open descriptors are the listener, the listed clients and the
    sockets opened for them, each exactly once; and every accepted client is in exactly one stage.
   */
  lemma NothingLeaks(pid: nat, listener: int, ks: seq<Kernel>, p: State)
    requires ValidKernels(ks) && From(pid, listener, ks) == Running(p)
    ensures multiset(p.open) ==
              multiset{p.listener} + Gather(p.handshakes, HandshakeFds)
              + Gather(p.resolvings, ResolveFds) + Gather(p.relays, RelayFds)
    ensures |p.clients| == |p.handshakes| + |p.resolvings| + |p.relays| + |p.closed|
  {
    hide Run, Tied;
    FromInv(pid, listener, ks, p);
    AcceptedIsTheSum(p);
  }

  /** Over any further rounds, each client stays at its stage or goes on to a later one. */
  lemma {:induction false} StagesAdvanceOverRuns(p: State, ks: seq<Kernel>, id: nat)
    requires ValidKernels(ks) && Inv(p) && Run(p, ks).Running? && id < |p.clients|
    ensures id < |Run(p, ks).state.clients|
    ensures Stage(p, id) <= Stage(Run(p, ks).state, id)
    decreases |ks|
  {
    hide Inv, Round, Stage, ValidKernel;
    if ks != [] {
      var resolved, related := RoundMoves(p, ks[0]);
      StagesAdvance(p, ks[0], id);
      StagesAdvanceOverRuns(Round(p, ks[0]).state, ks[1..], id);
    }
  }

  /**
    No mixing: a relay that came from a resolver has its own client's descriptor and the port of
    that client's own request, and the address in the reply its own resolver received; nobody else
    holds either of its descriptors.
   */
  lemma NoMixing(pid: nat, listener: int, ks: seq<Kernel>, p: State, e: Relaying)
    requires ValidKernels(ks) && From(pid, listener, ks) == Running(p)
    requires e in p.relays && e.target.ByAddress?
    ensures KnownClient(p.clients, p.log, e.id) && e.conn.client == p.clients[e.id].fd
    ensures RequestOf(p.clients, p.log, e.id).domain
    ensures e.target.port == RequestOf(p.clients, p.log, e.id).port
    ensures forall reply <- Answers(p.log, e.id) ::
              D.Reply(reply) && D.AnswerCount(reply) > 0 ==>
                Some(StoreLow(e.target.address, 4)) == D.ReplyAddress(reply)
    ensures forall fd <- RelayFds(e) ::
              && fd != p.listener
              && (forall h <- p.handshakes :: fd !in HandshakeFds(h))
              && (forall r <- p.resolvings :: fd !in ResolveFds(r))
              && (forall d <- p.relays :: d != e ==> fd !in RelayFds(d))
  {
    hide Run, Owns, Counts, H.ReadRequest, Messages, Answers, D.Reply, D.ReplyAddress, StoreLow, R.RelayOk,
         HandshakeFds, ResolveFds, RelayFds;
    FromInv(pid, listener, ks, p);
    forall fd | fd in RelayFds(e)
      ensures fd != p.listener
      ensures forall h <- p.handshakes :: fd !in HandshakeFds(h)
      ensures forall r <- p.resolvings :: fd !in ResolveFds(r)
      ensures forall d <- p.relays :: d != e ==> fd !in RelayFds(d)
    {
      RelayApart(p, e, fd);
    }
  }

  /**
    While a client waits for its resolver, what the resolver sends is the query RFC 1035 reads as
    one for that client's own host, exactly when the host has a wire form: labels of 1 to 63 bytes
    that fit a name, a final dot aside.
   */
  lemma AsksForOwnHost(pid: nat, listener: int, ks: seq<Kernel>, p: State, e: Resolving)
    requires ValidKernels(ks) && From(pid, listener, ks) == Running(p)
    requires e in p.resolvings
    ensures KnownClient(p.clients, p.log, e.id) && e.client == p.clients[e.id].fd
    ensures D.HEADER <= |e.resolver.buf| && 0 in e.resolver.buf[D.HEADER..]
    ensures D.QuestionAt(e.resolver.buf) + D.QUESTION <= |e.resolver.buf|
    ensures var host := UpToZero(RequestOf(p.clients, p.log, e.id).addr);
            D.AsksFor(D.QueryBytes(e.resolver.buf), p.pid, host) <==>
              D.HasWireForm(host)
  {
    hide Run, Owns, Counts, H.ReadRequest, Messages, Answers, D.IsQueryBuffer, D.AsksFor, D.HasWireForm;
    FromInv(pid, listener, ks, p);
    assert ResolvingOk(p.pid, p.clients, p.log, e);
    D.QueryAsksIff(e.resolver.buf, p.pid, UpToZero(RequestOf(p.clients, p.log, e.id).addr));
  }

  /**
    End to end: a client that greets and asks for a host and a port, and whose resolver receives
    the usual alias-and-address reply, is relayed to that port at the address in the reply.
   */
  lemma ServedAsAsked(pid: nat, listener: int, ks: seq<Kernel>, p: State, e: Relaying,
                      greeting: seq<byte>, host: seq<byte>, port: nat,
                      reply: seq<byte>, alias: seq<byte>, address: seq<byte>)
    requires ValidKernels(ks) && From(pid, listener, ks) == Running(p)
    requires e in p.relays
    requires |host| <= 255 && port < 65536
    requires Messages(p.log, e.id) == [greeting, H.DomainRequest(host, port)]
    requires Answers(p.log, e.id) == [reply]
    requires DnsCodec.HostOk(host) && DnsCodec.HostOk(alias) && |address| == 4
    requires D.AliasReply(reply, host, alias, address)
    ensures e.id < |p.clients| && e.conn.client == p.clients[e.id].fd
    ensures e.target.ByAddress? && e.target.port == port && StoreLow(e.target.address, 4) == address
  {
    hide Inv, Run, H.DomainRequest, Messages, Answers, D.AliasReply, StoreLow, DnsCodec.HostOk;
    FromInv(pid, listener, ks, p);
    RelayedAsAsked(p, e, greeting, host, port, reply, alias, address);
  }

  lemma RelayedAsAsked(p: State, e: Relaying, greeting: seq<byte>, host: seq<byte>, port: nat,
                       reply: seq<byte>, alias: seq<byte>, address: seq<byte>)
    requires Inv(p) && e in p.relays
    requires |host| <= 255 && port < 65536
    requires Messages(p.log, e.id) == [greeting, H.DomainRequest(host, port)]
    requires Answers(p.log, e.id) == [reply]
    requires DnsCodec.HostOk(host) && DnsCodec.HostOk(alias) && |address| == 4
    requires D.AliasReply(reply, host, alias, address)
    ensures e.id < |p.clients| && e.conn.client == p.clients[e.id].fd
    ensures e.target.ByAddress? && e.target.port == port && StoreLow(e.target.address, 4) == address
  {
    hide Owns, Counts, H.ReadRequest, H.DomainRequest, Messages, Answers, D.AliasReply, D.ReplyAddress,
         StoreLow, R.RelayOk, DnsCodec.HostOk, D.Reply;
    assert RelayingOk(p.clients, p.log, e);
    var memory, request := p.clients[e.id].memory, H.DomainRequest(host, port);
    assert request in Messages(p.log, e.id);
    var earlier := H.InputAfter(memory, [greeting]);
    assert H.InputAfter(memory, [greeting, request]) == Overlay(request, earlier) by {
      assert [greeting, request][..1] == [greeting];
    }
    H.DomainRequestRead(host, port, earlier);
    D.AliasReplyServed(reply, host, alias, address);
    AliasHasAnswers(reply, host, alias, address);
  }

  /**
    What a client is taken to have asked for is the destination of the cut in which recv handed over
    its stream; `Handshake.CutServesIff` says which cuts give the host and the port it meant.
   */
  lemma AskedAsCut(pid: nat, listener: int, ks: seq<Kernel>, p: State, e: Relaying, stream: seq<byte>)
    requires ValidKernels(ks) && From(pid, listener, ks) == Running(p)
    requires e in p.relays && |Messages(p.log, e.id)| == 2
    requires Messages(p.log, e.id)[0] + Messages(p.log, e.id)[1] <= stream
    ensures KnownClient(p.clients, p.log, e.id)
    ensures |Messages(p.log, e.id)[0]| <= H.MAX_BUF_SIZE && |Messages(p.log, e.id)[1]| <= H.MAX_BUF_SIZE
    ensures RequestOf(p.clients, p.log, e.id)
         == H.CutDestination(stream, |Messages(p.log, e.id)[0]|, |Messages(p.log, e.id)[1]|, p.clients[e.id].memory)
  {
    hide Run, Owns, Counts, H.ReadRequest, H.InputAfter, Messages, Answers, R.RelayOk;
    FromInv(pid, listener, ks, p);
    assert RelayingOk(p.clients, p.log, e);
    var x, y := Messages(p.log, e.id)[0], Messages(p.log, e.id)[1];
    assert x in Messages(p.log, e.id) && y in Messages(p.log, e.id);
    assert x == stream[..|x|] && y == stream[|x|..|x| + |y|];
    assert Messages(p.log, e.id) == [x, y];
  }

  lemma AliasHasAnswers(reply: seq<byte>, host: seq<byte>, alias: seq<byte>, address: seq<byte>)
    requires |address| == 4 && D.AliasReply(reply, host, alias, address)
    ensures D.HEADER <= |reply| && D.AnswerCount(reply) > 0
  {
  }

  // ---------------------------------------------------------------- what relays lose

  ghost function StartOf(e: Relaying): R.RelayState
    requires Called(e)
    ensures R.LaneShape(StartOf(e).cf) && R.LaneShape(StartOf(e).fc)
  {
    R.NewRelay(e.conn.client, e.conn.forward, e.memory)
  }

  /**
    After every run, for every relay the server has closed: in each direction everything received
    was delivered if and only if every send made to it took all that was in its slot and the slot
    was empty when it was closed.
   */
  lemma ClosedLosslessIff(pid: nat, listener: int, ks: seq<Kernel>, p: State, e: Relaying)
    requires ValidKernels(ks) && From(pid, listener, ks) == Running(p) && e in p.closed
    ensures Called(e) && e.conn.toDisconnect
    ensures Concat(e.conn.cf.delivered) == Concat(e.conn.cf.received) <==>
              R.AllForwardTake(StartOf(e), e.calls) && e.conn.cf.count <= 0
    ensures Concat(e.conn.fc.delivered) == Concat(e.conn.fc.received) <==>
              R.AllClientTake(StartOf(e), e.calls) && e.conn.fc.count <= 0
  {
    hide Run, Owns, Counts, R.Run, R.AllForwardTake, R.AllClientTake, Concat;
    FromInv(pid, listener, ks, p);
    assert ClosedOk(e);
    R.ClosedLosslessIff(e.conn.client, e.conn.forward, e.memory, e.calls);
  }

  /** And for every relay still listed, with the bytes that wait in its slot. */
  lemma ListedLosslessIff(pid: nat, listener: int, ks: seq<Kernel>, p: State, e: Relaying)
    requires ValidKernels(ks) && From(pid, listener, ks) == Running(p) && e in p.relays
    ensures Called(e) && R.LaneShape(e.conn.cf) && R.LaneShape(e.conn.fc)
    ensures Concat(e.conn.cf.delivered) + R.Pending(e.conn.cf) == Concat(e.conn.cf.received) <==>
              R.AllForwardTake(StartOf(e), e.calls)
    ensures Concat(e.conn.fc.delivered) + R.Pending(e.conn.fc) == Concat(e.conn.fc.received) <==>
              R.AllClientTake(StartOf(e), e.calls)
  {
    hide Run, Owns, Counts, R.Run, R.AllForwardTake, R.AllClientTake, Concat;
    FromInv(pid, listener, ks, p);
    RelayingCalled(p.clients, p.log, e);
    R.RunIsLosslessIff(e.conn.client, e.conn.forward, e.memory, e.calls);
  }

  /**
    After every run every relay, listed or closed, is two wires: what each sink has taken, what each
    source gave, what waits and whether it is to be dropped follow from the calls the server made.
   */
  lemma RelaysAreWires(pid: nat, listener: int, ks: seq<Kernel>, p: State, e: Relaying)
    requires ValidKernels(ks) && From(pid, listener, ks) == Running(p) && (e in p.relays || e in p.closed)
    ensures R.LaneShape(e.conn.cf) && R.LaneShape(e.conn.fc)
    ensures var up := R.Carry(R.IDLE, R.TurnsFromClient(e.conn.client, e.conn.forward, e.calls));
            var down := R.Carry(R.IDLE, R.TurnsFromForward(e.conn.client, e.conn.forward, e.calls));
            && Concat(e.conn.cf.delivered) == up.taken && Concat(e.conn.cf.received) == up.given
            && R.Pending(e.conn.cf) == up.waiting
            && Concat(e.conn.fc.delivered) == down.taken && Concat(e.conn.fc.received) == down.given
            && R.Pending(e.conn.fc) == down.waiting
            && (e.conn.toDisconnect <==> up.over || down.over)
  {
    hide Run, Owns, Counts, R.Run, R.Carry, R.TurnsFromClient, R.TurnsFromForward, Concat;
    FromInv(pid, listener, ks, p);
    if e in p.relays { RelayingCalled(p.clients, p.log, e); } else { assert ClosedOk(e); }
    R.NewRelayIsWires(e.conn.client, e.conn.forward, e.memory, e.calls);
  }

  /** The half-closed relay, when the sets are prepared next: both descriptors go, and the byte with them. */
  lemma HalfClosedIsSwept(p: State, e: Relaying)
    requires |e.memory| == R.BUFSIZE && e.conn.client != e.conn.forward
    requires e.calls == R.HalfClose(e.conn.client, e.conn.forward) && R.ValidInputs(e.calls) && Called(e)
    ensures var q := SweepOne(p, e);
            && q.relays == p.relays && q.closed == p.closed + [e]
            && e.conn.client !in q.open && e.conn.forward !in q.open
            && R.AllForwardTake(StartOf(e), e.calls) && R.AllClientTake(StartOf(e), e.calls)
            && e.conn.fc.received == [[7]] && e.conn.fc.delivered == []
  {
    hide R.Run, R.AllForwardTake, R.AllClientTake;
    R.HalfCloseLosesPending(e.conn.client, e.conn.forward, e.memory);
  }

  // ---------------------------------------------------------------- how far select looks

  /** Every accepted client's descriptor is within select's reach. */
  ghost predicate Reached(p: State) {
    p.listener < p.fdMax && forall c <- p.clients :: c.fd < p.fdMax
  }

  lemma {:induction false} HandshakePassReach(p: State, todo: seq<Handshaking>, k: Kernel)
    requires ValidKernel(k) && forall e <- todo :: Tracks(p.clients, e)
    ensures HandshakePass(p, todo, k).fdMax == p.fdMax && HandshakePass(p, todo, k).listener == p.listener
    decreases |todo|
  {
    hide H.Feed, H.TraceOk, N.NewResolver, R.NewRelay, Tracks;
    if todo != [] {
      assert todo[0] in todo && forall e <- todo[1..] :: e in todo;
      HandshakePassReach(HandshakeOne(p, todo[0], k), todo[1..], k);
    }
  }

  lemma {:induction false} ResolvePassReach(p: State, todo: seq<Resolving>, k: Kernel)
    requires ValidKernel(k) && (forall e <- todo :: N.ValidState(e.resolver)) && ResolvePass(p, todo, k).Running?
    ensures ResolvePass(p, todo, k).state.fdMax >= p.fdMax && ResolvePass(p, todo, k).state.listener == p.listener
    decreases |todo|
  {
    hide N.Exchange, R.NewRelay, N.ValidState;
    if todo != [] {
      assert todo[0] in todo && forall e <- todo[1..] :: e in todo;
      ResolvePassReach(ResolveOne(p, todo[0], k).state, todo[1..], k);
    }
  }

  lemma ServeReached(p: State, k: Kernel)
    requires ValidKernel(k) && Inv(p) && Reached(p) && Serve(p, k).Running?
    ensures Reached(Serve(p, k).state)
  {
    hide Inv, HandshakePass, ResolvePass, H.Start;
    PendingInv(p, k);
    var a := Pending(p, k).state;
    assert Reached(a);
    InvEntries(a);
    HandshakePassReach(a.(handshakes := []), a.handshakes, k);
    HandshakesStep(a, k);
    var b := Handshakes(a, k);
    InvEntries(b);
    ResolvePassReach(b.(resolvings := []), b.resolvings, k);
    ResolvingsStep(b, k);
    ConnectionsStep(Resolvings(b, k).state, k);
  }

  lemma RoundReached(p: State, k: Kernel)
    requires ValidKernel(k) && Inv(p) && Reached(p) && Round(p, k).Running?
    ensures Reached(Prepare(p).state) && Reached(Round(p, k).state)
  {
    hide Inv, Prepare, Serve;
    PrepareInv(p);
    PrepareReached(p);
    var s := Selected(Prepare(p).state, k.ready.rd, k.ready.wr);
    if s.readset != {} || s.writeset != {} {
      ServeReached(s, k);
    }
  }

  lemma PrepareReached(p: State)
    requires Prepare(p).Running? && Reached(p)
    ensures Reached(Prepare(p).state)
  {
    PrepareFillsAll(p);
    PrepareIs(p);
    SweepKeepsReach(p.(relays := [], readset := {p.listener}, writeset := {}), p.relays);
  }

  lemma {:induction false} RunReached(p: State, ks: seq<Kernel>)
    requires ValidKernels(ks) && Inv(p) && Reached(p) && Run(p, ks).Running?
    ensures Reached(Run(p, ks).state)
    decreases |ks|
  {
    hide Inv, Round, ValidKernel, Reached;
    if ks != [] {
      RoundReached(p, ks[0]);
      RunReached(Round(p, ks[0]).state, ks[1..]);
    }
  }

  /**
    Whenever select is asked, after any run, its reach covers the listener, every listed client
    and every resolver socket, and its masks hold all that listed entries wait for.
   */
  lemma SelectSeesAll(pid: nat, listener: int, ks: seq<Kernel>, p: State)
    requires ValidKernels(ks) && From(pid, listener, ks) == Running(p)
    requires Prepare(p).Running?
    ensures var q := Prepare(p).state;
            && MasksComplete(q) && MasksAsked(q) && q.listener < q.fdMax
            && (forall e <- q.handshakes :: e.client < q.fdMax)
            && (forall e <- q.resolvings :: e.client < q.fdMax && e.resolver.fd < q.fdMax)
            && (forall e <- q.relays :: e.conn.client < q.fdMax)
  {
    hide Inv, Prepare, Run, MasksComplete, MasksAsked;
    InitialInv(pid, listener);
    RunReached(Initial(pid, listener), ks);
    PrepareFillsAll(p);
    PrepareAsked(p);
    PrepareInv(p);
    PrepareReached(p);
    ClientsReached(Prepare(p).state);
  }

  lemma ClientsReached(q: State)
    requires Inv(q) && Reached(q)
    ensures forall e <- q.handshakes :: e.client < q.fdMax
    ensures forall e <- q.resolvings :: e.client < q.fdMax
    ensures forall e <- q.relays :: e.conn.client < q.fdMax
  {
    hide Owns, Counts, H.TraceOk, H.ReadRequest, Messages, Answers, R.RelayOk, D.IsQueryBuffer;
    assert forall id: nat :: id < |q.clients| ==> q.clients[id] in q.clients;
  }
}
