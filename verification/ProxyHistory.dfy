// What passes between the proxy and the network for one client before its relay exists: a greeting,
// a request, a query for the host of that request, and a reply, in this order and each at most once.
module ProxyHistory {
  import opened Bytes
  import D = DnsMessage
  import H = Handshake
  import N = Resolver
  import R = Relay
  import opened Proxy
  import opened ProxyInvariant
  import opened ProxySteps
  import opened ProxyRun
  import opened ProxyProgress
  import opened ProxyCalls
  import opened ProxyGuarantees

  // ---------------------------------------------------------------- one client's events

  function History(log: seq<Event>, id: nat): seq<Event> {
    if log == [] then []
    else
      var before, last := History(log[..|log| - 1], id), log[|log| - 1];
      if last.id == id then before + [last] else before
  }

  lemma HistoryGrows(log: seq<Event>, more: seq<Event>, id: nat)
    requires |more| <= 1
    ensures History(log + more, id) == History(log, id) + (if more != [] && more[0].id == id then more else [])
  {
    if more == [] {
      assert log + more == log;
    } else {
      assert (log + more)[..|log + more| - 1] == log;
    }
  }

  lemma {:induction false} NoHistory(log: seq<Event>, id: nat)
    requires forall e <- log :: e.id != id
    ensures History(log, id) == []
  {
    if log != [] {
      var last := log[|log| - 1];
      assert last in log && forall e <- log[..|log| - 1] :: e in log;
      NoHistory(log[..|log| - 1], id);
    }
  }

  /** Two messages of the client, a query, a reply; or less, but without a gap. */
  predicate InOrder(h: seq<Event>) {
    && |h| <= 4
    && forall i :: 0 <= i < |h| ==> (i < 2 ==> h[i].Message?) && (i == 2 ==> h[i].Query?) && (i == 3 ==> h[i].Answer?)
  }

  /** The query sent for a client is one for the host in its own request, exactly when that host has a wire form. */
  ghost predicate QueryOk(pid: nat, clients: seq<Client>, log: seq<Event>, id: nat) {
    |History(log, id)| > 2 ==>
      && KnownClient(clients, log, id) && RequestOf(clients, log, id).domain
      && var host := UpToZero(RequestOf(clients, log, id).addr);
         D.AsksFor(History(log, id)[2].data, pid, host) <==> D.HasWireForm(host)
  }

  /** Every client's history is in order, and those of the listed ones are as far as their entries. */
  ghost predicate Phased(p: State) {
    && (forall id: nat :: InOrder(History(p.log, id)) && QueryOk(p.pid, p.clients, p.log, id))
    && (forall h <- p.handshakes :: |History(p.log, h.id)| == |Messages(p.log, h.id)|)
    && (forall r <- p.resolvings :: |History(p.log, r.id)| == if r.resolver.requestSended then 3 else 2)
  }

  /** Entries may come and go, as long as the new ones are as far as the log says. */
  lemma PhasedSame(p: State, q: State)
    requires Phased(p) && q.log == p.log && q.clients == p.clients && q.pid == p.pid
    requires forall h <- q.handshakes :: h in p.handshakes || |History(q.log, h.id)| == |Messages(q.log, h.id)|
    requires forall r <- q.resolvings :: r in p.resolvings ||
               |History(q.log, r.id)| == if r.resolver.requestSended then 3 else 2
    ensures Phased(q)
  {
    hide History, Messages, InOrder, QueryOk;
  }

  // ---------------------------------------------------------------- one event

  /** The log grows by at most one event of a client that no entry carries. */
  lemma EventAdded(b: State, id: nat, more: seq<Event>)
    requires Phased(b) && OnlyOthers(b, id) && |more| <= 1 && forall ev <- more :: ev.id == id
    requires InOrder(History(b.log + more, id)) && QueryOk(b.pid, b.clients, b.log + more, id)
    ensures Phased(b.(log := b.log + more))
  {
    hide History, Messages, Answers, InOrder, QueryOk;
    var log := b.log + more;
    forall o: nat | o != id
      ensures History(log, o) == History(b.log, o) && Messages(log, o) == Messages(b.log, o)
      ensures QueryOk(b.pid, b.clients, log, o)
    {
      HistoryGrows(b.log, more, o);
      OtherLog(b.log, more, o);
      SameQuery(b.pid, b.clients, b.log, log, o);
    }
    forall o: nat ensures InOrder(History(log, o)) && QueryOk(b.pid, b.clients, log, o) {
      assert InOrder(History(b.log, o));
    }
  }

  lemma SameQuery(pid: nat, clients: seq<Client>, log: seq<Event>, log': seq<Event>, id: nat)
    requires History(log', id) == History(log, id) && Messages(log', id) == Messages(log, id)
    requires QueryOk(pid, clients, log, id)
    ensures QueryOk(pid, clients, log', id)
  {
    hide History, Messages, D.AsksFor, D.HasWireForm, H.ReadRequest, H.InputAfter;
  }

  // ---------------------------------------------------------------- handshakes

  lemma MessageInOrder(p: State, e: Handshaking, k: Kernel)
    requires ValidKernel(k) && HandshakingOk(p.clients, p.log, e)
    requires InOrder(History(p.log, e.id)) && |History(p.log, e.id)| == |Messages(p.log, e.id)|
    ensures var log := p.log + MessageEvent(e.id, e.trace, FeedOne(p, e, k));
            && InOrder(History(log, e.id)) && |History(log, e.id)| == |Messages(log, e.id)| <= 2
            && QueryOk(p.pid, p.clients, log, e.id)
  {
    hide History, Messages, Answers, H.Exchange, H.InputAfter, H.Replies, H.ReadRequest, D.AsksFor, D.HasWireForm;
    var t := FeedOne(p, e, k);
    FeedAddrFits(p, e, k);
    FeedMessages(p, e, k);
    HistoryGrows(p.log, MessageEvent(e.id, e.trace, t), e.id);
    LogGrows(p.log, MessageEvent(e.id, e.trace, t), e.id);
  }

  /** A client that goes on to a resolver has sent a greeting and a request. */
  lemma ResolvingTwoMessages(pid: nat, clients: seq<Client>, log: seq<Event>, e: Resolving)
    requires ResolvingOk(pid, clients, log, e)
    ensures |Messages(log, e.id)| == 2
  {
  }

  lemma HandshakeOnePhased(p: State, e: Handshaking, rest: seq<Handshaking>, k: Kernel)
    requires ValidKernel(k) && Inv(WithHandshakes(p, [e] + rest)) && Tracks(p.clients, e)
    requires Phased(WithHandshakes(p, [e] + rest))
    ensures Phased(WithHandshakes(HandshakeOne(p, e, k), rest))
  {
    hide Inv, Phased, Owned, Ids, TiedOthers, OnlyOthers, HandshakingOk, InOrder, QueryOk, History, Messages,
         FeedOne, Tracks, HandshakeOne;
    var j0, b := WithHandshakes(p, [e] + rest), WithHandshakes(p, rest);
    TakeHandshake(p, e, rest);
    assert e in j0.handshakes && forall h <- b.handshakes :: h in j0.handshakes;
    PhasedSame(j0, b);
    PhasedHandshake(j0, e);
    MessageInOrder(p, e, k);
    EventAdded(b, e.id, MessageEvent(e.id, e.trace, FeedOne(p, e, k)));
    HandshakeOneInv(p, e, rest, k);
    HandshakeOneLists(p, e, rest, k);
    var j := WithHandshakes(HandshakeOne(p, e, k), rest);
    forall r | r in j.resolvings && r !in b.resolvings ensures |History(j.log, r.id)| == 2 {
      InvResolving(j, r);
    }
    PhasedSame(b.(log := j.log), j);
  }

  lemma PhasedHandshake(p: State, e: Handshaking)
    requires Phased(p) && e in p.handshakes
    ensures InOrder(History(p.log, e.id)) && |History(p.log, e.id)| == |Messages(p.log, e.id)|
  {
    hide InOrder, History, Messages, QueryOk;
  }

  lemma HandshakeOneLists(p: State, e: Handshaking, rest: seq<Handshaking>, k: Kernel)
    requires ValidKernel(k) && Tracks(p.clients, e)
    ensures var j := WithHandshakes(HandshakeOne(p, e, k), rest);
            && j.log == p.log + MessageEvent(e.id, e.trace, FeedOne(p, e, k))
            && j.clients == p.clients && j.pid == p.pid
            && (forall h <- j.handshakes :: h in p.handshakes + rest || h.id == e.id)
            && (forall r <- j.resolvings :: r in p.resolvings || (r.id == e.id && !r.resolver.requestSended))
  {
    hide FeedOne, Tracks, R.NewRelay, MessageEvent, N.NewBuffer;
    FeedAddrFits(p, e, k);
  }

  lemma InvResolving(p: State, r: Resolving)
    requires Inv(p) && r in p.resolvings
    ensures ResolvingOk(p.pid, p.clients, p.log, r) && |Messages(p.log, r.id)| == 2
  {
    hide Owns, Counts, HandshakingOk, RelayingOk, ClosedOk, ResolvingOk;
    ResolvingTwoMessages(p.pid, p.clients, p.log, r);
  }

  lemma {:induction false} HandshakePassPhased(p: State, todo: seq<Handshaking>, k: Kernel)
    requires ValidKernel(k) && Inv(WithHandshakes(p, todo)) && forall e <- todo :: Tracks(p.clients, e)
    requires Phased(WithHandshakes(p, todo))
    ensures Phased(HandshakePass(p, todo, k))
    decreases |todo|
  {
    hide Inv, HandshakeOne, Tracks, Phased;
    if todo == [] {
      assert WithHandshakes(p, todo) == p by { assert p.handshakes + [] == p.handshakes; }
    } else {
      assert [todo[0]] + todo[1..] == todo;
      assert todo[0] in todo && forall e <- todo[1..] :: e in todo;
      HandshakeOneInv(p, todo[0], todo[1..], k);
      HandshakeOnePhased(p, todo[0], todo[1..], k);
      HandshakePassPhased(HandshakeOne(p, todo[0], k), todo[1..], k);
    }
  }

  // ---------------------------------------------------------------- resolvers

  /** The query the socket takes is the third event, and is for the client's own host. */
  lemma QueryInOrder(pid: nat, clients: seq<Client>, log: seq<Event>, e: Resolving)
    requires ResolvingOk(pid, clients, log, e) && InOrder(History(log, e.id)) && |History(log, e.id)| == 2
    ensures var log' := log + [Query(e.id, N.Packet(e.resolver.buf))];
            InOrder(History(log', e.id)) && |History(log', e.id)| == 3 && QueryOk(pid, clients, log', e.id)
  {
    hide History, Messages, Answers, H.ReadRequest, H.InputAfter, D.IsQueryBuffer, D.AsksFor, D.HasWireForm;
    var more := [Query(e.id, N.Packet(e.resolver.buf))];
    HistoryGrows(log, more, e.id);
    LogGrows(log, more, e.id);
    assert Messages(log + more, e.id) == Messages(log, e.id);
    D.QueryAsksIff(e.resolver.buf, pid, UpToZero(RequestOf(clients, log, e.id).addr));
  }

  lemma AnswerInOrder(pid: nat, clients: seq<Client>, log: seq<Event>, id: nat, data: seq<byte>)
    requires InOrder(History(log, id)) && |History(log, id)| == 3 && QueryOk(pid, clients, log, id)
    ensures var log' := log + [Answer(id, data)];
            InOrder(History(log', id)) && QueryOk(pid, clients, log', id)
  {
    hide History, Messages, Answers, H.ReadRequest, H.InputAfter, D.AsksFor, D.HasWireForm;
    HistoryGrows(log, [Answer(id, data)], id);
    LogGrows(log, [Answer(id, data)], id);
    assert Messages(log + [Answer(id, data)], id) == Messages(log, id);
  }

  /** A resolver called as it asked does one thing at most: its query is taken, or its reply is read. */
  lemma OneAtATime(e: Resolving, readable: bool, writable: bool, io: N.ResolverIo)
    requires N.ValidState(e.resolver) && N.ValidIo(io)
    requires !e.resolver.responseRecived && N.AnswersAsked(e.resolver, readable, writable)
    ensures var (r, done) := N.Exchange(e.resolver, readable, writable, io);
            && (done <==> readable)
            && (done ==> e.resolver.requestSended && QueryEvent(e, writable, io) == [])
            && (!done ==> (r.requestSended <==> e.resolver.requestSended || QueryEvent(e, writable, io) != []))
  {
  }

  lemma ResolveOnePhased(p: State, e: Resolving, rest: seq<Resolving>, k: Kernel)
    requires ValidKernel(k) && Inv(WithResolvings(p, [e] + rest)) && N.ValidState(e.resolver)
    requires Phased(WithResolvings(p, [e] + rest)) && ResolverCalledAsAsked(p, e)
    ensures ResolveOne(p, e, k).Running? ==> Phased(WithResolvings(ResolveOne(p, e, k).state, rest))
  {
    hide Inv, Owned, Ids, TiedOthers, OnlyOthers, InOrder, QueryOk, History, Messages, ResolvingOk,
         N.Exchange, N.ValidIo, H.ValidIo, R.NewRelay, N.AnswersAsked, N.Packet;
    var j0, b := WithResolvings(p, [e] + rest), WithResolvings(p, rest);
    TakeResolving(p, e, rest);
    assert e in j0.resolvings && forall r <- b.resolvings :: r in j0.resolvings;
    PhasedSame(j0, b);
    var fd, io := e.resolver.fd, k.resolverIo(e.resolver.fd);
    var readable, writable := fd in p.readset, fd in p.writeset;
    OneAtATime(e, readable, writable, io);
    var (r, done) := N.Exchange(e.resolver, readable, writable, io);
    var query, answer := QueryEvent(e, writable, io), AnswerEvent(e.id, io);
    assert p.log + [] == p.log;
    if query != [] {
      QueryInOrder(p.pid, p.clients, p.log, e);
    }
    if done && answer != [] {
      AnswerInOrder(p.pid, p.clients, p.log, e.id, io.received.data);
    }
    EventAdded(b, e.id, if done then answer else query);
    if ResolveOne(p, e, k).Running? && !done {
      var j := WithResolvings(ResolveOne(p, e, k).state, rest);
      assert forall x <- j.resolvings :: x == e.(resolver := r) || x in b.resolvings;
    }
  }

  lemma {:induction false} ResolvePassPhased(p: State, todo: seq<Resolving>, k: Kernel)
    requires ValidKernel(k) && Inv(WithResolvings(p, todo)) && forall e <- todo :: N.ValidState(e.resolver)
    requires Phased(WithResolvings(p, todo)) && forall e <- todo :: ResolverCalledAsAsked(p, e)
    ensures ResolvePass(p, todo, k).Running? ==> Phased(ResolvePass(p, todo, k).state)
    decreases |todo|
  {
    hide Inv, N.ValidState, Phased, N.Exchange, N.AnswersAsked, R.NewRelay;
    if todo == [] {
      assert WithResolvings(p, todo) == p by { assert p.resolvings + [] == p.resolvings; }
    } else {
      assert [todo[0]] + todo[1..] == todo;
      assert todo[0] in todo && forall e <- todo[1..] :: e in todo;
      ResolveOneInv(p, todo[0], todo[1..], k);
      ResolveOnePhased(p, todo[0], todo[1..], k);
      if ResolveOne(p, todo[0], k).Running? {
        ResolvePassPhased(ResolveOne(p, todo[0], k).state, todo[1..], k);
      }
    }
  }

  // ---------------------------------------------------------------- rounds and runs

  lemma {:induction false} SweepKeepsLog(p: State, todo: seq<Relaying>)
    ensures Sweep(p, todo).log == p.log && Sweep(p, todo).pid == p.pid
    decreases |todo|
  {
    if todo != [] {
      SweepKeepsLog(SweepOne(p, todo[0]), todo[1..]);
    }
  }

  lemma PreparePhased(p: State)
    requires Phased(p) && Prepare(p).Running?
    ensures Phased(Prepare(p).state)
  {
    hide Phased, Prepare, Sweep;
    PrepareIs(p);
    PrepareMoves(p);
    SweepKeepsLog(p.(relays := [], readset := {p.listener}, writeset := {}), p.relays);
    PhasedSame(p, Prepare(p).state);
  }

  lemma PendingPhased(p: State, k: Kernel)
    requires ValidKernel(k) && Inv(p) && Phased(p) && Pending(p, k).Running?
    ensures Phased(Pending(p, k).state)
  {
    hide Owns, Counts, HandshakingOk, ResolvingOk, RelayingOk, ClosedOk, InOrder, History, Messages,
         D.AsksFor, D.HasWireForm, H.ReadRequest, H.InputAfter, H.Start;
    var q := Pending(p, k).state;
    if p.listener in p.readset {
      NoEvents(p.log, |p.clients|);
      NoHistory(p.log, |p.clients|);
      forall id: nat ensures InOrder(History(q.log, id)) && QueryOk(q.pid, q.clients, q.log, id) {
        assert InOrder(History(p.log, id)) && QueryOk(p.pid, p.clients, p.log, id);
      }
    }
  }

  lemma ServePhased(p: State, k: Kernel)
    requires ValidKernel(k) && Inv(p) && Phased(p) && Serve(p, k).Running?
    requires forall e <- AtResolvers(p, k).resolvings :: ResolverCalledAsAsked(AtResolvers(p, k), e)
    ensures Phased(Serve(p, k).state)
  {
    hide Inv, Phased, HandshakePass, ResolvePass, Pending, ExchangeAll, N.AnswersAsked;
    PendingInv(p, k);
    PendingPhased(p, k);
    var a := Pending(p, k).state;
    InvEntries(a);
    var clearedA := a.(handshakes := []);
    assert WithHandshakes(clearedA, a.handshakes) == a by { assert [] + a.handshakes == a.handshakes; }
    HandshakePassPhased(clearedA, a.handshakes, k);
    var b := Handshakes(a, k);
    InvEntries(b);
    var clearedB := b.(resolvings := []);
    assert WithResolvings(clearedB, b.resolvings) == b by { assert [] + b.resolvings == b.resolvings; }
    assert AtResolvers(p, k) == b;
    forall e | e in b.resolvings ensures ResolverCalledAsAsked(clearedB, e) {
      assert ResolverCalledAsAsked(b, e);
    }
    ResolvePassPhased(clearedB, b.resolvings, k);
    var c := Resolvings(b, k).state;
    PhasedSame(c, Connections(c, k));
  }

  lemma RoundPhased(p: State, k: Kernel)
    requires ValidKernel(k) && Inv(p) && Phased(p) && Round(p, k).Running?
    ensures Phased(Round(p, k).state)
  {
    hide Inv, Phased, Prepare, Serve, AtResolvers;
    PrepareInv(p);
    PreparePhased(p);
    CalledAsAsked(p, k);
    var s := Selected(Prepare(p).state, k.ready.rd, k.ready.wr);
    PhasedSame(Prepare(p).state, s);
    if s.readset != {} || s.writeset != {} {
      ServedRuns(s, k);
      ServePhased(s, k);
    }
  }

  lemma ServedRuns(p: State, k: Kernel)
    requires ValidKernel(k) && Inv(p) && Serve(p, k).Running?
    ensures Pending(p, k).Running?
  {
  }

  lemma {:induction false} RunPhased(p: State, ks: seq<Kernel>)
    requires ValidKernels(ks) && Inv(p) && Phased(p) && Run(p, ks).Running?
    ensures Phased(Run(p, ks).state)
    decreases |ks|
  {
    hide Inv, Round, ValidKernel, Phased;
    if ks != [] {
      RoundPhased(p, ks[0]);
      RunPhased(Round(p, ks[0]).state, ks[1..]);
    }
  }

  /**
    After every run, what has passed for a client is a prefix of: two messages of its own, one
    query, one reply. So nothing is read from a resolver's socket before the query is out, and no
    second query follows; the query is one for the host in that client's own request exactly when
    the host has a wire form; and a resolver still listed has sent its query exactly if it says so.
   */
  lemma HistoryInOrder(pid: nat, listener: int, ks: seq<Kernel>, p: State, id: nat)
    requires ValidKernels(ks) && From(pid, listener, ks) == Running(p)
    ensures InOrder(History(p.log, id)) && QueryOk(p.pid, p.clients, p.log, id)
    ensures forall r <- p.resolvings :: |History(p.log, r.id)| == if r.resolver.requestSended then 3 else 2
  {
    hide Inv, Run, InOrder, QueryOk, History, Messages;
    InitialInv(pid, listener);
    InitialPhased(pid, listener);
    RunPhased(Initial(pid, listener), ks);
  }

  lemma InitialPhased(pid: nat, listener: int)
    ensures Phased(Initial(pid, listener))
  {
  }
}
