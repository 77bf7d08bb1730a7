// The invariant of ProxyInvariant.dfy is kept by each step of each pass. A pass looks at one entry
// at a time: the entries behind it are still in the list, as they are while the code iterates.
module ProxySteps {
  import opened Bytes
  import opened Wrappers
  import D = DnsMessage
  import H = Handshake
  import N = Resolver
  import R = Relay
  import opened Proxy
  import opened ProxyInvariant

  // ---------------------------------------------------------------- prepareSets

  ghost function WithRelays(p: State, rest: seq<Relaying>): State {
    p.(relays := p.relays + rest)
  }

  lemma CloseTwo(open: set<int>, others: multiset<int>, c: int, f: int)
    requires others + multiset{c, f} == multiset(open)
    ensures c in open && f in open - {c}
    ensures others == multiset(open - {c} - {f})
  {
    assert multiset(open)[c] >= 1 && multiset(open)[f] >= 1;
    assert multiset(open)[c] == 1;
    CloseOne(open, c);
    CloseOne(open - {c}, f);
  }

  lemma Regroup<T>(a: multiset<T>, b: multiset<T>, c: multiset<T>, x: multiset<T>, d: multiset<T>)
    ensures a + b + (c + x + d) == a + b + (c + d) + x
  {
  }

  lemma SweepOneOwns(p: State, e: Relaying, rest: seq<Relaying>)
    requires Owns(WithRelays(p, [e] + rest))
    ensures Owns(WithRelays(SweepOne(p, e), rest))
    ensures e.conn.toDisconnect ==> e.conn.client in p.open && e.conn.forward in p.open - {e.conn.client}
  {
    hide Gather, R.AskedRead, R.AskedWrite;
    SeqAssociates(p.relays, [e], rest);
    GatherMiddle(p.relays, e, rest, RelayFds);
    if e.conn.toDisconnect {
      Regroup(multiset{p.listener} + Gather(p.handshakes, HandshakeFds), Gather(p.resolvings, ResolveFds),
              Gather(p.relays, RelayFds), RelayFds(e), Gather(rest, RelayFds));
      CloseTwo(p.open, Owned(WithRelays(p, rest)), e.conn.client, e.conn.forward);
    }
  }

  lemma SweepOneCounts(p: State, e: Relaying, rest: seq<Relaying>)
    requires Counts(WithRelays(p, [e] + rest))
    ensures Counts(WithRelays(SweepOne(p, e), rest))
  {
    hide Gather, R.AskedRead, R.AskedWrite, AllIds;
    SeqAssociates(p.relays, [e], rest);
    GatherMiddle(p.relays, e, rest, RelayId);
    if e.conn.toDisconnect {
      GatherMiddle(p.closed, e, [], RelayId);
      Regroup(Gather(p.handshakes, HandshakeId), Gather(p.resolvings, ResolveId),
              Gather(p.relays, RelayId), RelayId(e), Gather(rest, RelayId));
    }
  }

  lemma RelayingCalled(clients: seq<Client>, log: seq<Event>, e: Relaying)
    requires RelayingOk(clients, log, e)
    ensures Called(e)
  {
  }

  lemma SweepOneInv(p: State, e: Relaying, rest: seq<Relaying>)
    requires Inv(WithRelays(p, [e] + rest))
    ensures Inv(WithRelays(SweepOne(p, e), rest))
    ensures e.conn.toDisconnect ==> e.conn.client in p.open && e.conn.forward in p.open - {e.conn.client}
  {
    hide Owns, Counts, RelayingOk, HandshakingOk, ResolvingOk;
    SweepOneOwns(p, e, rest);
    SweepOneCounts(p, e, rest);
    assert e in p.relays + ([e] + rest);
    RelayingCalled(p.clients, p.log, e);
  }

  // ---------------------------------------------------------------- processPendingConnections

  lemma AddFirst<T>(a: multiset<T>, x: multiset<T>, b: multiset<T>, c: multiset<T>, d: multiset<T>)
    ensures a + (b + x) + c + d == a + b + c + d + x
  {
  }

  lemma NewClientOwns(p: State, q: State, e: Handshaking)
    requires Owns(p) && e.client !in p.open
    requires q.handshakes == p.handshakes + [e] && q.resolvings == p.resolvings && q.relays == p.relays
    requires q.listener == p.listener && q.open == p.open + {e.client}
    ensures Owns(q)
  {
    hide Gather;
    GatherMiddle(p.handshakes, e, [], HandshakeFds);
    AddFirst(multiset{p.listener}, HandshakeFds(e), Gather(p.handshakes, HandshakeFds),
             Gather(p.resolvings, ResolveFds), Gather(p.relays, RelayFds));
    OpenOne(p.open, e.client);
  }

  lemma NewClientCounts(p: State, q: State, e: Handshaking)
    requires Counts(p) && e.id == |p.clients| && |q.clients| == |p.clients| + 1
    requires q.handshakes == p.handshakes + [e] && q.resolvings == p.resolvings && q.relays == p.relays
    requires q.closed == p.closed
    ensures Counts(q)
  {
    hide Gather;
    GatherMiddle(p.handshakes, e, [], HandshakeId);
    AddFirst(multiset{}, HandshakeId(e), Gather(p.handshakes, HandshakeId),
             Gather(p.resolvings, ResolveId), Gather(p.relays, RelayId));
  }

  lemma PendingInv(p: State, k: Kernel)
    requires Inv(p) && ValidKernel(k)
    ensures Pending(p, k).Running? ==> Inv(Pending(p, k).state)
  {
    hide H.TraceOk, Tied, Counts, Owns, H.Start, H.NewHandshake;
    if p.listener in p.readset && Pending(p, k).Running? {
      var q, fd, memory := Pending(p, k).state, k.fresh'(p.open), k.memory[..H.MAX_BUF_SIZE];
      var e := Handshaking(|p.clients|, fd, H.Start(fd, memory));
      NewClientOwns(p, q, e);
      NewClientCounts(p, q, e);
      NewClientTied(p, q, e, Client(fd, memory));
    }
  }

  lemma NewClientTied(p: State, q: State, e: Handshaking, c: Client)
    requires Tied(p)
    requires q.handshakes == p.handshakes + [e] && q.resolvings == p.resolvings && q.relays == p.relays
    requires q.log == p.log && q.pid == p.pid && q.closed == p.closed
    requires q.clients == p.clients + [c] && |c.memory| == H.MAX_BUF_SIZE
    requires e == Handshaking(|p.clients|, c.fd, H.Start(c.fd, c.memory))
    ensures Tied(q)
  {
    hide H.ReadRequest, H.InputAfter, R.RelayOk, D.IsQueryBuffer;
    NoEvents(p.log, e.id);
    H.StartOk(c.fd, c.memory);
    assert HandshakingOk(q.clients, q.log, e);
    forall x | x in p.handshakes ensures HandshakingOk(q.clients, q.log, x) {
      assert HandshakingOk(p.clients, p.log, x);
    }
    forall x | x in p.resolvings ensures ResolvingOk(q.pid, q.clients, q.log, x) {
      assert ResolvingOk(p.pid, p.clients, p.log, x);
    }
    forall x | x in p.relays ensures RelayingOk(q.clients, q.log, x) {
      assert RelayingOk(p.clients, p.log, x);
    }
  }

  // ---------------------------------------------------------------- processWaitingForHandshake

  ghost function WithHandshakes(p: State, rest: seq<Handshaking>): State {
    p.(handshakes := p.handshakes + rest)
  }

  /** A number that some entry carries is carried by no other entry. */
  ghost predicate OnlyOthers(p: State, id: nat) {
    && (forall x <- p.handshakes :: x.id != id)
    && (forall x <- p.resolvings :: x.id != id)
    && (forall x <- p.relays :: x.id != id)
    && (forall x <- p.closed :: x.id != id)
  }

  lemma IdsLeft(p: State, id: nat, n: nat)
    requires Ids(p) + multiset{id} == AllIds(n)
    ensures OnlyOthers(p, id)
  {
    AllIdsOnce(n, id);
    assert Ids(p)[id] == 0 by {
      assert (Ids(p) + multiset{id})[id] <= 1;
    }
    forall x | x in p.handshakes ensures x.id != id {
      if x.id == id { GatherIn(p.handshakes, HandshakeId, x, id); }
    }
    forall x | x in p.resolvings ensures x.id != id {
      if x.id == id { GatherIn(p.resolvings, ResolveId, x, id); }
    }
    forall x | x in p.relays ensures x.id != id {
      if x.id == id { GatherIn(p.relays, RelayId, x, id); }
    }
    forall x | x in p.closed ensures x.id != id {
      if x.id == id { GatherIn(p.closed, RelayId, x, id); }
    }
  }

  /** Every entry but the one with that number is tied to its own client's messages. */
  ghost predicate TiedOthers(p: State, log: seq<Event>) {
    && (forall ev <- log :: ev.id < |p.clients|)
    && (forall e <- p.handshakes :: HandshakingOk(p.clients, log, e))
    && (forall e <- p.resolvings :: ResolvingOk(p.pid, p.clients, log, e))
    && (forall e <- p.relays :: RelayingOk(p.clients, log, e))
    && (forall e <- p.closed :: ClosedOk(e))
  }

  lemma OtherLog(log: seq<Event>, more: seq<Event>, id: nat)
    requires |more| <= 1 && (forall ev <- more :: ev.id != id)
    ensures Messages(log + more, id) == Messages(log, id) && Answers(log + more, id) == Answers(log, id)
  {
    LogGrows(log, more, id);
  }

  /** An event of one client leaves what is known of the others alone. */
  lemma OthersStayTied(p: State, id: nat, more: seq<Event>)
    requires TiedOthers(p, p.log) && OnlyOthers(p, id)
    requires |more| <= 1 && (forall ev <- more :: ev.id == id) && id < |p.clients|
    ensures TiedOthers(p, p.log + more)
  {
    hide H.TraceOk, H.ReadRequest, H.InputAfter, R.RelayOk, D.IsQueryBuffer, D.Reply, D.ReplyAddress, Messages,
         Answers, StoreLow;
    forall x | x in p.handshakes ensures HandshakingOk(p.clients, p.log + more, x) {
      OtherLog(p.log, more, x.id);
      assert HandshakingOk(p.clients, p.log, x);
    }
    forall x | x in p.resolvings ensures ResolvingOk(p.pid, p.clients, p.log + more, x) {
      OtherLog(p.log, more, x.id);
      assert ResolvingOk(p.pid, p.clients, p.log, x);
    }
    forall x | x in p.relays ensures RelayingOk(p.clients, p.log + more, x) {
      OtherLog(p.log, more, x.id);
      assert RelayingOk(p.clients, p.log, x);
    }
  }

  /** What a run of the handshake says about its client's messages. */
  lemma TraceKnows(clients: seq<Client>, log: seq<Event>, id: nat, client: int, t: H.Trace)
    requires id < |clients| && |clients[id].memory| == H.MAX_BUF_SIZE
    requires H.TraceOk(t, client, clients[id].memory) && t.received == Messages(log, id)
    ensures KnownClient(clients, log, id) && RequestOf(clients, log, id) == t.state.dest
  {
  }

  lemma FeedMessages(p: State, e: Handshaking, k: Kernel)
    requires ValidKernel(k) && HandshakingOk(p.clients, p.log, e)
    ensures var t := FeedOne(p, e, k);
            var log := p.log + MessageEvent(e.id, e.trace, t);
            t.received == Messages(log, e.id) && Answers(log, e.id) == []
  {
    hide H.TraceOk, H.Exchange, Messages, Answers;
    LogGrows(p.log, MessageEvent(e.id, e.trace, FeedOne(p, e, k)), e.id);
  }

  /** The entry is taken out of the list: the rest of the state owns and counts everything else. */
  lemma TakeHandshake(p: State, e: Handshaking, rest: seq<Handshaking>)
    requires Inv(WithHandshakes(p, [e] + rest))
    ensures var b := WithHandshakes(p, rest);
            && Owned(b) + HandshakeFds(e) == multiset(p.open)
            && Ids(b) + HandshakeId(e) == AllIds(|p.clients|)
            && TiedOthers(b, b.log) && OnlyOthers(b, e.id)
            && HandshakingOk(p.clients, p.log, e)
  {
    hide Gather, HandshakingOk, ResolvingOk, RelayingOk, AllIds, OnlyOthers;
    var b := WithHandshakes(p, rest);
    SeqAssociates(p.handshakes, [e], rest);
    GatherMiddle(p.handshakes, e, rest, HandshakeFds);
    GatherMiddle(p.handshakes, e, rest, HandshakeId);
    TakeOut(multiset{p.listener}, Gather(p.handshakes, HandshakeFds), HandshakeFds(e), Gather(rest, HandshakeFds),
            Gather(p.resolvings, ResolveFds), Gather(p.relays, RelayFds));
    TakeOut(multiset{}, Gather(p.handshakes, HandshakeId), HandshakeId(e), Gather(rest, HandshakeId),
            Gather(p.resolvings, ResolveId), Gather(p.relays, RelayId));
    TakeOutId(b, e, rest, p);
    IdsLeft(b, e.id, |p.clients|);
    assert e in p.handshakes + ([e] + rest);
  }

  lemma TakeOut<T>(a: multiset<T>, l: multiset<T>, x: multiset<T>, r: multiset<T>, c: multiset<T>, d: multiset<T>)
    ensures a + (l + x + r) + c + d == a + (l + r) + c + d + x
  {
  }

  lemma TakeOutId(b: State, e: Handshaking, rest: seq<Handshaking>, p: State)
    requires b == WithHandshakes(p, rest)
    requires Ids(WithHandshakes(p, [e] + rest)) == AllIds(|p.clients|)
    ensures Ids(b) + HandshakeId(e) == AllIds(|p.clients|)
  {
    hide Gather, AllIds;
    SeqAssociates(p.handshakes, [e], rest);
    GatherMiddle(p.handshakes, e, rest, HandshakeId);
  }

  /** Putting an entry at its place in the list it came from. */
  lemma PutHandshake(b: State, j: State, p: seq<Handshaking>, e: Handshaking, rest: seq<Handshaking>)
    requires b.handshakes == p + rest && j == b.(handshakes := p + [e] + rest)
    requires Owned(b) + HandshakeFds(e) == multiset(b.open) && Ids(b) + HandshakeId(e) == AllIds(|b.clients|)
    requires TiedOthers(b, b.log) && HandshakingOk(b.clients, b.log, e)
    ensures Inv(j)
  {
    hide Gather, HandshakingOk, ResolvingOk, RelayingOk, AllIds;
    GatherMiddle(p, e, rest, HandshakeFds);
    GatherMiddle(p, e, rest, HandshakeId);
    forall x | x in j.handshakes ensures HandshakingOk(j.clients, j.log, x) {
      assert x == e || x in b.handshakes;
    }
  }

  /** Appending a resolver with a fresh socket for a client that was taken out. */
  lemma PutResolving(b: State, j: State, e: Resolving)
    requires j == b.(resolvings := b.resolvings + [e], open := b.open + {e.resolver.fd})
    requires e.resolver.fd !in b.open
    requires Owned(b) + multiset{e.client} == multiset(b.open) && Ids(b) + multiset{e.id} == AllIds(|b.clients|)
    requires TiedOthers(b, b.log) && ResolvingOk(b.pid, b.clients, b.log, e)
    ensures Inv(j)
  {
    hide Owned, Ids, HandshakingOk, ResolvingOk, RelayingOk, ClosedOk, AllIds;
    PutResolvingSums(b, j, e);
    assert Tied(j);
  }

  lemma PutResolvingSums(b: State, j: State, e: Resolving)
    requires j == b.(resolvings := b.resolvings + [e], open := b.open + {e.resolver.fd})
    requires e.resolver.fd !in b.open
    requires Owned(b) + multiset{e.client} == multiset(b.open) && Ids(b) + multiset{e.id} == AllIds(|b.clients|)
    ensures Owns(j) && Counts(j)
  {
    hide Gather, AllIds;
    GatherMiddle(b.resolvings, e, [], ResolveFds);
    GatherMiddle(b.resolvings, e, [], ResolveId);
    OpenOne(b.open, e.resolver.fd);
    assert ResolveFds(e) == multiset{e.client} + multiset{e.resolver.fd};
    AddThird(multiset{b.listener}, Gather(b.handshakes, HandshakeFds), Gather(b.resolvings, ResolveFds), ResolveFds(e),
             Gather(b.relays, RelayFds));
  }

  lemma AddThird<T>(a: multiset<T>, b: multiset<T>, c: multiset<T>, x: multiset<T>, d: multiset<T>)
    ensures a + b + (c + x) + d == a + b + c + d + x
  {
  }

  /** Appending a relay with a fresh forwarding socket for a client that was taken out. */
  lemma PutRelaying(b: State, j: State, e: Relaying)
    requires j == b.(relays := b.relays + [e], open := b.open + {e.conn.forward})
    requires e.conn.forward !in b.open
    requires Owned(b) + multiset{e.conn.client} == multiset(b.open) && Ids(b) + multiset{e.id} == AllIds(|b.clients|)
    requires TiedOthers(b, b.log) && RelayingOk(b.clients, b.log, e)
    ensures Inv(j)
  {
    hide Owned, Ids, HandshakingOk, ResolvingOk, RelayingOk, ClosedOk, AllIds;
    PutRelayingSums(b, j, e);
    assert Tied(j);
  }

  lemma PutRelayingSums(b: State, j: State, e: Relaying)
    requires j == b.(relays := b.relays + [e], open := b.open + {e.conn.forward})
    requires e.conn.forward !in b.open
    requires Owned(b) + multiset{e.conn.client} == multiset(b.open) && Ids(b) + multiset{e.id} == AllIds(|b.clients|)
    ensures Owns(j) && Counts(j)
  {
    hide Gather, AllIds;
    GatherMiddle(b.relays, e, [], RelayFds);
    GatherMiddle(b.relays, e, [], RelayId);
    OpenOne(b.open, e.conn.forward);
    assert RelayFds(e) == multiset{e.conn.client} + multiset{e.conn.forward};
  }

  /** The entry a finished handshake turns into is tied to its client's request. */
  lemma AdvanceTied(pid: nat, clients: seq<Client>, log: seq<Event>, id: nat, t: H.Trace, fd: int, k: Kernel)
    requires ValidKernel(k) && KnownClient(clients, log, id) && Answers(log, id) == []
    requires RequestOf(clients, log, id) == t.state.dest && |t.state.dest.addr| <= 255
    ensures t.state.dest.domain ==>
      ResolvingOk(pid, clients, log,
                  Resolving(id, clients[id].fd, t.state.dest.port,
                            N.NewResolver(fd, k.memory, pid, UpToZero(t.state.dest.addr), k.word)))
    ensures !t.state.dest.domain ==>
      RelayingOk(clients, log,
                 Connect(id, ByText(t.state.dest.addr, t.state.dest.port), clients[id].fd, fd, k))
  {
    hide H.ReadRequest, H.InputAfter, D.IsQueryBuffer, Messages, Answers;
    N.NewBufferIsQuery(k.memory, pid, UpToZero(t.state.dest.addr));
  }

  lemma HandshakeOneInv(p: State, e: Handshaking, rest: seq<Handshaking>, k: Kernel)
    requires ValidKernel(k) && Inv(WithHandshakes(p, [e] + rest)) && Tracks(p.clients, e)
    ensures Inv(WithHandshakes(HandshakeOne(p, e, k), rest))
  {
    hide Owned, Ids, AllIds, H.TraceOk, H.Feed, HandshakingOk, ResolvingOk, RelayingOk, TiedOthers, OnlyOthers,
         KnownClient, RequestOf, N.NewResolver, R.NewRelay, Inv;
    TakeHandshake(p, e, rest);
    FeedAddrFits(p, e, k);
    var t := FeedOne(p, e, k);
    var more := MessageEvent(e.id, e.trace, t);
    var log, client, dest := p.log + more, p.clients[e.id], t.state.dest;
    var b := WithHandshakes(p, rest);
    OthersStayTied(b, e.id, more);
    FeedMessages(p, e, k);
    TraceKnows(p.clients, log, e.id, e.client, t);
    var logged := b.(log := log);
    SameOthers(b, logged);
    var j := WithHandshakes(HandshakeOne(p, e, k), rest);
    if !t.returned {
      StaysTied(p.clients, log, e, t);
      assert j == logged.(handshakes := p.handshakes + [e.(trace := t)] + rest);
      PutHandshake(logged, j, p.handshakes, e.(trace := t), rest);
    } else {
      var fd := k.fresh'(p.open);
      AdvanceTied(p.pid, p.clients, log, e.id, t, fd, k);
      if dest.domain {
        var r := Resolving(e.id, e.client, dest.port, N.NewResolver(fd, k.memory, p.pid, UpToZero(dest.addr), k.word));
        NewResolverFd(fd, k, p.pid, UpToZero(dest.addr));
        PutResolving(logged, j, r);
      } else {
        var r := Connect(e.id, ByText(dest.addr, dest.port), e.client, fd, k);
        NewRelayFd(e.client, fd, k);
        PutRelaying(logged, j, r);
      }
    }
  }

  lemma NewResolverFd(fd: int, k: Kernel, pid: nat, host: seq<byte>)
    requires ValidKernel(k) && 0 !in host && |host| <= 255
    ensures N.NewResolver(fd, k.memory, pid, host, k.word).fd == fd
  {
  }

  lemma NewRelayFd(client: int, fd: int, k: Kernel)
    requires ValidKernel(k)
    ensures R.NewRelay(client, fd, k.memory[..R.BUFSIZE]).forward == fd
    ensures R.NewRelay(client, fd, k.memory[..R.BUFSIZE]).client == client
  {
  }

  /** Only lists, descriptors and clients enter the sums, not the log. */
  lemma SameOthers(b: State, logged: State)
    requires logged == b.(log := logged.log)
    ensures Owned(logged) == Owned(b) && Ids(logged) == Ids(b)
    ensures TiedOthers(b, logged.log) ==> TiedOthers(logged, logged.log)
  {
  }

  lemma StaysTied(clients: seq<Client>, log: seq<Event>, e: Handshaking, t: H.Trace)
    requires Tracks(clients, e) && !t.returned && H.TraceOk(t, e.client, clients[e.id].memory)
    requires t.received == Messages(log, e.id) && Answers(log, e.id) == []
    ensures HandshakingOk(clients, log, e.(trace := t))
  {
  }

  // ---------------------------------------------------------------- processWaitingForResolving

  ghost function WithResolvings(p: State, rest: seq<Resolving>): State {
    p.(resolvings := p.resolvings + rest)
  }

  lemma TakeOutThird<T>(a: multiset<T>, c: multiset<T>, l: multiset<T>, x: multiset<T>, r: multiset<T>, d: multiset<T>)
    ensures a + c + (l + x + r) + d == a + c + (l + r) + d + x
  {
  }

  lemma TakeResolving(p: State, e: Resolving, rest: seq<Resolving>)
    requires Inv(WithResolvings(p, [e] + rest))
    ensures var b := WithResolvings(p, rest);
            && Owned(b) + ResolveFds(e) == multiset(p.open)
            && Ids(b) + ResolveId(e) == AllIds(|p.clients|)
            && TiedOthers(b, b.log) && OnlyOthers(b, e.id)
            && ResolvingOk(p.pid, p.clients, p.log, e)
  {
    hide Gather, HandshakingOk, ResolvingOk, RelayingOk, AllIds, OnlyOthers;
    var b := WithResolvings(p, rest);
    SeqAssociates(p.resolvings, [e], rest);
    GatherMiddle(p.resolvings, e, rest, ResolveFds);
    TakeOutThird(multiset{p.listener}, Gather(p.handshakes, HandshakeFds), Gather(p.resolvings, ResolveFds),
                 ResolveFds(e), Gather(rest, ResolveFds), Gather(p.relays, RelayFds));
    TakeResolvingId(b, e, rest, p);
    IdsLeft(b, e.id, |p.clients|);
    assert e in p.resolvings + ([e] + rest);
  }

  lemma TakeResolvingId(b: State, e: Resolving, rest: seq<Resolving>, p: State)
    requires b == WithResolvings(p, rest)
    requires Ids(WithResolvings(p, [e] + rest)) == AllIds(|p.clients|)
    ensures Ids(b) + ResolveId(e) == AllIds(|p.clients|)
  {
    hide Gather, AllIds;
    SeqAssociates(p.resolvings, [e], rest);
    GatherMiddle(p.resolvings, e, rest, ResolveId);
  }

  lemma PutBackResolving(b: State, j: State, p: seq<Resolving>, e: Resolving, rest: seq<Resolving>)
    requires b.resolvings == p + rest && j == b.(resolvings := p + [e] + rest, fdMax := j.fdMax)
    requires Owned(b) + ResolveFds(e) == multiset(b.open) && Ids(b) + ResolveId(e) == AllIds(|b.clients|)
    requires TiedOthers(b, b.log) && ResolvingOk(b.pid, b.clients, b.log, e)
    ensures Inv(j)
  {
    hide Gather, HandshakingOk, ResolvingOk, RelayingOk, AllIds;
    GatherMiddle(p, e, rest, ResolveFds);
    GatherMiddle(p, e, rest, ResolveId);
    forall x | x in j.resolvings ensures ResolvingOk(j.pid, j.clients, j.log, x) {
      assert x == e || x in b.resolvings;
    }
  }

  /** Closing the resolver's socket leaves the client's descriptor without an owner, and no other. */
  lemma CloseResolver(b: State, e: Resolving, j: State)
    requires Owned(b) + ResolveFds(e) == multiset(b.open) && j == b.(open := b.open - {e.resolver.fd})
    ensures e.resolver.fd in b.open
    ensures Owned(j) + multiset{e.client} == multiset(j.open)
  {
    hide Gather;
    var fd := e.resolver.fd;
    assert ResolveFds(e) == multiset{e.client} + multiset{fd};
    assert multiset(b.open)[fd] >= 1;
    CloseOne(b.open, fd);
  }

  /** A resolver that is done has the address of the reply it has just read. */
  lemma ResolvedAddress(r: N.ResolverState, readable: bool, writable: bool, io: N.ResolverIo)
    requires N.ValidState(r) && N.ValidIo(io) && !r.responseRecived && N.Exchange(r, readable, writable, io).1
    ensures io.received.Bytes? && D.Reply(io.received.data) ==>
              |io.received.data| >= D.HEADER
              && (D.AnswerCount(io.received.data) > 0 ==>
                    Some(StoreLow(N.Exchange(r, readable, writable, io).0.addr, 4)) == D.ReplyAddress(io.received.data))
  {
    hide D.Reply, D.ReplyAddress, D.AnswerCount, StoreLow, N.AfterReceive;
    var s := if writable && !r.requestSended then N.AfterSend(r, io) else r;
    if io.received.Bytes? && D.Reply(io.received.data) {
      N.ReplyHasHeader(io.received.data);
      if D.AnswerCount(io.received.data) > 0 {
        N.ReceivedAddress(s, io);
      }
    }
  }

  /** The relay made when a resolver is done has the address of that resolver's own reply. */
  lemma ResolvedTied(pid: nat, clients: seq<Client>, log: seq<Event>, e: Resolving, readable: bool, writable: bool,
                     io: N.ResolverIo, forward: int, k: Kernel)
    requires ValidKernel(k) && N.ValidIo(io) && ResolvingOk(pid, clients, log, e)
    requires N.Exchange(e.resolver, readable, writable, io).1
    ensures RelayingOk(clients, log + AnswerEvent(e.id, io),
      Connect(e.id, ByAddress(N.Exchange(e.resolver, readable, writable, io).0.addr, e.port), e.client, forward, k))
  {
    hide H.ReadRequest, H.InputAfter, D.IsQueryBuffer, D.Reply, D.ReplyAddress, D.AnswerCount, Messages, Answers,
         StoreLow, N.Exchange, N.ValidIo;
    var more := AnswerEvent(e.id, io);
    LogGrows(log, more, e.id);
    assert Messages(log + more, e.id) == Messages(log, e.id);
    ResolvedAddress(e.resolver, readable, writable, io);
  }

  lemma StillResolving(pid: nat, clients: seq<Client>, log: seq<Event>, e: Resolving, readable: bool, writable: bool,
                       io: N.ResolverIo)
    requires N.ValidIo(io) && ResolvingOk(pid, clients, log, e)
    requires !N.Exchange(e.resolver, readable, writable, io).1
    ensures ResolvingOk(pid, clients, log, e.(resolver := N.Exchange(e.resolver, readable, writable, io).0))
  {
  }

  /** A query is sent for a client without changing what is known of it. */
  lemma QuerySent(p: State, b: State, e: Resolving, writable: bool, io: N.ResolverIo)
    requires TiedOthers(b, b.log) && OnlyOthers(b, e.id) && b.log == p.log && b.clients == p.clients && b.pid == p.pid
    requires ResolvingOk(p.pid, p.clients, p.log, e)
    ensures var log := p.log + QueryEvent(e, writable, io);
            TiedOthers(b.(log := log), log) && ResolvingOk(p.pid, p.clients, log, e)
  {
    hide ResolvingOk, QueryEvent, TiedOthers, OnlyOthers;
    var more := QueryEvent(e, writable, io);
    QueryKnown(p.pid, p.clients, p.log, e, writable, io);
    OthersStayTied(b, e.id, more);
    SameOthers(b, b.(log := p.log + more));
  }

  lemma QueryKnown(pid: nat, clients: seq<Client>, log: seq<Event>, e: Resolving, writable: bool, io: N.ResolverIo)
    requires ResolvingOk(pid, clients, log, e)
    ensures e.id < |clients|
    ensures var more := QueryEvent(e, writable, io);
            |more| <= 1 && (forall ev <- more :: ev.id == e.id) && ResolvingOk(pid, clients, log + more, e)
  {
    hide H.ReadRequest, H.InputAfter, D.IsQueryBuffer, N.Packet, N.ValidState, Messages, Answers;
    var more := QueryEvent(e, writable, io);
    LogGrows(log, more, e.id);
    assert Messages(log + more, e.id) == Messages(log, e.id) && Answers(log + more, e.id) == Answers(log, e.id);
  }

  lemma ResolveOneInv(p: State, e: Resolving, rest: seq<Resolving>, k: Kernel)
    requires ValidKernel(k) && Inv(WithResolvings(p, [e] + rest)) && N.ValidState(e.resolver)
    ensures ResolveOne(p, e, k).Running? ==> Inv(WithResolvings(ResolveOne(p, e, k).state, rest))
    ensures e.resolver.fd in p.open
  {
    hide Owned, Ids, AllIds, HandshakingOk, ResolvingOk, RelayingOk, TiedOthers, OnlyOthers, QueryEvent,
         KnownClient, RequestOf, R.NewRelay, Inv, N.Exchange, N.ValidIo, H.ValidIo, R.ValidIo;
    TakeResolving(p, e, rest);
    var fd, io := e.resolver.fd, k.resolverIo(e.resolver.fd);
    var readable, writable := fd in p.readset, fd in p.writeset;
    var (r, done) := N.Exchange(e.resolver, readable, writable, io);
    var log := p.log + QueryEvent(e, writable, io);
    QuerySent(p, WithResolvings(p, rest), e, writable, io);
    var b := WithResolvings(p, rest).(log := log);
    SameOthers(WithResolvings(p, rest), b);
    CloseResolver(b, e, b.(open := b.open - {fd}));
    if done {
      var forward, more := k.fresh'(p.open), AnswerEvent(e.id, io);
      ResolvedTied(p.pid, p.clients, log, e, readable, writable, io, forward, k);
      ResolvingKnown(p.pid, p.clients, log, e);
      OnlyOthersLog(WithResolvings(p, rest), b, e.id);
      OthersStayTied(b, e.id, more);
      var closed := b.(open := b.open - {fd});
      var logged := closed.(log := log + more);
      SameOthers(b, b.(log := log + more));
      SameOpen(b.(log := log + more), logged);
      SameOthers(closed, logged);
      NewRelayFd(e.client, forward, k);
      var j := WithResolvings(ResolveOne(p, e, k).state, rest);
      assert p.open + {forward} - {fd} == p.open - {fd} + {forward};
      PutRelaying(logged, j, Connect(e.id, ByAddress(r.addr, e.port), e.client, forward, k));
    } else if fd < FD_SETSIZE {
      var j := WithResolvings(ResolveOne(p, e, k).state, rest);
      StillResolving(p.pid, p.clients, log, e, readable, writable, io);
      SameFd(e, readable, writable, io);
      PutBackResolving(b, j, p.resolvings, e.(resolver := r), rest);
    }
  }

  lemma OnlyOthersLog(b: State, logged: State, id: nat)
    requires OnlyOthers(b, id) && logged == b.(log := logged.log)
    ensures OnlyOthers(logged, id)
  {
  }

  lemma SameFd(e: Resolving, readable: bool, writable: bool, io: N.ResolverIo)
    requires N.ValidState(e.resolver) && N.ValidIo(io)
    ensures var e' := e.(resolver := N.Exchange(e.resolver, readable, writable, io).0);
            ResolveFds(e') == ResolveFds(e) && ResolveId(e') == ResolveId(e)
  {
  }

  lemma ResolvingKnown(pid: nat, clients: seq<Client>, log: seq<Event>, e: Resolving)
    requires ResolvingOk(pid, clients, log, e)
    ensures e.id < |clients|
  {
  }

  /** The open set does not enter what entries are tied to. */
  lemma SameOpen(b: State, j: State)
    requires j == b.(open := j.open)
    ensures Owned(j) == Owned(b) && Ids(j) == Ids(b)
    ensures TiedOthers(b, b.log) ==> TiedOthers(j, j.log)
  {
  }

  // ---------------------------------------------------------------- processConnections

  lemma {:induction false} GatherSame<X, T>(a: seq<X>, b: seq<X>, f: X -> multiset<T>)
    requires |a| == |b| && forall i :: 0 <= i < |a| ==> f(a[i]) == f(b[i])
    ensures Gather(a, f) == Gather(b, f)
  {
    if a != [] {
      GatherSame(a[1..], b[1..], f);
    }
  }

  lemma RelayOneCalled(p: State, e: Relaying, k: Kernel)
    requires ValidKernel(k) && R.RelayOk(e.conn) && Called(e)
    ensures Called(RelayOne(p, e, k))
  {
    hide R.Exchange, R.Run, R.RelayOk;
    RelayShape(p, e, k);
    var start := R.NewRelay(e.conn.client, e.conn.forward, e.memory);
    R.RunAppend(start, e.calls, R.RelayInput(p.readset, p.writeset, RelayIo(k, e.conn)));
  }

  lemma RelayOneTied(p: State, e: Relaying, k: Kernel)
    requires ValidKernel(k) && RelayingOk(p.clients, p.log, e)
    ensures RelayingOk(p.clients, p.log, RelayOne(p, e, k))
    ensures RelayFds(RelayOne(p, e, k)) == RelayFds(e) && RelayId(RelayOne(p, e, k)) == RelayId(e)
  {
    hide H.ReadRequest, H.InputAfter, D.Reply, D.ReplyAddress, D.AnswerCount, Messages, Answers, StoreLow, R.LaneOk,
         R.ReadClient, R.ReadForward, R.WriteForward, R.WriteClient;
    R.LaneOkShape(e.conn.cf);
    R.LaneOkShape(e.conn.fc);
    R.ExchangeKeepsOk(e.conn, p.readset, p.writeset, RelayIo(k, e.conn));
    RelayOneCalled(p, e, k);
  }

  lemma ExchangeAllEach(p: State, k: Kernel)
    requires ValidKernel(k) && Tied(p) && forall e <- p.relays :: R.RelayOk(e.conn)
    ensures var out := ExchangeAll(p, p.relays, k);
            && (forall e <- out :: RelayingOk(p.clients, p.log, e))
            && forall i :: 0 <= i < |out| ==>
                 RelayFds(out[i]) == RelayFds(p.relays[i]) && RelayId(out[i]) == RelayId(p.relays[i])
  {
    hide HandshakingOk, ResolvingOk, ClosedOk, RelayingOk, RelayOne, R.RelayOk, RelayFds, RelayId, ValidKernel;
    var out := ExchangeAll(p, p.relays, k);
    forall i | 0 <= i < |out|
      ensures RelayingOk(p.clients, p.log, out[i])
      ensures RelayFds(out[i]) == RelayFds(p.relays[i]) && RelayId(out[i]) == RelayId(p.relays[i])
    {
      RelayOneTied(p, p.relays[i], k);
    }
  }

  /** Relays that keep their descriptors and numbers change neither sum. */
  lemma SameSums(p: State, out: seq<Relaying>)
    requires Owns(p) && Counts(p) && |out| == |p.relays|
    requires forall i :: 0 <= i < |out| ==>
               RelayFds(out[i]) == RelayFds(p.relays[i]) && RelayId(out[i]) == RelayId(p.relays[i])
    ensures Owns(p.(relays := out)) && Counts(p.(relays := out))
  {
    hide Gather, AllIds, RelayFds, RelayId;
    GatherSame(out, p.relays, RelayFds);
    GatherSame(out, p.relays, RelayId);
  }

  lemma ExchangeAllInv(p: State, k: Kernel)
    requires ValidKernel(k) && Inv(p) && forall e <- p.relays :: R.RelayOk(e.conn)
    ensures Inv(p.(relays := ExchangeAll(p, p.relays, k)))
  {
    hide Owns, Counts, HandshakingOk, ResolvingOk, RelayingOk, ClosedOk, ExchangeAll, RelayFds, RelayId, R.RelayOk,
         ValidKernel;
    ExchangeAllEach(p, k);
    SameSums(p, ExchangeAll(p, p.relays, k));
  }
}
