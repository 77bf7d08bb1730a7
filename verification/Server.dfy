// Server (net_lab7/Server.cpp): the loops that edit the three lists while going through them.
module ServerLoop {
  import H = Handshake
  import N = Resolver
  import R = Relay
  import opened Proxy
  import opened ProxyInvariant
  import opened ProxySteps
  import opened ProxyRun

  class Server {
    const listen_sockfd: int
    const pid: nat
    var fd_max: int
    var connectionList: seq<Relaying>
    var waitingForHandshakeList: seq<Handshaking>
    var waitingForResolvingList: seq<Resolving>
    var readset: set<int>
    var writeset: set<int>

    /** The kernel's table of open descriptors, and the clients in the order of their accept. */
    var open: set<int>
    var clients: seq<Client>
    ghost var closed: seq<Relaying>
    ghost var log: seq<Event>

    ghost function View(): State reads this {
      State(pid, listen_sockfd, fd_max, waitingForHandshakeList, waitingForResolvingList, connectionList,
            readset, writeset, open, clients, closed, log)
    }

    /** Select's reach is still empty: only `run` widens it to the listener. */
    constructor (pid: nat, listener: int)
      ensures View() == Initial(pid, listener).(fdMax := 0) && Inv(View())
    {
      this.pid, listen_sockfd, fd_max := pid, listener, 0;
      connectionList, waitingForHandshakeList, waitingForResolvingList := [], [], [];
      readset, writeset, open := {}, {}, {listener};
      clients, closed, log := [], [], [];
      new;
      InitialInv(pid, listener);
      MasksDoNotMatter(Initial(pid, listener), View());
    }

    // -------------------------------------------------------------- the kernel's side

    /** close: only an open descriptor may be closed, and only once. */
    method Close(fd: int)
      requires fd in open
      modifies this`open
      ensures open == old(open) - {fd}
    {
      open := open - {fd};
    }

    /** socket and accept: a descriptor that was not open. */
    method Open(k: Kernel) returns (fd: int)
      requires ValidKernel(k)
      modifies this`open
      ensures fd == k.fresh'(old(open)) && fd !in old(open) && open == old(open) + {fd}
    {
      fd := k.fresh'(open);
      open := open + {fd};
    }

    /** checkSocket: refuses what select cannot look at, and widens its reach. */
    method CheckSocket(fd: int) returns (ok: bool)
      modifies this`fd_max
      ensures ok <==> fd < FD_SETSIZE
      ensures fd_max == if ok then Reach(old(fd_max), fd) else old(fd_max)
    {
      if fd >= FD_SETSIZE { return false; }
      if fd + 1 > fd_max { fd_max := fd + 1; }
      return true;
    }

    // -------------------------------------------------------------- prepareSets

    /** The view while the connection list is gone through: entries from i on are still to come. */
    ghost function SweptUpTo(i: nat): State
      requires i <= |connectionList|
      reads this
    {
      View().(relays := connectionList[..i])
    }

    lemma RelaysWithRest(i: nat)
      requires i <= |connectionList|
      ensures View() == WithRelays(SweptUpTo(i), connectionList[i..])
    {
    }

    /** The loop body: the connection at i says what it waits for, or is closed and erased. */
    method SweepAt(i: nat) returns (next: nat)
      requires i < |connectionList|
      requires connectionList[i].conn.toDisconnect ==>
                 var c := connectionList[i].conn; c.client in open && c.forward in open - {c.client}
      modifies this
      ensures next <= |connectionList|
      ensures SweptUpTo(next) == SweepOne(old(SweptUpTo(i)), old(connectionList[i]))
      ensures connectionList[next..] == old(connectionList[i + 1..])
    {
      hide R.AskedRead, R.AskedWrite;
      var c := connectionList[i];
      ghost var p := SweptUpTo(i);
      if !c.conn.toDisconnect {
        readset := readset + R.AskedRead(c.conn);
        writeset := writeset + R.AskedWrite(c.conn);
        next := i + 1;
        assert connectionList[..next] == p.relays + [c];
      } else {
        Close(c.conn.client);
        Close(c.conn.forward);
        closed := closed + [c];
        connectionList := connectionList[..i] + connectionList[i + 1..];
        next := i;
        assert connectionList[..next] == p.relays;
      }
    }

    method SweepConnections()
      requires Inv(View())
      modifies this
      ensures Inv(View())
      ensures View() == Sweep(old(View()).(relays := []), old(connectionList))
    {
      hide Inv, SweepOne;
      ghost var goal := Sweep(View().(relays := []), connectionList);
      assert connectionList[..0] == [] && connectionList[0..] == connectionList;
      var i: nat := 0;
      while i < |connectionList|
        invariant i <= |connectionList| && Inv(View())
        invariant Sweep(SweptUpTo(i), connectionList[i..]) == goal
        decreases |connectionList[i..]|
      {
        ghost var p, todo := SweptUpTo(i), connectionList[i..];
        assert todo[0] == connectionList[i] && todo[1..] == connectionList[i + 1..];
        assert [todo[0]] + todo[1..] == todo;
        RelaysWithRest(i);
        SweepOneInv(p, todo[0], todo[1..]);
        i := SweepAt(i);
        RelaysWithRest(i);
      }
      assert connectionList[..i] == connectionList;
    }

    /** prepareSets; false when a resolver's descriptor is out of select's range. */
    method PrepareSets() returns (ok: bool)
      requires Inv(View())
      modifies this
      ensures ok <==> Prepare(old(View())).Running?
      ensures ok ==> View() == Prepare(old(View())).state && Inv(View())
    {
      hide Inv, Sweep, R.AskedRead, R.AskedWrite, H.WantsRead;
      ghost var before := View();
      PrepareInv(before);
      readset, writeset := {listen_sockfd}, {};
      MasksDoNotMatter(before, View());
      assert View().(relays := []) == before.(relays := [], readset := {listen_sockfd}, writeset := {});
      SweepConnections();
      ghost var swept := View();
      var i := 0;
      while i < |waitingForHandshakeList|
        invariant i <= |waitingForHandshakeList|
        invariant View() == swept.(readset := readset, writeset := writeset)
        invariant FillHandshakes(View(), waitingForHandshakeList[i..]) == FillHandshakes(swept, swept.handshakes)
      {
        var e := waitingForHandshakeList[i];
        assert waitingForHandshakeList[i..][1..] == waitingForHandshakeList[i + 1..];
        readset := readset + HandshakeReads(e);
        writeset := writeset + {e.client};
        i := i + 1;
      }
      ghost var filled := View();
      i := 0;
      while i < |waitingForResolvingList|
        invariant i <= |waitingForResolvingList|
        invariant View() == filled.(readset := readset, writeset := writeset, fdMax := fd_max)
        invariant FillResolvings(View(), waitingForResolvingList[i..]) == Prepare(before)
      {
        var r := waitingForResolvingList[i].resolver;
        assert waitingForResolvingList[i..][1..] == waitingForResolvingList[i + 1..];
        readset := readset + ResolverReads(r);
        writeset := writeset + ResolverWrites(r);
        ok := CheckSocket(r.fd);
        if !ok { return; }
        i := i + 1;
      }
      ok := true;
    }

    // -------------------------------------------------------------- processPendingConnections

    method ProcessPendingConnections(k: Kernel) returns (ok: bool)
      requires ValidKernel(k) && Inv(View())
      modifies this
      ensures ok <==> Pending(old(View()), k).Running?
      ensures ok ==> View() == Pending(old(View()), k).state && Inv(View())
    {
      hide Inv, H.Start;
      PendingInv(View(), k);
      ok := true;
      if listen_sockfd in readset {
        if k.acceptFails { return false; }
        var fd := Open(k);
        ok := CheckSocket(fd);
        if !ok { return; }
        var memory := k.memory[..H.MAX_BUF_SIZE];
        waitingForHandshakeList := waitingForHandshakeList + [Handshaking(|clients|, fd, H.Start(fd, memory))];
        clients := clients + [Client(fd, memory)];
      }
    }

    // -------------------------------------------------------------- processWaitingForHandshake

    ghost function HandledUpTo(i: nat): State
      requires i <= |waitingForHandshakeList|
      reads this
    {
      View().(handshakes := waitingForHandshakeList[..i])
    }

    /** A finished handshake opens a socket and moves to the resolvers or to the connections. */
    method Promote(e: Handshaking, dest: H.Destination, k: Kernel)
      requires ValidKernel(k) && |dest.addr| <= 255
      modifies this`open, this`waitingForResolvingList, this`connectionList
      ensures View() == Advance(old(View()), e.id, e.client, dest, k)
    {
      hide N.NewResolver, R.NewRelay;
      var fd := Open(k);
      if dest.domain {
        var resolver := N.NewResolver(fd, k.memory, pid, UpToZero(dest.addr), k.word);
        waitingForResolvingList := waitingForResolvingList + [Resolving(e.id, e.client, dest.port, resolver)];
      } else {
        connectionList := connectionList + [Connect(e.id, ByText(dest.addr, dest.port), e.client, fd, k)];
      }
    }

    /** The loop body: the entry at i is fed, then kept in place or erased. */
    method HandleHandshake(i: nat, k: Kernel) returns (next: nat)
      requires ValidKernel(k) && i < |waitingForHandshakeList| && Tracks(clients, waitingForHandshakeList[i])
      modifies this
      ensures next <= |waitingForHandshakeList|
      ensures HandledUpTo(next) == HandshakeOne(old(HandledUpTo(i)), old(waitingForHandshakeList[i]), k)
      ensures waitingForHandshakeList[next..] == old(waitingForHandshakeList[i + 1..])
    {
      hide Tracks, H.Feed, H.ValidIo, MessageEvent, UpToZero, N.NewResolver, R.NewRelay;
      var e := waitingForHandshakeList[i];
      ghost var p := HandledUpTo(i);
      FeedAddrFits(p, e, k);
      TracksShape(clients, e);
      var t := H.Feed(e.trace, H.HandshakeInput(e.client in readset, e.client in writeset, k.handshakeIo(e.client)));
      assert t == FeedOne(p, e, k);
      log := log + MessageEvent(e.id, e.trace, t);
      if t.returned {
        Promote(e, t.state.dest, k);
        waitingForHandshakeList := waitingForHandshakeList[..i] + waitingForHandshakeList[i + 1..];
        next := i;
        assert waitingForHandshakeList[..next] == p.handshakes;
      } else {
        waitingForHandshakeList := waitingForHandshakeList[i := e.(trace := t)];
        next := i + 1;
        assert waitingForHandshakeList[..next] == p.handshakes + [e.(trace := t)];
      }
    }

    lemma HandshakesWithRest(i: nat)
      requires i <= |waitingForHandshakeList|
      ensures View() == WithHandshakes(HandledUpTo(i), waitingForHandshakeList[i..])
    {
    }

    method ProcessWaitingForHandshake(k: Kernel)
      requires ValidKernel(k) && Inv(View())
      modifies this
      ensures View() == Handshakes(old(View()), k) && Inv(View())
    {
      hide Inv, HandshakeOne, Tracks;
      ghost var goal := Handshakes(View(), k);
      InvEntries(View());
      assert waitingForHandshakeList[..0] == [] && waitingForHandshakeList[0..] == waitingForHandshakeList;
      var i: nat := 0;
      while i < |waitingForHandshakeList|
        invariant i <= |waitingForHandshakeList| && Inv(View())
        invariant forall e <- waitingForHandshakeList[i..] :: Tracks(clients, e)
        invariant HandshakePass(HandledUpTo(i), waitingForHandshakeList[i..], k) == goal
        decreases |waitingForHandshakeList[i..]|
      {
        ghost var p, todo := HandledUpTo(i), waitingForHandshakeList[i..];
        assert todo[0] == waitingForHandshakeList[i] && todo[1..] == waitingForHandshakeList[i + 1..];
        assert todo[0] in todo && [todo[0]] + todo[1..] == todo;
        HandshakesWithRest(i);
        HandshakeOneInv(p, todo[0], todo[1..], k);
        i := HandleHandshake(i, k);
        HandshakesWithRest(i);
        assert forall e <- todo[1..] :: e in todo;
        assert HandledUpTo(i).clients == clients;
      }
      assert waitingForHandshakeList[..i] == waitingForHandshakeList;
    }

    // -------------------------------------------------------------- processWaitingForResolving

    ghost function ResolvedUpTo(i: nat): State
      requires i <= |waitingForResolvingList|
      reads this
    {
      View().(resolvings := waitingForResolvingList[..i])
    }

    lemma ResolvingsWithRest(i: nat)
      requires i <= |waitingForResolvingList|
      ensures View() == WithResolvings(ResolvedUpTo(i), waitingForResolvingList[i..])
    {
    }

    /** The loop body: the entry at i is advanced, then kept in place or turned into a connection. */
    method HandleResolving(i: nat, k: Kernel) returns (next: nat, ok: bool)
      requires ValidKernel(k) && i < |waitingForResolvingList| && N.ValidState(waitingForResolvingList[i].resolver)
      requires waitingForResolvingList[i].resolver.fd in open
      modifies this
      ensures ok <==> ResolveOne(old(ResolvedUpTo(i)), old(waitingForResolvingList[i]), k).Running?
      ensures ok ==> next <= |waitingForResolvingList|
      ensures ok ==> ResolvedUpTo(next) == ResolveOne(old(ResolvedUpTo(i)), old(waitingForResolvingList[i]), k).state
      ensures ok ==> waitingForResolvingList[next..] == old(waitingForResolvingList[i + 1..])
    {
      hide N.Exchange, R.NewRelay, QueryEvent, AnswerEvent;
      var e := waitingForResolvingList[i];
      ghost var p := ResolvedUpTo(i);
      var fd, io := e.resolver.fd, k.resolverIo(e.resolver.fd);
      assert N.ValidIo(io);
      var (r, done) := N.Exchange(e.resolver, fd in readset, fd in writeset, io);
      log := log + QueryEvent(e, fd in writeset, io);
      next, ok := i, true;
      if done {
        log := log + AnswerEvent(e.id, io);
        var forward := Open(k);
        connectionList := connectionList + [Connect(e.id, ByAddress(r.addr, e.port), e.client, forward, k)];
        Close(fd);
        waitingForResolvingList := waitingForResolvingList[..i] + waitingForResolvingList[i + 1..];
        assert waitingForResolvingList[..next] == p.resolvings;
      } else {
        ok := CheckSocket(fd);
        if !ok { return; }
        waitingForResolvingList := waitingForResolvingList[i := e.(resolver := r)];
        next := i + 1;
        assert waitingForResolvingList[..next] == p.resolvings + [e.(resolver := r)];
      }
    }

    method ProcessWaitingForResolving(k: Kernel) returns (ok: bool)
      requires ValidKernel(k) && Inv(View())
      modifies this
      ensures ok <==> Resolvings(old(View()), k).Running?
      ensures ok ==> View() == Resolvings(old(View()), k).state && Inv(View())
    {
      hide Inv, ResolveOne, N.ValidState;
      ghost var goal := Resolvings(View(), k);
      InvEntries(View());
      assert waitingForResolvingList[..0] == [] && waitingForResolvingList[0..] == waitingForResolvingList;
      var i: nat := 0;
      while i < |waitingForResolvingList|
        invariant i <= |waitingForResolvingList| && Inv(View())
        invariant forall e <- waitingForResolvingList[i..] :: N.ValidState(e.resolver)
        invariant ResolvePass(ResolvedUpTo(i), waitingForResolvingList[i..], k) == goal
        decreases |waitingForResolvingList[i..]|
      {
        ghost var p, todo := ResolvedUpTo(i), waitingForResolvingList[i..];
        assert todo[0] == waitingForResolvingList[i] && todo[1..] == waitingForResolvingList[i + 1..];
        assert todo[0] in todo && [todo[0]] + todo[1..] == todo;
        ResolvingsWithRest(i);
        ResolveOneInv(p, todo[0], todo[1..], k);
        i, ok := HandleResolving(i, k);
        if !ok { return; }
        ResolvingsWithRest(i);
        assert forall e <- todo[1..] :: e in todo;
      }
      assert waitingForResolvingList[..i] == waitingForResolvingList;
      ok := true;
    }

    // -------------------------------------------------------------- processConnections

    method ExchangeAt(i: nat, k: Kernel)
      requires ValidKernel(k) && i < |connectionList| && R.RelayOk(connectionList[i].conn)
      modifies this`connectionList
      ensures connectionList == old(connectionList)[i := RelayOne(old(View()), old(connectionList[i]), k)]
    {
      hide RelayOne, R.RelayOk, R.Exchange;
      var c := connectionList[i];
      RelayShape(View(), c, k);
      var call := R.RelayInput(readset, writeset, RelayIo(k, c.conn));
      var exchanged := R.Exchange(c.conn, call.rd, call.wr, call.io);
      connectionList := connectionList[i := c.(conn := exchanged, calls := c.calls + [call])];
    }

    /** Only the masks matter to the exchange of one connection. */
    lemma MasksOnly(p: State, q: State, c: Relaying, k: Kernel)
      requires ValidKernel(k) && R.RelayOk(c.conn) && p.readset == q.readset && p.writeset == q.writeset
      ensures RelayOne(p, c, k) == RelayOne(q, c, k)
    {
    }

    method ProcessConnections(k: Kernel)
      requires ValidKernel(k) && Inv(View())
      modifies this
      ensures View() == Connections(old(View()), k) && Inv(View())
    {
      hide Inv, RelayOne, R.RelayOk, ValidKernel, ExchangeAll;
      ghost var before := View();
      InvEntries(before);
      ghost var out := ExchangeAll(before, before.relays, k);
      var i := 0;
      while i < |connectionList|
        invariant i <= |connectionList| == |out|
        invariant View() == before.(relays := connectionList)
        invariant forall j :: 0 <= j < i ==> connectionList[j] == out[j]
        invariant forall j :: i <= j < |out| ==> connectionList[j] == before.relays[j]
      {
        assert before.relays[i] in before.relays;
        MasksOnly(before, View(), before.relays[i], k);
        ExchangeAt(i, k);
        i := i + 1;
      }
      assert connectionList == out;
    }

    // -------------------------------------------------------------- run

    /** One iteration of the loop; false when an exception leaves it. */
    method Iterate(k: Kernel) returns (ok: bool)
      requires ValidKernel(k) && Inv(View())
      modifies this
      ensures ok <==> Round(old(View()), k).Running?
      ensures ok ==> View() == Round(old(View()), k).state && Inv(View())
    {
      hide Inv, Prepare, Pending, Handshakes, Resolvings, Connections;
      ok := PrepareSets();
      if !ok { return; }
      if k.ready.SelectFailed? { return false; }
      MasksDoNotMatter(View(), View().(readset := readset * k.ready.rd, writeset := writeset * k.ready.wr));
      readset, writeset := readset * k.ready.rd, writeset * k.ready.wr;
      if readset == {} && writeset == {} { return; }
      ok := ProcessPendingConnections(k);
      if !ok { return; }
      ProcessWaitingForHandshake(k);
      ok := ProcessWaitingForResolving(k);
      if !ok { return; }
      ProcessConnections(k);
    }

    /** listenFor: the listener is refused, or within select's reach. */
    method ListenFor() returns (ok: bool)
      requires 0 <= listen_sockfd && fd_max == 0
      modifies this`fd_max
      ensures ok <==> listen_sockfd < FD_SETSIZE
      ensures ok ==> fd_max == listen_sockfd + 1
    {
      ok := CheckSocket(listen_sockfd);
    }

    /** `run` on a new server: listen, then loop. */
    method RunServer(ks: seq<Kernel>) returns (ok: bool)
      requires ValidKernels(ks) && 0 <= listen_sockfd && View() == Initial(pid, listen_sockfd).(fdMax := 0)
      modifies this
      ensures Inv(Initial(pid, listen_sockfd))
      ensures ok <==> listen_sockfd < FD_SETSIZE && Run(Initial(pid, listen_sockfd), ks).Running?
      ensures ok ==> View() == Run(Initial(pid, listen_sockfd), ks).state && Inv(View())
    {
      hide Inv, Run, ValidKernel;
      InitialInv(pid, listen_sockfd);
      ok := ListenFor();
      if !ok { return; }
      ok := RunLoop(ks);
    }

    /** The loop of `run`, for as many rounds as the kernel is asked. */
    method RunLoop(ks: seq<Kernel>) returns (ok: bool)
      requires ValidKernels(ks) && Inv(View())
      modifies this
      ensures ok <==> Run(old(View()), ks).Running?
      ensures ok ==> View() == Run(old(View()), ks).state && Inv(View())
    {
      hide Inv, Round, ValidKernel;
      ghost var goal := Run(View(), ks);
      var i := 0;
      while i < |ks|
        invariant i <= |ks| && Inv(View())
        invariant Run(View(), ks[i..]) == goal
      {
        assert ks[i..][0] == ks[i] && ks[i..][1..] == ks[i + 1..];
        ok := Iterate(ks[i]);
        if !ok { return; }
        i := i + 1;
      }
      ok := true;
    }
  }

  lemma TracksShape(clients: seq<Client>, e: Handshaking)
    requires Tracks(clients, e)
    ensures H.Shape(e.trace.state)
  {
  }
}
