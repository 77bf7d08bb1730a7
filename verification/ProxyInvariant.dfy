// What every step of the proxy keeps: descriptors owned exactly once, clients counted exactly
// once, and every entry tied to its own client's messages.
module ProxyInvariant {
  import opened Bytes
  import opened Wrappers
  import H = Handshake
  import N = Resolver
  import R = Relay
  import D = DnsMessage
  import opened Proxy

  // ---------------------------------------------------------------- sums over lists

  function Gather<X, T>(s: seq<X>, f: X -> multiset<T>): multiset<T> {
    if s == [] then multiset{} else f(s[0]) + Gather(s[1..], f)
  }

  lemma {:induction false} GatherAppend<X, T>(a: seq<X>, b: seq<X>, f: X -> multiset<T>)
    ensures Gather(a + b, f) == Gather(a, f) + Gather(b, f)
  {
    if a == [] {
      assert a + b == b;
    } else {
      GatherAppend(a[1..], b, f);
      assert (a + b)[1..] == a[1..] + b;
    }
  }

  /** The list with one entry in front of the rest, in sums. */
  lemma GatherMiddle<X, T>(a: seq<X>, e: X, b: seq<X>, f: X -> multiset<T>)
    ensures Gather(a + [e] + b, f) == Gather(a, f) + f(e) + Gather(b, f)
    ensures Gather(a + b, f) == Gather(a, f) + Gather(b, f)
    ensures Gather(a + [e], f) == Gather(a, f) + f(e)
  {
    GatherAppend(a + [e], b, f);
    GatherAppend(a, [e], f);
    GatherAppend(a, b, f);
    assert Gather([e], f) == f(e) by {
      assert [e][1..] == [];
    }
  }

  lemma {:induction false} GatherIn<X, T>(s: seq<X>, f: X -> multiset<T>, e: X, x: T)
    requires e in s && x in f(e)
    ensures x in Gather(s, f)
  {
    if e != s[0] {
      GatherIn(s[1..], f, e, x);
    }
  }

  // ---------------------------------------------------------------- descriptors

  function HandshakeFds(e: Handshaking): multiset<int> { multiset{e.client} }

  function ResolveFds(e: Resolving): multiset<int> { multiset{e.client, e.resolver.fd} }

  function RelayFds(e: Relaying): multiset<int> { multiset{e.conn.client, e.conn.forward} }

  /** Listener, handshake clients, resolving clients and sockets, relay clients and forwarding sockets. */
  ghost function Owned(p: State): multiset<int> {
    multiset{p.listener} + Gather(p.handshakes, HandshakeFds)
    + Gather(p.resolvings, ResolveFds) + Gather(p.relays, RelayFds)
  }

  /** The open descriptors are exactly the owned ones, and none is owned twice. */
  ghost predicate Owns(p: State) {
    Owned(p) == multiset(p.open)
  }

  lemma OpenOne(open: set<int>, fd: int)
    requires fd !in open
    ensures multiset(open + {fd}) == multiset(open) + multiset{fd}
  {
  }

  lemma CloseOne(open: set<int>, fd: int)
    requires fd in open
    ensures multiset(open - {fd}) == multiset(open) - multiset{fd}
  {
  }

  // ---------------------------------------------------------------- clients

  function HandshakeId(e: Handshaking): multiset<nat> { multiset{e.id} }

  function ResolveId(e: Resolving): multiset<nat> { multiset{e.id} }

  function RelayId(e: Relaying): multiset<nat> { multiset{e.id} }

  ghost function Ids(p: State): multiset<nat> {
    Gather(p.handshakes, HandshakeId) + Gather(p.resolvings, ResolveId)
    + Gather(p.relays, RelayId) + Gather(p.closed, RelayId)
  }

  function AllIds(n: nat): multiset<nat> {
    if n == 0 then multiset{} else AllIds(n - 1) + multiset{n - 1}
  }

  /** Every accepted client is handshaking, resolving, relaying or closed, and only one of them. */
  ghost predicate Counts(p: State) {
    Ids(p) == AllIds(|p.clients|)
  }

  lemma {:induction false} AllIdsOnce(n: nat, id: nat)
    ensures AllIds(n)[id] == if id < n then 1 else 0
  {
    if n > 0 {
      AllIdsOnce(n - 1, id);
    }
  }

  // ---------------------------------------------------------------- whose messages

  function Messages(log: seq<Event>, id: nat): seq<seq<byte>> {
    if log == [] then []
    else
      var before, last := Messages(log[..|log| - 1], id), log[|log| - 1];
      if last.Message? && last.id == id then before + [last.data] else before
  }

  function Answers(log: seq<Event>, id: nat): seq<seq<byte>> {
    if log == [] then []
    else
      var before, last := Answers(log[..|log| - 1], id), log[|log| - 1];
      if last.Answer? && last.id == id then before + [last.data] else before
  }

  lemma LogGrows(log: seq<Event>, more: seq<Event>, id: nat)
    requires |more| <= 1
    ensures Messages(log + more, id) == Messages(log, id) +
            if more != [] && more[0].Message? && more[0].id == id then [more[0].data] else []
    ensures Answers(log + more, id) == Answers(log, id) +
            if more != [] && more[0].Answer? && more[0].id == id then [more[0].data] else []
  {
    if more == [] {
      assert log + more == log;
    } else {
      assert (log + more)[..|log + more| - 1] == log;
    }
  }

  lemma {:induction false} NoEvents(log: seq<Event>, id: nat)
    requires forall e <- log :: e.id != id
    ensures Messages(log, id) == [] && Answers(log, id) == []
  {
    if log != [] {
      var last := log[|log| - 1];
      assert last in log && forall e <- log[..|log| - 1] :: e in log;
      NoEvents(log[..|log| - 1], id);
    }
  }

  const NOWHERE := H.Destination(false, [], 0)

  /** The client's messages fit its input buffer, and there are at most a greeting and a request. */
  ghost predicate KnownClient(clients: seq<Client>, log: seq<Event>, id: nat) {
    && id < |clients| && |clients[id].memory| == H.MAX_BUF_SIZE
    && |Messages(log, id)| <= 2
    && forall d <- Messages(log, id) :: |d| <= H.MAX_BUF_SIZE
  }

  /** The destination in the request this client itself sent. */
  ghost function RequestOf(clients: seq<Client>, log: seq<Event>, id: nat): H.Destination
    requires KnownClient(clients, log, id)
  {
    if |Messages(log, id)| == 2 then
      H.ReadRequest(H.InputAfter(clients[id].memory, Messages(log, id)), NOWHERE)
    else NOWHERE
  }

  ghost predicate HandshakingOk(clients: seq<Client>, log: seq<Event>, e: Handshaking) {
    Tracks(clients, e) && e.trace.received == Messages(log, e.id) && Answers(log, e.id) == []
  }

  /** Resolving for its own client, port and host; the buffer holds the query for that host. */
  ghost predicate ResolvingOk(pid: nat, clients: seq<Client>, log: seq<Event>, e: Resolving) {
    && KnownClient(clients, log, e.id) && e.client == clients[e.id].fd
    && Answers(log, e.id) == []
    && N.ValidState(e.resolver) && !e.resolver.responseRecived
    && var dest := RequestOf(clients, log, e.id);
       && dest.domain && e.port == dest.port
       && D.IsQueryBuffer(e.resolver.buf, pid, UpToZero(dest.addr))
  }

  /** The relay is what the calls made to it so far have made of a new connection. */
  ghost predicate Called(e: Relaying) {
    && |e.memory| == R.BUFSIZE && R.ValidInputs(e.calls)
    && e.conn == R.Run(R.NewRelay(e.conn.client, e.conn.forward, e.memory), e.calls)
  }

  /** A closed relay was to be dropped. */
  ghost predicate ClosedOk(e: Relaying) {
    Called(e) && e.conn.toDisconnect
  }

  /** Connected to what its own client asked for, at the address in its own resolver's reply. */
  ghost predicate RelayingOk(clients: seq<Client>, log: seq<Event>, e: Relaying) {
    && KnownClient(clients, log, e.id) && e.conn.client == clients[e.id].fd
    && R.RelayOk(e.conn) && Called(e)
    && var dest := RequestOf(clients, log, e.id);
       match e.target
       case ByAddress(address, port) =>
         && dest.domain && port == dest.port
         && |Answers(log, e.id)| <= 1
         && (forall reply <- Answers(log, e.id) ::
               D.Reply(reply) && D.AnswerCount(reply) > 0 ==>
                 Some(StoreLow(address, 4)) == D.ReplyAddress(reply))
       case ByText(text, port) =>
         !dest.domain && text == dest.addr && port == dest.port && Answers(log, e.id) == []
  }

  ghost predicate Tied(p: State) {
    && (forall ev <- p.log :: ev.id < |p.clients|)
    && (forall e <- p.handshakes :: HandshakingOk(p.clients, p.log, e))
    && (forall e <- p.resolvings :: ResolvingOk(p.pid, p.clients, p.log, e))
    && (forall e <- p.relays :: RelayingOk(p.clients, p.log, e))
    && (forall e <- p.closed :: ClosedOk(e))
  }

  ghost predicate Inv(p: State) {
    Owns(p) && Counts(p) && Tied(p)
  }
}
