// The event loop of net_lab7/Server.cpp as a function of the proxy's state and of what the kernel
// answers in one round. Server.dfy proves the loops of the code against it; ProxyTheorems.dfy
// proves what every run keeps.
module Proxy {
  import opened Bytes
  import opened Sockets
  import H = Handshake
  import N = Resolver
  import R = Relay

  const FD_SETSIZE := 1024

  // ---------------------------------------------------------------- state

  /** A client is known by the order of its accept; `memory` is what its input buffer held at first. */
  datatype Client = Client(fd: int, memory: seq<byte>)

  datatype Target = ByAddress(address: nat, port: nat) | ByText(text: seq<byte>, port: nat)

  datatype Handshaking = Handshaking(id: nat, client: int, trace: H.Trace)

  datatype Resolving = Resolving(id: nat, client: int, port: nat, resolver: N.ResolverState)

  /** A relay with what its buffers held at first and the calls made to it so far. */
  datatype Relaying = Relaying(id: nat, target: Target, conn: R.RelayState, memory: seq<byte>, calls: seq<R.RelayInput>)

  /** What came in from the network before a client's relay existed, and the queries sent for it. */
  datatype Event =
    | Message(id: nat, data: seq<byte>)
    | Query(id: nat, data: seq<byte>)
    | Answer(id: nat, data: seq<byte>)

  datatype State = State(
    pid: nat,
    listener: int,
    fdMax: int,
    handshakes: seq<Handshaking>,
    resolvings: seq<Resolving>,
    relays: seq<Relaying>,
    readset: set<int>,
    writeset: set<int>,
    open: set<int>,
    clients: seq<Client>,
    closed: seq<Relaying>,
    log: seq<Event>)

  /** `run` goes on, or an exception has left it. */
  datatype Outcome = Running(state: State) | Thrown

  /** What select answers; anything it was not asked for is ignored. */
  datatype Ready = SelectFailed | Ready(rd: set<int>, wr: set<int>)

  /**
    The kernel in one round. It answers by descriptor: handshakes and resolvers on theirs, relays
    on both of theirs. New descriptors are fresh; everything else is arbitrary.
   */
  datatype Kernel = Kernel(
    fresh': set<int> -> int,
    ready: Ready,
    acceptFails: bool,
    handshakeIo: int -> H.HandshakeIo,
    resolverIo: int -> N.ResolverIo,
    received: int -> Received,
    sent: int -> Sent,
    memory: seq<byte>,
    word: nat)

  /** Client sockets stay blocking while they shake hands. */
  ghost predicate ValidKernel(k: Kernel) {
    && |k.memory| == N.BUFFER
    && (forall s :: k.fresh'(s) !in s)
    && (forall fd :: H.ValidIo(k.handshakeIo(fd)) && !k.handshakeIo(fd).received.RecvWouldBlock?)
    && (forall fd :: N.ValidIo(k.resolverIo(fd)))
    && (forall fd :: Fits(k.received(fd), R.BUFSIZE))
  }

  /** What the kernel answers to the four calls of one relay. */
  function RelayIo(k: Kernel, c: R.RelayState): R.RelayIo {
    R.RelayIo(k.received(c.client), k.received(c.forward), k.sent(c.forward), k.sent(c.client))
  }

  function Initial(pid: nat, listener: int): State {
    State(pid, listener, listener + 1, [], [], [], {}, {}, {listener}, [], [], [])
  }

  /** checkSocket: how far select has to look. */
  function Reach(fdMax: int, fd: int): (reach: int)
    ensures fdMax <= reach && fd < reach && reach in {fdMax, fd + 1}
  {
    if fd + 1 > fdMax then fd + 1 else fdMax
  }

  /** c_str: the host up to its first zero byte. */
  function UpToZero(s: seq<byte>): (t: seq<byte>)
    ensures t <= s && 0 !in t && (|t| < |s| ==> s[|t|] == 0)
  {
    if 0 in s then CString(s) else s
  }

  /** The handshake belongs to the client with that number and is a run of the connecter. */
  ghost predicate Tracks(clients: seq<Client>, e: Handshaking) {
    && e.id < |clients| && e.client == clients[e.id].fd
    && |clients[e.id].memory| == H.MAX_BUF_SIZE
    && H.TraceOk(e.trace, e.client, clients[e.id].memory)
    && !e.trace.returned
  }

  ghost predicate Shape(p: State) {
    && (forall e <- p.handshakes :: Tracks(p.clients, e))
    && (forall e <- p.resolvings :: N.ValidState(e.resolver))
    && (forall e <- p.relays :: R.RelayOk(e.conn))
  }

  // ---------------------------------------------------------------- prepareSets

  /** Connections to be dropped are closed and erased; the others say what they wait for. */
  function SweepOne(p: State, e: Relaying): State {
    if e.conn.toDisconnect then
      p.(open := p.open - {e.conn.client} - {e.conn.forward}, closed := p.closed + [e])
    else
      p.(relays := p.relays + [e],
         readset := p.readset + R.AskedRead(e.conn),
         writeset := p.writeset + R.AskedWrite(e.conn))
  }

  /** p.relays holds the connections already looked at and kept. */
  function Sweep(p: State, todo: seq<Relaying>): State
    decreases |todo|
  {
    if todo == [] then p else Sweep(SweepOne(p, todo[0]), todo[1..])
  }

  function HandshakeReads(e: Handshaking): set<int> {
    if H.WantsRead(e.trace.state) then {e.client} else {}
  }

  function FillHandshakes(p: State, todo: seq<Handshaking>): State
    decreases |todo|
  {
    if todo == [] then p
    else
      FillHandshakes(p.(readset := p.readset + HandshakeReads(todo[0]),
                        writeset := p.writeset + {todo[0].client}), todo[1..])
  }

  function ResolverReads(r: N.ResolverState): set<int> {
    if r.requestSended && !r.responseRecived then {r.fd} else {}
  }

  function ResolverWrites(r: N.ResolverState): set<int> {
    if !r.requestSended then {r.fd} else {}
  }

  function FillResolvings(p: State, todo: seq<Resolving>): Outcome
    decreases |todo|
  {
    if todo == [] then Running(p)
    else
      var r := todo[0].resolver;
      if r.fd >= FD_SETSIZE then Thrown
      else
        FillResolvings(p.(readset := p.readset + ResolverReads(r),
                          writeset := p.writeset + ResolverWrites(r),
                          fdMax := Reach(p.fdMax, r.fd)), todo[1..])
  }

  function Prepare(p: State): Outcome {
    var cleared := p.(relays := [], readset := {p.listener}, writeset := {});
    var swept := Sweep(cleared, p.relays);
    FillResolvings(FillHandshakes(swept, swept.handshakes), swept.resolvings)
  }

  // ---------------------------------------------------------------- processPendingConnections

  ghost function Pending(p: State, k: Kernel): Outcome
    requires ValidKernel(k)
  {
    if p.listener !in p.readset then Running(p)
    else if k.acceptFails then Thrown
    else
      var fd := k.fresh'(p.open);
      if fd >= FD_SETSIZE then Thrown
      else
        var memory := k.memory[..H.MAX_BUF_SIZE];
        var e := Handshaking(|p.clients|, fd, H.Start(fd, memory));
        Running(p.(open := p.open + {fd},
                   fdMax := Reach(p.fdMax, fd),
                   clients := p.clients + [Client(fd, memory)],
                   handshakes := p.handshakes + [e]))
  }

  // ---------------------------------------------------------------- processWaitingForHandshake

  ghost function FeedOne(p: State, e: Handshaking, k: Kernel): (t: H.Trace)
    requires ValidKernel(k) && Tracks(p.clients, e)
    ensures H.Shape(t.state)
  {
    H.Feed(e.trace, H.HandshakeInput(e.client in p.readset, e.client in p.writeset, k.handshakeIo(e.client)))
  }

  /** A new connection of a client to its target. */
  function Connect(id: nat, target: Target, client: int, forward: int, k: Kernel): Relaying
    requires |k.memory| == N.BUFFER
  {
    var memory := k.memory[..R.BUFSIZE];
    Relaying(id, target, R.NewRelay(client, forward, memory), memory, [])
  }

  /** A handshake that returned 1 goes on to a resolver or straight to a relay; both open a socket. */
  ghost function Advance(p: State, id: nat, client: int, dest: H.Destination, k: Kernel): State
    requires ValidKernel(k) && |dest.addr| <= 255
  {
    var fd := k.fresh'(p.open);
    if dest.domain then
      var resolver := N.NewResolver(fd, k.memory, p.pid, UpToZero(dest.addr), k.word);
      p.(open := p.open + {fd},
         resolvings := p.resolvings + [Resolving(id, client, dest.port, resolver)])
    else
      p.(open := p.open + {fd},
         relays := p.relays + [Connect(id, ByText(dest.addr, dest.port), client, fd, k)])
  }

  function MessageEvent(id: nat, before: H.Trace, after: H.Trace): seq<Event> {
    if |after.received| > |before.received| then [Message(id, after.received[|after.received| - 1])] else []
  }

  lemma FeedAddrFits(p: State, e: Handshaking, k: Kernel)
    requires ValidKernel(k) && Tracks(p.clients, e)
    ensures H.TraceOk(FeedOne(p, e, k), e.client, p.clients[e.id].memory)
    ensures |FeedOne(p, e, k).state.dest.addr| <= 255
  {
    H.FeedKeepsOk(e.trace,
      H.HandshakeInput(e.client in p.readset, e.client in p.writeset, k.handshakeIo(e.client)),
      e.client, p.clients[e.id].memory);
    H.TraceAddrFits(FeedOne(p, e, k), e.client, p.clients[e.id].memory);
  }

  ghost function HandshakeOne(p: State, e: Handshaking, k: Kernel): (q: State)
    requires ValidKernel(k) && Tracks(p.clients, e)
    ensures q.clients == p.clients
  {
    FeedAddrFits(p, e, k);
    var t := FeedOne(p, e, k);
    var q := p.(log := p.log + MessageEvent(e.id, e.trace, t));
    if t.returned then Advance(q, e.id, e.client, t.state.dest, k)
    else q.(handshakes := q.handshakes + [e.(trace := t)])
  }

  ghost function HandshakePass(p: State, todo: seq<Handshaking>, k: Kernel): (q: State)
    requires ValidKernel(k) && forall e <- todo :: Tracks(p.clients, e)
    decreases |todo|
  {
    if todo == [] then p
    else
      assert todo[0] in todo && forall e <- todo[1..] :: e in todo;
      HandshakePass(HandshakeOne(p, todo[0], k), todo[1..], k)
  }

  // ---------------------------------------------------------------- processWaitingForResolving

  function AnswerEvent(id: nat, io: N.ResolverIo): seq<Event> {
    if io.received.Bytes? then [Answer(id, io.received.data)] else []
  }

  function QueryEvent(e: Resolving, writable: bool, io: N.ResolverIo): seq<Event> {
    if writable && !e.resolver.requestSended && io.sent.Took? then [Query(e.id, N.Packet(e.resolver.buf))] else []
  }

  ghost function ResolveOne(p: State, e: Resolving, k: Kernel): Outcome
    requires ValidKernel(k) && N.ValidState(e.resolver)
  {
    var fd := e.resolver.fd;
    var (r, done) := N.Exchange(e.resolver, fd in p.readset, fd in p.writeset, k.resolverIo(fd));
    var log := p.log + QueryEvent(e, fd in p.writeset, k.resolverIo(fd));
    if done then
      var forward := k.fresh'(p.open);
      Running(p.(log := log + AnswerEvent(e.id, k.resolverIo(fd)),
                 open := p.open + {forward} - {fd},
                 relays := p.relays + [Connect(e.id, ByAddress(r.addr, e.port), e.client, forward, k)]))
    else if fd >= FD_SETSIZE then Thrown
    else
      Running(p.(log := log, fdMax := Reach(p.fdMax, fd), resolvings := p.resolvings + [e.(resolver := r)]))
  }

  ghost function ResolvePass(p: State, todo: seq<Resolving>, k: Kernel): Outcome
    requires ValidKernel(k) && forall e <- todo :: N.ValidState(e.resolver)
    decreases |todo|
  {
    if todo == [] then Running(p)
    else
      assert todo[0] in todo && forall e <- todo[1..] :: e in todo;
      match ResolveOne(p, todo[0], k)
      case Thrown => Thrown
      case Running(q) => ResolvePass(q, todo[1..], k)
  }

  // ---------------------------------------------------------------- processConnections

  ghost function RelayOne(p: State, e: Relaying, k: Kernel): (e': Relaying)
    requires ValidKernel(k) && R.RelayOk(e.conn)
  {
    R.LaneOkShape(e.conn.cf);
    R.LaneOkShape(e.conn.fc);
    e.(conn := R.Exchange(e.conn, p.readset, p.writeset, RelayIo(k, e.conn)),
       calls := e.calls + [R.RelayInput(p.readset, p.writeset, RelayIo(k, e.conn))])
  }

  lemma RelayShape(p: State, e: Relaying, k: Kernel)
    requires ValidKernel(k) && R.RelayOk(e.conn)
    ensures R.LaneShape(e.conn.cf) && R.LaneShape(e.conn.fc) && R.ValidIo(RelayIo(k, e.conn))
    ensures var call := R.RelayInput(p.readset, p.writeset, RelayIo(k, e.conn));
            RelayOne(p, e, k) == e.(conn := R.Exchange(e.conn, call.rd, call.wr, call.io), calls := e.calls + [call])
  {
  }

  ghost function ExchangeAll(p: State, relays: seq<Relaying>, k: Kernel): (out: seq<Relaying>)
    requires ValidKernel(k) && forall e <- relays :: R.RelayOk(e.conn)
    ensures |out| == |relays|
    ensures forall i :: 0 <= i < |relays| ==> relays[i] in relays && out[i] == RelayOne(p, relays[i], k)
  {
    if relays == [] then []
    else
      assert relays[0] in relays && forall e <- relays[1..] :: e in relays;
      [RelayOne(p, relays[0], k)] + ExchangeAll(p, relays[1..], k)
  }
}
