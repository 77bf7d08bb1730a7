// SOCKS5Connecter (net_lab7/SOCKS5Connecter.cpp): the two phases of a handshake (RFC 1928).
module Handshake {
  import opened Bytes
  import opened Wrappers
  import opened Sockets
  import DnsName

  const MAX_BUF_SIZE := 1024
  const VERSION: byte := 5
  const IPV4: byte := 1
  const DOMAIN: byte := 3
  const IPV6: byte := 4

  // ---------------------------------------------------------------- messages

  /** The method list in the input buffer offers "no authentication". */
  predicate OffersNone(input: seq<byte>)
    requires |input| == MAX_BUF_SIZE
  {
    exists j :: 2 <= j < 2 + input[1] as int && input[j] == 0
  }

  function MethodReply(input: seq<byte>): (m: seq<byte>)
    requires |input| == MAX_BUF_SIZE
    ensures |m| == 2
  {
    [VERSION, if OffersNone(input) then 0 else 0xFF]
  }

  /** 8 for an IPv6 address, 7 for another version or command, 0 otherwise. */
  function ReplyCode(input: seq<byte>): byte
    requires |input| == MAX_BUF_SIZE
  {
    if input[3] == IPV6 then 8
    else if input[0] != VERSION || input[1] != 1 then 7
    else 0
  }

  /** The reply names 127.0.0.1 and the port known before the request was parsed. */
  function RequestReply(input: seq<byte>, port: nat): (r: seq<byte>)
    requires |input| == MAX_BUF_SIZE
    ensures |r| == 10
  {
    [VERSION, ReplyCode(input), 0, 1, 127, 0, 0, 1] + StoreLow(port, 2)
  }

  /** std::to_string of a byte, in ASCII. */
  function Decimal(n: nat): (s: seq<byte>)
    ensures forall c <- s :: 48 <= c <= 57
  {
    if n < 10 then [48 + n] else Decimal(n / 10) + [48 + n % 10]
  }

  function QuadText(a: seq<byte>): seq<byte>
    requires |a| == 4
  {
    DnsName.Join([Decimal(a[0]), Decimal(a[1]), Decimal(a[2]), Decimal(a[3])])
  }

  /** The destination a request names. */
  datatype Destination = Destination(domain: bool, addr: seq<byte>, port: nat)

  /** The request in the input buffer read on top of what is known so far (address text grows). */
  function ReadRequest(input: seq<byte>, before: Destination): Destination
    requires |input| == MAX_BUF_SIZE
  {
    if input[3] == DOMAIN then
      var k: nat := input[4];
      Destination(true, before.addr + input[5..5 + k], PortBytes(before.port, input[k + 5], input[k + 6]))
    else if input[3] == IPV4 then
      Destination(false, before.addr + QuadText(input[4..8]), PortBytes(before.port, input[8], input[9]))
    else before
  }

  /** Only the two low bytes of the port are written. */
  function PortBytes(port: nat, high: byte, low: byte): nat {
    port / 65536 * 65536 + (high as int) * 256 + low
  }

  // ---------------------------------------------------------------- the connecter as a value

  datatype HandshakeState = HandshakeState(
    client: int,
    input: seq<byte>,
    output: seq<byte>,
    firstStepCompleted: bool,
    drop: bool,
    dest: Destination)

  datatype HandshakeIo = HandshakeIo(received: Received, sent: Sent)

  /** New state, return code, and the message handed to send, if any. */
  datatype Step = Step(state: HandshakeState, code: int, attempt: Option<seq<byte>>)

  predicate ValidIo(io: HandshakeIo) {
    Fits(io.received, MAX_BUF_SIZE)
  }

  predicate Shape(h: HandshakeState) {
    |h.input| == MAX_BUF_SIZE && |h.output| in {0, 2, 10}
  }

  function NewHandshake(client: int, memory: seq<byte>): (h: HandshakeState)
    requires |memory| == MAX_BUF_SIZE
    ensures Shape(h)
  {
    HandshakeState(client, memory, [], false, false, Destination(false, [], 0))
  }

  function Greeted(h: HandshakeState, input: seq<byte>): (h': HandshakeState)
    requires |input| == MAX_BUF_SIZE
    ensures Shape(h')
  {
    h.(input := input, output := MethodReply(input))
  }

  function Requested(h: HandshakeState, input: seq<byte>): (h': HandshakeState)
    requires |input| == MAX_BUF_SIZE
    ensures Shape(h')
  {
    h.(input := input, output := RequestReply(input, h.dest.port), dest := ReadRequest(input, h.dest))
  }

  /** The reading half; the flag says that the call returns at once with the code. */
  function AfterRead(h: HandshakeState, r: Received): (res: (HandshakeState, bool, int))
    requires Shape(h) && Fits(r, MAX_BUF_SIZE)
    ensures Shape(res.0)
  {
    match r
    case EndOfStream => (h.(drop := true), true, 1)
    case RecvFailed => (h.(drop := true), true, 0)
    case RecvWouldBlock => (Requested(h, h.input), false, 0)
    case Bytes(d) =>
      var input := Overlay(d, h.input);
      (if h.firstStepCompleted then Requested(h, input) else Greeted(h, input), false, 0)
  }

  function AfterWrite(h: HandshakeState, s: Sent): (res: Step)
    requires Shape(h)
    ensures Shape(res.state)
  {
    var failed := s.SendFailed? || s == Took(0);
    Step(h.(output := [], drop := h.drop || failed, firstStepCompleted := true),
         if h.firstStepCompleted then 1 else 0, Some(h.output))
  }

  function Exchange(h: HandshakeState, readable: bool, writable: bool, io: HandshakeIo): (res: Step)
    requires Shape(h) && ValidIo(io)
    ensures Shape(res.state) && res.state.client == h.client
  {
    if h.drop then Step(h, 0, None)
    else
      var (s, stop, code) := if readable && h.output == [] then AfterRead(h, io.received) else (h, false, 0);
      if stop then Step(s, code, None)
      else if writable && s.output != [] then AfterWrite(s, io.sent)
      else Step(s, 0, None)
  }

  function WantsRead(h: HandshakeState): bool {
    !h.firstStepCompleted || h.output == []
  }

  // ---------------------------------------------------------------- whole runs

  datatype HandshakeInput = HandshakeInput(readable: bool, writable: bool, io: HandshakeIo)

  /** What a handshake read and what it tried to send, up to its first return of 1. */
  datatype Trace = Trace(state: HandshakeState, received: seq<seq<byte>>, attempts: seq<seq<byte>>, returned: bool)

  /** A blocking client socket never answers "would block". */
  predicate BlockingInputs(ins: seq<HandshakeInput>) {
    forall i <- ins :: ValidIo(i.io) && !i.io.received.RecvWouldBlock?
  }

  function Feed(t: Trace, i: HandshakeInput): (t': Trace)
    requires Shape(t.state) && ValidIo(i.io)
    ensures Shape(t'.state)
  {
    if t.returned then t
    else
      var reading := !t.state.drop && i.readable && t.state.output == [];
      var step := Exchange(t.state, i.readable, i.writable, i.io);
      Trace(step.state,
            t.received + if reading && i.io.received.Bytes? then [i.io.received.data] else [],
            t.attempts + if step.attempt.Some? then [step.attempt.value] else [],
            step.code == 1)
  }

  function RunTrace(t: Trace, ins: seq<HandshakeInput>): Trace
    requires Shape(t.state) && forall i <- ins :: ValidIo(i.io)
    decreases |ins|
  {
    if ins == [] then t
    else
      assert ins[0] in ins && forall i <- ins[1..] :: i in ins;
      RunTrace(Feed(t, ins[0]), ins[1..])
  }

  function Start(client: int, memory: seq<byte>): Trace
    requires |memory| == MAX_BUF_SIZE
  {
    Trace(NewHandshake(client, memory), [], [], false)
  }

  /** The input buffer after the messages received so far. */
  function InputAfter(memory: seq<byte>, received: seq<seq<byte>>): (input: seq<byte>)
    requires |memory| == MAX_BUF_SIZE && forall d <- received :: |d| <= MAX_BUF_SIZE
    ensures |input| == MAX_BUF_SIZE
  {
    if received == [] then memory
    else Overlay(received[|received| - 1], InputAfter(memory, received[..|received| - 1]))
  }

  /** The replies that answer the received messages: one for the greeting, one for the request. */
  function Replies(memory: seq<byte>, received: seq<seq<byte>>): (rs: seq<seq<byte>>)
    requires |memory| == MAX_BUF_SIZE && |received| <= 2 && forall d <- received :: |d| <= MAX_BUF_SIZE
    ensures |rs| == |received| && forall k :: 0 <= k < |rs| ==> |rs[k]| in {2, 10}
  {
    if received == [] then []
    else if |received| == 1 then [MethodReply(InputAfter(memory, received))]
    else
      assert forall d <- received[..1] :: d in received;
      [MethodReply(InputAfter(memory, received[..1])), RequestReply(InputAfter(memory, received), 0)]
  }

  /**
    What every reachable point of a handshake looks like: at most a greeting and a request were
    read; the replies to them were tried in that order, with at most the last one still waiting;
    the destination is the one of the request; a return of 1 comes either at the second send or
    at an end of stream, and only the former leaves `drop` unset.
   */
  ghost predicate TraceOk(t: Trace, client: int, memory: seq<byte>)
    requires |memory| == MAX_BUF_SIZE
  {
    var h, n, k := t.state, |t.received|, |t.attempts|;
    && Shape(h) && h.client == client
    && n <= 2 && (forall d <- t.received :: |d| <= MAX_BUF_SIZE)
    && h.input == InputAfter(memory, t.received)
    && k <= n && n <= k + 1
    && t.attempts == Replies(memory, t.received)[..k]
    && h.output == (if k < n then Replies(memory, t.received)[k] else [])
    && (h.firstStepCompleted <==> k >= 1)
    && h.dest == (if n == 2 then ReadRequest(h.input, Destination(false, [], 0)) else Destination(false, [], 0))
    && (k == 2 ==> t.returned)
    && (t.returned ==> k == 2 || (h.drop && n == k))
  }

  lemma TraceAddrFits(t: Trace, client: int, memory: seq<byte>)
    requires |memory| == MAX_BUF_SIZE && TraceOk(t, client, memory)
    ensures |t.state.dest.addr| <= 255
  {
    if |t.received| == 2 && t.state.input[3] == IPV4 {
      QuadTextFits(t.state.input[4..8]);
    }
  }

  lemma DecimalFits(n: nat)
    requires n < 1000
    ensures |Decimal(n)| <= 3
  {
    if n >= 10 {
      assert |Decimal(n)| == |Decimal(n / 10)| + 1;
      if n / 10 >= 10 {
        assert |Decimal(n / 10)| == |Decimal(n / 10 / 10)| + 1;
      }
    }
  }

  lemma QuadTextFits(a: seq<byte>)
    requires |a| == 4
    ensures |QuadText(a)| <= 15
  {
    DecimalFits(a[0]);
    DecimalFits(a[1]);
    DecimalFits(a[2]);
    DecimalFits(a[3]);
    JoinLength([Decimal(a[0]), Decimal(a[1]), Decimal(a[2]), Decimal(a[3])]);
  }

  lemma {:induction false} JoinLength(parts: seq<seq<byte>>)
    requires forall i :: 0 <= i < |parts| ==> |parts[i]| <= 3
    ensures |DnsName.Join(parts)| <= if parts == [] then 0 else 4 * |parts| - 1
  {
    if |parts| > 1 {
      JoinLength(parts[1..]);
    }
  }

  lemma StartOk(client: int, memory: seq<byte>)
    requires |memory| == MAX_BUF_SIZE
    ensures TraceOk(Start(client, memory), client, memory)
  {
  }

  lemma RepliesGrow(memory: seq<byte>, received: seq<seq<byte>>, d: seq<byte>)
    requires |memory| == MAX_BUF_SIZE && |received| <= 1 && |d| <= MAX_BUF_SIZE
    requires forall c <- received :: |c| <= MAX_BUF_SIZE
    ensures forall c <- received + [d] :: |c| <= MAX_BUF_SIZE
    ensures InputAfter(memory, received + [d]) == Overlay(d, InputAfter(memory, received))
    ensures Replies(memory, received + [d])[..|received|] == Replies(memory, received)
    ensures Replies(memory, received + [d])[|received|] ==
      var input := InputAfter(memory, received + [d]);
      if received == [] then MethodReply(input) else RequestReply(input, 0)
  {
  }

  lemma FeedKeepsOk(t: Trace, i: HandshakeInput, client: int, memory: seq<byte>)
    requires |memory| == MAX_BUF_SIZE && TraceOk(t, client, memory)
    requires ValidIo(i.io) && !i.io.received.RecvWouldBlock?
    ensures TraceOk(Feed(t, i), client, memory)
  {
    hide Overlay, MethodReply, RequestReply, ReadRequest, InputAfter, Replies;
    assert t.received + [] == t.received && t.attempts + [] == t.attempts;
    if !t.returned && !t.state.drop && i.readable && t.state.output == [] && i.io.received.Bytes? {
      WaitingForMessage(t, client, memory);
      RepliesGrow(memory, t.received, i.io.received.data);
    }
  }

  /** With nothing to send, every message so far has been answered. */
  lemma WaitingForMessage(t: Trace, client: int, memory: seq<byte>)
    requires |memory| == MAX_BUF_SIZE && TraceOk(t, client, memory)
    requires !t.returned && t.state.output == []
    ensures |t.attempts| == |t.received| <= 1 && t.attempts == Replies(memory, t.received)
  {
  }

  /** Every run of a handshake, from construction on, keeps to that picture. */
  lemma {:induction false} RunKeepsOk(t: Trace, ins: seq<HandshakeInput>, client: int, memory: seq<byte>)
    requires |memory| == MAX_BUF_SIZE && TraceOk(t, client, memory) && BlockingInputs(ins)
    ensures TraceOk(RunTrace(t, ins), client, memory)
    decreases |ins|
  {
    hide TraceOk, Feed;
    TraceShape(t, client, memory);
    if ins != [] {
      assert ins[0] in ins && forall i <- ins[1..] :: i in ins;
      FeedKeepsOk(t, ins[0], client, memory);
      RunKeepsOk(Feed(t, ins[0]), ins[1..], client, memory);
    }
  }

  lemma TraceShape(t: Trace, client: int, memory: seq<byte>)
    requires |memory| == MAX_BUF_SIZE && TraceOk(t, client, memory)
    ensures Shape(t.state)
  {
  }

  /** Once `drop` is set without a return of 1 nothing is read, sent or returned any more. */
  lemma {:induction false} DroppedIsStuck(t: Trace, ins: seq<HandshakeInput>)
    requires Shape(t.state) && t.state.drop && forall i <- ins :: ValidIo(i.io)
    ensures RunTrace(t, ins) == t
    decreases |ins|
  {
    if ins != [] {
      assert ins[0] in ins && forall i <- ins[1..] :: i in ins;
      assert t.received + [] == t.received && t.attempts + [] == t.attempts;
      assert Feed(t, ins[0]) == t;
      DroppedIsStuck(t, ins[1..]);
    }
  }

  /**
    The run theorem: for every client, whatever the buffers held and whatever the kernel answers,
    the messages tried are the first of the two replies, or both; no drop and a return of 1 means
    both were sent and the destination is the one asked for.
   */
  lemma EveryRun(client: int, memory: seq<byte>, ins: seq<HandshakeInput>)
    requires |memory| == MAX_BUF_SIZE && BlockingInputs(ins)
    ensures var t := RunTrace(Start(client, memory), ins);
            && TraceOk(t, client, memory)
            && |t.attempts| <= |t.received| <= 2
            && t.attempts == Replies(memory, t.received)[..|t.attempts|]
            && (|t.attempts| >= 1 ==> t.attempts[0] in {[5, 0], [5, 0xFF]})
            && (|t.attempts| == 2 ==> t.returned)
            && (|t.attempts| == 2 ==>
                  t.attempts[1] == [5, ReplyCode(InputAfter(memory, t.received)), 0, 1, 127, 0, 0, 1, 0, 0])
            && (t.returned && !t.state.drop ==>
                  |t.attempts| == 2
                  && t.state.dest == ReadRequest(InputAfter(memory, t.received), Destination(false, [], 0)))
  {
    hide Replies, InputAfter, ReadRequest;
    StartOk(client, memory);
    RunKeepsOk(Start(client, memory), ins, client, memory);
    RepliesAre(memory, RunTrace(Start(client, memory), ins).received);
  }

  /** The two replies byte by byte: the address is 127.0.0.1 and the port, not yet parsed, is 0. */
  lemma RepliesAre(memory: seq<byte>, received: seq<seq<byte>>)
    requires |memory| == MAX_BUF_SIZE && |received| <= 2 && forall d <- received :: |d| <= MAX_BUF_SIZE
    ensures received != [] ==> Replies(memory, received)[0] in {[5, 0], [5, 0xFF]}
    ensures |received| == 2 ==>
              Replies(memory, received)[1]
              == [5, ReplyCode(InputAfter(memory, received)), 0, 1, 127, 0, 0, 1, 0, 0]
  {
    assert StoreLow(0, 2) == [0] + StoreLow(0, 1) == [0, 0];
  }

  /**
    Why `EveryRun` asks for a blocking socket: what a client's first read leaves to be sent is the
    reply to a greeting if it brought bytes, and a request reply to a request never made if it
    answered "would block".
   */
  lemma FirstReadDecides(client: int, memory: seq<byte>, i: HandshakeInput)
    requires |memory| == MAX_BUF_SIZE && ValidIo(i.io) && i.readable
    ensures var t := Feed(Start(client, memory), i);
            var produced := t.attempts + if t.state.output == [] then [] else [t.state.output];
            match i.io.received
            case Bytes(d) => produced == [MethodReply(Overlay(d, memory))] && t.received == [d]
            case RecvWouldBlock => produced == [RequestReply(memory, 0)] && t.received == []
            case _ => produced == [] && t.received == [] && t.state.drop
  {
  }

  // ---------------------------------------------------------------- stuck or not

  /** The handshake can still end with both replies sent and without a drop. */
  ghost predicate CanFinish(t: Trace)
    requires Shape(t.state)
  {
    exists ins :: BlockingInputs(ins) && RunTrace(t, ins).returned && !RunTrace(t, ins).state.drop
  }

  /** A call in which the client sends a byte if it is waited for and takes all it is sent. */
  const GO_ON := HandshakeInput(true, true, HandshakeIo(Bytes([VERSION]), Took(10)))

  lemma GoOnTwice(t: Trace, client: int, memory: seq<byte>)
    requires |memory| == MAX_BUF_SIZE && TraceOk(t, client, memory) && !t.returned && !t.state.drop
    ensures var u := Feed(Feed(t, GO_ON), GO_ON); u.returned && !u.state.drop
  {
    hide Overlay, MethodReply, RequestReply, ReadRequest, InputAfter, Replies;
    FeedKeepsOk(t, GO_ON, client, memory);
    FeedKeepsOk(Feed(t, GO_ON), GO_ON, client, memory);
  }

  /** A handshake under way, wherever it stands, can still finish exactly if `drop` is not set. */
  lemma CanFinishIff(t: Trace, client: int, memory: seq<byte>)
    requires |memory| == MAX_BUF_SIZE && TraceOk(t, client, memory) && !t.returned
    ensures Shape(t.state) && (CanFinish(t) <==> !t.state.drop)
  {
    hide Feed;
    TraceShape(t, client, memory);
    if t.state.drop {
      forall ins | BlockingInputs(ins) ensures !RunTrace(t, ins).returned {
        DroppedIsStuck(t, ins);
      }
    } else {
      GoOnTwice(t, client, memory);
      var ins := [GO_ON, GO_ON];
      assert BlockingInputs(ins);
      assert ins[1..] == [GO_ON] && [GO_ON][1..] == [];
      assert RunTrace(t, ins) == RunTrace(Feed(t, GO_ON), [GO_ON]) == Feed(Feed(t, GO_ON), GO_ON);
    }
  }

  // ---------------------------------------------------------------- the phases

  /**
    A handshake without buffers: waiting for the greeting, owing the method reply, waiting for the
    request, owing its reply; left for good (clean or not), or stuck in the list.
   */
  datatype Phase = Greeting | Choosing | Asking | Answering | Left(clean: bool) | Stuck

  /** The phase, the messages heard and the number of replies tried. */
  datatype Session = Session(phase: Phase, heard: seq<seq<byte>>, said: nat)

  function Hear(s: Session, ready: bool, got: Received): Session {
    if !ready || (s.phase != Greeting && s.phase != Asking) then s
    else
      match got
      case Bytes(d) => Session(if s.phase == Greeting then Choosing else Answering, s.heard + [d], s.said)
      case EndOfStream => s.(phase := Left(false))
      case RecvFailed => s.(phase := Stuck)
      case RecvWouldBlock => s
  }

  function Say(s: Session, ready: bool, put: Sent): Session {
    var lost := put == SendFailed || put == Took(0);
    if !ready then s
    else
      match s.phase
      case Choosing => Session(if lost then Stuck else Asking, s.heard, s.said + 1)
      case Answering => Session(Left(!lost), s.heard, s.said + 1)
      case _ => s
  }

  function Talk(s: Session, ins: seq<HandshakeInput>): Session
    decreases |ins|
  {
    if ins == [] then s
    else Talk(Say(Hear(s, ins[0].readable, ins[0].io.received), ins[0].writable, ins[0].io.sent), ins[1..])
  }

  function SessionOf(t: Trace): Session {
    var h := t.state;
    Session(if t.returned then Left(!h.drop)
            else if h.drop then Stuck
            else if h.output == [] then if h.firstStepCompleted then Asking else Greeting
            else if h.firstStepCompleted then Answering else Choosing,
            t.received, |t.attempts|)
  }

  lemma FeedIsTalk(t: Trace, i: HandshakeInput, client: int, memory: seq<byte>)
    requires |memory| == MAX_BUF_SIZE && TraceOk(t, client, memory)
    requires ValidIo(i.io) && !i.io.received.RecvWouldBlock?
    ensures SessionOf(Feed(t, i))
         == Say(Hear(SessionOf(t), i.readable, i.io.received), i.writable, i.io.sent)
  {
    hide Overlay, ReplyCode, OffersNone, StoreLow, ReadRequest, InputAfter, Replies;
    assert t.received + [] == t.received && t.attempts + [] == t.attempts;
  }

  /** Every run of a handshake goes through the phases that its calls alone say. */
  lemma {:induction false} RunIsTalk(t: Trace, ins: seq<HandshakeInput>, client: int, memory: seq<byte>)
    requires |memory| == MAX_BUF_SIZE && TraceOk(t, client, memory) && BlockingInputs(ins)
    ensures Shape(t.state) && SessionOf(RunTrace(t, ins)) == Talk(SessionOf(t), ins)
    decreases |ins|
  {
    hide TraceOk, Feed, SessionOf;
    TraceShape(t, client, memory);
    if ins != [] {
      assert ins[0] in ins && forall i <- ins[1..] :: i in ins;
      FeedKeepsOk(t, ins[0], client, memory);
      FeedIsTalk(t, ins[0], client, memory);
      RunIsTalk(Feed(t, ins[0]), ins[1..], client, memory);
    }
  }

  lemma NewIsTalk(client: int, memory: seq<byte>, ins: seq<HandshakeInput>)
    requires |memory| == MAX_BUF_SIZE && BlockingInputs(ins)
    ensures SessionOf(RunTrace(Start(client, memory), ins)) == Talk(Session(Greeting, [], 0), ins)
  {
    StartOk(client, memory);
    RunIsTalk(Start(client, memory), ins, client, memory);
  }

  /**
    A client that ends its stream while it is waited for is left at once, without a reply; one whose
    receive fails stays, dropped.
   */
  lemma WhenReadingEnds(t: Trace, i: HandshakeInput)
    requires Shape(t.state) && ValidIo(i.io) && !t.returned && !t.state.drop && t.state.output == [] && i.readable
    ensures i.io.received.EndOfStream? ==>
          Feed(t, i).returned && Feed(t, i).state.drop && Feed(t, i).attempts == t.attempts
    ensures i.io.received.RecvFailed? ==>
          !Feed(t, i).returned && Feed(t, i).state.drop && Feed(t, i).attempts == t.attempts
  {
  }

  // ---------------------------------------------------------------- complete messages

  /** A greeting received whole is answered by its own method list (section 3 of RFC 1928). */
  lemma CompleteGreeting(g: seq<byte>, memory: seq<byte>)
    requires |memory| == MAX_BUF_SIZE && 2 <= |g| <= MAX_BUF_SIZE && 2 + g[1] <= |g|
    ensures MethodReply(Overlay(g, memory)) == [5, if 0 in g[2..2 + g[1]] then 0 else 0xFF]
  {
  }

  /** A CONNECT request for a domain name (sections 4 and 5 of RFC 1928). */
  function DomainRequest(host: seq<byte>, port: nat): seq<byte>
    requires |host| <= 255 && port < 65536
  {
    [5, 1, 0, 3, |host|] + host + [port / 256, port % 256]
  }

  function Ipv4Request(a: seq<byte>, port: nat): seq<byte>
    requires |a| == 4 && port < 65536
  {
    [5, 1, 0, 1] + a + [port / 256, port % 256]
  }

  /** Every host and port asked for is the destination read, and the request is granted. */
  lemma DomainRequestRead(host: seq<byte>, port: nat, memory: seq<byte>)
    requires |host| <= 255 && port < 65536 && |memory| == MAX_BUF_SIZE
    ensures var input := Overlay(DomainRequest(host, port), memory);
            && ReadRequest(input, Destination(false, [], 0)) == Destination(true, host, port)
            && ReplyCode(input) == 0
  {
  }

  /**
    A client whose greeting and request are read and answered whole is left cleanly, whatever its
    request was answered with: a refused request goes on like a granted one.
   */
  lemma EveryRequestGoesOn(t: Trace, client: int, memory: seq<byte>, m: seq<byte>)
    requires |memory| == MAX_BUF_SIZE && TraceOk(t, client, memory) && !t.returned && !t.state.drop
         && t.state.output == []
    requires 1 <= |m| <= MAX_BUF_SIZE
    ensures var u := Feed(t, HandshakeInput(true, true, HandshakeIo(Bytes(m), Took(10))));
            && u.received == t.received + [m] && !u.state.drop && u.state.output == []
            && u.state.firstStepCompleted && (u.returned <==> t.state.firstStepCompleted)
            && TraceOk(u, client, memory)
  {
    hide Overlay, ReplyCode, OffersNone, StoreLow, ReadRequest, InputAfter, Replies;
    FeedKeepsOk(t, HandshakeInput(true, true, HandshakeIo(Bytes(m), Took(10))), client, memory);
  }

  /** What a request of any kind is answered with (section 6 of RFC 1928), and when it names no destination. */
  lemma AnyRequestAnswered(m: seq<byte>, memory: seq<byte>, before: Destination)
    requires 4 <= |m| <= MAX_BUF_SIZE && |memory| == MAX_BUF_SIZE
    ensures var input := Overlay(m, memory);
            var code := RequestReply(input, 0)[1];
            && RequestReply(input, 0) == [5, code, 0, 1, 127, 0, 0, 1, 0, 0]
            && (code == 0 <==> m[0] == 5 && m[1] == 1 && m[3] != 4)
            && (code == 8 <==> m[3] == 4) && code in {0, 7, 8}
            && (m[3] != 1 && m[3] != 3 ==> ReadRequest(input, before) == before)
  {
    assert StoreLow(0, 2) == [0] + StoreLow(0, 1) == [0, 0];
  }

  lemma Ipv4RequestRead(a: seq<byte>, port: nat, memory: seq<byte>)
    requires |a| == 4 && port < 65536 && |memory| == MAX_BUF_SIZE
    ensures var input := Overlay(Ipv4Request(a, port), memory);
            && ReadRequest(input, Destination(false, [], 0)) == Destination(false, QuadText(a), port)
            && ReplyCode(input) == 0
  {
  }

  // What the client sends is a stream: recv may cut it anywhere. The first two pieces are what the
  // handshake takes for the greeting and the request.

  /** The destination read when recv hands over the first a bytes of the stream, then the next b. */
  function CutDestination(stream: seq<byte>, a: nat, b: nat, memory: seq<byte>): Destination
    requires |memory| == MAX_BUF_SIZE && a + b <= |stream| && a <= MAX_BUF_SIZE && b <= MAX_BUF_SIZE
  {
    ReadRequest(InputAfter(memory, [stream[..a], stream[a..a + b]]), Destination(false, [], 0))
  }

  lemma TraceDestination(t: Trace, client: int, memory: seq<byte>)
    requires |memory| == MAX_BUF_SIZE && TraceOk(t, client, memory) && |t.received| == 2
    ensures forall d <- t.received :: |d| <= MAX_BUF_SIZE
    ensures t.state.dest == ReadRequest(InputAfter(memory, t.received), Destination(false, [], 0))
  {
  }

  /** The destination of every run that has read two pieces of the stream is the one of that cut. */
  lemma RunReadsCut(client: int, memory: seq<byte>, ins: seq<HandshakeInput>, stream: seq<byte>)
    requires |memory| == MAX_BUF_SIZE && BlockingInputs(ins)
    requires var t := RunTrace(Start(client, memory), ins); |t.received| == 2 && t.received[0] + t.received[1] <= stream
    ensures var t := RunTrace(Start(client, memory), ins);
            && |t.received[0]| <= MAX_BUF_SIZE && |t.received[1]| <= MAX_BUF_SIZE
            && t.state.dest == CutDestination(stream, |t.received[0]|, |t.received[1]|, memory)
  {
    hide TraceOk, InputAfter, ReadRequest, RunTrace;
    StartOk(client, memory);
    RunKeepsOk(Start(client, memory), ins, client, memory);
    TraceDestination(RunTrace(Start(client, memory), ins), client, memory);
    var r := RunTrace(Start(client, memory), ins).received;
    assert r[0] in r && r[1] in r;
    assert r[0] == stream[..|r[0]|] && r[1] == stream[|r[0]|..|r[0]| + |r[1]|];
    assert r == [r[0], r[1]];
  }

  /** Whatever port is asked for and whatever the buffer held, the host and the port are read right. */
  ghost predicate CutServes(greeting: seq<byte>, host: seq<byte>, a: nat, b: nat)
    requires |host| <= 255 && a <= MAX_BUF_SIZE && b <= MAX_BUF_SIZE && a + b <= |greeting| + |host| + 7
  {
    forall port: nat, memory: seq<byte> :: port < 65536 && |memory| == MAX_BUF_SIZE ==>
      CutDestination(greeting + DomainRequest(host, port), a, b, memory) == Destination(true, host, port)
  }

  lemma CutInput(stream: seq<byte>, a: nat, b: nat, memory: seq<byte>)
    requires |memory| == MAX_BUF_SIZE && a + b <= |stream| && a <= MAX_BUF_SIZE && b <= MAX_BUF_SIZE
    ensures InputAfter(memory, [stream[..a], stream[a..a + b]])
         == Overlay(stream[a..a + b], Overlay(stream[..a], memory))
  {
    TwoPieces(memory, stream[..a], stream[a..a + b]);
  }

  lemma TwoPieces(memory: seq<byte>, x: seq<byte>, y: seq<byte>)
    requires |memory| == MAX_BUF_SIZE && |x| <= MAX_BUF_SIZE && |y| <= MAX_BUF_SIZE
    ensures InputAfter(memory, [x, y]) == Overlay(y, Overlay(x, memory))
  {
    hide Overlay;
    assert [x, y][..1] == [x] && [x][..0] == [];
    assert InputAfter(memory, [x]) == Overlay(x, InputAfter(memory, []));
  }

  /** Streams that differ in their last byte only look the same where that byte does not land. */
  lemma SameWhereLastIsNot(s: seq<byte>, t: seq<byte>, a: nat, b: nat, memory: seq<byte>, q: nat)
    requires |memory| == MAX_BUF_SIZE && |s| == |t| && a + b <= |s| && a <= MAX_BUF_SIZE && b <= MAX_BUF_SIZE
    requires forall j :: 0 <= j < |s| - 1 ==> s[j] == t[j]
    requires q < MAX_BUF_SIZE && (q < b ==> a + q < |s| - 1) && (b <= q < a ==> q < |s| - 1)
    ensures Overlay(s[a..a + b], Overlay(s[..a], memory))[q] == Overlay(t[a..a + b], Overlay(t[..a], memory))[q]
  {
  }

  /**
    Exactly which cuts serve the client, for every greeting and host: the first piece has to be the
    greeting and the second one the whole request. A client that sends both in one segment, or whose
    request comes in two, is not served.
   */
  lemma CutServesIff(greeting: seq<byte>, host: seq<byte>, a: nat, b: nat)
    requires 1 <= |greeting| <= MAX_BUF_SIZE && |host| <= 255
    requires a <= MAX_BUF_SIZE && b <= MAX_BUF_SIZE && a + b <= |greeting| + |host| + 7
    ensures CutServes(greeting, host, a, b) <==> a == |greeting| && b == |host| + 7
  {
    if a == |greeting| && b == |host| + 7 {
      forall port: nat, memory: seq<byte> | port < 65536 && |memory| == MAX_BUF_SIZE
        ensures CutDestination(greeting + DomainRequest(host, port), a, b, memory) == Destination(true, host, port)
      {
        var stream := greeting + DomainRequest(host, port);
        CutInput(stream, a, b, memory);
        assert stream[..a] == greeting && stream[a..a + b] == DomainRequest(host, port);
        DomainRequestRead(host, port, Overlay(greeting, memory));
      }
    } else {
      CutMissesPort(greeting, host, a, b);
    }
  }

  lemma LastByteOnly(greeting: seq<byte>, host: seq<byte>)
    requires |host| <= 255
    ensures var s, t := greeting + DomainRequest(host, 0), greeting + DomainRequest(host, 1);
            && |s| == |t| == |greeting| + |host| + 7
            && forall j :: 0 <= j < |s| - 1 ==> s[j] == t[j]
  {
  }

  /** Elsewhere the byte read as the low byte of the port is not that byte of the stream. */
  lemma CutMissesPort(greeting: seq<byte>, host: seq<byte>, a: nat, b: nat)
    requires 1 <= |greeting| <= MAX_BUF_SIZE && |host| <= 255
    requires a <= MAX_BUF_SIZE && b <= MAX_BUF_SIZE && a + b <= |greeting| + |host| + 7
    requires a != |greeting| || b != |host| + 7
    ensures !CutServes(greeting, host, a, b)
  {
    hide CutDestination, ReadRequest, InputAfter, Overlay, DomainRequest;
    var memory: seq<byte> := seq(MAX_BUF_SIZE, _ => 0);
    LastByteOnly(greeting, host);
    MissedByte(greeting + DomainRequest(host, 0), greeting + DomainRequest(host, 1), a, b, memory, host);
  }

  lemma MissedByte(s: seq<byte>, t: seq<byte>, a: nat, b: nat, memory: seq<byte>, host: seq<byte>)
    requires |memory| == MAX_BUF_SIZE && |s| == |t| && a + b <= |s| && a <= MAX_BUF_SIZE && b <= MAX_BUF_SIZE
    requires |host| <= 255 && |s| >= |host| + 8 && (a != |s| - |host| - 7 || b != |host| + 7)
    requires forall j :: 0 <= j < |s| - 1 ==> s[j] == t[j]
    ensures !(CutDestination(s, a, b, memory) == Destination(true, host, 0)
           && CutDestination(t, a, b, memory) == Destination(true, host, 1))
  {
    hide ReadRequest, InputAfter, Overlay;
    CutInput(s, a, b, memory);
    CutInput(t, a, b, memory);
    SameWhereLastIsNot(s, t, a, b, memory, |host| + 6);
    PortByteRead(Overlay(s[a..a + b], Overlay(s[..a], memory)), host, 0);
    PortByteRead(Overlay(t[a..a + b], Overlay(t[..a], memory)), host, 1);
  }

  lemma PortByteRead(input: seq<byte>, host: seq<byte>, port: nat)
    requires |input| == MAX_BUF_SIZE && |host| <= 255 && port < 65536
    ensures ReadRequest(input, Destination(false, [], 0)) == Destination(true, host, port) ==>
              input[|host| + 6] == port % 256
  {
  }

  /** The number a run of decimal digits denotes. */
  function DecimalValue(s: seq<byte>): int {
    if s == [] then 0 else 10 * DecimalValue(s[..|s| - 1]) + (s[|s| - 1] as int - 48)
  }

  lemma {:induction false} DecimalRead(n: nat)
    ensures DecimalValue(Decimal(n)) == n
  {
    if n < 10 {
      assert [48 + n as byte][..0] == [];
    } else {
      DecimalRead(n / 10);
      var s := Decimal(n);
      assert s[..|s| - 1] == Decimal(n / 10);
    }
  }

  /** The address text handed to inet_addr names the four bytes of the request and no others. */
  lemma QuadTextRead(a: seq<byte>)
    requires |a| == 4
    ensures var parts := DnsName.Split(QuadText(a));
            |parts| == 4 && forall i :: 0 <= i < 4 ==> DecimalValue(parts[i]) == a[i]
  {
    var parts := [Decimal(a[0]), Decimal(a[1]), Decimal(a[2]), Decimal(a[3])];
    forall l | l in parts ensures DOT !in l {
      assert l == Decimal(a[0]) || l == Decimal(a[1]) || l == Decimal(a[2]) || l == Decimal(a[3]);
    }
    DnsName.SplitJoin(parts);
    DecimalRead(a[0]);
    DecimalRead(a[1]);
    DecimalRead(a[2]);
    DecimalRead(a[3]);
  }

  // ---------------------------------------------------------------- the class

  class SOCKS5Connecter {
    const client_sock: int
    const inputbuf: array<byte>
    const outputbuf: array<byte>
    var outputbuf_size: nat
    var firstStepCompleted: bool
    var drop: bool
    var domain: bool
    var port: nat
    var addr: seq<byte>

    ghost predicate Valid() reads this {
      && inputbuf.Length == outputbuf.Length == MAX_BUF_SIZE && inputbuf != outputbuf
      && outputbuf_size in {0, 2, 10}
    }

    ghost function State(): (h: HandshakeState)
      requires Valid()
      reads this, inputbuf, outputbuf
      ensures Shape(h)
    {
      HandshakeState(client_sock, inputbuf[..], outputbuf[..outputbuf_size], firstStepCompleted, drop,
                     Destination(domain, addr, port))
    }

    constructor (client: int, memory: seq<byte>)
      requires |memory| == MAX_BUF_SIZE
      ensures Valid() && fresh(inputbuf) && fresh(outputbuf)
      ensures State() == NewHandshake(client, memory)
    {
      client_sock := client;
      inputbuf := new byte[MAX_BUF_SIZE](i requires 0 <= i < MAX_BUF_SIZE => memory[i]);
      outputbuf := new byte[MAX_BUF_SIZE](_ => 0);
      outputbuf_size, firstStepCompleted, drop, domain, port, addr := 0, false, false, false, 0, [];
      new;
      assert inputbuf[..] == memory;
    }

    /** recv into the input buffer. */
    method Fill(data: seq<byte>)
      requires Valid() && |data| <= MAX_BUF_SIZE
      modifies inputbuf
      ensures inputbuf[..] == Overlay(data, old(inputbuf[..]))
    {
      var i := 0;
      while i < |data|
        invariant i <= |data|
        invariant forall q :: 0 <= q < i ==> inputbuf[q] == data[q]
        invariant forall q :: i <= q < MAX_BUF_SIZE ==> inputbuf[q] == old(inputbuf[q])
      {
        inputbuf[i] := data[i];
        i := i + 1;
      }
    }

    /** Answers the greeting: refuse, unless one of the offered methods is 0. */
    method AnswerGreeting()
      requires Valid()
      modifies this`outputbuf_size, outputbuf
      ensures Valid() && State() == Greeted(old(State()), inputbuf[..])
    {
      ghost var input := inputbuf[..];
      outputbuf_size := 2;
      outputbuf[0] := VERSION;
      outputbuf[1] := 0xFF;
      var i := 0;
      while i < inputbuf[1]
        invariant i <= inputbuf[1]
        invariant outputbuf_size == 2 && outputbuf[0] == VERSION
        invariant outputbuf[1] == if exists j :: 2 <= j < 2 + i as int && input[j] == 0 then 0 else 0xFF
      {
        if inputbuf[(i as int) + 2] == 0 {
          outputbuf[1] := 0;
        }
        i := i + 1;
      }
      assert outputbuf[..2] == [outputbuf[0], outputbuf[1]];
    }

    /** Builds the reply to the request before the request is parsed, so with the old port. */
    method BuildReply()
      requires Valid()
      modifies this`outputbuf_size, outputbuf
      ensures Valid() && outputbuf_size == 10
      ensures outputbuf[..10] == RequestReply(inputbuf[..], port)
    {
      outputbuf_size := 10;
      outputbuf[0], outputbuf[1], outputbuf[2], outputbuf[3] := VERSION, 0, 0, 1;
      outputbuf[4], outputbuf[5], outputbuf[6], outputbuf[7] := 127, 0, 0, 1;
      outputbuf[8], outputbuf[9] := port % 256, port / 256 % 256;
      if inputbuf[0] != VERSION { outputbuf[1] := 7; }
      if inputbuf[1] != 1 { outputbuf[1] := 7; }
      if inputbuf[3] == IPV6 { outputbuf[1] := 8; }
      assert StoreLow(port, 2) == [port % 256] + StoreLow(port / 256, 1);
    }

    /** Takes the destination out of the request. */
    method ParseRequest()
      requires Valid()
      modifies this`domain, this`addr, this`port
      ensures Valid()
      ensures Destination(domain, addr, port) == ReadRequest(inputbuf[..], old(Destination(domain, addr, port)))
    {
      if inputbuf[3] == DOMAIN {
        var k: nat := inputbuf[4];
        domain := true;
        var i := 0;
        while i < k
          invariant i <= k && domain
          invariant addr == old(addr) + inputbuf[5..5 + i]
          invariant port == old(port)
        {
          addr := addr + [inputbuf[i + 5]];
          i := i + 1;
        }
        port := PortBytes(port, inputbuf[k + 5], inputbuf[k + 6]);
      }
      if inputbuf[3] == IPV4 {
        domain := false;
        addr := addr + QuadText(inputbuf[4..8]);
        port := PortBytes(port, inputbuf[8], inputbuf[9]);
      }
    }

    method AnswerRequest()
      requires Valid()
      modifies this`outputbuf_size, this`domain, this`addr, this`port, outputbuf
      ensures Valid() && State() == Requested(old(State()), inputbuf[..])
    {
      BuildReply();
      ParseRequest();
    }

    method SendOutput(sent: Sent) returns (code: int, attempt: Option<seq<byte>>)
      requires Valid()
      modifies this
      ensures Valid() && Step(State(), code, attempt) == AfterWrite(old(State()), sent)
    {
      attempt := Some(outputbuf[..outputbuf_size]);
      outputbuf_size := 0;
      if sent.SendFailed? || sent == Took(0) {
        drop := true;
      }
      if !firstStepCompleted {
        firstStepCompleted := true;
        code := 0;
      } else {
        code := 1;
      }
    }

    method ExchangeData(readable: bool, writable: bool, io: HandshakeIo) returns (code: int, attempt: Option<seq<byte>>)
      requires Valid() && ValidIo(io)
      modifies this, inputbuf, outputbuf
      ensures Valid() && Step(State(), code, attempt) == Exchange(old(State()), readable, writable, io)
    {
      hide MethodReply, RequestReply, ReadRequest, AfterWrite, Overlay;
      code, attempt := 0, None;
      if drop { return; }
      if readable && outputbuf_size == 0 {
        match io.received {
          case EndOfStream => drop := true; return 1, None;
          case RecvFailed => drop := true; return 0, None;
          case RecvWouldBlock => AnswerRequest();
          case Bytes(data) =>
            Fill(data);
            if !firstStepCompleted { AnswerGreeting(); } else { AnswerRequest(); }
        }
      }
      if writable && outputbuf_size != 0 {
        code, attempt := SendOutput(io.sent);
      }
    }

    method FillFdSet(readset: set<int>, writeset: set<int>) returns (rd: set<int>, wr: set<int>)
      requires Valid()
      ensures rd == readset + (if WantsRead(State()) then {client_sock} else {})
      ensures wr == writeset + {client_sock}
    {
      rd, wr := readset, writeset;
      if !firstStepCompleted {
        rd, wr := rd + {client_sock}, wr + {client_sock};
      } else {
        wr := wr + {client_sock};
        if outputbuf_size == 0 {
          rd := rd + {client_sock};
        }
      }
    }
  }
}
