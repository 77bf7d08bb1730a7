// Connection (net_lab7/Connection.h): a relay with a one-slot buffer for each direction.
module Relay {
  import opened Bytes
  import opened Wrappers
  import opened Sockets

  const BUFSIZE := 4096

  // ---------------------------------------------------------------- one direction

  /** The slot of one direction, with the history of what came in and what went out. */
  datatype Lane = Lane(count: int, buffer: seq<byte>, received: seq<seq<byte>>, delivered: seq<seq<byte>>)

  /** A step's new lane, and whether it asks for the connection to be dropped. */
  datatype LaneStep = LaneStep(lane: Lane, disconnect: bool)

  predicate LaneShape(l: Lane) {
    |l.buffer| == BUFSIZE && -1 <= l.count <= BUFSIZE
  }

  /** recv into a slot: the count the code keeps, the buffer, and whether the connection is given up. */
  function Slot(buffer: seq<byte>, r: Received): (int, seq<byte>, bool)
    requires |buffer| == BUFSIZE && Fits(r, BUFSIZE)
  {
    match r
    case Bytes(d) => (|d|, Overlay(d, buffer), false)
    case EndOfStream => (0, buffer, true)
    case RecvWouldBlock => (0, buffer, false)
    case RecvFailed => (-1, buffer, true)
  }

  function Chunks(r: Received): seq<seq<byte>> {
    if r.Bytes? then [r.data] else []
  }

  function ReadInto(l: Lane, r: Received): LaneStep
    requires LaneShape(l) && Fits(r, BUFSIZE)
  {
    var (count, buffer, disconnect) := Slot(l.buffer, r);
    LaneStep(Lane(count, buffer, l.received + Chunks(r), l.delivered), disconnect)
  }

  /** Any successful send empties the slot, however many bytes it took. */
  function WriteOut(l: Lane, s: Sent): LaneStep
    requires LaneShape(l) && l.count > 0
  {
    match s
    case Took(n) =>
      var chunk := l.buffer[..if n < l.count then n else l.count];
      LaneStep(l.(count := 0, delivered := l.delivered + [chunk]), false)
    case SendWouldBlock => LaneStep(l, false)
    case SendFailed => LaneStep(l, true)
  }

  /**
    Chunk by chunk and in order, what went out is a prefix of what came in; at most the last
    chunk is still waiting, and then it is in the slot.
   */
  ghost predicate LaneOk(l: Lane) {
    && LaneShape(l)
    && |l.received| == |l.delivered| + (if l.count > 0 then 1 else 0)
    && (forall i :: 0 <= i < |l.delivered| ==> l.delivered[i] <= l.received[i])
    && (l.count > 0 ==> l.buffer[..l.count] == l.received[|l.received| - 1])
  }

  function Pending(l: Lane): seq<byte>
    requires LaneShape(l)
  {
    if l.count > 0 then l.buffer[..l.count] else []
  }

  /** No successful send has left bytes behind. */
  ghost predicate Whole(l: Lane) {
    |l.delivered| <= |l.received| && l.delivered == l.received[..|l.delivered|]
  }

  lemma {:induction false} ConcatOfPrefixes(out: seq<seq<byte>>, in': seq<seq<byte>>)
    requires |out| == |in'| && forall i :: 0 <= i < |out| ==> out[i] <= in'[i]
    ensures |Concat(out)| <= |Concat(in')|
    ensures |Concat(out)| == |Concat(in')| <==> out == in'
  {
    if out != [] {
      var k := |out| - 1;
      ConcatOfPrefixes(out[..k], in'[..k]);
      assert out == out[..k] + [out[k]] && in' == in'[..k] + [in'[k]];
      assert |out[k]| <= |in'[k]| && (|out[k]| == |in'[k]| <==> out[k] == in'[k]);
    }
  }

  /** The stream is complete exactly when every successful send took the whole slot. */
  lemma LosslessIff(l: Lane)
    requires LaneOk(l)
    ensures Concat(l.delivered) + Pending(l) == Concat(l.received) <==> Whole(l)
  {
    var n := |l.delivered|;
    ConcatOfPrefixes(l.delivered, l.received[..n]);
    if l.count > 0 {
      assert l.received[..|l.received| - 1] == l.received[..n];
      assert Concat(l.received) == Concat(l.received[..n]) + Pending(l);
    } else {
      assert l.received[..n] == l.received;
    }
  }

  /** A successful send takes all that is in the slot. */
  predicate TakesSlot(l: Lane, s: Sent) {
    s.Took? ==> s.n >= l.count
  }

  /** A send keeps the stream complete exactly when it takes all that is in the slot, or nothing. */
  lemma WriteKeepsWholeIff(l: Lane, s: Sent)
    requires LaneOk(l) && Whole(l) && l.count > 0
    ensures Whole(WriteOut(l, s).lane) <==> TakesSlot(l, s)
  {
  }

  // ---------------------------------------------------------------- the relay as a value

  datatype RelayState = RelayState(client: int, forward: int, cf: Lane, fc: Lane, toDisconnect: bool)

  datatype RelayIo = RelayIo(fromClient: Received, fromForward: Received, toForward: Sent, toClient: Sent)

  predicate ValidIo(io: RelayIo) {
    Fits(io.fromClient, BUFSIZE) && Fits(io.fromForward, BUFSIZE)
  }

  /** Both histories are in order; a relay that is to be kept has no failed direction. */
  ghost predicate RelayOk(r: RelayState) {
    LaneOk(r.cf) && LaneOk(r.fc) && (!r.toDisconnect ==> r.cf.count >= 0 && r.fc.count >= 0)
  }

  function NewRelay(client: int, forward: int, memory: seq<byte>): (r: RelayState)
    requires |memory| == BUFSIZE
  {
    RelayState(client, forward, Lane(0, memory, [], []), Lane(0, memory, [], []), false)
  }

  function AskedRead(r: RelayState): set<int> {
    (if r.cf.count == 0 then {r.client} else {}) + (if r.fc.count == 0 then {r.forward} else {})
  }

  function AskedWrite(r: RelayState): set<int> {
    (if r.cf.count > 0 then {r.forward} else {}) + (if r.fc.count > 0 then {r.client} else {})
  }

  /** The four steps of exchangeData, in the code's order. */
  function ReadClient(r: RelayState, rd: set<int>, io: RelayIo): (r': RelayState)
    requires LaneShape(r.cf) && ValidIo(io)
    ensures LaneShape(r'.cf) && r'.fc == r.fc && r'.client == r.client && r'.forward == r.forward
  {
    if r.cf.count == 0 && r.client in rd then
      var s := ReadInto(r.cf, io.fromClient);
      r.(cf := s.lane, toDisconnect := r.toDisconnect || s.disconnect)
    else r
  }

  function ReadForward(r: RelayState, rd: set<int>, io: RelayIo): (r': RelayState)
    requires LaneShape(r.fc) && ValidIo(io)
    ensures LaneShape(r'.fc) && r'.cf == r.cf && r'.client == r.client && r'.forward == r.forward
  {
    if r.fc.count == 0 && r.forward in rd then
      var s := ReadInto(r.fc, io.fromForward);
      r.(fc := s.lane, toDisconnect := r.toDisconnect || s.disconnect)
    else r
  }

  function WriteForward(r: RelayState, wr: set<int>, io: RelayIo): (r': RelayState)
    requires LaneShape(r.cf)
    ensures LaneShape(r'.cf) && r'.fc == r.fc && r'.client == r.client && r'.forward == r.forward
  {
    if r.cf.count > 0 && r.forward in wr then
      var s := WriteOut(r.cf, io.toForward);
      r.(cf := s.lane, toDisconnect := r.toDisconnect || s.disconnect)
    else r
  }

  function WriteClient(r: RelayState, wr: set<int>, io: RelayIo): (r': RelayState)
    requires LaneShape(r.fc)
    ensures LaneShape(r'.fc) && r'.cf == r.cf && r'.client == r.client && r'.forward == r.forward
  {
    if r.fc.count > 0 && r.client in wr then
      var s := WriteOut(r.fc, io.toClient);
      r.(fc := s.lane, toDisconnect := r.toDisconnect || s.disconnect)
    else r
  }

  function Exchange(r: RelayState, rd: set<int>, wr: set<int>, io: RelayIo): (r': RelayState)
    requires LaneShape(r.cf) && LaneShape(r.fc) && ValidIo(io)
    ensures r'.client == r.client && r'.forward == r.forward
    ensures LaneShape(r'.cf) && LaneShape(r'.fc)
  {
    WriteClient(WriteForward(ReadForward(ReadClient(r, rd, io), rd, io), wr, io), wr, io)
  }

  lemma ReadKeepsOk(l: Lane, r: Received)
    requires LaneOk(l) && l.count == 0 && Fits(r, BUFSIZE)
    ensures LaneOk(ReadInto(l, r).lane)
    ensures !ReadInto(l, r).disconnect ==> ReadInto(l, r).lane.count >= 0
  {
  }

  lemma WriteKeepsOk(l: Lane, s: Sent)
    requires LaneOk(l) && l.count > 0
    ensures LaneOk(WriteOut(l, s).lane) && WriteOut(l, s).lane.count >= 0
  {
  }

  lemma ExchangeKeepsOk(r: RelayState, rd: set<int>, wr: set<int>, io: RelayIo)
    requires RelayOk(r) && ValidIo(io)
    ensures RelayOk(Exchange(r, rd, wr, io))
  {
    hide LaneOk, ReadInto, WriteOut;
    LaneOkShape(r.cf);
    LaneOkShape(r.fc);
    if r.cf.count == 0 { ReadKeepsOk(r.cf, io.fromClient); }
    if r.fc.count == 0 { ReadKeepsOk(r.fc, io.fromForward); }
    var s := ReadForward(ReadClient(r, rd, io), rd, io);
    LaneOkShape(s.cf);
    LaneOkShape(s.fc);
    if s.cf.count > 0 { WriteKeepsOk(s.cf, io.toForward); }
    if s.fc.count > 0 { WriteKeepsOk(s.fc, io.toClient); }
  }

  lemma LaneOkShape(l: Lane)
    requires LaneOk(l)
    ensures LaneShape(l)
  {
  }

  // ---------------------------------------------------------------- whole runs

  datatype RelayInput = RelayInput(rd: set<int>, wr: set<int>, io: RelayIo)

  predicate ValidInputs(ins: seq<RelayInput>) {
    forall i <- ins :: ValidIo(i.io)
  }

  function Run(r: RelayState, ins: seq<RelayInput>): (r': RelayState)
    requires LaneShape(r.cf) && LaneShape(r.fc) && ValidInputs(ins)
    ensures LaneShape(r'.cf) && LaneShape(r'.fc)
    decreases |ins|
  {
    if ins == [] then r
    else
      assert ins[0] in ins && forall i <- ins[1..] :: i in ins;
      Run(Exchange(r, ins[0].rd, ins[0].wr, ins[0].io), ins[1..])
  }

  /** What was received and delivered is never taken back or reordered. */
  ghost predicate Extends(a: Lane, b: Lane) {
    a.received <= b.received && a.delivered <= b.delivered
  }

  lemma ExchangeExtends(r: RelayState, rd: set<int>, wr: set<int>, io: RelayIo)
    requires RelayOk(r) && ValidIo(io)
    ensures Extends(r.cf, Exchange(r, rd, wr, io).cf) && Extends(r.fc, Exchange(r, rd, wr, io).fc)
    ensures r.toDisconnect ==> Exchange(r, rd, wr, io).toDisconnect
  {
  }

  /** Stream safety over every run from a new connection, in both directions. */
  lemma RunIsSafe(client: int, forward: int, memory: seq<byte>, ins: seq<RelayInput>, more: seq<RelayInput>)
    requires |memory| == BUFSIZE && ValidInputs(ins) && ValidInputs(more)
    ensures var start := NewRelay(client, forward, memory);
            var now, later := Run(start, ins), Run(Run(start, ins), more);
            && RelayOk(now) && RelayOk(later)
            && Extends(now.cf, later.cf) && Extends(now.fc, later.fc)
            && (now.toDisconnect ==> later.toDisconnect)
  {
    RunKeepsOk(NewRelay(client, forward, memory), ins);
    RunKeepsOk(Run(NewRelay(client, forward, memory), ins), more);
  }

  lemma {:induction false} RunKeepsOk(r: RelayState, ins: seq<RelayInput>)
    requires RelayOk(r) && ValidInputs(ins)
    ensures RelayOk(Run(r, ins))
    ensures Extends(r.cf, Run(r, ins).cf) && Extends(r.fc, Run(r, ins).fc)
    ensures r.toDisconnect ==> Run(r, ins).toDisconnect
    decreases |ins|
  {
    hide LaneOk, Exchange;
    LaneOkShape(r.cf);
    LaneOkShape(r.fc);
    if ins != [] {
      assert ins[0] in ins && forall i <- ins[1..] :: i in ins;
      ExchangeKeepsOk(r, ins[0].rd, ins[0].wr, ins[0].io);
      ExchangeExtends(r, ins[0].rd, ins[0].wr, ins[0].io);
      RunKeepsOk(Exchange(r, ins[0].rd, ins[0].wr, ins[0].io), ins[1..]);
    }
  }

  /** The send to the forwarding socket in this exchange, if there is one, takes the whole slot. */
  predicate ForwardTakes(r: RelayState, i: RelayInput)
    requires LaneShape(r.cf) && ValidIo(i.io)
  {
    var l := ReadClient(r, i.rd, i.io).cf;
    l.count > 0 && r.forward in i.wr ==> TakesSlot(l, i.io.toForward)
  }

  /** The send to the client in this exchange, if there is one, takes the whole slot. */
  predicate ClientTakes(r: RelayState, i: RelayInput)
    requires LaneShape(r.fc) && ValidIo(i.io)
  {
    var l := ReadForward(r, i.rd, i.io).fc;
    l.count > 0 && r.client in i.wr ==> TakesSlot(l, i.io.toClient)
  }

  /** Every send made in the run takes what is in its slot at that moment. */
  predicate AllForwardTake(r: RelayState, ins: seq<RelayInput>)
    requires LaneShape(r.cf) && LaneShape(r.fc) && ValidInputs(ins)
    decreases |ins|
  {
    ins != [] ==>
      assert ins[0] in ins && forall i <- ins[1..] :: i in ins;
      ForwardTakes(r, ins[0]) && AllForwardTake(Exchange(r, ins[0].rd, ins[0].wr, ins[0].io), ins[1..])
  }

  predicate AllClientTake(r: RelayState, ins: seq<RelayInput>)
    requires LaneShape(r.cf) && LaneShape(r.fc) && ValidInputs(ins)
    decreases |ins|
  {
    ins != [] ==>
      assert ins[0] in ins && forall i <- ins[1..] :: i in ins;
      ClientTakes(r, ins[0]) && AllClientTake(Exchange(r, ins[0].rd, ins[0].wr, ins[0].io), ins[1..])
  }

  lemma ReadKeepsWhole(l: Lane, r: Received)
    requires LaneOk(l) && l.count == 0 && Fits(r, BUFSIZE)
    ensures Whole(ReadInto(l, r).lane) <==> Whole(l)
  {
    var m := ReadInto(l, r).lane;
    assert m.received[..|m.delivered|] == l.received[..|l.delivered|];
  }

  /** One exchange of a relay that has lost nothing, direction by direction. */
  lemma ExchangeWholeIff(r: RelayState, i: RelayInput)
    requires RelayOk(r) && ValidIo(i.io)
    ensures LaneShape(r.cf) && LaneShape(r.fc)
    ensures Whole(r.cf) ==> (Whole(Exchange(r, i.rd, i.wr, i.io).cf) <==> ForwardTakes(r, i))
    ensures Whole(r.fc) ==> (Whole(Exchange(r, i.rd, i.wr, i.io).fc) <==> ClientTakes(r, i))
  {
    hide LaneOk, ReadInto, WriteOut, Whole, TakesSlot;
    LaneOkShape(r.cf);
    LaneOkShape(r.fc);
    if r.cf.count == 0 { ReadKeepsOk(r.cf, i.io.fromClient); ReadKeepsWhole(r.cf, i.io.fromClient); }
    if r.fc.count == 0 { ReadKeepsOk(r.fc, i.io.fromForward); ReadKeepsWhole(r.fc, i.io.fromForward); }
    var s := ReadForward(ReadClient(r, i.rd, i.io), i.rd, i.io);
    if s.cf.count > 0 && Whole(s.cf) { WriteKeepsWholeIff(s.cf, i.io.toForward); }
    if s.fc.count > 0 && Whole(s.fc) { WriteKeepsWholeIff(s.fc, i.io.toClient); }
  }

  /** What is lost stays lost. */
  lemma LostStaysLost(a: Lane, b: Lane)
    requires LaneOk(a) && LaneOk(b) && Extends(a, b) && Whole(b)
    ensures Whole(a)
  {
  }

  /** Over every run, a complete stream stays complete exactly when every send takes its slot. */
  lemma {:induction false} RunWholeIff(r: RelayState, ins: seq<RelayInput>)
    requires RelayOk(r) && ValidInputs(ins)
    ensures LaneShape(r.cf) && LaneShape(r.fc)
    ensures Whole(r.cf) ==> (Whole(Run(r, ins).cf) <==> AllForwardTake(r, ins))
    ensures Whole(r.fc) ==> (Whole(Run(r, ins).fc) <==> AllClientTake(r, ins))
    decreases |ins|
  {
    hide LaneOk, LaneShape, Exchange, Whole, Extends, ForwardTakes, ClientTakes;
    LaneOkShape(r.cf);
    LaneOkShape(r.fc);
    if ins != [] {
      assert ins[0] in ins && forall i <- ins[1..] :: i in ins;
      var q := Exchange(r, ins[0].rd, ins[0].wr, ins[0].io);
      ExchangeKeepsOk(r, ins[0].rd, ins[0].wr, ins[0].io);
      ExchangeWholeIff(r, ins[0]);
      RunKeepsOk(q, ins[1..]);
      RunWholeIff(q, ins[1..]);
      if Whole(Run(q, ins[1..]).cf) { LostStaysLost(q.cf, Run(q, ins[1..]).cf); }
      if Whole(Run(q, ins[1..]).fc) { LostStaysLost(q.fc, Run(q, ins[1..]).fc); }
    }
  }

  /**
    Over every run of a new relay, in each direction: what was delivered and what is pending make
    up exactly what was received if and only if every send took all that was in its slot.
   */
  lemma RunIsLosslessIff(client: int, forward: int, memory: seq<byte>, ins: seq<RelayInput>)
    requires |memory| == BUFSIZE && ValidInputs(ins)
    ensures var start := NewRelay(client, forward, memory);
            var s := Run(start, ins);
            && (Concat(s.cf.delivered) + Pending(s.cf) == Concat(s.cf.received) <==> AllForwardTake(start, ins))
            && (Concat(s.fc.delivered) + Pending(s.fc) == Concat(s.fc.received) <==> AllClientTake(start, ins))
  {
    hide Run, AllForwardTake, AllClientTake, Concat;
    var start := NewRelay(client, forward, memory);
    RunKeepsOk(start, ins);
    RunWholeIff(start, ins);
    LosslessIff(Run(start, ins).cf);
    LosslessIff(Run(start, ins).fc);
  }

  lemma {:induction false} RunAppend(r: RelayState, ins: seq<RelayInput>, i: RelayInput)
    requires LaneShape(r.cf) && LaneShape(r.fc) && ValidInputs(ins) && ValidIo(i.io)
    ensures ValidInputs(ins + [i]) && Run(r, ins + [i]) == Exchange(Run(r, ins), i.rd, i.wr, i.io)
    decreases |ins|
  {
    hide Exchange;
    if ins == [] {
      assert [] + [i] == [i] && [i][1..] == [];
    } else {
      assert ins[0] in ins && forall x <- ins[1..] :: x in ins;
      RunAppend(Exchange(r, ins[0].rd, ins[0].wr, ins[0].io), ins[1..], i);
      assert (ins + [i])[1..] == ins[1..] + [i];
    }
  }

  /** A direction has delivered all it received: nothing was cut off and nothing is left in the slot. */
  lemma AllDeliveredIff(l: Lane)
    requires LaneOk(l)
    ensures Concat(l.delivered) == Concat(l.received) <==> Whole(l) && l.count <= 0
  {
    LosslessIff(l);
    var n := |l.delivered|;
    ConcatOfPrefixes(l.delivered, l.received[..n]);
    if l.count > 0 {
      assert l.received[..|l.received| - 1] == l.received[..n];
      assert Concat(l.received) == Concat(l.received[..n]) + Pending(l);
    }
  }

  /**
    A relay closed after any run: in each direction everything received was delivered if and only
    if every send took all that was in its slot and the slot is empty at the close.
   */
  lemma ClosedLosslessIff(client: int, forward: int, memory: seq<byte>, ins: seq<RelayInput>)
    requires |memory| == BUFSIZE && ValidInputs(ins)
    ensures var start := NewRelay(client, forward, memory);
            var s := Run(start, ins);
            && (Concat(s.cf.delivered) == Concat(s.cf.received) <==> AllForwardTake(start, ins) && s.cf.count <= 0)
            && (Concat(s.fc.delivered) == Concat(s.fc.received) <==> AllClientTake(start, ins) && s.fc.count <= 0)
  {
    hide Run, AllForwardTake, AllClientTake, Concat, Whole;
    var start := NewRelay(client, forward, memory);
    NewRelayWhole(client, forward, memory);
    RunKeepsOk(start, ins);
    RunWholeIff(start, ins);
    AllDeliveredIff(Run(start, ins).cf);
    AllDeliveredIff(Run(start, ins).fc);
  }

  lemma NewRelayWhole(client: int, forward: int, memory: seq<byte>)
    requires |memory| == BUFSIZE
    ensures var r := NewRelay(client, forward, memory); RelayOk(r) && Whole(r.cf) && Whole(r.fc)
  {
  }

  /** The forwarding socket gives one byte; before it can be passed on, the client ends its stream. */
  function HalfClose(client: int, forward: int): seq<RelayInput> {
    [RelayInput({forward}, {}, RelayIo(RecvWouldBlock, Bytes([7]), SendWouldBlock, SendWouldBlock)),
     RelayInput({client}, {}, RelayIo(EndOfStream, RecvWouldBlock, SendWouldBlock, SendWouldBlock))]
  }

  /** No send cuts anything off there, yet the relay is to be dropped with the byte in its slot. */
  lemma HalfCloseLosesPending(client: int, forward: int, memory: seq<byte>)
    requires |memory| == BUFSIZE && client != forward
    ensures ValidInputs(HalfClose(client, forward))
    ensures var start, ins := NewRelay(client, forward, memory), HalfClose(client, forward);
            var s := Run(start, ins);
            && AllForwardTake(start, ins) && AllClientTake(start, ins)
            && s.toDisconnect && s.fc.received == [[7]] && s.fc.delivered == [] && s.fc.count == 1
  {
    var start, ins := NewRelay(client, forward, memory), HalfClose(client, forward);
    assert ins[1..] == [ins[1]] && [ins[1]][1..] == [];
    var s1 := Exchange(start, ins[0].rd, ins[0].wr, ins[0].io);
    assert Run(start, ins) == Run(s1, [ins[1]]) == Exchange(s1, ins[1].rd, ins[1].wr, ins[1].io);
  }

  // ---------------------------------------------------------------- a direction as a wire

  /**
    One direction without buffers and counts: the bytes that wait, all that was given to it and taken
    from it so far, whether its source has failed, and whether it asks for the relay to be dropped.
   */
  datatype Wire = Wire(waiting: seq<byte>, given: seq<byte>, taken: seq<byte>, broken: bool, over: bool)

  /** One call, as one direction sees it: is the source ready and what does it give, the same for the sink. */
  datatype Turn = Turn(sourceReady: bool, got: Received, sinkReady: bool, put: Sent)

  const IDLE := Wire([], [], [], false, false)

  /** An empty wire takes what its source gives. */
  function Fill(w: Wire, ready: bool, got: Received): Wire {
    if ready && w.waiting == [] && !w.broken then
      match got
      case Bytes(d) => w.(waiting := d, given := w.given + d)
      case EndOfStream => w.(over := true)
      case RecvFailed => w.(broken := true, over := true)
      case RecvWouldBlock => w
    else w
  }

  /** What waits is offered once: what the sink does not take then is gone. */
  function Drain(w: Wire, ready: bool, put: Sent): Wire {
    if ready && w.waiting != [] then
      match put
      case Took(n) =>
        w.(waiting := [], taken := w.taken + if n < |w.waiting| then w.waiting[..n] else w.waiting)
      case SendFailed => w.(over := true)
      case SendWouldBlock => w
    else w
  }

  function Carry(w: Wire, turns: seq<Turn>): Wire
    decreases |turns|
  {
    if turns == [] then w
    else Carry(Drain(Fill(w, turns[0].sourceReady, turns[0].got), turns[0].sinkReady, turns[0].put), turns[1..])
  }

  function TurnsFromClient(client: int, forward: int, ins: seq<RelayInput>): seq<Turn> {
    seq(|ins|, k requires 0 <= k < |ins| =>
      Turn(client in ins[k].rd, ins[k].io.fromClient, forward in ins[k].wr, ins[k].io.toForward))
  }

  function TurnsFromForward(client: int, forward: int, ins: seq<RelayInput>): seq<Turn> {
    seq(|ins|, k requires 0 <= k < |ins| =>
      Turn(forward in ins[k].rd, ins[k].io.fromForward, client in ins[k].wr, ins[k].io.toClient))
  }

  ghost predicate IsWire(l: Lane, w: Wire) {
    && LaneShape(l)
    && (w.broken <==> l.count == -1) && (w.broken ==> w.waiting == []) && (!w.broken ==> l.count == |w.waiting|)
    && Pending(l) == w.waiting && Concat(l.received) == w.given && Concat(l.delivered) == w.taken
  }

  lemma ReadFills(l: Lane, w: Wire, r: Received)
    requires IsWire(l, w) && l.count == 0 && Fits(r, BUFSIZE)
    ensures IsWire(ReadInto(l, r).lane, Fill(w, true, r))
    ensures w.over || ReadInto(l, r).disconnect <==> Fill(w, true, r).over
  {
    if r.Bytes? { ConcatLast(l.received, r.data); } else { assert l.received + [] == l.received; }
  }

  lemma WriteDrains(l: Lane, w: Wire, s: Sent)
    requires IsWire(l, w) && l.count > 0
    ensures IsWire(WriteOut(l, s).lane, Drain(w, true, s))
    ensures w.over || WriteOut(l, s).disconnect <==> Drain(w, true, s).over
  {
    if s.Took? { ConcatLast(l.delivered, if s.n < |w.waiting| then w.waiting[..s.n] else w.waiting); }
  }

  /** One exchange is a turn of both wires. */
  lemma ExchangeIsWire(r: RelayState, a: Wire, b: Wire, i: RelayInput)
    requires IsWire(r.cf, a) && IsWire(r.fc, b) && (r.toDisconnect <==> a.over || b.over) && ValidIo(i.io)
    ensures var s := Exchange(r, i.rd, i.wr, i.io);
            var a' := Drain(Fill(a, r.client in i.rd, i.io.fromClient), r.forward in i.wr, i.io.toForward);
            var b' := Drain(Fill(b, r.forward in i.rd, i.io.fromForward), r.client in i.wr, i.io.toClient);
            IsWire(s.cf, a') && IsWire(s.fc, b') && (s.toDisconnect <==> a'.over || b'.over)
  {
    hide IsWire, ReadInto, WriteOut;
    WireCount(r.cf, a);
    WireCount(r.fc, b);
    if r.cf.count == 0 { ReadFills(r.cf, a, i.io.fromClient); }
    if r.fc.count == 0 { ReadFills(r.fc, b, i.io.fromForward); }
    var s := ReadForward(ReadClient(r, i.rd, i.io), i.rd, i.io);
    var c, d := Fill(a, r.client in i.rd, i.io.fromClient), Fill(b, r.forward in i.rd, i.io.fromForward);
    WireCount(s.cf, c);
    WireCount(s.fc, d);
    if s.cf.count > 0 { WriteDrains(s.cf, c, i.io.toForward); }
    if s.fc.count > 0 { WriteDrains(s.fc, d, i.io.toClient); }
  }

  lemma WireCount(l: Lane, w: Wire)
    requires IsWire(l, w)
    ensures LaneShape(l)
    ensures (l.count == 0 <==> w.waiting == [] && !w.broken) && (l.count > 0 <==> w.waiting != [])
  {
  }

  lemma {:induction false} RunIsWires(r: RelayState, a: Wire, b: Wire, ins: seq<RelayInput>)
    requires IsWire(r.cf, a) && IsWire(r.fc, b) && (r.toDisconnect <==> a.over || b.over) && ValidInputs(ins)
    ensures LaneShape(r.cf) && LaneShape(r.fc)
    ensures var s := Run(r, ins);
            var a', b' := Carry(a, TurnsFromClient(r.client, r.forward, ins)), Carry(b,
                  TurnsFromForward(r.client, r.forward, ins));
            IsWire(s.cf, a') && IsWire(s.fc, b') && (s.toDisconnect <==> a'.over || b'.over)
    decreases |ins|
  {
    hide IsWire, Exchange, Fill, Drain;
    WireCount(r.cf, a);
    WireCount(r.fc, b);
    if ins != [] {
      var i := ins[0];
      assert i in ins && forall x <- ins[1..] :: x in ins;
      ExchangeIsWire(r, a, b, i);
      RunIsWires(Exchange(r, i.rd, i.wr, i.io),
                 Drain(Fill(a, r.client in i.rd, i.io.fromClient), r.forward in i.wr, i.io.toForward),
                 Drain(Fill(b, r.forward in i.rd, i.io.fromForward), r.client in i.wr, i.io.toClient), ins[1..]);
      assert TurnsFromClient(r.client, r.forward, ins)[1..] == TurnsFromClient(r.client, r.forward, ins[1..]);
      assert TurnsFromForward(r.client, r.forward, ins)[1..] == TurnsFromForward(r.client, r.forward, ins[1..]);
    }
  }

  /**
    Over every run of a new relay, each direction is a wire: what its sink has taken, what it was
    given, what waits and whether the relay is to be dropped follow from the calls alone.
   */
  lemma NewRelayIsWires(client: int, forward: int, memory: seq<byte>, ins: seq<RelayInput>)
    requires |memory| == BUFSIZE && ValidInputs(ins)
    ensures var s := Run(NewRelay(client, forward, memory), ins);
            var a := Carry(IDLE, TurnsFromClient(client, forward, ins));
            var b := Carry(IDLE, TurnsFromForward(client, forward, ins));
            && Concat(s.cf.delivered) == a.taken && Concat(s.cf.received) == a.given && Pending(s.cf) == a.waiting
            && Concat(s.fc.delivered) == b.taken && Concat(s.fc.received) == b.given && Pending(s.fc) == b.waiting
            && (s.cf.count > 0 <==> a.waiting != []) && (s.fc.count > 0 <==> b.waiting != [])
            && (s.toDisconnect <==> a.over || b.over)
  {
    hide Carry, Run, TurnsFromClient, TurnsFromForward;
    RunIsWires(NewRelay(client, forward, memory), IDLE, IDLE, ins);
  }

  /** After a call in which a sink has taken something, its slot is empty. */
  lemma TakenIsGone(r: RelayState, rd: set<int>, wr: set<int>, io: RelayIo)
    requires RelayOk(r) && ValidIo(io)
    ensures var s := Exchange(r, rd, wr, io);
            && (|s.cf.delivered| > |r.cf.delivered| ==> s.cf.count == 0)
            && (|s.fc.delivered| > |r.fc.delivered| ==> s.fc.count == 0)
            && (r.cf.count > 0 && r.forward in wr && io.toForward.Took? ==>
                  s.cf.count == 0 && |s.cf.delivered| == |r.cf.delivered| + 1)
            && (r.fc.count > 0 && r.client in wr && io.toClient.Took? ==>
                  s.fc.count == 0 && |s.fc.delivered| == |r.fc.delivered| + 1)
  {
  }

  /** A relay that is kept waits, in each direction, either for its source or for its sink. */
  lemma AsksForOneEachWay(r: RelayState)
    requires RelayOk(r) && !r.toDisconnect && r.client != r.forward
    ensures 0 <= r.cf.count <= BUFSIZE && 0 <= r.fc.count <= BUFSIZE
    ensures (r.client in AskedRead(r)) != (r.forward in AskedWrite(r))
    ensures (r.forward in AskedRead(r)) != (r.client in AskedWrite(r))
  {
  }

  /** The masks answer what this relay asked for, as far as its own descriptors go. */
  predicate Answers(r: RelayState, rd: set<int>, wr: set<int>) {
    rd * {r.client, r.forward} <= AskedRead(r) && wr * {r.client, r.forward} <= AskedWrite(r)
  }

  function Transfers(a: Lane, b: Lane): int {
    (|b.received| - |a.received|) + (|b.delivered| - |a.delivered|)
  }

  /**
    In a round whose masks answer what was asked, each direction moves at most one chunk, and
    bytes that are waiting stay in the slot until they are sent.
   */
  lemma OneTransferPerRound(r: RelayState, rd: set<int>, wr: set<int>, io: RelayIo)
    requires RelayOk(r) && ValidIo(io) && r.client != r.forward && Answers(r, rd, wr)
    ensures var s := Exchange(r, rd, wr, io);
            && 0 <= Transfers(r.cf, s.cf) <= 1 && 0 <= Transfers(r.fc, s.fc) <= 1
            && (r.cf.count > 0 && s.cf.delivered == r.cf.delivered ==> s.cf == r.cf)
            && (r.fc.count > 0 && s.fc.delivered == r.fc.delivered ==> s.fc == r.fc)
  {
    hide LaneOk, Answers;
    AnswersMeans(r, rd, wr);
    LaneOkShape(r.cf);
    LaneOkShape(r.fc);
    var s := Exchange(r, rd, wr, io);
    assert r.cf.count == 0 ==> s.cf == ReadClient(r, rd, io).cf;
    assert r.fc.count == 0 ==> s.fc == ReadForward(r, rd, io).fc;
  }

  lemma AnswersMeans(r: RelayState, rd: set<int>, wr: set<int>)
    requires r.client != r.forward && Answers(r, rd, wr)
    ensures r.client in rd ==> r.cf.count == 0
    ensures r.forward in rd ==> r.fc.count == 0
    ensures r.forward in wr ==> r.cf.count > 0
    ensures r.client in wr ==> r.fc.count > 0
  {
    var own := {r.client, r.forward};
    assert r.client in rd ==> r.client in rd * own;
    assert r.forward in rd ==> r.forward in rd * own;
    assert r.client in wr ==> r.client in wr * own;
    assert r.forward in wr ==> r.forward in wr * own;
  }

  // ---------------------------------------------------------------- the class

  class Connection {
    const clientSocket: int
    const forwardingSocket: int
    const bufferCF: array<byte>
    const bufferFC: array<byte>
    var dataCF: int
    var dataFC: int
    var toDisconnect: bool
    ghost var receivedCF: seq<seq<byte>>
    ghost var deliveredCF: seq<seq<byte>>
    ghost var receivedFC: seq<seq<byte>>
    ghost var deliveredFC: seq<seq<byte>>

    ghost function LaneCF(): Lane reads this, bufferCF {
      Lane(dataCF, bufferCF[..], receivedCF, deliveredCF)
    }

    ghost function LaneFC(): Lane reads this, bufferFC {
      Lane(dataFC, bufferFC[..], receivedFC, deliveredFC)
    }

    ghost function State(): RelayState reads this, bufferCF, bufferFC {
      RelayState(clientSocket, forwardingSocket, LaneCF(), LaneFC(), toDisconnect)
    }

    ghost predicate Valid() reads this, bufferCF, bufferFC {
      bufferCF != bufferFC && RelayOk(State())
    }

    constructor (client: int, forward: int, memory: seq<byte>)
      requires |memory| == BUFSIZE
      ensures Valid() && fresh(bufferCF) && fresh(bufferFC)
      ensures State() == NewRelay(client, forward, memory)
    {
      clientSocket, forwardingSocket := client, forward;
      bufferCF := new byte[BUFSIZE](i requires 0 <= i < BUFSIZE => memory[i]);
      bufferFC := new byte[BUFSIZE](i requires 0 <= i < BUFSIZE => memory[i]);
      dataCF, dataFC, toDisconnect := 0, 0, false;
      receivedCF, deliveredCF, receivedFC, deliveredFC := [], [], [], [];
      new;
      assert bufferCF[..] == memory && bufferFC[..] == memory;
    }

    method FillSets(readset: set<int>, writeset: set<int>) returns (rd: set<int>, wr: set<int>)
      requires Valid()
      ensures rd == readset + AskedRead(State()) && wr == writeset + AskedWrite(State())
    {
      rd, wr := readset, writeset;
      if dataCF == 0 { rd := rd + {clientSocket}; }
      if dataFC == 0 { rd := rd + {forwardingSocket}; }
      if dataCF > 0 { wr := wr + {forwardingSocket}; }
      if dataFC > 0 { wr := wr + {clientSocket}; }
    }

    /** recv into a slot. */
    static method Receive(buffer: array<byte>, r: Received) returns (count: int, disconnect: bool)
      requires buffer.Length == BUFSIZE && Fits(r, BUFSIZE)
      modifies buffer
      ensures (count, buffer[..], disconnect) == Slot(old(buffer[..]), r)
    {
      count, disconnect := -1, false;
      match r {
        case Bytes(d) =>
          var i := 0;
          while i < |d|
            invariant i <= |d|
            invariant forall q :: 0 <= q < i ==> buffer[q] == d[q]
            invariant forall q :: i <= q < BUFSIZE ==> buffer[q] == old(buffer[q])
          {
            buffer[i] := d[i];
            i := i + 1;
          }
          count := |d|;
          assert buffer[..] == Overlay(d, old(buffer[..]));
        case EndOfStream => count, disconnect := 0, true;
        case RecvWouldBlock => count := 0;
        case RecvFailed => disconnect := true;
      }
    }

    method ReceiveFromClient(rdfds: set<int>, io: RelayIo)
      requires bufferCF != bufferFC && LaneShape(LaneCF()) && ValidIo(io)
      modifies this`dataCF, this`receivedCF, this`toDisconnect, bufferCF
      ensures State() == ReadClient(old(State()), rdfds, io)
    {
      if dataCF == 0 && clientSocket in rdfds {
        var count, lost := Receive(bufferCF, io.fromClient);
        dataCF := count;
        receivedCF := receivedCF + Chunks(io.fromClient);
        if lost { toDisconnect := true; }
      }
    }

    method ReceiveFromForward(rdfds: set<int>, io: RelayIo)
      requires bufferCF != bufferFC && LaneShape(LaneFC()) && ValidIo(io)
      modifies this`dataFC, this`receivedFC, this`toDisconnect, bufferFC
      ensures State() == ReadForward(old(State()), rdfds, io)
    {
      if dataFC == 0 && forwardingSocket in rdfds {
        var count, lost := Receive(bufferFC, io.fromForward);
        dataFC := count;
        receivedFC := receivedFC + Chunks(io.fromForward);
        if lost { toDisconnect := true; }
      }
    }

    method SendToForward(wrfds: set<int>, io: RelayIo)
      requires LaneShape(LaneCF())
      modifies this`dataCF, this`deliveredCF, this`toDisconnect
      ensures State() == WriteForward(old(State()), wrfds, io)
    {
      if dataCF > 0 && forwardingSocket in wrfds {
        match io.toForward {
          case Took(n) =>
            deliveredCF := deliveredCF + [bufferCF[..if n < dataCF then n else dataCF]];
            dataCF := 0;
          case SendWouldBlock =>
          case SendFailed => toDisconnect := true;
        }
      }
    }

    method SendToClient(wrfds: set<int>, io: RelayIo)
      requires LaneShape(LaneFC())
      modifies this`dataFC, this`deliveredFC, this`toDisconnect
      ensures State() == WriteClient(old(State()), wrfds, io)
    {
      if dataFC > 0 && clientSocket in wrfds {
        match io.toClient {
          case Took(n) =>
            deliveredFC := deliveredFC + [bufferFC[..if n < dataFC then n else dataFC]];
            dataFC := 0;
          case SendWouldBlock =>
          case SendFailed => toDisconnect := true;
        }
      }
    }

    /** exchangeData: read both sources, then write both sinks, each only if its slot allows. */
    method ExchangeData(rdfds: set<int>, wrfds: set<int>, io: RelayIo)
      requires Valid() && ValidIo(io)
      modifies this, bufferCF, bufferFC
      ensures Valid() && State() == Exchange(old(State()), rdfds, wrfds, io)
    {
      hide LaneOk, LaneShape, ReadInto, WriteOut;
      ExchangeKeepsOk(State(), rdfds, wrfds, io);
      LaneOkShape(LaneCF());
      LaneOkShape(LaneFC());
      ReceiveFromClient(rdfds, io);
      ReceiveFromForward(rdfds, io);
      SendToForward(wrfds, io);
      SendToClient(wrfds, io);
    }
  }
}
