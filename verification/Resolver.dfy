// DNSResolver (net_lab7/DNSResolver.cpp): one query, one reply, one address.
module Resolver {
  import opened Bytes
  import opened Wrappers
  import opened Sockets
  import opened DnsName
  import opened DnsCodec
  import opened DnsMessage

  const BUFFER := 65536
  const MAX_HOST := 65518

  // ---------------------------------------------------------------- the resolver as a value

  datatype ResolverState = ResolverState(
    fd: int,
    buf: seq<byte>,
    requestSended: bool,
    responseRecived: bool,
    drop: bool,
    addr: nat)

  /** Kernel answers for one call, the memory behind a parsed address, and what a message gives
      that is no reply the code can serve. */
  datatype ResolverIo = ResolverIo(sent: Sent, received: Received, beyond: seq<byte>, nonsense: nat)

  predicate ValidIo(io: ResolverIo) {
    Fits(io.received, BUFFER) && |io.beyond| == 8
  }

  predicate ValidState(r: ResolverState) {
    |r.buf| == BUFFER
  }

  /** The buffer of a new resolver, written over whatever the memory held. */
  function NewBuffer(memory: seq<byte>, pid: nat, host: seq<byte>): (b: seq<byte>)
    requires |memory| == BUFFER && 0 !in host && |host| <= MAX_HOST
    ensures |b| == BUFFER
  {
    var named := WriteAt(WriteAt(memory, 0, QueryHeader(pid)), HEADER, EncodedHost(host));
    WriteAt(named, HEADER + EncodedStrLen(host) + 1, A_IN)
  }

  function EncodedHost(host: seq<byte>): (e: seq<byte>)
    ensures e == EncodeHost(host) && |e| == |host| + 2
  {
    EncodeHostLength(host);
    EncodeHost(host)
  }

  function NewResolver(fd: int, memory: seq<byte>, pid: nat, host: seq<byte>, addr: nat): (r: ResolverState)
    requires |memory| == BUFFER && 0 !in host && |host| <= MAX_HOST
    ensures ValidState(r)
  {
    ResolverState(fd, NewBuffer(memory, pid, host), false, false, false, addr)
  }

  /** The message in the buffer has an address; nonsense and an empty reply do not. */
  function AddressAfter(b: seq<byte>, before: nat, io: ResolverIo): nat
    requires ValidIo(io)
  {
    if !Reply(b) then io.nonsense
    else if AnswerCount(b) == 0 then before
    else AddressWord(b, io.beyond)
  }

  function AfterSend(r: ResolverState, io: ResolverIo): ResolverState {
    match io.sent
    case Took(_) => r.(requestSended := true)
    case SendWouldBlock => r
    case SendFailed => r.(drop := true)
  }

  function AfterReceive(r: ResolverState, io: ResolverIo): (r': ResolverState)
    requires ValidState(r) && ValidIo(io)
    ensures ValidState(r')
  {
    match io.received
    case Bytes(data) =>
      var b := Overlay(data, r.buf);
      r.(buf := b, responseRecived := true, addr := AddressAfter(b, r.addr, io))
    case RecvWouldBlock => r
    case _ => r.(drop := true)
  }

  /** One exchangeData; it reports completion even when the receive failed. */
  function Exchange(r: ResolverState, readable: bool, writable: bool, io: ResolverIo): (res: (ResolverState, bool))
    requires ValidState(r) && ValidIo(io)
    ensures ValidState(res.0) && res.0.fd == r.fd
  {
    var s := if writable && !r.requestSended then AfterSend(r, io) else r;
    if readable && !s.responseRecived then (AfterReceive(s, io), true) else (s, false)
  }

  lemma NewBufferIsQuery(memory: seq<byte>, pid: nat, host: seq<byte>)
    requires |memory| == BUFFER && 0 !in host && |host| <= MAX_HOST
    ensures IsQueryBuffer(NewBuffer(memory, pid, host), pid, host)
  {
  }

  /**
    Whatever the buffer held before, a reply the code can serve leaves its address in the word
    the connection is made from.
   */
  lemma ReceivedAddress(r: ResolverState, io: ResolverIo)
    requires ValidState(r) && ValidIo(io) && io.received.Bytes?
    requires Reply(io.received.data) && AnswerCount(io.received.data) > 0
    ensures Some(StoreLow(AfterReceive(r, io).addr, 4)) == ReplyAddress(io.received.data)
  {
    hide Reply, ReplyAddress, AddressWord, StoreLow;
    var data, tail := io.received.data, r.buf[|io.received.data|..];
    var b := Overlay(data, r.buf);
    assert b == data + tail;
    ReplyIgnoresTail(data, tail);
    ReplyHasHeader(data);
    assert AnswerCount(b) == AnswerCount(data);
    AddressWordIsAddress(b, io.beyond);
    ReplyAddressSome(data);
  }

  lemma ReplyHasHeader(b: seq<byte>)
    requires Reply(b)
    ensures |b| > HEADER
  {
  }

  lemma ReplyAddressSome(b: seq<byte>)
    requires Reply(b) && AnswerCount(b) > 0
    ensures ReplyAddress(b).Some?
  {
  }

  /**
    A reply of a single answer to a resolver whose buffer came out of zeroed memory: the walk over
    the second record finds zeros, and the word kept has the answer's address.
   */
  lemma SingleAnswerReceived(memory: seq<byte>, pid: nat, host: seq<byte>, r: ResolverState, io: ResolverIo,
                             address: seq<byte>)
    requires memory == seq(BUFFER, _ => 0) && HostOk(host) && 0 !in host && |host| <= MAX_HOST
    requires r.buf == NewBuffer(memory, pid, host)
    requires ValidIo(io) && io.received.Bytes? && |io.received.data| == OneAnswerEnd(host) && |address| == 4
    requires OneAnswer(io.received.data, host, address)
    ensures ValidState(r) && StoreLow(AfterReceive(r, io).addr, 4) == address
  {
    hide HostOk, Reply, ReplyAddress, AddressWord, StoreLow, NewBuffer;
    var data, end := io.received.data, OneAnswerEnd(host);
    var b := Overlay(data, r.buf);
    NewBufferTail(memory, pid, host);
    HostFits(host);
    forall k | end <= k < end + 12 ensures b[k] == 0 {
      assert b[k] == r.buf[k] == memory[k];
    }
    assert forall i, j :: 0 <= i <= j <= end ==> b[i..j] == data[i..j];
    OneAnswerServed(b, host, address);
    AddressWordIsAddress(b, io.beyond);
  }

  /** The constructor writes no further than the query reaches. */
  lemma NewBufferTail(memory: seq<byte>, pid: nat, host: seq<byte>)
    requires |memory| == BUFFER && 0 !in host && |host| <= MAX_HOST
    ensures forall k :: HEADER + |host| + 2 + QUESTION <= k < BUFFER ==> NewBuffer(memory, pid, host)[k] == memory[k]
  {
  }

  // ---------------------------------------------------------------- whole runs

  /** One call: what the masks say, and what the kernel answers. */
  datatype ResolverInput = ResolverInput(readable: bool, writable: bool, io: ResolverIo)

  predicate WantsWrite(r: ResolverState) {
    !r.requestSended
  }

  predicate WantsRead(r: ResolverState) {
    r.requestSended && !r.responseRecived
  }

  /** A call as the masks allow it: to write until sent, then to read. */
  predicate AnswersAsked(r: ResolverState, readable: bool, writable: bool) {
    (writable ==> WantsWrite(r)) && (readable ==> WantsRead(r))
  }

  /** The bytes `send` hands over from this buffer. */
  function Packet(b: seq<byte>): seq<byte> {
    if HEADER <= |b| && 0 in b[HEADER..] && QuestionAt(b) + QUESTION <= |b| then QueryBytes(b) else b
  }

  /** The packets the socket took, the messages it gave, and whether the call reported completion. */
  datatype ResolverTrace = ResolverTrace(
    state: ResolverState,
    taken: seq<seq<byte>>,
    replies: seq<seq<byte>>,
    done: bool)

  function Begin(r: ResolverState): ResolverTrace {
    ResolverTrace(r, [], [], false)
  }

  function Feed(t: ResolverTrace, i: ResolverInput): (t': ResolverTrace)
    requires ValidState(t.state) && ValidIo(i.io)
    ensures ValidState(t'.state)
  {
    if t.done then t
    else
      var (s, done) := Exchange(t.state, i.readable, i.writable, i.io);
      ResolverTrace(s,
        t.taken + if i.writable && !t.state.requestSended && i.io.sent.Took? then [Packet(t.state.buf)] else [],
        t.replies + if i.readable && !t.state.responseRecived && i.io.received.Bytes? then [i.io.received.data] else [],
        done)
  }

  function RunTrace(t: ResolverTrace, ins: seq<ResolverInput>): (t': ResolverTrace)
    requires ValidState(t.state) && forall i <- ins :: ValidIo(i.io)
    ensures ValidState(t'.state)
    decreases |ins|
  {
    if ins == [] then t
    else
      assert ins[0] in ins && forall i <- ins[1..] :: i in ins;
      RunTrace(Feed(t, ins[0]), ins[1..])
  }

  /** Every call of the run is made as the masks allow it; `run` never makes another (ProxyHistory.dfy). */
  predicate CalledAsAsked(t: ResolverTrace, ins: seq<ResolverInput>)
    requires ValidState(t.state) && forall i <- ins :: ValidIo(i.io)
    decreases |ins|
  {
    ins == [] ||
      (assert ins[0] in ins && forall i <- ins[1..] :: i in ins;
       AnswersAsked(t.state, ins[0].readable, ins[0].writable) && CalledAsAsked(Feed(t, ins[0]), ins[1..]))
  }

  /**
    The address a reply names, if the code can serve it, is the one in the word; a reply without
    answers leaves the word as the storage had it.
   */
  ghost predicate HasAddressOf(word: nat, before: nat, reply: seq<byte>) {
    Reply(reply) ==>
      if AnswerCount(reply) > 0 then Some(StoreLow(word, 4)) == ReplyAddress(reply) else word == before
  }

  /** One query goes out before anything is read; completion is reported at the first read. */
  ghost predicate PhasesOk(t: ResolverTrace, query: seq<byte>, before: nat) {
    && ValidState(t.state)
    && |t.taken| <= 1 && |t.replies| <= 1
    && (t.state.requestSended <==> |t.taken| == 1)
    && (t.state.responseRecived <==> |t.replies| == 1)
    && (forall packet <- t.taken :: packet == Packet(query))
    && (forall reply <- t.replies :: HasAddressOf(t.state.addr, before, reply))
    && (t.replies == [] ==> t.state.addr == before)
    && (t.replies != [] ==> t.done) && (t.done ==> t.taken != [])
    && (!t.state.responseRecived ==> t.state.buf == query)
  }

  lemma FeedKeepsPhases(t: ResolverTrace, query: seq<byte>, before: nat, i: ResolverInput)
    requires PhasesOk(t, query, before) && ValidIo(i.io) && AnswersAsked(t.state, i.readable, i.writable)
    ensures PhasesOk(Feed(t, i), query, before)
  {
    hide HasAddressOf, Packet, AfterReceive;
    if i.readable && !t.done && i.io.received.Bytes? {
      ReplyTaken(t.state, i.io);
    }
    ReceiveFlags(t.state, i.io);
  }

  lemma ReceiveFlags(r: ResolverState, io: ResolverIo)
    requires ValidState(r) && ValidIo(io)
    ensures var s := AfterReceive(r, io);
            && s.requestSended == r.requestSended
            && (s.responseRecived <==> r.responseRecived || io.received.Bytes?)
            && (!io.received.Bytes? ==> s.buf == r.buf && s.addr == r.addr)
  {
  }

  /** A reply without answers leaves the word of the address as it was. */
  lemma NoAnswerKeepsWord(r: ResolverState, io: ResolverIo)
    requires ValidState(r) && ValidIo(io) && io.received.Bytes?
    requires Reply(io.received.data) && HEADER <= |io.received.data| && AnswerCount(io.received.data) == 0
    ensures AfterReceive(r, io).addr == r.addr
  {
    hide Reply, ReplyAddress, AddressWord;
    var data, tail := io.received.data, r.buf[|io.received.data|..];
    var b := Overlay(data, r.buf);
    assert b == data + tail;
    ReplyIgnoresTail(data, tail);
    assert AnswerCount(b) == AnswerCount(data);
  }

  /** All that one call does, whatever it is called for. */
  lemma OneCall(r: ResolverState, readable: bool, writable: bool, io: ResolverIo)
    requires ValidState(r) && ValidIo(io)
    ensures var (s, done) := Exchange(r, readable, writable, io);
            var sending, reading := writable && !r.requestSended, readable && !r.responseRecived;
            && (s.requestSended <==> r.requestSended || (sending && io.sent.Took?))
            && (s.responseRecived <==> r.responseRecived || (reading && io.received.Bytes?))
            && (s.drop <==> r.drop || (sending && io.sent.SendFailed?)
                            || (reading && (io.received.EndOfStream? || io.received.RecvFailed?)))
            && (done <==> reading) && s.fd == r.fd
            && (if reading && io.received.Bytes? then s.buf == io.received.data + r.buf[|io.received.data|..]
                else s.buf == r.buf && s.addr == r.addr)
  {
    hide AddressAfter;
  }

  lemma ReplyTaken(r: ResolverState, io: ResolverIo)
    requires ValidState(r) && ValidIo(io) && io.received.Bytes?
    ensures HasAddressOf(AfterReceive(r, io).addr, r.addr, io.received.data)
  {
    hide Reply, ReplyAddress, StoreLow, AfterReceive;
    if Reply(io.received.data) {
      ReplyHasHeader(io.received.data);
      if AnswerCount(io.received.data) > 0 {
        ReceivedAddress(r, io);
      } else {
        NoAnswerKeepsWord(r, io);
      }
    }
  }

  lemma {:induction false} RunKeepsPhases(t: ResolverTrace, query: seq<byte>, before: nat, ins: seq<ResolverInput>)
    requires PhasesOk(t, query, before) && (forall i <- ins :: ValidIo(i.io)) && CalledAsAsked(t, ins)
    ensures PhasesOk(RunTrace(t, ins), query, before)
    decreases |ins|
  {
    hide PhasesOk, Feed, AnswersAsked;
    PhasesShape(t, query, before);
    if ins != [] {
      assert ins[0] in ins && forall i <- ins[1..] :: i in ins;
      FeedKeepsPhases(t, query, before, ins[0]);
      RunKeepsPhases(Feed(t, ins[0]), query, before, ins[1..]);
    }
  }

  lemma PhasesShape(t: ResolverTrace, query: seq<byte>, before: nat)
    requires PhasesOk(t, query, before)
    ensures ValidState(t.state)
  {
  }

  /**
    Over every run of a new resolver called as it asks the socket takes at most one packet and gives
    at most one message, nothing is read before the packet is out, and the packet asks for the host
    exactly when the host has a wire form. The word kept has the address of a reply the code can
    serve; after a reply without answers, or none, it is still what the storage had.
   */
  lemma OneQueryOneReply(fd: int, memory: seq<byte>, pid: nat, host: seq<byte>, addr: nat, ins: seq<ResolverInput>)
    requires |memory| == BUFFER && 0 !in host && |host| <= MAX_HOST
    requires (forall i <- ins :: ValidIo(i.io)) && CalledAsAsked(Begin(NewResolver(fd, memory, pid, host, addr)), ins)
    ensures var t := RunTrace(Begin(NewResolver(fd, memory, pid, host, addr)), ins);
            && |t.replies| <= |t.taken| <= 1
            && (t.state.requestSended <==> t.taken != []) && (t.state.responseRecived <==> t.replies != [])
            && (forall packet <- t.taken ::
                  AsksFor(packet, pid, host) <==> HasWireForm(host))
            && (forall reply <- t.replies :: HasAddressOf(t.state.addr, addr, reply))
            && (t.replies == [] ==> t.state.addr == addr)
            && (t.done ==> t.taken != []) && (t.replies != [] ==> t.done)
  {
    hide NewBuffer, AsksFor, Split, IsQueryBuffer, HasAddressOf, Feed, RunTrace, CalledAsAsked;
    var r := NewResolver(fd, memory, pid, host, addr);
    NewBufferIsQuery(memory, pid, host);
    QueryAsksIff(r.buf, pid, host);
    RunKeepsPhases(Begin(r), r.buf, addr, ins);
  }

  // ---------------------------------------------------------------- the class

  class DNSResolver {
    const buf: array<byte>
    const sockfd: int
    ghost const pid: nat
    ghost const host: seq<byte>
    var requestSended: bool
    var responseRecived: bool
    var drop: bool
    var s_addr: nat

    /** Until a reply overwrites it, the buffer holds the query for this resolver's host. */
    ghost predicate Valid()
      reads this, buf
    {
      && buf.Length == BUFFER && 0 !in host
      && (!responseRecived ==> IsQueryBuffer(buf[..], pid, host))
    }

    ghost function State(): (r: ResolverState)
      requires Valid()
      reads this, buf
      ensures ValidState(r)
    {
      ResolverState(sockfd, buf[..], requestSended, responseRecived, drop, s_addr)
    }

    /** `memory` and `addr` are what the storage held before: the code leaves both as they are. */
    constructor (host: seq<byte>, fd: int, pid: nat, memory: seq<byte>, addr: nat)
      requires |memory| == BUFFER && 0 !in host && |host| <= MAX_HOST
      ensures Valid() && fresh(buf) && this.host == host && this.pid == pid
      ensures State() == NewResolver(fd, memory, pid, host, addr)
    {
      sockfd, this.pid, this.host := fd, pid, host;
      requestSended, responseRecived, drop, s_addr := false, false, false, addr;
      buf := new byte[BUFFER](i requires 0 <= i < BUFFER => memory[i]);
      new;
      hide IsQueryBuffer, QueryHeader, EncodeHost, EncodedStrLen, WriteAt;
      assert buf[..] == memory;
      Store(buf, 0, QueryHeader(pid));
      ghost var headed := buf[..];
      ChangeToDnsNameFormat(buf, HEADER, host);
      WriteAtSlices(headed, buf[..], HEADER, EncodedHost(host));
      EncodedZero(buf[..], host);
      NewBufferIsQuery(memory, pid, host);
      Store(buf, HEADER + StrLen(buf[HEADER..]) + 1, A_IN);
    }

    /** Asks to write until the query is out, then to read until a reply is in. */
    method FillFdSet(readset: set<int>, writeset: set<int>) returns (rd: set<int>, wr: set<int>)
      ensures rd == readset + (if requestSended && !responseRecived then {sockfd} else {})
      ensures wr == writeset + (if !requestSended then {sockfd} else {})
    {
      rd, wr := readset, writeset;
      if !requestSended {
        wr := wr + {sockfd};
      } else if !responseRecived {
        rd := rd + {sockfd};
      }
    }

    method Send(sent: Sent) returns (packet: seq<byte>)
      requires Valid() && !requestSended && !responseRecived
      modifies this
      ensures 0 in buf[HEADER..] && QuestionAt(buf[..]) + QUESTION <= buf.Length
      ensures Valid() && !responseRecived && packet == QueryBytes(buf[..])
      ensures State() == AfterSend(old(State()), ResolverIo(sent, RecvWouldBlock, [], 0))
    {
      hide IsQueryBuffer;
      QuerySentIff(buf[..], pid, host);
      assert buf[..][HEADER..] == buf[HEADER..];
      packet := buf[..HEADER + StrLen(buf[HEADER..]) + 1 + QUESTION];
      match sent {
        case Took(_) => requestSended := true;
        case SendWouldBlock =>
        case SendFailed => drop := true;
      }
    }

    /**
      One round of the answer loop: reads the owner name, skips the fixed fields, then copies the
      data of an address or reads the data as a name, moving on by what was read.
     */
    method WalkRecord(start: nat) returns (rdata: array<byte>, reader: nat)
      requires WalkableAt(buf[..], start)
      ensures fresh(rdata) && reader == WalkEnd(buf[..], start)
      ensures RecordType(buf[..], start) == TYPE_A ==> rdata[..] == RecordData(buf[..], start) + [0]
    {
      hide ReadableName, NameLength, Decode, Flatten;
      ghost var b := buf[..];
      reader := start;
      var name, stop := ReadName(buf, reader);
      reader := reader + stop;
      var resource := reader;
      reader := reader + RECORD_FIELDS;
      if U16(buf[..], resource) == TYPE_A {
        var n := U16(buf[..], resource + 8);
        rdata := new byte[n + 1];
        var j := 0;
        while j < n
          invariant j <= n && buf[..] == b
          invariant rdata[..j] == b[reader..reader + j]
        {
          rdata[j] := buf[reader + j];
          j := j + 1;
        }
        rdata[n] := 0;
        reader := reader + n;
      } else {
        rdata, stop := ReadName(buf, reader);
        reader := reader + stop;
      }
    }

    method ReceiveAndParse(io: ResolverIo)
      requires Valid() && ValidIo(io)
      requires io.received.Bytes? ==> Reply(Overlay(io.received.data, buf[..]))
      modifies this, buf
      ensures Valid() && State() == AfterReceive(old(State()), io)
    {
      hide Reply, AddressAfter;
      match io.received {
        case RecvWouldBlock => return;
        case EndOfStream => drop := true; return;
        case RecvFailed => drop := true; return;
        case Bytes(data) =>
          ghost var before := buf[..];
          Store(buf, 0, data);
          assert buf[..] == Overlay(data, before);
          responseRecived := true;
          ParseAnswers(io);
      }
    }

    /** The walk over two records and the choice between them. */
    method ParseAnswers(io: ResolverIo)
      requires Valid() && ValidIo(io) && Reply(buf[..])
      modifies this`s_addr
      ensures s_addr == AddressAfter(buf[..], old(s_addr), io)
    {
      hide ReadableName, NameLength, Decode, Flatten, RecordAt, RecordData, ReadLong, AddressAfter, Reply;
      ghost var b := buf[..];
      ReplyLayout(b);
      assert b[HEADER..] == buf[HEADER..];
      var reader := HEADER + StrLen(buf[HEADER..]) + 1 + QUESTION;
      var answers: seq<array<byte>> := [];
      var i := 0;
      while i < 2
        invariant i <= 2 && |answers| == i && buf[..] == b && s_addr == old(s_addr)
        invariant i == 0 ==> reader == AnswersAt(b)
        invariant i == 1 ==> reader == RecordEnd(b, AnswersAt(b))
        invariant i >= 1 ==> HoldsData(b, AnswersAt(b), answers[0][..])
        invariant i == 2 && AnswerCount(b) > 1 ==> HoldsData(b, RecordEnd(b, AnswersAt(b)), answers[1][..])
      {
        var rdata;
        rdata, reader := WalkRecord(reader);
        answers := answers + [rdata];
        i := i + 1;
      }
      if U16(buf[..], 6) > 1 {
        s_addr := ReadLong(answers[1][..] + io.beyond);
      } else if U16(buf[..], 6) > 0 {
        s_addr := ReadLong(answers[0][..] + io.beyond);
      }
      AddressFromData(b, io, old(s_addr), answers[0][..], answers[1][..]);
    }

    /** A caller must not let a resolver write whose buffer a reply has overwritten. */
    method ExchangeData(readable: bool, writable: bool, io: ResolverIo) returns (done: bool, sent: Option<seq<byte>>)
      requires Valid() && ValidIo(io)
      requires writable && !requestSended ==> !responseRecived
      requires readable && !responseRecived && io.received.Bytes? ==> Reply(Overlay(io.received.data, buf[..]))
      modifies this, buf
      ensures Valid() && (State(), done) == Exchange(old(State()), readable, writable, io)
      ensures sent.Some? <==> writable && !old(requestSended)
      ensures sent.Some? ==> sent.value == Packet(old(buf[..]))
      ensures sent.Some? ==>
                (AsksFor(sent.value, pid, host) <==> HasWireForm(host))
    {
      hide AsksFor, Split;
      sent := None;
      if writable && !requestSended {
        QueryAsksIff(buf[..], pid, host);
        var packet := Send(io.sent);
        sent := Some(packet);
      }
      if readable && !responseRecived {
        ReceiveAndParse(io);
        return true, sent;
      }
      return false, sent;
    }
  }

  /** The bytes kept for a record: its data and a zero byte if it is an address. */
  ghost predicate HoldsData(b: seq<byte>, pos: nat, rdata: seq<byte>) {
    RecordAt(b, pos) && (RecordType(b, pos) == TYPE_A ==> rdata == RecordData(b, pos) + [0])
  }

  lemma ReplyLayout(b: seq<byte>)
    requires Reply(b)
    ensures HEADER <= |b| && 0 in b[HEADER..]
    ensures HEADER + StrLen(b[HEADER..]) + 1 + QUESTION == AnswersAt(b)
    ensures RecordAt(b, AnswersAt(b)) && DataAt(b, AnswersAt(b)) <= |b|
    ensures WalkableAt(b, AnswersAt(b)) && WalkEnd(b, AnswersAt(b)) == RecordEnd(b, AnswersAt(b))
    ensures WalkableAt(b, RecordEnd(b, AnswersAt(b)))
    ensures AnswerCount(b) > 1 ==> RecordAt(b, RecordEnd(b, AnswersAt(b)))
  {
    UncompressedStrLen(b, HEADER);
  }

  lemma AddressFromData(b: seq<byte>, io: ResolverIo, before: nat, rdata0: seq<byte>, rdata1: seq<byte>)
    requires Reply(b) && ValidIo(io) && HEADER <= |b|
    requires HoldsData(b, AnswersAt(b), rdata0)
    requires AnswerCount(b) > 1 ==> HoldsData(b, RecordEnd(b, AnswersAt(b)), rdata1)
    requires |rdata1| + |io.beyond| >= 8
    ensures AddressAfter(b, before, io) ==
            if U16(b, 6) > 1 then ReadLong(rdata1 + io.beyond)
            else if U16(b, 6) > 0 then ReadLong(rdata0 + io.beyond)
            else before
  {
  }

  lemma WriteAtSlices(before: seq<byte>, now: seq<byte>, at: nat, data: seq<byte>)
    requires at + |data| <= |before| == |now|
    requires now[at..at + |data|] == data
    requires now[..at] == before[..at] && now[at + |data|..] == before[at + |data|..]
    ensures now == WriteAt(before, at, data)
  {
  }

  /** Copies bytes into a buffer. */
  method Store(buf: array<byte>, at: nat, data: seq<byte>)
    requires at + |data| <= buf.Length
    modifies buf
    ensures buf[..] == WriteAt(old(buf[..]), at, data)
  {
    var i := 0;
    while i < |data|
      invariant i <= |data|
      invariant forall q :: at <= q < at + i ==> buf[q] == data[q - at]
      invariant forall q :: 0 <= q < at || at + i <= q < buf.Length ==> buf[q] == old(buf[q])
    {
      buf[at + i] := data[i];
      i := i + 1;
    }
  }

  /** strlen of the freshly encoded name is that of the encoding. */
  lemma EncodedZero(b: seq<byte>, host: seq<byte>)
    requires 0 !in host && HEADER + |host| + 2 <= |b|
    requires b[HEADER..HEADER + |host| + 2] == EncodeHost(host)
    ensures 0 in b[HEADER..] && StrLen(b[HEADER..]) == EncodedStrLen(host)
  {
    var k, code, text := EncodedStrLen(host), EncodeHost(host), b[HEADER..];
    SubSlice(b, HEADER, |b|, 0, |code|);
    assert code == text[..|code|];
    assert code[k] == 0 && 0 !in code[..k];
    assert text[k] == code[k] && text[..k] == code[..k];
    StrLenIs(text, k);
  }
}
