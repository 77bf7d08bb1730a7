// The query DNSResolver builds and the walk over the answers it receives
// (sections 4.1.1 to 4.1.4 of RFC 1035), as functions of the message buffer.
module DnsMessage {
  import opened Bytes
  import opened Wrappers
  import opened DnsName
  import opened DnsCodec

  const HEADER := 12
  const QUESTION := 4
  const RECORD_FIELDS := 10
  const TYPE_A := 1

  /** The longest name on the wire (section 2.3.4 of RFC 1035). */
  const MAX_NAME := 255

  /** Type A, class IN: the question fields, and the first fields of an address record. */
  const A_IN: seq<byte> := [0, 1, 0, 1]

  // ---------------------------------------------------------------- the query

  /** Identification, recursion desired, one question. */
  function QueryHeader(pid: nat): (h: seq<byte>)
    ensures |h| == HEADER
  {
    [pid / 256 % 256, pid % 256, 1, 0, 0, 1, 0, 0, 0, 0, 0, 0]
  }

  /** Read back by section 4.1.1 of RFC 1035: a recursive standard query with one question. */
  lemma QueryHeaderFields(pid: nat)
    ensures var h := QueryHeader(pid);
            && U16(h, 0) == pid % 65536
            && U16(h, 2) / 32768 == 0 && U16(h, 2) / 2048 % 16 == 0 && U16(h, 2) / 256 % 8 == 1 && U16(h, 2) % 256 == 0
            && U16(h, 4) == 1 && U16(h, 6) == 0 && U16(h, 8) == 0 && U16(h, 10) == 0
  {
  }

  function WriteAt(b: seq<byte>, p: nat, data: seq<byte>): (r: seq<byte>)
    requires p + |data| <= |b|
    ensures |r| == |b|
  {
    b[..p] + data + b[p + |data|..]
  }

  /** Where the question fields of the message in b begin, found by strlen. */
  function QuestionAt(b: seq<byte>): nat
    requires HEADER <= |b| && 0 in b[HEADER..]
  {
    HEADER + StrLen(b[HEADER..]) + 1
  }

  /** What `send` hands to the socket. */
  function QueryBytes(b: seq<byte>): seq<byte>
    requires HEADER <= |b| && 0 in b[HEADER..] && QuestionAt(b) + QUESTION <= |b|
  {
    b[..QuestionAt(b) + QUESTION]
  }

  /** strlen of an encoded host. */
  function EncodedStrLen(host: seq<byte>): (k: nat)
    requires 0 !in host
    ensures k <= |host| + 1 && k < |EncodeHost(host)|
  {
    EncodedStrLenIff(host);
    EncodeHostLength(host);
    StrLen(EncodeHost(host))
  }

  /** The buffer the constructor leaves: header, encoded host up to its first zero, question fields. */
  predicate IsQueryBuffer(b: seq<byte>, pid: nat, host: seq<byte>)
    requires 0 !in host
  {
    var k := EncodedStrLen(host);
    && HEADER + k + 1 + QUESTION <= |b|
    && b[..HEADER] == QueryHeader(pid)
    && b[HEADER..HEADER + k + 1] == EncodeHost(host)[..k + 1]
    && b[HEADER + k + 1..HEADER + k + 1 + QUESTION] == A_IN
  }

  /** Header, the host as the code encodes it to its end, question fields. */
  function Query(pid: nat, host: seq<byte>): seq<byte> {
    QueryHeader(pid) + EncodeHost(host) + A_IN
  }

  lemma QueryBufferStrLen(b: seq<byte>, pid: nat, host: seq<byte>)
    requires 0 !in host && IsQueryBuffer(b, pid, host)
    ensures 0 in b[HEADER..] && StrLen(b[HEADER..]) == EncodedStrLen(host)
    ensures QuestionAt(b) + QUESTION <= |b|
    ensures QueryBytes(b) == QueryHeader(pid) + EncodeHost(host)[..EncodedStrLen(host) + 1] + A_IN
  {
    var k, code := EncodedStrLen(host), EncodeHost(host);
    SubSlice(b, HEADER, |b|, 0, k + 1);
    var text := b[HEADER..];
    assert text[..k + 1] == code[..k + 1];
    assert text[k] == text[..k + 1][k] == code[..k + 1][k] == 0;
    assert text[..k] == text[..k + 1][..k] == code[..k + 1][..k] == code[..k];
    StrLenIs(text, k);
    var end := HEADER + k + 1;
    assert b[..end + QUESTION] == b[..HEADER] + b[HEADER..end] + b[end..end + QUESTION];
  }

  /** The whole encoding of the host is sent exactly when no label length is stored as zero. */
  lemma QuerySentIff(b: seq<byte>, pid: nat, host: seq<byte>)
    requires 0 !in host && IsQueryBuffer(b, pid, host)
    ensures 0 in b[HEADER..] && QuestionAt(b) + QUESTION <= |b|
    ensures |Query(pid, host)| == HEADER + |host| + 2 + QUESTION
    ensures QueryBytes(b) == Query(pid, host) <==> !HasZeroLength(Split(host))
  {
    hide Flatten, Split, IsQueryBuffer;
    QueryBufferStrLen(b, pid, host);
    EncodeHostLength(host);
    EncodedStrLenIff(host);
    var k, code := EncodedStrLen(host), EncodeHost(host);
    assert |QueryBytes(b)| == HEADER + k + 1 + QUESTION;
    if k == |host| + 1 {
      assert code[..k + 1] == code;
    }
  }

  /**
    The labels a host names (section 3.1 of RFC 1035): a dot at its end stands for the root behind
    them and is no label of its own, and a lone dot is the root itself.
   */
  function HostLabels(host: seq<byte>): seq<Label> {
    var ls := Split(host);
    if |ls| == 1 || ls[|ls| - 1] != [] then ls
    else if ls == [[], []] then []
    else ls[..|ls| - 1]
  }

  /** Every label has 1 to 63 bytes, and the name with its zero byte at most 255. */
  predicate HasWireForm(host: seq<byte>) {
    WireLabels(HostLabels(host)) && |Flatten(HostLabels(host))| < 255
  }

  /**
    The message is a query for the host as RFC 1035 reads it: the header, one name whose labels
    are the host's, type A and class IN, and nothing behind them.
   */
  predicate AsksFor(m: seq<byte>, pid: nat, host: seq<byte>) {
    && HEADER <= |m| && m[..HEADER] == QueryHeader(pid)
    && Decode(m, HEADER, HEADER) == Some(HostLabels(host))
    && NameLength(m, HEADER) <= MAX_NAME && HEADER + NameLength(m, HEADER) <= |m|
    && m[HEADER + NameLength(m, HEADER)..] == [0, 1, 0, 1]
  }

  /**
    Exactly when the bytes sent ask for the host: a reader of RFC 1035 finds the host's labels if
    and only if each has 1 to 63 bytes, and a query for the host if they also fit a name.
   */
  lemma QueryAsksIff(b: seq<byte>, pid: nat, host: seq<byte>)
    requires 0 !in host && IsQueryBuffer(b, pid, host)
    ensures 0 in b[HEADER..] && QuestionAt(b) + QUESTION <= |b|
    ensures Decode(QueryBytes(b), HEADER, HEADER) == Some(HostLabels(host)) <==> WireLabels(HostLabels(host))
    ensures AsksFor(QueryBytes(b), pid, host) <==> HasWireForm(host)
  {
    hide Decode, NameLength, Flatten, Split, IsQueryBuffer;
    QuerySentIff(b, pid, host);
    var m, ls := QueryBytes(b), HostLabels(host);
    if Decode(m, HEADER, HEADER) == Some(ls) {
      DecodeLabels(m, HEADER, HEADER);
    }
    if WireLabels(ls) {
      if ls == Split(host) {
        QueryNameRead(pid, host);
        EncodeHostLength(host);
      } else {
        var rest := if Split(host) == [[], []] then [[]] else [];
        assert Split(host) == ls + [[]] + rest;
        QueryCutShort(b, pid, host, ls, [], rest);
      }
    }
  }

  lemma QueryNameRead(pid: nat, host: seq<byte>)
    requires WireLabels(Split(host))
    ensures var m := Query(pid, host);
            && !HasZeroLength(Split(host))
            && Decode(m, HEADER, HEADER) == Some(Split(host))
            && NameLength(m, HEADER) == |host| + 2
            && |m| == HEADER + |host| + 2 + QUESTION
            && m[..HEADER] == QueryHeader(pid) && m[HEADER + |host| + 2..] == A_IN
  {
    hide Flatten, Split, Decode, NameLength, QueryHeader;
    var m, ls, end := Query(pid, host), Split(host), HEADER + |host| + 1;
    EncodeHostLength(host);
    QueryParts(QueryHeader(pid), Flatten(ls), m);
    NameEnd(m, end, HEADER);
    DecodeRun(m, HEADER, end, HEADER, ls);
    assert ls + [] == ls;
  }

  lemma QueryParts(header: seq<byte>, name: seq<byte>, m: seq<byte>)
    requires m == header + (name + [0]) + A_IN
    ensures var end := |header| + |name|;
            && |m| == end + 1 + QUESTION && m[..|header|] == header && m[|header|..end] == name
            && m[end] == 0 && m[end + 1..] == A_IN
  {
  }

  lemma NameEnd(b: seq<byte>, pos: nat, run: nat)
    requires pos < |b| && b[pos] == 0
    ensures Decode(b, pos, run) == Some([]) && NameLength(b, pos) == 1
  {
  }

  /** The bytes sent hold the labels up to the first one out of range, and that one's length byte. */
  lemma QueryStarts(b: seq<byte>, pid: nat, host: seq<byte>, good: seq<Label>, bad: Label, rest: seq<Label>)
    requires 0 !in host && IsQueryBuffer(b, pid, host)
    requires Split(host) == good + [bad] + rest && WireLabels(good)
    ensures 0 in b[HEADER..] && QuestionAt(b) + QUESTION <= |b|
    ensures var m, end := QueryBytes(b), HEADER + |Flatten(good)|;
            end < |m| && m[HEADER..end] == Flatten(good) && m[end] == |bad| % 256
  {
    hide Flatten, Split, IsQueryBuffer;
    QueryBufferStrLen(b, pid, host);
    EncodeHostLength(host);
    var code, k, f := EncodeHost(host), EncodedStrLen(host), |Flatten(good)|;
    LabelsFirst(good, bad, rest);
    assert code[..f] == Flatten(good) && code[f] == |bad| % 256;
    ZeroFreeLabels(host, good, bad, rest);
    forall j | 0 <= j < f ensures code[j] != 0 {
      assert code[j] == code[..f][j];
    }
    var m := QueryBytes(b);
    assert m[HEADER..HEADER + f] == code[..k + 1][..f];
    assert m[HEADER + f] == code[..k + 1][f];
  }

  lemma LabelsFirst(good: seq<Label>, bad: Label, rest: seq<Label>)
    ensures var code, f := Flatten(good + [bad] + rest), |Flatten(good)|;
            f < |code| && code[..f] == Flatten(good) && code[f] == |bad| % 256
  {
    FlattenAppend(good, [bad] + rest);
    assert good + [bad] + rest == good + ([bad] + rest);
    assert ([bad] + rest)[1..] == rest;
    assert Flatten([bad] + rest)[0] == Prefixed(bad)[0];
  }

  lemma ZeroFreeLabels(host: seq<byte>, good: seq<Label>, bad: Label, rest: seq<Label>)
    requires 0 !in host && Split(host) == good + [bad] + rest && WireLabels(good)
    ensures 0 !in Flatten(good)
  {
    hide Flatten, Split;
    assert forall l <- good :: l in good + [bad] + rest;
    forall l | l in good ensures 0 !in l {
      SplitBytes(host, l);
    }
    FlattenZeroIff(good);
  }

  lemma QueryCutIs(b: seq<byte>, pid: nat, host: seq<byte>, good: seq<Label>, bad: Label, rest: seq<Label>)
    requires 0 !in host && IsQueryBuffer(b, pid, host)
    requires Split(host) == good + [bad] + rest && WireLabels(good) && |bad| % 256 == 0
    ensures 0 in b[HEADER..] && QuestionAt(b) + QUESTION <= |b|
    ensures QueryBytes(b) == QueryHeader(pid) + (Flatten(good) + [0]) + A_IN
  {
    hide Flatten, Split, IsQueryBuffer, QueryHeader;
    QueryBufferStrLen(b, pid, host);
    EncodeHostLength(host);
    LabelsFirst(good, bad, rest);
    ZeroFreeLabels(host, good, bad, rest);
    var code, f := EncodeHost(host), |Flatten(good)|;
    assert code[..f] == Flatten(good) && code[f] == 0;
    StrLenIs(code, f);
    assert code[..f + 1] == Flatten(good) + [0];
  }

  /**
    A label whose length is stored as zero, so any empty one, cuts the query: it is a well-formed
    query for the labels before.
   */
  lemma QueryCutShort(b: seq<byte>, pid: nat, host: seq<byte>, good: seq<Label>, bad: Label, rest: seq<Label>)
    requires 0 !in host && IsQueryBuffer(b, pid, host)
    requires Split(host) == good + [bad] + rest && WireLabels(good) && |bad| % 256 == 0
    ensures 0 in b[HEADER..] && QuestionAt(b) + QUESTION <= |b|
    ensures var m := QueryBytes(b);
            && HEADER <= |m| && m[..HEADER] == QueryHeader(pid)
            && Decode(m, HEADER, HEADER) == Some(good)
            && NameLength(m, HEADER) == |Flatten(good)| + 1
            && HEADER + NameLength(m, HEADER) <= |m| && m[HEADER + NameLength(m, HEADER)..] == A_IN
  {
    hide Flatten, Split, IsQueryBuffer, Decode, NameLength, QueryHeader;
    QueryCutIs(b, pid, host, good, bad, rest);
    var m, end := QueryBytes(b), HEADER + |Flatten(good)|;
    QueryParts(QueryHeader(pid), Flatten(good), m);
    NameEnd(m, end, HEADER);
    DecodeRun(m, HEADER, end, HEADER, good);
    assert good + [] == good;
  }

  /** A label of 64 to 191 bytes makes the name unreadable: its length byte is reserved. */
  lemma QueryUnreadable(b: seq<byte>, pid: nat, host: seq<byte>, good: seq<Label>, bad: Label, rest: seq<Label>)
    requires 0 !in host && IsQueryBuffer(b, pid, host)
    requires Split(host) == good + [bad] + rest && WireLabels(good) && 63 < |bad| % 256 < 192
    ensures 0 in b[HEADER..] && QuestionAt(b) + QUESTION <= |b|
    ensures Decode(QueryBytes(b), HEADER, HEADER).None?
  {
    hide Flatten, Split, IsQueryBuffer;
    QueryStarts(b, pid, host, good, bad, rest);
    var m, end := QueryBytes(b), HEADER + |Flatten(good)|;
    assert Decode(m, end, HEADER).None?;
    DecodeRunNone(m, HEADER, end, HEADER, good);
  }

  /** The host "a..b" is asked for as "a". */
  lemma DoubleDotAsksForLess(b: seq<byte>, pid: nat)
    requires IsQueryBuffer(b, pid, [97, DOT, DOT, 98])
    ensures 0 in b[HEADER..] && QuestionAt(b) + QUESTION <= |b|
    ensures Decode(QueryBytes(b), HEADER, HEADER) == Some([[97]])
  {
    var good, rest := [[97]], [[98]];
    SplitAtDot([98], []);
    SplitAtDot([], [98]);
    SplitAtDot([97], [DOT, 98]);
    assert [97] + [DOT] + [DOT, 98] == [97, DOT, DOT, 98] && [] + [DOT] + [98] == [DOT, 98];
    QueryCutShort(b, pid, [97, DOT, DOT, 98], good, [], rest);
  }

  /** A host of one label of 64 bytes is sent whole, and nobody can read it. */
  lemma LongLabelUnreadable(b: seq<byte>, pid: nat, host: seq<byte>)
    requires host == seq(64, _ => 97) && IsQueryBuffer(b, pid, host)
    ensures 0 in b[HEADER..] && QuestionAt(b) + QUESTION <= |b|
    ensures QueryBytes(b) == Query(pid, host) && Decode(QueryBytes(b), HEADER, HEADER).None?
  {
    hide Flatten, IsQueryBuffer;
    SplitAtDot(host, []);
    QuerySentIff(b, pid, host);
    QueryUnreadable(b, pid, host, [], host, []);
  }

  // ---------------------------------------------------------------- the answers

  /** An uncompressed name ends at its first zero byte, where strlen finds it. */
  lemma {:induction false} UncompressedZeros(b: seq<byte>, pos: nat, run: nat)
    requires Decode(b, pos, run).Some? && PlainLabels(Decode(b, pos, run).value) && Uncompressed(b, pos)
    ensures 1 <= NameLength(b, pos) <= |b| - pos
    ensures b[pos + NameLength(b, pos) - 1] == 0
    ensures forall q :: pos <= q < pos + NameLength(b, pos) - 1 ==> b[q] != 0
    decreases |b| - pos
  {
    if b[pos] != 0 {
      var next := pos + 1 + b[pos];
      var ls := Decode(b, pos, run).value;
      assert ls[0] in ls && forall l <- ls[1..] :: l in ls;
      UncompressedZeros(b, next, run);
      forall q | pos < q < next ensures b[q] != 0 {
        assert b[q] == b[pos + 1..next][q - pos - 1];
        assert b[q] in ls[0];
      }
    }
  }

  lemma UncompressedStrLen(b: seq<byte>, pos: nat)
    requires ReadableName(b, pos) && Uncompressed(b, pos)
    ensures pos < |b| && 0 in b[pos..] && StrLen(b[pos..]) + 1 == NameLength(b, pos)
  {
    hide Decode, NameLength, Uncompressed;
    UncompressedZeros(b, pos, pos);
    ZeroAfter(b, pos, NameLength(b, pos) - 1);
  }

  lemma ZeroAfter(b: seq<byte>, pos: nat, n: nat)
    requires pos + n < |b| && b[pos + n] == 0
    requires forall q :: pos <= q < pos + n ==> b[q] != 0
    ensures 0 in b[pos..] && StrLen(b[pos..]) == n
  {
  }

  /** Where the ten fixed bytes of the record at pos begin: type, class, time to live, data length. */
  function FieldsAt(b: seq<byte>, pos: nat): nat {
    pos + NameLength(b, pos)
  }

  function DataAt(b: seq<byte>, pos: nat): nat {
    FieldsAt(b, pos) + RECORD_FIELDS
  }

  function RecordType(b: seq<byte>, pos: nat): nat
    requires DataAt(b, pos) <= |b|
  {
    U16(b, FieldsAt(b, pos))
  }

  function DataLength(b: seq<byte>, pos: nat): nat
    requires DataAt(b, pos) <= |b|
  {
    U16(b, FieldsAt(b, pos) + 8)
  }

  function RecordEnd(b: seq<byte>, pos: nat): nat
    requires DataAt(b, pos) <= |b|
  {
    DataAt(b, pos) + DataLength(b, pos)
  }

  function RecordData(b: seq<byte>, pos: nat): seq<byte>
    requires DataAt(b, pos) <= |b| && RecordEnd(b, pos) <= |b|
  {
    b[DataAt(b, pos)..RecordEnd(b, pos)]
  }

  /** All the walk needs at pos: a name it can read, and address data or a name it can read behind. */
  predicate WalkableAt(b: seq<byte>, pos: nat) {
    && ReadableName(b, pos) && DataAt(b, pos) <= |b|
    && (if RecordType(b, pos) == TYPE_A then RecordEnd(b, pos) <= |b| else ReadableName(b, DataAt(b, pos)))
  }

  /** Where the walk goes on: it takes the data length's word for addresses only. */
  function WalkEnd(b: seq<byte>, pos: nat): nat
    requires DataAt(b, pos) <= |b|
  {
    if RecordType(b, pos) == TYPE_A then RecordEnd(b, pos) else DataAt(b, pos) + NameLength(b, DataAt(b, pos))
  }

  /**
    A record at pos (section 4.1.3 of RFC 1035) the walk gets over: its data, unless it is an
    address, is one readable name that fills the data length.
   */
  predicate RecordAt(b: seq<byte>, pos: nat) {
    WalkableAt(b, pos) && RecordEnd(b, pos) <= |b| && WalkEnd(b, pos) == RecordEnd(b, pos)
  }

  predicate AddressAt(b: seq<byte>, pos: nat) {
    RecordAt(b, pos) && RecordType(b, pos) == TYPE_A && DataLength(b, pos) >= 4
  }

  /** Section 4.1 of RFC 1035: the answers follow the question. */
  function AnswersAt(b: seq<byte>): nat {
    HEADER + NameLength(b, HEADER) + QUESTION
  }

  function AnswerCount(b: seq<byte>): nat
    requires HEADER <= |b|
  {
    U16(b, 6)
  }

  /** The record the address is taken from: the second if the header counts more than one answer. */
  function ChosenRecord(b: seq<byte>): nat
    requires HEADER <= |b| && RecordAt(b, AnswersAt(b))
  {
    if AnswerCount(b) > 1 then RecordEnd(b, AnswersAt(b)) else AnswersAt(b)
  }

  /**
    A reply the resolver can serve: an uncompressed question, a record behind it, another one or,
    after a single answer, anything the walk can get over (the code always walks two), and an
    address in the record it takes the address from.
   */
  predicate Reply(b: seq<byte>) {
    && HEADER <= |b|
    && ReadableName(b, HEADER) && Uncompressed(b, HEADER)
    && RecordAt(b, AnswersAt(b)) && WalkableAt(b, RecordEnd(b, AnswersAt(b)))
    && (AnswerCount(b) > 1 ==> RecordAt(b, RecordEnd(b, AnswersAt(b))))
    && (AnswerCount(b) > 0 ==> AddressAt(b, ChosenRecord(b)))
  }

  /** The four address bytes of the chosen record; a reply without answers has none. */
  function ReplyAddress(b: seq<byte>): (a: Option<seq<byte>>)
    requires Reply(b)
    ensures a.Some? ==> |a.value| == 4
  {
    if AnswerCount(b) == 0 then None else Some(RecordData(b, ChosenRecord(b))[..4])
  }

  lemma WalkIgnoresTail(b: seq<byte>, tail: seq<byte>, pos: nat)
    requires WalkableAt(b, pos)
    ensures WalkableAt(b + tail, pos) && WalkEnd(b + tail, pos) == WalkEnd(b, pos)
    ensures RecordType(b + tail, pos) == RecordType(b, pos) && RecordEnd(b + tail, pos) == RecordEnd(b, pos)
    ensures DataAt(b + tail, pos) == DataAt(b, pos) <= |b|
  {
    hide Decode, NameLength, Flatten;
    DecodeIgnoresTail(b, tail, pos, pos);
    if RecordType(b, pos) != TYPE_A {
      DecodeIgnoresTail(b, tail, DataAt(b, pos), DataAt(b, pos));
    }
  }

  lemma RecordIgnoresTail(b: seq<byte>, tail: seq<byte>, pos: nat)
    requires RecordAt(b, pos)
    ensures RecordAt(b + tail, pos) && RecordEnd(b + tail, pos) == RecordEnd(b, pos)
    ensures RecordType(b + tail, pos) == RecordType(b, pos) && DataAt(b + tail, pos) == DataAt(b, pos)
    ensures RecordData(b + tail, pos) == RecordData(b, pos)
  {
    hide WalkableAt, WalkEnd, RecordType, NameLength;
    WalkIgnoresTail(b, tail, pos);
    assert (b + tail)[DataAt(b, pos)..RecordEnd(b, pos)] == b[DataAt(b, pos)..RecordEnd(b, pos)];
  }

  lemma {:induction false} UncompressedIgnoresTail(b: seq<byte>, tail: seq<byte>, pos: nat)
    requires Uncompressed(b, pos)
    ensures Uncompressed(b + tail, pos)
    decreases |b| - pos
  {
    if b[pos] != 0 {
      UncompressedIgnoresTail(b, tail, pos + 1 + b[pos]);
    }
  }

  lemma ReplyRecords(b: seq<byte>)
    requires Reply(b)
    ensures RecordAt(b, AnswersAt(b)) && DataAt(b, AnswersAt(b)) <= |b|
    ensures var second := RecordEnd(b, AnswersAt(b));
            && WalkableAt(b, second) && DataAt(b, second) <= |b|
            && (AnswerCount(b) > 1 ==> RecordAt(b, second))
    ensures RecordAt(b, AnswersAt(b)) && RecordEnd(b, AnswersAt(b)) <= |b|
  {
  }

  /** What a previous message left behind the reply in the buffer does not change its meaning. */
  lemma ReplyIgnoresTail(b: seq<byte>, tail: seq<byte>)
    requires Reply(b)
    ensures Reply(b + tail) && ReplyAddress(b + tail) == ReplyAddress(b)
  {
    hide Decode, NameLength, Flatten, Uncompressed, RecordAt, WalkableAt, RecordType, RecordData;
    DecodeIgnoresTail(b, tail, HEADER, HEADER);
    UncompressedIgnoresTail(b, tail, HEADER);
    ReplyRecords(b);
    RecordIgnoresTail(b, tail, AnswersAt(b));
    WalkIgnoresTail(b, tail, RecordEnd(b, AnswersAt(b)));
    if AnswerCount(b) > 1 {
      RecordIgnoresTail(b, tail, RecordEnd(b, AnswersAt(b)));
    }
  }

  /** The word read from the chosen record's data: `beyond` is whatever memory lies behind it. */
  function AddressWord(b: seq<byte>, beyond: seq<byte>): nat
    requires Reply(b) && AnswerCount(b) > 0 && |beyond| == 8
  {
    ReadLong(RecordData(b, ChosenRecord(b)) + [0] + beyond)
  }

  /** Only the low half of that word reaches the socket address, and it is the record's address. */
  lemma AddressWordIsAddress(b: seq<byte>, beyond: seq<byte>)
    requires Reply(b) && AnswerCount(b) > 0 && |beyond| == 8
    ensures StoreLow(AddressWord(b, beyond), 4) == ReplyAddress(b).value
  {
    hide RecordAt, StoreLow;
    AddressHasFour(b);
    var data := RecordData(b, ChosenRecord(b));
    var word := (data + [0] + beyond)[..8];
    StoreLowOfLittleEndian(word, 4);
    assert word[..4] == data[..4];
  }

  lemma AddressHasFour(b: seq<byte>)
    requires Reply(b) && AnswerCount(b) > 0
    ensures RecordAt(b, AnswersAt(b)) && AddressAt(b, ChosenRecord(b))
    ensures DataAt(b, ChosenRecord(b)) <= |b| && RecordEnd(b, ChosenRecord(b)) <= |b|
    ensures |RecordData(b, ChosenRecord(b))| >= 4
  {
  }

  // ---------------------------------------------------------------- the usual reply

  /**
    A reply to the query for `host` as servers lay it out (sections 4.1.2 to 4.1.4 of RFC 1035):
    the question echoed, an alias record owned by a pointer to the question, and an address record
    owned by a pointer to the alias inside the first record.
   */
  predicate AliasReply(b: seq<byte>, host: seq<byte>, alias: seq<byte>, address: seq<byte>)
    requires |address| == 4
  {
    var first := 12 + |host| + 2 + 4;
    var data := first + 12;
    var second := data + |alias| + 2;
    && second + 16 <= |b|
    && AnswerCount(b) > 1
    && b[12..12 + |host| + 2] == EncodeHost(host)
    && b[first] == 192 && b[first + 1] == 12
    && U16(b, first + 2) != 1 && U16(b, first + 10) == |alias| + 2
    && b[data..second] == EncodeHost(alias)
    && b[second] == 192 + data / 256 && b[second + 1] == data % 256
    && U16(b, second + 2) == 1 && U16(b, second + 10) == 4
    && b[second + 12..second + 16] == address
  }

  lemma JumpName(b: seq<byte>, pos: nat)
    requires pos + 1 < |b| && b[pos] >= JUMP && Target(b, pos) < pos && ReadableName(b, Target(b, pos))
    ensures ReadableName(b, pos) && NameLength(b, pos) == 2
    ensures Decode(b, pos, pos) == Decode(b, Target(b, pos), Target(b, pos))
  {
  }

  lemma {:induction false} EncodedIsUncompressed(b: seq<byte>, pos: nat, end: nat, ls: seq<Label>)
    requires WireLabels(ls) && pos <= end < |b| && b[pos..end] == Flatten(ls) && b[end] == 0
    ensures Uncompressed(b, pos)
    decreases |ls|
  {
    if ls != [] {
      var next := pos + 1 + |ls[0]|;
      CutBefore(b, pos, next, Prefixed(ls[0]), Flatten(ls[1..]));
      LabelAt(b, pos, ls[0]);
      EncodedIsUncompressed(b, next, end, ls[1..]);
    }
  }

  /** For every host, alias and address, the walk over such a reply ends up with the address. */
  lemma AliasReplyServed(b: seq<byte>, host: seq<byte>, alias: seq<byte>, address: seq<byte>)
    requires |address| == 4 && HostOk(host) && HostOk(alias)
    requires AliasReply(b, host, alias, address)
    ensures Reply(b) && ReplyAddress(b) == Some(address)
  {
    hide Decode, NameLength, Flatten, Split, Uncompressed, ReadableName, HostOk;
    var first := HEADER + |host| + 2 + QUESTION;
    var data := first + 2 + RECORD_FIELDS;
    var second := data + |alias| + 2;
    EncodeThenRead(b, HEADER, host);
    QuestionIsUncompressed(b, host);
    EncodeThenRead(b, data, alias);
    HostFits(alias);
    HostFits(host);
    JumpName(b, first);
    assert Target(b, second) == data;
    JumpName(b, second);
    assert RecordAt(b, first) && RecordEnd(b, first) == second;
    assert AddressAt(b, second);
    assert AnswersAt(b) == first && ChosenRecord(b) == second;
    assert RecordData(b, second)[..4] == address;
  }

  /**
    A reply of a single answer: the question echoed, and an address record owned by a pointer to
    the question. `end` is where the message ends.
   */
  predicate OneAnswer(b: seq<byte>, host: seq<byte>, address: seq<byte>)
    requires |address| == 4
  {
    var first := 12 + |host| + 2 + 4;
    && first + 16 <= |b|
    && AnswerCount(b) == 1
    && b[12..12 + |host| + 2] == EncodeHost(host)
    && b[first] == 192 && b[first + 1] == 12
    && U16(b, first + 2) == 1 && U16(b, first + 10) == 4
    && b[first + 12..first + 16] == address
  }

  function OneAnswerEnd(host: seq<byte>): nat {
    HEADER + |host| + 2 + QUESTION + 16
  }

  /** Zero bytes read as a record with empty names. */
  lemma ZerosAreWalkable(b: seq<byte>, pos: nat)
    requires pos + 12 <= |b| && forall k :: pos <= k < pos + 12 ==> b[k] == 0
    ensures WalkableAt(b, pos)
  {
    NameEnd(b, pos, pos);
    NameEnd(b, pos + 11, pos + 11);
  }

  /** Such a reply is served although the code looks for a second record, if zero bytes stand behind it. */
  lemma OneAnswerServed(b: seq<byte>, host: seq<byte>, address: seq<byte>)
    requires |address| == 4 && HostOk(host) && OneAnswer(b, host, address)
    requires var end := OneAnswerEnd(host); end + 12 <= |b| && forall k :: end <= k < end + 12 ==> b[k] == 0
    ensures Reply(b) && ReplyAddress(b) == Some(address)
  {
    hide Decode, NameLength, Flatten, Split, Uncompressed, ReadableName, HostOk;
    var first := HEADER + |host| + 2 + QUESTION;
    EncodeThenRead(b, HEADER, host);
    QuestionIsUncompressed(b, host);
    HostFits(host);
    JumpName(b, first);
    assert RecordAt(b, first) && RecordEnd(b, first) == OneAnswerEnd(host);
    ZerosAreWalkable(b, OneAnswerEnd(host));
    assert AnswersAt(b) == first && ChosenRecord(b) == first;
    assert RecordData(b, first)[..4] == address;
  }

  lemma HostFits(host: seq<byte>)
    requires HostOk(host)
    ensures |host| < 255
  {
  }

  lemma QuestionIsUncompressed(b: seq<byte>, host: seq<byte>)
    requires HostOk(host)
    requires HEADER + |host| + 2 <= |b| && b[HEADER..HEADER + |host| + 2] == EncodeHost(host)
    ensures Uncompressed(b, HEADER)
  {
    EncodeHostLength(host);
    CutBefore(b, HEADER, HEADER + |host| + 1, Flatten(Split(host)), [0]);
    assert b[HEADER + |host| + 1..HEADER + |host| + 2][0] == 0;
    EncodedIsUncompressed(b, HEADER, HEADER + |host| + 1, Split(host));
  }
}
