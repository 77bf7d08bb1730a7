// The byte-wise name code of net_lab7/DNSResolver.cpp: ReadName and ChangetoDnsNameFormat.
module DnsCodec {
  import opened Bytes
  import opened Wrappers
  import opened DnsName
  import opened DnsScan

  const NAME_BUFFER := 256

  /** A name `ReadName` serves: it decodes, its bytes are plain and it fits the name buffer. */
  predicate ReadableName(b: seq<byte>, pos: nat) {
    && Decode(b, pos, pos).Some?
    && PlainLabels(Decode(b, pos, pos).value)
    && |Flatten(Decode(b, pos, pos).value)| < NAME_BUFFER
  }

  // ---------------------------------------------------------------- ReadName

  /**
    First half of ReadName: collect the bytes of the name and count what it takes up here. Served
    wherever the loop finds a zero byte, after any pointers, and the bytes fit the name buffer.
   */
  method ScanName(buffer: array<byte>, start: nat, name: array<byte>, ghost n: nat) returns (p: nat, count: nat)
    requires name != buffer && name.Length == NAME_BUFFER
    requires EndsAfter(buffer[..], start, n) && |ScanText(buffer[..], start, n)| < NAME_BUFFER
    modifies name
    ensures p < NAME_BUFFER && name[..p] == ScanText(buffer[..], start, n)
    ensures name[p] == 0
    ensures count == ScanLength(buffer[..], start)
  {
    hide *;
    ghost var b := buffer[..];
    ghost var k := n;
    var reader: int := start;
    var jumped := false;
    p, count := 0, 1;
    name[0] := 0;
    EndsUnfold(b, start, k);
    while buffer[reader] != 0
      invariant 0 <= reader < buffer.Length && 0 <= p < NAME_BUFFER
      invariant buffer[..] == b
      invariant EndsAfter(b, reader, k)
      invariant name[..p] + ScanText(b, reader, k) == ScanText(b, start, n)
      invariant !jumped ==> count - 1 + ScanLength(b, reader) == ScanLength(b, start)
      invariant jumped ==> count + 1 == ScanLength(b, start)
      decreases k
    {
      EndsUnfold(b, reader, k);
      if buffer[reader] >= JUMP {
        var offset := (buffer[reader] as int) * 256 + buffer[reader + 1] - 49152;
        reader := offset - 1;
        jumped := true;
      } else {
        SeqAssociates(name[..p], [b[reader]], ScanText(b, reader + 1, k - 1));
        ghost var text := name[..p];
        name[p] := buffer[reader];
        p := p + 1;
        assert name[..p] == text + [b[reader]];
      }
      reader := reader + 1;
      if !jumped {
        count := count + 1;
      }
      k := k - 1;
      EndsUnfold(b, reader, k);
    }
    EndsUnfold(b, reader, k);
    name[p] := 0;
    if jumped {
      count := count + 1;
    }
  }

  /** One iteration of the scanning loop as the specification sees it. */
  lemma EndsUnfold(b: seq<byte>, pos: nat, n: nat)
    requires EndsAfter(b, pos, n)
    ensures pos < |b|
    ensures b[pos] == 0 ==> ScanText(b, pos, n) == [] && ScanLength(b, pos) == 1
    ensures b[pos] != 0 ==> n > 0
    ensures b[pos] >= JUMP ==>
      && pos + 1 < |b| && ScanLength(b, pos) == 2
      && var target := (b[pos] as int) * 256 + b[pos + 1] - 49152;
         0 <= target && EndsAfter(b, target, n - 1) && ScanText(b, pos, n) == ScanText(b, target, n - 1)
    ensures 0 < b[pos] < JUMP ==>
      && EndsAfter(b, pos + 1, n - 1) && ScanLength(b, pos) == 1 + ScanLength(b, pos + 1)
      && ScanText(b, pos, n) == [b[pos]] + ScanText(b, pos + 1, n - 1)
  {
  }

  lemma {:induction false} TextHasNoZero(ls: seq<Label>)
    requires WireLabels(ls) && PlainLabels(ls)
    ensures 0 !in Dotted(ls) && 0 !in Flatten(ls)
  {
    if ls != [] {
      var l, rest := ls[0], ls[1..];
      assert l in ls && forall r <- rest :: r in ls;
      TextHasNoZero(rest);
      assert Prefixed(l)[0] != 0 && 0 !in Prefixed(l)[1..];
    }
  }

  /** Overwriting a length-prefixed label by the label and a dot moves the pass by one label. */
  lemma OneMoreLabel(labels: seq<Label>, k: nat, i: nat, total: nat, before: seq<byte>, after: seq<byte>)
    requires k < |labels| && i <= total <= |before| == |after|
    requires before[..i] == Dotted(labels[..k]) && before[i..total] == Flatten(labels[k..])
    requires i + |labels[k]| < total && after[..i] == before[..i]
    requires after[i..i + |labels[k]|] == labels[k] && after[i + |labels[k]|] == DOT
    requires after[i + |labels[k]| + 1..] == before[i + |labels[k]| + 1..]
    ensures after[..i + |labels[k]| + 1] == Dotted(labels[..k + 1])
    ensures after[i + |labels[k]| + 1..total] == Flatten(labels[k + 1..])
  {
    OneMoreDotted(labels, k, i, after);
    var l, next, rest := labels[k], i + |labels[k]| + 1, Flatten(labels[k + 1..]);
    assert labels[k..][1..] == labels[k + 1..];
    assert before[i..total] == Prefixed(l) + rest;
    assert before[i..total][1 + |l|..total - i] == rest;
    SubSlice(before, i, total, 1 + |l|, total - i);
    SameSlice(after, before, next, total);
  }

  lemma OneMoreDotted(labels: seq<Label>, k: nat, i: nat, after: seq<byte>)
    requires k < |labels| && i + |labels[k]| < |after|
    requires after[..i] == Dotted(labels[..k])
    requires after[i..i + |labels[k]|] == labels[k] && after[i + |labels[k]|] == DOT
    ensures after[..i + |labels[k]| + 1] == Dotted(labels[..k + 1])
  {
    var l, next := labels[k], i + |labels[k]| + 1;
    assert labels[..k + 1] == labels[..k] + [l];
    DottedAppend(labels[..k], [l]);
    assert Dotted([l]) == l + [DOT];
    assert after[..next] == after[..i] + (after[i..next - 1] + [after[next - 1]]);
  }

  lemma NextLabel(labels: seq<Label>, k: nat, name: seq<byte>, i: nat, total: nat)
    requires k < |labels| && WireLabels(labels)
    requires i <= total <= |name| && name[i..total] == Flatten(labels[k..])
    ensures i + |labels[k]| < total
    ensures name[i] == |labels[k]| && name[i + 1..i + 1 + |labels[k]|] == labels[k]
  {
    var l := labels[k];
    assert Flatten(labels[k..]) == Prefixed(l) + Flatten(labels[k + 1..]) by {
      assert labels[k..][1..] == labels[k + 1..];
    }
    var f := name[i..total];
    assert |f| >= 1 + |l| && f[..1 + |l|] == Prefixed(l);
    assert name[i] == f[0] == |l|;
    SubSlice(name, i, total, 1, 1 + |l|);
    assert f[1..1 + |l|] == Prefixed(l)[1..];
  }

  /** Where the pass stands, so that the C string it looks at keeps its length. */
  lemma PassLength(labels: seq<Label>, k: nat, name: seq<byte>, i: nat, total: nat)
    requires k <= |labels| && WireLabels(labels) && PlainLabels(labels)
    requires i <= total < |name| && name[total] == 0
    requires name[..i] == Dotted(labels[..k]) && name[i..total] == Flatten(labels[k..])
    ensures 0 in name && StrLen(name) == total
    ensures i < total <==> k < |labels|
  {
    hide Dotted, Flatten, PlainBytes;
    TextHasNoZero(labels[..k]);
    TextHasNoZero(labels[k..]);
    assert name[..total] == name[..i] + name[i..total];
    StrLenIs(name, total);
    NothingLeftIff(labels, k);
  }

  lemma NothingLeftIff(labels: seq<Label>, k: nat)
    requires k <= |labels|
    ensures Flatten(labels[k..]) == [] <==> k == |labels|
  {
  }

  /**
    One round of the pass: shift the label at i over its length byte and put a dot behind it. The
    inner loop moves the index of the outer one, so the new index goes back to the caller.
   */
  method ShiftLabel(name: array<byte>, start: nat) returns (i: nat)
    requires start < name.Length && start + name[start] < name.Length
    modifies name
    ensures i == start + old(name[start])
    ensures name[..start] == old(name[..start]) && name[i + 1..] == old(name[i + 1..])
    ensures name[start..i] == old(name[start + 1..i + 1]) && name[i] == DOT
  {
    ghost var before := name[..];
    i := start;
    var p, j := name[i], 0;
    while j < p
      invariant j <= p && i == start + j
      invariant forall q :: 0 <= q < start || i <= q < name.Length ==> name[q] == before[q]
      invariant forall q :: start <= q < i ==> name[q] == before[q + 1]
    {
      name[i] := name[i + 1];
      i := i + 1;
      j := j + 1;
    }
    name[i] := DOT;
  }

  lemma NothingDotted(labels: seq<Label>)
    ensures Dotted(labels[..0]) == [] && labels[0..] == labels
  {
  }

  /**
    Second half of ReadName, in place: every length byte makes room for the label behind it, and
    a dot takes the last place.
   */
  method LengthsToDots(name: array<byte>, ghost labels: seq<Label>) returns (i: nat)
    requires WireLabels(labels) && PlainLabels(labels)
    requires |Flatten(labels)| < name.Length
    requires name[..|Flatten(labels)|] == Flatten(labels) && name[|Flatten(labels)|] == 0
    modifies name
    ensures i == |Flatten(labels)|
    ensures name[..i] == Dotted(labels)
    ensures name[i..] == old(name[i..])
  {
    hide *;
    ghost var total := |Flatten(labels)|;
    ghost var k := 0;
    i := 0;
    NothingDotted(labels);
    PassLength(labels, 0, name[..], 0, total);
    while i < StrLen(name[..])
      invariant k <= |labels| && i <= total
      invariant name[..i] == Dotted(labels[..k])
      invariant name[i..total] == Flatten(labels[k..])
      invariant name[total..] == old(name[total..])
      invariant 0 in name[..] && StrLen(name[..]) == total
      decreases total - i
    {
      PassLength(labels, k, name[..], i, total);
      NextLabel(labels, k, name[..], i, total);
      ghost var before, start := name[..], i;
      i := ShiftLabel(name, i);
      OneMoreLabel(labels, k, start, total, before, name[..]);
      i := i + 1;
      k := k + 1;
      PassLength(labels, k, name[..], i, total);
    }
    PassLength(labels, k, name[..], i, total);
    assert labels[..k] == labels;
  }

  /** ReadName: the text of the name at `reader`, and how far the caller has to move on. */
  method ReadName(buffer: array<byte>, reader: nat) returns (name: array<byte>, count: nat)
    requires ReadableName(buffer[..], reader)
    ensures fresh(name) && name.Length == NAME_BUFFER
    ensures 0 in name[..]
    ensures CString(name[..]) == Join(Decode(buffer[..], reader, reader).value)
    ensures count == NameLength(buffer[..], reader)
  {
    ghost var labels := Decode(buffer[..], reader, reader).value;
    DecodeLabels(buffer[..], reader, reader);
    ScanCollectsLabels(buffer[..], reader, reader);
    name := new byte[NAME_BUFFER];
    ghost var n := BackwardJumpsEnd(buffer[..], reader, reader);
    var p;
    p, count := ScanName(buffer, reader, name, n);
    var i := LengthsToDots(name, labels);
    FlattenLength(labels);
    TextHasNoZero(labels);
    StrLenIs(name[..], i);
    if StrLen(name[..]) > 0 {
      name[i - 1] := 0;
      DottedIsJoinAndDot(labels);
      StrLenIs(name[..], i - 1);
    }
  }

  // ---------------------------------------------------------------- ChangetoDnsNameFormat

  /** The encoding of a host: its labels behind their lengths, then the zero byte. */
  function EncodeHost(host: seq<byte>): seq<byte> {
    Flatten(Split(host)) + [0]
  }

  lemma EncodeHostLength(host: seq<byte>)
    ensures EncodeHost(host) == Flatten(Split(host)) + [0]
    ensures |Flatten(Split(host))| == |host| + 1 && |EncodeHost(host)| == |host| + 2
  {
  }

  /** What is still to be encoded when the labels before `lock` are done. */
  function Unencoded(host: seq<byte>, lock: nat): seq<byte>
    requires lock <= |host| + 1
  {
    if lock <= |host| then Flatten(Split(host[lock..])) else []
  }

  lemma EncodeNext(host: seq<byte>, lock: nat, i: nat)
    requires lock <= i <= |host| && DOT !in host[lock..i]
    requires i < |host| ==> host[i] == DOT
    ensures Unencoded(host, lock) == Prefixed(host[lock..i]) + Unencoded(host, i + 1)
  {
    var a := host[lock..i];
    if i < |host| {
      assert host[lock..] == a + [DOT] + host[i + 1..];
      SplitAtDot(a, host[i + 1..]);
      FlattenAppend([a], Split(host[i + 1..]));
    } else {
      assert host[lock..] == a;
      SplitAtDot(a, []);
    }
    assert Flatten([a]) == Prefixed(a) + Flatten([]);
  }

  /** A label of host begins at `lock`, so the encoding of the rest begins there too. */
  ghost predicate LabelStart(host: seq<byte>, lock: nat) {
    && lock <= |host| + 1 == |Flatten(Split(host))|
    && Flatten(Split(host))[lock..] == Unencoded(host, lock)
  }

  lemma FirstLabelStart(host: seq<byte>)
    ensures LabelStart(host, 0)
  {
    EncodeHostLength(host);
    assert host[0..] == host;
  }

  lemma LabelStep(host: seq<byte>, lock: nat, i: nat)
    requires LabelStart(host, lock) && lock <= i <= |host|
    requires DOT !in host[lock..i] && (i < |host| ==> host[i] == DOT)
    ensures LabelStart(host, i + 1)
    ensures Flatten(Split(host))[lock..i + 1] == Prefixed(host[lock..i])
  {
    hide Flatten, Split, Prefixed, Unencoded, LabelStart;
    EncodeNext(host, lock, i);
    StartAfter(host, lock, i, host[lock..i]);
  }

  lemma StartAfter(host: seq<byte>, lock: nat, i: nat, l: Label)
    requires LabelStart(host, lock) && lock <= i <= |host| && |l| == i - lock
    requires Unencoded(host, lock) == Prefixed(l) + Unencoded(host, i + 1)
    ensures LabelStart(host, i + 1)
    ensures i + 1 <= |Flatten(Split(host))| && Flatten(Split(host))[lock..i + 1] == Prefixed(l)
  {
    hide Flatten, Split, Prefixed, Unencoded;
    CutAfter(Flatten(Split(host)), lock, i + 1, Prefixed(l), Unencoded(host, i + 1));
  }

  lemma CutAfter(code: seq<byte>, at: nat, end: nat, piece: seq<byte>, rest: seq<byte>)
    requires at <= |code| && end == at + |piece| && code[at..] == piece + rest
    ensures end <= |code| && code[at..end] == piece && code[end..] == rest
  {
  }

  /** The inner loop: the label tmp[start..i] behind its length; both pointers end up past it. */
  method EmitLabel(buf: array<byte>, at: nat, tmp: seq<byte>, start: nat, i: nat) returns (dns: nat, lock: nat)
    requires start <= i <= |tmp| && at + 1 + (i - start) <= buf.Length
    modifies buf
    ensures lock == i && dns == at + 1 + (i - start)
    ensures buf[at..dns] == Prefixed(tmp[start..i])
    ensures buf[..at] == old(buf[..at]) && buf[dns..] == old(buf[dns..])
  {
    dns, lock := at, start;
    buf[dns] := (i - lock) % 256;
    dns := dns + 1;
    while lock < i
      invariant start <= lock <= i && dns == at + 1 + (lock - start)
      invariant buf[at] == (i - start) % 256
      invariant forall q :: at < q < dns ==> buf[q] == tmp[start + q - at - 1]
      invariant forall q :: 0 <= q < at || dns <= q < buf.Length ==> buf[q] == old(buf[q])
    {
      buf[dns] := tmp[lock];
      dns := dns + 1;
      lock := lock + 1;
    }
    assert buf[at + 1..dns] == tmp[start..i];
    assert buf[at..dns] == [buf[at]] + buf[at + 1..dns];
  }

  /** A further piece of `code` written at its place, with everything around it kept. */
  lemma PieceWritten(code: seq<byte>, before: seq<byte>, now: seq<byte>, at: nat, start: nat, end: nat, limit: nat)
    requires start <= end <= |code| && at + end <= limit <= |now| == |before|
    requires before[at..at + start] == code[..start] && now[at + start..at + end] == code[start..end]
    requires now[..at + start] == before[..at + start] && now[at + end..] == before[at + end..]
    ensures now[at..at + end] == code[..end]
    ensures now[..at] == before[..at] && now[limit..] == before[limit..]
  {
  }

  /** strcpy and strcat into the scratch buffer: the host, a dot, the zero byte. */
  method CopyWithDot(host: seq<byte>) returns (tmp: seq<byte>)
    requires 0 !in host
    ensures tmp == host + [DOT, 0]
    ensures 0 in tmp && StrLen(tmp) == |host| + 1
  {
    tmp := host + [DOT, 0];
    assert tmp[..|host| + 1] == host + [DOT];
    StrLenIs(tmp, |host| + 1);
  }

  /** At a dot: the label since the last one is written, and both pointers are past it. */
  method EmitHostLabel(buf: array<byte>, at: nat, host: seq<byte>, tmp: seq<byte>, start: nat, i: nat)
    returns (dns: nat, lock: nat)
    requires tmp == host + [DOT, 0] && start <= i <= |host| && at + |host| + 2 <= buf.Length
    requires DOT !in tmp[start..i] && tmp[i] == DOT
    requires LabelStart(host, start) && buf[at..at + start] == Flatten(Split(host))[..start]
    modifies buf
    ensures lock == i + 1 && dns == at + lock
    ensures LabelStart(host, lock) && buf[at..dns] == Flatten(Split(host))[..lock]
    ensures buf[..at] == old(buf[..at]) && buf[at + |host| + 2..] == old(buf[at + |host| + 2..])
  {
    hide *;
    ghost var code, before := Flatten(Split(host)), buf[..];
    assert tmp[start..i] == host[start..i];
    LabelStep(host, start, i);
    EncodeHostLength(host);
    dns, lock := EmitLabel(buf, at + start, tmp, start, i);
    PieceWritten(code, before, buf[..], at, start, i + 1, at + |host| + 2);
    lock := lock + 1;
  }

  /** ChangetoDnsNameFormat: writes the encoding of a dotted host at `at` and touches nothing else. */
  method ChangeToDnsNameFormat(buf: array<byte>, at: nat, host: seq<byte>)
    requires 0 !in host
    requires at + |host| + 2 <= buf.Length
    modifies buf
    ensures buf[at..at + |host| + 2] == EncodeHost(host)
    ensures buf[..at] == old(buf[..at])
    ensures buf[at + |host| + 2..] == old(buf[at + |host| + 2..])
  {
    hide *;
    var tmp := CopyWithDot(host);
    ghost var code, limit := Flatten(Split(host)), at + |host| + 2;
    EncodeHostLength(host);
    FirstLabelStart(host);
    var dns, lock, i := at, 0, 0;
    while i < StrLen(tmp)
      invariant lock <= i <= |host| + 1 && (i == |host| + 1 ==> lock == i)
      invariant dns == at + lock && DOT !in tmp[lock..i]
      invariant LabelStart(host, lock)
      invariant buf[at..dns] == code[..lock]
      invariant buf[..at] == old(buf[..at]) && buf[limit..] == old(buf[limit..])
    {
      if tmp[i] == DOT {
        dns, lock := EmitHostLabel(buf, at, host, tmp, lock, i);
      } else {
        assert tmp[lock..i + 1] == tmp[lock..i] + [tmp[i]];
      }
      i := i + 1;
    }
    buf[dns] := 0;
    assert buf[at..dns] == code;
  }

  // ---------------------------------------------------------------- encoding, then reading

  /** A host whose encoding `ReadName` can read back. */
  predicate HostOk(host: seq<byte>) {
    WireLabels(Split(host)) && PlainBytes(host) && |host| + 1 < NAME_BUFFER
  }

  lemma HostOkIsPlain(host: seq<byte>)
    requires PlainBytes(host)
    ensures PlainLabels(Split(host))
  {
    forall l | l in Split(host) ensures PlainBytes(l) {
      SplitBytes(host, l);
    }
  }

  /** Wherever the encoding of a host stands in a buffer, reading it gives the host back. */
  lemma EncodeThenRead(b: seq<byte>, pos: nat, host: seq<byte>)
    requires HostOk(host)
    requires pos + |host| + 2 <= |b| && b[pos..pos + |host| + 2] == EncodeHost(host)
    ensures ReadableName(b, pos)
    ensures Join(Decode(b, pos, pos).value) == host
    ensures NameLength(b, pos) == |host| + 2
  {
    var ls, end := Split(host), pos + |host| + 1;
    EncodeHostLength(host);
    HostOkIsPlain(host);
    JoinSplit(host);
    CutBefore(b, pos, end, Flatten(ls), [0]);
    assert Decode(b, end, pos) == Some([]) && NameLength(b, end) == 1;
    DecodeRun(b, pos, end, pos, ls);
    assert ls + [] == ls;
  }

  lemma CutBefore(b: seq<byte>, pos: nat, end: nat, x: seq<byte>, y: seq<byte>)
    requires end == pos + |x| && end + |y| <= |b| && b[pos..end + |y|] == x + y
    ensures b[pos..end] == x && b[end..end + |y|] == y
  {
    SubSlice(b, pos, end + |y|, 0, |x|);
    SubSlice(b, pos, end + |y|, |x|, |x| + |y|);
    assert (x + y)[..|x|] == x && (x + y)[|x|..] == y;
  }

  /** The length byte of some label reads as zero. */
  predicate HasZeroLength(ls: seq<Label>) {
    exists l <- ls :: |l| % 256 == 0
  }

  lemma {:induction false} FlattenZeroIff(ls: seq<Label>)
    requires forall l <- ls :: 0 !in l
    ensures 0 in Flatten(ls) <==> HasZeroLength(ls)
  {
    if ls != [] {
      var l, rest := ls[0], ls[1..];
      FlattenZeroIff(rest);
      assert 0 in Prefixed(l) <==> |l| % 256 == 0 by {
        assert Prefixed(l) == [|l| % 256] + l;
      }
      assert 0 in Flatten(ls) <==> 0 in Prefixed(l) || 0 in Flatten(rest);
      assert HasZeroLength(ls) <==> |l| % 256 == 0 || HasZeroLength(rest) by {
        assert l in ls && forall r <- rest :: r in ls;
        assert forall r <- ls :: r == l || r in rest;
      }
    }
  }

  /**
    strlen finds the end of the encoding exactly when no label has a length that is stored as
    zero. An empty label (two dots in a row, a dot at either end, an empty host) is such a label.
   */
  lemma EncodedStrLenIff(host: seq<byte>)
    requires 0 !in host
    ensures 0 in EncodeHost(host)
    ensures StrLen(EncodeHost(host)) == |host| + 1 <==> !HasZeroLength(Split(host))
  {
    var code := Flatten(Split(host));
    EncodeHostLength(host);
    assert EncodeHost(host)[|host| + 1] == 0;
    forall l | l in Split(host) ensures 0 !in l {
      SplitBytes(host, l);
    }
    FlattenZeroIff(Split(host));
    assert EncodeHost(host)[..|host| + 1] == code;
    if 0 !in code {
      StrLenIs(EncodeHost(host), |host| + 1);
    }
  }
}
