// Domain names on the wire (sections 3.1 and 4.1.4 of RFC 1035), label by label.
// This is the reference the byte-wise code in DnsCodec.dfy is proved against.
module DnsName {
  import opened Bytes
  import opened Wrappers

  type Label = seq<byte>

  const JUMP: byte := 192

  // ---------------------------------------------------------------- text

  /** The labels of a dotted host; an empty host is one empty label. */
  function Split(host: seq<byte>): (ls: seq<Label>)
    ensures |ls| >= 1
  {
    if host == [] then [[]]
    else if host[0] == DOT then [[]] + Split(host[1..])
    else
      var ls := Split(host[1..]);
      [[host[0]] + ls[0]] + ls[1..]
  }

  /** Labels with a dot between neighbours. */
  function Join(ls: seq<Label>): seq<byte> {
    if ls == [] then []
    else if |ls| == 1 then ls[0]
    else ls[0] + [DOT] + Join(ls[1..])
  }

  /** Labels with a dot after each one. */
  function Dotted(ls: seq<Label>): seq<byte> {
    if ls == [] then [] else ls[0] + [DOT] + Dotted(ls[1..])
  }

  lemma {:induction false} JoinSplit(host: seq<byte>)
    ensures Join(Split(host)) == host
  {
    if host != [] {
      var ls := Split(host[1..]);
      JoinSplit(host[1..]);
      if host[0] == DOT {
        assert Split(host)[1..] == ls;
      } else {
        assert Split(host)[1..] == ls[1..];
      }
    }
  }

  lemma {:induction false} SplitAtDot(a: Label, rest: seq<byte>)
    requires DOT !in a
    ensures Split(a) == [a]
    ensures Split(a + [DOT] + rest) == [a] + Split(rest)
  {
    var whole := a + [DOT] + rest;
    if a == [] {
      assert whole[1..] == rest;
    } else {
      SplitAtDot(a[1..], rest);
      assert whole[1..] == a[1..] + [DOT] + rest;
      assert [a[0]] + a[1..] == a;
      assert ([a[1..]] + Split(rest))[1..] == Split(rest);
    }
  }

  lemma {:induction false} SplitJoin(ls: seq<Label>)
    requires ls != [] && forall l <- ls :: DOT !in l
    ensures Split(Join(ls)) == ls
  {
    if |ls| == 1 {
      SplitAtDot(ls[0], []);
    } else {
      SplitJoin(ls[1..]);
      SplitAtDot(ls[0], Join(ls[1..]));
      assert ls == [ls[0]] + ls[1..];
    }
  }

  lemma {:induction false} DottedIsJoinAndDot(ls: seq<Label>)
    requires ls != []
    ensures Dotted(ls) == Join(ls) + [DOT]
  {
    if |ls| == 1 {
      assert Dotted(ls[1..]) == [];
    } else {
      DottedIsJoinAndDot(ls[1..]);
    }
  }

  lemma {:induction false} SplitBytes(host: seq<byte>, l: Label)
    requires l in Split(host)
    ensures DOT !in l
    ensures forall c <- l :: c in host
  {
    if host != [] {
      var ls := Split(host[1..]);
      if l in ls {
        SplitBytes(host[1..], l);
      } else if host[0] != DOT {
        assert l == [host[0]] + ls[0];
        SplitBytes(host[1..], ls[0]);
      }
    }
  }

  // ---------------------------------------------------------------- wire form

  /** A label behind its length, which is stored in one byte. */
  function Prefixed(l: Label): (p: seq<byte>)
    ensures |p| == 1 + |l| && p[1..] == l
  {
    [|l| % 256] + l
  }

  function Flatten(ls: seq<Label>): seq<byte> {
    if ls == [] then [] else Prefixed(ls[0]) + Flatten(ls[1..])
  }

  lemma {:induction false} FlattenAppend(a: seq<Label>, b: seq<Label>)
    ensures Flatten(a + b) == Flatten(a) + Flatten(b)
  {
    if a == [] {
      assert a + b == b;
    } else {
      FlattenAppend(a[1..], b);
      assert (a + b)[1..] == a[1..] + b;
      SeqAssociates(Prefixed(a[0]), Flatten(a[1..]), Flatten(b));
    }
  }

  lemma {:induction false} DottedAppend(a: seq<Label>, b: seq<Label>)
    ensures Dotted(a + b) == Dotted(a) + Dotted(b)
  {
    if a == [] {
      assert a + b == b;
    } else {
      DottedAppend(a[1..], b);
      assert (a + b)[1..] == a[1..] + b;
      SeqAssociates(a[0] + [DOT], Dotted(a[1..]), Dotted(b));
    }
  }

  lemma {:induction false} FlattenLength(ls: seq<Label>)
    ensures |Flatten(ls)| == |Dotted(ls)|
  {
    if ls != [] {
      FlattenLength(ls[1..]);
    }
  }

  predicate WireLabels(ls: seq<Label>) {
    forall l <- ls :: 1 <= |l| <= 63
  }

  /** The bytes that neither end a scan nor look like a pointer. */
  predicate PlainBytes(s: seq<byte>) {
    forall c <- s :: 1 <= c < 192
  }

  predicate PlainLabels(ls: seq<Label>) {
    forall l <- ls :: PlainBytes(l)
  }

  /** Where the pointer at pos points (section 4.1.4 of RFC 1035). */
  function Target(b: seq<byte>, pos: nat): nat
    requires pos + 1 < |b| && b[pos] >= JUMP
  {
    (b[pos] as int - 192) * 256 + b[pos + 1]
  }

  /**
    The labels of the name at pos. A name is labels followed by a zero byte or by a pointer to
    the rest; run is where the current stretch of labels began, and a pointer has to go strictly
    before it (a prior occurrence).
   */
  function Decode(b: seq<byte>, pos: nat, run: nat): Option<seq<Label>>
    decreases run, |b| - pos
  {
    if pos >= |b| then None
    else if b[pos] == 0 then Some([])
    else if b[pos] >= 192 then
      if pos + 1 < |b| && Target(b, pos) < run then Decode(b, Target(b, pos), Target(b, pos)) else None
    else if b[pos] > 63 || pos + 1 + b[pos] > |b| then None
    else
      match Decode(b, pos + 1 + b[pos], run)
      case None => None
      case Some(rest) => Some([b[pos + 1..pos + 1 + b[pos]]] + rest)
  }

  /** How many bytes the name at pos takes up there: a pointer is the last two of them. */
  function NameLength(b: seq<byte>, pos: nat): nat
    decreases |b| - pos
  {
    if pos >= |b| then 0
    else if b[pos] == 0 then 1
    else if b[pos] >= 192 then 2
    else 1 + b[pos] + NameLength(b, pos + 1 + b[pos])
  }

  /** The name at pos goes on to its zero byte without a pointer. */
  predicate Uncompressed(b: seq<byte>, pos: nat)
    decreases |b| - pos
  {
    pos < |b| && (b[pos] == 0 || (b[pos] < JUMP && Uncompressed(b, pos + 1 + b[pos])))
  }

  lemma {:induction false} DecodeLabels(b: seq<byte>, pos: nat, run: nat)
    requires Decode(b, pos, run).Some?
    ensures WireLabels(Decode(b, pos, run).value)
    ensures NameLength(b, pos) >= 1 && pos + NameLength(b, pos) <= |b|
    decreases run, |b| - pos
  {
    if b[pos] == 0 {
    } else if b[pos] >= JUMP {
      DecodeLabels(b, Target(b, pos), Target(b, pos));
    } else {
      DecodeLabels(b, pos + 1 + b[pos], run);
    }
  }

  /** A name is found where its labels were written, in front of whatever name comes next. */
  lemma {:induction false} DecodeRun(b: seq<byte>, pos: nat, end: nat, run: nat, ls: seq<Label>)
    requires WireLabels(ls)
    requires pos <= end <= |b| && b[pos..end] == Flatten(ls)
    requires Decode(b, end, run).Some?
    ensures Decode(b, pos, run) == Some(ls + Decode(b, end, run).value)
    ensures NameLength(b, pos) == end - pos + NameLength(b, end)
    decreases |ls|
  {
    hide Decode, NameLength, Flatten;
    var rest := Decode(b, end, run).value;
    if ls == [] {
      FlattenNone();
      assert ls + rest == rest;
    } else {
      var next := pos + 1 + |ls[0]|;
      FlattenFirst(b, pos, end, ls);
      DecodeRun(b, next, end, run, ls[1..]);
      DecodeLabel(b, pos, run, ls[0]);
      SeqAssociates([ls[0]], ls[1..], rest);
      assert [ls[0]] + ls[1..] == ls;
    }
  }

  /** Nor is a name found where what comes behind its first labels cannot be read. */
  lemma {:induction false} DecodeRunNone(b: seq<byte>, pos: nat, end: nat, run: nat, ls: seq<Label>)
    requires WireLabels(ls)
    requires pos <= end <= |b| && b[pos..end] == Flatten(ls)
    requires Decode(b, end, run).None?
    ensures Decode(b, pos, run).None?
    decreases |ls|
  {
    hide Flatten;
    if ls != [] {
      var next := pos + 1 + |ls[0]|;
      FlattenFirst(b, pos, end, ls);
      LabelAt(b, pos, ls[0]);
      DecodeRunNone(b, next, end, run, ls[1..]);
    } else {
      assert Flatten(ls) == [] by { FlattenNone(); }
    }
  }

  lemma FlattenNone()
    ensures Flatten([]) == []
  {
  }

  lemma FlattenFirst(b: seq<byte>, pos: nat, end: nat, ls: seq<Label>)
    requires ls != [] && pos <= end <= |b| && b[pos..end] == Flatten(ls)
    ensures var next := pos + 1 + |ls[0]|;
            next <= end && b[pos..next] == Prefixed(ls[0]) && b[next..end] == Flatten(ls[1..])
  {
    SplitSlice(b, pos, end, Prefixed(ls[0]), Flatten(ls[1..]));
  }

  lemma SplitSlice(b: seq<byte>, pos: nat, end: nat, x: seq<byte>, y: seq<byte>)
    requires pos <= end <= |b| && b[pos..end] == x + y
    ensures pos + |x| <= end && b[pos..pos + |x|] == x && b[pos + |x|..end] == y
  {
    SubSlice(b, pos, end, 0, |x|);
    SubSlice(b, pos, end, |x|, end - pos);
    assert (x + y)[..|x|] == x && (x + y)[|x|..] == y;
  }

  lemma DecodeLabel(b: seq<byte>, pos: nat, run: nat, l: Label)
    requires 1 <= |l| <= 63
    requires pos + 1 + |l| <= |b| && b[pos..pos + 1 + |l|] == Prefixed(l)
    requires Decode(b, pos + 1 + |l|, run).Some?
    ensures Decode(b, pos, run) == Some([l] + Decode(b, pos + 1 + |l|, run).value)
    ensures NameLength(b, pos) == 1 + |l| + NameLength(b, pos + 1 + |l|)
  {
    hide Prefixed;
    LabelAt(b, pos, l);
  }

  lemma LabelAt(b: seq<byte>, pos: nat, l: Label)
    requires 1 <= |l| <= 63
    requires pos + 1 + |l| <= |b| && b[pos..pos + 1 + |l|] == Prefixed(l)
    ensures b[pos] == |l| && b[pos + 1..pos + 1 + |l|] == l
  {
  }

  /** Only the message itself is read: bytes after its end change nothing. */
  lemma {:induction false} DecodeIgnoresTail(b: seq<byte>, tail: seq<byte>, pos: nat, run: nat)
    requires Decode(b, pos, run).Some?
    ensures Decode(b + tail, pos, run) == Decode(b, pos, run)
    ensures NameLength(b + tail, pos) == NameLength(b, pos)
    decreases run, |b| - pos
  {
    if b[pos] == 0 {
    } else if b[pos] >= JUMP {
      DecodeIgnoresTail(b, tail, Target(b, pos), Target(b, pos));
    } else {
      var next := pos + 1 + b[pos];
      DecodeIgnoresTail(b, tail, next, run);
      assert (b + tail)[pos + 1..next] == b[pos + 1..next];
    }
  }
}
