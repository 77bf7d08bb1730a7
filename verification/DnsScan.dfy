// The scanning loop of ReadName (net_lab7/DNSResolver.cpp) byte by byte: what it collects, when it
// agrees with the label-wise decoder, and when it ends.
module DnsScan {
  import opened Bytes
  import opened Wrappers
  import opened DnsName

  // ---------------------------------------------------------------- scanning, byte by byte

  /**
    What the scanning loop collects from pos on: it knows nothing of labels, stops at any zero
    byte and takes any byte of 192 or more for a pointer. None where the loop would leave the
    buffer or follow a pointer that does not go strictly before the current stretch.
   */
  function Scan(b: seq<byte>, pos: nat, run: nat): Option<seq<byte>>
    decreases run, |b| - pos
  {
    if pos >= |b| then None
    else if b[pos] == 0 then Some([])
    else if b[pos] >= JUMP then
      if pos + 1 < |b| && Target(b, pos) < run then Scan(b, Target(b, pos), Target(b, pos)) else None
    else
      match Scan(b, pos + 1, run)
      case None => None
      case Some(rest) => Some([b[pos]] + rest)
  }

  /** The bytes up to and including the zero byte or the first pointer. */
  function ScanLength(b: seq<byte>, pos: nat): nat
    decreases |b| - pos
  {
    if pos >= |b| then 0
    else if b[pos] == 0 then 1
    else if b[pos] >= JUMP then 2
    else 1 + ScanLength(b, pos + 1)
  }

  lemma {:induction false} ScanIsPlain(b: seq<byte>, pos: nat, run: nat)
    requires Scan(b, pos, run).Some?
    ensures PlainBytes(Scan(b, pos, run).value)
    decreases run, |b| - pos
  {
    if b[pos] == 0 {
    } else if b[pos] >= JUMP {
      ScanIsPlain(b, Target(b, pos), Target(b, pos));
    } else {
      ScanIsPlain(b, pos + 1, run);
    }
  }

  /** Plain bytes are collected one after the other. */
  lemma {:induction false} ScanPlainBytes(b: seq<byte>, pos: nat, end: nat, run: nat)
    requires pos <= end <= |b| && forall k :: pos <= k < end ==> 1 <= b[k] < JUMP
    ensures Scan(b, pos, run) ==
      match Scan(b, end, run) case None => None case Some(t) => Some(b[pos..end] + t)
    ensures ScanLength(b, pos) == end - pos + ScanLength(b, end)
    decreases end - pos
  {
    if pos == end {
      assert Scan(b, end, run).Some? ==> b[pos..end] + Scan(b, end, run).value == Scan(b, end, run).value;
    } else {
      assert b[pos..end] == [b[pos]] + b[pos + 1..end];
      ScanPlainBytes(b, pos + 1, end, run);
      if Scan(b, end, run).Some? {
        SeqAssociates([b[pos]], b[pos + 1..end], Scan(b, end, run).value);
      }
    }
  }

  /** On labels of plain bytes the scan collects exactly the labels, lengths included. */
  lemma {:induction false} ScanCollectsLabels(b: seq<byte>, pos: nat, run: nat)
    requires Decode(b, pos, run).Some? && PlainLabels(Decode(b, pos, run).value)
    ensures Scan(b, pos, run) == Some(Flatten(Decode(b, pos, run).value))
    ensures ScanLength(b, pos) == NameLength(b, pos)
    decreases run, |b| - pos
  {
    var ls := Decode(b, pos, run).value;
    if b[pos] == 0 {
    } else if b[pos] >= JUMP {
      ScanCollectsLabels(b, Target(b, pos), Target(b, pos));
    } else {
      var next := pos + 1 + b[pos];
      var rest := Decode(b, next, run).value;
      assert ls[1..] == rest;
      assert forall l <- rest :: l in ls;
      assert b[pos..next] == Prefixed(ls[0]);
      assert ls[0] in ls;
      assert forall k :: pos < k < next ==> b[k] in b[pos + 1..next];
      ScanPlainBytes(b, pos, next, run);
      ScanCollectsLabels(b, next, run);
    }
  }

  lemma {:induction false} FlattenPlain(ls: seq<Label>, l: Label)
    requires PlainBytes(Flatten(ls)) && l in ls
    ensures PlainBytes(l)
  {
    if l == ls[0] {
      forall c | c in l ensures 1 <= c < JUMP {
        assert c in Prefixed(l)[1..];
        assert c in Flatten(ls);
      }
    } else {
      forall c | c in Flatten(ls[1..]) ensures 1 <= c < JUMP {
        assert c in Flatten(ls);
      }
      FlattenPlain(ls[1..], l);
    }
  }

  /**
    Exactly when the byte-wise scan agrees with the label-wise decoder: RFC 1035 allows any byte
    in a label, the scan only bytes 1..191.
   */
  lemma ScanAgreesIff(b: seq<byte>, pos: nat, run: nat)
    requires Decode(b, pos, run).Some?
    ensures var ls := Decode(b, pos, run).value;
            Scan(b, pos, run) == Some(Flatten(ls)) <==> PlainLabels(ls)
  {
    var ls := Decode(b, pos, run).value;
    if Scan(b, pos, run) == Some(Flatten(ls)) {
      ScanIsPlain(b, pos, run);
      forall l | l in ls ensures PlainBytes(l) {
        FlattenPlain(ls, l);
      }
    } else if PlainLabels(ls) {
      ScanCollectsLabels(b, pos, run);
      assert false;
    }
  }

  // ---------------------------------------------------------------- the loop, step by step

  /** One iteration of the loop, on the position alone; None where the loop stops or leaves the buffer. */
  function ScanStep(b: seq<byte>, pos: nat): Option<nat> {
    if pos >= |b| || b[pos] == 0 then None
    else if b[pos] < JUMP then Some(pos + 1)
    else if pos + 1 < |b| then Some(Target(b, pos))
    else None
  }

  /** The position after n iterations, if the loop gets that far. */
  function ScanSteps(b: seq<byte>, pos: nat, n: nat): Option<nat>
    decreases n
  {
    if n == 0 then Some(pos)
    else match ScanStep(b, pos) case None => None case Some(next) => ScanSteps(b, next, n - 1)
  }

  /** The bytes collected in the first n iterations. */
  function ScanText(b: seq<byte>, pos: nat, n: nat): seq<byte>
    decreases n
  {
    if n == 0 || ScanStep(b, pos).None? then []
    else (if b[pos] < JUMP then [b[pos]] else []) + ScanText(b, ScanStep(b, pos).value, n - 1)
  }

  /** The loop finds a zero byte after n iterations. */
  predicate EndsAfter(b: seq<byte>, pos: nat, n: nat) {
    var q := ScanSteps(b, pos, n);
    q.Some? && q.value < |b| && b[q.value] == 0
  }

  ghost predicate RunsForEver(b: seq<byte>, pos: nat) {
    forall n: nat :: ScanSteps(b, pos, n).Some?
  }

  /** Some position comes up a second time within the first |b| iterations. */
  ghost predicate ComesBack(b: seq<byte>, pos: nat) {
    exists i: nat, j: nat :: i < j <= |b| && ScanSteps(b, pos, i).Some? && ScanSteps(b, pos, i) == ScanSteps(b, pos, j)
  }

  lemma {:induction false} StepsAdd(b: seq<byte>, pos: nat, m: nat, n: nat)
    ensures ScanSteps(b, pos, m + n) ==
      match ScanSteps(b, pos, m) case None => None case Some(q) => ScanSteps(b, q, n)
    decreases m
  {
    if m > 0 && ScanStep(b, pos).Some? {
      StepsAdd(b, ScanStep(b, pos).value, m - 1, n);
    }
  }

  lemma StepsFewer(b: seq<byte>, pos: nat, m: nat, n: nat)
    requires m <= n && ScanSteps(b, pos, n).Some?
    ensures ScanSteps(b, pos, m).Some?
    ensures m < n ==> ScanSteps(b, pos, m).value < |b|
  {
    StepsAdd(b, pos, m, n - m);
  }

  // Two equal entries among more numbers below m than there are such numbers.

  function Elements(s: seq<nat>): set<nat> {
    set x | x in s
  }

  lemma {:induction false} DistinctSize(s: seq<nat>)
    requires forall i, j :: 0 <= i < j < |s| ==> s[i] != s[j]
    ensures |Elements(s)| == |s|
  {
    if s != [] {
      DistinctSize(s[1..]);
      assert s[0] !in s[1..];
      assert Elements(s) == {s[0]} + Elements(s[1..]);
    }
  }

  lemma {:induction false} BelowSize(s: set<nat>, m: nat)
    requires forall x <- s :: x < m
    ensures |s| <= m
  {
    if m > 0 {
      BelowSize(s - {m - 1}, m - 1);
    } else {
      assert s == {};
    }
  }

  lemma Pigeonhole(s: seq<nat>, m: nat) returns (i: nat, j: nat)
    requires |s| > m && forall x <- s :: x < m
    ensures i < j < |s| && s[i] == s[j]
  {
    if forall k, l :: 0 <= k < l < |s| ==> s[k] != s[l] {
      DistinctSize(s);
      BelowSize(Elements(s), m);
    }
    i, j :| 0 <= i < j < |s| && s[i] == s[j];
  }

  /** Once a position comes up again, the loop goes round for ever. */
  lemma {:induction false} Periodic(b: seq<byte>, pos: nat, i: nat, j: nat, n: nat)
    requires i < j && ScanSteps(b, pos, i).Some? && ScanSteps(b, pos, i) == ScanSteps(b, pos, j)
    ensures ScanSteps(b, pos, n).Some?
    decreases n
  {
    if n < j {
      StepsFewer(b, pos, n, j);
    } else {
      Periodic(b, pos, i, j, n - (j - i));
      StepsAdd(b, pos, j, n - j);
      StepsAdd(b, pos, i, n - j);
    }
  }

  /**
    Exactly when the loop never ends, for every buffer and position: when it gets through one
    iteration more than the buffer has bytes, which is when it comes back to a position.
   */
  lemma RunsForEverIff(b: seq<byte>, pos: nat)
    ensures RunsForEver(b, pos) <==> ScanSteps(b, pos, |b| + 1).Some?
    ensures RunsForEver(b, pos) <==> ComesBack(b, pos)
  {
    if ScanSteps(b, pos, |b| + 1).Some? {
      forall i: nat | i <= |b| ensures ScanSteps(b, pos, i).Some? && ScanSteps(b, pos, i).value < |b| {
        StepsFewer(b, pos, i, |b| + 1);
      }
      var visited := seq(|b| + 1, i requires 0 <= i <= |b| => ScanSteps(b, pos, i).value);
      var i, j := Pigeonhole(visited, |b|);
      assert ScanSteps(b, pos, i) == ScanSteps(b, pos, j);
    }
    if ComesBack(b, pos) {
      var i: nat, j: nat :| i < j <= |b| && ScanSteps(b, pos, i).Some? && ScanSteps(b, pos, i) == ScanSteps(b, pos, j);
      forall n: nat ensures ScanSteps(b, pos, n).Some? {
        Periodic(b, pos, i, j, n);
      }
    }
  }

  /** A loop that does not run for ever stops at a zero byte or leaves the buffer, within |b| iterations. */
  lemma EndsOrLeaves(b: seq<byte>, pos: nat) returns (n: nat)
    requires !RunsForEver(b, pos)
    ensures n <= |b| && ScanSteps(b, pos, n).Some? && ScanStep(b, ScanSteps(b, pos, n).value).None?
  {
    RunsForEverIff(b, pos);
    n := 0;
    while ScanSteps(b, pos, n + 1).Some?
      invariant n <= |b| && ScanSteps(b, pos, n).Some?
      decreases |b| - n
    {
      n := n + 1;
    }
    StepsAdd(b, pos, n, 1);
  }

  /**
    Pointers that always go strictly before their own stretch make the loop end, by the measure
    (start of the stretch, bytes left), with the bytes `Scan` collects.
   */
  lemma {:induction false} BackwardJumpsEnd(b: seq<byte>, pos: nat, run: nat) returns (n: nat)
    requires Scan(b, pos, run).Some?
    ensures EndsAfter(b, pos, n) && ScanText(b, pos, n) == Scan(b, pos, run).value
    ensures !RunsForEver(b, pos)
    decreases run, |b| - pos
  {
    if b[pos] == 0 {
      n := 0;
    } else {
      if b[pos] >= JUMP {
        n := BackwardJumpsEnd(b, Target(b, pos), Target(b, pos));
      } else {
        n := BackwardJumpsEnd(b, pos + 1, run);
      }
      n := n + 1;
    }
    EndsIsTheEnd(b, pos, n);
  }

  /** Nothing happens after the zero byte, so the number of iterations is determined. */
  lemma EndsIsTheEnd(b: seq<byte>, pos: nat, n: nat)
    requires EndsAfter(b, pos, n)
    ensures ScanSteps(b, pos, n + 1).None?
  {
    StepsAdd(b, pos, n, 1);
  }

  /** A pointer back into its own stretch, to itself or to any byte of it, is never left again. */
  lemma JumpIntoOwnStretchNeverEnds(b: seq<byte>, pos: nat, jump: nat)
    requires pos <= jump && jump + 1 < |b| && b[jump] >= JUMP
    requires pos <= Target(b, jump) <= jump && forall k :: pos <= k < jump ==> 1 <= b[k] < JUMP
    ensures RunsForEver(b, pos)
  {
    var t := Target(b, jump);
    PlainSteps(b, pos, t);
    PlainSteps(b, t, jump);
    StepsAdd(b, pos, t - pos, jump - t);
    StepsAdd(b, pos, jump - pos, 1);
    forall n: nat ensures ScanSteps(b, pos, n).Some? {
      Periodic(b, pos, t - pos, jump - pos + 1, n);
    }
  }

  lemma {:induction false} PlainSteps(b: seq<byte>, pos: nat, end: nat)
    requires pos <= end <= |b| && forall k :: pos <= k < end ==> 1 <= b[k] < JUMP
    ensures ScanSteps(b, pos, end - pos) == Some(end)
    decreases end - pos
  {
    if pos < end {
      PlainSteps(b, pos + 1, end);
    }
  }
}
