// The member list of net_lab1's MulticastApp as a function of its history, and what that list
// says about each peer alone.
module Membership {

  import opened Wrappers

  type Address = string

  const TIMEOUT := 10

  datatype Peer = Peer(address: Address, counter: nat)

  /** A tick of the checker, or a packet handled by the responder. */
  datatype Event =
    | Tick
    | Hello(from: Address)
    | Check(from: Address)
    | Okay(from: Address)
    | Bye(from: Address)
    | Other(from: Address)

  predicate Listed(l: seq<Peer>, a: Address) {
    exists i :: 0 <= i < |l| && l[i].address == a
  }

  function Increment(l: seq<Peer>): (m: seq<Peer>)
    ensures |m| == |l| && forall i :: 0 <= i < |l| ==> m[i] == Peer(l[i].address, l[i].counter + 1)
  {
    if l == [] then [] else [Peer(l[0].address, l[0].counter + 1)] + Increment(l[1..])
  }

  /** The peers whose counter has not reached the timeout, in order. */
  function Alive(l: seq<Peer>): seq<Peer> {
    if l == [] then []
    else if l[0].counter >= TIMEOUT then Alive(l[1..])
    else [l[0]] + Alive(l[1..])
  }

  /** The list without its first entry for that address. */
  function Without(l: seq<Peer>, a: Address): seq<Peer> {
    if l == [] then []
    else if l[0].address == a then l[1..]
    else [l[0]] + Without(l[1..], a)
  }

  /** The first entry for that address gets a counter of 0. */
  function Reset(l: seq<Peer>, a: Address): seq<Peer> {
    if l == [] then []
    else if l[0].address == a then [Peer(a, 0)] + l[1..]
    else [l[0]] + Reset(l[1..], a)
  }

  function Step(l: seq<Peer>, e: Event): seq<Peer> {
    match e
    case Tick => Alive(Increment(l))
    case Hello(a) => if Listed(l, a) then l else l + [Peer(a, 0)]
    case Okay(a) => if Listed(l, a) then Reset(l, a) else l + [Peer(a, 0)]
    case Bye(a) => Without(l, a)
    case Check(_) => l
    case Other(_) => l
  }

  function Run(history: seq<Event>): seq<Peer> {
    if history == [] then [] else Step(Run(history[..|history| - 1]), history[|history| - 1])
  }

  lemma RunAppend(history: seq<Event>, e: Event)
    ensures Run(history + [e]) == Step(Run(history), e)
  {
  }

  ghost predicate Distinct(l: seq<Peer>) {
    forall i, j :: 0 <= i < j < |l| ==> l[i].address != l[j].address
  }

  // ---------------------------------------------------------------- one peer alone

  /** The ticks since the peer was last heard of, unless it is gone; other peers play no part. */
  function Age(history: seq<Event>, a: Address): Option<nat> {
    if history == [] then None
    else
      var before := Age(history[..|history| - 1], a);
      match history[|history| - 1]
      case Tick => if before.Some? && before.value + 1 < 10 then Some(before.value + 1) else None
      case Hello(b) => if b == a && before.None? then Some(0) else before
      case Okay(b) => if b == a then Some(0) else before
      case Bye(b) => if b == a then None else before
      case _ => before
  }

  lemma {:induction false} AliveMembers(l: seq<Peer>, p: Peer)
    ensures p in Alive(l) <==> p in l && p.counter < TIMEOUT
  {
    if l != [] {
      AliveMembers(l[1..], p);
    }
  }

  lemma {:induction false} AliveDistinct(l: seq<Peer>)
    requires Distinct(l)
    ensures Distinct(Alive(l))
  {
    if l != [] {
      var rest := Alive(l[1..]);
      AliveDistinct(l[1..]);
      forall i | 0 <= i < |rest| ensures rest[i].address != l[0].address {
        AliveMembers(l[1..], rest[i]);
        assert rest[i] in l[1..];
      }
    }
  }

  lemma {:induction false} WithoutMembers(l: seq<Peer>, a: Address, p: Peer)
    requires Distinct(l)
    ensures p in Without(l, a) <==> p in l && p.address != a
  {
    if l != [] {
      WithoutMembers(l[1..], a, p);
    }
  }

  lemma {:induction false} WithoutDistinct(l: seq<Peer>, a: Address)
    requires Distinct(l)
    ensures Distinct(Without(l, a))
  {
    if l != [] {
      var rest := Without(l[1..], a);
      WithoutDistinct(l[1..], a);
      forall i | 0 <= i < |rest| ensures rest[i].address != l[0].address {
        WithoutMembers(l[1..], a, rest[i]);
        assert rest[i] in l[1..];
      }
    }
  }

  lemma {:induction false} ResetIs(l: seq<Peer>, a: Address)
    requires Distinct(l)
    ensures |Reset(l, a)| == |l|
    ensures forall i :: 0 <= i < |l| ==> Reset(l, a)[i] == if l[i].address == a then Peer(a, 0) else l[i]
  {
    if l != [] {
      ResetIs(l[1..], a);
    }
  }

  lemma StepDistinct(l: seq<Peer>, e: Event)
    requires Distinct(l)
    ensures Distinct(Step(l, e))
  {
    match e
    case Tick => AliveDistinct(Increment(l));
    case Okay(a) => ResetIs(l, a);
    case Bye(a) => WithoutDistinct(l, a);
    case _ =>
  }

  /** What one event does to one entry. */
  lemma StepMembers(l: seq<Peer>, e: Event, a: Address, n: nat)
    requires Distinct(l)
    ensures e.Tick? ==> (Peer(a, n) in Step(l, e) <==> 0 < n < TIMEOUT && Peer(a, n - 1) in l)
    ensures e == Hello(a) ==> (Peer(a, n) in Step(l, e) <==> if Listed(l, a) then Peer(a, n) in l else n == 0)
    ensures e == Okay(a) ==> (Peer(a, n) in Step(l, e) <==> n == 0)
    ensures e == Bye(a) ==> Peer(a, n) !in Step(l, e)
    ensures !e.Tick? && (e.from != a || e.Check? || e.Other?) ==> (Peer(a, n) in Step(l, e) <==> Peer(a, n) in l)
  {
    hide Reset, Without, Alive, Increment;
    match e
    case Tick =>
      AliveMembers(Increment(l), Peer(a, n));
      if n > 0 && Peer(a, n - 1) in l {
        var i :| 0 <= i < |l| && l[i] == Peer(a, n - 1);
        assert Increment(l)[i] == Peer(a, n);
      }
    case Okay(b) =>
      ResetIs(l, b);
      if a == b && Listed(l, a) {
        var i :| 0 <= i < |l| && l[i].address == a;
        assert Reset(l, a)[i] == Peer(a, 0);
      }
      if a != b && Listed(l, b) && Peer(a, n) in l {
        var i :| 0 <= i < |l| && l[i] == Peer(a, n);
        assert Reset(l, b)[i] == Peer(a, n);
      }
    case Bye(b) => WithoutMembers(l, b, Peer(a, n));
    case _ =>
  }

  /** Over every history a peer is listed with a counter exactly when that is its own age. */
  lemma {:induction false} ListAgreesWithHistory(history: seq<Event>, a: Address, n: nat)
    ensures Distinct(Run(history))
    ensures Peer(a, n) in Run(history) <==> Age(history, a) == Some(n)
    decreases |history|, 0
  {
    if history != [] {
      var before, e := history[..|history| - 1], history[|history| - 1];
      var l := Run(before);
      ListAgreesWithHistory(before, a, n);
      StepDistinct(l, e);
      StepMembers(l, e, a, n);
      if e.Tick? && n > 0 {
        ListAgreesWithHistory(before, a, n - 1);
      }
      if e == Hello(a) {
        ListedIffAged(before, a);
      }
    }
  }

  lemma {:induction false} ListedIffAged(history: seq<Event>, a: Address)
    ensures Listed(Run(history), a) <==> Age(history, a).Some?
    decreases |history|, 1
  {
    var l := Run(history);
    if Listed(l, a) {
      var i :| 0 <= i < |l| && l[i].address == a;
      assert Peer(a, l[i].counter) in l;
      ListAgreesWithHistory(history, a, l[i].counter);
    }
    if Age(history, a).Some? {
      ListAgreesWithHistory(history, a, Age(history, a).value);
    }
  }

  // ---------------------------------------------------------------- the history behind an age

  /** Event k is an OK of the peer, or a HELLO that admits it. */
  predicate Refreshes(history: seq<Event>, k: nat, a: Address) {
    k < |history| && (history[k] == Okay(a) || (history[k] == Hello(a) && !Listed(Run(history[..k]), a)))
  }

  /** The ticks from event k on. */
  function Ticks(history: seq<Event>, k: nat): nat {
    if |history| <= k then 0
    else Ticks(history[..|history| - 1], k) + if history[|history| - 1].Tick? then 1 else 0
  }

  predicate NoByeAfter(history: seq<Event>, k: nat, a: Address) {
    forall j :: k < j < |history| ==> history[j] != Bye(a)
  }

  lemma RefreshesBefore(history: seq<Event>, k: nat, a: Address)
    requires k < |history| - 1
    ensures Refreshes(history, k, a) <==> Refreshes(history[..|history| - 1], k, a)
  {
    assert history[..|history| - 1][..k] == history[..k];
  }

  /** A peer with an age was heard of; the age is the number of ticks since the last time. */
  lemma {:induction false} AgeIsTicksSince(history: seq<Event>, a: Address) returns (k: nat)
    requires Age(history, a).Some?
    ensures Refreshes(history, k, a) && NoByeAfter(history, k, a)
    ensures Age(history, a).value == Ticks(history, k + 1) < 10
    ensures forall j :: k < j < |history| ==> !Refreshes(history, j, a)
    decreases |history|
  {
    var n := |history| - 1;
    var before := history[..n];
    ListedIffAged(before, a);
    if Refreshes(history, n, a) {
      k := n;
    } else {
      k := AgeIsTicksSince(before, a);
      RefreshesBefore(history, k, a);
      forall j | k < j < |history| ensures !Refreshes(history, j, a) {
        if j < n {
          RefreshesBefore(history, j, a);
        }
      }
    }
  }

  /** A peer heard of less than ten ticks ago, with no BYE since, has an age. */
  lemma {:induction false} HeardHasAge(history: seq<Event>, a: Address, k: nat)
    requires Refreshes(history, k, a) && NoByeAfter(history, k, a) && Ticks(history, k + 1) < TIMEOUT
    ensures Age(history, a).Some? && Age(history, a).value <= Ticks(history, k + 1)
    decreases |history|
  {
    var n := |history| - 1;
    var before := history[..n];
    ListedIffAged(before, a);
    if k < n {
      RefreshesBefore(history, k, a);
      assert forall j :: k < j < n ==> before[j] == history[j];
      HeardHasAge(before, a, k);
    }
  }

  /**
    Over every history: a peer is listed exactly when some OK of it, or some HELLO that admitted
    it, is followed by fewer than ten ticks and by no BYE of it.
   */
  lemma ListedIffHeard(history: seq<Event>, a: Address)
    ensures Listed(Run(history), a) <==>
      exists k: nat :: Refreshes(history, k, a) && NoByeAfter(history, k, a) && Ticks(history, k + 1) < 10
  {
    ListedIffAged(history, a);
    if Age(history, a).Some? {
      var k := AgeIsTicksSince(history, a);
    }
    if k: nat :| Refreshes(history, k, a) && NoByeAfter(history, k, a) && Ticks(history, k + 1) < TIMEOUT {
      HeardHasAge(history, a, k);
    }
  }
}
