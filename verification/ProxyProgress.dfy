// Clients only move forward, lists keep their order, and a round moves at most one chunk each way.
module ProxyProgress {
  import H = Handshake
  import N = Resolver
  import R = Relay
  import opened Proxy
  import opened ProxyInvariant
  import opened ProxySteps
  import opened ProxyRun
  import opened ProxyTheorems

  // ---------------------------------------------------------------- subsequences

  /** a is b with some elements left out. */
  predicate Subseq(a: seq<nat>, b: seq<nat>) {
    if b == [] then a == []
    else Subseq(a, b[1..]) || (a != [] && a[0] == b[0] && Subseq(a[1..], b[1..]))
  }

  lemma {:induction false} SubseqSame(a: seq<nat>)
    ensures Subseq(a, a)
  {
    if a != [] {
      SubseqSame(a[1..]);
    }
  }

  lemma {:induction false} SubseqNone(b: seq<nat>)
    ensures Subseq([], b)
  {
    if b != [] {
      SubseqNone(b[1..]);
    }
  }

  lemma {:induction false} SubseqConcat(a: seq<nat>, b: seq<nat>, c: seq<nat>, d: seq<nat>)
    requires Subseq(a, b) && Subseq(c, d)
    ensures Subseq(a + c, b + d)
    decreases |b|
  {
    if b == [] {
      assert a + c == c && b + d == d;
    } else {
      assert (b + d)[1..] == b[1..] + d;
      if Subseq(a, b[1..]) {
        SubseqConcat(a, b[1..], c, d);
      } else {
        SubseqConcat(a[1..], b[1..], c, d);
        assert (a + c)[1..] == a[1..] + c;
      }
    }
  }

  lemma SubseqCons(a: seq<nat>, b: seq<nat>, x: nat)
    requires Subseq(a, b)
    ensures Subseq(a, [x] + b) && Subseq([x] + a, [x] + b)
  {
    assert ([x] + a)[1..] == a && ([x] + b)[1..] == b;
  }

  lemma {:induction false} SubseqIn(a: seq<nat>, b: seq<nat>, x: nat)
    requires Subseq(a, b) && x in a
    ensures x in b
    decreases |b|
  {
    if Subseq(a, b[1..]) {
      SubseqIn(a, b[1..], x);
    } else if x != a[0] {
      SubseqIn(a[1..], b[1..], x);
    }
  }

  // ---------------------------------------------------------------- the numbers in a list

  function HIds(s: seq<Handshaking>): seq<nat> {
    seq(|s|, i requires 0 <= i < |s| => s[i].id)
  }

  function RIds(s: seq<Resolving>): seq<nat> {
    seq(|s|, i requires 0 <= i < |s| => s[i].id)
  }

  function LIds(s: seq<Relaying>): seq<nat> {
    seq(|s|, i requires 0 <= i < |s| => s[i].id)
  }

  predicate SameMasks(p: State, q: State) {
    q.readset == p.readset && q.writeset == p.writeset
  }

  // ---------------------------------------------------------------- passes

  lemma {:induction false} SweepMoves(p: State, todo: seq<Relaying>)
    ensures var q := Sweep(p, todo);
            && p.relays <= q.relays && Subseq(LIds(q.relays[|p.relays|..]), LIds(todo))
            && p.closed <= q.closed && (forall id <- LIds(q.closed[|p.closed|..]) :: id in LIds(todo))
            && q.handshakes == p.handshakes && q.resolvings == p.resolvings && q.clients == p.clients
    decreases |todo|
  {
    hide R.AskedRead, R.AskedWrite, Subseq;
    if todo == [] {
      SubseqNone([]);
    } else {
      var e, r := todo[0], SweepOne(p, todo[0]);
      var q := Sweep(r, todo[1..]);
      SweepMoves(r, todo[1..]);
      assert LIds(todo) == [e.id] + LIds(todo[1..]);
      SubseqCons(LIds(q.relays[|r.relays|..]), LIds(todo[1..]), e.id);
      if e.conn.toDisconnect {
        assert q.closed[|p.closed|..] == [e] + q.closed[|r.closed|..];
        assert LIds(q.closed[|p.closed|..]) == [e.id] + LIds(q.closed[|r.closed|..]);
      } else {
        assert q.relays[|p.relays|..] == [e] + q.relays[|r.relays|..];
        assert LIds(q.relays[|p.relays|..]) == [e.id] + LIds(q.relays[|r.relays|..]);
      }
    }
  }

  /** What a pass over the handshakes did to the lists. */
  ghost predicate HandshakesMoved(p: State, todo: seq<Handshaking>, q: State) {
    && p.handshakes <= q.handshakes && Subseq(HIds(q.handshakes[|p.handshakes|..]), HIds(todo))
    && p.resolvings <= q.resolvings && (forall id <- RIds(q.resolvings[|p.resolvings|..]) :: id in HIds(todo))
    && p.relays <= q.relays && (forall id <- LIds(q.relays[|p.relays|..]) :: id in HIds(todo))
    && q.closed == p.closed && q.clients == p.clients && SameMasks(p, q)
  }

  lemma HandshakeOneMoved(p: State, e: Handshaking, k: Kernel)
    requires ValidKernel(k) && Tracks(p.clients, e)
    ensures HandshakesMoved(p, [e], HandshakeOne(p, e, k))
  {
    hide H.Feed, H.TraceOk, N.NewResolver, R.NewRelay, Tracks;
    var q := HandshakeOne(p, e, k);
    assert HIds([e]) == [e.id];
    assert RIds(q.resolvings[|p.resolvings|..]) == if |q.resolvings| > |p.resolvings| then [e.id] else [];
    assert LIds(q.relays[|p.relays|..]) == if |q.relays| > |p.relays| then [e.id] else [];
    if |q.handshakes| > |p.handshakes| {
      assert HIds(q.handshakes[|p.handshakes|..]) == [e.id];
      SubseqSame([e.id]);
    } else {
      assert HIds(q.handshakes[|p.handshakes|..]) == [];
      SubseqNone([e.id]);
    }
  }

  lemma HandshakesMovedAppend(p: State, q: State, r: State, a: seq<Handshaking>, b: seq<Handshaking>)
    requires HandshakesMoved(p, a, q) && HandshakesMoved(q, b, r)
    ensures HandshakesMoved(p, a + b, r)
  {
    hide Subseq;
    assert HIds(a + b) == HIds(a) + HIds(b);
    assert HIds(r.handshakes[|p.handshakes|..])
        == HIds(q.handshakes[|p.handshakes|..]) + HIds(r.handshakes[|q.handshakes|..]);
    SubseqConcat(HIds(q.handshakes[|p.handshakes|..]), HIds(a), HIds(r.handshakes[|q.handshakes|..]), HIds(b));
    assert RIds(r.resolvings[|p.resolvings|..])
        == RIds(q.resolvings[|p.resolvings|..]) + RIds(r.resolvings[|q.resolvings|..]);
    assert LIds(r.relays[|p.relays|..]) == LIds(q.relays[|p.relays|..]) + LIds(r.relays[|q.relays|..]);
  }

  lemma {:induction false} HandshakePassMoved(p: State, todo: seq<Handshaking>, k: Kernel)
    requires ValidKernel(k) && forall e <- todo :: Tracks(p.clients, e)
    ensures HandshakesMoved(p, todo, HandshakePass(p, todo, k))
    decreases |todo|
  {
    hide HandshakesMoved, HandshakeOne, Tracks;
    if todo == [] {
      NothingMoved(p);
    } else {
      assert todo[0] in todo && forall e <- todo[1..] :: e in todo;
      HandshakeOneMoved(p, todo[0], k);
      HandshakePassMoved(HandshakeOne(p, todo[0], k), todo[1..], k);
      HandshakesMovedAppend(p, HandshakeOne(p, todo[0], k), HandshakePass(p, todo, k), [todo[0]], todo[1..]);
      assert [todo[0]] + todo[1..] == todo;
    }
  }

  lemma NothingMoved(p: State)
    ensures HandshakesMoved(p, [], p) && ResolvingsMoved(p, [], p)
  {
  }

  /** What a pass over the resolvers did to the lists. */
  ghost predicate ResolvingsMoved(p: State, todo: seq<Resolving>, q: State) {
    && q.handshakes == p.handshakes
    && p.resolvings <= q.resolvings && Subseq(RIds(q.resolvings[|p.resolvings|..]), RIds(todo))
    && p.relays <= q.relays && (forall id <- LIds(q.relays[|p.relays|..]) :: id in RIds(todo))
    && q.closed == p.closed && q.clients == p.clients && SameMasks(p, q)
  }

  lemma ResolveOneMoved(p: State, e: Resolving, k: Kernel)
    requires ValidKernel(k) && N.ValidState(e.resolver) && ResolveOne(p, e, k).Running?
    ensures ResolvingsMoved(p, [e], ResolveOne(p, e, k).state)
  {
    hide N.Exchange, R.NewRelay;
    var q := ResolveOne(p, e, k).state;
    assert RIds([e]) == [e.id];
    assert LIds(q.relays[|p.relays|..]) == if |q.relays| > |p.relays| then [e.id] else [];
    if |q.resolvings| > |p.resolvings| {
      assert RIds(q.resolvings[|p.resolvings|..]) == [e.id];
      SubseqSame([e.id]);
    } else {
      assert RIds(q.resolvings[|p.resolvings|..]) == [];
      SubseqNone([e.id]);
    }
  }

  lemma ResolvingsMovedAppend(p: State, q: State, r: State, a: seq<Resolving>, b: seq<Resolving>)
    requires ResolvingsMoved(p, a, q) && ResolvingsMoved(q, b, r)
    ensures ResolvingsMoved(p, a + b, r)
  {
    hide Subseq;
    assert RIds(a + b) == RIds(a) + RIds(b);
    assert RIds(r.resolvings[|p.resolvings|..])
        == RIds(q.resolvings[|p.resolvings|..]) + RIds(r.resolvings[|q.resolvings|..]);
    SubseqConcat(RIds(q.resolvings[|p.resolvings|..]), RIds(a), RIds(r.resolvings[|q.resolvings|..]), RIds(b));
    assert LIds(r.relays[|p.relays|..]) == LIds(q.relays[|p.relays|..]) + LIds(r.relays[|q.relays|..]);
  }

  lemma {:induction false} ResolvePassMoved(p: State, todo: seq<Resolving>, k: Kernel)
    requires ValidKernel(k) && (forall e <- todo :: N.ValidState(e.resolver)) && ResolvePass(p, todo, k).Running?
    ensures ResolvingsMoved(p, todo, ResolvePass(p, todo, k).state)
    decreases |todo|
  {
    hide ResolvingsMoved, ResolveOne, N.ValidState;
    if todo == [] {
      NothingMoved(p);
    } else {
      assert todo[0] in todo && forall e <- todo[1..] :: e in todo;
      var q := ResolveOne(p, todo[0], k).state;
      ResolveOneMoved(p, todo[0], k);
      ResolvePassMoved(q, todo[1..], k);
      ResolvingsMovedAppend(p, q, ResolvePass(p, todo, k).state, [todo[0]], todo[1..]);
      assert [todo[0]] + todo[1..] == todo;
    }
  }

  // ---------------------------------------------------------------- rounds

  /**
    What a round does to the lists: handshakes only leave, except for one newly accepted client;
    resolvers and relays keep their order, with newcomers behind them that come from an earlier
    stage; closed clients were relaying and stay closed.
   */
  ghost predicate Moves(p: State, q: State, resolved: seq<nat>, related: seq<nat>) {
    && |p.clients| <= |q.clients| <= |p.clients| + 1
    && Subseq(HIds(q.handshakes), HIds(p.handshakes) + [|p.clients|])
    && Subseq(RIds(q.resolvings), RIds(p.resolvings) + resolved)
    && Subseq(LIds(q.relays), LIds(p.relays) + related)
    && (forall id <- resolved :: id in HIds(p.handshakes) || id == |p.clients|)
    && (forall id <- related :: id in HIds(p.handshakes) || id in RIds(p.resolvings) || id == |p.clients|)
    && p.closed <= q.closed
    && (forall id <- LIds(q.closed[|p.closed|..]) :: id in LIds(p.relays))
  }

  lemma PrepareMoves(p: State)
    requires Prepare(p).Running?
    ensures var q := Prepare(p).state;
            && q.handshakes == p.handshakes && q.resolvings == p.resolvings && q.clients == p.clients
            && Subseq(LIds(q.relays), LIds(p.relays))
            && p.closed <= q.closed && (forall id <- LIds(q.closed[|p.closed|..]) :: id in LIds(p.relays))
  {
    var cleared := p.(relays := [], readset := {p.listener}, writeset := {});
    SweepMoves(cleared, p.relays);
    PrepareIs(p);
    var q := Prepare(p).state;
    assert q.relays[0..] == q.relays;
  }

  /** The lists after processPendingConnections. */
  lemma PendingMoves(p: State, k: Kernel)
    requires ValidKernel(k) && Pending(p, k).Running?
    ensures var q := Pending(p, k).state;
            && q.resolvings == p.resolvings && q.relays == p.relays && q.closed == p.closed && SameMasks(p, q)
            && |p.clients| <= |q.clients| <= |p.clients| + 1
            && (HIds(q.handshakes) == HIds(p.handshakes) || HIds(q.handshakes) == HIds(p.handshakes) + [|p.clients|])
  {
  }

  /** The lists after processWaitingForHandshake. */
  lemma HandshakesStep(p: State, k: Kernel)
    requires ValidKernel(k) && Inv(p)
    ensures var q := Handshakes(p, k);
            && Subseq(HIds(q.handshakes), HIds(p.handshakes))
            && p.resolvings <= q.resolvings && p.relays <= q.relays
            && (forall id <- RIds(q.resolvings[|p.resolvings|..]) :: id in HIds(p.handshakes))
            && (forall id <- LIds(q.relays[|p.relays|..]) :: id in HIds(p.handshakes))
            && q.closed == p.closed && q.clients == p.clients && SameMasks(p, q)
  {
    hide Inv, HandshakePass, Subseq;
    InvEntries(p);
    var cleared := p.(handshakes := []);
    HandshakePassMoved(cleared, p.handshakes, k);
    var q := Handshakes(p, k);
    assert q.handshakes[0..] == q.handshakes;
  }

  /** The lists after processWaitingForResolving. */
  lemma ResolvingsStep(p: State, k: Kernel)
    requires ValidKernel(k) && Inv(p) && Resolvings(p, k).Running?
    ensures var q := Resolvings(p, k).state;
            && q.handshakes == p.handshakes
            && Subseq(RIds(q.resolvings), RIds(p.resolvings)) && p.relays <= q.relays
            && (forall id <- LIds(q.relays[|p.relays|..]) :: id in RIds(p.resolvings))
            && q.closed == p.closed && q.clients == p.clients && SameMasks(p, q)
  {
    hide Inv, ResolvePass, Subseq;
    InvEntries(p);
    var cleared := p.(resolvings := []);
    ResolvePassMoved(cleared, p.resolvings, k);
    var q := Resolvings(p, k).state;
    assert q.resolvings[0..] == q.resolvings;
  }

  lemma ConnectionsStep(p: State, k: Kernel)
    requires ValidKernel(k) && Inv(p)
    ensures var q := Connections(p, k);
            && LIds(q.relays) == LIds(p.relays)
            && q == p.(relays := q.relays)
  {
    hide Inv, R.RelayOk, R.Exchange, ValidKernel;
    InvEntries(p);
  }

  lemma {:induction false} SubseqTrans(a: seq<nat>, b: seq<nat>, c: seq<nat>)
    requires Subseq(a, b) && Subseq(b, c)
    ensures Subseq(a, c)
    decreases |b| + |c|
  {
    if c != [] {
      if Subseq(b, c[1..]) {
        SubseqTrans(a, b, c[1..]);
      } else if Subseq(a, b[1..]) {
        SubseqTrans(a, b[1..], c[1..]);
      } else {
        SubseqTrans(a[1..], b[1..], c[1..]);
      }
    }
  }

  /** Serving what select reported, as movement between the lists. */
  lemma ServeMoves(p: State, k: Kernel) returns (resolved: seq<nat>, related: seq<nat>)
    requires ValidKernel(k) && Inv(p) && Serve(p, k).Running?
    ensures Moves(p, Serve(p, k).state, resolved, related)
  {
    hide Inv, Pending, Handshakes, Resolvings, Connections;
    PendingInv(p, k);
    PendingMoves(p, k);
    var a := Pending(p, k).state;
    HandshakesStep(a, k);
    var b := Handshakes(a, k);
    ResolvingsStep(b, k);
    var c := Resolvings(b, k).state;
    ConnectionsStep(c, k);
    resolved := RIds(b.resolvings[|a.resolvings|..]);
    var fromHandshakes, fromResolvers := LIds(b.relays[|a.relays|..]), LIds(c.relays[|b.relays|..]);
    related := fromHandshakes + fromResolvers;
    assert RIds(b.resolvings) == RIds(p.resolvings) + resolved;
    assert LIds(c.relays) == LIds(p.relays) + related;
    SubseqSame(LIds(c.relays));
    var all := HIds(p.handshakes) + [|p.clients|];
    NewcomerLast(HIds(p.handshakes), |p.clients|, HIds(a.handshakes), all);
    SubseqTrans(HIds(b.handshakes), HIds(a.handshakes), all);
  }

  lemma NewcomerLast(before: seq<nat>, id: nat, after: seq<nat>, all: seq<nat>)
    requires all == before + [id] && (after == before || after == all)
    ensures Subseq(after, all)
  {
    SubseqSame(before);
    SubseqSame([id]);
    SubseqNone([id]);
    SubseqConcat(before, before, [], [id]);
    SubseqConcat(before, before, [id], [id]);
    assert before + [] == before;
  }

  /** One iteration of `run` as movement between the lists. */
  lemma RoundMoves(p: State, k: Kernel) returns (resolved: seq<nat>, related: seq<nat>)
    requires ValidKernel(k) && Inv(p) && Round(p, k).Running?
    ensures Moves(p, Round(p, k).state, resolved, related)
  {
    hide Inv, Prepare, Serve;
    PrepareInv(p);
    PrepareMoves(p);
    var q := Prepare(p).state;
    var s := Selected(q, k.ready.rd, k.ready.wr);
    SubseqSame(RIds(p.resolvings));
    assert LIds(p.relays) + [] == LIds(p.relays) && RIds(p.resolvings) + [] == RIds(p.resolvings);
    if s.readset == {} && s.writeset == {} {
      resolved, related := [], [];
      NewcomerLast(HIds(p.handshakes), |p.clients|, HIds(p.handshakes), HIds(p.handshakes) + [|p.clients|]);
    } else {
      resolved, related := ServeMoves(s, k);
      SweptMoves(p, s, Serve(s, k).state, resolved, related);
    }
  }

  lemma SweptMoves(p: State, s: State, o: State, resolved: seq<nat>, related: seq<nat>)
    requires s.handshakes == p.handshakes && s.resolvings == p.resolvings && s.clients == p.clients
    requires Subseq(LIds(s.relays), LIds(p.relays))
    requires p.closed <= s.closed && (forall id <- LIds(s.closed[|p.closed|..]) :: id in LIds(p.relays))
    requires Moves(s, o, resolved, related)
    ensures Moves(p, o, resolved, related)
  {
    SubseqSame(related);
    SubseqConcat(LIds(s.relays), LIds(p.relays), related, related);
    SubseqTrans(LIds(o.relays), LIds(s.relays) + related, LIds(p.relays) + related);
    assert o.closed[|p.closed|..] == s.closed[|p.closed|..] + o.closed[|s.closed|..];
    forall id | id in LIds(o.closed[|p.closed|..]) ensures id in LIds(p.relays) {
      assert LIds(o.closed[|p.closed|..]) == LIds(s.closed[|p.closed|..]) + LIds(o.closed[|s.closed|..]);
      if id in LIds(o.closed[|s.closed|..]) {
        SubseqIn(LIds(s.relays), LIds(p.relays), id);
      }
    }
  }

  // ---------------------------------------------------------------- stages

  /** 0 handshaking, 1 resolving, 2 relaying, 3 closed. */
  ghost function Stage(p: State, id: nat): nat {
    if id in HIds(p.handshakes) then 0
    else if id in RIds(p.resolvings) then 1
    else if id in LIds(p.relays) then 2
    else 3
  }

  /** No round takes a client back to an earlier stage. */
  lemma StagesAdvance(p: State, k: Kernel, id: nat)
    requires ValidKernel(k) && Inv(p) && Round(p, k).Running? && id < |p.clients|
    ensures Stage(p, id) <= Stage(Round(p, k).state, id)
  {
    hide Inv, Round, HIds, RIds, LIds;
    var resolved, related := RoundMoves(p, k);
    var q := Round(p, k).state;
    if id in HIds(q.handshakes) {
      SubseqIn(HIds(q.handshakes), HIds(p.handshakes) + [|p.clients|], id);
    } else if id in RIds(q.resolvings) {
      SubseqIn(RIds(q.resolvings), RIds(p.resolvings) + resolved, id);
    } else if id in LIds(q.relays) {
      SubseqIn(LIds(q.relays), LIds(p.relays) + related, id);
    }
  }

  lemma {:induction false} GatherSize<X, T>(s: seq<X>, f: X -> multiset<T>)
    requires forall e :: |f(e)| == 1
    ensures |Gather(s, f)| == |s|
  {
    if s != [] {
      GatherSize(s[1..], f);
    }
  }

  lemma {:induction false} AllIdsSize(n: nat)
    ensures |AllIds(n)| == n
  {
    if n > 0 {
      AllIdsSize(n - 1);
    }
  }

  /** Accepted clients are the handshaking, resolving, relaying and closed ones together. */
  lemma AcceptedIsTheSum(p: State)
    requires Counts(p)
    ensures |p.clients| == |p.handshakes| + |p.resolvings| + |p.relays| + |p.closed|
  {
    hide Gather, AllIds;
    AllIdsSize(|p.clients|);
    GatherSize(p.handshakes, HandshakeId);
    GatherSize(p.resolvings, ResolveId);
    GatherSize(p.relays, RelayId);
    GatherSize(p.closed, RelayId);
  }

  /** A client is in one list only, or closed. */
  lemma OneStageEach(p: State, id: nat)
    requires Counts(p) && id < |p.clients|
    ensures Gather(p.handshakes, HandshakeId)[id] + Gather(p.resolvings, ResolveId)[id]
            + Gather(p.relays, RelayId)[id] + Gather(p.closed, RelayId)[id] == 1
  {
    hide Gather;
    AllIdsOnce(|p.clients|, id);
    assert Ids(p)[id] == 1;
  }

  // ---------------------------------------------------------------- back-pressure

  /** The relays listed when the sets were prepared are still in front when they are served. */
  lemma ServedInPlace(p: State, k: Kernel) returns (c: State)
    requires ValidKernel(k) && Inv(p) && Serve(p, k).Running?
    ensures Inv(c) && Serve(p, k).state == Connections(c, k)
    ensures p.relays <= c.relays && SameMasks(p, c)
  {
    hide Inv, Pending, Handshakes, Resolvings, Connections;
    PendingInv(p, k);
    PendingMoves(p, k);
    var a := Pending(p, k).state;
    HandshakesStep(a, k);
    ResolvingsStep(Handshakes(a, k), k);
    c := Resolvings(Handshakes(a, k), k).state;
  }

  /** The relay did at most one transfer each way, and kept what it could not send. */
  ghost predicate OneTransferEach(before: Relaying, after: Relaying) {
    && after.id == before.id && after.target == before.target
    && 0 <= R.Transfers(before.conn.cf, after.conn.cf) <= 1
    && 0 <= R.Transfers(before.conn.fc, after.conn.fc) <= 1
    && (before.conn.cf.count > 0 && after.conn.cf.delivered == before.conn.cf.delivered ==>
          after.conn.cf == before.conn.cf)
    && (before.conn.fc.count > 0 && after.conn.fc.delivered == before.conn.fc.delivered ==>
          after.conn.fc == before.conn.fc)
  }

  /** Every relay listed when prepareSets ran moves at most one chunk each way in the round. */
  lemma RoundTransfersOnce(p: State, k: Kernel, i: nat)
    requires ValidKernel(k) && Inv(p) && Round(p, k).Running?
    requires i < |Prepare(p).state.relays|
    ensures i < |Round(p, k).state.relays|
    ensures OneTransferEach(Prepare(p).state.relays[i], Round(p, k).state.relays[i])
  {
    hide Inv, Prepare, Serve, Connections, Owns, R.RelayOk, R.Answers, R.Exchange;
    PrepareInv(p);
    PrepareAsked(p);
    var q := Prepare(p).state;
    var s, e := Selected(q, k.ready.rd, k.ready.wr), q.relays[i];
    if s.readset != {} || s.writeset != {} {
      var c := ServedInPlace(s, k);
      InvEntries(q);
      InvOwns(q);
      SelectAnswers(q, e, k.ready.rd, k.ready.wr);
      ConnectionAt(c, k, i);
      assert c.relays[i] == e;
      RelayOneTransfers(c, e, k);
    }
  }

  lemma InvOwns(p: State)
    requires Inv(p)
    ensures Owns(p)
  {
  }

  lemma ConnectionAt(c: State, k: Kernel, i: nat)
    requires ValidKernel(k) && Inv(c) && i < |c.relays|
    ensures R.RelayOk(c.relays[i].conn)
    ensures i < |Connections(c, k).relays| && Connections(c, k).relays[i] == RelayOne(c, c.relays[i], k)
  {
    hide Inv, R.RelayOk, RelayOne;
    InvEntries(c);
  }

  lemma RelayOneTransfers(c: State, e: Relaying, k: Kernel)
    requires ValidKernel(k) && R.RelayOk(e.conn) && e.conn.client != e.conn.forward
    requires R.Answers(e.conn, c.readset, c.writeset)
    ensures OneTransferEach(e, RelayOne(c, e, k))
  {
    hide R.RelayOk, R.Answers, R.Exchange;
    RelayShape(c, e, k);
    R.OneTransferPerRound(e.conn, c.readset, c.writeset, RelayIo(k, e.conn));
  }
}
