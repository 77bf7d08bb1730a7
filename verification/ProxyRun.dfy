// Rounds and runs of the event loop (`run`, net_lab7/Server.cpp) and what every run keeps.
module ProxyRun {
  import N = Resolver
  import R = Relay
  import opened Proxy
  import opened ProxyInvariant
  import opened ProxySteps

  // ---------------------------------------------------------------- passes keep the invariant

  /** Masks and the reach of select are not part of the invariant. */
  lemma MasksDoNotMatter(p: State, q: State)
    requires q == p.(readset := q.readset, writeset := q.writeset, fdMax := q.fdMax)
    ensures Inv(q) == Inv(p)
  {
    hide Gather, AllIds, HandshakingOk, ResolvingOk, RelayingOk, ClosedOk;
  }

  lemma InvEntries(p: State)
    requires Inv(p)
    ensures forall e <- p.handshakes :: Tracks(p.clients, e)
    ensures forall e <- p.resolvings :: N.ValidState(e.resolver) && !e.resolver.responseRecived
    ensures forall e <- p.relays :: R.RelayOk(e.conn)
  {
  }

  lemma {:induction false} SweepInv(p: State, todo: seq<Relaying>)
    requires Inv(WithRelays(p, todo))
    ensures Inv(Sweep(p, todo))
    decreases |todo|
  {
    hide Inv, SweepOne;
    if todo == [] {
      assert WithRelays(p, todo) == p by { assert p.relays + [] == p.relays; }
    } else {
      assert [todo[0]] + todo[1..] == todo;
      SweepOneInv(p, todo[0], todo[1..]);
      SweepInv(SweepOne(p, todo[0]), todo[1..]);
    }
  }

  lemma {:induction false} FillHandshakesMasks(p: State, todo: seq<Handshaking>)
    ensures var q := FillHandshakes(p, todo); q == p.(readset := q.readset, writeset := q.writeset)
    decreases |todo|
  {
    if todo != [] {
      FillHandshakesMasks(p.(readset := p.readset + HandshakeReads(todo[0]),
                             writeset := p.writeset + {todo[0].client}), todo[1..]);
    }
  }

  lemma {:induction false} FillResolvingsMasks(p: State, todo: seq<Resolving>)
    requires FillResolvings(p, todo).Running?
    ensures var q := FillResolvings(p, todo).state;
            q == p.(readset := q.readset, writeset := q.writeset, fdMax := q.fdMax)
    decreases |todo|
  {
    if todo != [] {
      var r := todo[0].resolver;
      FillResolvingsMasks(p.(readset := p.readset + ResolverReads(r), writeset := p.writeset + ResolverWrites(r),
                             fdMax := Reach(p.fdMax, r.fd)), todo[1..]);
    }
  }

  /** prepareSets, after the sweep, changes masks only. */
  lemma PrepareIs(p: State)
    requires Prepare(p).Running?
    ensures var q := Prepare(p).state;
            var swept := Sweep(p.(relays := [], readset := {p.listener}, writeset := {}), p.relays);
            q == swept.(readset := q.readset, writeset := q.writeset, fdMax := q.fdMax)
  {
    var swept := Sweep(p.(relays := [], readset := {p.listener}, writeset := {}), p.relays);
    FillHandshakesMasks(swept, swept.handshakes);
    FillResolvingsMasks(FillHandshakes(swept, swept.handshakes), swept.resolvings);
  }

  lemma PrepareInv(p: State)
    requires Inv(p)
    ensures Prepare(p).Running? ==> Inv(Prepare(p).state)
  {
    hide Inv, Sweep;
    var cleared := p.(relays := [], readset := {p.listener}, writeset := {});
    assert WithRelays(cleared, p.relays) == p.(readset := {p.listener}, writeset := {}) by {
      assert [] + p.relays == p.relays;
    }
    MasksDoNotMatter(p, WithRelays(cleared, p.relays));
    SweepInv(cleared, p.relays);
    if Prepare(p).Running? {
      PrepareIs(p);
      MasksDoNotMatter(Sweep(cleared, p.relays), Prepare(p).state);
    }
  }

  lemma {:induction false} HandshakePassInv(p: State, todo: seq<Handshaking>, k: Kernel)
    requires ValidKernel(k) && Inv(WithHandshakes(p, todo)) && forall e <- todo :: Tracks(p.clients, e)
    ensures Inv(HandshakePass(p, todo, k))
    decreases |todo|
  {
    hide Inv, HandshakeOne, Tracks;
    if todo == [] {
      assert WithHandshakes(p, todo) == p by { assert p.handshakes + [] == p.handshakes; }
    } else {
      assert [todo[0]] + todo[1..] == todo;
      assert todo[0] in todo && forall e <- todo[1..] :: e in todo;
      HandshakeOneInv(p, todo[0], todo[1..], k);
      HandshakePassInv(HandshakeOne(p, todo[0], k), todo[1..], k);
    }
  }

  lemma {:induction false} ResolvePassInv(p: State, todo: seq<Resolving>, k: Kernel)
    requires ValidKernel(k) && Inv(WithResolvings(p, todo)) && forall e <- todo :: N.ValidState(e.resolver)
    ensures ResolvePass(p, todo, k).Running? ==> Inv(ResolvePass(p, todo, k).state)
    decreases |todo|
  {
    hide Inv, ResolveOne, N.ValidState;
    if todo == [] {
      assert WithResolvings(p, todo) == p by { assert p.resolvings + [] == p.resolvings; }
    } else {
      assert [todo[0]] + todo[1..] == todo;
      assert todo[0] in todo && forall e <- todo[1..] :: e in todo;
      ResolveOneInv(p, todo[0], todo[1..], k);
      if ResolveOne(p, todo[0], k).Running? {
        ResolvePassInv(ResolveOne(p, todo[0], k).state, todo[1..], k);
      }
    }
  }

  // ---------------------------------------------------------------- rounds

  ghost function Handshakes(p: State, k: Kernel): (q: State)
    requires ValidKernel(k) && Inv(p)
    ensures Inv(q)
  {
    hide Inv, HandshakePass, Tracks;
    InvEntries(p);
    var cleared := p.(handshakes := []);
    assert WithHandshakes(cleared, p.handshakes) == p by { assert [] + p.handshakes == p.handshakes; }
    HandshakePassInv(cleared, p.handshakes, k);
    HandshakePass(cleared, p.handshakes, k)
  }

  ghost function Resolvings(p: State, k: Kernel): (o: Outcome)
    requires ValidKernel(k) && Inv(p)
    ensures o.Running? ==> Inv(o.state)
  {
    hide Inv, ResolvePass, N.ValidState;
    InvEntries(p);
    var cleared := p.(resolvings := []);
    assert WithResolvings(cleared, p.resolvings) == p by { assert [] + p.resolvings == p.resolvings; }
    ResolvePassInv(cleared, p.resolvings, k);
    ResolvePass(cleared, p.resolvings, k)
  }

  ghost function Connections(p: State, k: Kernel): (q: State)
    requires ValidKernel(k) && Inv(p)
    ensures Inv(q)
  {
    InvEntries(p);
    ExchangeAllInv(p, k);
    p.(relays := ExchangeAll(p, p.relays, k))
  }

  /** The four process methods, once select has answered. */
  ghost function Serve(p: State, k: Kernel): (o: Outcome)
    requires ValidKernel(k) && Inv(p)
    ensures o.Running? ==> Inv(o.state)
  {
    hide Inv, Pending, Handshakes, Resolvings, Connections;
    PendingInv(p, k);
    match Pending(p, k)
    case Thrown => Thrown
    case Running(q) =>
      match Resolvings(Handshakes(q, k), k)
      case Thrown => Thrown
      case Running(s) => Running(Connections(s, k))
  }

  ghost function Selected(p: State, rd: set<int>, wr: set<int>): (q: State)
    requires Inv(p)
    ensures Inv(q)
  {
    MasksDoNotMatter(p, p.(readset := p.readset * rd, writeset := p.writeset * wr));
    p.(readset := p.readset * rd, writeset := p.writeset * wr)
  }

  /** One iteration of `run`. */
  ghost function Round(p: State, k: Kernel): (o: Outcome)
    requires ValidKernel(k) && Inv(p)
    ensures o.Running? ==> Inv(o.state)
  {
    hide Inv, Prepare, Serve;
    PrepareInv(p);
    match Prepare(p)
    case Thrown => Thrown
    case Running(q) =>
      match k.ready
      case SelectFailed => Thrown
      case Ready(rd, wr) =>
        var s := Selected(q, rd, wr);
        if s.readset == {} && s.writeset == {} then Running(s) else Serve(s, k)
  }

  lemma InitialInv(pid: nat, listener: int)
    ensures Inv(Initial(pid, listener))
  {
  }

  ghost predicate ValidKernels(ks: seq<Kernel>) {
    forall i :: 0 <= i < |ks| ==> ValidKernel(ks[i])
  }

  lemma RestValid(ks: seq<Kernel>)
    requires ValidKernels(ks) && ks != []
    ensures ValidKernel(ks[0]) && ValidKernels(ks[1..])
  {
  }

  ghost function Run(p: State, ks: seq<Kernel>): (o: Outcome)
    requires ValidKernels(ks) && Inv(p)
    ensures o.Running? ==> Inv(o.state)
    decreases |ks|
  {
    hide Inv, Round, ValidKernel, ValidKernels;
    if ks == [] then Running(p)
    else
      RestValid(ks);
      match Round(p, ks[0])
      case Thrown => Thrown
      case Running(q) => Run(q, ks[1..])
  }
}
