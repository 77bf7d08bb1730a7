// How the rounds call handshakes and resolvers: only as each has asked, and for ever in vain where a
// handshake has set `drop`. What relays are called for is in ProxyNewcomers.dfy.
module ProxyCalls {
  import H = Handshake
  import N = Resolver
  import R = Relay
  import opened Proxy
  import opened ProxyInvariant
  import opened ProxySteps
  import opened ProxyRun
  import opened ProxyTheorems
  import opened ProxyProgress
  import opened ProxyGuarantees

  // ---------------------------------------------------------------- only as asked

  /** Descriptors opened in the pass over the handshakes are new to everything asked before. */
  lemma {:induction false} HandshakePassOpens(p: State, todo: seq<Handshaking>, k: Kernel)
    requires ValidKernel(k) && forall e <- todo :: Tracks(p.clients, e)
    ensures var q := HandshakePass(p, todo, k);
            && p.open <= q.open && p.resolvings <= q.resolvings
            && forall i :: |p.resolvings| <= i < |q.resolvings| ==> q.resolvings[i].resolver.fd !in p.open
    decreases |todo|
  {
    hide H.Feed, H.TraceOk, R.NewRelay, Tracks, N.NewBuffer;
    if todo != [] {
      assert todo[0] in todo && forall e <- todo[1..] :: e in todo;
      var r := HandshakeOne(p, todo[0], k);
      HandshakePassOpens(r, todo[1..], k);
    }
  }

  /** The state in which the resolvers are called: accepting and the handshakes are done. */
  ghost function AtResolvers(p: State, k: Kernel): State
    requires ValidKernel(k) && Inv(p) && Pending(p, k).Running?
  {
    PendingInv(p, k);
    Handshakes(Pending(p, k).state, k)
  }

  /** A handshake is called to read only when it waits for a message. */
  ghost predicate HandshakeCalledAsAsked(p: State, e: Handshaking) {
    e.client in p.readset ==> H.WantsRead(e.trace.state)
  }

  /**
    A resolver is called to write only while its query is not out, and to read only afterwards; no
    message has overwritten its query yet.
   */
  ghost predicate ResolverCalledAsAsked(p: State, e: Resolving) {
    && !e.resolver.responseRecived
    && N.AnswersAsked(e.resolver, e.resolver.fd in p.readset, e.resolver.fd in p.writeset)
  }

  /**
    In every round, whatever select answers, the handshakes and resolvers that the passes call,
    newcomers of the same round included, are called only as they asked.
   */
  lemma CalledAsAsked(p: State, k: Kernel)
    requires ValidKernel(k) && Inv(p) && Prepare(p).Running? && k.ready.Ready?
    ensures Inv(Prepare(p).state)
    ensures var s := Selected(Prepare(p).state, k.ready.rd, k.ready.wr);
            Pending(s, k).Running? ==>
              && (forall e <- Pending(s, k).state.handshakes :: HandshakeCalledAsAsked(Pending(s, k).state, e))
              && (forall e <- AtResolvers(s, k).resolvings :: ResolverCalledAsAsked(AtResolvers(s, k), e))
  {
    hide Inv, Prepare, Owns, MasksAsked, HandshakePass, H.WantsRead;
    PrepareInv(p);
    PrepareAsked(p);
    var q := Prepare(p).state;
    InvOwns(q);
    MasksAreOpen(q);
    var s := Selected(q, k.ready.rd, k.ready.wr);
    if Pending(s, k).Running? {
      PendingInv(s, k);
      var a := Pending(s, k).state;
      forall e | e in a.handshakes ensures HandshakeCalledAsAsked(a, e) {
        if e in q.handshakes { SelectAnswersHandshake(q, e, k.ready.rd); }
      }
      ResolversCalledAsAsked(q, s, a, k);
    }
  }

  lemma ResolversCalledAsAsked(q: State, s: State, a: State, k: Kernel)
    requires ValidKernel(k) && Owns(q) && MasksAsked(q) && k.ready.Ready?
    requires s == q.(readset := q.readset * k.ready.rd, writeset := q.writeset * k.ready.wr)
    requires Inv(s) && Pending(s, k) == Running(a) && Inv(a)
    ensures forall e <- Handshakes(a, k).resolvings :: ResolverCalledAsAsked(Handshakes(a, k), e)
  {
    hide Inv, Owns, MasksAsked, HandshakePass, N.AnswersAsked;
    MasksAreOpen(q);
    PendingMoves(s, k);
    HandshakesStep(a, k);
    InvEntries(a);
    HandshakePassOpens(a.(handshakes := []), a.handshakes, k);
    var b := Handshakes(a, k);
    InvEntries(b);
    forall e | e in b.resolvings ensures ResolverCalledAsAsked(b, e) {
      if e in q.resolvings {
        SelectAnswersResolver(q, e, k.ready.rd, k.ready.wr);
      } else {
        assert e.resolver.fd !in a.open;
        NobodyCalls(e.resolver);
      }
    }
  }

  lemma NobodyCalls(r: N.ResolverState)
    ensures N.AnswersAsked(r, false, false)
  {
  }

  // ---------------------------------------------------------------- dropped handshakes

  lemma HandshakeOneKeeps(p: State, e: Handshaking, k: Kernel)
    requires ValidKernel(k) && Tracks(p.clients, e)
    ensures p.handshakes <= HandshakeOne(p, e, k).handshakes
    ensures e.trace.state.drop ==> e in HandshakeOne(p, e, k).handshakes
  {
    hide N.NewResolver, R.NewRelay;
    if e.trace.state.drop {
      var i := H.HandshakeInput(e.client in p.readset, e.client in p.writeset, k.handshakeIo(e.client));
      assert [i][1..] == [];
      H.DroppedIsStuck(e.trace, [i]);
      assert FeedOne(p, e, k) == e.trace;
    }
  }

  lemma {:induction false} HandshakePassKeeps(p: State, todo: seq<Handshaking>, k: Kernel, e: Handshaking)
    requires ValidKernel(k) && forall x <- todo :: Tracks(p.clients, x)
    requires e.trace.state.drop && (e in p.handshakes || e in todo)
    ensures e in HandshakePass(p, todo, k).handshakes
    decreases |todo|
  {
    hide HandshakeOne, Tracks;
    if todo != [] {
      assert todo[0] in todo && forall x <- todo[1..] :: x in todo;
      HandshakeOneKeeps(p, todo[0], k);
      HandshakePassKeeps(HandshakeOne(p, todo[0], k), todo[1..], k, e);
    }
  }

  lemma ServeKeepsDropped(p: State, k: Kernel, e: Handshaking)
    requires ValidKernel(k) && Inv(p) && Serve(p, k).Running?
    requires e in p.handshakes && e.trace.state.drop
    ensures e in Serve(p, k).state.handshakes
  {
    hide Inv, HandshakePass, Resolvings, Connections;
    PendingInv(p, k);
    var a := Pending(p, k).state;
    assert e in a.handshakes;
    InvEntries(a);
    HandshakePassKeeps(a.(handshakes := []), a.handshakes, k, e);
    var b := Handshakes(a, k);
    ResolvingsStep(b, k);
    ConnectionsStep(Resolvings(b, k).state, k);
  }

  lemma RoundKeepsDropped(p: State, k: Kernel, e: Handshaking)
    requires ValidKernel(k) && Inv(p) && Round(p, k).Running?
    requires e in p.handshakes && e.trace.state.drop
    ensures e in Round(p, k).state.handshakes
  {
    hide Inv, Prepare, Serve;
    PrepareInv(p);
    PrepareMoves(p);
    var s := Selected(Prepare(p).state, k.ready.rd, k.ready.wr);
    if s.readset != {} || s.writeset != {} {
      ServeKeepsDropped(s, k, e);
    }
  }

  /** A listed handshake with `drop` set stays listed as it is, and its client's descriptor open, over any rounds. */
  lemma {:induction false} DroppedStays(p: State, ks: seq<Kernel>, e: Handshaking)
    requires ValidKernels(ks) && Inv(p) && Run(p, ks).Running?
    requires e in p.handshakes && e.trace.state.drop
    ensures e in Run(p, ks).state.handshakes && e.client in Run(p, ks).state.open
    decreases |ks|
  {
    hide Inv, Round, ValidKernel;
    if ks == [] {
      InvOwns(p);
      assert e.client in HandshakeFds(e);
      OpenIffListed(p, e.client);
    } else {
      RoundKeepsDropped(p, ks[0], e);
      DroppedStays(Round(p, ks[0]).state, ks[1..], e);
    }
  }

  /**
    After every run, a listed handshake is beyond help exactly if it has set `drop`: then no input
    lets it finish and no further run removes it or closes its client; otherwise its client can
    still bring it to its end.
   */
  lemma DroppedForEver(pid: nat, listener: int, ks: seq<Kernel>, p: State, e: Handshaking, more: seq<Kernel>)
    requires ValidKernels(ks) && From(pid, listener, ks) == Running(p) && e in p.handshakes
    requires ValidKernels(more)
    ensures H.Shape(e.trace.state) && (H.CanFinish(e.trace) <==> !e.trace.state.drop)
    ensures Inv(p)
    ensures e.trace.state.drop && Run(p, more).Running? ==>
              e in Run(p, more).state.handshakes && e.client in Run(p, more).state.open
  {
    hide Inv, Run, H.TraceOk, H.CanFinish;
    FromInv(pid, listener, ks, p);
    InvEntries(p);
    H.CanFinishIff(e.trace, e.client, p.clients[e.id].memory);
    if e.trace.state.drop && Run(p, more).Running? {
      DroppedStays(p, more, e);
    }
  }
}
