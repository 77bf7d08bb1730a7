// What every run of the proxy guarantees, spelled out.
module ProxyTheorems {
  import H = Handshake
  import N = Resolver
  import R = Relay
  import opened Proxy
  import opened ProxyInvariant
  import opened ProxyRun

  // ---------------------------------------------------------------- descriptors

  lemma {:induction false} GatherOne<X, T>(s: seq<X>, f: X -> multiset<T>, e: X)
    requires e in s
    ensures f(e) <= Gather(s, f)
  {
    if e != s[0] {
      GatherOne(s[1..], f, e);
    }
  }

  lemma {:induction false} GatherTwo<X, T>(s: seq<X>, f: X -> multiset<T>, d: X, e: X)
    requires d in s && e in s && d != e
    ensures f(d) + f(e) <= Gather(s, f)
  {
    if d == s[0] {
      GatherOne(s[1..], f, e);
    } else if e == s[0] {
      GatherOne(s[1..], f, d);
    } else {
      GatherTwo(s[1..], f, d, e);
    }
  }

  lemma {:induction false} GatherFrom<X, T>(s: seq<X>, f: X -> multiset<T>, x: T)
    requires x in Gather(s, f)
    ensures exists e <- s :: x in f(e)
  {
    if x in f(s[0]) {
      assert s[0] in s;
    } else {
      GatherFrom(s[1..], f, x);
      var e :| e in s[1..] && x in f(e);
      assert e in s;
    }
  }

  /** An open descriptor is the listener or belongs to a listed entry; a listed entry's is open. */
  lemma OpenIffListed(p: State, fd: int)
    requires Owns(p)
    ensures fd in p.open <==>
          fd == p.listener || (exists e <- p.handshakes :: fd in HandshakeFds(e))
          || (exists e <- p.resolvings :: fd in ResolveFds(e)) || (exists e <- p.relays :: fd in RelayFds(e))
  {
    hide Gather, HandshakeFds, ResolveFds, RelayFds;
    assert fd in p.open <==> fd in Owned(p);
    if fd in Gather(p.handshakes, HandshakeFds) { GatherFrom(p.handshakes, HandshakeFds, fd); }
    if fd in Gather(p.resolvings, ResolveFds) { GatherFrom(p.resolvings, ResolveFds, fd); }
    if fd in Gather(p.relays, RelayFds) { GatherFrom(p.relays, RelayFds, fd); }
    if e :| e in p.handshakes && fd in HandshakeFds(e) { GatherIn(p.handshakes, HandshakeFds, e, fd); }
    if e :| e in p.resolvings && fd in ResolveFds(e) { GatherIn(p.resolvings, ResolveFds, e, fd); }
    if e :| e in p.relays && fd in RelayFds(e) { GatherIn(p.relays, RelayFds, e, fd); }
  }

  /** Two parts of what is owned have no descriptor in common. */
  lemma PartsApart(p: State, a: multiset<int>, b: multiset<int>, fd: int)
    requires Owns(p) && a + b <= Owned(p)
    ensures fd !in a || fd !in b
  {
    assert (a + b)[fd] <= multiset(p.open)[fd] <= 1;
  }

  lemma RelayEndsApart(p: State, e: Relaying)
    requires Owns(p) && e in p.relays
    ensures e.conn.client != e.conn.forward
  {
    hide Gather, HandshakeFds, ResolveFds;
    GatherOne(p.relays, RelayFds, e);
    PartsApart(p, multiset{e.conn.client}, multiset{e.conn.forward}, e.conn.client);
  }

  /** A relay's descriptors belong to nobody else. */
  lemma RelayApart(p: State, e: Relaying, fd: int)
    requires Owns(p) && e in p.relays && fd in RelayFds(e)
    ensures e.conn.client != e.conn.forward && fd != p.listener
    ensures forall h <- p.handshakes :: fd !in HandshakeFds(h)
    ensures forall r <- p.resolvings :: fd !in ResolveFds(r)
    ensures forall d <- p.relays :: d != e ==> fd !in RelayFds(d)
  {
    hide Gather, HandshakeFds, ResolveFds, RelayFds;
    RelayEndsApart(p, e);
    GatherOne(p.relays, RelayFds, e);
    var rest := Gather(p.relays, RelayFds);
    PartsApart(p, multiset{p.listener}, rest, fd);
    forall h | h in p.handshakes ensures fd !in HandshakeFds(h) {
      GatherOne(p.handshakes, HandshakeFds, h);
      PartsApart(p, HandshakeFds(h), rest, fd);
    }
    forall r | r in p.resolvings ensures fd !in ResolveFds(r) {
      GatherOne(p.resolvings, ResolveFds, r);
      PartsApart(p, ResolveFds(r), rest, fd);
    }
    forall d | d in p.relays && d != e ensures fd !in RelayFds(d) {
      GatherTwo(p.relays, RelayFds, d, e);
      PartsApart(p, RelayFds(d), RelayFds(e), fd);
    }
  }

  // ---------------------------------------------------------------- who asked for what

  /** The listener, or a listed entry that waits to read from this descriptor. */
  ghost predicate ReadAsked(p: State, fd: int) {
    || fd == p.listener
    || (exists h <- p.handshakes :: fd in HandshakeReads(h))
    || (exists r <- p.resolvings :: fd in ResolverReads(r.resolver))
    || (exists e <- p.relays :: fd in R.AskedRead(e.conn))
  }

  /** A listed entry that waits to write to this descriptor. */
  ghost predicate WriteAsked(p: State, fd: int) {
    || (exists h <- p.handshakes :: fd == h.client)
    || (exists r <- p.resolvings :: fd in ResolverWrites(r.resolver))
    || (exists e <- p.relays :: fd in R.AskedWrite(e.conn))
  }

  /** Every descriptor in a mask was put there by an entry that waits for just that. */
  ghost predicate MasksAsked(p: State) {
    (forall fd <- p.readset :: ReadAsked(p, fd)) && (forall fd <- p.writeset :: WriteAsked(p, fd))
  }

  /** More entries can only ask for more. */
  lemma AskedMore(p: State, q: State)
    requires q.listener == p.listener && q.handshakes == p.handshakes && q.resolvings == p.resolvings
    requires forall e <- p.relays :: e in q.relays
    ensures forall fd :: ReadAsked(p, fd) ==> ReadAsked(q, fd)
    ensures forall fd :: WriteAsked(p, fd) ==> WriteAsked(q, fd)
  {
  }

  lemma {:induction false} SweepMasks(p: State, todo: seq<Relaying>)
    requires MasksAsked(p)
    ensures MasksAsked(Sweep(p, todo))
    decreases |todo|
  {
    hide R.AskedRead, R.AskedWrite, HandshakeReads, ResolverReads, ResolverWrites;
    if todo != [] {
      var e, q := todo[0], SweepOne(p, todo[0]);
      AskedMore(p, q);
      assert !e.conn.toDisconnect ==> e in q.relays;
      SweepMasks(q, todo[1..]);
    }
  }

  lemma {:induction false} FillHandshakesAsked(p: State, todo: seq<Handshaking>)
    requires MasksAsked(p) && forall h <- todo :: h in p.handshakes
    ensures MasksAsked(FillHandshakes(p, todo))
    decreases |todo|
  {
    hide R.AskedRead, R.AskedWrite, HandshakeReads, ResolverReads, ResolverWrites;
    if todo != [] {
      var h := todo[0];
      var q := p.(readset := p.readset + HandshakeReads(h), writeset := p.writeset + {h.client});
      AskedMore(p, q);
      assert h in todo && forall x <- todo[1..] :: x in todo;
      FillHandshakesAsked(q, todo[1..]);
    }
  }

  lemma {:induction false} FillResolvingsAsked(p: State, todo: seq<Resolving>)
    requires MasksAsked(p) && (forall r <- todo :: r in p.resolvings) && FillResolvings(p, todo).Running?
    ensures MasksAsked(FillResolvings(p, todo).state)
    decreases |todo|
  {
    hide R.AskedRead, R.AskedWrite, HandshakeReads, ResolverReads, ResolverWrites;
    if todo != [] {
      var e, r := todo[0], todo[0].resolver;
      var q := p.(readset := p.readset + ResolverReads(r), writeset := p.writeset + ResolverWrites(r),
                  fdMax := Reach(p.fdMax, r.fd));
      AskedMore(p, q);
      assert e in todo && forall x <- todo[1..] :: x in todo;
      FillResolvingsAsked(q, todo[1..]);
    }
  }

  lemma PrepareAsked(p: State)
    requires Prepare(p).Running?
    ensures MasksAsked(Prepare(p).state)
  {
    hide R.AskedRead, R.AskedWrite, HandshakeReads, ResolverReads, ResolverWrites;
    var cleared := p.(relays := [], readset := {p.listener}, writeset := {});
    var swept := Sweep(cleared, p.relays);
    SweepMasks(cleared, p.relays);
    FillHandshakesAsked(swept, swept.handshakes);
    FillHandshakesMasks(swept, swept.handshakes);
    FillResolvingsAsked(FillHandshakes(swept, swept.handshakes), swept.resolvings);
  }

  /** Whoever waits for a descriptor owns it. */
  lemma ReadersOwn(p: State, fd: int)
    requires ReadAsked(p, fd)
    ensures || fd == p.listener
            || (exists h <- p.handshakes :: fd in HandshakeFds(h) && H.WantsRead(h.trace.state))
            || (exists r <- p.resolvings :: fd in ResolveFds(r) && fd in ResolverReads(r.resolver))
            || (exists e <- p.relays :: fd in RelayFds(e) && fd in R.AskedRead(e.conn))
  {
    hide H.WantsRead;
    if h :| h in p.handshakes && fd in HandshakeReads(h) { assert fd in HandshakeFds(h); }
    if r :| r in p.resolvings && fd in ResolverReads(r.resolver) { assert fd in ResolveFds(r); }
    if e :| e in p.relays && fd in R.AskedRead(e.conn) { assert fd in RelayFds(e); }
  }

  lemma WritersOwn(p: State, fd: int)
    requires WriteAsked(p, fd)
    ensures || (exists h <- p.handshakes :: fd in HandshakeFds(h))
            || (exists r <- p.resolvings :: fd in ResolveFds(r) && fd in ResolverWrites(r.resolver))
            || (exists e <- p.relays :: fd in RelayFds(e) && fd in R.AskedWrite(e.conn))
  {
    if h :| h in p.handshakes && fd == h.client { assert fd in HandshakeFds(h); }
    if r :| r in p.resolvings && fd in ResolverWrites(r.resolver) { assert fd in ResolveFds(r); }
    if e :| e in p.relays && fd in R.AskedWrite(e.conn) { assert fd in RelayFds(e); }
  }

  /** A mask holds only open descriptors. */
  lemma MasksAreOpen(p: State)
    requires Owns(p) && MasksAsked(p)
    ensures p.readset <= p.open && p.writeset <= p.open
  {
    hide Owns, ReadAsked, WriteAsked, HandshakeFds, ResolveFds, RelayFds;
    forall fd | fd in p.readset + p.writeset ensures fd in p.open {
      if fd in p.readset { ReadersOwn(p, fd); } else { WritersOwn(p, fd); }
      OpenIffListed(p, fd);
    }
  }

  /** Of a relay's own descriptors, the masks hold only what the relay asked for. */
  lemma RelayAsksAlone(p: State, e: Relaying, fd: int)
    requires Owns(p) && e in p.relays && fd in RelayFds(e)
    ensures ReadAsked(p, fd) ==> fd in R.AskedRead(e.conn)
    ensures WriteAsked(p, fd) ==> fd in R.AskedWrite(e.conn)
  {
    hide Owns, ReadAsked, WriteAsked, R.AskedRead, R.AskedWrite, H.WantsRead, HandshakeFds, ResolveFds, RelayFds,
         ResolverReads, ResolverWrites;
    RelayApart(p, e, fd);
    if ReadAsked(p, fd) { ReadersOwn(p, fd); }
    if WriteAsked(p, fd) { WritersOwn(p, fd); }
  }

  /** Whatever select answers, a listed relay's descriptors are ready only as the relay asked. */
  lemma SelectAnswers(p: State, e: Relaying, rd: set<int>, wr: set<int>)
    requires Owns(p) && MasksAsked(p) && e in p.relays
    ensures R.Answers(e.conn, p.readset * rd, p.writeset * wr)
    ensures e.conn.client != e.conn.forward
  {
    hide Owns, ReadAsked, WriteAsked, R.AskedRead, R.AskedWrite;
    RelayApart(p, e, e.conn.client);
    RelayAsksAlone(p, e, e.conn.client);
    RelayAsksAlone(p, e, e.conn.forward);
  }

  /** A resolver's socket belongs to nobody else, and its client's descriptor is another one. */
  lemma ResolverApart(p: State, e: Resolving)
    requires Owns(p) && e in p.resolvings
    ensures e.client != e.resolver.fd && e.resolver.fd != p.listener
    ensures forall h <- p.handshakes :: e.resolver.fd !in HandshakeFds(h)
    ensures forall r <- p.resolvings :: r != e ==> e.resolver.fd !in ResolveFds(r)
    ensures forall d <- p.relays :: e.resolver.fd !in RelayFds(d)
  {
    hide Gather, RelayFds;
    var fd, rest := e.resolver.fd, Gather(p.resolvings, ResolveFds);
    GatherOne(p.resolvings, ResolveFds, e);
    PartsApart(p, multiset{e.client}, multiset{fd}, fd);
    PartsApart(p, multiset{p.listener}, rest, fd);
    forall h | h in p.handshakes ensures fd !in HandshakeFds(h) {
      GatherOne(p.handshakes, HandshakeFds, h);
      PartsApart(p, HandshakeFds(h), rest, fd);
    }
    forall d | d in p.relays ensures fd !in RelayFds(d) {
      GatherOne(p.relays, RelayFds, d);
      PartsApart(p, rest, RelayFds(d), fd);
    }
    forall r | r in p.resolvings && r != e ensures fd !in ResolveFds(r) {
      GatherTwo(p.resolvings, ResolveFds, r, e);
      PartsApart(p, ResolveFds(r), ResolveFds(e), fd);
    }
  }

  /** Whatever select answers, a listed resolver is written to only before its query is out, and read only after. */
  lemma SelectAnswersResolver(p: State, e: Resolving, rd: set<int>, wr: set<int>)
    requires Owns(p) && MasksAsked(p) && e in p.resolvings
    ensures N.AnswersAsked(e.resolver, e.resolver.fd in p.readset * rd, e.resolver.fd in p.writeset * wr)
  {
    hide Owns, ReadAsked, WriteAsked, R.AskedRead, R.AskedWrite, H.WantsRead, HandshakeFds, RelayFds;
    var fd := e.resolver.fd;
    ResolverApart(p, e);
    assert fd in ResolveFds(e);
    if fd in p.readset { ReadersOwn(p, fd); }
    if fd in p.writeset { WritersOwn(p, fd); }
  }

  /** A handshaking client's descriptor belongs to nobody else. */
  lemma HandshakeApart(p: State, e: Handshaking)
    requires Owns(p) && e in p.handshakes
    ensures e.client != p.listener
    ensures forall h <- p.handshakes :: h != e ==> e.client !in HandshakeFds(h)
    ensures forall r <- p.resolvings :: e.client !in ResolveFds(r)
    ensures forall d <- p.relays :: e.client !in RelayFds(d)
  {
    hide Gather, ResolveFds, RelayFds;
    var fd, rest := e.client, Gather(p.handshakes, HandshakeFds);
    GatherOne(p.handshakes, HandshakeFds, e);
    PartsApart(p, multiset{p.listener}, rest, fd);
    forall r | r in p.resolvings ensures fd !in ResolveFds(r) {
      GatherOne(p.resolvings, ResolveFds, r);
      PartsApart(p, rest, ResolveFds(r), fd);
    }
    forall d | d in p.relays ensures fd !in RelayFds(d) {
      GatherOne(p.relays, RelayFds, d);
      PartsApart(p, rest, RelayFds(d), fd);
    }
    forall h | h in p.handshakes && h != e ensures fd !in HandshakeFds(h) {
      GatherTwo(p.handshakes, HandshakeFds, h, e);
      PartsApart(p, HandshakeFds(h), HandshakeFds(e), fd);
    }
  }

  /** Whatever select answers, a listed handshake is read only when it waits for a message. */
  lemma SelectAnswersHandshake(p: State, e: Handshaking, rd: set<int>)
    requires Owns(p) && MasksAsked(p) && e in p.handshakes
    ensures e.client in p.readset * rd ==> H.WantsRead(e.trace.state)
  {
    hide Owns, ReadAsked, R.AskedRead, H.WantsRead, ResolveFds, RelayFds;
    HandshakeApart(p, e);
    if e.client in p.readset { ReadersOwn(p, e.client); }
  }

  // ---------------------------------------------------------------- nobody is left out

  /** The masks hold everything the listed entries wait for. */
  ghost predicate MasksComplete(p: State) {
    && p.listener in p.readset
    && (forall e <- p.relays :: R.AskedRead(e.conn) <= p.readset && R.AskedWrite(e.conn) <= p.writeset)
    && (forall h <- p.handshakes :: HandshakeReads(h) <= p.readset && h.client in p.writeset)
    && (forall r <- p.resolvings :: ResolverReads(r.resolver) <= p.readset && ResolverWrites(r.resolver) <= p.writeset)
  }

  lemma {:induction false} SweepFills(p: State, todo: seq<Relaying>)
    requires p.listener in p.readset
    requires forall e <- p.relays :: R.AskedRead(e.conn) <= p.readset && R.AskedWrite(e.conn) <= p.writeset
    ensures var q := Sweep(p, todo);
            && q.listener == p.listener && p.readset <= q.readset && p.writeset <= q.writeset
            && forall e <- q.relays :: R.AskedRead(e.conn) <= q.readset && R.AskedWrite(e.conn) <= q.writeset
    decreases |todo|
  {
    hide R.AskedRead, R.AskedWrite;
    if todo != [] {
      SweepFills(SweepOne(p, todo[0]), todo[1..]);
    }
  }

  lemma {:induction false} FillHandshakesFills(p: State, todo: seq<Handshaking>)
    ensures var q := FillHandshakes(p, todo);
            && p.readset <= q.readset && p.writeset <= q.writeset
            && forall h <- todo :: HandshakeReads(h) <= q.readset && h.client in q.writeset
    decreases |todo|
  {
    hide HandshakeReads;
    if todo != [] {
      var h := todo[0];
      FillHandshakesFills(p.(readset := p.readset + HandshakeReads(h), writeset := p.writeset + {h.client}), todo[1..]);
      assert forall x <- todo :: x == h || x in todo[1..];
    }
  }

  lemma {:induction false} FillResolvingsFills(p: State, todo: seq<Resolving>)
    requires FillResolvings(p, todo).Running?
    ensures var q := FillResolvings(p, todo).state;
            && p.readset <= q.readset && p.writeset <= q.writeset && p.fdMax <= q.fdMax
            && forall r <- todo :: ResolverReads(r.resolver) <= q.readset && ResolverWrites(r.resolver) <= q.writeset
                                   && r.resolver.fd < q.fdMax
    decreases |todo|
  {
    hide ResolverReads, ResolverWrites;
    if todo != [] {
      var r := todo[0].resolver;
      FillResolvingsFills(p.(readset := p.readset + ResolverReads(r), writeset := p.writeset + ResolverWrites(r),
                             fdMax := Reach(p.fdMax, r.fd)), todo[1..]);
      assert forall x <- todo :: x == todo[0] || x in todo[1..];
    }
  }

  /** prepareSets asks select for everything any listed entry waits for. */
  lemma PrepareFillsAll(p: State)
    requires Prepare(p).Running?
    ensures MasksComplete(Prepare(p).state)
    ensures forall r <- Prepare(p).state.resolvings :: r.resolver.fd < Prepare(p).state.fdMax
    ensures p.fdMax <= Prepare(p).state.fdMax
  {
    hide R.AskedRead, R.AskedWrite, HandshakeReads, ResolverReads, ResolverWrites;
    var cleared := p.(relays := [], readset := {p.listener}, writeset := {});
    var swept := Sweep(cleared, p.relays);
    SweepFills(cleared, p.relays);
    FillHandshakesFills(swept, swept.handshakes);
    FillHandshakesMasks(swept, swept.handshakes);
    var filled := FillHandshakes(swept, swept.handshakes);
    FillResolvingsFills(filled, swept.resolvings);
    FillResolvingsMasks(filled, swept.resolvings);
    SweepKeepsReach(cleared, p.relays);
  }

  lemma {:induction false} SweepKeepsReach(p: State, todo: seq<Relaying>)
    ensures Sweep(p, todo).fdMax == p.fdMax && Sweep(p, todo).listener == p.listener
    ensures Sweep(p, todo).clients == p.clients
    decreases |todo|
  {
    if todo != [] {
      SweepKeepsReach(SweepOne(p, todo[0]), todo[1..]);
    }
  }
}
