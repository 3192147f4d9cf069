/**
The close record of src/agenttalk/acceptance.py as the object its transactions update in place. Its
invariant is the agreement of hashes, ledger and acknowledgements; each method says what a caller may
rely on afterwards.
*/
module CloseRecord {
  import opened Wrappers
  import opened AcceptanceAttempt

  /** The acknowledgement was bound when the route stood here or earlier. */
  predicate PastBinding(binding: Option<Binding>, route: Option<Route>)
  {
    match binding
    case None => true
    case Some(bound) =>
      && route.Some?
      && bound.identity == route.value.identity && bound.obligations == route.value.obligations
      && bound.commit in {None, route.value.commit} && bound.bundle in {None, route.value.bundle}
      && bound.reconcile in {None, route.value.reconcile}
  }

  predicate PastBindings(r: Record)
  {
    forall lens :: lens in r.acks ==> PastBinding(r.acks[lens].binding, r.route)
  }

  /** No acceptance given so far attests the route as it stands. */
  ghost predicate NothingBound(r: Record)
    requires r.route.Some?
  {
    forall lens, actors :: !BoundAccept(r, r.route.value, lens, actors)
  }

  ghost predicate Agrees(r: Record, plan: Plan)
  {
    PastBindings(r) && exists c: nat, b: nat, d: nat :: Told(r, plan, c, b, d)
  }

  lemma {:induction false} OpenedAgrees(lenses: set<Lens>, plan: Plan)
    ensures Agrees(Opened(lenses), plan)
  {
    assert Told(Opened(lenses), plan, 0, 0, 0);
  }

  lemma {:induction false} AfterAgrees(r: Record, plan: Plan, a: Action)
    requires Agrees(r, plan)
    ensures Agrees(After(r, plan, a), plan)
  {
    var c: nat, b: nat, d: nat :| Told(r, plan, c, b, d);
    StepKeeps(r, plan, c, b, d, a);
    var (c1, b1, d1) := Moved(r, plan, a, c, b, d);
    assert Told(After(r, plan, a), plan, c1, b1, d1);
    AfterPast(r, plan, a);
  }

  lemma {:induction false} AfterPast(r: Record, plan: Plan, a: Action)
    requires PastBindings(r)
    ensures PastBindings(After(r, plan, a))
  {
    var next := After(r, plan, a);
    forall lens | lens in next.acks ensures PastBinding(next.acks[lens].binding, next.route) {
      if lens in r.acks && next.acks[lens] == r.acks[lens] {
        assert PastBinding(r.acks[lens].binding, r.route);
      }
    }
  }

  /** A phase that went through sets a hash no earlier binding can name. */
  lemma {:induction false} PhaseUnbinds(r: Record, plan: Plan, a: Action)
    requires Agrees(r, plan) && (a.Freeze? || a.Commit? || a.Attach? || a.Reconcile?) && Step(r, plan, a).Ok?
    ensures NothingBound(Step(r, plan, a).value)
  {
    var next := Step(r, plan, a).value;
    forall lens, actors ensures !BoundAccept(next, next.route.value, lens, actors) {
      if lens in next.acks {
        assert PastBinding(r.acks[lens].binding, r.route);
      }
    }
  }

  /**
  One acknowledgement more: it attests the route exactly when it is an acceptance of a frozen route without
  override, the ledger tells it, and other lenses keep theirs.
  */
  predicate Acknowledged(r: Record, next: Record, lens: Lens, actor: Actor, status: AckStatus, override: bool)
  {
    && lens in next.acks && next.events == r.events + [Acked(lens, actor, status)]
    && (next.route.Some? ==> (BoundAccept(next, next.route.value, lens, {actor}) <==> status == Accept && !override))
    && (next.route.None? ==> next.acks[lens].binding == None)
    && (forall other :: other in r.acks ==> other in next.acks && (other == lens || next.acks[other] == r.acks[other]))
    && (forall other :: other in next.acks ==> other in r.acks || other == lens)
  }

  lemma {:induction false} AckBinds(r: Record, plan: Plan, lens: Lens, actor: Actor, status: AckStatus, override: bool)
    requires !r.published
    ensures Acknowledged(r, After(r, plan, Acknowledge(lens, actor, status, override)), lens, actor, status, override)
  {
  }

  /** All three phases are on the ledger, once and in order, and nobody has attested the outcome yet. */
  ghost predicate Reconciled(r: Record, reviewer: Actor)
  {
    && r.route.Some? && r.route.value.commit.Some? && r.route.value.bundle.Some?
    && r.route.value.reconcile.Some? && r.route.value.attachedBy.Some?
    && OrderHolds(r, r.route.value, reviewer) && NothingBound(r)
  }

  lemma {:induction false} AfterReconcile(r: Record, plan: Plan, a: Action)
    requires Agrees(r, plan) && a.Reconcile? && Step(r, plan, a).Ok?
    ensures Agrees(After(r, plan, a), plan) && Reconciled(After(r, plan, a), plan.reviewer)
  {
    AfterAgrees(r, plan, a);
    PhaseUnbinds(r, plan, a);
    var next := After(r, plan, a);
    var c: nat, b: nat, d: nat :| Told(next, plan, c, b, d);
    var route := next.route.value;
    UniqueMatch(next.events, ColdCommitted(plan.reviewer, route.commit.value), c);
    UniqueMatch(next.events, Attached(route.attachedBy.value, route.bundle.value), b);
    UniqueMatch(next.events, ColdReconciled(plan.reviewer, route.reconcile.value), d);
  }

  /** The phases stand in order on the route. */
  predicate InOrder(route: Option<Route>)
  {
    route.Some? ==>
      && (route.value.bundle.Some? ==> route.value.commit.Some?) && (route.value.reconcile.Some? ==> route.value.bundle.Some?)
      && (route.value.attachedBy.Some? <==> route.value.bundle.Some?)
  }

  /** The same record as an object whose transactions update it in place. */
  class Close {
    const plan: Plan
    var route: Option<Route>
    var published: bool
    var lenses: set<Lens>
    var acks: map<Lens, Ack>
    var events: seq<Event>
    var observations: map<string, bool>
    var reproductions: map<string, Actor>
    var resolved: set<string>

    function Value(): Record
      reads this
    {
      Record(route, published, lenses, acks, events, observations, reproductions, resolved)
    }

    ghost predicate Valid()
      reads this
    {
      Agrees(Value(), plan)
    }

    constructor (plan: Plan, lenses: set<Lens>)
      ensures Valid() && this.plan == plan && Value() == Opened(lenses)
    {
      this.plan := plan;
      this.lenses := lenses;
      route, published, acks, events := None, false, map[], [];
      observations, reproductions, resolved := map[], map[], {};
      OpenedAgrees(lenses, plan);
    }

    /** Only once, and nobody's earlier acknowledgement counts for the frozen route. */
    method FreezeRoute(identity: nat, obligations: Digest, intact: bool) returns (error: Option<Error>)
      requires Valid()
      modifies this
      ensures Valid() && Value() == After(old(Value()), plan, Freeze(identity, obligations, intact))
      ensures error.None? <==> old(route).None? && intact
      ensures error == Some(PolicyInvalid) <==> old(route).Some?
      ensures error.Some? ==> error.value in {PolicyInvalid, PlanChangedStale} && Value() == old(Value())
      ensures error.None? ==> route == Some(Route(identity, obligations, None, None, None, None)) && NothingBound(Value())
      ensures error.None? ==> ColdLens in lenses && forall p :: p in plan.partitions ==> RunLens(p) in lenses
      ensures old(lenses) <= lenses && unchanged(`published, `acks, `events, `observations, `reproductions, `resolved)
    {
      AfterAgrees(Value(), plan, Freeze(identity, obligations, intact));
      if route.Some? { return Some(PolicyInvalid); }
      if !intact { return Some(PlanChangedStale); }
      PhaseUnbinds(Value(), plan, Freeze(identity, obligations, intact));
      lenses := lenses + {ColdLens} + set p | p in plan.partitions :: RunLens(p);
      route := Some(Route(identity, obligations, None, None, None, None));
      error := None;
    }

    /** Only by the reviewer and only once; that no bundle is there already never needs the check. */
    method SubmitCommit(actor: Actor, digest: Digest, observed: map<string, bool>, valid: bool)
      returns (error: Option<Error>)
      requires Valid()
      modifies this
      ensures Valid() && Value() == After(old(Value()), plan, Commit(actor, digest, observed, valid))
      ensures error.None? <==>
        old(route).Some? && !published && actor == plan.reviewer && old(route).value.commit.None? && valid
      ensures error == Some(NotIndependent) <==> route.Some? && !published && actor != plan.reviewer
      ensures error == Some(ColdMissing) <==>
        old(route).Some? && !published && actor == plan.reviewer && old(route).value.commit.None? && !valid
      ensures error.Some? ==> error.value in {PolicyInvalid, NotIndependent, ColdMissing} && Value() == old(Value())
      ensures error.None? ==>
        && old(route).value.bundle.None? && old(route).value.reconcile.None?
        && route == Some(old(route).value.(commit := Some(digest))) && observations == observed
        && events == old(events) + [ColdCommitted(plan.reviewer, digest)] && NothingBound(Value())
      ensures unchanged(`published, `lenses, `acks, `reproductions, `resolved)
    {
      AfterAgrees(Value(), plan, Commit(actor, digest, observed, valid));
      InOrderHolds();
      if route.None? || published { return Some(PolicyInvalid); }
      if actor != plan.reviewer { return Some(NotIndependent); }
      if route.value.commit.Some? { return Some(PolicyInvalid); }
      if route.value.bundle.Some? || !valid { return Some(ColdMissing); }
      PhaseUnbinds(Value(), plan, Commit(actor, digest, observed, valid));
      observations := observed;
      route := Some(route.value.(commit := Some(digest)));
      events := events + [ColdCommitted(actor, digest)];
      error := None;
    }

    /** Only after the commit and only once; the reproducers must then attest the new route like everybody else. */
    method AttachBundle(actor: Actor, digest: Digest, repros: map<string, Actor>, valid: bool, intact: bool)
      returns (error: Option<Error>)
      requires Valid()
      modifies this
      ensures Valid() && Value() == After(old(Value()), plan, Attach(actor, digest, repros, valid, intact))
      ensures error.None? <==>
        && old(route).Some? && !published && old(route).value.commit.Some? && old(route).value.bundle.None?
        && valid && intact && forall id :: id in repros ==> ReproLens(id) !in old(lenses)
      ensures error == Some(ColdMissing) <==> old(route).Some? && !published && old(route).value.commit.None?
      ensures error == Some(PlanChangedStale) <==> old(route).Some? && !published && old(route).value.commit.Some? && !intact
      ensures error.Some? ==> error.value in {PolicyInvalid, ColdMissing, PlanChangedStale} && Value() == old(Value())
      ensures error.None? ==>
        && old(route).value.reconcile.None? && route == Some(old(route).value.(bundle := Some(digest), attachedBy := Some(actor)))
        && reproductions == repros && lenses == old(lenses) + ReproLenses(repros)
        && events == old(events) + [Attached(actor, digest)] && NothingBound(Value())
      ensures unchanged(`published, `acks, `observations, `resolved)
    {
      AfterAgrees(Value(), plan, Attach(actor, digest, repros, valid, intact));
      InOrderHolds();
      DisjointLenses(lenses, repros);
      if published || route.None? { return Some(PolicyInvalid); }
      if route.value.commit.None? { return Some(ColdMissing); }
      if !intact { return Some(PlanChangedStale); }
      if route.value.bundle.Some? || !valid || lenses * ReproLenses(repros) != {} { return Some(PolicyInvalid); }
      PhaseUnbinds(Value(), plan, Attach(actor, digest, repros, valid, intact));
      lenses := lenses + ReproLenses(repros);
      reproductions := repros;
      route := Some(route.value.(bundle := Some(digest)));
      route := Some(route.value.(attachedBy := Some(actor)));
      events := events + [Attached(actor, digest)];
      error := None;
    }

    /** Only after the bundle and only once; the ledger then passes the order check, and everybody has to attest anew. */
    method SubmitReconciliation(actor: Actor, digest: Digest, findings: map<string, bool>, valid: bool)
      returns (error: Option<Error>)
      requires Valid()
      modifies this
      ensures Valid() && Value() == After(old(Value()), plan, Reconcile(actor, digest, findings, valid))
      ensures error.None? <==>
        && old(route).Some? && !published && actor == plan.reviewer && old(route).value.bundle.Some?
        && old(route).value.reconcile.None? && valid && findings.Keys == observations.Keys
      ensures error == Some(NotIndependent) <==> route.Some? && !published && actor != plan.reviewer
      ensures error == Some(ColdMissing) <==>
        && old(route).Some? && !published && actor == plan.reviewer && old(route).value.reconcile.None?
        && (old(route).value.bundle.None? || !valid || findings.Keys != observations.Keys)
      ensures error.Some? ==> error.value in {PolicyInvalid, NotIndependent, ColdMissing} && Value() == old(Value())
      ensures error.None? ==>
        && route == Some(old(route).value.(reconcile := Some(digest)))
        && (forall id :: id in resolved <==> id in findings && findings[id])
        && events == old(events) + [ColdReconciled(plan.reviewer, digest)]
        && Reconciled(Value(), plan.reviewer)
      ensures unchanged(`published, `lenses, `acks, `observations, `reproductions)
    {
      ghost var before, action := Value(), Reconcile(actor, digest, findings, valid);
      InOrderHolds();
      if route.None? || published { return Some(PolicyInvalid); }
      if actor != plan.reviewer { return Some(NotIndependent); }
      if route.value.reconcile.Some? { return Some(PolicyInvalid); }
      if route.value.commit.None? || route.value.bundle.None? { return Some(ColdMissing); }
      if !valid || findings.Keys != observations.Keys { return Some(ColdMissing); }
      resolved := set id | id in findings && findings[id];
      route := Some(route.value.(reconcile := Some(digest)));
      events := events + [ColdReconciled(actor, digest)];
      error := None;
      assert Value() == After(before, plan, action);
      AfterReconcile(before, plan, action);
    }

    /** Refused after publication, and otherwise bound to the route of this moment. */
    method ApplyAck(lens: Lens, actor: Actor, status: AckStatus, override: bool) returns (error: Option<Error>)
      requires Valid()
      modifies this
      ensures Valid() && Value() == After(old(Value()), plan, Acknowledge(lens, actor, status, override))
      ensures error == if old(published) then Some(CloseRefused) else None
      ensures error.Some? ==> Value() == old(Value())
      ensures error.None? ==> Acknowledged(old(Value()), Value(), lens, actor, status, override)
      ensures unchanged(`route, `published, `lenses, `observations, `reproductions, `resolved)
    {
      if published { return Some(CloseRefused); }
      ghost var before := Value();
      ghost var next := After(before, plan, Acknowledge(lens, actor, status, override));
      acks := acks[lens := Ack(actor, status, override, None)];
      if route.Some? {
        acks := acks[lens := acks[lens].(binding := Some(BindingOf(route.value)))];
        OverwriteTwice(before.acks, lens, Ack(actor, status, override, None), acks[lens]);
      }
      events := events + [Acked(lens, actor, status)];
      error := None;
      assert Value() == next;
      AfterAgrees(before, plan, Acknowledge(lens, actor, status, override));
      AckBinds(before, plan, lens, actor, status, override);
    }

    /** What `Valid` says of the route alone. */
    lemma {:induction false} InOrderHolds()
      requires Valid()
      ensures InOrder(route)
    {
      var c: nat, b: nat, d: nat :| Told(Value(), plan, c, b, d);
    }

    method Publish() returns (error: Option<Error>)
      requires Valid()
      modifies this
      ensures Valid() && Value() == After(old(Value()), plan, AcceptanceAttempt.Publish)
      ensures error == if old(published) then Some(CloseRefused) else None
      ensures published && unchanged(`route, `lenses, `acks, `events, `observations, `reproductions, `resolved)
    {
      AfterAgrees(Value(), plan, AcceptanceAttempt.Publish);
      if published { return Some(CloseRefused); }
      published, error := true, None;
    }

    method Note(kind: nat, actor: Actor)
      requires Valid()
      modifies this`events
      ensures Valid() && Value() == After(old(Value()), plan, AcceptanceAttempt.Note(kind, actor))
      ensures events == old(events) + [Noted(kind, actor)]
    {
      AfterAgrees(Value(), plan, AcceptanceAttempt.Note(kind, actor));
      events := events + [Noted(kind, actor)];
    }
  }

  lemma {:induction false} OverwriteTwice(acks: map<Lens, Ack>, lens: Lens, first: Ack, second: Ack)
    ensures acks[lens := first][lens := second] == acks[lens := second]
  {
  }

  lemma {:induction false} DisjointLenses(lenses: set<Lens>, repros: map<string, Actor>)
    ensures lenses * ReproLenses(repros) == {} <==> forall id :: id in repros ==> ReproLens(id) !in lenses
  {
    assert forall id :: id in repros ==> ReproLens(id) in ReproLenses(repros);
    if forall id :: id in repros ==> ReproLens(id) !in lenses {
      forall lens | lens in ReproLenses(repros) ensures lens !in lenses {
        var id :| id in repros && lens == ReproLens(id);
      }
    } else {
      var id :| id in repros && ReproLens(id) in lenses;
      assert ReproLens(id) in lenses * ReproLenses(repros);
    }
  }

  method Perform(close: Close, a: Action)
    requires close.Valid()
    modifies close
    ensures close.Valid() && close.Value() == After(old(close.Value()), close.plan, a)
  {
    match a
    case Freeze(identity, obligations, intact) => var _ := close.FreezeRoute(identity, obligations, intact);
    case Commit(actor, digest, observations, valid) => var _ := close.SubmitCommit(actor, digest, observations, valid);
    case Attach(actor, digest, repros, valid, intact) => var _ := close.AttachBundle(actor, digest, repros, valid, intact);
    case Reconcile(actor, digest, findings, valid) => var _ := close.SubmitReconciliation(actor, digest, findings, valid);
    case Acknowledge(lens, actor, status, override) => var _ := close.ApplyAck(lens, actor, status, override);
    case Note(kind, actor) => close.Note(kind, actor);
    case Publish => var _ := close.Publish();
  }

  /** Whatever is called on the object, in whatever order, is a run: all that is proved of runs is proved of it. */
  method Replay(plan: Plan, lenses: set<Lens>, actions: seq<Action>) returns (close: Close, ghost records: seq<Record>)
    ensures close.Valid() && close.plan == plan
    ensures IsRun(records, actions, plan) && close.Value() == records[|actions|]
  {
    close := new Close(plan, lenses);
    records := [close.Value()];
    for n := 0 to |actions|
      invariant close.Valid() && close.plan == plan && fresh(close)
      invariant |records| == n + 1 && records[0] == Opened(lenses) && records[n] == close.Value()
      invariant forall i :: 0 <= i < n ==> records[i + 1] == After(records[i], plan, actions[i])
    {
      Perform(close, actions[n]);
      records := records + [close.Value()];
    }
  }
}
