/**
One acceptance attempt from its freeze to its verdict: the route hashes, the event ledger and
the bound acknowledgements (src/agenttalk/acceptance.py, src/agenttalk/acceptance_cold.py).

Report and bundle contents enter through what their validation yields; a digest stands for
the bytes it was taken over.
*/
module AcceptanceAttempt {
  import opened Wrappers

  type Digest = nat
  type Actor = string

  datatype Error = PolicyInvalid | ColdMissing | NotIndependent | RecordMissing | PlanChangedStale | CloseRefused

  /** The plan fields that decide who must attest what. */
  datatype Plan = Plan(partitions: map<string, set<Actor>>, reviewer: Actor)

  datatype Lens = RunLens(partition: string) | ReproLens(id: string) | ColdLens | OtherLens(id: string)

  datatype AckStatus = Accept | NotApplicable | Counter

  /** `identity`: the instance, attempt, revision, plan and registry the route was frozen with. */
  datatype Route = Route(
    identity: nat, obligations: Digest,
    commit: Option<Digest>, bundle: Option<Digest>, reconcile: Option<Digest>, attachedBy: Option<Actor>)

  datatype Binding = Binding(
    identity: nat, obligations: Digest, commit: Option<Digest>, bundle: Option<Digest>, reconcile: Option<Digest>)

  datatype Ack = Ack(actor: Actor, status: AckStatus, override: bool, binding: Option<Binding>)

  datatype Event =
    | ColdCommitted(actor: Actor, digest: Digest)
    | Attached(actor: Actor, digest: Digest)
    | ColdReconciled(actor: Actor, digest: Digest)
    | Acked(lens: Lens, actor: Actor, status: AckStatus)
    | Noted(kind: nat, actor: Actor)

  /**
  The close record. `route` is None while it is pending. `observations` (blocking or not),
  `reproductions` and `resolved` are what the retained reports and bundle say.
  */
  datatype Record = Record(
    route: Option<Route>, published: bool, lenses: set<Lens>, acks: map<Lens, Ack>, events: seq<Event>,
    observations: map<string, bool>, reproductions: map<string, Actor>, resolved: set<string>)

  datatype Action =
    | Freeze(identity: nat, obligations: Digest, intact: bool)
    | Commit(actor: Actor, digest: Digest, observations: map<string, bool>, valid: bool)
    | Attach(actor: Actor, digest: Digest, reproductions: map<string, Actor>, valid: bool, intact: bool)
    | Reconcile(actor: Actor, digest: Digest, findings: map<string, bool>, valid: bool)
    | Acknowledge(lens: Lens, actor: Actor, status: AckStatus, override: bool)
    | Note(kind: nat, actor: Actor)
    | Publish

  function BindingOf(route: Route): Binding
  {
    Binding(route.identity, route.obligations, route.commit, route.bundle, route.reconcile)
  }

  function ReproLenses(reproductions: map<string, Actor>): set<Lens>
  {
    set id | id in reproductions :: ReproLens(id)
  }

  // ------------------------------------------------------------ one transition

  function FreezeStep(r: Record, plan: Plan, a: Action): Result<Record, Error>
    requires a.Freeze?
  {
    if r.route.Some? then Refused(PolicyInvalid)
    else if !a.intact then Refused(PlanChangedStale)
    else
      Ok(r.(route := Some(Route(a.identity, a.obligations, None, None, None, None)),
         lenses := r.lenses + {ColdLens} + set p | p in plan.partitions :: RunLens(p)))
  }

  function CommitStep(r: Record, plan: Plan, a: Action): Result<Record, Error>
    requires a.Commit?
  {
    if r.route.None? || r.published then Refused(PolicyInvalid)
    else if a.actor != plan.reviewer then Refused(NotIndependent)
    else if r.route.value.commit.Some? then Refused(PolicyInvalid)
    else if r.route.value.bundle.Some? || !a.valid then Refused(ColdMissing)
    else
      Ok(r.(route := Some(r.route.value.(commit := Some(a.digest))),
         observations := a.observations,
         events := r.events + [ColdCommitted(a.actor, a.digest)]))
  }

  function AttachStep(r: Record, plan: Plan, a: Action): Result<Record, Error>
    requires a.Attach?
  {
    if r.published || r.route.None? then Refused(PolicyInvalid)
    else if r.route.value.commit.None? then Refused(ColdMissing)
    else if !a.intact then Refused(PlanChangedStale)
    else if r.route.value.bundle.Some? || !a.valid || r.lenses * ReproLenses(a.reproductions) != {} then Refused(PolicyInvalid)
    else
      Ok(r.(route := Some(r.route.value.(bundle := Some(a.digest), attachedBy := Some(a.actor))),
         lenses := r.lenses + ReproLenses(a.reproductions),
         reproductions := a.reproductions,
         events := r.events + [Attached(a.actor, a.digest)]))
  }

  function ReconcileStep(r: Record, plan: Plan, a: Action): Result<Record, Error>
    requires a.Reconcile?
  {
    if r.route.None? || r.published then Refused(PolicyInvalid)
    else if a.actor != plan.reviewer then Refused(NotIndependent)
    else if r.route.value.reconcile.Some? then Refused(PolicyInvalid)
    else if r.route.value.commit.None? || r.route.value.bundle.None? then Refused(ColdMissing)
    else if !a.valid || a.findings.Keys != r.observations.Keys then Refused(ColdMissing)
    else
      Ok(r.(route := Some(r.route.value.(reconcile := Some(a.digest))),
         resolved := (set id | id in a.findings && a.findings[id]),
         events := r.events + [ColdReconciled(a.actor, a.digest)]))
  }

  /** The acknowledgement keeps the binding of this very moment; a pending route binds nothing. */
  function AckStep(r: Record, a: Action): Result<Record, Error>
    requires a.Acknowledge?
  {
    if r.published then Refused(CloseRefused)
    else
      var binding := if r.route.Some? then Some(BindingOf(r.route.value)) else None;
      Ok(r.(acks := r.acks[a.lens := Ack(a.actor, a.status, a.override, binding)],
         events := r.events + [Acked(a.lens, a.actor, a.status)]))
  }

  function Step(r: Record, plan: Plan, a: Action): Result<Record, Error>
  {
    match a
    case Freeze(_, _, _) => FreezeStep(r, plan, a)
    case Commit(_, _, _, _) => CommitStep(r, plan, a)
    case Attach(_, _, _, _, _) => AttachStep(r, plan, a)
    case Reconcile(_, _, _, _) => ReconcileStep(r, plan, a)
    case Acknowledge(_, _, _, _) => AckStep(r, a)
    case Note(kind, actor) => Ok(r.(events := r.events + [Noted(kind, actor)]))
    case Publish => if r.published then Refused(CloseRefused) else Ok(r.(published := true))
  }

  /** A refused action leaves the record as it was. */
  function After(r: Record, plan: Plan, a: Action): Record
  {
    match Step(r, plan, a) case Ok(next) => next case Refused(_) => r
  }

  function Opened(lenses: set<Lens>): Record
  {
    Record(None, false, lenses, map[], [], map[], map[], {})
  }

  // ------------------------------------------------------------ the verdict

  datatype Hold = NoRecord | NoIndependence(lens: Lens) | NoCold | OpenFinding(id: string) | Outside(code: nat)

  predicate BoundAccept(r: Record, route: Route, lens: Lens, actors: set<Actor>)
  {
    && lens in r.acks && r.acks[lens].actor in actors && r.acks[lens].status == Accept && !r.acks[lens].override
    && r.acks[lens].binding == Some(BindingOf(route))
  }

  /** Positions at which the ledger holds exactly this event. */
  function Matches(events: seq<Event>, e: Event): seq<nat>
  {
    if events == [] then []
    else
      Matches(events[..|events| - 1], e) + if events[|events| - 1] == e then [|events| - 1] else []
  }

  predicate OrderHolds(r: Record, route: Route, reviewer: Actor)
    requires route.commit.Some? && route.bundle.Some? && route.reconcile.Some? && route.attachedBy.Some?
  {
    var c := Matches(r.events, ColdCommitted(reviewer, route.commit.value));
    var b := Matches(r.events, Attached(route.attachedBy.value, route.bundle.value));
    var d := Matches(r.events, ColdReconciled(reviewer, route.reconcile.value));
    |c| == 1 && |b| == 1 && |d| == 1 && c[0] < b[0] < d[0]
  }

  function OutsideHolds(outside: set<nat>): set<Hold>
  {
    set code | code in outside :: Outside(code)
  }

  /** Everything that keeps the verdict from being free of holds; `outside` stands for the checks not modelled here. */
  function Holds(r: Record, plan: Plan, outside: set<nat>): set<Hold>
  {
    OutsideHolds(outside)
    + if r.route.None? || r.route.value.bundle.None? then {NoRecord}
      else
        var route := r.route.value;
        (set p | p in plan.partitions && !BoundAccept(r, route, RunLens(p), plan.partitions[p]) :: NoIndependence(RunLens(p)))
        + (set id | id in r.reproductions && !BoundAccept(r, route, ReproLens(id), {r.reproductions[id]}) ::
             NoIndependence(ReproLens(id)))
        + if route.commit.None? || route.reconcile.None? || route.attachedBy.None? then {NoCold}
          else if !OrderHolds(r, route, plan.reviewer) then {NoCold}
          else if !BoundAccept(r, route, ColdLens, {plan.reviewer}) then {NoCold}
          else set id | id in r.observations && r.observations[id] && id !in r.resolved :: OpenFinding(id)
  }

  // ------------------------------------------------------------ every run

  ghost predicate IsRun(records: seq<Record>, actions: seq<Action>, plan: Plan)
  {
    && |records| == |actions| + 1
    && (exists lenses :: records[0] == Opened(lenses))
    && forall i :: 0 <= i < |actions| ==> records[i + 1] == After(records[i], plan, actions[i])
  }

  predicate IsPhase(e: Event)
  {
    e.ColdCommitted? || e.Attached? || e.ColdReconciled?
  }

  /** Event e stands at position i, and no other event is of its kind. */
  ghost predicate OnlyAt(events: seq<Event>, e: Event, i: nat)
  {
    && i < |events| && events[i] == e
    && forall j :: 0 <= j < |events| && j != i ==>
         (e.ColdCommitted? ==> !events[j].ColdCommitted?)
         && (e.Attached? ==> !events[j].Attached?)
         && (e.ColdReconciled? ==> !events[j].ColdReconciled?)
  }

  /** The ledger tells each phase once, in order, exactly as far as the hashes say. */
  ghost predicate LedgerOk(r: Record, plan: Plan, c: nat, b: nat, d: nat)
  {
    if r.route.None? then forall j :: 0 <= j < |r.events| ==> !IsPhase(r.events[j])
    else
      var route := r.route.value;
      && (route.bundle.Some? ==> route.commit.Some?) && (route.reconcile.Some? ==> route.bundle.Some?)
      && (route.attachedBy.Some? <==> route.bundle.Some?)
      && (if route.commit.Some? then OnlyAt(r.events, ColdCommitted(plan.reviewer, route.commit.value), c)
          else forall j :: 0 <= j < |r.events| ==> !r.events[j].ColdCommitted?)
      && (if route.bundle.Some? then c < b && OnlyAt(r.events, Attached(route.attachedBy.value, route.bundle.value), b)
          else forall j :: 0 <= j < |r.events| ==> !r.events[j].Attached?)
      && (if route.reconcile.Some? then b < d && OnlyAt(r.events, ColdReconciled(plan.reviewer, route.reconcile.value), d)
          else forall j :: 0 <= j < |r.events| ==> !r.events[j].ColdReconciled?)
  }

  /** Position k holds the latest acknowledgement of the lens, and it is the one on record. */
  ghost predicate LatestAck(r: Record, lens: Lens, k: nat)
    requires lens in r.acks
  {
    && k < |r.events| && r.events[k] == Acked(lens, r.acks[lens].actor, r.acks[lens].status)
    && forall j :: k < j < |r.events| ==> !(r.events[j].Acked? && r.events[j].lens == lens)
  }

  /** An acknowledgement is bound to the reconciliation exactly if it was given after it. */
  ghost predicate AckOk(r: Record, lens: Lens, d: nat)
    requires lens in r.acks
  {
    exists k: nat :: AckAt(r, lens, d, k)
  }

  ghost predicate AckAt(r: Record, lens: Lens, d: nat, k: nat)
    requires lens in r.acks
  {
    && LatestAck(r, lens, k)
    && var binding := r.acks[lens].binding;
    && (binding.Some? && binding.value.reconcile.Some? ==> HasReconcile(r) && d < k)
    && (HasReconcile(r) && d < k ==> binding == Some(BindingOf(r.route.value)))
  }

  predicate HasReconcile(r: Record)
  {
    r.route.Some? && r.route.value.reconcile.Some?
  }

  ghost predicate AcksOk(r: Record, d: nat)
  {
    forall lens :: lens in r.acks ==> AckOk(r, lens, d)
  }

  ghost predicate Told(r: Record, plan: Plan, c: nat, b: nat, d: nat)
  {
    LedgerOk(r, plan, c, b, d) && AcksOk(r, d)
  }

  /** No acknowledgement is given, and the reconciliation on record stays where it is. */
  lemma {:induction false} AcksStay(r: Record, next: Record, d: nat, d1: nat)
    requires AcksOk(r, d) && next.acks == r.acks && |r.events| <= |next.events| && r.events == next.events[..|r.events|]
    requires forall j :: |r.events| <= j < |next.events| ==> !next.events[j].Acked?
    requires HasReconcile(r) ==> next.route == r.route && d1 == d
    requires !HasReconcile(r) && HasReconcile(next) ==> d1 >= |r.events|
    ensures AcksOk(next, d1)
  {
    forall lens | lens in next.acks ensures AckOk(next, lens, d1) {
      assert AckOk(r, lens, d);
      var k: nat :| AckAt(r, lens, d, k);
      assert AckAt(next, lens, d1, k);
    }
  }

  lemma {:induction false} AckKeeps(r: Record, plan: Plan, c: nat, b: nat, d: nat, a: Action)
    requires Told(r, plan, c, b, d) && a.Acknowledge? && !r.published
    ensures Told(After(r, plan, a), plan, c, b, d)
  {
    var next := After(r, plan, a);
    forall lens | lens in next.acks ensures AckOk(next, lens, d) {
      if lens == a.lens {
        assert AckAt(next, lens, d, |r.events|);
      } else {
        assert AckOk(r, lens, d);
        var k: nat :| AckAt(r, lens, d, k);
        assert AckAt(next, lens, d, k);
      }
    }
  }

  /** Where the phases stand after one more action. */
  function Moved(r: Record, plan: Plan, a: Action, c: nat, b: nat, d: nat): (nat, nat, nat)
  {
    if Step(r, plan, a).Refused? then (c, b, d)
    else (if a.Commit? then |r.events| else c, if a.Attach? then |r.events| else b, if a.Reconcile? then |r.events| else d)
  }

  lemma {:induction false} PhaseLedger(r: Record, plan: Plan, c: nat, b: nat, d: nat, a: Action)
    requires LedgerOk(r, plan, c, b, d) && Step(r, plan, a).Ok? && (a.Commit? || a.Attach? || a.Reconcile?)
    ensures var (c1, b1, d1) := Moved(r, plan, a, c, b, d); LedgerOk(After(r, plan, a), plan, c1, b1, d1)
  {
  }

  lemma {:induction false} OtherLedger(r: Record, plan: Plan, c: nat, b: nat, d: nat, a: Action)
    requires LedgerOk(r, plan, c, b, d) && Step(r, plan, a).Ok? && !a.Commit? && !a.Attach? && !a.Reconcile?
    ensures LedgerOk(After(r, plan, a), plan, c, b, d)
  {
  }

  lemma {:induction false} StepKeeps(r: Record, plan: Plan, c: nat, b: nat, d: nat, a: Action)
    requires Told(r, plan, c, b, d)
    ensures var (c1, b1, d1) := Moved(r, plan, a, c, b, d); Told(After(r, plan, a), plan, c1, b1, d1)
  {
    if Step(r, plan, a).Ok? {
      if a.Commit? || a.Attach? || a.Reconcile? {
        PhaseLedger(r, plan, c, b, d, a);
      } else {
        OtherLedger(r, plan, c, b, d, a);
      }
      if a.Acknowledge? {
        AckKeeps(r, plan, c, b, d, a);
      } else {
        AcksStay(r, After(r, plan, a), d, Moved(r, plan, a, c, b, d).2);
      }
    }
  }

  lemma {:induction false} RunsAreTold(records: seq<Record>, actions: seq<Action>, plan: Plan, n: nat)
    returns (c: nat, b: nat, d: nat)
    requires IsRun(records, actions, plan) && n < |records|
    ensures Told(records[n], plan, c, b, d)
  {
    if n == 0 {
      c, b, d := 0, 0, 0;
    } else {
      c, b, d := RunsAreTold(records, actions, plan, n - 1);
      StepKeeps(records[n - 1], plan, c, b, d, actions[n - 1]);
      var moved := Moved(records[n - 1], plan, actions[n - 1], c, b, d);
      c, b, d := moved.0, moved.1, moved.2;
    }
  }

  // ------------------------------------------------------------ main results

  ghost predicate Keeps<T(!new)>(before: Option<T>, after: Option<T>)
  {
    before.Some? ==> after == before
  }

  /** Each hash is set at most once, and none before its predecessor. */
  lemma {:induction false} HashesAreSetOnceInOrder(records: seq<Record>, actions: seq<Action>, plan: Plan, m: nat, n: nat)
    requires IsRun(records, actions, plan) && m <= n < |records| && records[m].route.Some?
    ensures records[n].route.Some?
    ensures var before, after := records[m].route.value, records[n].route.value;
      && Keeps(before.commit, after.commit) && Keeps(before.bundle, after.bundle) && Keeps(before.reconcile, after.reconcile)
      && after.identity == before.identity && after.obligations == before.obligations
      && (after.bundle.Some? ==> after.commit.Some?) && (after.reconcile.Some? ==> after.bundle.Some?)
    decreases n - m
  {
    var c, b, d := RunsAreTold(records, actions, plan, n);
    if m < n {
      HashesAreSetOnceInOrder(records, actions, plan, m, n - 1);
    }
  }

  lemma {:induction false} UniqueMatch(events: seq<Event>, e: Event, i: nat)
    requires IsPhase(e)
    ensures OnlyAt(events, e, i) ==> Matches(events, e) == [i]
    ensures (forall j :: 0 <= j < |events| ==> events[j] != e) ==> Matches(events, e) == []
  {
    if events != [] {
      UniqueMatch(events[..|events| - 1], e, i);
    }
  }

  /** On a reachable record that has all three hashes the order check never fails. */
  lemma {:induction false} OrderCheckNeverFails(records: seq<Record>, actions: seq<Action>, plan: Plan, n: nat)
    requires IsRun(records, actions, plan) && n < |records|
    requires records[n].route.Some? && records[n].route.value.reconcile.Some?
    ensures var route := records[n].route.value;
      && route.commit.Some? && route.bundle.Some? && route.attachedBy.Some?
      && OrderHolds(records[n], route, plan.reviewer)
  {
    var c, b, d := RunsAreTold(records, actions, plan, n);
    var r := records[n];
    var route := r.route.value;
    UniqueMatch(r.events, ColdCommitted(plan.reviewer, route.commit.value), c);
    UniqueMatch(r.events, Attached(route.attachedBy.value, route.bundle.value), b);
    UniqueMatch(r.events, ColdReconciled(plan.reviewer, route.reconcile.value), d);
  }

  /** Lens, accepted by one of the actors without override, as its last word, after the reconciliation. */
  ghost predicate AcceptedLast(r: Record, lens: Lens, actors: set<Actor>, d: nat)
  {
    && lens in r.acks && !r.acks[lens].override
    && exists k, actor :: d < k < |r.events| && actor in actors && r.events[k] == Acked(lens, actor, Accept)
                          && forall j :: k < j < |r.events| ==> !(r.events[j].Acked? && r.events[j].lens == lens)
  }

  /** What counts as attested is what the ledger tells: an acceptance after the reconciliation, with nothing after it. */
  lemma {:induction false} BoundAcceptIsLate(r: Record, plan: Plan, c: nat, b: nat, d: nat, lens: Lens, actors: set<Actor>)
    requires Told(r, plan, c, b, d) && r.route.Some? && r.route.value.reconcile.Some?
    ensures BoundAccept(r, r.route.value, lens, actors) <==> AcceptedLast(r, lens, actors, d)
  {
    if lens in r.acks {
      assert AckOk(r, lens, d);
      var k: nat :| AckAt(r, lens, d, k);
      if AcceptedLast(r, lens, actors, d) {
        var i, actor :| d < i < |r.events| && actor in actors && r.events[i] == Acked(lens, actor, Accept)
          && forall j :: i < j < |r.events| ==> !(r.events[j].Acked? && r.events[j].lens == lens);
        assert r.events[k].Acked? && r.events[k].lens == lens;
        assert i == k;
      }
    }
  }

  /** The reviewer's reconciliation stands at position d; everyone who must attest did so after it. */
  ghost predicate AttestedAfter(r: Record, plan: Plan, d: nat)
  {
    && d < |r.events| && r.events[d].ColdReconciled? && r.events[d].actor == plan.reviewer
    && (forall p :: p in plan.partitions ==> AcceptedLast(r, RunLens(p), plan.partitions[p], d))
    && (forall id :: id in r.reproductions ==> AcceptedLast(r, ReproLens(id), {r.reproductions[id]}, d))
    && AcceptedLast(r, ColdLens, {plan.reviewer}, d)
  }

  lemma {:induction false} OutsideShows(outside: set<nat>, code: nat)
    ensures Outside(code) in OutsideHolds(outside) <==> code in outside
  {
  }

  /** Accepted by one of the actors, without override, bound to every hash the route has. */
  predicate IsBound(r: Record, lens: Lens, actors: set<Actor>)
    requires r.route.Some?
  {
    var route := r.route.value;
    && lens in r.acks && r.acks[lens].actor in actors && r.acks[lens].status == Accept && !r.acks[lens].override
    && r.acks[lens].binding == Some(Binding(route.identity, route.obligations, route.commit, route.bundle, route.reconcile))
  }

  /** The reconciliation is there and the reviewer stands by it. */
  predicate IsSettled(r: Record, reviewer: Actor)
    requires r.route.Some?
  {
    r.route.value.reconcile.Some? && IsBound(r, ColdLens, {reviewer})
  }

  /** The record has gone through the order check, as far as it applies. */
  predicate IsOrdered(r: Record, reviewer: Actor)
  {
    HasReconcile(r) ==>
      && r.route.value.commit.Some? && r.route.value.bundle.Some? && r.route.value.attachedBy.Some?
      && OrderHolds(r, r.route.value, reviewer)
  }

  predicate IsAttached(r: Record)
  {
    r.route.Some? && r.route.value.bundle.Some?
  }

  lemma {:induction false} BoundIs(r: Record, lens: Lens, actors: set<Actor>)
    requires r.route.Some?
    ensures BoundAccept(r, r.route.value, lens, actors) <==> IsBound(r, lens, actors)
  {
  }

  lemma {:induction false} IndependenceHolds(r: Record, plan: Plan, outside: set<nat>)
    ensures var holds := Holds(r, plan, outside);
      && (forall p :: NoIndependence(RunLens(p)) in holds <==>
            IsAttached(r) && p in plan.partitions && !IsBound(r, RunLens(p), plan.partitions[p]))
      && (forall id :: NoIndependence(ReproLens(id)) in holds <==>
            IsAttached(r) && id in r.reproductions && !IsBound(r, ReproLens(id), {r.reproductions[id]}))
      && (forall lens :: NoIndependence(lens) in holds ==> lens.RunLens? || lens.ReproLens?)
  {
    if r.route.Some? {
      forall lens, actors ensures BoundAccept(r, r.route.value, lens, actors) <==> IsBound(r, lens, actors) {
        BoundIs(r, lens, actors);
      }
    }
  }

  lemma {:induction false} OtherHolds(r: Record, plan: Plan, outside: set<nat>)
    requires IsOrdered(r, plan.reviewer)
    ensures var holds := Holds(r, plan, outside);
      && (NoRecord in holds <==> !IsAttached(r))
      && (NoCold in holds <==> IsAttached(r) && !IsSettled(r, plan.reviewer))
      && (forall id :: OpenFinding(id) in holds <==>
            IsAttached(r) && IsSettled(r, plan.reviewer) && id in r.observations && r.observations[id] && id !in r.resolved)
      && (forall code :: Outside(code) in holds <==> code in outside)
  {
    if r.route.Some? {
      BoundIs(r, ColdLens, {plan.reviewer});
    }
  }

  /** Each hold of a reachable record, and when exactly it is there. */
  lemma {:induction false} VerdictExactly(records: seq<Record>, actions: seq<Action>, plan: Plan, n: nat, outside: set<nat>)
    requires IsRun(records, actions, plan) && n < |records|
    ensures var r, holds := records[n], Holds(records[n], plan, outside);
      && (NoRecord in holds <==> !IsAttached(r))
      && (forall p :: NoIndependence(RunLens(p)) in holds <==>
            IsAttached(r) && p in plan.partitions && !IsBound(r, RunLens(p), plan.partitions[p]))
      && (forall id :: NoIndependence(ReproLens(id)) in holds <==>
            IsAttached(r) && id in r.reproductions && !IsBound(r, ReproLens(id), {r.reproductions[id]}))
      && (NoCold in holds <==> IsAttached(r) && !IsSettled(r, plan.reviewer))
      && (forall id :: OpenFinding(id) in holds <==>
            IsAttached(r) && IsSettled(r, plan.reviewer) && id in r.observations && r.observations[id] && id !in r.resolved)
      && (forall code :: Outside(code) in holds <==> code in outside)
      && (forall lens :: NoIndependence(lens) in holds ==> lens.RunLens? || lens.ReproLens?)
  {
    if HasReconcile(records[n]) {
      OrderCheckNeverFails(records, actions, plan, n);
    }
    IndependenceHolds(records[n], plan, outside);
    OtherHolds(records[n], plan, outside);
  }

  /** Everybody's acceptance is bound, and nothing blocking is open. */
  predicate IsAttested(r: Record, plan: Plan)
  {
    && IsAttached(r) && IsSettled(r, plan.reviewer)
    && (forall p :: p in plan.partitions ==> IsBound(r, RunLens(p), plan.partitions[p]))
    && (forall id :: id in r.reproductions ==> IsBound(r, ReproLens(id), {r.reproductions[id]}))
    && (forall id :: id in r.observations && r.observations[id] ==> id in r.resolved)
  }

  /** So the verdict has no hold exactly then. */
  lemma {:induction false} HoldFreeExactly(records: seq<Record>, actions: seq<Action>, plan: Plan, n: nat, outside: set<nat>)
    requires IsRun(records, actions, plan) && n < |records|
    ensures Holds(records[n], plan, outside) == {} <==> outside == {} && IsAttested(records[n], plan)
  {
    var r, holds := records[n], Holds(records[n], plan, outside);
    VerdictExactly(records, actions, plan, n, outside);
    if outside != {} {
      var code :| code in outside;
      assert Outside(code) in holds;
    }
    if p :| p in plan.partitions && IsAttached(r) && !IsBound(r, RunLens(p), plan.partitions[p]) {
      assert NoIndependence(RunLens(p)) in holds;
    }
    if id :| id in r.reproductions && IsAttached(r) && !IsBound(r, ReproLens(id), {r.reproductions[id]}) {
      assert NoIndependence(ReproLens(id)) in holds;
    }
    if id :| id in r.observations && r.observations[id] && id !in r.resolved {
      assert NoCold in holds || NoRecord in holds || OpenFinding(id) in holds;
    }
    if !IsAttached(r) || !IsSettled(r, plan.reviewer) {
      assert NoCold in holds || NoRecord in holds;
    }
    if h :| h in holds {
      match h
      case NoIndependence(lens) => assert lens.RunLens? || lens.ReproLens?;
      case _ =>
    }
  }

  /**
  A verdict without holds, told by the ledger: exactly when every runner, every reproducer and the reviewer accepted last
  of all after the reconciliation, without override, and no blocking observation is left open.
  */
  lemma {:induction false} HoldFreeMeansAttested(records: seq<Record>, actions: seq<Action>, plan: Plan, n: nat, outside: set<nat>)
    requires IsRun(records, actions, plan) && n < |records|
    ensures Holds(records[n], plan, outside) == {} <==>
      && outside == {} && (exists d :: AttestedAfter(records[n], plan, d))
      && forall id :: id in records[n].observations && records[n].observations[id] ==> id in records[n].resolved
  {
    var c, b, d := RunsAreTold(records, actions, plan, n);
    HoldFreeExactly(records, actions, plan, n, outside);
    AttestedIsAfter(records[n], plan, c, b, d);
  }

  lemma {:induction false} AttestedIsAfter(r: Record, plan: Plan, c: nat, b: nat, d: nat)
    requires Told(r, plan, c, b, d)
    ensures IsAttested(r, plan) <==>
      && (exists e :: AttestedAfter(r, plan, e))
      && forall id :: id in r.observations && r.observations[id] ==> id in r.resolved
  {
    if HasReconcile(r) {
      forall lens, actors ensures IsBound(r, lens, actors) <==> AcceptedLast(r, lens, actors, d) {
        BoundIs(r, lens, actors);
        BoundAcceptIsLate(r, plan, c, b, d, lens, actors);
      }
      assert IsAttested(r, plan) ==> AttestedAfter(r, plan, d);
      forall e | AttestedAfter(r, plan, e) ensures e == d {
      }
    }
  }
}
