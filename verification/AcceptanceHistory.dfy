/**
Immutable successors (src/agenttalk/acceptance_history.py) and the walks over their
ancestry: `history`, `lineage`, `evaluate` and the check a successor passes before it exists.
*/
module AcceptanceHistory {
  import opened Wrappers
  import opened AcceptanceCoverage

  const MAX_LINKS: nat := 32

  type FrozenPlan = p: Plan | ValidPlan(p) witness Plan([], None, {}, map[])

  datatype Reduction = Reduction(targets: set<Target>, changes: map<Target, Change>, policyAmendment: bool, current: bool)

  /** `bound`: every recorded identity matches parent and child. `operatorBound`: the operator's own message says so. */
  datatype Amendment = Amendment(
    bound: bool, assertionChanges: map<Target, Change>, reduction: Option<Reduction>, operatorBound: bool)

  /** `policy` is None when the frozen plan or registry no longer reads back. */
  datatype Record = Record(
    attempt: nat, revision: nat, published: bool, policy: Option<FrozenPlan>, parent: Option<Digest>,
    amendment: Option<Amendment>)

  type Store = map<Digest, Record>

  datatype Hold = CategoryMoved | ScopeReduction | PlanChangedStale | NotIndependent

  // ------------------------------------------------------------ the ancestry

  /** What a walk that has `seen` some plans returns, given how the rest of it ends. */
  function Resume(seen: seq<FrozenPlan>, rest: Result<seq<FrozenPlan>, Error>): (r: Result<seq<FrozenPlan>, Error>)
    ensures seen == [] ==> r == rest
  {
    match rest
    case Ok(plans) => assert seen == [] ==> seen + plans == plans; Ok(seen + plans)
    case Refused(e) => Refused(e)
  }

  /** The plans from a record to its root, when at most `limit` records are on the way. */
  function Ancestry(store: Store, record: Record, limit: nat): Result<seq<FrozenPlan>, Error>
    decreases limit
  {
    if limit == 0 then Refused(TooDeep)
    else if record.policy.None? then Refused(PlanStale)
    else if record.parent.None? then Ok([record.policy.value])
    else if record.parent.value !in store then Refused(RecordMissing)
    else
      Resume([record.policy.value], Ancestry(store, store[record.parent.value], limit - 1))
  }

  /** Demands of every plan of an ancestry at one target. */
  function AllDemands(plans: seq<FrozenPlan>, t: Target): (r: set<Predicate>)
    ensures AllGenerated(r)
    ensures forall p :: p in r <==> exists k :: 0 <= k < |plans| && p in Demands(plans[k], t)
  {
    if plans == [] then {}
    else
      var rest := AllDemands(plans[1..], t);
      assert forall k :: 0 <= k < |plans| - 1 ==> plans[1..][k] == plans[k + 1];
      Demands(plans[0], t) + rest
  }

  function AllTargets(plans: seq<FrozenPlan>): (r: set<Target>)
    ensures forall t :: t in r <==> AllDemands(plans, t) != {}
  {
    if plans == [] then {}
    else
      assert forall t :: t in Targets(plans[0]) <==> Demands(plans[0], t) != {} by {
        forall t: Target {
          NoTargetNoDemand(plans[0], t);
        }
      }
      Targets(plans[0]) + AllTargets(plans[1..])
  }

  function DemandMap(plans: seq<FrozenPlan>): map<Target, set<Predicate>>
  {
    map t | t in AllTargets(plans) :: AllDemands(plans, t)
  }

  function Protected(plans: seq<FrozenPlan>): map<Target, set<Predicate>>
  {
    Reduce(DemandMap(plans))
  }

  function Merge(a: map<Target, set<Predicate>>, b: map<Target, set<Predicate>>): map<Target, set<Predicate>>
  {
    map t | t in a.Keys + b.Keys :: (if t in a then a[t] else {}) + (if t in b then b[t] else {})
  }

  function OwnDemands(plan: FrozenPlan): map<Target, set<Predicate>>
  {
    map t | t in Targets(plan) :: Demands(plan, t)
  }

  lemma {:induction false} DemandsOfOneMore(plans: seq<FrozenPlan>, plan: FrozenPlan, t: Target)
    ensures AllDemands(plans + [plan], t) == AllDemands(plans, t) + Demands(plan, t)
  {
    var more := plans + [plan];
    assert more[|plans|] == plan;
    assert forall k :: 0 <= k < |plans| ==> more[k] == plans[k];
    forall p ensures p in AllDemands(more, t) <==> p in AllDemands(plans, t) || p in Demands(plan, t) {
    }
  }

  /** Before the reduction, a dictionary holds every demand of the plans seen so far. */
  ghost predicate Holds(targets: map<Target, set<Predicate>>, plans: seq<FrozenPlan>)
  {
    forall t :: HoldsAt(targets, plans, t)
  }

  ghost predicate HoldsAt(targets: map<Target, set<Predicate>>, plans: seq<FrozenPlan>, t: Target)
  {
    (if t in targets then targets[t] else {}) == AllDemands(plans, t) && (t in targets ==> AllDemands(plans, t) != {})
  }

  lemma {:induction false} HoldsAtOneMore(targets: map<Target, set<Predicate>>, plans: seq<FrozenPlan>, plan: FrozenPlan, t: Target)
    requires HoldsAt(targets, plans, t)
    ensures HoldsAt(Merge(targets, OwnDemands(plan)), plans + [plan], t)
  {
    DemandsOfOneMore(plans, plan, t);
    NoTargetNoDemand(plan, t);
  }

  lemma {:induction false} HoldsOneMore(targets: map<Target, set<Predicate>>, plans: seq<FrozenPlan>, plan: FrozenPlan)
    requires Holds(targets, plans)
    ensures Holds(Merge(targets, OwnDemands(plan)), plans + [plan])
  {
    var merged := Merge(targets, OwnDemands(plan));
    forall t: Target ensures HoldsAt(merged, plans + [plan], t) {
      HoldsAtOneMore(targets, plans, plan, t);
    }
  }

  lemma {:induction false} HoldsIsDemandMap(targets: map<Target, set<Predicate>>, plans: seq<FrozenPlan>)
    requires Holds(targets, plans)
    ensures targets == DemandMap(plans)
  {
    forall t ensures t in targets <==> t in AllTargets(plans)
             ensures t in targets ==> targets[t] == AllDemands(plans, t) {
      assert HoldsAt(targets, plans, t);
    }
  }

  lemma {:induction false} ResumeStep(seen: seq<FrozenPlan>, plan: FrozenPlan, rest: Result<seq<FrozenPlan>, Error>)
    ensures Resume(seen, Resume([plan], rest)) == Resume(seen + [plan], rest)
  {
    if rest.Ok? {
      assert seen + ([plan] + rest.value) == (seen + [plan]) + rest.value;
    }
  }

  // ------------------------------------------------------------ the walks

  function HistoryOf(store: Store, record: Record, maxLinks: nat): Result<map<Target, set<Predicate>>, Error>
  {
    match Ancestry(store, record, maxLinks + 1)
    case Ok(plans) => Ok(Protected(plans))
    case Refused(e) => Refused(e)
  }

  method History(store: Store, start: Record, maxLinks: nat) returns (r: Result<map<Target, set<Predicate>>, Error>)
    ensures r == HistoryOf(store, start, maxLinks)
  {
    var record := start;
    var targets: map<Target, set<Predicate>> := map[];
    ghost var seen: seq<FrozenPlan> := [];
    for n := 0 to maxLinks + 1
      invariant Holds(targets, seen)
      invariant Ancestry(store, start, maxLinks + 1) ==
                Resume(seen, Ancestry(store, record, maxLinks + 1 - n))
    {
      if record.policy.None? {
        return Refused(PlanStale);
      }
      var plan := record.policy.value;
      HoldsOneMore(targets, seen, plan);
      targets := Merge(targets, OwnDemands(plan));
      if record.parent.None? {
        HoldsIsDemandMap(targets, seen + [plan]);
        return Ok(Reduce(targets));
      }
      if record.parent.value !in store {
        return Refused(RecordMissing);
      }
      ResumeStep(seen, plan, Ancestry(store, store[record.parent.value], maxLinks - n));
      seen := seen + [plan];
      record := store[record.parent.value];
    }
    return Refused(TooDeep);
  }

  /** The record itself, then its parent, and so on; every plan reads back. */
  predicate IsLine(store: Store, start: Record, records: seq<Record>)
  {
    && (records != [] ==> records[0] == start)
    && (forall k :: 0 <= k < |records| ==> records[k].policy.Some?)
    && (forall k :: 0 <= k < |records| - 1 ==> IsParent(store, records[k], records[k + 1]))
  }

  predicate IsParent(store: Store, child: Record, parent: Record)
  {
    child.parent.Some? && child.parent.value in store && store[child.parent.value] == parent
  }

  /** The record is the one the walk comes to after these. */
  predicate IsUpcoming(store: Store, start: Record, records: seq<Record>, next: Record)
  {
    if records == [] then next == start else IsParent(store, records[|records| - 1], next)
  }

  predicate EndsAt(records: seq<Record>, parent: Option<Digest>)
  {
    records != [] && records[|records| - 1].parent == parent
  }

  /** How a walk over these records can end. */
  ghost predicate EndsWith(store: Store, start: Record, records: seq<Record>, error: Option<Error>)
  {
    match error
    case None => EndsAt(records, None)
    case Some(PlanStale) =>
      |records| <= MAX_LINKS && exists next: Record :: IsUpcoming(store, start, records, next) && next.policy.None?
    case Some(RecordMissing) => exists digest: Digest :: EndsAt(records, Some(digest)) && digest !in store
    case Some(TooDeep) =>
      |records| == MAX_LINKS + 1 && exists next: Record :: IsUpcoming(store, start, records, next)
    case Some(_) => false
  }

  /** There is only one way to walk. */
  lemma {:induction false} LinesAgree(store: Store, start: Record, a: seq<Record>, b: seq<Record>, k: nat)
    requires IsLine(store, start, a) && IsLine(store, start, b) && k < |a| && k < |b|
    ensures a[k] == b[k]
  {
    if k > 0 {
      LinesAgree(store, start, a, b, k - 1);
      assert IsParent(store, a[k - 1], a[k - 1 + 1]) && IsParent(store, b[k - 1], b[k - 1 + 1]);
    }
  }

  lemma {:induction false} LineGrows(store: Store, start: Record, records: seq<Record>, next: Record)
    requires IsLine(store, start, records) && IsUpcoming(store, start, records, next) && next.policy.Some?
    ensures IsLine(store, start, records + [next])
  {
    var more := records + [next];
    forall k | 0 <= k < |more| - 1 ensures IsParent(store, more[k], more[k + 1]) {
      assert k < |records| - 1 ==> IsParent(store, records[k], records[k + 1]);
    }
  }

  /**
  The record, its parent and so on, each handed out before the next is read: up to the root, or up to the plan that
  does not read back, the parent that is missing, or the limit. Whether it gets to the root is what `Ancestry` says.
  */
  method Lineage(store: Store, start: Record) returns (records: seq<Record>, error: Option<Error>)
    ensures IsLine(store, start, records) && EndsWith(store, start, records, error)
    ensures error == match Ancestry(store, start, MAX_LINKS + 1) case Ok(_) => None case Refused(e) => Some(e)
    ensures error.None? ==>
      && |records| == |Ancestry(store, start, MAX_LINKS + 1).value|
      && forall k :: 0 <= k < |records| ==>
           records[k].policy == Some(Ancestry(store, start, MAX_LINKS + 1).value[k])
  {
    var record := start;
    records := [];
    ghost var seen: seq<FrozenPlan> := [];
    for n := 0 to MAX_LINKS + 1
      invariant |records| == |seen| == n
      invariant IsLine(store, start, records) && IsUpcoming(store, start, records, record)
      invariant forall k :: 0 <= k < |records| ==> records[k].policy == Some(seen[k])
      invariant Ancestry(store, start, MAX_LINKS + 1) ==
                Resume(seen, Ancestry(store, record, MAX_LINKS + 1 - n))
    {
      if record.policy.None? {
        return records, Some(PlanStale);
      }
      LineGrows(store, start, records, record);
      records := records + [record];
      if record.parent.None? {
        return records, None;
      }
      if record.parent.value !in store {
        assert EndsAt(records, Some(record.parent.value));
        return records, Some(RecordMissing);
      }
      ResumeStep(seen, record.policy.value, Ancestry(store, store[record.parent.value], MAX_LINKS - n));
      seen := seen + [record.policy.value];
      record := store[record.parent.value];
    }
    return records, Some(TooDeep);
  }

  // ------------------------------------------------------------ nothing is dropped unnoticed

  /** Some gating row of the plan, on the same target, asks for the same and requires at least as much. */
  ghost predicate StillDemanded(plan: FrozenPlan, row: Row, closed: Option<Closed>)
    requires ValidRow(row, closed)
  {
    exists j :: 0 <= j < |plan.rows| && plan.rows[j].gating && plan.rows[j].target == row.target
                && AsksForTheSame(plan.rows[j], row) && RequiresAsMuch(plan.rows[j], plan.closed, row, closed)
  }

  ghost predicate DemandsAll(plan: FrozenPlan, past: FrozenPlan, except: set<Target>)
  {
    forall i :: 0 <= i < |past.rows| && past.rows[i].gating && past.rows[i].target !in except ==>
      StillDemanded(plan, past.rows[i], past.closed)
  }

  lemma {:induction false} CoveredIsDemanded(plan: FrozenPlan, row: Row, closed: Option<Closed>)
    requires ValidRow(row, closed)
    ensures Covered(Demands(plan, row.target), PredicateOf(row, closed)) <==> StillDemanded(plan, row, closed)
  {
    forall j | 0 <= j < |plan.rows| && plan.rows[j].gating && plan.rows[j].target == row.target
      ensures AsksForTheSame(plan.rows[j], row) && RequiresAsMuch(plan.rows[j], plan.closed, row, closed) <==>
        Implies(PredicateOf(plan.rows[j], plan.closed), PredicateOf(row, closed))
      ensures PredicateOf(plan.rows[j], plan.closed) in Demands(plan, row.target)
    {
      ImplicationIsExactly(plan.rows[j], plan.closed, row, closed);
    }
  }

  lemma {:induction false} TargetCovered(plans: seq<FrozenPlan>, plan: FrozenPlan, t: Target)
    ensures t in ChangesOf(Protected(plans), plan) <==> !CoversAll(Demands(plan, t), AllDemands(plans, t))
  {
    CoverageSurvivesReduction(Demands(plan, t), AllDemands(plans, t));
    var protected := Protected(plans);
    if t in protected {
      assert protected[t] == Strongest(AllDemands(plans, t));
    } else {
      assert t !in AllTargets(plans) && AllDemands(plans, t) == {};
    }
  }

  lemma {:induction false} RowStillDemanded(plans: seq<FrozenPlan>, plan: FrozenPlan, k: nat, i: nat)
    requires k < |plans| && i < |plans[k].rows| && plans[k].rows[i].gating
    requires plans[k].rows[i].target !in ChangesOf(Protected(plans), plan)
    ensures StillDemanded(plan, plans[k].rows[i], plans[k].closed)
  {
    var row := plans[k].rows[i];
    TargetCovered(plans, plan, row.target);
    assert PredicateOf(row, plans[k].closed) in Demands(plans[k], row.target);
    CoveredIsDemanded(plan, row, plans[k].closed);
  }

  lemma {:induction false} TargetStillCovered(plans: seq<FrozenPlan>, plan: FrozenPlan, except: set<Target>, t: Target)
    requires forall k :: 0 <= k < |plans| ==> DemandsAll(plan, plans[k], except)
    requires t !in except
    ensures t !in ChangesOf(Protected(plans), plan)
  {
    TargetCovered(plans, plan, t);
    forall p | p in AllDemands(plans, t) ensures Covered(Demands(plan, t), p) {
      var k :| 0 <= k < |plans| && p in Demands(plans[k], t);
      var i :| 0 <= i < |plans[k].rows| && plans[k].rows[i].gating && plans[k].rows[i].target == t
               && PredicateOf(plans[k].rows[i], plans[k].closed) == p;
      assert DemandsAll(plan, plans[k], except);
      CoveredIsDemanded(plan, plans[k].rows[i], plans[k].closed);
    }
  }

  /**
  A plan changes nothing outside the given targets exactly when it still demands every gating
  row any ancestor has elsewhere.
  */
  lemma {:induction false} ChangesAreExactlyWhatIsDropped(plans: seq<FrozenPlan>, plan: FrozenPlan, except: set<Target>)
    ensures ChangesOf(Protected(plans), plan).Keys <= except <==>
            forall k :: 0 <= k < |plans| ==> DemandsAll(plan, plans[k], except)
  {
    var changes := ChangesOf(Protected(plans), plan);
    if changes.Keys <= except {
      forall k | 0 <= k < |plans| ensures DemandsAll(plan, plans[k], except) {
        forall i | 0 <= i < |plans[k].rows| && plans[k].rows[i].gating && plans[k].rows[i].target !in except
          ensures StillDemanded(plan, plans[k].rows[i], plans[k].closed) {
          RowStillDemanded(plans, plan, k, i);
        }
      }
    }
    if forall k :: 0 <= k < |plans| ==> DemandsAll(plan, plans[k], except) {
      forall t | t !in except ensures t !in changes {
        TargetStillCovered(plans, plan, except, t);
      }
    }
  }

  ghost predicate Passes(row: Row, observed: Target -> map<string, Json>)
    requires row.comparator.ExactFailureSet? ==> IsTextList(row.expected)
  {
    Compare(row, observed(row.target)) == Ok(true)
  }

  /** Observations and checks that satisfy every gating row of the plan satisfy every ancestor row still demanded. */
  lemma {:induction false} DemandedRowsPass(
    plan: FrozenPlan, past: FrozenPlan, except: set<Target>, observed: Target -> map<string, Json>, passed: set<Check>, i: nat)
    requires DemandsAll(plan, past, except)
    requires i < |past.rows| && past.rows[i].gating && past.rows[i].target !in except
    requires forall j :: 0 <= j < |plan.rows| && plan.rows[j].gating ==>
      Passes(plan.rows[j], observed) && IsSupported(plan.rows[j], plan.closed, passed)
    ensures Passes(past.rows[i], observed) && IsSupported(past.rows[i], past.closed, passed)
  {
    var row := past.rows[i];
    assert StillDemanded(plan, row, past.closed);
    var j :| 0 <= j < |plan.rows| && plan.rows[j].gating && plan.rows[j].target == row.target
             && AsksForTheSame(plan.rows[j], row) && RequiresAsMuch(plan.rows[j], plan.closed, row, past.closed);
    assert Passes(plan.rows[j], observed) && IsSupported(plan.rows[j], plan.closed, passed);
    ImplicationIsExactly(plan.rows[j], plan.closed, row, past.closed);
    ImplicationIsSound(plan.rows[j], plan.closed, row, past.closed, observed(row.target), passed);
  }

  // ------------------------------------------------------------ amendments

  /** The operator approved exactly these changes. */
  predicate Approved(amendment: Amendment, changes: map<Target, Change>)
  {
    && amendment.reduction.Some?
    && var reduction := amendment.reduction.value;
    && reduction.current && reduction.targets != {} && reduction.targets == changes.Keys && reduction.changes == changes
    && (reduction.policyAmendment || forall t :: t in changes ==> changes[t].now == {})
    && amendment.operatorBound
  }

  function ApplyCoverage(amendment: Amendment, changes: map<Target, Change>, sameRevision: bool): set<Hold>
  {
    if (changes == map[] && amendment.reduction.None?) || Approved(amendment, changes) then {}
    else
      {CategoryMoved}
      + (if exists t :: t in changes && changes[t].now == {} then {ScopeReduction} else {})
      + (if sameRevision then {PlanChangedStale} else {})
  }

  /** The successor keeps every declared author and every runner of every partition. */
  predicate KeepsPeople(past: FrozenPlan, plan: FrozenPlan)
  {
    && past.authors <= plan.authors
    && forall id :: id in past.runners ==> past.runners[id] <= (if id in plan.runners then plan.runners[id] else {})
  }

  /** What a link in order adds to the holds of its parent; a stale plan is forgotten once the revision moves. */
  function LinkHolds(
    inherited: set<Hold>, peopleKept: bool, amendment: Amendment, changes: map<Target, Change>, same: bool): set<Hold>
  {
    inherited * ({CategoryMoved, ScopeReduction, NotIndependent} + if same then {PlanChangedStale} else {})
    + (if peopleKept then {} else {NotIndependent})
    + ApplyCoverage(amendment, changes, same)
  }

  /** Why a link cannot be judged at all. */
  function LinkError(store: Store, record: Record, parent: Record): Option<Error>
    requires record.policy.Some? && parent.policy.Some? && record.amendment.Some?
  {
    if !parent.published || !record.amendment.value.bound then Some(PlanStale)
    else
      match HistoryOf(store, parent, MAX_LINKS)
      case Refused(e) => Some(e)
      case Ok(protected) =>
        if record.amendment.value.assertionChanges != ChangesOf(protected, record.policy.value) then Some(PlanStale) else None
  }

  /** The verdict on one link, given the verdict on its parent. */
  function LinkVerdict(store: Store, record: Record, parent: Record, inherited: set<Hold>): Result<set<Hold>, Error>
    requires record.policy.Some? && parent.policy.Some? && record.amendment.Some?
  {
    match LinkError(store, record, parent)
    case Some(e) => Refused(e)
    case None =>
      Ok(LinkHolds(inherited, KeepsPeople(parent.policy.value, record.policy.value), record.amendment.value,
                   record.amendment.value.assertionChanges, parent.revision == record.revision))
  }

  /** The holds that the amendments of a record and of all its ancestors leave. */
  function Evaluate(store: Store, record: Record, depth: nat): Result<set<Hold>, Error>
    requires depth <= MAX_LINKS
    decreases MAX_LINKS - depth
  {
    if record.parent.None? then Ok({})
    else if depth >= MAX_LINKS then Refused(TooDeep)
    else if record.parent.value !in store || record.amendment.None? then Refused(RecordMissing)
    else
      var parent := store[record.parent.value];
      if parent.policy.None? || record.policy.None? then Refused(PlanStale)
      else
        match Evaluate(store, parent, depth + 1)
        case Refused(e) => Refused(e)
        case Ok(inherited) => LinkVerdict(store, record, parent, inherited)
  }

  /** The operator's own message names these changes, all of them, and may approve them. */
  ghost predicate IsReleased(amendment: Amendment, changes: map<Target, Change>)
  {
    match amendment.reduction
    case None => false
    case Some(reduction) =>
      && amendment.operatorBound && reduction.current && reduction.changes == changes && changes != map[]
      && (forall t :: t in reduction.targets <==> t in changes)
      && (!reduction.policyAmendment ==> forall t :: t in changes ==> changes[t].now == {})
  }

  /** The link changes what is demanded, or asks to, and nobody released that. */
  ghost predicate IsUnapproved(amendment: Amendment, changes: map<Target, Change>)
  {
    (changes != map[] || amendment.reduction.Some?) && !IsReleased(amendment, changes)
  }

  /** When each of the three holds arises: never for what the operator approved, nor where nothing changes. */
  lemma {:induction false} AmendmentHoldsExactly(amendment: Amendment, changes: map<Target, Change>, sameRevision: bool)
    ensures var holds := ApplyCoverage(amendment, changes, sameRevision);
      && (CategoryMoved in holds <==> IsUnapproved(amendment, changes))
      && (ScopeReduction in holds <==>
            IsUnapproved(amendment, changes) && exists t :: t in changes && changes[t].now == {})
      && (PlanChangedStale in holds <==> IsUnapproved(amendment, changes) && sameRevision)
      && NotIndependent !in holds
  {
    if amendment.reduction.Some? && changes != map[] {
      var reduction := amendment.reduction.value;
      assert changes.Keys != {};
      assert reduction.targets == changes.Keys <==> forall t :: t in reduction.targets <==> t in changes;
    }
  }

  /** Which holds a link has, its parent's included. */
  lemma {:induction false} LinkHoldsExactly(
    inherited: set<Hold>, peopleKept: bool, amendment: Amendment, changes: map<Target, Change>, same: bool)
    ensures var holds := LinkHolds(inherited, peopleKept, amendment, changes, same);
      && (CategoryMoved in holds <==> CategoryMoved in inherited || IsUnapproved(amendment, changes))
      && (ScopeReduction in holds ==> ScopeReduction in inherited || IsUnapproved(amendment, changes))
      && (ScopeReduction in inherited ==> ScopeReduction in holds)
      && (NotIndependent in holds <==> NotIndependent in inherited || !peopleKept)
      && (PlanChangedStale in holds <==> same && (PlanChangedStale in inherited || IsUnapproved(amendment, changes)))
  {
    AmendmentHoldsExactly(amendment, changes, same);
    var applied := ApplyCoverage(amendment, changes, same);
  }

  /** Targets the operator released for the link this amendment describes. */
  ghost function Released(amendment: Amendment): set<Target>
  {
    if IsReleased(amendment, amendment.assertionChanges) then amendment.assertionChanges.Keys else {}
  }

  /** No author and no runner of the past plan is missing from the new one. */
  predicate NobodyLeft(past: FrozenPlan, plan: FrozenPlan)
  {
    && (forall a :: a in past.authors ==> a in plan.authors)
    && (forall id, who :: id in past.runners && who in past.runners[id] ==> id in plan.runners && who in plan.runners[id])
  }

  /** Every gating row of every earlier plan is still demanded, released targets aside, and what is asked is released. */
  ghost predicate IsHonestChange(amendment: Amendment, earlier: seq<FrozenPlan>, plan: FrozenPlan)
  {
    && (amendment.reduction.Some? ==> IsReleased(amendment, amendment.assertionChanges))
    && forall k :: 0 <= k < |earlier| ==> DemandsAll(plan, earlier[k], Released(amendment))
  }

  /** The parent was published, the amendment names parent, child and exactly what changes, and people are kept. */
  ghost predicate HonestLink(store: Store, record: Record, parent: Record)
  {
    && record.policy.Some? && parent.policy.Some? && record.amendment.Some?
    && parent.published && record.amendment.value.bound
    && NobodyLeft(parent.policy.value, record.policy.value)
    && var amendment, earlier := record.amendment.value, Ancestry(store, parent, MAX_LINKS + 1);
    && earlier.Ok?
    && amendment.assertionChanges == ChangesOf(Protected(earlier.value), record.policy.value)
    && IsHonestChange(amendment, earlier.value, record.policy.value)
  }

  ghost predicate HonestChain(store: Store, record: Record, limit: nat)
    decreases limit
  {
    record.parent.Some? ==>
      && limit > 0 && record.parent.value in store
      && HonestLink(store, record, store[record.parent.value])
      && HonestChain(store, store[record.parent.value], limit - 1)
  }

  lemma {:induction false} PeopleAreKept(past: FrozenPlan, plan: FrozenPlan)
    ensures KeepsPeople(past, plan) <==> NobodyLeft(past, plan)
  {
  }

  /** The link passes every check of the walk. */
  ghost predicate IsInOrder(store: Store, record: Record, parent: Record)
    requires record.policy.Some? && parent.policy.Some? && record.amendment.Some?
  {
    && LinkError(store, record, parent).None? && KeepsPeople(parent.policy.value, record.policy.value)
    && !IsUnapproved(record.amendment.value, record.amendment.value.assertionChanges)
  }

  /** The link names exactly these changes. */
  ghost predicate NamesChanges(record: Record, earlier: seq<FrozenPlan>)
    requires record.policy.Some? && record.amendment.Some?
  {
    record.amendment.value.assertionChanges == ChangesOf(Protected(earlier), record.policy.value)
  }

  lemma {:induction false} LinkErrorMeans(store: Store, record: Record, parent: Record)
    requires record.policy.Some? && parent.policy.Some? && record.amendment.Some?
    ensures var earlier := Ancestry(store, parent, MAX_LINKS + 1);
      LinkError(store, record, parent).None? <==>
        parent.published && record.amendment.value.bound && earlier.Ok? && NamesChanges(record, earlier.value)
  {
    var earlier := Ancestry(store, parent, MAX_LINKS + 1);
    var history := HistoryOf(store, parent, MAX_LINKS);
    if earlier.Ok? {
      assert history == Ok(Protected(earlier.value));
    } else {
      assert history.Refused?;
    }
  }

  lemma {:induction false} ReleaseMeans(amendment: Amendment, earlier: seq<FrozenPlan>, plan: FrozenPlan)
    requires amendment.assertionChanges == ChangesOf(Protected(earlier), plan)
    ensures IsHonestChange(amendment, earlier, plan) <==> !IsUnapproved(amendment, amendment.assertionChanges)
  {
    ChangesAreExactlyWhatIsDropped(earlier, plan, Released(amendment));
    if amendment.assertionChanges.Keys == {} {
      assert amendment.assertionChanges == map[];
    }
  }

  lemma {:induction false} LinkHonest(store: Store, record: Record, parent: Record)
    requires record.policy.Some? && parent.policy.Some? && record.amendment.Some?
    ensures HonestLink(store, record, parent) <==> IsInOrder(store, record, parent)
  {
    var amendment, earlier := record.amendment.value, Ancestry(store, parent, MAX_LINKS + 1);
    PeopleAreKept(parent.policy.value, record.policy.value);
    LinkErrorMeans(store, record, parent);
    if earlier.Ok? && amendment.assertionChanges == ChangesOf(Protected(earlier.value), record.policy.value) {
      ReleaseMeans(amendment, earlier.value, record.policy.value);
    }
  }

  predicate IsHonest(verdict: Result<set<Hold>, Error>)
  {
    verdict.Ok? && CategoryMoved !in verdict.value && ScopeReduction !in verdict.value && NotIndependent !in verdict.value
  }

  lemma {:induction false} LinkHoldsHonest(
    inherited: set<Hold>, peopleKept: bool, amendment: Amendment, changes: map<Target, Change>, same: bool)
    ensures IsHonest(Ok(LinkHolds(inherited, peopleKept, amendment, changes, same))) <==>
      IsHonest(Ok(inherited)) && peopleKept && !IsUnapproved(amendment, changes)
  {
    LinkHoldsExactly(inherited, peopleKept, amendment, changes, same);
  }

  lemma {:induction false} VerdictHonest(store: Store, record: Record, parent: Record, inherited: set<Hold>)
    requires record.policy.Some? && parent.policy.Some? && record.amendment.Some?
    ensures IsHonest(LinkVerdict(store, record, parent, inherited)) <==>
      IsHonest(Ok(inherited)) && IsInOrder(store, record, parent)
  {
    LinkHoldsHonest(inherited, KeepsPeople(parent.policy.value, record.policy.value), record.amendment.value,
                    record.amendment.value.assertionChanges, parent.revision == record.revision);
  }

  lemma {:induction false} HonestNext(store: Store, record: Record, depth: nat)
    requires depth < MAX_LINKS && record.parent.Some?
    ensures IsHonest(Evaluate(store, record, depth)) <==>
      && record.parent.value in store && HonestLink(store, record, store[record.parent.value])
      && IsHonest(Evaluate(store, store[record.parent.value], depth + 1))
  {
    if record.parent.value in store && record.amendment.Some? {
      var parent := store[record.parent.value];
      if record.policy.Some? && parent.policy.Some? && Evaluate(store, parent, depth + 1).Ok? {
        VerdictHonest(store, record, parent, Evaluate(store, parent, depth + 1).value);
        LinkHonest(store, record, parent);
      }
    }
  }

  /** The verdict on a chain has none of these three holds exactly when every link of it is honest, however long it is. */
  lemma {:induction false} HoldFreeMeansHonest(store: Store, record: Record, depth: nat)
    requires depth <= MAX_LINKS
    ensures IsHonest(Evaluate(store, record, depth)) <==> HonestChain(store, record, MAX_LINKS - depth)
    decreases MAX_LINKS - depth
  {
    if record.parent.Some? && depth < MAX_LINKS {
      HonestNext(store, record, depth);
      if record.parent.value in store {
        HoldFreeMeansHonest(store, store[record.parent.value], depth + 1);
      }
    }
  }

  lemma {:induction false} VerdictStale(store: Store, record: Record, parent: Record, inherited: set<Hold>)
    requires record.policy.Some? && parent.policy.Some? && record.amendment.Some?
    requires LinkVerdict(store, record, parent, inherited).Ok?
    ensures PlanChangedStale in LinkVerdict(store, record, parent, inherited).value <==>
      && parent.revision == record.revision
      && (PlanChangedStale in inherited || IsUnapproved(record.amendment.value, record.amendment.value.assertionChanges))
  {
    var amendment := record.amendment.value;
    LinkHoldsExactly(inherited, KeepsPeople(parent.policy.value, record.policy.value), amendment,
                     amendment.assertionChanges, parent.revision == record.revision);
  }

  /** A change nobody approved was made at this revision, here or at an earlier link, and the revision has not moved since. */
  ghost predicate StaleSince(store: Store, record: Record, limit: nat)
    decreases limit
  {
    && limit > 0 && record.parent.Some? && record.parent.value in store && record.amendment.Some?
    && record.revision == store[record.parent.value].revision
    && (IsUnapproved(record.amendment.value, record.amendment.value.assertionChanges)
        || StaleSince(store, store[record.parent.value], limit - 1))
  }

  lemma {:induction false} StaleNext(store: Store, record: Record, depth: nat)
    requires depth < MAX_LINKS && Evaluate(store, record, depth).Ok? && record.parent.Some?
    ensures record.parent.value in store && record.amendment.Some?
    ensures Evaluate(store, store[record.parent.value], depth + 1).Ok?
    ensures PlanChangedStale in Evaluate(store, record, depth).value <==>
      && record.revision == store[record.parent.value].revision
      && (PlanChangedStale in Evaluate(store, store[record.parent.value], depth + 1).value
          || IsUnapproved(record.amendment.value, record.amendment.value.assertionChanges))
  {
    var parent := store[record.parent.value];
    VerdictStale(store, record, parent, Evaluate(store, parent, depth + 1).value);
  }

  lemma {:induction false} StaleHoldsExactly(store: Store, record: Record, depth: nat)
    requires depth <= MAX_LINKS && Evaluate(store, record, depth).Ok?
    ensures PlanChangedStale in Evaluate(store, record, depth).value <==> StaleSince(store, record, MAX_LINKS - depth)
    decreases MAX_LINKS - depth
  {
    if record.parent.Some? && depth < MAX_LINKS {
      StaleNext(store, record, depth);
      StaleHoldsExactly(store, store[record.parent.value], depth + 1);
    }
  }

  // ------------------------------------------------------------ the limits agree

  /** Everything on the way to the root reads back, and the root is exactly `links` links away. */
  ghost predicate Readable(store: Store, record: Record, links: nat)
    decreases links
  {
    && record.policy.Some?
    && if links == 0 then record.parent.None?
       else record.parent.Some? && record.amendment.Some? && record.parent.value in store
            && Readable(store, store[record.parent.value], links - 1)
  }

  lemma {:induction false} AncestryLimit(store: Store, record: Record, links: nat, limit: nat)
    requires Readable(store, record, links)
    ensures Ancestry(store, record, limit) == Refused(TooDeep) <==> limit <= links
    ensures Ancestry(store, record, limit).Ok? <==> links < limit
    decreases limit
  {
    if limit > 0 && links > 0 {
      AncestryLimit(store, store[record.parent.value], links - 1, limit - 1);
    }
  }

  lemma {:induction false} EvaluateLimit(store: Store, record: Record, links: nat, depth: nat)
    requires Readable(store, record, links) && depth <= MAX_LINKS
    ensures Evaluate(store, record, depth) == Refused(TooDeep) <==> links > MAX_LINKS - depth
    decreases MAX_LINKS - depth
  {
    if links > 0 && depth < MAX_LINKS {
      var parent := store[record.parent.value];
      EvaluateLimit(store, parent, links - 1, depth + 1);
      AncestryLimit(store, parent, links - 1, MAX_LINKS + 1);
    }
  }

  /** The check `successor` makes before a child of this parent exists. */
  predicate SuccessorAdmitted(store: Store, parent: Record)
  {
    HistoryOf(store, parent, MAX_LINKS - 1).Ok?
  }

  /**
  A child is created exactly when it stays within 32 links, and exactly then `lineage` and the
  recursive evaluation can walk it; `history` of the child itself stops at the same length.
  */
  lemma {:induction false} LimitsAgree(store: Store, child: Record, links: nat)
    requires Readable(store, child, links) && child.parent.Some?
    ensures SuccessorAdmitted(store, store[child.parent.value]) <==> links <= MAX_LINKS
    ensures Ancestry(store, child, MAX_LINKS + 1).Ok? <==> links <= MAX_LINKS
    ensures HistoryOf(store, child, MAX_LINKS).Ok? <==> links <= MAX_LINKS
    ensures Evaluate(store, child, 0) == Refused(TooDeep) <==> links > MAX_LINKS
  {
    AncestryLimit(store, store[child.parent.value], links - 1, MAX_LINKS);
    AncestryLimit(store, child, links, MAX_LINKS + 1);
    EvaluateLimit(store, child, links, 0);
  }
}
