/**
Protected measurement targets (src/agenttalk/acceptance_coverage.py): what a gating row
demands, when one demand implies another, and which demands a new plan would drop.

Canonical JSON text is modelled by the value itself, and a digest by the value digested.
*/
module AcceptanceCoverage {
  import opened SetSizes
  import opened Wrappers
  import opened PythonText

  datatype Json =
    | Null
    | Bool(b: bool)
    | Int(i: int)
    | Float(f: real)
    | Str(s: string)
    | Arr(items: seq<Json>)
    | Obj(fields: map<string, Json>)

  type Digest = nat

  const MAX_ITEMS: nat := 256
  const MAX_TEXT: nat := 4096

  datatype Error = PolicyInvalid | RecordMissing | TooDeep | PlanStale

  // ------------------------------------------------------------ rows and their comparators

  datatype Comparator = ExitCode | ExactValue | ExactFailureSet

  datatype Target = Target(partition: string, artifact: string, field: string)

  datatype Row = Row(
    id: string, target: Target, gating: bool, comparator: Comparator, expected: Json, entries: Option<set<string>>)

  /** Digests of the closed entry definitions, of the shared environment and of the row overrides. */
  datatype Closed = Closed(definitions: map<string, Digest>, environment: Digest, overrides: map<string, Digest>)

  datatype Plan = Plan(
    rows: seq<Row>, closed: Option<Closed>, authors: set<string>, runners: map<string, set<string>>)

  predicate IsText(s: string)
  {
    !IsBlank(s) && |s| <= MAX_TEXT
  }

  /** A bounded list of distinct texts. */
  predicate IsTextList(v: Json)
  {
    && v.Arr? && |v.items| <= MAX_ITEMS
    && (forall i :: 0 <= i < |v.items| ==> v.items[i].Str? && IsText(v.items[i].s))
    && (forall i, j :: 0 <= i < j < |v.items| ==> v.items[i] != v.items[j])
  }

  function Texts(v: Json): set<string>
  {
    if v.Arr? then set i | 0 <= i < |v.items| && v.items[i].Str? :: v.items[i].s else {}
  }

  /** What plan validation has established about a row before any of this runs. */
  predicate ValidRow(row: Row, closed: Option<Closed>)
  {
    && (row.comparator.ExitCode? ==> row.target.field == "exit_code" && row.expected.Int?)
    && (row.comparator.ExactFailureSet? ==> IsTextList(row.expected))
    && (row.entries.Some? ==> closed.Some? && row.entries.value <= closed.value.definitions.Keys)
  }

  predicate ValidPlan(plan: Plan)
  {
    forall i :: 0 <= i < |plan.rows| ==> ValidRow(plan.rows[i], plan.closed)
  }

  /** The recomputed verdict of one row on the observed values. */
  function Compare(row: Row, values: map<string, Json>): Result<bool, Error>
    requires row.comparator.ExactFailureSet? ==> IsTextList(row.expected)
  {
    if row.target.field !in values then Refused(RecordMissing)
    else
      var observed := values[row.target.field];
      match row.comparator
      case ExitCode => if observed.Int? then Ok(observed == row.expected) else Refused(PolicyInvalid)
      case ExactFailureSet =>
        if observed.Arr? && |observed.items| > MAX_ITEMS then Ok(false)
        else if IsTextList(observed) then Ok(Texts(observed) == Texts(row.expected))
        else Refused(PolicyInvalid)
      case ExactValue => Ok(observed == row.expected)
  }

  // ------------------------------------------------------------ predicates and implication

  datatype Kind = FailureSet(ids: set<string>) | ExactJson(value: Json)

  datatype Requirement = Requirement(
    entries: set<string>, definitions: map<string, Digest>, environment: Digest, override: Option<Digest>)

  datatype Predicate = Predicate(kind: Kind, requirement: Option<Requirement>)

  function PredicateOf(row: Row, closed: Option<Closed>): (p: Predicate)
    requires ValidRow(row, closed)
    ensures Generated(p)
  {
    var requirement :=
      if row.entries.None? then None
      else
        var c := closed.value;
        Some(Requirement(
               row.entries.value,
               map key | key in row.entries.value :: c.definitions[key],
               c.environment,
               if row.id in c.overrides then Some(c.overrides[row.id]) else None));
    var kind := if row.comparator.ExactFailureSet? then FailureSet(Texts(row.expected)) else ExactJson(row.expected);
    Predicate(kind, requirement)
  }

  /** Shape of every predicate a row generates. */
  predicate Generated(p: Predicate)
  {
    p.requirement.Some? ==> p.requirement.value.definitions.Keys == p.requirement.value.entries
  }

  predicate CoversRequirement(candidate: Option<Requirement>, obligation: Option<Requirement>)
  {
    obligation.Some? ==>
      && candidate.Some?
      && candidate.value.entries >= obligation.value.entries
      && (forall key :: key in obligation.value.definitions ==>
            key in candidate.value.definitions
            && candidate.value.definitions[key] == obligation.value.definitions[key])
      && candidate.value.environment == obligation.value.environment
      && candidate.value.override == obligation.value.override
  }

  predicate CoversKind(candidate: Kind, obligation: Kind)
  {
    || candidate == obligation
    || (candidate.ExactJson? && obligation.FailureSet?
        && IsTextList(candidate.value) && Texts(candidate.value) == obligation.ids)
  }

  predicate Implies(candidate: Predicate, obligation: Predicate)
  {
    CoversRequirement(candidate.requirement, obligation.requirement) && CoversKind(candidate.kind, obligation.kind)
  }

  lemma {:induction false} ImpliesIsAPartialOrder(a: Predicate, b: Predicate, c: Predicate)
    requires Generated(a) && Generated(b) && Generated(c)
    ensures Implies(a, a)
    ensures Implies(a, b) && Implies(b, c) ==> Implies(a, c)
    ensures Implies(a, b) && Implies(b, a) ==> a == b
  {
    if Implies(a, b) && Implies(b, a) && a.requirement.Some? && b.requirement.Some? {
      assert a.requirement.value.definitions == b.requirement.value.definitions;
    }
  }

  /** The observed values a predicate of this kind lets pass. */
  predicate Accepts(kind: Kind, observed: Json)
  {
    match kind
    case ExactJson(value) => observed == value
    case FailureSet(ids) => IsTextList(observed) && Texts(observed) == ids
  }

  lemma {:induction false} CompareAccepts(row: Row, closed: Option<Closed>, values: map<string, Json>)
    requires ValidRow(row, closed)
    ensures Compare(row, values) == Ok(true) <==>
            row.target.field in values && Accepts(PredicateOf(row, closed).kind, values[row.target.field])
  {
  }

  /** When the comparison is refused rather than answered. */
  lemma {:induction false} CompareRefuses(row: Row, closed: Option<Closed>, values: map<string, Json>)
    requires ValidRow(row, closed)
    ensures Compare(row, values) == Refused(RecordMissing) <==> row.target.field !in values
    ensures Compare(row, values).Ok? <==>
      row.target.field in values &&
        var observed := values[row.target.field];
        && (row.comparator == ExitCode ==> observed.Int?)
        && (row.comparator == ExactFailureSet ==> IsTextList(observed) || (observed.Arr? && |observed.items| > 256))
  {
  }

  /** The strong row asks for what the weak one asks for: the same value, the same set, or a list that is that set. */
  predicate AsksForTheSame(strong: Row, weak: Row)
  {
    if weak.comparator == ExactFailureSet then
      Texts(strong.expected) == Texts(weak.expected) && (strong.comparator == ExactFailureSet || IsTextList(strong.expected))
    else
      strong.comparator != ExactFailureSet && strong.expected == weak.expected
  }

  /** The strong row has every entry of the weak one, by the same definitions, in the same environment. */
  predicate RequiresAsMuch(strong: Row, sc: Option<Closed>, weak: Row, wc: Option<Closed>)
    requires ValidRow(strong, sc) && ValidRow(weak, wc)
  {
    weak.entries.Some? ==>
      && strong.entries.Some? && weak.entries.value <= strong.entries.value
      && (forall key :: key in weak.entries.value ==> sc.value.definitions[key] == wc.value.definitions[key])
      && sc.value.environment == wc.value.environment
      && (strong.id in sc.value.overrides <==> weak.id in wc.value.overrides)
      && (weak.id in wc.value.overrides ==> sc.value.overrides[strong.id] == wc.value.overrides[weak.id])
  }

  /** One row implies another exactly when it asks for the same and requires at least as much. */
  lemma {:induction false} ImplicationIsExactly(strong: Row, sc: Option<Closed>, weak: Row, wc: Option<Closed>)
    requires ValidRow(strong, sc) && ValidRow(weak, wc)
    ensures Implies(PredicateOf(strong, sc), PredicateOf(weak, wc)) <==>
      AsksForTheSame(strong, weak) && RequiresAsMuch(strong, sc, weak, wc)
  {
  }

  /** An entry by its definition, in an environment with an override. */
  datatype Check = Check(entry: string, definition: Digest, environment: Digest, override: Option<Digest>)

  /** Everything the row requires is among the checks that passed. */
  predicate IsSupported(row: Row, closed: Option<Closed>, passed: set<Check>)
    requires ValidRow(row, closed)
  {
    row.entries.Some? ==>
      var override := if row.id in closed.value.overrides then Some(closed.value.overrides[row.id]) else None;
      forall key :: key in row.entries.value ==>
        Check(key, closed.value.definitions[key], closed.value.environment, override) in passed
  }

  /** Sound: on the same target, whatever passes the implying row, entries included, passes the implied one. */
  lemma {:induction false} ImplicationIsSound(
    strong: Row, sc: Option<Closed>, weak: Row, wc: Option<Closed>, values: map<string, Json>, passed: set<Check>)
    requires ValidRow(strong, sc) && ValidRow(weak, wc) && strong.target == weak.target
    requires Implies(PredicateOf(strong, sc), PredicateOf(weak, wc))
    ensures Compare(strong, values) == Ok(true) ==> Compare(weak, values) == Ok(true)
    ensures IsSupported(strong, sc, passed) ==> IsSupported(weak, wc, passed)
  {
    CompareAccepts(strong, sc, values);
    CompareAccepts(weak, wc, values);
    ImplicationIsExactly(strong, sc, weak, wc);
  }

  // ------------------------------------------------------------ how conservative the implication is

  predicate ValidKind(kind: Kind)
  {
    kind.FailureSet? ==> |kind.ids| <= MAX_ITEMS && forall id :: id in kind.ids ==> IsText(id)
  }

  ghost predicate Entails(candidate: Kind, obligation: Kind)
  {
    forall v :: Accepts(candidate, v) ==> Accepts(obligation, v)
  }

  /** The items name every given text once, and nothing else. */
  ghost predicate Lists(items: seq<Json>, ids: set<string>)
  {
    && |items| == |ids|
    && (forall i :: 0 <= i < |items| ==> items[i].Str? && items[i].s in ids)
    && (forall i, j :: 0 <= i < j < |items| ==> items[i] != items[j])
    && (forall id :: id in ids ==> Str(id) in items)
  }

  /** Some list of the given texts, in an order of its own. */
  ghost function Listing(ids: set<string>): (items: seq<Json>)
    ensures Lists(items, ids)
  {
    if ids == {} then []
    else
      var id :| id in ids;
      var rest := Listing(ids - {id});
      ListsMore(id, rest, ids);
      [Str(id)] + rest
  }

  lemma {:induction false} ListsMore(id: string, rest: seq<Json>, ids: set<string>)
    requires id in ids && Lists(rest, ids - {id})
    ensures Lists([Str(id)] + rest, ids)
  {
  }

  lemma {:induction false} ListAccepted(items: seq<Json>, ids: set<string>)
    requires Lists(items, ids) && ValidKind(FailureSet(ids))
    ensures Accepts(FailureSet(ids), Arr(items))
  {
    var v := Arr(items);
    forall id | id in ids ensures id in Texts(v) {
      var i :| 0 <= i < |items| && items[i] == Str(id);
      assert v.items[i].s == id;
    }
    assert forall id :: id in Texts(v) ==> id in ids;
  }

  lemma {:induction false} SwapLists(items: seq<Json>, ids: set<string>)
    requires Lists(items, ids) && |items| >= 2
    ensures Lists(items[0 := items[1]][1 := items[0]], ids)
  {
    var swapped := items[0 := items[1]][1 := items[0]];
    forall id | id in ids ensures Str(id) in swapped {
      var i :| 0 <= i < |items| && items[i] == Str(id);
      assert swapped[if i == 0 then 1 else if i == 1 then 0 else i] == Str(id);
    }
  }

  lemma {:induction false} ListedOnce(ids: set<string>, a: seq<Json>, b: seq<Json>)
    requires |ids| <= 1 && Lists(a, ids) && Lists(b, ids)
    ensures a == b
  {
    if |ids| == 1 {
      var id :| id in ids;
      OnlyMember(ids, id);
      assert a[0] == Str(id) && b[0] == Str(id);
    }
  }

  lemma {:induction false} Alike(items: seq<Json>, item: Json)
    requires forall i :: 0 <= i < |items| ==> items[i] == item
    ensures (forall i, j :: 0 <= i < j < |items| ==> items[i] != items[j]) ==> |items| <= 1
  {
    if |items| > 1 {
      assert items[0] == items[1];
    }
  }

  lemma {:induction false} AcceptedLists(ids: set<string>, items: seq<Json>)
    requires |ids| <= 1 && IsTextList(Arr(items)) && Texts(Arr(items)) == ids
    ensures Lists(items, ids)
  {
    var v := Arr(items);
    assert forall i :: 0 <= i < |items| ==> v.items[i].s in Texts(v);
    forall id | id in ids ensures Str(id) in items {
      var i :| 0 <= i < |items| && v.items[i].Str? && v.items[i].s == id;
      assert items[i] == Str(id);
    }
    if |items| > 0 {
      OnlyMember(ids, items[0].s);
      assert ids == {items[0].s};
      assert forall i :: 0 <= i < |items| ==> items[i].s in ids && items[i] == items[0];
      Alike(items, items[0]);
    } else {
      assert ids == {};
    }
  }

  /** With at most one text there is only one list to accept. */
  lemma {:induction false} SingleListing(ids: set<string>, v: Json)
    requires |ids| <= 1 && Accepts(FailureSet(ids), v)
    ensures v == Arr(Listing(ids))
  {
    AcceptedLists(ids, v.items);
    ListedOnce(ids, v.items, Listing(ids));
  }

  lemma {:induction false} OnlyMember<T>(s: set<T>, x: T)
    requires |s| <= 1 && x in s
    ensures s == {x}
  {
    SubsetSize({x}, s);
    assert |s - {x}| == 0;
  }

  /** Two texts or more: two orders are accepted, so no single value is entailed. */
  lemma {:induction false} LargeSetEntailsNoValue(ids: set<string>, value: Json)
    requires ValidKind(FailureSet(ids)) && |ids| >= 2
    ensures !Entails(FailureSet(ids), ExactJson(value))
  {
    var items := Listing(ids);
    var swapped := items[0 := items[1]][1 := items[0]];
    SwapLists(items, ids);
    ListAccepted(items, ids);
    ListAccepted(swapped, ids);
    assert swapped[0] != items[0];
    assert Accepts(ExactJson(value), Arr(items)) ==> !Accepts(ExactJson(value), Arr(swapped));
  }

  lemma {:induction false} ValueEntailsWhatAcceptsIt(value: Json, obligation: Kind)
    ensures Entails(ExactJson(value), obligation) <==> CoversKind(ExactJson(value), obligation)
  {
    assert Accepts(ExactJson(value), value);
  }

  lemma {:induction false} SetEntailsItself(ids: set<string>, others: set<string>)
    requires ValidKind(FailureSet(ids))
    ensures Entails(FailureSet(ids), FailureSet(others)) <==> ids == others
  {
    ListAccepted(Listing(ids), ids);
  }

  lemma {:induction false} SmallSetEntailsItsList(ids: set<string>, value: Json)
    requires ValidKind(FailureSet(ids)) && |ids| <= 1
    ensures Entails(FailureSet(ids), ExactJson(value)) <==> value == Arr(Listing(ids))
  {
    ListAccepted(Listing(ids), ids);
    forall v | Accepts(FailureSet(ids), v) ensures v == Arr(Listing(ids)) {
      SingleListing(ids, v);
    }
  }

  /**
  The implication is exact but for one case it is too careful about: a failure set of at most
  one text accepts a single list, and the exact-value row asking for that list is not implied.
  */
  lemma {:induction false} ImplicationIsExactBut(candidate: Kind, obligation: Kind)
    requires ValidKind(candidate) && ValidKind(obligation)
    ensures Entails(candidate, obligation) <==>
            || CoversKind(candidate, obligation)
            || (candidate.FailureSet? && |candidate.ids| <= 1 && obligation == ExactJson(Arr(Listing(candidate.ids))))
  {
    match candidate
    case ExactJson(value) => ValueEntailsWhatAcceptsIt(value, obligation);
    case FailureSet(ids) =>
      match obligation
      case FailureSet(others) => SetEntailsItself(ids, others);
      case ExactJson(value) =>
        if |ids| >= 2 {
          LargeSetEntailsNoValue(ids, value);
        } else {
          SmallSetEntailsItsList(ids, value);
        }
  }

  // ------------------------------------------------------------ the strongest demands

  function Strongest(predicates: set<Predicate>): set<Predicate>
  {
    set p | p in predicates && !exists q :: q in predicates && q != p && Implies(q, p)
  }

  predicate AllGenerated(predicates: set<Predicate>)
  {
    forall p :: p in predicates ==> Generated(p)
  }

  predicate IsAntichain(predicates: set<Predicate>)
  {
    forall p, q :: p in predicates && q in predicates && Implies(p, q) ==> p == q
  }

  predicate Covered(given: set<Predicate>, p: Predicate)
  {
    exists q :: q in given && Implies(q, p)
  }

  predicate CoversAll(given: set<Predicate>, predicates: set<Predicate>)
  {
    forall p :: p in predicates ==> Covered(given, p)
  }

  ghost function Dominators(predicates: set<Predicate>, p: Predicate): set<Predicate>
  {
    set q | q in predicates && q != p && Implies(q, p)
  }

  lemma {:induction false} StrongestCovers(predicates: set<Predicate>, p: Predicate)
    requires AllGenerated(predicates) && p in predicates
    ensures Covered(Strongest(predicates), p)
    decreases |Dominators(predicates, p)|
  {
    if p in Strongest(predicates) {
      ImpliesIsAPartialOrder(p, p, p);
    } else {
      var q :| q in predicates && q != p && Implies(q, p);
      forall r | r in Dominators(predicates, q) ensures r in Dominators(predicates, p) {
        ImpliesIsAPartialOrder(r, q, p);
        ImpliesIsAPartialOrder(p, q, p);
      }
      assert q in Dominators(predicates, p) && q !in Dominators(predicates, q);
      SubsetSize(Dominators(predicates, q), Dominators(predicates, p) - {q});
      StrongestCovers(predicates, q);
      var s :| s in Strongest(predicates) && Implies(s, q);
      ImpliesIsAPartialOrder(s, q, p);
    }
  }

  /** The reduction keeps an antichain that still implies everything, and no other subset does both. */
  lemma {:induction false} StrongestIsTheAntichain(predicates: set<Predicate>, kept: set<Predicate>)
    requires AllGenerated(predicates) && kept <= predicates
    ensures kept == Strongest(predicates) <==> IsAntichain(kept) && CoversAll(kept, predicates)
  {
    var strongest := Strongest(predicates);
    forall p | p in predicates ensures Covered(strongest, p) {
      StrongestCovers(predicates, p);
    }
    if IsAntichain(kept) && CoversAll(kept, predicates) {
      forall p | p in kept ensures p in strongest {
        forall q | q in predicates && q != p ensures !Implies(q, p) {
          ImpliesIsAPartialOrder(p, q, p);
        }
      }
      forall p | p in strongest ensures p in kept {
        var b :| b in kept && Implies(b, p);
      }
    }
  }

  /** Reducing either side does not change what is covered. */
  lemma {:induction false} CoverageSurvivesReduction(given: set<Predicate>, predicates: set<Predicate>)
    requires AllGenerated(given) && AllGenerated(predicates)
    ensures CoversAll(Strongest(given), Strongest(predicates)) <==> CoversAll(given, predicates)
  {
    if CoversAll(Strongest(given), Strongest(predicates)) {
      forall p | p in predicates ensures Covered(given, p) {
        StrongestCovers(predicates, p);
        var s :| s in Strongest(predicates) && Implies(s, p);
        var b :| b in Strongest(given) && Implies(b, s);
        ImpliesIsAPartialOrder(b, s, p);
      }
    }
    if CoversAll(given, predicates) {
      forall p | p in Strongest(predicates) ensures Covered(Strongest(given), p) {
        var b :| b in given && Implies(b, p);
        StrongestCovers(given, b);
        var s :| s in Strongest(given) && Implies(s, b);
        ImpliesIsAPartialOrder(s, b, p);
      }
    }
  }

  // ------------------------------------------------------------ demands by target

  /** What the gating rows of a plan demand at a target. */
  function Demands(plan: Plan, t: Target): (r: set<Predicate>)
    requires ValidPlan(plan)
    ensures AllGenerated(r)
  {
    set i | 0 <= i < |plan.rows| && plan.rows[i].gating && plan.rows[i].target == t :: PredicateOf(plan.rows[i], plan.closed)
  }

  function Targets(plan: Plan): set<Target>
  {
    set i | 0 <= i < |plan.rows| && plan.rows[i].gating :: plan.rows[i].target
  }

  function GroupOf(plan: Plan): map<Target, set<Predicate>>
    requires ValidPlan(plan)
  {
    map t | t in Targets(plan) :: Strongest(Demands(plan, t))
  }

  /** Predicates collected so far, by target; equal canonical texts fall together. */
  function Collect(targets: map<Target, set<Predicate>>, row: Row, closed: Option<Closed>): map<Target, set<Predicate>>
    requires ValidRow(row, closed)
  {
    targets[row.target := (if row.target in targets then targets[row.target] else {}) + {PredicateOf(row, closed)}]
  }

  function Reduce(targets: map<Target, set<Predicate>>): map<Target, set<Predicate>>
  {
    map t | t in targets :: Strongest(targets[t])
  }

  function Prefix(plan: Plan, n: nat): Plan
    requires n <= |plan.rows|
  {
    plan.(rows := plan.rows[..n])
  }

  lemma {:induction false} DemandsOfPrefix(plan: Plan, n: nat, t: Target)
    requires ValidPlan(plan) && n < |plan.rows|
    ensures ValidPlan(Prefix(plan, n)) && ValidPlan(Prefix(plan, n + 1))
    ensures Demands(Prefix(plan, n + 1), t) == Demands(Prefix(plan, n), t) +
              if plan.rows[n].gating && plan.rows[n].target == t then {PredicateOf(plan.rows[n], plan.closed)} else {}
    ensures Targets(Prefix(plan, n + 1)) == Targets(Prefix(plan, n)) + if plan.rows[n].gating then {plan.rows[n].target} else {}
  {
    var before, after := Prefix(plan, n), Prefix(plan, n + 1);
    assert forall i :: 0 <= i < n ==> after.rows[i] == before.rows[i];
    assert after.rows[n] == plan.rows[n];
    assert forall p :: p in Demands(before, t) ==> p in Demands(after, t);
    assert forall u :: u in Targets(before) ==> u in Targets(after);
  }

  method Group(plan: Plan) returns (targets: map<Target, set<Predicate>>)
    requires ValidPlan(plan)
    ensures targets == GroupOf(plan)
  {
    var collected: map<Target, set<Predicate>> := map[];
    for n := 0 to |plan.rows|
      invariant ValidPlan(Prefix(plan, n))
      invariant collected.Keys == Targets(Prefix(plan, n))
      invariant forall t :: t in collected ==> collected[t] == Demands(Prefix(plan, n), t)
    {
      DemandsOfPrefix(plan, n, plan.rows[n].target);
      ghost var before := collected;
      if plan.rows[n].gating {
        collected := Collect(collected, plan.rows[n], plan.closed);
      }
      forall t | t in collected ensures collected[t] == Demands(Prefix(plan, n + 1), t) {
        DemandsOfPrefix(plan, n, t);
        if t !in before {
          NoTargetNoDemand(Prefix(plan, n), t);
        }
      }
    }
    assert Prefix(plan, |plan.rows|) == plan;
    targets := Reduce(collected);
  }

  lemma {:induction false} NoTargetNoDemand(plan: Plan, t: Target)
    requires ValidPlan(plan)
    ensures t in Targets(plan) <==> Demands(plan, t) != {}
  {
    if t in Targets(plan) {
      var i :| 0 <= i < |plan.rows| && plan.rows[i].gating && plan.rows[i].target == t;
      assert PredicateOf(plan.rows[i], plan.closed) in Demands(plan, t);
    }
  }

  // ------------------------------------------------------------ what a new plan changes

  datatype Change = Change(was: set<Predicate>, now: set<Predicate>)

  function Current(plan: Plan, t: Target): set<Predicate>
    requires ValidPlan(plan)
  {
    Strongest(Demands(plan, t))
  }

  function ChangesOf(protected: map<Target, set<Predicate>>, plan: Plan): map<Target, Change>
    requires ValidPlan(plan)
  {
    map t | t in protected && !CoversAll(Current(plan, t), protected[t]) :: Change(protected[t], Current(plan, t))
  }

  /** A change names what was demanded and what is; nothing is left exactly where no gating row has the target any more. */
  lemma {:induction false} ScopeIsReducedExactly(protected: map<Target, set<Predicate>>, plan: Plan, t: Target)
    requires ValidPlan(plan) && t in ChangesOf(protected, plan)
    ensures ChangesOf(protected, plan)[t].was == protected[t]
    ensures ChangesOf(protected, plan)[t].now == {} <==>
      forall i :: 0 <= i < |plan.rows| && plan.rows[i].gating ==> plan.rows[i].target != t
  {
    var demands := Demands(plan, t);
    NoTargetNoDemand(plan, t);
    if demands != {} {
      var p :| p in demands;
      StrongestCovers(demands, p);
      assert t in Targets(plan);
    } else {
      assert t !in Targets(plan);
    }
  }

  method Changes(protected: map<Target, set<Predicate>>, plan: Plan) returns (changed: map<Target, Change>)
    requires ValidPlan(plan)
    ensures changed == ChangesOf(protected, plan)
  {
    var current := Group(plan);
    changed := map[];
    var left := protected.Keys;
    while left != {}
      invariant left <= protected.Keys
      invariant changed == map t | t in protected && t !in left && !CoversAll(Current(plan, t), protected[t]) ::
                             Change(protected[t], Current(plan, t))
      decreases left
    {
      var t :| t in left;
      NoTargetNoDemand(plan, t);
      var demanded := if t in current then current[t] else {};
      assert demanded == Current(plan, t);
      if !CoversAll(demanded, protected[t]) {
        changed := changed[t := Change(protected[t], demanded)];
      }
      left := left - {t};
    }
  }
}
