/**
The preflight from the registry to its blocking holds (`evaluate` and `blocking_holds` in
src/agenttalk/acceptance_preflight.py): depth search, inputs, manifests, inheritance and report in one run, against a
statement that knows neither memo nor order.
*/
module PreflightReport {
  import opened Wrappers
  import opened RegistryGraph
  import opened RegistrySearch
  import opened Preflight
  import opened PreflightMemo

  /** The holds that reading the staged material found: for the whole report, for each pin, for each entry's observation. */
  datatype Staged = Staged(common: set<Hold>, fileErrors: map<Ref, set<Hold>>, observed: map<Key, set<Hold>>)

  /** What validation has established before: references resolve, to pins of the right role, and rows name entries. */
  ghost predicate WellFormed(reg: Registry, keys: seq<Key>, manifests: seq<Ref>)
  {
    && Closed(reg.graph) && (forall k :: k in keys <==> k in reg.graph)
    && reg.own.Keys == reg.graph.Keys && (forall k :: k in reg.own ==> reg.own[k] <= reg.files.Keys)
    && (forall ref, r :: r in Evidence(reg.files, ref) ==> r in reg.files && reg.files[r].OtherPin?)
    && AreManifests(reg.files, manifests)
  }

  ghost predicate ReadFor(reg: Registry, staged: Staged)
  {
    staged.fileErrors.Keys == reg.files.Keys && staged.observed.Keys == reg.graph.Keys
  }

  predicate RowsNameEntries(reg: Registry, rows: seq<PlanRow>)
  {
    forall j :: 0 <= j < |rows| ==> forall k :: k in rows[j].entries ==> k in reg.graph
  }

  /** A hold of the entry itself: of the report, of its observation, or of a pin it requires. */
  ghost predicate HoldAt(reg: Registry, staged: Staged, e: Key, h: Hold)
  {
    || h in staged.common
    || (e in staged.observed && h in staged.observed[e])
    || exists r :: r in staged.fileErrors && IsRequired(reg, e, r) && h in staged.fileErrors[r]
  }

  ghost predicate ReachedFrom(reg: Registry, staged: Staged, k: Key, h: Hold)
  {
    exists e :: Reaches(reg.graph, k, e) && e in reg.graph && HoldAt(reg, staged, e, h)
  }

  /** A hold of the row: of the report, or of an entry that one of the row's entries reaches. */
  ghost predicate RowHas(reg: Registry, staged: Staged, row: PlanRow, h: Hold)
  {
    h in staged.common || exists k :: k in row.entries && ReachedFrom(reg, staged, k, h)
  }

  ghost predicate SomeRowHas(reg: Registry, staged: Staged, rows: seq<PlanRow>, h: Hold, gatingOnly: bool)
  {
    exists i :: 0 <= i < |rows| && (rows[i].gating || !gatingOnly) && RowHas(reg, staged, rows[i], h)
  }

  ghost predicate Found(reg: Registry, staged: Staged, h: Hold)
  {
    || h in staged.common
    || (exists k :: k in reg.graph && HoldAt(reg, staged, k, h))
    || exists r :: r in staged.fileErrors && h in staged.fileErrors[r]
  }

  /** Found, and either never waivable, or in no row, or in a gating one. */
  ghost predicate Blocks(reg: Registry, staged: Staged, rows: seq<PlanRow>, h: Hold)
  {
    Found(reg, staged, h)
    && (AlwaysBlocks(h) || !SomeRowHas(reg, staged, rows, h, false) || SomeRowHas(reg, staged, rows, h, true))
  }

  /** A code no row can waive. */
  predicate IsNeverWaived(code: string)
  {
    || code == "acceptance_record_missing" || code == "acceptance_offline_violation" || code == "acceptance_plan_stale"
    || code == "acceptance_policy_invalid" || code == "acceptance_row_unbound"
  }

  /**
  What is found blocks whatever the rows say if its code is one of five or it is mandatory; otherwise it blocks exactly
  where a gating row has it or no row has.
  */
  lemma {:induction false} BlocksExactly(reg: Registry, staged: Staged, rows: seq<PlanRow>, h: Hold)
    ensures Found(reg, staged, h) && (IsNeverWaived(h.code) || h.mandatory) ==> Blocks(reg, staged, rows, h)
    ensures Found(reg, staged, h) && !IsNeverWaived(h.code) && !h.mandatory ==>
      (Blocks(reg, staged, rows, h) <==>
         || (exists i :: 0 <= i < |rows| && rows[i].gating && RowHas(reg, staged, rows[i], h))
         || forall i :: 0 <= i < |rows| ==> !RowHas(reg, staged, rows[i], h))
    ensures Blocks(reg, staged, rows, h) ==> Found(reg, staged, h)
  {
  }

  // ------------------------------------------------------------ the computed report says the same

  ghost predicate IsEvaluated(reg: Registry, staged: Staged, f: Findings, results: map<Key, set<Hold>>)
  {
    && f.common == staged.common && f.fileErrors == staged.fileErrors && f.observed == staged.observed
    && Covers(reg, f) && results.Keys == reg.graph.Keys && forall k :: k in results ==> AreHolds(reg, f, k, results[k])
  }

  lemma {:induction false} OwnHoldsAre(reg: Registry, staged: Staged, f: Findings, results: map<Key, set<Hold>>, e: Key, h: Hold)
    requires IsEvaluated(reg, staged, f, results) && e in reg.graph
    ensures h in OwnHolds(f, e) <==> HoldAt(reg, staged, e, h)
  {
    if exists r :: r in staged.fileErrors && IsRequired(reg, e, r) && h in staged.fileErrors[r] {
      var r :| r in staged.fileErrors && IsRequired(reg, e, r) && h in staged.fileErrors[r];
      assert r in f.required[e];
    }
  }

  lemma {:induction false} CarriedIs(reg: Registry, staged: Staged, f: Findings, results: map<Key, set<Hold>>, k: Key, h: Hold)
    requires IsEvaluated(reg, staged, f, results)
    ensures CarriedFrom(reg, f, k, h) <==> ReachedFrom(reg, staged, k, h)
  {
    if CarriedFrom(reg, f, k, h) {
      var e :| Reaches(reg.graph, k, e) && e in f.observed && h in OwnHolds(f, e);
      OwnHoldsAre(reg, staged, f, results, e, h);
    }
    if ReachedFrom(reg, staged, k, h) {
      var e :| Reaches(reg.graph, k, e) && e in reg.graph && HoldAt(reg, staged, e, h);
      OwnHoldsAre(reg, staged, f, results, e, h);
    }
  }

  lemma {:induction false} RowIs(
    reg: Registry, staged: Staged, f: Findings, results: map<Key, set<Hold>>, row: PlanRow, h: Hold)
    requires IsEvaluated(reg, staged, f, results) && forall k :: k in row.entries ==> k in results
    ensures h in RowOf(f, results, row).holds <==> RowHas(reg, staged, row, h)
  {
    RowHoldsAreExact(reg, f, results, row, h);
    forall k | k in row.entries ensures CarriedFrom(reg, f, k, h) <==> ReachedFrom(reg, staged, k, h) {
      CarriedIs(reg, staged, f, results, k, h);
    }
  }

  lemma {:induction false} SomeRowIs(
    reg: Registry, staged: Staged, f: Findings, results: map<Key, set<Hold>>, rows: seq<PlanRow>, h: Hold, gatingOnly: bool)
    requires IsEvaluated(reg, staged, f, results)
    requires forall j :: 0 <= j < |rows| ==> forall k :: k in rows[j].entries ==> k in results
    ensures InSomeRow(ReportOf(f, results, rows).rows, h, gatingOnly) <==> SomeRowHas(reg, staged, rows, h, gatingOnly)
  {
    var report := ReportOf(f, results, rows);
    forall i | 0 <= i < |rows| ensures h in report.rows[i].holds <==> RowHas(reg, staged, rows[i], h) {
      RowIs(reg, staged, f, results, rows[i], h);
    }
    forall i | 0 <= i < |rows| ensures report.rows[i].gating == rows[i].gating {
    }
  }

  lemma {:induction false} FoundIs(
    reg: Registry, staged: Staged, f: Findings, results: map<Key, set<Hold>>, rows: seq<PlanRow>, h: Hold)
    requires IsEvaluated(reg, staged, f, results)
    requires forall j :: 0 <= j < |rows| ==> forall k :: k in rows[j].entries ==> k in results
    ensures h in ReportOf(f, results, rows).holds <==> Found(reg, staged, h)
  {
    if exists k :: k in reg.graph && HoldAt(reg, staged, k, h) {
      var k :| k in reg.graph && HoldAt(reg, staged, k, h);
      ReachesItself(reg.graph, k);
      assert ReachedFrom(reg, staged, k, h);
      CarriedIs(reg, staged, f, results, k, h);
      assert AreHolds(reg, f, k, results[k]);
    }
    if k :| k in results && h in results[k] {
      assert AreHolds(reg, f, k, results[k]);
      CarriedIs(reg, staged, f, results, k, h);
      var e :| Reaches(reg.graph, k, e) && e in reg.graph && HoldAt(reg, staged, e, h);
    }
  }

  lemma {:induction false} BlockingIs(
    reg: Registry, staged: Staged, f: Findings, results: map<Key, set<Hold>>, rows: seq<PlanRow>, h: Hold)
    requires IsEvaluated(reg, staged, f, results)
    requires forall j :: 0 <= j < |rows| ==> forall k :: k in rows[j].entries ==> k in results
    ensures h in BlockingHolds(ReportOf(f, results, rows)) <==> Blocks(reg, staged, rows, h)
  {
    FoundIs(reg, staged, f, results, rows, h);
    SomeRowIs(reg, staged, f, results, rows, h, false);
    SomeRowIs(reg, staged, f, results, rows, h, true);
  }

  lemma {:induction false} GroundsArePinned(reg: Registry, s: Ref, r: Ref)
    requires s in reg.files && Grounds(reg.files, s, r)
    requires forall ref, e :: e in Evidence(reg.files, ref) ==> e in reg.files && reg.files[e].OtherPin?
    ensures r in reg.files
  {
  }

  lemma {:induction false} RequiredIsPinned(reg: Registry, k: Key, r: Ref)
    requires IsRequired(reg, k, r) && reg.own.Keys == reg.graph.Keys
    requires forall e :: e in reg.own ==> reg.own[e] <= reg.files.Keys
    requires forall ref, e :: e in Evidence(reg.files, ref) ==> e in reg.files && reg.files[e].OtherPin?
    ensures r in reg.files
  {
    var e :| Reaches(reg.graph, k, e) && OwnRequirement(reg, e, r);
    var s :| s in reg.own[e] && Supports(reg.files, s, r);
    assert s in reg.files.Keys;
    if Grounds(reg.files, s, r) {
      GroundsArePinned(reg, s, r);
    } else {
      var m :| Manifests(reg.files, s, m) && Grounds(reg.files, m, r);
      GroundsArePinned(reg, m, r);
    }
  }

  // ------------------------------------------------------------ the whole run

  method RequireAll(reg: Registry, ghost depths: map<Key, nat>, keys: seq<Key>, inputs: map<Key, set<Ref>>, manifests: seq<Ref>)
    returns (required: map<Key, set<Ref>>)
    requires Validated(reg, depths) && AreManifests(reg.files, manifests) && (forall k :: k in keys <==> k in reg.graph)
    requires inputs.Keys == reg.graph.Keys && forall k :: k in inputs ==> AreInputs(reg, k, inputs[k])
    ensures required.Keys == reg.graph.Keys
    ensures forall k :: k in required ==> forall r :: r in required[k] <==> IsRequired(reg, k, r)
  {
    required := map[];
    for i := 0 to |keys|
      invariant required.Keys <= reg.graph.Keys && forall j :: 0 <= j < i ==> keys[j] in required
      invariant forall k :: k in required ==> forall r :: r in required[k] <==> IsRequired(reg, k, r)
    {
      assert keys[i] in keys;
      var more := AddManifests(reg, depths, keys[i], inputs[keys[i]], manifests);
      required := required[keys[i] := more];
    }
    assert required.Keys == reg.graph.Keys;
  }

  /** Inputs, manifests and inheritance, once the depths are known. */
  method Resolve(reg: Registry, ghost depths: map<Key, nat>, keys: seq<Key>, manifests: seq<Ref>, staged: Staged)
    returns (f: Findings, results: map<Key, set<Hold>>)
    requires WellFormed(reg, keys, manifests) && ReadFor(reg, staged) && DepthsDecrease(reg.graph, depths)
    ensures IsEvaluated(reg, staged, f, results)
  {
    var collector := new Collector(reg, depths);
    collector.CollectAll(keys);
    var required := RequireAll(reg, depths, keys, collector.result, manifests);
    f := Findings(staged.common, staged.fileErrors, staged.observed, required);
    forall k, ref | k in required && ref in required[k] ensures ref in staged.fileErrors {
      RequiredIsPinned(reg, k, ref);
    }
    assert Covers(reg, f);
    var inheritance := new Inheritance(reg, f, depths);
    inheritance.InheritAll(keys);
    results := inheritance.resolved;
  }

  method Report(reg: Registry, staged: Staged, f: Findings, results: map<Key, set<Hold>>, rows: seq<PlanRow>)
    returns (blocking: set<Hold>)
    requires IsEvaluated(reg, staged, f, results) && RowsNameEntries(reg, rows)
    ensures forall h :: h in blocking <==> Blocks(reg, staged, rows, h)
  {
    assert forall j :: 0 <= j < |rows| ==> forall k :: k in rows[j].entries ==> k in results;
    blocking := BlockingHolds(ReportOf(f, results, rows));
    forall h ensures h in blocking <==> Blocks(reg, staged, rows, h) {
      BlockingIs(reg, staged, f, results, rows, h);
    }
  }

  /** Refused exactly for too deep a registry; otherwise what blocks is exactly what the statement above says. */
  method Evaluate(reg: Registry, keys: seq<Key>, manifests: seq<Ref>, staged: Staged, rows: seq<PlanRow>)
    returns (r: Result<set<Hold>, Error>)
    requires WellFormed(reg, keys, manifests) && ReadFor(reg, staged) && RowsNameEntries(reg, rows)
    ensures r.Ok? <==> Shallow(reg.graph)
    ensures r.Ok? ==> forall h :: h in r.value <==> Blocks(reg, staged, rows, h)
  {
    var search := new Search(reg.graph);
    var shallow := search.VisitAll(keys);
    if !shallow {
      return Refused(Depth);
    }
    var f, results := Resolve(reg, search.depths, keys, manifests, staged);
    var blocking := Report(reg, staged, f, results, rows);
    return Ok(blocking);
  }

  lemma {:induction false} HeldBlocks(
    reg: Registry, staged: Staged, rows: seq<PlanRow>, i: nat, k: Key, e: Key, h: Hold)
    requires i < |rows| && rows[i].gating && k in rows[i].entries && Reaches(reg.graph, k, e) && e in reg.graph
    requires HoldAt(reg, staged, e, h)
    ensures Blocks(reg, staged, rows, h)
  {
    assert ReachedFrom(reg, staged, k, h) && RowHas(reg, staged, rows[i], h);
  }

  /** Nothing blocks: then no entry a gating row reaches has a hold, and every pin it requires was read cleanly. */
  lemma {:induction false} CleanWhereItCounts(
    reg: Registry, staged: Staged, rows: seq<PlanRow>, i: nat, k: Key, e: Key, ref: Ref)
    requires forall h :: !Blocks(reg, staged, rows, h)
    requires i < |rows| && rows[i].gating && k in rows[i].entries && Reaches(reg.graph, k, e)
    requires e in reg.graph && e in staged.observed
    ensures staged.common == {} && staged.observed[e] == {}
    ensures ref in staged.fileErrors && IsRequired(reg, e, ref) ==> staged.fileErrors[ref] == {}
  {
    if h :| h in staged.common {
      HeldBlocks(reg, staged, rows, i, k, e, h);
    }
    if h :| h in staged.observed[e] {
      HeldBlocks(reg, staged, rows, i, k, e, h);
    }
    if ref in staged.fileErrors && IsRequired(reg, e, ref) && staged.fileErrors[ref] != {} {
      var h :| h in staged.fileErrors[ref];
      HeldBlocks(reg, staged, rows, i, k, e, h);
    }
  }
}
