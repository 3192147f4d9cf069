/**
Which staged inputs an entry needs and which holds it carries
(`entry_inputs` in src/agenttalk/acceptance_registry.py, `evaluate` and `blocking_holds` in
src/agenttalk/acceptance_preflight.py). Both memoised recursions are stated over reachability in
the dependency graph, so that a prerequisite cannot be lost on the way to a row.
*/
module Preflight {
  import opened RegistryGraph

  type Ref = string

  datatype Provenance = Provenance(record: Ref, verification: set<Ref>)

  datatype Pin =
    | DistributionPin(provenance: Provenance)
    | SnapshotPin(provenance: Provenance, distribution: Ref)
    | OtherPin

  /** `own` are the pins an entry names itself: artifact, inputs, snapshots, provenance, template, measurement. */
  datatype Registry = Registry(graph: Graph, own: map<Key, set<Ref>>, files: map<Ref, Pin>)

  /** `_provenance`: the records behind a pin; only distributions and snapshots are asked for them. */
  function Evidence(files: map<Ref, Pin>, ref: Ref): set<Ref>
  {
    if ref !in files || files[ref].OtherPin? then {}
    else {files[ref].provenance.record} + files[ref].provenance.verification
  }

  /** What validation has established: references resolve, to pins of the right role, and depths are exact. */
  ghost predicate Validated(reg: Registry, depths: map<Key, nat>)
  {
    && Closed(reg.graph) && DepthsDecrease(reg.graph, depths)
    && reg.own.Keys == reg.graph.Keys
    && (forall ref, r :: r in Evidence(reg.files, ref) ==> r in reg.files && reg.files[r].OtherPin?)
  }

  // ------------------------------------------------------------ reachability

  ghost predicate Reaches(g: Graph, k: Key, e: Key)
  {
    exists p :: IsPathFrom(g, k, p) && p[|p| - 1] == e
  }

  lemma {:induction false} ReachesItself(g: Graph, k: Key)
    requires k in g
    ensures Reaches(g, k, k)
  {
    assert IsPathFrom(g, k, [k]);
  }

  lemma {:induction false} ReachesThrough(g: Graph, k: Key, d: Key, e: Key)
    requires DependsOn(g, k, d) && Reaches(g, d, e)
    ensures Reaches(g, k, e)
  {
    var p :| IsPathFrom(g, d, p) && p[|p| - 1] == e;
    JoinPaths(g, [k], p);
    assert IsPathFrom(g, k, [k] + p);
  }

  lemma {:induction false} ReachesFirst(g: Graph, k: Key, e: Key) returns (d: Key)
    requires Reaches(g, k, e) && k != e
    ensures DependsOn(g, k, d) && Reaches(g, d, e)
  {
    var p :| IsPathFrom(g, k, p) && p[|p| - 1] == e;
    d := p[1];
    assert IsPathFrom(g, d, p[1..]);
  }

  // ------------------------------------------------------------ the inputs of an entry

  /** The pin itself and the evidence behind it. */
  predicate Grounds(files: map<Ref, Pin>, s: Ref, r: Ref)
  {
    r == s || r in Evidence(files, s)
  }

  ghost predicate OwnInput(reg: Registry, e: Key, r: Ref)
  {
    e in reg.own && exists s :: s in reg.own[e] && Grounds(reg.files, s, r)
  }

  /** Some reachable entry names the pin, or a pin whose evidence it is. */
  ghost predicate IsInput(reg: Registry, k: Key, r: Ref)
  {
    exists e :: Reaches(reg.graph, k, e) && OwnInput(reg, e, r)
  }

  ghost predicate AreInputs(reg: Registry, k: Key, inputs: set<Ref>)
  {
    forall r :: r in inputs <==> IsInput(reg, k, r)
  }

  ghost predicate FromFirst(reg: Registry, keys: seq<Key>, n: nat, r: Ref)
    requires n <= |keys|
  {
    exists j :: 0 <= j < n && IsInput(reg, keys[j], r)
  }

  lemma {:induction false} InputOfEntry(reg: Registry, depths: map<Key, nat>, k: Key, r: Ref)
    requires Validated(reg, depths) && k in reg.graph
    ensures OwnInput(reg, k, r) ==> IsInput(reg, k, r)
    ensures FromFirst(reg, reg.graph[k], |reg.graph[k]|, r) ==> IsInput(reg, k, r)
    ensures IsInput(reg, k, r) ==> OwnInput(reg, k, r) || FromFirst(reg, reg.graph[k], |reg.graph[k]|, r)
  {
    ReachesItself(reg.graph, k);
    var keys := reg.graph[k];
    if FromFirst(reg, keys, |keys|, r) {
      var j :| 0 <= j < |keys| && IsInput(reg, keys[j], r);
      var e :| Reaches(reg.graph, keys[j], e) && OwnInput(reg, e, r);
      ReachesThrough(reg.graph, k, keys[j], e);
    }
    if IsInput(reg, k, r) && !OwnInput(reg, k, r) {
      var e :| Reaches(reg.graph, k, e) && OwnInput(reg, e, r);
      var d := ReachesFirst(reg.graph, k, e);
      assert IsInput(reg, d, r);
      var j :| 0 <= j < |keys| && keys[j] == d;
    }
  }

  /** Evidence is asked for once more on the way up; it adds nothing that a reachable entry does not name. */
  lemma {:induction false} EvidenceOfInput(reg: Registry, depths: map<Key, nat>, k: Key, s: Ref, r: Ref)
    requires Validated(reg, depths) && IsInput(reg, k, s) && r in Evidence(reg.files, s)
    ensures IsInput(reg, k, r)
  {
    var e :| Reaches(reg.graph, k, e) && OwnInput(reg, e, s);
    var t :| t in reg.own[e] && Grounds(reg.files, t, s);
    assert s == t;
    assert Grounds(reg.files, t, r);
    assert OwnInput(reg, e, r);
  }

  /** `inputs` after the evidence of each of its members was added. */
  ghost predicate WithEvidence(files: map<Ref, Pin>, inputs: set<Ref>, all: set<Ref>)
  {
    forall r :: r in all <==> r in inputs || exists s :: s in inputs && r in Evidence(files, s)
  }

  method AddEvidence(files: map<Ref, Pin>, inputs: set<Ref>) returns (all: set<Ref>)
    ensures WithEvidence(files, inputs, all)
  {
    var refs := inputs;
    all := inputs;
    while refs != {}
      invariant refs <= inputs
      invariant forall r :: r in all <==> r in inputs || exists s :: s in inputs - refs && r in Evidence(files, s)
      decreases |refs|
    {
      var ref :| ref in refs;
      ghost var done := inputs - refs;
      refs := refs - {ref};
      all := all + Evidence(files, ref);
      assert inputs - refs == done + {ref};
    }
    assert inputs - {} == inputs;
  }

  lemma {:induction false} EntryCollected(
    reg: Registry, depths: map<Key, nat>, k: Key, inputs: set<Ref>, all: set<Ref>)
    requires Validated(reg, depths) && k in reg.graph && WithEvidence(reg.files, inputs, all)
    requires forall r :: r in inputs <==> r in reg.own[k] || FromFirst(reg, reg.graph[k], |reg.graph[k]|, r)
    ensures AreInputs(reg, k, all)
  {
    forall r ensures r in all <==> IsInput(reg, k, r) {
      InputOfEntry(reg, depths, k, r);
      if r in inputs && r in reg.own[k] {
        assert Grounds(reg.files, r, r);
      }
      if r in all && r !in inputs {
        var s :| s in inputs && r in Evidence(reg.files, s);
        assert s in reg.own[k] ==> Grounds(reg.files, s, s);
        InputOfEntry(reg, depths, k, s);
        EvidenceOfInput(reg, depths, k, s, r);
      }
      if OwnInput(reg, k, r) {
        var s :| s in reg.own[k] && Grounds(reg.files, s, r);
        assert s in inputs;
      }
    }
  }

  // ------------------------------------------------------------ snapshot manifests

  /** A consumer of a distribution also needs every snapshot manifest of it, with the evidence behind that. */
  predicate Manifests(files: map<Ref, Pin>, s: Ref, m: Ref)
  {
    s in files && files[s].DistributionPin? && m in files && files[m].SnapshotPin? && files[m].distribution == s
  }

  /** What naming s makes an entry depend on. */
  ghost predicate Supports(files: map<Ref, Pin>, s: Ref, r: Ref)
  {
    Grounds(files, s, r) || exists m :: Manifests(files, s, m) && Grounds(files, m, r)
  }

  ghost predicate OwnRequirement(reg: Registry, e: Key, r: Ref)
  {
    e in reg.own && exists s :: s in reg.own[e] && Supports(reg.files, s, r)
  }

  ghost predicate IsRequired(reg: Registry, k: Key, r: Ref)
  {
    exists e :: Reaches(reg.graph, k, e) && OwnRequirement(reg, e, r)
  }

  /** The provenance of a distribution or a snapshot: the record and everything that verifies it. */
  predicate Proves(pin: Pin, r: Ref)
  {
    !pin.OtherPin? && (r == pin.provenance.record || r in pin.provenance.verification)
  }

  /** r is the pin itself or proves it; or it is, or proves, a snapshot of it. */
  ghost predicate StandsBehind(files: map<Ref, Pin>, s: Ref, r: Ref)
  {
    || r == s || (s in files && Proves(files[s], r))
    || exists m :: m in files && files[m].SnapshotPin? && files[m].distribution == s && s in files && files[s].DistributionPin?
         && (r == m || Proves(files[m], r))
  }

  /** An entry requires what stands behind the pins that it, or an entry it reaches, names; and nothing else. */
  lemma {:induction false} RequiredExactly(reg: Registry, k: Key, r: Ref)
    ensures IsRequired(reg, k, r) <==>
      exists e, s :: Reaches(reg.graph, k, e) && e in reg.own && s in reg.own[e] && StandsBehind(reg.files, s, r)
  {
    forall s ensures Supports(reg.files, s, r) <==> StandsBehind(reg.files, s, r) {
      SupportsExactly(reg.files, s, r);
    }
    if IsRequired(reg, k, r) {
      var e :| Reaches(reg.graph, k, e) && OwnRequirement(reg, e, r);
      var s :| s in reg.own[e] && Supports(reg.files, s, r);
    }
    if e, s :| Reaches(reg.graph, k, e) && e in reg.own && s in reg.own[e] && StandsBehind(reg.files, s, r) {
      assert OwnRequirement(reg, e, r);
    }
  }

  lemma {:induction false} SupportsExactly(files: map<Ref, Pin>, s: Ref, r: Ref)
    ensures Supports(files, s, r) <==> StandsBehind(files, s, r)
  {
    if m :| m in files && files[m].SnapshotPin? && files[m].distribution == s && s in files && files[s].DistributionPin?
            && (r == m || Proves(files[m], r)) {
      assert Manifests(files, s, m) && Grounds(files, m, r);
    }
    if m :| Manifests(files, s, m) && Grounds(files, m, r) {
      assert r == m || Proves(files[m], r);
    }
  }

  ghost predicate Consumes(files: map<Ref, Pin>, inputs: set<Ref>, m: Ref, r: Ref)
  {
    m in files && files[m].SnapshotPin? && files[m].distribution in inputs && Grounds(files, m, r)
  }

  ghost predicate FromManifests(files: map<Ref, Pin>, inputs: set<Ref>, manifests: seq<Ref>, n: nat, r: Ref)
    requires n <= |manifests|
  {
    exists i :: 0 <= i < n && Consumes(files, inputs, manifests[i], r)
  }

  /** The pins that are snapshots, each of a pinned distribution. */
  ghost predicate AreManifests(files: map<Ref, Pin>, manifests: seq<Ref>)
  {
    && (forall m :: m in manifests <==> m in files && files[m].SnapshotPin?)
    && (forall m :: m in manifests ==> files[m].distribution in files && files[files[m].distribution].DistributionPin?)
  }

  lemma {:induction false} ManifestsComplete(
    reg: Registry, depths: map<Key, nat>, k: Key, inputs: set<Ref>, manifests: seq<Ref>, r: Ref)
    requires Validated(reg, depths) && AreInputs(reg, k, inputs) && AreManifests(reg.files, manifests)
    ensures r in inputs || FromManifests(reg.files, inputs, manifests, |manifests|, r) <==> IsRequired(reg, k, r)
  {
    var files := reg.files;
    if r in inputs {
      var e :| Reaches(reg.graph, k, e) && OwnInput(reg, e, r);
      var s :| s in reg.own[e] && Grounds(files, s, r);
      assert Supports(files, s, r) && OwnRequirement(reg, e, r);
    }
    if FromManifests(files, inputs, manifests, |manifests|, r) {
      var i :| 0 <= i < |manifests| && Consumes(files, inputs, manifests[i], r);
      var d := files[manifests[i]].distribution;
      assert manifests[i] in manifests;
      var e :| Reaches(reg.graph, k, e) && OwnInput(reg, e, d);
      var s :| s in reg.own[e] && Grounds(files, s, d);
      assert s == d && Manifests(files, s, manifests[i]);
      assert Supports(files, s, r) && OwnRequirement(reg, e, r);
    }
    if IsRequired(reg, k, r) {
      var e :| Reaches(reg.graph, k, e) && OwnRequirement(reg, e, r);
      var s :| s in reg.own[e] && Supports(files, s, r);
      assert Grounds(files, s, s) && OwnInput(reg, e, s) && IsInput(reg, k, s);
      if Grounds(files, s, r) {
        assert OwnInput(reg, e, r) && IsInput(reg, k, r);
      } else {
        var m :| Manifests(files, s, m) && Grounds(files, m, r);
        assert m in manifests;
        var i :| 0 <= i < |manifests| && manifests[i] == m;
        assert Consumes(files, inputs, manifests[i], r);
      }
    }
  }

  /** What a consumer has gained from the first n manifests; it never is a distribution. */
  ghost predicate Grown(files: map<Ref, Pin>, inputs: set<Ref>, manifests: seq<Ref>, n: nat, required: set<Ref>)
    requires n <= |manifests|
  {
    && (forall r :: r in required <==> r in inputs || FromManifests(files, inputs, manifests, n, r))
    && (forall r :: r in required && r in files && files[r].DistributionPin? ==> r in inputs)
  }

  function AddManifest(files: map<Ref, Pin>, required: set<Ref>, m: Ref): set<Ref>
    requires m in files && files[m].SnapshotPin?
  {
    if files[m].distribution in required then required + {m} + Evidence(files, m) else required
  }

  lemma {:induction false} GrowsByOne(
    reg: Registry, depths: map<Key, nat>, inputs: set<Ref>, manifests: seq<Ref>, n: nat, required: set<Ref>)
    requires Validated(reg, depths) && AreManifests(reg.files, manifests) && n < |manifests|
    requires Grown(reg.files, inputs, manifests, n, required)
    ensures manifests[n] in manifests
    ensures Grown(reg.files, inputs, manifests, n + 1, AddManifest(reg.files, required, manifests[n]))
  {
    var files, m := reg.files, manifests[n];
    assert m in manifests;
    var after := AddManifest(files, required, m);
    forall r ensures r in after <==> r in inputs || FromManifests(files, inputs, manifests, n + 1, r) {
      if FromManifests(files, inputs, manifests, n + 1, r) {
        var i :| 0 <= i < n + 1 && Consumes(files, inputs, manifests[i], r);
        assert i < n ==> FromManifests(files, inputs, manifests, n, r);
      }
      if r in after && r !in required {
        assert Consumes(files, inputs, manifests[n], r);
      }
    }
  }

  method AddManifests(reg: Registry, ghost depths: map<Key, nat>, k: Key, inputs: set<Ref>, manifests: seq<Ref>)
    returns (required: set<Ref>)
    requires Validated(reg, depths) && AreInputs(reg, k, inputs) && AreManifests(reg.files, manifests)
    ensures forall r :: r in required <==> IsRequired(reg, k, r)
  {
    required := inputs;
    for i := 0 to |manifests|
      invariant Grown(reg.files, inputs, manifests, i, required)
    {
      GrowsByOne(reg, depths, inputs, manifests, i, required);
      if reg.files[manifests[i]].distribution in required {
        required := required + {manifests[i]} + Evidence(reg.files, manifests[i]);
      }
    }
    forall r ensures r in required <==> IsRequired(reg, k, r) {
      ManifestsComplete(reg, depths, k, inputs, manifests, r);
    }
  }

  // ------------------------------------------------------------ holds

  datatype Hold = Hold(code: string, detail: string, ref: string, mandatory: bool)

  const MISMATCH := "acceptance_preflight_mismatch"
  const VIOLATION := "acceptance_offline_violation"
  const INTEGRITY := "acceptance_record_missing"
  const STALE := "acceptance_plan_stale"

  datatype Status = Pass | Fail | NotRun

  function StatusOf(holds: set<Hold>): Status
  {
    if holds == {} then Pass
    else if exists h :: h in holds && (h.code == MISMATCH || h.code == VIOLATION || h.code == INTEGRITY || h.code == STALE) then Fail
    else NotRun
  }

  /** Pass without a hold, fail for a hold of four codes, and otherwise not run. */
  lemma {:induction false} StatusExactly(holds: set<Hold>)
    ensures StatusOf(holds) == Pass <==> holds == {}
    ensures StatusOf(holds) == Fail <==>
      exists h :: h in holds &&
        (h.code == "acceptance_preflight_mismatch" || h.code == "acceptance_offline_violation"
         || h.code == "acceptance_record_missing" || h.code == "acceptance_plan_stale")
  {
  }

  /**
  What an evaluation has read: holds of the whole report, of each pin, and of each entry's own
  observation. `required` is the outcome of `AddManifests` for every entry.
  */
  datatype Findings = Findings(
    common: set<Hold>, fileErrors: map<Ref, set<Hold>>, observed: map<Key, set<Hold>>, required: map<Key, set<Ref>>)

  ghost predicate Covers(reg: Registry, f: Findings)
  {
    && f.observed.Keys == reg.graph.Keys && f.required.Keys == reg.graph.Keys
    && (forall k, r :: k in f.required && r in f.required[k] ==> r in f.fileErrors)
    && (forall k :: k in f.required ==> forall r :: r in f.required[k] <==> IsRequired(reg, k, r))
  }

  /** Holds of one entry before inheritance. */
  function OwnHolds(f: Findings, k: Key): set<Hold>
    requires k in f.observed && k in f.required && forall r :: r in f.required[k] ==> r in f.fileErrors
  {
    f.common + (set r, h | r in f.required[k] && h in f.fileErrors[r] :: h) + f.observed[k]
  }

  ghost predicate CarriedFrom(reg: Registry, f: Findings, k: Key, h: Hold)
    requires Covers(reg, f)
  {
    exists e :: Reaches(reg.graph, k, e) && e in f.observed && h in OwnHolds(f, e)
  }

  ghost predicate AreHolds(reg: Registry, f: Findings, k: Key, holds: set<Hold>)
    requires Covers(reg, f)
  {
    forall h :: h in holds <==> CarriedFrom(reg, f, k, h)
  }

  ghost predicate CarriedFromFirst(reg: Registry, f: Findings, keys: seq<Key>, n: nat, h: Hold)
    requires Covers(reg, f) && n <= |keys|
  {
    exists j :: 0 <= j < n && CarriedFrom(reg, f, keys[j], h)
  }

  lemma {:induction false} HoldOfEntry(reg: Registry, f: Findings, k: Key, h: Hold)
    requires Covers(reg, f) && Closed(reg.graph) && k in reg.graph
    ensures CarriedFrom(reg, f, k, h) <==> h in OwnHolds(f, k) || CarriedFromFirst(reg, f, reg.graph[k], |reg.graph[k]|, h)
  {
    ReachesItself(reg.graph, k);
    var keys := reg.graph[k];
    if CarriedFromFirst(reg, f, keys, |keys|, h) {
      var j :| 0 <= j < |keys| && CarriedFrom(reg, f, keys[j], h);
      var e :| Reaches(reg.graph, keys[j], e) && e in f.observed && h in OwnHolds(f, e);
      ReachesThrough(reg.graph, k, keys[j], e);
    }
    if CarriedFrom(reg, f, k, h) && h !in OwnHolds(f, k) {
      var e :| Reaches(reg.graph, k, e) && e in f.observed && h in OwnHolds(f, e);
      var d := ReachesFirst(reg.graph, k, e);
      assert CarriedFrom(reg, f, d, h);
      var j :| 0 <= j < |keys| && keys[j] == d;
    }
  }

  ghost predicate Gathered(reg: Registry, f: Findings, k: Key, n: nat, errors: set<Hold>)
    requires Covers(reg, f) && k in reg.graph && n <= |reg.graph[k]|
  {
    forall h :: h in errors <==> h in OwnHolds(f, k) || CarriedFromFirst(reg, f, reg.graph[k], n, h)
  }

  lemma {:induction false} GatherOne(reg: Registry, f: Findings, k: Key, n: nat, errors: set<Hold>, more: set<Hold>)
    requires Covers(reg, f) && k in reg.graph && n < |reg.graph[k]|
    requires Gathered(reg, f, k, n, errors) && AreHolds(reg, f, reg.graph[k][n], more)
    ensures Gathered(reg, f, k, n + 1, errors + more)
  {
    var keys := reg.graph[k];
    forall h ensures CarriedFromFirst(reg, f, keys, n + 1, h) <==> CarriedFromFirst(reg, f, keys, n, h) || h in more {
      if CarriedFromFirst(reg, f, keys, n + 1, h) {
        var j :| 0 <= j < n + 1 && CarriedFrom(reg, f, keys[j], h);
      }
    }
  }

  lemma {:induction false} GatheredAll(reg: Registry, f: Findings, k: Key, errors: set<Hold>)
    requires Covers(reg, f) && Closed(reg.graph) && k in reg.graph && Gathered(reg, f, k, |reg.graph[k]|, errors)
    ensures AreHolds(reg, f, k, errors)
  {
    forall h ensures h in errors <==> CarriedFrom(reg, f, k, h) {
      HoldOfEntry(reg, f, k, h);
    }
  }

  // ------------------------------------------------------------ the report

  datatype PlanRow = PlanRow(id: string, gating: bool, entries: seq<Key>)

  datatype Row = Row(id: string, gating: bool, status: Status, holds: set<Hold>)

  datatype Report = Report(rows: seq<Row>, holds: set<Hold>)

  function RowOf(f: Findings, results: map<Key, set<Hold>>, row: PlanRow): Row
    requires forall k :: k in row.entries ==> k in results
  {
    var holds := f.common + set k, h | k in row.entries && h in results[k] :: h;
    Row(row.id, row.gating, StatusOf(holds), holds)
  }

  function ReportOf(f: Findings, results: map<Key, set<Hold>>, rows: seq<PlanRow>): (r: Report)
    requires forall i :: 0 <= i < |rows| ==> forall k :: k in rows[i].entries ==> k in results
    ensures |r.rows| == |rows|
  {
    Report(
      seq(|rows|, i requires 0 <= i < |rows| => RowOf(f, results, rows[i])),
      f.common + (set k, h | k in results && h in results[k] :: h) + (set r, h | r in f.fileErrors && h in f.fileErrors[r] :: h))
  }

  predicate AlwaysBlocks(h: Hold)
  {
    || h.code == INTEGRITY || h.code == VIOLATION || h.code == STALE
    || h.code == "acceptance_policy_invalid" || h.code == "acceptance_row_unbound" || h.mandatory
  }

  predicate InSomeRow(rows: seq<Row>, h: Hold, gatingOnly: bool)
  {
    exists i :: 0 <= i < |rows| && (rows[i].gating || !gatingOnly) && h in rows[i].holds
  }

  function BlockingHolds(report: Report): set<Hold>
  {
    set h | h in report.holds && (AlwaysBlocks(h) || !InSomeRow(report.rows, h, false) || InSomeRow(report.rows, h, true))
  }

  /** A row has exactly the common holds and the own holds of every entry its entries reach. */
  lemma {:induction false} RowHoldsAreExact(
    reg: Registry, f: Findings, results: map<Key, set<Hold>>, row: PlanRow, h: Hold)
    requires Covers(reg, f) && results.Keys == reg.graph.Keys
    requires forall k :: k in results ==> AreHolds(reg, f, k, results[k])
    requires forall k :: k in row.entries ==> k in results
    ensures h in RowOf(f, results, row).holds <==> h in f.common || exists k :: k in row.entries && CarriedFrom(reg, f, k, h)
    ensures RowOf(f, results, row).status == Pass <==> RowOf(f, results, row).holds == {}
  {
    if h in RowOf(f, results, row).holds && h !in f.common {
      var k :| k in row.entries && h in results[k];
      assert CarriedFrom(reg, f, k, h);
    }
  }

  lemma {:induction false} RowHoldsAreReported(f: Findings, results: map<Key, set<Hold>>, rows: seq<PlanRow>, i: nat)
    requires forall j :: 0 <= j < |rows| ==> forall k :: k in rows[j].entries ==> k in results
    requires i < |rows|
    ensures ReportOf(f, results, rows).rows[i].holds <= ReportOf(f, results, rows).holds
  {
  }

  /**
  Nothing blocks exactly when every gating row passes, and whatever else was found is a hold of a
  mere advisory row and of a kind that may be waived there.
  */
  lemma {:induction false} NothingBlocksExactly(f: Findings, results: map<Key, set<Hold>>, rows: seq<PlanRow>)
    requires forall j :: 0 <= j < |rows| ==> forall k :: k in rows[j].entries ==> k in results
    ensures var report := ReportOf(f, results, rows);
      BlockingHolds(report) == {} <==>
        && (forall i :: 0 <= i < |rows| && rows[i].gating ==> report.rows[i].status == Pass)
        && (forall h :: h in report.holds ==> !AlwaysBlocks(h) && InSomeRow(report.rows, h, false))
  {
    var report := ReportOf(f, results, rows);
    if BlockingHolds(report) == {} {
      forall h | h in report.holds ensures !AlwaysBlocks(h) && InSomeRow(report.rows, h, false) {
        assert h !in BlockingHolds(report);
      }
      forall i | 0 <= i < |rows| && rows[i].gating ensures report.rows[i].status == Pass {
        RowHoldsAreReported(f, results, rows, i);
        forall h | h in report.rows[i].holds ensures h in BlockingHolds(report) {
          assert InSomeRow(report.rows, h, true);
        }
      }
    }
  }

  lemma {:induction false} OwnHoldsReachRow(
    reg: Registry, f: Findings, results: map<Key, set<Hold>>, row: PlanRow, k: Key, e: Key)
    requires Covers(reg, f) && results.Keys == reg.graph.Keys
    requires forall l :: l in results ==> AreHolds(reg, f, l, results[l])
    requires forall l :: l in row.entries ==> l in results
    requires k in row.entries && Reaches(reg.graph, k, e) && e in reg.graph
    ensures OwnHolds(f, e) <= RowOf(f, results, row).holds
  {
    forall h | h in OwnHolds(f, e) ensures h in RowOf(f, results, row).holds {
      RowHoldsAreExact(reg, f, results, row, h);
      assert CarriedFrom(reg, f, k, h);
    }
  }

  /** So no entry that a gating row reaches has a hold, and no pin it needs failed to read. */
  lemma {:induction false} NothingBlocksMeansClean(
    reg: Registry, f: Findings, results: map<Key, set<Hold>>, rows: seq<PlanRow>, i: nat, k: Key, e: Key)
    requires Covers(reg, f) && results.Keys == reg.graph.Keys
    requires forall l :: l in results ==> AreHolds(reg, f, l, results[l])
    requires forall j :: 0 <= j < |rows| ==> forall l :: l in rows[j].entries ==> l in results
    requires BlockingHolds(ReportOf(f, results, rows)) == {}
    requires i < |rows| && rows[i].gating && k in rows[i].entries && Reaches(reg.graph, k, e) && e in reg.graph
    ensures f.common == {} && f.observed[e] == {}
    ensures forall r :: IsRequired(reg, e, r) ==> r in f.fileErrors && f.fileErrors[r] == {}
  {
    NothingBlocksExactly(f, results, rows);
    assert ReportOf(f, results, rows).rows[i] == RowOf(f, results, rows[i]);
    OwnHoldsReachRow(reg, f, results, rows[i], k, e);
    assert OwnHolds(f, e) == {};
    forall r | IsRequired(reg, e, r) ensures r in f.fileErrors && f.fileErrors[r] == {} {
      assert r in f.required[e];
      assert f.fileErrors[r] <= OwnHolds(f, e);
    }
  }
}
