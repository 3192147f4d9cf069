/**
The preflight from the staged bytes to its blocking holds (`evaluate` in src/agenttalk/acceptance_preflight.py): every
pinned file is read on the budget of its kind, and what that finds is what the report is made of.
*/
module PreflightStaged {
  import opened Wrappers
  import opened RegistryGraph
  import opened RegistrySearch
  import opened Preflight
  import opened PreflightReport
  import P = PinLimits
  import R = PinReader

  const MAX_SCAN_BYTES: nat := 8 * 1024 * 1024 * 1024
  const MAX_TOTAL_BYTES: nat := 16 * P.MAX_INPUT_BYTES
  const UNAVAILABLE := "acceptance_preflight_unavailable"
  const EXPIRED := "acceptance_snapshot_expired"

  /** A pinned file of the registry; snapshots expire, files with a provenance were retrieved at some time. */
  datatype File = File(id: Ref, pin: P.Pin, retrievedAt: Option<int>, expiresAt: Option<int>)

  /** The decision time, and the time of the observation, or again of the decision. */
  datatype Times = Times(now: int, observed: int)

  predicate Timely(f: File, t: Times)
  {
    (f.retrievedAt.Some? ==> f.retrievedAt.value <= t.observed) && (f.expiresAt.Some? ==> t.now < f.expiresAt.value)
  }

  function ReadHolds(f: File, outcome: P.Outcome): set<Hold>
  {
    match outcome
    case Accepted => {}
    case TooBig => {Hold(if f.pin.distribution then UNAVAILABLE else INTEGRITY, "staged input exceeds read budget", f.id, false)}
    case Differs => {Hold(MISMATCH, "staged size or digest differs from pin", f.id, false)}
    case Broken(linked, unsafe) =>
      {Hold(UNAVAILABLE,
            if linked then "staged input unavailable; pass a fully resolved root without links or reparse ancestors"
            else "staged input is missing, unreadable or changed while opening", f.id, unsafe)}
  }

  function TimeHolds(f: File, t: Times): set<Hold>
  {
    (if f.retrievedAt.Some? && f.retrievedAt.value > t.observed
     then {Hold(MISMATCH, "provenance retrieval is after observation time", f.id, false)} else {})
    + if f.expiresAt.Some? && t.now >= f.expiresAt.value
      then {Hold(EXPIRED, "snapshot is expired at decision time", f.id, false)} else {}
  }

  lemma {:induction false} NoHoldsExactly(f: File, outcome: P.Outcome, t: Times)
    ensures ReadHolds(f, outcome) + TimeHolds(f, t) == {} <==> outcome == P.Accepted && Timely(f, t)
  {
    var holds := ReadHolds(f, outcome) + TimeHolds(f, t);
    if outcome != P.Accepted {
      assert exists h :: h in ReadHolds(f, outcome);
      var h :| h in ReadHolds(f, outcome);
      assert h in holds;
    } else if !Timely(f, t) {
      assert exists h :: h in TimeHolds(f, t);
      var h :| h in TimeHolds(f, t);
      assert h in holds;
    }
  }

  ghost predicate HasCode(holds: set<Hold>, code: string, mandatory: bool)
  {
    exists h :: h in holds && h.code == code && h.mandatory == mandatory
  }

  lemma {:induction false} ReadCodesExactly(f: File, outcome: P.Outcome, code: string, mandatory: bool)
    ensures HasCode(ReadHolds(f, outcome), code, mandatory) <==>
      || (code == "acceptance_preflight_unavailable" && !mandatory && outcome == P.TooBig && f.pin.distribution)
      || (code == "acceptance_record_missing" && !mandatory && outcome == P.TooBig && !f.pin.distribution)
      || (code == "acceptance_preflight_mismatch" && !mandatory && outcome == P.Differs)
      || (code == "acceptance_preflight_unavailable" && outcome.Broken? && mandatory == outcome.unsafe)
  {
    var read := ReadHolds(f, outcome);
    if outcome != P.Accepted {
      assert exists h :: h in read;
      var h :| h in read;
      assert read == {h};
    }
  }

  lemma {:induction false} TimeCodesExactly(f: File, t: Times, code: string, mandatory: bool)
    ensures HasCode(TimeHolds(f, t), code, mandatory) <==>
      || (code == "acceptance_preflight_mismatch" && !mandatory
          && f.retrievedAt.Some? && f.retrievedAt.value > t.observed)
      || (code == "acceptance_snapshot_expired" && !mandatory && f.expiresAt.Some? && f.expiresAt.value <= t.now)
  {
    var time := TimeHolds(f, t);
    var late := Hold(MISMATCH, "provenance retrieval is after observation time", f.id, false);
    var expired := Hold(EXPIRED, "snapshot is expired at decision time", f.id, false);
    assert late in time <==> f.retrievedAt.Some? && f.retrievedAt.value > t.observed;
    assert expired in time <==> f.expiresAt.Some? && t.now >= f.expiresAt.value;
  }

  /** Which codes a file is held under, and which of its holds no row may waive. */
  lemma {:induction false} FileCodesExactly(f: File, outcome: P.Outcome, t: Times, code: string, mandatory: bool)
    ensures HasCode(ReadHolds(f, outcome) + TimeHolds(f, t), code, mandatory) <==>
      || (code == "acceptance_preflight_unavailable" && !mandatory && outcome == P.TooBig && f.pin.distribution)
      || (code == "acceptance_record_missing" && !mandatory && outcome == P.TooBig && !f.pin.distribution)
      || (code == "acceptance_preflight_mismatch" && !mandatory && outcome == P.Differs)
      || (code == "acceptance_preflight_unavailable" && outcome.Broken? && mandatory == outcome.unsafe)
      || (code == "acceptance_preflight_mismatch" && !mandatory
          && f.retrievedAt.Some? && f.retrievedAt.value > t.observed)
      || (code == "acceptance_snapshot_expired" && !mandatory && f.expiresAt.Some? && f.expiresAt.value <= t.now)
  {
    ReadCodesExactly(f, outcome, code, mandatory);
    TimeCodesExactly(f, t, code, mandatory);
    CodesOfBoth(ReadHolds(f, outcome), TimeHolds(f, t), code, mandatory);
  }

  lemma {:induction false} CodesOfBoth(a: set<Hold>, b: set<Hold>, code: string, mandatory: bool)
    ensures HasCode(a + b, code, mandatory) <==> HasCode(a, code, mandatory) || HasCode(b, code, mandatory)
  {
    if h :| h in a && h.code == code && h.mandatory == mandatory {
      assert h in a + b;
    }
    if h :| h in b && h.code == code && h.mandatory == mandatory {
      assert h in a + b;
    }
  }

  /** The whole file can be read, has the pinned size and digest, is within the limit of its kind, and is in time. */
  predicate IsClean(f: File, content: P.Content, hash: seq<P.Byte> -> P.Digest, t: Times)
  {
    && P.IsWhole(content) && |content.bytes| == f.pin.size && hash(content.bytes) == f.pin.sha256
    && |content.bytes| <= (if f.pin.distribution then 2147483648 else 1048576) && Timely(f, t)
  }

  predicate DistinctIds(files: seq<File>)
  {
    forall i, j :: 0 <= i < j < |files| ==> files[i].id != files[j].id
  }

  ghost predicate ErrorsAt(files: seq<File>, outcomes: seq<P.Outcome>, t: Times, errors: map<Ref, set<Hold>>, i: nat)
    requires i < |files| && i < |outcomes|
  {
    files[i].id in errors && errors[files[i].id] == ReadHolds(files[i], outcomes[i]) + TimeHolds(files[i], t)
  }

  function PinsOf(files: seq<File>): (pins: seq<P.Pin>)
    ensures |pins| == |files| && forall i :: 0 <= i < |pins| ==> pins[i] == files[i].pin
  {
    seq(|files|, i requires 0 <= i < |files| => files[i].pin)
  }

  ghost predicate NamesFirst(files: seq<File>, n: nat, errors: map<Ref, set<Hold>>)
    requires n <= |files|
  {
    forall ref :: ref in errors <==> exists j :: 0 <= j < n && files[j].id == ref
  }

  ghost predicate ErrorsFirst(
    files: seq<File>, outcomes: seq<P.Outcome>, t: Times, n: nat, errors: map<Ref, set<Hold>>)
    requires n <= |files| == |outcomes|
  {
    NamesFirst(files, n, errors) && forall j :: 0 <= j < n ==> ErrorsAt(files, outcomes, t, errors, j)
  }

  lemma {:induction false} ErrorsOneMore(
    files: seq<File>, outcomes: seq<P.Outcome>, t: Times, n: nat, errors: map<Ref, set<Hold>>, holds: set<Hold>)
    requires n < |files| == |outcomes| && DistinctIds(files) && ErrorsFirst(files, outcomes, t, n, errors)
    requires holds == ReadHolds(files[n], outcomes[n]) + TimeHolds(files[n], t)
    ensures ErrorsFirst(files, outcomes, t, n + 1, errors[files[n].id := holds])
  {
    var m, after := n + 1, errors[files[n].id := holds];
    forall j | 0 <= j < m ensures ErrorsAt(files, outcomes, t, after, j) {
      assert j < n ==> ErrorsAt(files, outcomes, t, errors, j) && files[j].id != files[n].id;
    }
    forall ref ensures ref in after <==> exists j :: 0 <= j < m && files[j].id == ref {
      if ref in errors {
        var j :| 0 <= j < n && files[j].id == ref;
      }
    }
  }

  method HoldsOfFiles(files: seq<File>, outcomes: seq<P.Outcome>, t: Times) returns (errors: map<Ref, set<Hold>>)
    requires |outcomes| == |files| && DistinctIds(files)
    ensures ErrorsFirst(files, outcomes, t, |files|, errors)
  {
    errors := map[];
    for i := 0 to |files|
      invariant ErrorsFirst(files, outcomes, t, i, errors)
    {
      var holds := ReadHolds(files[i], outcomes[i]) + TimeHolds(files[i], t);
      ErrorsOneMore(files, outcomes, t, i, errors, holds);
      errors := errors[files[i].id := holds];
    }
  }

  /** One run over all pinned files, on one budget for distributions and one for everything else. */
  method FileErrors(files: seq<File>, contents: seq<P.Content>, hash: seq<P.Byte> -> P.Digest, t: Times)
    returns (errors: map<Ref, set<Hold>>, ghost outcomes: seq<P.Outcome>, ghost read: seq<nat>)
    requires |contents| == |files| && DistinctIds(files)
    ensures |outcomes| == |read| == |files| && NamesFirst(files, |files|, errors)
    ensures forall i :: 0 <= i < |files| ==> ErrorsAt(files, outcomes, t, errors, i)
    ensures forall i :: 0 <= i < |files| ==>
      R.JudgedAt(contents, PinsOf(files), MAX_SCAN_BYTES, MAX_TOTAL_BYTES, hash, outcomes, read, i)
    ensures R.Total(PinsOf(files), read, |files|, true) <= MAX_SCAN_BYTES + 1
    ensures R.Total(PinsOf(files), read, |files|, false) <= MAX_TOTAL_BYTES + 1
  {
    var distributions := new R.Budget(MAX_SCAN_BYTES);
    var declaratives := new R.Budget(MAX_TOTAL_BYTES);
    var results, bytes := R.ReadAll(contents, PinsOf(files), distributions, declaratives, hash);
    outcomes, read := results, bytes;
    errors := HoldsOfFiles(files, results, t);
  }

  lemma {:induction false} AcceptedIsClean(
    files: seq<File>, contents: seq<P.Content>, hash: seq<P.Byte> -> P.Digest, t: Times, errors: map<Ref, set<Hold>>,
    outcomes: seq<P.Outcome>, read: seq<nat>, i: nat)
    requires |contents| == |files| == |outcomes| == |read| && i < |files|
    requires ErrorsAt(files, outcomes, t, errors, i) && errors[files[i].id] == {}
    requires R.JudgedAt(contents, PinsOf(files), MAX_SCAN_BYTES, MAX_TOTAL_BYTES, hash, outcomes, read, i)
    ensures IsClean(files[i], contents[i], hash, t) && read[i] == |contents[i].bytes|
  {
    NoHoldsExactly(files[i], outcomes[i], t);
    P.AcceptedExactly(
      files[i].pin, R.Left(MAX_SCAN_BYTES, MAX_TOTAL_BYTES, PinsOf(files), read, i), contents[i], hash);
  }

  /** The role the registry gives the file: only distributions have the larger budget, only snapshots expire. */
  predicate HasRole(reg: Registry, f: File)
  {
    && f.id in reg.files
    && (f.pin.distribution <==> reg.files[f.id].DistributionPin?) && (f.expiresAt.Some? <==> reg.files[f.id].SnapshotPin?)
  }

  /** The staged files are the registry's. */
  ghost predicate AreFiles(reg: Registry, files: seq<File>)
  {
    && DistinctIds(files) && (forall i :: 0 <= i < |files| ==> HasRole(reg, files[i]))
    && forall ref :: ref in reg.files ==> exists i :: 0 <= i < |files| && files[i].id == ref
  }

  /** A gating row leads to the entry, and the entry requires the file. */
  ghost predicate CountsFor(reg: Registry, rows: seq<PlanRow>, ref: Ref)
  {
    exists i, k, e ::
      0 <= i < |rows| && rows[i].gating && k in rows[i].entries && Reaches(reg.graph, k, e) && e in reg.graph
      && IsRequired(reg, e, ref)
  }

  /** Every file was accepted in time, and nothing else was found. */
  predicate AllWell(files: seq<File>, outcomes: seq<P.Outcome>, t: Times, common: set<Hold>, observed: map<Key, set<Hold>>)
  {
    && common == {} && (forall k :: k in observed ==> observed[k] == {})
    && |outcomes| == |files| && forall i :: 0 <= i < |files| ==> outcomes[i] == P.Accepted && Timely(files[i], t)
  }

  lemma {:induction false} NothingIsFound(
    reg: Registry, files: seq<File>, outcomes: seq<P.Outcome>, t: Times, staged: Staged)
    requires AllWell(files, outcomes, t, staged.common, staged.observed) && AreFiles(reg, files) && ReadFor(reg, staged)
    requires forall i :: 0 <= i < |files| ==> ErrorsAt(files, outcomes, t, staged.fileErrors, i)
    ensures forall h :: !Found(reg, staged, h)
  {
    forall ref | ref in staged.fileErrors ensures staged.fileErrors[ref] == {} {
      var i :| 0 <= i < |files| && files[i].id == ref;
      assert ErrorsAt(files, outcomes, t, staged.fileErrors, i);
      NoHoldsExactly(files[i], outcomes[i], t);
    }
  }

  /**
  From the staged bytes to the blocking holds. All is well: then nothing blocks. Nothing blocks: then every file that a gating row counts on has, as a
  whole, the pinned size and digest, within its limits and in time; and no more was read than the budgets and a byte each.
  */
  method EvaluateStaged(
      reg: Registry, keys: seq<Key>, manifests: seq<Ref>, files: seq<File>, contents: seq<P.Content>,
      hash: seq<P.Byte> -> P.Digest, t: Times, common: set<Hold>, observed: map<Key, set<Hold>>, rows: seq<PlanRow>)
    returns (r: Result<set<Hold>, Error>, ghost staged: Staged, ghost outcomes: seq<P.Outcome>, ghost read: seq<nat>)
    requires WellFormed(reg, keys, manifests) && AreFiles(reg, files) && |contents| == |files|
    requires observed.Keys == reg.graph.Keys && RowsNameEntries(reg, rows)
    ensures r.Ok? <==> Shallow(reg.graph)
    ensures staged.common == common && staged.observed == observed && ReadFor(reg, staged)
    ensures r.Ok? ==> forall h :: h in r.value <==> Blocks(reg, staged, rows, h)
    ensures |outcomes| == |read| == |files| && forall i :: 0 <= i < |files| ==>
      && ErrorsAt(files, outcomes, t, staged.fileErrors, i)
      && R.JudgedAt(contents, PinsOf(files), MAX_SCAN_BYTES, MAX_TOTAL_BYTES, hash, outcomes, read, i)
    ensures r.Ok? && AllWell(files, outcomes, t, common, observed) ==> r.value == {}
    ensures r.Ok? && r.value == {} ==>
      forall f :: 0 <= f < |files| && CountsFor(reg, rows, files[f].id) ==> IsClean(files[f], contents[f], hash, t)
  {
    var errors;
    errors, outcomes, read := FileErrors(files, contents, hash, t);
    assert errors.Keys == reg.files.Keys by {
      forall ref ensures ref in errors <==> ref in reg.files {
      }
    }
    var all := Staged(common, errors, observed);
    staged := all;
    r := Evaluate(reg, keys, manifests, all, rows);
    if r.Ok? && AllWell(files, outcomes, t, common, observed) {
      NothingIsFound(reg, files, outcomes, t, all);
    }
    if r.Ok? && r.value == {} {
      forall f | 0 <= f < |files| && CountsFor(reg, rows, files[f].id) ensures IsClean(files[f], contents[f], hash, t) {
        var ref := files[f].id;
        var i, k, e :|
          0 <= i < |rows| && rows[i].gating && k in rows[i].entries && Reaches(reg.graph, k, e) && e in reg.graph
          && IsRequired(reg, e, ref);
        assert ErrorsAt(files, outcomes, t, errors, f);
        CleanWhereItCounts(reg, all, rows, i, k, e, ref);
        AcceptedIsClean(files, contents, hash, t, errors, outcomes, read, f);
      }
    }
  }
}
