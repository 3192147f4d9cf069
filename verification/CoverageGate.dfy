/**
The coverage gate of one root and one profile, as the scans, finalizers and operators
that share it see it (src/agenttalk/assurance.py).

Every config transaction is one atomic step. Everything else a scan does (taking or
giving back a lock, looking at the report paths, running the command, asking Git) is
a step of its own, so any other process may move in between.
*/
module CoverageGate {
  import opened Wrappers

  type Pid = nat

  // ------------------------------------------------------------ the gate record

  datatype Status = Green | Red | Waived

  datatype Source = AutomationCi | LocalCommand | OperatorWaiver | OtherSource

  datatype Actor = AssuranceCi | AssuranceLocal | AssuranceFinalizer | Person(name: nat)

  /** `complete`: the operator, date, reason and scope fields all carry text. */
  datatype Waiver = Waiver(expires: int, complete: bool)

  datatype Cause =
    | InProgress(transaction: Pid)
    | Failed(detail: nat)
    | CommandUnsuccessful
    | PercentMissing
    | AwaitingRelease
    | Unattested
    | Attested
    | NoFreshMeasurement
    | Remark(text: nat)

  /** `pathNote`: the path diagnostic was appended to the text. */
  datatype Reason = Reason(cause: Cause, pathNote: bool)

  datatype Evidence = Evidence(source: Source, at: int, actor: Actor, percent: Option<nat>)

  datatype Gate = Gate(
    status: Status, scope: nat, updatedBy: Actor, updatedAt: int, source: Source, waiver: Option<Waiver>,
    blocker: bool, reason: Option<Reason>, revision: Option<nat>, evidence: seq<Evidence>)

  predicate WaiverActive(gate: Option<Gate>, now: int)
  {
    && gate.Some? && gate.value.status == Waived
    && gate.value.waiver.Some? && gate.value.waiver.value.complete
    && gate.value.waiver.value.expires >= now
  }

  /** What is left of a record when the six fields a waiver may touch are dropped. */
  function Retained(gate: Gate): (bool, Option<Reason>, Option<nat>, seq<Evidence>)
  {
    (gate.blocker, gate.reason, gate.revision, gate.evidence)
  }

  predicate WaiverOverlays(gate: Option<Gate>, expected: Option<Gate>)
  {
    && gate.Some? && gate.value.status == Waived && expected.Some?
    && Retained(gate.value) == Retained(expected.value)
  }

  const PROFILE: nat := 0

  const BLANK := Gate(Red, PROFILE, AssuranceLocal, 0, LocalCommand, None, true, None, None, [])

  /** The first moment at or after t that is later than every piece of evidence. */
  function PastEvidence(evidence: seq<Evidence>, t: int): (r: int)
    ensures r >= t && forall i :: 0 <= i < |evidence| ==> evidence[i].at < r
  {
    if evidence == [] then t
    else
      var rest := PastEvidence(evidence[..|evidence| - 1], t);
      var last := evidence[|evidence| - 1].at;
      if last >= rest then last + 1 else rest
  }

  /** Every write is stamped later than the record it replaces and its evidence, whatever the clock says. */
  function NextTime(existing: Option<Gate>, now: int): (t: int)
    ensures t >= now && (existing.Some? ==> t > existing.value.updatedAt)
    ensures existing.Some? ==> forall i :: 0 <= i < |existing.value.evidence| ==> t > existing.value.evidence[i].at
  {
    if existing.None? then now
    else
      var updatedAt := existing.value.updatedAt;
      PastEvidence(existing.value.evidence, if updatedAt >= now then updatedAt + 1 else now)
  }

  function SetGate(existing: Option<Gate>, status: Status, blocker: bool, actor: Actor, source: Source,
                   record: Option<Evidence>, reason: Option<Reason>, revision: Option<nat>, now: int): Gate
  {
    var base := if existing.Some? then existing.value else BLANK;
    base.(status := status, scope := PROFILE, updatedBy := actor, updatedAt := NextTime(existing, now),
    source := source, blocker := blocker,
    reason := if reason.Some? then reason else base.reason,
    revision := if revision.Some? then revision else base.revision,
    evidence := if record.Some? then base.evidence + [record.value] else base.evidence)
  }

  function WaiveGate(existing: Option<Gate>, actor: Actor, scope: nat, waiver: Waiver, now: int): Gate
  {
    var base := if existing.Some? then existing.value else BLANK;
    base.(status := Waived, scope := scope, updatedBy := actor, updatedAt := NextTime(existing, now),
    source := OperatorWaiver, waiver := Some(waiver))
  }

  /**
  A record overlays an older one exactly when it is that record with the six waiver fields changed; waiving
  it again, by anybody, keeps it so.
  */
  lemma {:induction false} OverlayIsOnlyAWaiver(gate: Gate, older: Gate, actor: Actor, scope: nat, waiver: Waiver, now: int)
    ensures WaiverOverlays(Some(gate), Some(older)) <==>
      gate.status == Waived && gate == older.(status := gate.status, scope := gate.scope, updatedBy := gate.updatedBy,
                                              updatedAt := gate.updatedAt, source := gate.source, waiver := gate.waiver)
    ensures Retained(gate) == Retained(older) ==>
      WaiverOverlays(Some(WaiveGate(Some(gate), actor, scope, waiver, now)), Some(older))
  {
  }

  // ------------------------------------------------------------ one emission

  /** `complete`: the transaction has released its lock. `failure`: the reason text handed in. */
  datatype Measurement = Measurement(
    complete: bool, pathClear: bool, passed: bool, percent: Option<nat>, failure: Option<Cause>, revision: Option<nat>)

  datatype Cas = Unconditional | Expect(gate: Option<Gate>)

  predicate IsGreen(m: Measurement, attested: bool)
  {
    m.complete && m.pathClear && m.passed && m.percent.Some? && attested
  }

  function ReasonFor(m: Measurement, attested: bool): Reason
  {
    var cause :=
      if m.failure.Some? then m.failure.value
      else if !m.passed then CommandUnsuccessful
      else if m.percent.None? then PercentMissing
      else if !m.complete then AwaitingRelease
      else if !attested then Unattested
      else Attested;
    Reason(cause, !m.pathClear)
  }

  /** The record written under the config lock; None when the existing record is left alone. */
  function CommitGate(existing: Option<Gate>, cas: Cas, m: Measurement, attested: bool, now: int): Option<Gate>
  {
    if cas.Expect? && existing != cas.gate
       && (WaiverActive(existing, now) || !WaiverOverlays(existing, cas.gate)) then None
    else if WaiverActive(existing, now) then None
    else
      var actor := if attested then AssuranceCi else AssuranceLocal;
      var source := if attested then AutomationCi else LocalCommand;
      var record := if m.complete then Some(Evidence(source, NextTime(existing, now), actor, m.percent)) else None;
      Some(SetGate(existing, if IsGreen(m, attested) then Green else Red, true, actor, source, record,
                   Some(ReasonFor(m, attested)), m.revision, now))
  }

  /** A finalizer's red; None when it must not write. */
  function Invalidation(existing: Option<Gate>, expected: Option<Gate>, revision: Option<nat>, now: int): Option<Gate>
  {
    var reason := Some(Reason(NoFreshMeasurement, false));
    if existing != expected || existing.None? || WaiverActive(existing, now) then None
    else if existing.value.status == Red && existing.value.reason == reason && existing.value.revision == revision then None
    else Some(SetGate(existing, Red, true, AssuranceFinalizer, LocalCommand,
                      Some(Evidence(LocalCommand, NextTime(existing, now), AssuranceFinalizer, None)),
                      reason, revision, now))
  }

  // ------------------------------------------------------------ processes

  /** Where a scan stands. `left` counts the re-probes a final emission may still make. */
  datatype Stage =
    | Ready
    | AwaitFirstHandoff | Provisioning | LeavingHandoff
    | Preflight | Running | Postflight | Fencing | Probing
    | AwaitSecondHandoff | Releasing
    | Committing(left: nat) | Reprobing(left: nat)
    | Closing
    | FallingBack | Finalizing | Done

  predicate HoldsCoverage(stage: Stage)
  {
    || stage.AwaitFirstHandoff? || stage.Provisioning? || stage.LeavingHandoff? || stage.Preflight? || stage.Running?
    || stage.Postflight? || stage.Fencing? || stage.Probing? || stage.AwaitSecondHandoff? || stage.Releasing?
  }

  predicate HoldsHandoff(stage: Stage)
  {
    || stage.Provisioning? || stage.LeavingHandoff? || stage.Releasing? || stage.Closing?
    || stage.Committing? || stage.Reprobing?
  }

  /** Between a transaction's provisional write and its final one. */
  predicate IsOpen(stage: Stage)
  {
    || (HoldsCoverage(stage) && !stage.AwaitFirstHandoff? && !stage.Provisioning?)
    || stage.Committing? || stage.Reprobing?
  }

  /** Trace positions of what a transaction has seen so far; only the proofs read them. */
  datatype Marks = Marks(start: nat, provisional: nat, before: nat, command: nat, after: nat, fence: nat, probe: nat)

  datatype Process = Process(
    stage: Stage, snapshot: Option<Gate>, expected: Option<Gate>, m: Measurement,
    token: Option<nat>, attested: bool, marks: Marks)

  datatype Writer = Provisional | Final | Fallback | Finalizer | Operator

  datatype Deed =
    | Snapshot(found: Option<Gate>)
    | Fence
    | Miss
    | Unrelated
    | Write(writer: Writer, before: Option<Gate>, after: Option<Gate>, wrote: bool, now: int)

  datatype Event =
    | Config(pid: Pid, token: nat, deed: Deed)
    | PathsSeen(pid: Pid, early: bool, clear: bool)
    | CommandRan(pid: Pid, passed: bool, percent: Option<nat>)
    | Probed(pid: Pid, clean: bool)

  /** `generation` is the token of the latest config transaction, 0 before the first one. */
  datatype State = State(
    gate: Option<Gate>, clock: int, generation: nat, coverage: Option<Pid>, handoff: Option<Pid>,
    procs: map<Pid, Process>, trace: seq<Event>)

  datatype Action =
    | Tick(now: int)
    | OtherConfig(pid: Pid)
    | OperatorSet(pid: Pid, status: Status, blocker: bool, source: Source, record: Option<Evidence>,
                  reason: Option<Reason>, revision: Option<nat>)
    | OperatorWaive(pid: Pid, scope: nat, waiver: Waiver)
    | Reclaim
    | Begin(pid: Pid, revision: Option<nat>)
    | SkipCoverage(pid: Pid)
    | TakeCoverage(pid: Pid)
    | CoverageUnavailable(pid: Pid)
    | EmitFallback(pid: Pid)
    | TakeHandoff(pid: Pid)
    | EmitProvisional(pid: Pid)
    | LeaveHandoff(pid: Pid)
    | LookBefore(pid: Pid, clear: bool)
    | RunCommand(pid: Pid, passed: bool, percent: Option<nat>, raised: bool)
    | LookAfter(pid: Pid, clear: bool)
    | TakeFence(pid: Pid)
    | FenceFails(pid: Pid)
    | AskGit(pid: Pid, clean: bool)
    | ReleaseCoverage(pid: Pid)
    | ReleaseFails(pid: Pid, stillHeld: bool)
    | TryCommit(pid: Pid)
    | AskGitAgain(pid: Pid, clean: bool)
    | CloseHandoff(pid: Pid)
    | Abort(pid: Pid)
    | Invalidate(pid: Pid)
    | Crash(pid: Pid)

  // ------------------------------------------------------------ steps

  predicate At(s: State, p: Pid, stage: Stage)
  {
    p in s.procs && s.procs[p].stage == stage
  }

  /** Process p moves on without touching anything shared. */
  function Move(s: State, p: Pid, q: Process): State
  {
    s.(procs := s.procs[p := q])
  }

  /** Process p moves on and an observation joins the trace. */
  function Observe(s: State, p: Pid, q: Process, e: Event): State
  {
    Move(s, p, q).(trace := s.trace + [e])
  }

  /** A config transaction: the token advances, and the gate may be replaced. */
  function Transact(s: State, p: Pid, deed: Deed): State
  {
    s.(generation := s.generation + 1, trace := s.trace + [Config(p, s.generation + 1, deed)],
    gate := if deed.Write? then deed.after else s.gate)
  }

  function WriteDeed(s: State, writer: Writer, written: Option<Gate>): Deed
  {
    Write(writer, s.gate, if written.Some? then written else s.gate, written.Some?, s.clock)
  }

  function Unheld(owner: Option<Pid>, p: Pid): Option<Pid>
  {
    if owner == Some(p) then None else owner
  }

  const FAILING := Measurement(true, true, false, None, Some(Failed(0)), None)

  function FreshProcess(s: State, revision: Option<nat>): Process
  {
    Process(Ready, s.gate, s.gate, FAILING.(revision := revision), None, false, Marks(|s.trace|, 0, 0, 0, 0, 0, 0))
  }

  function ProvisionalMeasurement(p: Pid, q: Process): Measurement
  {
    Measurement(false, true, false, None, Some(InProgress(p)), q.m.revision)
  }

  /** The lock could not be taken: one red, compared against the record seen when the scan began. */
  function FallbackStep(s: State, p: Pid): State
    requires p in s.procs
  {
    var q := s.procs[p];
    var written := CommitGate(s.gate, Expect(q.snapshot), q.m.(pathClear := false, passed := false, failure := Some(Failed(1))), false, s.clock);
    Transact(Move(s, p, q.(stage := Done)), p, WriteDeed(s, Fallback, written))
  }

  /** The provisional red, or the active waiver it must leave alone, becomes the expected record. */
  function ProvisionalStep(s: State, p: Pid): State
    requires p in s.procs
  {
    var q := s.procs[p];
    var written := CommitGate(s.gate, Unconditional, ProvisionalMeasurement(p, q), false, s.clock);
    var deed := WriteDeed(s, Provisional, written);
    Transact(Move(s, p, q.(stage := LeavingHandoff, expected := deed.after, marks := q.marks.(provisional := |s.trace|))), p, deed)
  }

  function LookBeforeStep(s: State, p: Pid, clear: bool): State
    requires p in s.procs
  {
    var q := s.procs[p];
    var next :=
      if clear then q.(stage := Running, marks := q.marks.(before := |s.trace|))
      else q.(stage := AwaitSecondHandoff, m := q.m.(pathClear := false, passed := false, failure := Some(Failed(2))));
    Observe(s, p, next, PathsSeen(p, true, clear))
  }

  /** A command that raises counts as failed whatever it printed. */
  function RunCommandStep(s: State, p: Pid, passed: bool, percent: Option<nat>, raised: bool): State
    requires p in s.procs
  {
    var q := s.procs[p];
    var m :=
      if raised then q.m.(passed := false, percent := None, failure := Some(Failed(3)))
      else q.m.(passed := passed, percent := percent, failure := None);
    Observe(s, p, q.(stage := Postflight, m := m, marks := q.marks.(command := |s.trace|)), CommandRan(p, m.passed, m.percent))
  }

  function LookAfterStep(s: State, p: Pid, clear: bool): State
    requires p in s.procs
  {
    var q := s.procs[p];
    var failure := if q.m.failure.Some? || clear then q.m.failure else Some(Failed(4));
    var m := q.m.(pathClear := clear, failure := failure);
    var next := if clear && m.passed && m.failure.None? then Fencing else AwaitSecondHandoff;
    Observe(s, p, q.(stage := next, m := m, marks := q.marks.(after := |s.trace|)), PathsSeen(p, false, clear))
  }

  function FenceStep(s: State, p: Pid): State
    requires p in s.procs
  {
    var q := s.procs[p].(stage := Probing, token := Some(s.generation + 1), marks := s.procs[p].marks.(fence := |s.trace|));
    Transact(Move(s, p, q), p, Fence)
  }

  function AskGitStep(s: State, p: Pid, clean: bool): State
    requires p in s.procs
  {
    var q := s.procs[p].(stage := AwaitSecondHandoff, attested := clean, marks := s.procs[p].marks.(probe := |s.trace|));
    Observe(s, p, q, Probed(p, clean))
  }

  /** Only an unfailed, complete measurement brings its Git evidence into the final emission. */
  function ReleaseStep(s: State, p: Pid): State
    requires p in s.procs
  {
    var q := s.procs[p];
    var attested := q.m.pathClear && q.m.passed && q.m.failure.None? && q.attested;
    Move(s, p, q.(stage := Committing(2), attested := attested)).(coverage := Unheld(s.coverage, p))
  }

  function ReleaseFailsStep(s: State, p: Pid, stillHeld: bool): State
    requires p in s.procs
  {
    var q := s.procs[p];
    var m := q.m.(pathClear := false, passed := false, percent := None, failure := Some(Failed(5)));
    Move(s, p, q.(stage := Committing(2), m := m, token := None, attested := false))
    .(coverage := if stillHeld then s.coverage else Unheld(s.coverage, p))
  }

  /** No token to honour, or the token is still the latest one. */
  predicate FenceHolds(s: State, q: Process)
  {
    q.token.None? || s.generation == q.token.value
  }

  /** Evidence whose fence has moved is dropped once no re-probe is left. */
  function FinalStep(s: State, p: Pid): State
    requires p in s.procs
  {
    var q := s.procs[p];
    var written := CommitGate(s.gate, Expect(q.expected), q.m, q.attested && FenceHolds(s, q), s.clock);
    Transact(Move(s, p, q.(stage := Closing)), p, WriteDeed(s, Final, written))
  }

  function MissStep(s: State, p: Pid): State
    requires p in s.procs && s.procs[p].stage.Committing?
  {
    var q := s.procs[p];
    var next := q.(stage := Reprobing(q.stage.left), token := Some(s.generation + 1), marks := q.marks.(fence := |s.trace|));
    Transact(Move(s, p, next), p, Miss)
  }

  /** One config-lock acquisition of the final emission. */
  function TryCommitStep(s: State, p: Pid): State
    requires p in s.procs && s.procs[p].stage.Committing?
  {
    if FenceHolds(s, s.procs[p]) || s.procs[p].stage.left == 0 then FinalStep(s, p) else MissStep(s, p)
  }

  /** The re-probe ignores the failure reason; dirty report paths alone silence it. */
  function AskGitAgainStep(s: State, p: Pid, clean: bool): State
    requires p in s.procs && s.procs[p].stage.Reprobing? && s.procs[p].stage.left > 0
  {
    var q := s.procs[p];
    var seen := clean && q.m.pathClear;
    Observe(s, p, q.(stage := Committing(q.stage.left - 1), attested := seen, marks := q.marks.(probe := |s.trace|)), Probed(p, seen))
  }

  /** The process leaves, and every lock it holds is given back. */
  function LeaveStep(s: State, p: Pid, stage: Stage): State
    requires p in s.procs
  {
    Move(s, p, s.procs[p].(stage := stage)).(coverage := Unheld(s.coverage, p), handoff := Unheld(s.handoff, p))
  }

  function InvalidateStep(s: State, p: Pid): State
    requires p in s.procs
  {
    var q := s.procs[p];
    var written := Invalidation(s.gate, q.snapshot, q.m.revision, s.clock);
    Transact(Move(s, p, q.(stage := Done)), p, WriteDeed(s, Finalizer, written))
  }

  predicate CoverageStranded(s: State)
  {
    s.coverage.Some? && s.coverage.value in s.procs && !HoldsCoverage(s.procs[s.coverage.value].stage)
  }

  predicate CanAbort(stage: Stage)
  {
    !stage.Releasing? && !stage.Finalizing? && !stage.Done?
  }

  predicate Enabled(s: State, a: Action)
  {
    match a
    case Tick(now) => s.clock <= now
    case OtherConfig(_) => true
    case OperatorSet(_, status, blocker, source, record, _, _) =>
      && status != Waived && source != OperatorWaiver
      && (status == Green && blocker ==> source == AutomationCi && record.Some?)
    case OperatorWaive(_, _, _) => true
    case Reclaim => CoverageStranded(s)
    case Begin(p, _) => p !in s.procs
    case SkipCoverage(p) => At(s, p, Ready)
    case TakeCoverage(p) => At(s, p, Ready) && s.coverage.None?
    case CoverageUnavailable(p) => At(s, p, Ready)
    case EmitFallback(p) => At(s, p, FallingBack)
    case TakeHandoff(p) => (At(s, p, AwaitFirstHandoff) || At(s, p, AwaitSecondHandoff)) && s.handoff.None?
    case EmitProvisional(p) => At(s, p, Provisioning)
    case LeaveHandoff(p) => At(s, p, LeavingHandoff)
    case LookBefore(p, _) => At(s, p, Preflight)
    case RunCommand(p, _, _, _) => At(s, p, Running)
    case LookAfter(p, _) => At(s, p, Postflight)
    case TakeFence(p) => At(s, p, Fencing)
    case FenceFails(p) => At(s, p, Fencing)
    case AskGit(p, _) => At(s, p, Probing)
    case ReleaseCoverage(p) => At(s, p, Releasing)
    case ReleaseFails(p, _) => At(s, p, Releasing)
    case TryCommit(p) => p in s.procs && s.procs[p].stage.Committing?
    case AskGitAgain(p, _) => p in s.procs && s.procs[p].stage.Reprobing? && s.procs[p].stage.left > 0
    case CloseHandoff(p) => At(s, p, Closing)
    case Abort(p) => p in s.procs && CanAbort(s.procs[p].stage)
    case Invalidate(p) => At(s, p, Finalizing)
    case Crash(p) => p in s.procs
  }

  function Apply(s: State, a: Action): State
    requires Enabled(s, a)
  {
    match a
    case Tick(now) => s.(clock := now)
    case OtherConfig(p) => Transact(s, p, Unrelated)
    case OperatorSet(p, status, blocker, source, record, reason, revision) =>
      Transact(s, p, WriteDeed(s, Operator, Some(SetGate(s.gate, status, blocker, Person(p), source, record, reason, revision, s.clock))))
    case OperatorWaive(p, scope, waiver) =>
      Transact(s, p, WriteDeed(s, Operator, Some(WaiveGate(s.gate, Person(p), scope, waiver, s.clock))))
    case Reclaim => s.(coverage := None)
    case Begin(p, revision) => Transact(Move(s, p, FreshProcess(s, revision)), p, Snapshot(s.gate))
    case SkipCoverage(p) => Move(s, p, s.procs[p].(stage := Finalizing))
    case TakeCoverage(p) => Move(s, p, s.procs[p].(stage := AwaitFirstHandoff)).(coverage := Some(p))
    case CoverageUnavailable(p) => Move(s, p, s.procs[p].(stage := FallingBack))
    case EmitFallback(p) => FallbackStep(s, p)
    case TakeHandoff(p) =>
      var next := if s.procs[p].stage == AwaitFirstHandoff then Provisioning else Releasing;
      Move(s, p, s.procs[p].(stage := next)).(handoff := Some(p))
    case EmitProvisional(p) => ProvisionalStep(s, p)
    case LeaveHandoff(p) => Move(s, p, s.procs[p].(stage := Preflight)).(handoff := Unheld(s.handoff, p))
    case LookBefore(p, clear) => LookBeforeStep(s, p, clear)
    case RunCommand(p, passed, percent, raised) => RunCommandStep(s, p, passed, percent, raised)
    case LookAfter(p, clear) => LookAfterStep(s, p, clear)
    case TakeFence(p) => FenceStep(s, p)
    case FenceFails(p) =>
      Move(s, p, s.procs[p].(stage := AwaitSecondHandoff, m := s.procs[p].m.(failure := Some(Failed(6)))))
    case AskGit(p, clean) => AskGitStep(s, p, clean)
    case ReleaseCoverage(p) => ReleaseStep(s, p)
    case ReleaseFails(p, stillHeld) => ReleaseFailsStep(s, p, stillHeld)
    case TryCommit(p) => TryCommitStep(s, p)
    case AskGitAgain(p, clean) => AskGitAgainStep(s, p, clean)
    case CloseHandoff(p) => LeaveStep(s, p, Done)
    case Abort(p) => LeaveStep(s, p, Finalizing)
    case Invalidate(p) => InvalidateStep(s, p)
    case Crash(p) => LeaveStep(s, p, Done)
  }

  // ------------------------------------------------------------ runs

  ghost predicate Initial(s: State)
  {
    s.generation == 0 && s.coverage.None? && s.handoff.None? && s.procs == map[] && s.trace == []
  }

  /** Every state a sequence of enabled actions passes through, the first one included. */
  ghost predicate IsRun(states: seq<State>, actions: seq<Action>)
  {
    && |states| == |actions| + 1
    && Initial(states[0])
    && (forall i :: 0 <= i < |actions| ==> Enabled(states[i], actions[i]) && states[i + 1] == Apply(states[i], actions[i]))
  }
}
