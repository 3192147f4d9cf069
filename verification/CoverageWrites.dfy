/**
What the automation writes into the gate (src/agenttalk/assurance.py, src/agenttalk/gates.py), field by field, and which
earlier event of the same scan each word of it comes from.
*/
module CoverageWrites {
  import opened Wrappers
  import opened CoverageGate
  import opened CoverageSafety
  import opened CoverageProgress

  // ------------------------------------------------------------ what a scan knows is what its events show

  /** From the command on, until the final write. */
  predicate Late(stage: Stage)
  {
    || stage.Postflight? || stage.Fencing? || stage.Probing? || stage.AwaitSecondHandoff? || stage.Releasing?
    || stage.Committing? || stage.Reprobing?
  }

  /** The failure on record, if any, is one the trace shows or one that leaves no event. */
  predicate Told(t: seq<Event>, p: Pid, m: Measurement)
  {
    match m.failure
    case None => m.pathClear && CommandRan(p, m.passed, m.percent) in t
    case Some(Failed(2)) => !m.pathClear && !m.passed && m.percent.None? && PathsSeen(p, true, false) in t
    case Some(Failed(3)) =>
      !m.passed && m.percent.None? && CommandRan(p, false, None) in t && (!m.pathClear ==> PathsSeen(p, false, false) in t)
    case Some(Failed(4)) => !m.pathClear && CommandRan(p, m.passed, m.percent) in t && PathsSeen(p, false, false) in t
    case Some(Failed(5)) => !m.pathClear && !m.passed && m.percent.None?
    case Some(Failed(6)) => m.pathClear && m.passed && CommandRan(p, true, m.percent) in t
    case _ => false
  }

  ghost predicate Tale(t: seq<Event>, p: Pid, q: Process)
  {
    && q.m.complete
    && (Untried(q.stage) ==> q.m == FAILING.(revision := q.m.revision))
    && (Late(q.stage) ==> Told(t, p, q.m))
    && (q.stage.Postflight? ==> q.m.pathClear && q.m.failure in {None, Some(Failed(3))})
    && (q.stage.Fencing? || q.stage.Probing? ==> IsClean(q.m))
  }

  lemma {:induction false} TaleGrows(t: seq<Event>, longer: seq<Event>, p: Pid, q: Process)
    requires Tale(t, p, q) && |t| <= |longer| && t == longer[..|t|]
    ensures Tale(longer, p, q)
  {
    assert forall e :: e in t ==> e in longer;
  }

  lemma {:induction false} TraceGrows(s: State, a: Action)
    requires Enabled(s, a)
    ensures |s.trace| <= |Apply(s, a).trace| <= |s.trace| + 1 && s.trace == Apply(s, a).trace[..|s.trace|]
  {
  }

  lemma {:induction false} FailsTale(s: State, a: Action, p: Pid)
    requires Enabled(s, a) && p in s.procs && OwnStep(a, p) && (a.FenceFails? || a.ReleaseFails?)
    requires Tale(s.trace, p, s.procs[p])
    ensures p in Apply(s, a).procs && Tale(Apply(s, a).trace, p, Apply(s, a).procs[p])
    ensures Apply(s, a).procs[p].m.revision == s.procs[p].m.revision
  {
    var m := s.procs[p].m;
    if a.FenceFails? {
      assert CommandRan(p, m.passed, m.percent) in s.trace && m.passed;
      assert Told(s.trace, p, m.(failure := Some(Failed(6))));
    } else {
      var after := m.(pathClear := false, passed := false, percent := None, failure := Some(Failed(5)));
      assert Told(s.trace, p, after);
      assert Apply(s, a).procs[p].m == after;
    }
  }

  lemma {:induction false} SilentTale(s: State, a: Action, p: Pid)
    requires Enabled(s, a) && p in s.procs && OwnStep(a, p) && IsSilent(a) && Tale(s.trace, p, s.procs[p])
    requires !a.FenceFails? && !a.ReleaseFails?
    ensures p in Apply(s, a).procs && Tale(Apply(s, a).trace, p, Apply(s, a).procs[p])
    ensures Apply(s, a).procs[p].m.revision == s.procs[p].m.revision
  {
    var q, r := s.procs[p], Apply(s, a).procs[p];
    assert r.m == q.m && Apply(s, a).trace == s.trace;
    assert Late(r.stage) ==> Late(q.stage) && Told(s.trace, p, q.m);
  }

  lemma {:induction false} LookBeforeTale(s: State, p: Pid, clear: bool)
    requires At(s, p, Preflight) && Tale(s.trace, p, s.procs[p])
    ensures Tale(LookBeforeStep(s, p, clear).trace, p, LookBeforeStep(s, p, clear).procs[p])
  {
    var next := LookBeforeStep(s, p, clear);
    assert next.trace[|s.trace|] == PathsSeen(p, true, clear);
  }

  lemma {:induction false} RunCommandTale(s: State, p: Pid, passed: bool, percent: Option<nat>, raised: bool)
    requires At(s, p, Running) && Tale(s.trace, p, s.procs[p])
    ensures var next := RunCommandStep(s, p, passed, percent, raised); Tale(next.trace, p, next.procs[p])
  {
    var next := RunCommandStep(s, p, passed, percent, raised);
    assert next.trace[|s.trace|] == CommandRan(p, next.procs[p].m.passed, next.procs[p].m.percent);
  }

  lemma {:induction false} LookAfterTale(s: State, p: Pid, clear: bool)
    requires At(s, p, Postflight) && Tale(s.trace, p, s.procs[p])
    ensures Tale(LookAfterStep(s, p, clear).trace, p, LookAfterStep(s, p, clear).procs[p])
  {
    var t, next := s.trace, LookAfterStep(s, p, clear);
    var m := s.procs[p].m;
    assert next.trace[|t|] == PathsSeen(p, false, clear);
    assert forall e :: e in t ==> e in next.trace;
    assert Told(next.trace, p, next.procs[p].m);
  }

  lemma {:induction false} SightTale(s: State, a: Action, p: Pid)
    requires Enabled(s, a) && p in s.procs && OwnStep(a, p) && Tale(s.trace, p, s.procs[p])
    requires a.LookBefore? || a.RunCommand? || a.LookAfter?
    ensures p in Apply(s, a).procs && Tale(Apply(s, a).trace, p, Apply(s, a).procs[p])
    ensures Apply(s, a).procs[p].m.revision == s.procs[p].m.revision
  {
    match a
    case LookBefore(_, clear) => LookBeforeTale(s, p, clear);
    case RunCommand(_, passed, percent, raised) => RunCommandTale(s, p, passed, percent, raised);
    case LookAfter(_, clear) => LookAfterTale(s, p, clear);
  }

  lemma {:induction false} OtherTale(s: State, a: Action, p: Pid)
    requires Enabled(s, a) && p in s.procs && OwnStep(a, p) && Tale(s.trace, p, s.procs[p])
    requires !IsSilent(a) && !a.LookBefore? && !a.RunCommand? && !a.LookAfter?
    ensures p in Apply(s, a).procs && Tale(Apply(s, a).trace, p, Apply(s, a).procs[p])
    ensures Apply(s, a).procs[p].m.revision == s.procs[p].m.revision
  {
    TraceGrows(s, a);
    TaleGrows(s.trace, Apply(s, a).trace, p, s.procs[p]);
    assert Apply(s, a).procs[p].m == s.procs[p].m;
  }

  lemma {:induction false} TaleStays(s: State, a: Action, p: Pid)
    requires Enabled(s, a) && p in s.procs && Tale(s.trace, p, s.procs[p])
    ensures p in Apply(s, a).procs && Tale(Apply(s, a).trace, p, Apply(s, a).procs[p])
    ensures Apply(s, a).procs[p].m.revision == s.procs[p].m.revision
  {
    if !OwnStep(a, p) {
      OthersDoNotMove(s, a, p);
      TraceGrows(s, a);
      TaleGrows(s.trace, Apply(s, a).trace, p, s.procs[p]);
    } else if a.FenceFails? || a.ReleaseFails? {
      FailsTale(s, a, p);
    } else if IsSilent(a) {
      SilentTale(s, a, p);
    } else if a.LookBefore? || a.RunCommand? || a.LookAfter? {
      SightTale(s, a, p);
    } else {
      OtherTale(s, a, p);
    }
  }

  /** The revision a scan carries is the one it began with. */
  lemma {:induction false} ScanTale(states: seq<State>, actions: seq<Action>, n: nat, p: Pid) returns (j: nat)
    requires IsRun(states, actions) && n < |states| && p in states[n].procs
    ensures Tale(states[n].trace, p, states[n].procs[p])
    ensures j < n && actions[j] == Begin(p, states[n].procs[p].m.revision)
  {
    var s, a := states[n - 1], actions[n - 1];
    assert states[n - 1 + 1] == Apply(s, a) && Enabled(s, a);
    if p in s.procs {
      j := ScanTale(states, actions, n - 1, p);
      TaleStays(s, a, p);
    } else {
      j := n - 1;
    }
  }

  // ------------------------------------------------------------ the words of a write

  function Base(before: Option<Gate>): Gate
  {
    if before.Some? then before.value else Gate(Red, 0, AssuranceLocal, 0, LocalCommand, None, true, None, None, [])
  }

  /** Later than what was there, and no waiver, scope or blocking flag is touched. */
  predicate Plainly(d: Deed, rev: Option<nat>)
    requires d.Write?
  {
    && d.after.Some?
    && var b, g := Base(d.before), d.after.value;
    && g.scope == 0 && g.blocker && g.waiver == b.waiver
    && g.revision == (if rev.Some? then rev else b.revision)
    && g.updatedAt >= d.now && (d.before.Some? ==> g.updatedAt > b.updatedAt)
    && (d.before.Some? ==> forall i :: 0 <= i < |b.evidence| ==> g.updatedAt > b.evidence[i].at)
  }

  predicate Appends(d: Deed, source: Source, actor: Actor, percent: Option<nat>)
    requires d.Write? && d.after.Some?
  {
    && d.after.value.source == source && d.after.value.updatedBy == actor
    && d.after.value.evidence == Base(d.before).evidence + [Evidence(source, d.after.value.updatedAt, actor, percent)]
  }

  /** Why a final red is red. */
  predicate SaysWhy(h: seq<Event>, p: Pid, why: Reason, percent: Option<nat>)
  {
    && (why.pathNote ==> PathsSeen(p, true, false) in h || PathsSeen(p, false, false) in h || why.cause == Failed(5))
    && match why.cause
       case Failed(2) => PathsSeen(p, true, false) in h && percent.None?
       case Failed(3) => CommandRan(p, false, None) in h && percent.None?
       case Failed(4) => PathsSeen(p, false, false) in h && exists passed: bool :: CommandRan(p, passed, percent) in h
       case Failed(5) => percent.None?
       case Failed(6) => CommandRan(p, true, percent) in h
       case CommandUnsuccessful => CommandRan(p, false, percent) in h
       case PercentMissing => CommandRan(p, true, None) in h && percent.None?
       case Unattested => CommandRan(p, true, percent) in h && percent.Some?
       case _ => false
  }

  predicate Worded(h: seq<Event>, p: Pid, d: Deed, rev: Option<nat>)
    requires d.Write?
  {
    && Plainly(d, rev) && d.after.value.reason.Some?
    && var g, why := d.after.value, d.after.value.reason.value;
    match d.writer
    case Provisional =>
      && g.status == Red && g.source == LocalCommand && g.updatedBy == AssuranceLocal
      && g.evidence == Base(d.before).evidence && why == Reason(InProgress(p), false)
    case Fallback =>
      g.status == Red && Appends(d, LocalCommand, AssuranceLocal, None) && why == Reason(Failed(1), true)
    case Finalizer =>
      g.status == Red && Appends(d, LocalCommand, AssuranceFinalizer, None) && why == Reason(NoFreshMeasurement, false)
    case Final =>
      && g.evidence != []
      && var percent := g.evidence[|g.evidence| - 1].percent;
      if g.status == Green then
        && Appends(d, AutomationCi, AssuranceCi, percent) && percent.Some?
        && CommandRan(p, true, percent) in h && why == Reason(Attested, false)
      else
        && g.status == Red && SaysWhy(h, p, why, percent)
        && (Appends(d, LocalCommand, AssuranceLocal, percent)
            || (Appends(d, AutomationCi, AssuranceCi, percent) && why.cause == PercentMissing))
    case Operator => false
  }

  lemma {:induction false} WritesPlainly(
    existing: Option<Gate>, status: Status, actor: Actor, source: Source, record: Option<Evidence>, reason: Reason,
    rev: Option<nat>, writer: Writer, now: int)
    ensures var g := SetGate(existing, status, true, actor, source, record, Some(reason), rev, now);
      && Plainly(Write(writer, existing, Some(g), true, now), rev) && g.reason == Some(reason) && g.status == status
      && g.source == source && g.updatedBy == actor && g.updatedAt == NextTime(existing, now)
      && g.evidence == if record.Some? then Base(existing).evidence + [record.value] else Base(existing).evidence
  {
    var t := NextTime(existing, now);
    assert BLANK == Base(None);
  }

  lemma {:induction false} ProvisionalWorded(s: State, p: Pid)
    requires p in s.procs && Tale(s.trace, p, s.procs[p])
    requires ProvisionalStep(s, p).trace[|s.trace|].deed.wrote
    ensures Worded(s.trace, p, ProvisionalStep(s, p).trace[|s.trace|].deed, s.procs[p].m.revision)
  {
    var m := ProvisionalMeasurement(p, s.procs[p]);
    WritesPlainly(
      s.gate, Red, AssuranceLocal, LocalCommand, None, ReasonFor(m, false), m.revision, Provisional, s.clock);
  }

  lemma {:induction false} FallbackWorded(s: State, p: Pid)
    requires At(s, p, FallingBack) && Tale(s.trace, p, s.procs[p])
    requires FallbackStep(s, p).trace[|s.trace|].deed.wrote
    ensures Worded(s.trace, p, FallbackStep(s, p).trace[|s.trace|].deed, s.procs[p].m.revision)
  {
    var m := s.procs[p].m.(pathClear := false, passed := false, failure := Some(Failed(1)));
    WritesPlainly(
      s.gate, Red, AssuranceLocal, LocalCommand,
      Some(Evidence(LocalCommand, NextTime(s.gate, s.clock), AssuranceLocal, None)), ReasonFor(m, false), m.revision,
      Fallback, s.clock);
  }

  lemma {:induction false} FinalizerWorded(s: State, p: Pid)
    requires p in s.procs && InvalidateStep(s, p).trace[|s.trace|].deed.wrote
    ensures Worded(s.trace, p, InvalidateStep(s, p).trace[|s.trace|].deed, s.procs[p].m.revision)
  {
    WritesPlainly(
      s.gate, Red, AssuranceFinalizer, LocalCommand,
      Some(Evidence(LocalCommand, NextTime(s.gate, s.clock), AssuranceFinalizer, None)), Reason(NoFreshMeasurement, false),
      s.procs[p].m.revision, Finalizer, s.clock);
  }

  /** The reason written is one the scan's events show. */
  lemma {:induction false} ReasonIsTold(t: seq<Event>, p: Pid, m: Measurement, attested: bool)
    requires m.complete && Told(t, p, m) && (attested ==> IsClean(m))
    ensures IsGreen(m, attested) ==>
      ReasonFor(m, attested) == Reason(Attested, false) && attested && m.percent.Some? && CommandRan(p, true, m.percent) in t
    ensures !IsGreen(m, attested) ==>
      SaysWhy(t, p, ReasonFor(m, attested), m.percent) && (attested ==> ReasonFor(m, attested).cause == PercentMissing)
  {
  }

  lemma {:induction false} FinalWorded(s: State, p: Pid)
    requires Inv(s) && p in s.procs && s.procs[p].stage.Committing? && Tale(s.trace, p, s.procs[p])
    requires FinalStep(s, p).trace[|s.trace|].deed.wrote
    ensures Worded(s.trace, p, FinalStep(s, p).trace[|s.trace|].deed, s.procs[p].m.revision)
  {
    var q := s.procs[p];
    var attested := q.attested && FenceHolds(s, q);
    assert ProcessOk(s, p, q);
    ReasonIsTold(s.trace, p, q.m, attested);
    var actor := if attested then AssuranceCi else AssuranceLocal;
    var source := if attested then AutomationCi else LocalCommand;
    WritesPlainly(
      s.gate, if IsGreen(q.m, attested) then Green else Red, actor, source,
      Some(Evidence(source, NextTime(s.gate, s.clock), actor, q.m.percent)), ReasonFor(q.m, attested), q.m.revision,
      Final, s.clock);
  }

  /** Only four kinds of step write for the automation. */
  lemma {:induction false} WritersNamed(s: State, a: Action, e: Event)
    requires Enabled(s, a) && Apply(s, a).trace == s.trace + [e] && IsWrite(e) && e.deed.writer != Operator
    ensures a.EmitProvisional? || a.EmitFallback? || a.Invalidate? || a.TryCommit?
    ensures e.pid == a.pid && a.pid in s.procs
  {
    assert Apply(s, a).trace[|s.trace|] == e;
  }

  lemma {:induction false} CommitWorded(s: State, p: Pid, e: Event)
    requires Inv(s) && Enabled(s, TryCommit(p)) && Tale(s.trace, p, s.procs[p])
    requires TryCommitStep(s, p).trace == s.trace + [e] && Automated(e)
    ensures Worded(s.trace, p, e.deed, s.procs[p].m.revision)
  {
    assert TryCommitStep(s, p).trace[|s.trace|] == e;
    FinalWorded(s, p);
  }

  /** The event a step adds, if it is an automated write. */
  lemma {:induction false} StepWorded(s: State, a: Action, e: Event)
    requires Inv(s) && Enabled(s, a) && Apply(s, a).trace == s.trace + [e] && Automated(e)
    requires e.pid in s.procs ==> Tale(s.trace, e.pid, s.procs[e.pid])
    ensures e.pid in s.procs && Worded(s.trace, e.pid, e.deed, s.procs[e.pid].m.revision)
  {
    WritersNamed(s, a, e);
    assert Apply(s, a).trace[|s.trace|] == e;
    match a
    case EmitProvisional(p) => ProvisionalWorded(s, p);
    case EmitFallback(p) => FallbackWorded(s, p);
    case Invalidate(p) => FinalizerWorded(s, p);
    case TryCommit(p) => CommitWorded(s, p, e);
  }

  lemma {:induction false} RunStep(states: seq<State>, actions: seq<Action>, i: nat)
    requires IsRun(states, actions) && i < |actions|
    ensures Enabled(states[i], actions[i]) && states[i + 1] == Apply(states[i], actions[i])
    ensures |states[i].trace| <= |states[i + 1].trace| <= |states[i].trace| + 1
    ensures states[i].trace == states[i + 1].trace[..|states[i].trace|]
  {
    TraceGrows(states[i], actions[i]);
  }

  lemma {:induction false} PrefixOfPrefix(t: seq<Event>, longer: seq<Event>, i: nat)
    requires i < |t| <= |longer| <= |t| + 1 && t == longer[..|t|]
    ensures longer[..i] == t[..i] && longer[i] == t[i]
  {
  }

  lemma {:induction false} LastOfTrace(t: seq<Event>, longer: seq<Event>, i: nat)
    requires |t| <= i < |longer| <= |t| + 1 && t == longer[..|t|]
    ensures longer[..i] == t && longer == t + [longer[i]]
  {
  }

  /** The step that added event i. */
  lemma {:induction false} EventStep(states: seq<State>, actions: seq<Action>, n: nat, i: nat) returns (k: nat)
    requires IsRun(states, actions) && n < |states| && i < |states[n].trace|
    ensures k < n && states[n].trace[..i] == states[k].trace
    ensures states[k + 1].trace == states[k].trace + [states[n].trace[i]]
  {
    RunStep(states, actions, n - 1);
    assert states[n - 1 + 1] == states[n];
    var t := states[n - 1].trace;
    if i < |t| {
      PrefixOfPrefix(t, states[n].trace, i);
      k := EventStep(states, actions, n - 1, i);
    } else {
      LastOfTrace(t, states[n].trace, i);
      k := n - 1;
    }
  }

  // ------------------------------------------------------------ main results

  /**
  In every run, every automated write is worded by the scan it comes from: its revision is the one that scan began with
  (or the one already there), its waiver and scope are untouched, its one new piece of evidence has the percentage
  that scan's command printed, and a red says why, with the event that shows it.
  */
  lemma {:induction false} WritesAreWorded(states: seq<State>, actions: seq<Action>, n: nat, i: nat)
    returns (j: nat, rev: Option<nat>)
    requires IsRun(states, actions) && n < |states| && i < |states[n].trace| && Automated(states[n].trace[i])
    ensures j < n && actions[j] == Begin(states[n].trace[i].pid, rev)
    ensures Worded(states[n].trace[..i], states[n].trace[i].pid, states[n].trace[i].deed, rev)
  {
    var k := EventStep(states, actions, n, i);
    var s, e := states[k], states[n].trace[i];
    assert states[k + 1] == Apply(s, actions[k]) && Enabled(s, actions[k]);
    RunsAreJustified(states, actions, k);
    if e.pid in s.procs {
      j := ScanTale(states, actions, k, e.pid);
    }
    StepWorded(s, actions[k], e);
    rev := s.procs[e.pid].m.revision;
  }

  /**
  In every run, green is written only by a transaction that can show a clean measurement and a fenced probe. It names
  the commit that scan began with, and the one new piece of evidence is the percentage its own command printed.
  */
  lemma {:induction false} GreenIsEarned(states: seq<State>, actions: seq<Action>, n: nat, i: nat)
    returns (x: Marks, j: nat, rev: Option<nat>)
    requires IsRun(states, actions) && n < |states| && i < |states[n].trace| && TurnsGreen(states[n].trace[i])
    ensures GreenTrail(states[n].trace[..i], states[n].trace[i], x)
    ensures j < n && actions[j] == Begin(states[n].trace[i].pid, rev)
    ensures var h, d, g := states[n].trace[..i], states[n].trace[i].deed, states[n].trace[i].deed.after.value;
      && d.writer == Final && g.reason == Some(Reason(Attested, false))
      && g.source == AutomationCi && g.updatedBy == AssuranceCi && g.updatedAt >= d.now
      && g.revision == (if rev.Some? then rev else if d.before.Some? then d.before.value.revision else None)
      && g.evidence == (if d.before.Some? then d.before.value.evidence else [])
           + [Evidence(AutomationCi, g.updatedAt, AssuranceCi, h[x.command].percent)]
  {
    j, rev := WritesAreWorded(states, actions, n, i);
    RunsAreJustified(states, actions, n);
    var h, e := states[n].trace[..i], states[n].trace[i];
    assert Justified(h, e);
    x :| GreenTrail(h, e, x);
  }

  lemma {:induction false} OperatorGreen(s: State, a: Action, e: Event)
    requires Enabled(s, a) && Apply(s, a).trace == s.trace + [e] && Wrote(e) && e.deed.writer == Operator
    requires e.deed.after.Some? && e.deed.after.value.status == Green && e.deed.after.value.blocker
    ensures e.deed.after.value.source == AutomationCi
    ensures exists added :: e.deed.after.value.evidence == Base(e.deed.before).evidence + [added]
  {
    assert Apply(s, a).trace[|s.trace|] == e;
    assert BLANK == Base(None);
    if a.OperatorSet? {
      assert e.deed.after.value.evidence == Base(e.deed.before).evidence + [a.record.value];
    }
  }

  /** Nobody, an operator included, turns a blocking gate green but as automation and with a new piece of evidence. */
  lemma {:induction false} GreenNeedsAutomation(states: seq<State>, actions: seq<Action>, n: nat, i: nat)
    requires IsRun(states, actions) && n < |states| && i < |states[n].trace| && Wrote(states[n].trace[i])
    requires var after := states[n].trace[i].deed.after; after.Some? && after.value.status == Green && after.value.blocker
    ensures var d := states[n].trace[i].deed;
      && d.after.value.source == AutomationCi
      && exists added :: d.after.value.evidence == (if d.before.Some? then d.before.value.evidence else []) + [added]
  {
    var e := states[n].trace[i];
    if e.deed.writer == Operator {
      var k := EventStep(states, actions, n, i);
      assert states[k + 1] == Apply(states[k], actions[k]) && Enabled(states[k], actions[k]);
      OperatorGreen(states[k], actions[k], e);
    } else {
      var x, j, rev := GreenIsEarned(states, actions, n, i);
    }
  }

  // ------------------------------------------------------------ which writes go through

  predicate Lapsed(gate: Option<Gate>, now: int)
  {
    gate.Some? && gate.value.status == Waived && gate.value.waiver.Some? && gate.value.waiver.value.complete ==>
      gate.value.waiver.value.expires < now
  }

  /** The record found is the expected one, or a waiver laid over it. */
  predicate Matches(found: Option<Gate>, expected: Option<Gate>)
  {
    || found == expected
    || (found.Some? && found.value.status == Waived && expected.Some? && Retained(found.value) == Retained(expected.value))
  }

  /** A write goes through exactly when nothing newer is there to give way to; otherwise the record stays as it is. */
  ghost predicate GoesThrough(h: seq<Event>, p: Pid, d: Deed, rev: Option<nat>)
    requires d.Write?
  {
    && (!d.wrote ==> d.after == d.before)
    && match d.writer
       case Provisional => d.wrote == Lapsed(d.before, d.now)
       case Final =>
         exists v: nat :: PairOpen(h, p, v) && d.wrote == (Lapsed(d.before, d.now) && Matches(d.before, Expected(h[v])))
       case Fallback =>
         exists b: nat :: IsBegin(h, b, p) && d.wrote == (Lapsed(d.before, d.now) && Matches(d.before, Expected(h[b])))
       case Finalizer =>
         exists b: nat :: IsBegin(h, b, p) &&
           d.wrote == (Lapsed(d.before, d.now) && d.before.Some? && d.before == Expected(h[b]) &&
                       !(d.before.value.status == Red && d.before.value.reason == Some(Reason(NoFreshMeasurement, false)) &&
                         d.before.value.revision == rev))
       case Operator => d.wrote
  }

  lemma {:induction false} CommitGoesThrough(existing: Option<Gate>, cas: Cas, m: Measurement, attested: bool, now: int)
    ensures CommitGate(existing, cas, m, attested, now).Some? <==>
      Lapsed(existing, now) && (cas.Expect? ==> Matches(existing, cas.gate))
  {
  }

  lemma {:induction false} ProvisionalGoesThrough(s: State, p: Pid)
    requires p in s.procs
    ensures GoesThrough(s.trace, p, ProvisionalStep(s, p).trace[|s.trace|].deed, s.procs[p].m.revision)
  {
    CommitGoesThrough(s.gate, Unconditional, ProvisionalMeasurement(p, s.procs[p]), false, s.clock);
  }

  lemma {:induction false} FallbackGoesThrough(s: State, p: Pid)
    requires p in s.procs && RecordsOk(s, p, s.procs[p])
    ensures GoesThrough(s.trace, p, FallbackStep(s, p).trace[|s.trace|].deed, s.procs[p].m.revision)
  {
    var q := s.procs[p];
    var m := q.m.(pathClear := false, passed := false, failure := Some(Failed(1)));
    CommitGoesThrough(s.gate, Expect(q.snapshot), m, false, s.clock);
    assert IsBegin(s.trace, q.marks.start, p);
  }

  lemma {:induction false} FinalizerGoesThrough(s: State, p: Pid)
    requires p in s.procs && RecordsOk(s, p, s.procs[p])
    ensures GoesThrough(s.trace, p, InvalidateStep(s, p).trace[|s.trace|].deed, s.procs[p].m.revision)
  {
    assert IsBegin(s.trace, s.procs[p].marks.start, p);
  }

  lemma {:induction false} FinalGoesThrough(s: State, p: Pid)
    requires p in s.procs && s.procs[p].stage.Committing? && RecordsOk(s, p, s.procs[p])
    ensures GoesThrough(s.trace, p, FinalStep(s, p).trace[|s.trace|].deed, s.procs[p].m.revision)
  {
    var q := s.procs[p];
    CommitGoesThrough(s.gate, Expect(q.expected), q.m, q.attested && FenceHolds(s, q), s.clock);
    assert PairOpen(s.trace, p, q.marks.provisional);
  }

  lemma {:induction false} WriteGoesThrough(s: State, a: Action, e: Event)
    requires Enabled(s, a) && Apply(s, a).trace == s.trace + [e] && IsWrite(e) && e.deed.writer != Operator
    requires e.pid in s.procs ==> RecordsOk(s, e.pid, s.procs[e.pid])
    ensures e.pid in s.procs && GoesThrough(s.trace, e.pid, e.deed, s.procs[e.pid].m.revision)
  {
    WritersNamed(s, a, e);
    assert Apply(s, a).trace[|s.trace|] == e;
    match a
    case EmitProvisional(p) => ProvisionalGoesThrough(s, p);
    case EmitFallback(p) => FallbackGoesThrough(s, p);
    case Invalidate(p) => FinalizerGoesThrough(s, p);
    case TryCommit(p) => FinalGoesThrough(s, p);
  }

  /**
  In every run, an automated write goes through if and only if no active waiver stands there and the record is still
  the one the scan expects, a waiver laid over it aside; the finalizer's also needs something new to say.
  */
  lemma {:induction false} WritesGoThroughExactly(states: seq<State>, actions: seq<Action>, n: nat, i: nat)
    returns (j: nat, rev: Option<nat>)
    requires IsRun(states, actions) && n < |states| && i < |states[n].trace|
    requires IsWrite(states[n].trace[i]) && states[n].trace[i].deed.writer != Operator
    ensures j < n && actions[j] == Begin(states[n].trace[i].pid, rev)
    ensures GoesThrough(states[n].trace[..i], states[n].trace[i].pid, states[n].trace[i].deed, rev)
  {
    var k := EventStep(states, actions, n, i);
    var s, e := states[k], states[n].trace[i];
    assert states[k + 1] == Apply(s, actions[k]) && Enabled(s, actions[k]);
    RunsAreJustified(states, actions, k);
    assert e.pid in s.procs ==> ProcessOk(s, e.pid, s.procs[e.pid]);
    WriteGoesThrough(s, actions[k], e);
    j := ScanTale(states, actions, k, e.pid);
    rev := s.procs[e.pid].m.revision;
  }

  // ------------------------------------------------------------ a waiver stands

  /** The operator's own gate transactions. */
  predicate IsOperators(a: Action)
  {
    a.OperatorSet? || a.OperatorWaive?
  }

  /** While a waiver is active, nothing but the operator changes the record. */
  lemma {:induction false} ActiveStays(s: State, a: Action)
    requires Enabled(s, a) && !IsOperators(a) && WaiverActive(s.gate, s.clock)
    ensures Apply(s, a).gate == s.gate
  {
    if a.EmitProvisional? {
      CommitGoesThrough(s.gate, Unconditional, ProvisionalMeasurement(a.pid, s.procs[a.pid]), false, s.clock);
    }
  }

  /** The record is waived like this. */
  predicate IsWaived(s: State, scope: nat, waiver: Waiver)
  {
    s.gate.Some? && s.gate.value.status == Waived && s.gate.value.waiver == Some(waiver) && s.gate.value.scope == scope
  }

  predicate Waives(a: Action, scope: nat, waiver: Waiver)
  {
    a.OperatorWaive? && a.scope == scope && a.waiver == waiver
  }

  lemma {:induction false} WaiverStep(s: State, a: Action, scope: nat, waiver: Waiver)
    requires Enabled(s, a) && waiver.complete && s.clock <= waiver.expires
    requires Waives(a, scope, waiver) || (!IsOperators(a) && IsWaived(s, scope, waiver))
    ensures IsWaived(Apply(s, a), scope, waiver)
  {
    if !IsOperators(a) {
      ActiveStays(s, a);
    }
  }

  lemma {:induction false} WaiverNext(states: seq<State>, actions: seq<Action>, i: nat, scope: nat, waiver: Waiver)
    requires IsRun(states, actions) && i < |actions| && waiver.complete && states[i].clock <= waiver.expires
    requires Waives(actions[i], scope, waiver) || (!IsOperators(actions[i]) && IsWaived(states[i], scope, waiver))
    ensures IsWaived(states[i + 1], scope, waiver)
  {
    RunStep(states, actions, i);
    WaiverStep(states[i], actions[i], scope, waiver);
  }

  lemma {:induction false} TimeRuns(states: seq<State>, actions: seq<Action>, i: nat)
    requires IsRun(states, actions) && i < |actions|
    ensures states[i].clock <= states[i + 1].clock
  {
    RunStep(states, actions, i);
  }

  /** The operator has not acted between the two steps. */
  ghost predicate OperatorRests(actions: seq<Action>, k: nat, n: nat)
  {
    forall i :: k < i < n && i < |actions| ==> !IsOperators(actions[i])
  }

  /**
  A complete waiver that has not expired takes effect at once and stands, whatever scans and finalizers do, until the
  operator acts again or it expires.
  */
  lemma {:induction false} WaiverStands(states: seq<State>, actions: seq<Action>, k: nat, n: nat, scope: nat, waiver: Waiver)
    requires IsRun(states, actions) && k < n < |states| && Waives(actions[k], scope, waiver)
    requires waiver.complete && OperatorRests(actions, k, n) && states[n].clock <= waiver.expires
    ensures IsWaived(states[n], scope, waiver)
    decreases n
  {
    var m := n - 1;
    TimeRuns(states, actions, m);
    if m > k {
      WaiverStands(states, actions, k, m, scope, waiver);
    }
    WaiverNext(states, actions, m, scope, waiver);
  }

  // ------------------------------------------------------------ a clean scan does turn the gate green

  predicate CleanSoFar(q: Process)
  {
    IsClean(q.m) && q.m.percent == Some(100)
  }

  /** Nothing has failed or interposed so far. */
  predicate OnTrack(s: State, p: Pid, rev: Option<nat>)
    requires p in s.procs
  {
    var q := s.procs[p];
    if q.stage.Closing? || q.stage.Done? then
      && s.gate.Some? && s.gate.value.status == Green && s.gate.value.reason == Some(Reason(Attested, false))
      && (rev.Some? ==> s.gate.value.revision == rev) && LastPercent(s.gate) == Some(100)
    else
      && !q.stage.FallingBack? && !q.stage.Finalizing? && !WaiverActive(s.gate, s.clock) && q.m.revision == rev
      && (Untried(q.stage) ==> q.m == FAILING.(revision := rev))
      && (IsOpen(q.stage) ==> s.gate == q.expected)
      && (Late(q.stage) ==> CleanSoFar(q))
      && (q.stage.Probing? || q.stage.AwaitSecondHandoff? || q.stage.Releasing? || q.stage.Committing? ==>
            q.token == Some(s.generation))
      && (q.stage.AwaitSecondHandoff? || q.stage.Releasing? || q.stage.Committing? ==> q.attested)
      && !q.stage.Reprobing?
  }

  lemma {:induction false} EarlyOnTrack(s: State, p: Pid, rev: Option<nat>)
    requires p in s.procs && Untried(s.procs[p].stage) && !Blocked(s, p) && OnTrack(s, p, rev)
    ensures p in Apply(s, NextAction(s, p)).procs && OnTrack(Apply(s, NextAction(s, p)), p, rev)
  {
    var t := NextTime(s.gate, s.clock);
  }

  predicate IsMeasuring(stage: Stage)
  {
    stage.Postflight? || stage.Fencing? || stage.Probing?
  }

  lemma {:induction false} MeasuredOnTrack(s: State, p: Pid, rev: Option<nat>)
    requires p in s.procs && IsMeasuring(s.procs[p].stage) && OnTrack(s, p, rev)
    ensures !Blocked(s, p) && p in Apply(s, NextAction(s, p)).procs && OnTrack(Apply(s, NextAction(s, p)), p, rev)
  {
  }

  lemma {:induction false} HandedOnTrack(s: State, p: Pid, rev: Option<nat>)
    requires p in s.procs && !Blocked(s, p) && OnTrack(s, p, rev)
    requires s.procs[p].stage.AwaitSecondHandoff? || s.procs[p].stage.Releasing?
    ensures p in Apply(s, NextAction(s, p)).procs && OnTrack(Apply(s, NextAction(s, p)), p, rev)
  {
  }

  lemma {:induction false} LastOnTrack(s: State, p: Pid, rev: Option<nat>)
    requires p in s.procs && !Untried(s.procs[p].stage) && !s.procs[p].stage.Done? && !Blocked(s, p) && OnTrack(s, p, rev)
    requires s.procs[p].stage.Committing? || !Late(s.procs[p].stage)
    ensures p in Apply(s, NextAction(s, p)).procs && OnTrack(Apply(s, NextAction(s, p)), p, rev)
  {
    if s.procs[p].stage.Committing? {
      var q := s.procs[p];
      CommitGoesThrough(s.gate, Expect(q.expected), q.m, true, s.clock);
    }
  }

  ghost predicate Tracked(s: State, p: Pid, rev: Option<nat>)
  {
    Alone(s, p) && OnTrack(s, p, rev)
  }

  lemma {:induction false} TrackStep(s: State, p: Pid, rev: Option<nat>) returns (a: Action, next: State)
    requires Tracked(s, p, rev) && !s.procs[p].stage.Done?
    ensures Enabled(s, a) && OwnStep(a, p) && next == Apply(s, a) && Tracked(next, p, rev)
    ensures Remaining(next.procs[p].stage) < Remaining(s.procs[p].stage)
  {
    NextAlone(s, p);
    a := NextAction(s, p);
    next := Apply(s, a);
    if Untried(s.procs[p].stage) {
      EarlyOnTrack(s, p, rev);
    } else if IsMeasuring(s.procs[p].stage) {
      MeasuredOnTrack(s, p, rev);
    } else if s.procs[p].stage.AwaitSecondHandoff? || s.procs[p].stage.Releasing? {
      HandedOnTrack(s, p, rev);
    } else {
      LastOnTrack(s, p, rev);
    }
  }

  lemma {:induction false} TrackEndsGreen(s: State, p: Pid, rev: Option<nat>) returns (states: seq<State>, actions: seq<Action>)
    requires Tracked(s, p, rev)
    ensures IsContinuation(states, actions, p) && states[0] == s && |actions| <= Remaining(s.procs[p].stage)
    ensures Tracked(states[|actions|], p, rev) && states[|actions|].procs[p].stage.Done?
    decreases Remaining(s.procs[p].stage)
  {
    if s.procs[p].stage.Done? {
      states, actions := [s], [];
    } else {
      var a, next := TrackStep(s, p, rev);
      var later, rest := TrackEndsGreen(next, p, rev);
      states, actions := [s] + later, [a] + rest;
      Prepended(s, a, later, rest, p);
      assert states[|actions|] == later[|rest|];
    }
  }

  /**
  From any reachable state without an active waiver, a scan that finds both locks free, meets no failure and gets clean
  answers turns the gate green, for the commit it began with and with the percentage its command printed.
  */
  lemma {:induction false} CleanScanTurnsGreen(states: seq<State>, actions: seq<Action>, n: nat, p: Pid)
    returns (more: seq<State>, steps: seq<Action>, j: nat, rev: Option<nat>)
    requires IsRun(states, actions) && n < |states| && At(states[n], p, Ready)
    requires states[n].coverage.None? && states[n].handoff.None? && !WaiverActive(states[n].gate, states[n].clock)
    ensures j < n && actions[j] == Begin(p, rev)
    ensures IsContinuation(more, steps, p) && more[0] == states[n] && |steps| <= LONGEST && At(more[|steps|], p, Done)
    ensures var gate := more[|steps|].gate;
      && gate.Some? && gate.value.status == Green && gate.value.reason == Some(Reason(Attested, false))
      && (rev.Some? ==> gate.value.revision == rev) && LastPercent(gate) == Some(100)
  {
    RunsAreJustified(states, actions, n);
    j := ScanTale(states, actions, n, p);
    rev := states[n].procs[p].m.revision;
    more, steps := TrackEndsGreen(states[n], p, rev);
  }
}
