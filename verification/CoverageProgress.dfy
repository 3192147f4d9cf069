/**
How far a scan still has to go (src/agenttalk/assurance.py): every step of its own brings it nearer to its end, so it
makes at most eighteen, and left alone with free locks it ends.
*/
module CoverageProgress {
  import opened Wrappers
  import opened CoverageGate
  import opened CoverageSafety

  const LONGEST: nat := 18

  /** An upper bound on the steps a scan still makes. */
  function Remaining(stage: Stage): nat
  {
    match stage
    case Ready => LONGEST
    case AwaitFirstHandoff => 17
    case Provisioning => 16
    case LeavingHandoff => 15
    case Preflight => 14
    case Running => 13
    case Postflight => 12
    case Fencing => 11
    case Probing => 10
    case AwaitSecondHandoff => 9
    case Releasing => 8
    case Committing(left) => 3 + 2 * left
    case Reprobing(left) => 2 + 2 * left
    case Closing => 2
    case FallingBack => 2
    case Finalizing => 1
    case Done => 0
  }

  /** A step of the scan itself: not one of the world, of an operator or of another scan. */
  predicate OwnStep(a: Action, p: Pid)
  {
    match a
    case Tick(_) => false
    case Reclaim => false
    case OtherConfig(_) => false
    case OperatorSet(_, _, _, _, _, _, _) => false
    case OperatorWaive(_, _, _) => false
    case Begin(_, _) => false
    case _ => a.pid == p
  }

  predicate Unfinished(s: State, p: Pid)
  {
    p in s.procs && !s.procs[p].stage.Done?
  }

  lemma {:induction false} OthersDoNotMove(s: State, a: Action, p: Pid)
    requires Enabled(s, a) && p in s.procs && !OwnStep(a, p)
    ensures p in Apply(s, a).procs && Apply(s, a).procs[p] == s.procs[p]
  {
  }

  lemma {:induction false} SilentLeads(s: State, a: Action, p: Pid)
    requires Enabled(s, a) && Unfinished(s, p) && OwnStep(a, p) && IsSilent(a)
    ensures p in Apply(s, a).procs && Remaining(Apply(s, a).procs[p].stage) < Remaining(s.procs[p].stage)
  {
  }

  lemma {:induction false} EmissionLeads(s: State, a: Action, p: Pid)
    requires Enabled(s, a) && Unfinished(s, p) && OwnStep(a, p) && (a.TryCommit? || a.AskGitAgain?)
    ensures p in Apply(s, a).procs && Remaining(Apply(s, a).procs[p].stage) < Remaining(s.procs[p].stage)
  {
  }

  lemma {:induction false} TracedLeads(s: State, a: Action, p: Pid)
    requires Enabled(s, a) && Unfinished(s, p) && OwnStep(a, p) && !IsSilent(a) && !a.TryCommit? && !a.AskGitAgain?
    ensures p in Apply(s, a).procs && Remaining(Apply(s, a).procs[p].stage) < Remaining(s.procs[p].stage)
  {
  }

  lemma {:induction false} EndedStays(s: State, a: Action, p: Pid)
    requires Enabled(s, a) && At(s, p, Done) && OwnStep(a, p)
    ensures At(Apply(s, a), p, Done)
  {
  }

  /** Own steps lead towards the end, and nobody else moves the scan. */
  lemma {:induction false} OwnStepsLead(s: State, a: Action, p: Pid)
    requires Enabled(s, a) && p in s.procs
    ensures p in Apply(s, a).procs
    ensures var before, after := s.procs[p].stage, Apply(s, a).procs[p].stage;
      if OwnStep(a, p) && !before.Done? then Remaining(after) < Remaining(before) else after == before
  {
    if !OwnStep(a, p) {
      OthersDoNotMove(s, a, p);
    } else if s.procs[p].stage.Done? {
      EndedStays(s, a, p);
    } else if IsSilent(a) {
      SilentLeads(s, a, p);
    } else if a.TryCommit? || a.AskGitAgain? {
      EmissionLeads(s, a, p);
    } else {
      TracedLeads(s, a, p);
    }
  }

  /** How many steps of its own the scan had made before step n. */
  function StepsMade(states: seq<State>, actions: seq<Action>, p: Pid, n: nat): nat
    requires n <= |actions| && n <= |states|
  {
    if n == 0 then 0
    else StepsMade(states, actions, p, n - 1) + if Unfinished(states[n - 1], p) && OwnStep(actions[n - 1], p) then 1 else 0
  }

  /** However the others interleave, crash or write: a scan makes at most eighteen steps of its own, then it has ended. */
  lemma {:induction false} ScansEnd(states: seq<State>, actions: seq<Action>, p: Pid, n: nat)
    requires IsRun(states, actions) && n < |states|
    ensures StepsMade(states, actions, p, n) <= LONGEST
    ensures p in states[n].procs ==> StepsMade(states, actions, p, n) + Remaining(states[n].procs[p].stage) <= LONGEST
    ensures p in states[n].procs && StepsMade(states, actions, p, n) == LONGEST ==> states[n].procs[p].stage.Done?
    ensures p !in states[n].procs ==> StepsMade(states, actions, p, n) == 0
  {
    if n > 0 {
      ScansEnd(states, actions, p, n - 1);
      var s, a := states[n - 1], actions[n - 1];
      assert states[n - 1 + 1] == Apply(s, a) && Enabled(s, a);
      if p in s.procs {
        OwnStepsLead(s, a, p);
      } else {
        NewcomersAreReady(s, a, p);
      }
    }
  }

  lemma {:induction false} NewcomersAreReady(s: State, a: Action, p: Pid)
    requires Enabled(s, a) && p !in s.procs
    ensures p in Apply(s, a).procs ==> Apply(s, a).procs[p].stage.Ready?
  {
  }

  // ------------------------------------------------------------ left alone

  /** Nobody else holds a lock. */
  predicate LocksFree(s: State, p: Pid)
  {
    (s.coverage.None? || s.coverage == Some(p)) && (s.handoff.None? || s.handoff == Some(p))
  }

  ghost predicate IsContinuation(states: seq<State>, actions: seq<Action>, p: Pid)
  {
    && |states| == |actions| + 1
    && forall i :: 0 <= i < |actions| ==>
         Enabled(states[i], actions[i]) && OwnStep(actions[i], p) && states[i + 1] == Apply(states[i], actions[i])
  }

  lemma {:induction false} AloneIsNotBlocked(s: State, p: Pid)
    requires LocksOk(s) && Unfinished(s, p) && LocksFree(s, p) && (s.coverage == Some(p) ==> HoldsCoverage(s.procs[p].stage))
    ensures !Blocked(s, p)
  {
  }

  lemma {:induction false} NextIsOwn(s: State, p: Pid)
    requires Inv(s) && Unfinished(s, p) && !Blocked(s, p)
    ensures s.procs[p].stage.Reprobing? ==> s.procs[p].stage.left > 0
    ensures OwnStep(NextAction(s, p), p)
  {
    assert ProcessOk(s, p, s.procs[p]);
  }

  lemma {:induction false} NextKeepsLocks(s: State, p: Pid)
    requires Unfinished(s, p) && !Blocked(s, p) && LocksFree(s, p)
    requires s.coverage == Some(p) ==> HoldsCoverage(s.procs[p].stage)
    requires s.procs[p].stage.Reprobing? ==> s.procs[p].stage.left > 0
    ensures var next := Apply(s, NextAction(s, p));
      LocksFree(next, p) && (next.coverage == Some(p) ==> HoldsCoverage(next.procs[p].stage))
  {
    var a := NextAction(s, p);
    if a.TryCommit? || a.AskGitAgain? || a.CloseHandoff? || a.EmitFallback? || a.Invalidate? {
      assert !HoldsCoverage(s.procs[p].stage);
    }
  }

  /** A state of a run in which the scan finds the locks free. */
  ghost predicate Alone(s: State, p: Pid)
  {
    Inv(s) && p in s.procs && LocksFree(s, p) && (s.coverage == Some(p) ==> HoldsCoverage(s.procs[p].stage))
  }

  lemma {:induction false} NextAlone(s: State, p: Pid)
    requires Alone(s, p) && !s.procs[p].stage.Done?
    ensures !Blocked(s, p) && (s.procs[p].stage.Reprobing? ==> s.procs[p].stage.left > 0)
    ensures var a := NextAction(s, p);
      && Enabled(s, a) && OwnStep(a, p) && Alone(Apply(s, a), p)
      && Remaining(Apply(s, a).procs[p].stage) < Remaining(s.procs[p].stage)
  {
    AloneIsNotBlocked(s, p);
    NextIsOwn(s, p);
    OwnStepsLead(s, NextAction(s, p), p);
    StepKeeps(s, NextAction(s, p));
    NextKeepsLocks(s, p);
  }

  lemma {:induction false} StepAlone(s: State, p: Pid) returns (a: Action, next: State)
    requires Alone(s, p) && !s.procs[p].stage.Done?
    ensures Enabled(s, a) && OwnStep(a, p) && next == Apply(s, a) && Alone(next, p)
    ensures Remaining(next.procs[p].stage) < Remaining(s.procs[p].stage)
  {
    NextAlone(s, p);
    a := NextAction(s, p);
    next := Apply(s, a);
  }

  /** From any reachable state, a scan that finds the locks free and meets no failure ends within the bound. */
  lemma {:induction false} EndsAlone(s: State, p: Pid) returns (states: seq<State>, actions: seq<Action>)
    requires Alone(s, p)
    ensures IsContinuation(states, actions, p) && states[0] == s && |actions| <= Remaining(s.procs[p].stage)
    ensures At(states[|actions|], p, Done)
    decreases Remaining(s.procs[p].stage)
  {
    if s.procs[p].stage.Done? {
      states, actions := [s], [];
    } else {
      var a, next := StepAlone(s, p);
      var later, rest := EndsAlone(next, p);
      states, actions := [s] + later, [a] + rest;
      Prepended(s, a, later, rest, p);
    }
  }

  lemma {:induction false} Prepended(s: State, a: Action, later: seq<State>, rest: seq<Action>, p: Pid)
    requires Enabled(s, a) && OwnStep(a, p) && IsContinuation(later, rest, p) && later[0] == Apply(s, a)
    ensures IsContinuation([s] + later, [a] + rest, p)
  {
    var states, actions := [s] + later, [a] + rest;
    forall i | 0 <= i < |actions|
      ensures Enabled(states[i], actions[i]) && OwnStep(actions[i], p) && states[i + 1] == Apply(states[i], actions[i])
    {
      if i > 0 {
        assert states[i] == later[i - 1] && actions[i] == rest[i - 1] && states[i + 1] == later[i - 1 + 1];
      }
    }
  }
}
