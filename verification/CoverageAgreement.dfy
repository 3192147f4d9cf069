/**
The emission loop of CoverageEmission and the emission steps of CoverageGate are one algorithm: whatever happens in
between, a scan writes with exactly the evidence the loop would have bound.
*/
module CoverageAgreement {
  import opened Wrappers
  import opened CoverageGate
  import opened CoverageEmission

  predicate Emitting(s: State, p: Pid)
  {
    p in s.procs && ((s.procs[p].stage.Committing? && s.procs[p].stage.left <= REPROBES)
                     || (s.procs[p].stage.Reprobing? && 0 < s.procs[p].stage.left <= REPROBES))
  }

  /** What the loop would still come to from here. */
  function Pending(s: State, p: Pid, env: Environment): bool
    requires Answers(env) && Emitting(s, p)
  {
    var q := s.procs[p];
    var k := REPROBES - q.stage.left;
    if q.stage.Committing? then Bound(q.m, q.attested, q.token, env, k)
    else Bound(q.m, env.answers[k] && q.m.pathClear, q.token, env, k + 1)
  }

  /** The environment is the one this step meets: the tokens of its transaction, or the answer it gets. */
  predicate Meets(s: State, a: Action, p: Pid, env: Environment)
    requires Answers(env) && Emitting(s, p)
  {
    var k := REPROBES - s.procs[p].stage.left;
    && (a == TryCommit(p) && s.procs[p].stage.Committing? ==> env.acquired[k] == (s.generation, s.generation + 1))
    && (a.AskGitAgain? && a.pid == p && s.procs[p].stage.Reprobing? ==> env.answers[k] == a.clean)
  }

  /** The step that writes. */
  predicate Writes(s: State, a: Action, p: Pid)
    requires p in s.procs
  {
    a == TryCommit(p) && s.procs[p].stage.Committing? && (FenceHolds(s, s.procs[p]) || s.procs[p].stage.left == 0)
  }

  predicate Leaves(a: Action, p: Pid)
  {
    (a.Abort? || a.Crash?) && a.pid == p
  }

  lemma {:induction false} OthersLeaveIt(s: State, a: Action, p: Pid)
    requires Enabled(s, a) && Emitting(s, p) && !Leaves(a, p) && a != TryCommit(p) && !(a.AskGitAgain? && a.pid == p)
    ensures p in Apply(s, a).procs && Apply(s, a).procs[p] == s.procs[p]
  {
  }

  /** What is pending stays pending through every step, the scan's own misses and probes included. */
  lemma {:induction false} PendingStays(s: State, a: Action, p: Pid, env: Environment)
    requires Answers(env) && Enabled(s, a) && Emitting(s, p) && Meets(s, a, p, env) && !Leaves(a, p) && !Writes(s, a, p)
    ensures Emitting(Apply(s, a), p) && Pending(Apply(s, a), p, env) == Pending(s, p, env)
    ensures Apply(s, a).procs[p].m == s.procs[p].m && Apply(s, a).procs[p].expected == s.procs[p].expected
  {
    if a == TryCommit(p) || (a.AskGitAgain? && a.pid == p) {
    } else {
      OthersLeaveIt(s, a, p);
    }
  }

  /** The write binds what was pending. */
  lemma {:induction false} WriteBindsPending(s: State, a: Action, p: Pid, env: Environment)
    requires Answers(env) && Enabled(s, a) && Emitting(s, p) && Meets(s, a, p, env) && Writes(s, a, p)
    ensures var q, t := s.procs[p], Apply(s, a).trace;
      t == s.trace + [Config(p, s.generation + 1,
                             WriteDeed(s, Final, CommitGate(s.gate, Expect(q.expected), q.m, Pending(s, p, env), s.clock)))]
  {
  }

  ghost predicate IsEmission(states: seq<State>, actions: seq<Action>, p: Pid, env: Environment, m: nat, n: nat)
    requires Answers(env)
  {
    && |states| == |actions| + 1 && m <= n < |actions|
    && forall i :: m <= i <= n ==>
         && Enabled(states[i], actions[i]) && states[i + 1] == Apply(states[i], actions[i])
         && (i < n ==> Emitting(states[i], p) ==> !Leaves(actions[i], p) && !Writes(states[i], actions[i], p))
         && (Emitting(states[i], p) ==> Meets(states[i], actions[i], p, env))
  }

  lemma {:induction false} PendingThroughout(
    states: seq<State>, actions: seq<Action>, p: Pid, env: Environment, m: nat, n: nat, i: nat)
    requires Answers(env) && IsEmission(states, actions, p, env, m, n) && m <= i <= n && Emitting(states[m], p)
    ensures Emitting(states[i], p) && Pending(states[i], p, env) == Pending(states[m], p, env)
    ensures states[i].procs[p].m == states[m].procs[p].m && states[i].procs[p].expected == states[m].procs[p].expected
    decreases i
  {
    if i > m {
      PendingThroughout(states, actions, p, env, m, n, i - 1);
      PendingStays(states[i - 1], actions[i - 1], p, env);
      assert states[i - 1 + 1] == Apply(states[i - 1], actions[i - 1]);
    }
  }

  /**
  From the release of the coverage lock (step m - 1) to the final write (step n), with any steps of anybody in
  between: the write is the one of the loop, run on what the scan brought along in the environment it met.
  */
  lemma {:induction false} EmissionAgrees(
    states: seq<State>, actions: seq<Action>, p: Pid, env: Environment, m: nat, n: nat)
    requires Answers(env) && 0 < m && IsEmission(states, actions, p, env, m, n)
    requires Enabled(states[m - 1], actions[m - 1]) && states[m] == Apply(states[m - 1], actions[m - 1])
    requires actions[m - 1] == ReleaseCoverage(p) && states[m - 1].procs[p].m.complete
    requires p in states[n].procs && Writes(states[n], actions[n], p)
    ensures var q, s := states[m - 1].procs[p], states[n];
      states[n + 1].trace == s.trace + [Config(p, s.generation + 1, WriteDeed(s, Final,
        CommitGate(s.gate, Expect(q.expected), q.m, Bound(q.m, Initially(q.m, q.attested), q.token, env, 0), s.clock)))]
  {
    var q := states[m - 1].procs[p];
    assert states[m].procs[p] == q.(stage := Committing(REPROBES), attested := Initially(q.m, q.attested));
    PendingThroughout(states, actions, p, env, m, n, n);
    WriteBindsPending(states[n], actions[n], p, env);
  }
}
