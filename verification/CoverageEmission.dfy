/**
The retry loop of one gate emission (src/agenttalk/assurance.py, `_emit_coverage_gate`),
called with any arguments and in any environment.
*/
module CoverageEmission {
  import opened Wrappers
  import opened CoverageGate

  const REPROBES: nat := 2

  /** What the environment answers: the token pair of each lock acquisition, and each Git re-probe. */
  datatype Environment = Environment(acquired: seq<(nat, nat)>, answers: seq<bool>)

  predicate Answers(env: Environment)
  {
    |env.acquired| == REPROBES + 1 && |env.answers| == REPROBES
  }

  /** Evidence the emission starts from. */
  predicate Initially(m: Measurement, precomputed: bool)
  {
    m.complete && m.pathClear && m.passed && m.failure.None? && precomputed
  }

  /** The evidence bound to the write, when `k` acquisitions have missed so far. */
  function Bound(m: Measurement, evidence: bool, token: Option<nat>, env: Environment, k: nat): bool
    requires Answers(env) && k <= REPROBES
    decreases REPROBES - k
  {
    if token.None? || env.acquired[k].0 == token.value then evidence
    else if k == REPROBES then false
    else Bound(m, env.answers[k] && m.pathClear, Some(env.acquired[k].1), env, k + 1)
  }

  method Emit(m: Measurement, precomputed: bool, token: Option<nat>, env: Environment)
    returns (attested: bool, taken: nat)
    requires Answers(env)
    ensures attested == Bound(m, Initially(m, precomputed), token, env, 0)
    ensures 1 <= taken <= 3
    ensures taken > 1 ==> token.Some? && env.acquired[0].0 != token.value
  {
    var evidence := m.complete && m.pathClear && m.passed && m.failure.None? && precomputed;
    var expected := token;
    var left := REPROBES;
    taken := 0;
    while true
      invariant 0 <= left <= REPROBES && taken == REPROBES - left
      invariant Bound(m, evidence, expected, env, taken) == Bound(m, Initially(m, precomputed), token, env, 0)
      invariant taken == 0 ==> expected == token
      invariant taken > 0 ==> token.Some? && env.acquired[0].0 != token.value
      decreases left
    {
      var (previous, current) := env.acquired[taken];
      taken := taken + 1;
      if expected.None? || previous == expected.value {
        return evidence, taken;
      }
      if left == 0 {
        return false, taken;
      }
      evidence := env.answers[REPROBES - left] && m.pathClear;
      expected := Some(current);
      left := left - 1;
    }
  }

  predicate GreenDespiteFailure(m: Measurement, precomputed: bool, token: Option<nat>, env: Environment)
    requires Answers(env)
  {
    m.failure.Some? && IsGreen(m, Bound(m, Initially(m, precomputed), token, env, 0))
  }

  /** Taken alone, the emission can turn a failed measurement green, in exactly these environments. */
  lemma {:induction false} GreenDespiteFailureExactly(m: Measurement, precomputed: bool, token: Option<nat>, env: Environment)
    requires Answers(env)
    ensures GreenDespiteFailure(m, precomputed, token, env) <==>
      && m.failure.Some? && IsGreen(m, true)
      && token.Some? && env.acquired[0].0 != token.value
      && if env.acquired[1].0 == env.acquired[0].1 then env.answers[0]
         else env.acquired[2].0 == env.acquired[1].1 && env.answers[1]
  {
    var first := Initially(m, precomputed);
    if token.Some? && env.acquired[0].0 != token.value {
      var second := env.answers[0] && m.pathClear;
      assert Bound(m, first, token, env, 0) == Bound(m, second, Some(env.acquired[0].1), env, 1);
      if env.acquired[1].0 != env.acquired[0].1 {
        var third := env.answers[1] && m.pathClear;
        assert Bound(m, second, Some(env.acquired[0].1), env, 1) == Bound(m, third, Some(env.acquired[1].1), env, 2);
      }
    }
  }

  /** A failure never turns green for a caller if and only if that caller passes no token with it. */
  lemma {:induction false} TokenDisciplineIsTheGuard(m: Measurement, precomputed: bool, token: Option<nat>)
    requires m.failure.Some? && IsGreen(m, true)
    ensures token.None? <==> forall env :: Answers(env) ==> !GreenDespiteFailure(m, precomputed, token, env)
  {
    if token.Some? {
      var env := Environment([(token.value + 1, 7), (7, 8), (8, 9)], [true, true]);
      GreenDespiteFailureExactly(m, precomputed, token, env);
      assert Answers(env) && GreenDespiteFailure(m, precomputed, token, env);
    } else {
      forall env | Answers(env) ensures !GreenDespiteFailure(m, precomputed, token, env) {
        GreenDespiteFailureExactly(m, precomputed, token, env);
      }
    }
  }
}
