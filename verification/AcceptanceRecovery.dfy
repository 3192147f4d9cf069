/**
The life of an attempt's counters (src/agenttalk/close.py, `apply_ack` and `decide_counter`;
src/agenttalk/acceptance_history.py, `successor`; src/agenttalk/acceptance_obligations.py, `inherit`):
every run of captures, acknowledgements, decisions and publication, and any number of recoveries.
*/
module AcceptanceRecovery {
  import opened Wrappers
  import opened PythonText
  import opened AcceptanceObligations

  datatype Move =
    | Capture(sources: seq<Close>)
    | CounterAck(name: string, finding: string, actor: string)
    | Decide(id: CounterId, accepted: bool, actor: string, at: string, reason: string, remediation: Option<string>)
    | Report(unresolved: seq<Finding>, failures: seq<Finding>)
    | Publish(holds: seq<Hold>, actor: string)

  datatype Refusal = IsPublished | IsFrozen | BadName | Duplicate | NoCounter | NoReason | NoRemediation | Untraced

  function Made(m: Move): Decision
    requires m.Decide?
  {
    if m.accepted then Accepted(m.actor, m.at, m.reason) else Rejected(m.actor, m.at, m.reason)
  }

  function EventOf(m: Move): Decided
    requires m.Decide?
  {
    Decided(m.id, m.accepted, m.actor, m.at)
  }

  /** An acceptance names the remediation; a rejection leaves the earlier one standing. */
  function Ruled(c: Counter, m: Move): Counter
    requires m.Decide?
  {
    if c.id != m.id then c else c.(decision := Made(m), remediation := if m.accepted then m.remediation else c.remediation)
  }

  function RuledAll(cs: seq<Counter>, m: Move): (r: seq<Counter>)
    requires m.Decide?
    ensures |r| == |cs| && forall i :: 0 <= i < |cs| ==> r[i] == Ruled(cs[i], m)
  {
    seq(|cs|, i requires 0 <= i < |cs| => Ruled(cs[i], m))
  }

  function Step(r: Close, m: Move): Result<Close, Refusal>
  {
    match m
    case Capture(sources) =>
      if r.frozen then Refused(IsFrozen)
      else if !AllTraced(Carried(sources)) then Refused(Untraced)
      else Ok(r.(counters := CaptureAll(r.counters, Carried(sources)), frozen := true))
    case CounterAck(name, finding, actor) =>
      if r.published then Refused(IsPublished)
      else if name == "" then Refused(BadName)
      else if Has(r.counters, Native(name)) then Refused(Duplicate)
      else Ok(r.(counters := r.counters + [Counter(Native(name), finding, actor, None, Pending, None)]))
    case Decide(id, accepted, actor, at, reason, remediation) =>
      if r.published then Refused(IsPublished)
      else if !Has(r.counters, id) then Refused(NoCounter)
      else if IsBlank(reason) then Refused(NoReason)
      else if accepted && remediation.None? then Refused(NoRemediation)
      else Ok(r.(counters := RuledAll(r.counters, m), events := r.events + [EventOf(m)]))
    case Report(unresolved, failures) =>
      if r.published then Refused(IsPublished) else Ok(r.(unresolved := unresolved, failures := failures))
    case Publish(holds, actor) =>
      if r.published then Refused(IsPublished) else Ok(r.(holds := holds, finalBy := actor, published := true))
  }

  /** A refused move leaves the record as it was. */
  function After(r: Close, m: Move): Close
  {
    match Step(r, m) case Ok(next) => next case Refused(_) => r
  }

  ghost predicate IsWork(states: seq<Close>, moves: seq<Move>)
  {
    |states| == |moves| + 1 && forall i :: 0 <= i < |moves| ==> states[i + 1] == After(states[i], moves[i])
  }

  // ------------------------------------------------------------ nothing is removed or reworded

  /** A counter lives on as the same obligation, whatever was decided about it. */
  ghost predicate LivesOn(c: Counter, after: seq<Counter>)
  {
    exists d :: d in after && SameObligation(c, d)
  }

  lemma {:induction false} CaptureKeeps(counters: seq<Counter>, latest: seq<Counter>, n: nat, c: Counter)
    requires AllTraced(latest) && n <= |latest| && c in counters && c.id.Derived?
    ensures c in CaptureUpTo(counters, latest, n)
  {
    if n > 0 {
      CaptureKeeps(counters, latest, n - 1, c);
      assert Traced(latest[n - 1]);
      OneKeeps(CaptureUpTo(counters, latest, n - 1), latest[n - 1], c);
    }
  }

  lemma {:induction false} OneKeeps(counters: seq<Counter>, carried: Counter, c: Counter)
    requires Traced(carried) && c in counters && c.id.Derived?
    ensures c in CaptureOne(counters, carried)
  {
  }

  lemma {:induction false} StepEvolves(r: Close, m: Move, c: Counter)
    requires c in r.counters && (c.id.Derived? || r.frozen)
    ensures LivesOn(c, After(r, m).counters) && (r.frozen ==> After(r, m).frozen)
  {
    assert SameObligation(c, c);
    if Step(r, m).Ok? {
      match m
      case Capture(sources) =>
        var carried := Carried(sources);
        CaptureKeeps(r.counters, Latest(carried), |carried|, c);
      case Decide(_, _, _, _, _, _) =>
        var i :| 0 <= i < |r.counters| && r.counters[i] == c;
        assert RuledAll(r.counters, m)[i] == Ruled(c, m) && SameObligation(c, Ruled(c, m));
      case _ =>
    }
  }

  /** Over every run a carried counter, and after the capture every counter, lives on. */
  lemma {:induction false} WorkEvolves(states: seq<Close>, moves: seq<Move>, m: nat, n: nat, c: Counter)
    requires IsWork(states, moves) && m <= n < |states| && c in states[m].counters && (c.id.Derived? || states[m].frozen)
    ensures LivesOn(c, states[n].counters) && (states[m].frozen ==> states[n].frozen)
    decreases n - m
  {
    if m == n {
      assert SameObligation(c, c);
    } else {
      WorkEvolves(states, moves, m, n - 1, c);
      var d :| d in states[n - 1].counters && SameObligation(c, d);
      StepEvolves(states[n - 1], moves[n - 1], d);
      var e :| e in states[n].counters && SameObligation(d, e);
      assert SameObligation(c, e);
    }
  }

  // ------------------------------------------------------------ the current entry of a carried counter

  /** Whatever is captured under the identity is this counter. */
  ghost predicate Only(latest: seq<Counter>, id: CounterId, c: Counter)
  {
    forall i :: 0 <= i < |latest| && latest[i].id == id ==> latest[i] == c
  }

  /** A counter the record did not have comes in as its latest source words it. */
  lemma {:induction false} EntryComes(
    counters: seq<Counter>, latest: seq<Counter>, n: nat, id: CounterId, c: Counter) returns (entry: Option<Counter>)
    requires AllTraced(latest) && n <= |latest| && id.Derived? && Only(latest, id, c)
    requires Reads(counters, latest, 0, id, None)
    ensures Reads(counters, latest, n, id, entry) && (entry.None? || entry == Some(c))
    decreases n
  {
    if n == 0 {
      entry := None;
    } else {
      var before := EntryComes(counters, latest, n - 1, id, c);
      ReadsNext(counters, latest, n - 1, id, before);
      entry := Enters(before, latest[n - 1], id);
    }
  }

  lemma {:induction false} OnlyLatest(carried: seq<Counter>, id: CounterId, c: Counter)
    requires AllTraced(carried) && Get(carried, id) == Some(c)
    ensures Only(Latest(carried), id, c)
  {
    forall i | 0 <= i < |carried| && Latest(carried)[i].id == id ensures Latest(carried)[i] == c {
      assert Latest(carried)[i] == LatestAt(carried, i);
    }
  }

  lemma {:induction false} GetRuled(cs: seq<Counter>, m: Move, id: CounterId)
    requires m.Decide?
    ensures Get(RuledAll(cs, m), id) == if Get(cs, id).Some? then Some(Ruled(Get(cs, id).value, m)) else None
  {
    if cs != [] {
      var front, last := cs[..|cs| - 1], cs[|cs| - 1];
      GetRuled(front, m, id);
      assert cs == front + [last] && RuledAll(cs, m) == RuledAll(front, m) + [Ruled(last, m)];
      GetAppend(front, last, id);
      GetAppend(RuledAll(front, m), Ruled(last, m), id);
    }
  }

  /** A decision on the counter was taken in step j. */
  predicate DecidedAt(states: seq<Close>, moves: seq<Move>, id: CounterId, j: nat)
    requires j < |moves| && j < |states|
  {
    moves[j].Decide? && moves[j].id == id && Step(states[j], moves[j]).Ok?
  }

  lemma {:induction false} EntryStays(r: Close, m: Move, id: CounterId)
    requires id.Derived? && Get(r.counters, id).Some?
    requires !(m.Decide? && m.id == id && Step(r, m).Ok?)
    ensures Get(After(r, m).counters, id) == Get(r.counters, id)
  {
    if Step(r, m).Ok? {
      match m
      case Capture(sources) =>
        var carried := Carried(sources);
        EntryRemains(r.counters, Latest(carried), 0, |carried|, id, Get(r.counters, id));
        assert IsCaptured(r.counters, Latest(carried), |carried|, CaptureAll(r.counters, carried));
      case CounterAck(name, finding, actor) =>
        GetAppend(r.counters, Counter(Native(name), finding, actor, None, Pending, None), id);
      case Decide(_, _, _, _, _, _) => GetRuled(r.counters, m, id);
      case _ =>
    }
  }

  /** The wording is settled at the capture: what holds then holds at every later time. */
  lemma {:induction false} WordingStays(states: seq<Close>, moves: seq<Move>, id: CounterId, m: nat, n: nat)
    requires IsWork(states, moves) && m <= n < |states| && id.Derived? && Get(states[m].counters, id).Some?
    ensures Get(states[n].counters, id).Some?
    ensures SameObligation(Get(states[m].counters, id).value, Get(states[n].counters, id).value)
    decreases n - m
  {
    if m < n {
      WordingStays(states, moves, id, m, n - 1);
      WordingStep(states[n - 1], moves[n - 1], id);
      assert states[n - 1 + 1] == After(states[n - 1], moves[n - 1]);
    }
  }

  lemma {:induction false} WordingStep(r: Close, m: Move, id: CounterId)
    requires id.Derived? && Get(r.counters, id).Some?
    ensures Get(After(r, m).counters, id).Some?
    ensures SameObligation(Get(r.counters, id).value, Get(After(r, m).counters, id).value)
  {
    if m.Decide? && m.id == id && Step(r, m).Ok? {
      GetRuled(r.counters, m, id);
    } else {
      EntryStays(r, m, id);
    }
  }

  // ------------------------------------------------------------ the ledger tells the decisions

  /** The decision of step j is the latest on the counter before step n. */
  ghost predicate LatestDecision(states: seq<Close>, moves: seq<Move>, id: CounterId, n: nat, j: nat)
    requires n <= |moves| && |states| == |moves| + 1
  {
    j < n && DecidedAt(states, moves, id, j) && forall i :: j < i < n ==> !DecidedAt(states, moves, id, i)
  }

  lemma {:induction false} SomeLatest(states: seq<Close>, moves: seq<Move>, id: CounterId, n: nat, j: nat) returns (k: nat)
    requires n <= |moves| && |states| == |moves| + 1 && j < n && DecidedAt(states, moves, id, j)
    ensures LatestDecision(states, moves, id, n, k)
    decreases n
  {
    if DecidedAt(states, moves, id, n - 1) {
      k := n - 1;
    } else {
      k := SomeLatest(states, moves, id, n - 1, j);
    }
  }

  /** The latest decision is what the record says. */
  lemma {:induction false} DecisionStands(states: seq<Close>, moves: seq<Move>, id: CounterId, n: nat, j: nat)
    requires IsWork(states, moves) && n < |states| && id.Derived? && LatestDecision(states, moves, id, n, j)
    ensures Get(states[n].counters, id).Some? && Get(states[n].counters, id).value.decision == Made(moves[j])
    decreases n
  {
    if j == n - 1 {
      GetRuled(states[j].counters, moves[j], id);
      assert states[j + 1] == After(states[j], moves[j]);
    } else {
      assert LatestDecision(states, moves, id, n - 1, j);
      DecisionStands(states, moves, id, n - 1, j);
      assert !DecidedAt(states, moves, id, n - 1);
      EntryStays(states[n - 1], moves[n - 1], id);
    }
  }

  lemma {:induction false} EventIsTold(states: seq<Close>, moves: seq<Move>, n: nat, e: Decided) returns (j: nat)
    requires IsWork(states, moves) && n < |states| && states[0].events == [] && e in states[n].events
    ensures j < n && DecidedAt(states, moves, e.id, j) && e == EventOf(moves[j])
    decreases n
  {
    var before := states[n - 1];
    assert states[n - 1 + 1] == After(before, moves[n - 1]);
    if e in before.events {
      j := EventIsTold(states, moves, n - 1, e);
    } else {
      j := n - 1;
    }
  }

  lemma {:induction false} EventStays(states: seq<Close>, moves: seq<Move>, n: nat, id: CounterId, j: nat)
    requires IsWork(states, moves) && j < n < |states| && DecidedAt(states, moves, id, j)
    ensures EventOf(moves[j]) in states[n].events
    decreases n
  {
    assert states[n - 1 + 1] == After(states[n - 1], moves[n - 1]);
    if j < n - 1 {
      EventStays(states, moves, n - 1, id, j);
    }
  }

  // ------------------------------------------------------------ held until decided

  /** Obligations were captured in step k. */
  predicate CapturedAt(states: seq<Close>, moves: seq<Move>, k: nat)
    requires k < |moves| && k < |states|
  {
    moves[k].Capture? && Step(states[k], moves[k]).Ok?
  }

  lemma {:induction false} CarriedStays(states: seq<Close>, moves: seq<Move>, k: nat, n: nat, c: Counter)
    requires IsWork(states, moves) && k < n < |states| && CapturedAt(states, moves, k) && c in Carried(moves[k].sources)
    ensures c.id.Derived? && Has(states[n].counters, c.id)
  {
    var carried := Carried(moves[k].sources);
    var i :| 0 <= i < |carried| && carried[i] == c;
    assert Traced(carried[i]);
    CaptureBrings(states[k].counters, carried, c);
    assert states[k + 1] == After(states[k], moves[k]);
    WordingStays(states, moves, c.id, k + 1, n);
  }

  lemma {:induction false} ResidualMeans(record: Close, sources: seq<Close>, id: CounterId)
    requires Has(Carried(sources), id)
    ensures id in Residual(record, sources) <==> !Settles(record, Get(Carried(sources), id).value)
  {
    var carried := Carried(sources);
    assert Get(carried, id).Some?;
    var c :| c in carried && c.id == id;
  }

  lemma {:induction false} BlankIsEmpty(s: string)
    ensures s == "" ==> IsBlank(s)
  {
  }

  /** The record words the obligation as the latest source does. */
  predicate WordedAlike(record: Close, original: Counter)
  {
    var current := Get(record.counters, original.id);
    current.Some? && SameObligation(current.value, original)
  }

  /** The latest decision on the counter was taken by somebody named, at a time on record; a reason it always has. */
  ghost predicate DecidedWithEvidence(states: seq<Close>, moves: seq<Move>, id: CounterId, n: nat)
    requires n <= |moves| && |states| == |moves| + 1
  {
    exists j: nat :: LatestDecision(states, moves, id, n, j) && moves[j].actor != "" && moves[j].at != ""
  }

  /** The ledger has the line the evaluation asks for. */
  predicate LedgerTells(record: Close, id: CounterId)
  {
    var current := Get(record.counters, id);
    current.Some? && Recorded(record.events, id, current.value.decision)
  }

  lemma {:induction false} SettledWasDecided(states: seq<Close>, moves: seq<Move>, n: nat, original: Counter)
    requires IsWork(states, moves) && states[0].events == [] && n < |states| && original.id.Derived?
    requires original.decision.Pending? && Settles(states[n], original)
    ensures DecidedWithEvidence(states, moves, original.id, n) && LedgerTells(states[n], original.id)
  {
    var id := original.id;
    var decision := Get(states[n].counters, id).value.decision;
    var i := EventIsTold(states, moves, n, Decided(id, decision.Accepted?, decision.actor, decision.at));
    var j := SomeLatest(states, moves, id, n, i);
    DecisionStands(states, moves, id, n, j);
  }

  lemma {:induction false} DecidedSettles(states: seq<Close>, moves: seq<Move>, n: nat, original: Counter)
    requires IsWork(states, moves) && n < |states| && original.id.Derived?
    requires WordedAlike(states[n], original) && DecidedWithEvidence(states, moves, original.id, n)
    ensures Settles(states[n], original)
  {
    var id := original.id;
    var j: nat :| LatestDecision(states, moves, id, n, j) && moves[j].actor != "" && moves[j].at != "";
    DecisionStands(states, moves, id, n, j);
    EventStays(states, moves, n, id, j);
    BlankIsEmpty(moves[j].reason);
  }

  /**
  An obligation that was pending in the latest source holds the attempt from the capture on, through every
  run of moves, exactly until somebody named decides it, at a time on record: from then on the ledger line the
  evaluation asks for is there, and the obligation no longer holds, provided the record words it alike.
  */
  lemma {:induction false} HeldUntilDecided(
    states: seq<Close>, moves: seq<Move>, k: nat, n: nat, original: Counter)
    requires IsWork(states, moves) && states[0].events == [] && k < n < |states| && CapturedAt(states, moves, k)
    requires Get(Carried(moves[k].sources), original.id) == Some(original) && original.decision.Pending?
    ensures original.id !in Residual(states[n], moves[k].sources) <==>
      WordedAlike(states[n], original) && DecidedWithEvidence(states, moves, original.id, n)
    ensures original.id !in Residual(states[n], moves[k].sources) ==> LedgerTells(states[n], original.id)
  {
    CarriedStays(states, moves, k, n, original);
    ResidualMeans(states[n], moves[k].sources, original.id);
    if Settles(states[n], original) {
      SettledWasDecided(states, moves, n, original);
    } else if WordedAlike(states[n], original) && DecidedWithEvidence(states, moves, original.id, n) {
      DecidedSettles(states, moves, n, original);
    }
  }

  lemma {:induction false} CapturedAlike(
    states: seq<Close>, moves: seq<Move>, k: nat, n: nat, original: Counter)
    requires IsWork(states, moves) && k < n < |states| && CapturedAt(states, moves, k)
    requires Get(Carried(moves[k].sources), original.id) == Some(original) && Get(states[k].counters, original.id).None?
    ensures WordedAlike(states[n], original)
  {
    var carried := Carried(moves[k].sources);
    CarriedStays(states, moves, k, k + 1, original);
    OnlyLatest(carried, original.id, original);
    var entry := EntryComes(states[k].counters, Latest(carried), |carried|, original.id, original);
    assert IsCaptured(states[k].counters, Latest(carried), |carried|, CaptureAll(states[k].counters, carried));
    assert states[k + 1] == After(states[k], moves[k]);
    WordingStays(states, moves, original.id, k + 1, n);
  }

  /** For a record that did not have the counter before, the decision alone counts. */
  lemma {:induction false} CapturedHoldsUntilDecided(
    states: seq<Close>, moves: seq<Move>, k: nat, n: nat, original: Counter)
    requires IsWork(states, moves) && states[0].events == [] && k < n < |states| && CapturedAt(states, moves, k)
    requires Get(Carried(moves[k].sources), original.id) == Some(original) && original.decision.Pending?
    requires Get(states[k].counters, original.id).None?
    ensures original.id in Residual(states[n], moves[k].sources) <==> !DecidedWithEvidence(states, moves, original.id, n)
  {
    HeldUntilDecided(states, moves, k, n, original);
    CapturedAlike(states, moves, k, n, original);
  }

  // ------------------------------------------------------------ attempts and their sources

  /**
  A record an attempt can come to: begun with no counters, or as a clone of an earlier outcome, and worked
  on with earlier outcomes as sources. The rank counts how many outcomes stand behind one another.
  */
  ghost predicate Produced(c: Close, rank: nat)
    decreases rank, 2
  {
    exists states, moves :: IsAttempt(states, moves, rank) && c == states[|moves|]
  }

  ghost predicate Starts(s: Close, rank: nat)
    decreases rank, 0
  {
    && s.events == [] && !s.frozen && !s.published
    && (s.counters == [] || (rank > 0 && exists parent :: Produced(parent, rank - 1) && s.counters == parent.counters))
  }

  ghost predicate IsAttempt(states: seq<Close>, moves: seq<Move>, rank: nat)
    decreases rank, 1
  {
    && IsWork(states, moves) && Starts(states[0], rank)
    && forall i :: 0 <= i < |moves| && moves[i].Capture? ==>
         forall j :: 0 <= j < |moves[i].sources| ==> rank > 0 && Produced(moves[i].sources[j], rank - 1)
  }

  lemma {:induction false} CaptureSound(counters: seq<Counter>, latest: seq<Counter>, n: nat)
    requires AllSound(counters) && AllTraced(latest) && n <= |latest|
    ensures AllSound(CaptureUpTo(counters, latest, n))
  {
    if n > 0 {
      CaptureSound(counters, latest, n - 1);
      assert Traced(latest[n - 1]);
    }
  }

  lemma {:induction false} StepSound(r: Close, m: Move)
    requires AllSound(r.counters)
    ensures AllSound(After(r, m).counters)
  {
    if Step(r, m).Ok? {
      match m
      case Capture(sources) => CaptureSound(r.counters, Latest(Carried(sources)), |Carried(sources)|);
      case Decide(_, _, _, _, _, _) =>
        forall c | c in RuledAll(r.counters, m) ensures Sound(c) {
          var i :| 0 <= i < |r.counters| && RuledAll(r.counters, m)[i] == c;
          assert r.counters[i] in r.counters;
        }
      case _ =>
    }
  }

  lemma {:induction false} AttemptSound(states: seq<Close>, moves: seq<Move>, rank: nat, n: nat)
    requires IsAttempt(states, moves, rank) && n < |states|
    ensures AllSound(states[n].counters)
    decreases rank, 0, n
  {
    if n == 0 {
      if states[0].counters != [] {
        var parent :| Produced(parent, rank - 1) && states[0].counters == parent.counters;
        ProducedIsSound(parent, rank - 1);
      }
    } else {
      AttemptSound(states, moves, rank, n - 1);
      StepSound(states[n - 1], moves[n - 1]);
      assert states[n - 1 + 1] == After(states[n - 1], moves[n - 1]);
    }
  }

  /** Identity and origin agree on every counter of every outcome. */
  lemma {:induction false} ProducedIsSound(c: Close, rank: nat)
    requires Produced(c, rank)
    ensures AllSound(c.counters)
    decreases rank, 1, 0
  {
    var states, moves :| IsAttempt(states, moves, rank) && c == states[|moves|];
    AttemptSound(states, moves, rank, |moves|);
  }

  /** So a capture is never refused for its sources. */
  lemma {:induction false} SourcesAreTraced(states: seq<Close>, moves: seq<Move>, rank: nat, k: nat)
    requires IsAttempt(states, moves, rank) && k < |moves| && moves[k].Capture?
    ensures AllTraced(Carried(moves[k].sources)) && Step(states[k], moves[k]) != Refused(Untraced)
  {
    forall j | 0 <= j < |moves[k].sources| ensures AllSound(moves[k].sources[j].counters) {
      ProducedIsSound(moves[k].sources[j], rank - 1);
    }
    CarriedTraced(moves[k].sources);
  }

  // ------------------------------------------------------------ any number of recoveries

  /** One attempt of a chain: it captured in step `captured`. */
  datatype Attempt = Attempt(states: seq<Close>, moves: seq<Move>, captured: nat, rank: nat)

  function Outcome(a: Attempt): Close
    requires |a.states| == |a.moves| + 1
  {
    a.states[|a.moves|]
  }

  /** Each attempt captured the outcome of the one before, among any other sources. */
  ghost predicate IsRecoveryChain(chain: seq<Attempt>)
  {
    && (forall i :: 0 <= i < |chain| ==> IsAttempt(chain[i].states, chain[i].moves, chain[i].rank))
    && forall i :: 1 <= i < |chain| ==>
         && chain[i].captured < |chain[i].moves| && CapturedAt(chain[i].states, chain[i].moves, chain[i].captured)
         && Outcome(chain[i - 1]) in chain[i].moves[chain[i].captured].sources
  }

  lemma {:induction false} OneRecovery(chain: seq<Attempt>, i: nat, c: Counter, n: nat)
    requires IsRecoveryChain(chain) && 1 <= i < |chain| && c in ReviewObligations(Outcome(chain[i - 1]))
    requires chain[i].captured < n < |chain[i].states|
    ensures Has(chain[i].states[n].counters, c.id)
  {
    var a := chain[i];
    var sources := a.moves[a.captured].sources;
    var j :| 0 <= j < |sources| && sources[j] == Outcome(chain[i - 1]);
    CarriedMembers(sources, c);
    CarriedStays(a.states, a.moves, a.captured, n, c);
  }

  lemma {:induction false} StillReviewed(a: Attempt, id: CounterId) returns (d: Counter)
    requires IsAttempt(a.states, a.moves, a.rank) && Has(Outcome(a).counters, id) && id.Derived?
    ensures d in ReviewObligations(Outcome(a)) && d.id == id
  {
    var last := Outcome(a);
    AttemptSound(a.states, a.moves, a.rank, |a.moves|);
    var e :| e in last.counters && e.id == id;
    var i :| 0 <= i < |last.counters| && last.counters[i] == e;
    ReviewTraced(last);
    assert Sound(e);
    d := Normalize(last.attempt, e);
  }

  /** An obligation keeps its identity and its place, at every moment after each capture, through any number of recoveries. */
  lemma {:induction false} IdentitySurvivesRecoveries(chain: seq<Attempt>, c: Counter, i: nat, n: nat)
    requires IsRecoveryChain(chain) && 1 <= i < |chain| && c in ReviewObligations(Outcome(chain[0]))
    requires chain[i].captured < n < |chain[i].states|
    ensures Has(chain[i].states[n].counters, c.id)
    ensures exists d :: d in ReviewObligations(Outcome(chain[i])) && d.id == c.id
    decreases i
  {
    if i == 1 {
      OneRecovery(chain, 1, c, n);
      OneRecovery(chain, 1, c, |chain[1].moves|);
    } else {
      IdentitySurvivesRecoveries(chain, c, i - 1, |chain[i - 1].moves|);
      var b :| b in ReviewObligations(Outcome(chain[i - 1])) && b.id == c.id;
      OneRecovery(chain, i, b, n);
      OneRecovery(chain, i, b, |chain[i].moves|);
    }
    FirstIsDerived(chain, c);
    var d := StillReviewed(chain[i], c.id);
  }

  lemma {:induction false} FirstIsDerived(chain: seq<Attempt>, c: Counter)
    requires IsRecoveryChain(chain) && chain != [] && c in ReviewObligations(Outcome(chain[0]))
    ensures c.id.Derived?
  {
    var a := chain[0];
    AttemptSound(a.states, a.moves, a.rank, |a.moves|);
    ReviewTraced(Outcome(a));
    var review := ReviewObligations(Outcome(a));
    var i :| 0 <= i < |review| && review[i] == c;
    assert Traced(review[i]);
  }
}
