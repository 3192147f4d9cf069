/**
Which obligations a close carries, field by field (src/agenttalk/acceptance_obligations.py, `_review_obligations`), and
what becomes of each of them in the record that captures them.
*/
module AcceptanceReview {
  import opened Wrappers
  import opened PythonText
  import opened AcceptanceObligations
  import opened AcceptanceRecovery

  // ------------------------------------------------------------ the obligations of one close

  /** Codes whose evidence is evaluated anew in every attempt. */
  predicate HasResolver(code: string)
  {
    || code == "acceptance_row_failed" || code == "acceptance_category_moved_unreviewed"
    || code == "acceptance_scope_reduction_unapproved" || code == "acceptance_plan_stale"
    || code == "acceptance_residual_open" || code == "undecided_counter" || code == "accepted_counter_missing_remediation"
    || code == "open_blocker_remediation" || code == "gate_hold"
    || code == "acceptance_cold_missing" || code == "acceptance_lens_not_independent"
    || code == "acceptance_trust_unresolved" || code == "missing_lens" || code == "stale_lens_ack"
    || code == "unauthorized_lens_ack"
  }

  predicate IsPending(d: Counter, attempt: nat, kind: Kind, id: string, finding: string, actor: string)
  {
    && d.id == Derived(Origin(attempt, kind, id)) && d.origin == Some(Origin(attempt, kind, id))
    && d.finding == finding && d.raisedBy == actor && d.decision == Pending && d.remediation == None
  }

  /** d is counter c of the close: itself if it has an origin, otherwise with one made from its name. */
  predicate IsCarriedOn(d: Counter, attempt: nat, c: Counter)
  {
    && d.finding == c.finding && d.raisedBy == c.raisedBy && d.decision == c.decision && d.remediation == c.remediation
    && if c.origin.Some? then d.id == c.id && d.origin == c.origin
       else
         && d.origin.Some? && d.id == Derived(d.origin.value)
         && d.origin.value.attempt == attempt && d.origin.value.kind == FromCounter
         && (c.id.Native? ==> d.origin.value.id == c.id.name)
         && (c.id.Derived? ==> d.origin.value.id == c.id.origin.id)
  }

  /** Hold i becomes an obligation: no resolver, or the first residual hold of a close that has nothing else to carry. */
  predicate HoldCounts(c: Close, i: nat)
    requires i < |c.holds|
  {
    || !HasResolver(c.holds[i].code)
    || (c.holds[i].code == "acceptance_residual_open" && c.counters == [] && c.unresolved == [] && c.failures == []
        && forall k :: 0 <= k < i ==> HasResolver(c.holds[k].code) && c.holds[k].code != "acceptance_residual_open")
  }

  predicate FromItsCounters(c: Close, d: Counter)
  {
    exists i :: 0 <= i < |c.counters| && IsCarriedOn(d, c.attempt, c.counters[i])
  }

  predicate FromItsColdReview(c: Close, d: Counter)
  {
    exists o :: o in c.unresolved && IsPending(d, c.attempt, FromCold, o.id, o.text, o.actor)
  }

  predicate FromItsExecution(c: Close, d: Counter)
  {
    exists o :: o in c.failures && IsPending(d, c.attempt, FromExecution, o.id, o.text, o.actor)
  }

  predicate FromItsHolds(c: Close, d: Counter)
  {
    exists i :: 0 <= i < |c.holds| && HoldCounts(c, i)
      && IsPending(d, c.attempt, FromHold, c.holds[i].code + ":" + c.holds[i].detail, c.holds[i].detail, c.finalBy)
  }

  lemma {:induction false} ResolversAreNamed(code: string)
    ensures code in RECOMPUTED <==> HasResolver(code)
  {
  }

  /** Hold i is carried, given what was there before the holds. */
  predicate Raises(result: seq<Counter>, holds: seq<Hold>, i: nat)
    requires i < |holds|
  {
    || !HasResolver(holds[i].code)
    || (holds[i].code == "acceptance_residual_open" && result == []
        && forall k :: 0 <= k < i ==> HasResolver(holds[k].code) && holds[k].code != "acceptance_residual_open")
  }

  predicate RaisedFrom(attempt: nat, result: seq<Counter>, holds: seq<Hold>, finalBy: string, d: Counter)
  {
    exists i :: 0 <= i < |holds| && Raises(result, holds, i)
      && IsPending(d, attempt, FromHold, holds[i].code + ":" + holds[i].detail, holds[i].detail, finalBy)
  }

  lemma {:induction false} RaisesLater(result: seq<Counter>, longer: seq<Counter>, holds: seq<Hold>, i: nat)
    requires 0 < i < |holds|
    requires longer == result || (longer != [] && (result != [] || Raises(result, holds, 0)))
    requires Raises(result, holds, 0) ==> longer != []
    requires longer == result ==> !Raises(result, holds, 0)
    ensures Raises(result, holds, i) <==> Raises(longer, holds[1..], i - 1)
  {
    assert holds[1..][i - 1] == holds[i];
    if longer == result && result == [] {
      assert HasResolver(holds[0].code) && holds[0].code != "acceptance_residual_open";
      assert forall k :: 0 <= k < i - 1 ==> holds[1..][k] == holds[k + 1];
      assert forall k :: 1 <= k < i ==> holds[k] == holds[1..][k - 1];
    }
  }

  lemma {:induction false} RaisedSplits(
    attempt: nat, result: seq<Counter>, longer: seq<Counter>, holds: seq<Hold>, finalBy: string, d: Counter)
    requires holds != []
    requires longer == if Raises(result, holds, 0)
      then result + [Raise(attempt, FromHold, holds[0].code + ":" + holds[0].detail, holds[0].detail, finalBy)] else result
    ensures d in longer || RaisedFrom(attempt, longer, holds[1..], finalBy, d)
            <==> d in result || RaisedFrom(attempt, result, holds, finalBy, d)
  {
    if RaisedFrom(attempt, longer, holds[1..], finalBy, d) {
      var i :| 0 <= i < |holds[1..]| && Raises(longer, holds[1..], i)
        && IsPending(d, attempt, FromHold, holds[1..][i].code + ":" + holds[1..][i].detail, holds[1..][i].detail, finalBy);
      RaisesLater(result, longer, holds, i + 1);
      assert holds[i + 1] == holds[1..][i];
    }
    if RaisedFrom(attempt, result, holds, finalBy, d) {
      var i :| 0 <= i < |holds| && Raises(result, holds, i)
        && IsPending(d, attempt, FromHold, holds[i].code + ":" + holds[i].detail, holds[i].detail, finalBy);
      if i > 0 {
        RaisesLater(result, longer, holds, i);
        assert holds[i] == holds[1..][i - 1];
      }
    }
  }

  lemma {:induction false} RaisedExactly(attempt: nat, result: seq<Counter>, holds: seq<Hold>, finalBy: string, d: Counter)
    ensures d in RaiseHolds(attempt, result, holds, finalBy) <==> d in result || RaisedFrom(attempt, result, holds, finalBy, d)
    decreases |holds|
  {
    if holds != [] {
      var h := holds[0];
      ResolversAreNamed(h.code);
      var longer := if Raises(result, holds, 0)
        then result + [Raise(attempt, FromHold, h.code + ":" + h.detail, h.detail, finalBy)] else result;
      RaisedExactly(attempt, longer, holds[1..], finalBy, d);
      RaisedSplits(attempt, result, longer, holds, finalBy, d);
    }
  }

  lemma {:induction false} NormalizedExactly(attempt: nat, cs: seq<Counter>, d: Counter)
    ensures d in NormalizeAll(attempt, cs) <==> exists i :: 0 <= i < |cs| && IsCarriedOn(d, attempt, cs[i])
  {
    forall i | 0 <= i < |cs| ensures IsCarriedOn(d, attempt, cs[i]) <==> d == NormalizeAll(attempt, cs)[i] {
    }
  }

  lemma {:induction false} RaiseAllExactly(attempt: nat, kind: Kind, findings: seq<Finding>, d: Counter)
    ensures d in RaiseAll(attempt, kind, findings) <==>
      exists o :: o in findings && IsPending(d, attempt, kind, o.id, o.text, o.actor)
  {
    forall i | 0 <= i < |findings|
      ensures IsPending(d, attempt, kind, findings[i].id, findings[i].text, findings[i].actor) <==>
        d == RaiseAll(attempt, kind, findings)[i]
    {
    }
    if exists o :: o in findings && IsPending(d, attempt, kind, o.id, o.text, o.actor) {
      var o :| o in findings && IsPending(d, attempt, kind, o.id, o.text, o.actor);
      var i :| 0 <= i < |findings| && findings[i] == o;
      assert d == RaiseAll(attempt, kind, findings)[i];
    }
    if d in RaiseAll(attempt, kind, findings) {
      var i :| 0 <= i < |findings| && RaiseAll(attempt, kind, findings)[i] == d;
      assert findings[i] in findings;
    }
  }

  /**
  A close carries its own counters, each of its unresolved cold observations and each of its execution failures as a
  pending counter named after its origin, and its holds that have no resolver: these, and nothing else.
  */
  lemma {:induction false} ReviewIsExactly(c: Close, d: Counter)
    ensures d in ReviewObligations(c) <==>
      FromItsCounters(c, d) || FromItsColdReview(c, d) || FromItsExecution(c, d) || FromItsHolds(c, d)
  {
    var counters := NormalizeAll(c.attempt, c.counters);
    var cold, execution := RaiseAll(c.attempt, FromCold, c.unresolved), RaiseAll(c.attempt, FromExecution, c.failures);
    var first := counters + cold + execution;
    NormalizedExactly(c.attempt, c.counters, d);
    RaiseAllExactly(c.attempt, FromCold, c.unresolved, d);
    RaiseAllExactly(c.attempt, FromExecution, c.failures, d);
    RaisedExactly(c.attempt, first, c.holds, c.finalBy, d);
    assert d in first <==> d in counters || d in cold || d in execution;
    assert first == [] <==> c.counters == [] && c.unresolved == [] && c.failures == [];
    assert forall i :: 0 <= i < |c.holds| ==> Raises(first, c.holds, i) == HoldCounts(c, i);
    assert RaisedFrom(c.attempt, first, c.holds, c.finalBy, d) <==> FromItsHolds(c, d);
  }

  // ------------------------------------------------------------ what the capture makes of them

  lemma {:induction false} GetAppendAll(cs: seq<Counter>, more: seq<Counter>, id: CounterId)
    ensures Get(cs + more, id) == if Has(more, id) then Get(more, id) else Get(cs, id)
  {
    if more == [] {
      assert cs + more == cs;
    } else {
      var front, last := more[..|more| - 1], more[|more| - 1];
      GetAppendAll(cs, front, id);
      assert cs + more == (cs + front) + [last] && more == front + [last];
      GetAppend(cs + front, last, id);
      GetAppend(front, last, id);
    }
  }

  lemma {:induction false} CarriedSplits(front: seq<Close>, last: Close)
    ensures Carried(front + [last]) == Carried(front) + ReviewObligations(last)
  {
    assert (front + [last])[..|front|] == front;
  }

  predicate SpeaksFor(sources: seq<Close>, id: CounterId, i: nat)
  {
    i < |sources| && Has(ReviewObligations(sources[i]), id)
  }

  predicate IsLastToSpeak(sources: seq<Close>, id: CounterId, i: nat)
  {
    SpeaksFor(sources, id, i) && forall j :: i < j < |sources| ==> !SpeaksFor(sources, id, j)
  }

  predicate Speaks(sources: seq<Close>, carried: seq<Counter>, id: CounterId, i: nat)
  {
    IsLastToSpeak(sources, id, i) && Get(carried, id) == Get(ReviewObligations(sources[i]), id)
  }

  lemma {:induction false} SpeaksItself(
    front: seq<Close>, last: Close, carried: seq<Counter>, review: seq<Counter>, id: CounterId)
    requires review == ReviewObligations(last) && Has(review, id)
    ensures Speaks(front + [last], carried + review, id, |front|)
  {
    GetAppendAll(carried, review, id);
  }

  lemma {:induction false} SpeaksStill(
    front: seq<Close>, last: Close, carried: seq<Counter>, review: seq<Counter>, id: CounterId, i: nat)
    requires Speaks(front, carried, id, i) && review == ReviewObligations(last) && !Has(review, id)
    ensures Speaks(front + [last], carried + review, id, i)
  {
    GetAppendAll(carried, review, id);
    forall j | i < j < |front + [last]| ensures !SpeaksFor(front + [last], id, j) {
      assert j < |front| ==> !SpeaksFor(front, id, j);
    }
  }

  /** What is carried under an identity: the latest source that has it speaks for it. */
  lemma {:induction false} LatestSourceSpeaks(sources: seq<Close>, id: CounterId) returns (i: nat)
    requires Has(Carried(sources), id)
    ensures Speaks(sources, Carried(sources), id, i)
    decreases |sources|
  {
    var front, last := sources[..|sources| - 1], sources[|sources| - 1];
    var carried, review := Carried(front), ReviewObligations(last);
    assert sources == front + [last];
    CarriedSplits(front, last);
    if Has(review, id) {
      SpeaksItself(front, last, carried, review, id);
      i := |front|;
    } else {
      GetAppendAll(carried, review, id);
      i := LatestSourceSpeaks(front, id);
      SpeaksStill(front, last, carried, review, id, i);
    }
  }

  lemma {:induction false} MemberIsHad(cs: seq<Counter>, c: Counter)
    requires c in cs
    ensures Has(cs, c.id)
  {
    var i :| 0 <= i < |cs| && cs[i] == c;
    HasMember(cs, i);
  }

  /** A carried counter of this name and wording: the native counter is its clone. */
  predicate HasOriginal(latest: seq<Counter>, n: nat, native: Counter)
    requires n <= |latest|
  {
    exists i :: 0 <= i < n && latest[i].origin.Some? && latest[i].origin.value.kind == FromCounter
      && native.id == Native(latest[i].origin.value.id) && latest[i].finding == native.finding
  }

  lemma {:induction false} WithoutHasNot(cs: seq<Counter>, id: CounterId)
    ensures Get(Without(cs, id), id) == None
  {
  }

  lemma {:induction false} NativeOne(counters: seq<Counter>, c: Counter, name: string)
    requires Traced(c)
    ensures Get(CaptureOne(counters, c), Native(name)) ==
      if c.origin.value.id == name && IsClone(Get(counters, Native(name)), c) then None else Get(counters, Native(name))
  {
    var native := Native(c.origin.value.id);
    var kept := if IsClone(Get(counters, native), c) then Without(counters, native) else counters;
    if c.origin.value.id != name {
      GetWithout(counters, native, Native(name));
    } else {
      WithoutHasNot(counters, native);
    }
    GetAppend(kept, c, Native(name));
  }

  /** What is left of the native counter `found` after the first n captures. */
  function Left(latest: seq<Counter>, n: nat, found: Option<Counter>): Option<Counter>
    requires n <= |latest|
  {
    if found.Some? && HasOriginal(latest, n, found.value) then None else found
  }

  lemma {:induction false} LeftNext(latest: seq<Counter>, n: nat, found: Option<Counter>, name: string)
    requires n < |latest| && Traced(latest[n]) && (found.Some? ==> found.value.id == Native(name))
    ensures Left(latest, n + 1, found) ==
      if latest[n].origin.value.id == name && IsClone(Left(latest, n, found), latest[n]) then None else Left(latest, n, found)
  {
    if found.Some? {
      var native := found.value;
      assert HasOriginal(latest, n, native) ==> HasOriginal(latest, n + 1, native);
      if latest[n].origin.value.id == name && IsClone(found, latest[n]) {
        assert HasOriginal(latest, n + 1, native);
      }
    }
  }

  lemma {:induction false} NativeNext(
    before: seq<Counter>, latest: seq<Counter>, n: nat, name: string, found: Option<Counter>)
    requires n < |latest| && Traced(latest[n]) && (found.Some? ==> found.value.id == Native(name))
    requires Get(before, Native(name)) == Left(latest, n, found)
    ensures Get(CaptureOne(before, latest[n]), Native(name)) == Left(latest, n + 1, found)
  {
    NativeOne(before, latest[n], name);
    LeftNext(latest, n, found, name);
  }

  lemma {:induction false} NativeReadsNext(
    counters: seq<Counter>, latest: seq<Counter>, n: nat, name: string, found: Option<Counter>)
    requires AllTraced(latest) && n < |latest| && (found.Some? ==> found.value.id == Native(name))
    requires Reads(counters, latest, n, Native(name), Left(latest, n, found))
    ensures Reads(counters, latest, n + 1, Native(name), Left(latest, n + 1, found))
  {
    assert Traced(latest[n]) && IsCaptured(counters, latest, n, CaptureUpTo(counters, latest, n));
    NativeNext(CaptureUpTo(counters, latest, n), latest, n, name, found);
  }

  /** A native counter leaves the record if and only if an original of the same name and wording arrives. */
  lemma {:induction false} ClonesGiveWayExactly(
    counters: seq<Counter>, latest: seq<Counter>, n: nat, name: string, found: Option<Counter>)
    requires AllTraced(latest) && n <= |latest| && (found.Some? ==> found.value.id == Native(name))
    requires Reads(counters, latest, 0, Native(name), found)
    ensures Reads(counters, latest, n, Native(name), Left(latest, n, found))
    decreases n
  {
    if n > 0 {
      ClonesGiveWayExactly(counters, latest, n - 1, name, found);
      NativeReadsNext(counters, latest, n - 1, name, found);
    }
  }

  predicate Comes(latest: seq<Counter>, n: nat, id: CounterId)
    requires n <= |latest|
  {
    exists i :: 0 <= i < n && latest[i].id == id
  }

  function Entered(found: Option<Counter>, latest: seq<Counter>, n: nat, id: CounterId, c: Counter): Option<Counter>
    requires n <= |latest|
  {
    if found.Some? then found else if Comes(latest, n, id) then Some(c) else None
  }

  lemma {:induction false} EnteredNext(found: Option<Counter>, latest: seq<Counter>, n: nat, id: CounterId, c: Counter)
    requires n < |latest| && Only(latest, id, c)
    ensures Entered(found, latest, n + 1, id, c) == Enters(Entered(found, latest, n, id, c), latest[n], id)
  {
    assert Comes(latest, n, id) ==> Comes(latest, n + 1, id);
    assert latest[n].id == id ==> Comes(latest, n + 1, id);
  }

  lemma {:induction false} EntersUpTo(counters: seq<Counter>, latest: seq<Counter>, n: nat, id: CounterId, c: Counter)
    requires AllTraced(latest) && n <= |latest| && id.Derived? && Only(latest, id, c)
    ensures Reads(counters, latest, n, id, Entered(Get(counters, id), latest, n, id, c))
  {
    if n > 0 {
      EntersUpTo(counters, latest, n - 1, id, c);
      ReadsNext(counters, latest, n - 1, id, Entered(Get(counters, id), latest, n - 1, id, c));
      EnteredNext(Get(counters, id), latest, n - 1, id, c);
    }
  }

  /**
  The record after the capture, identity by identity: its own entry where it has one, otherwise what the latest source
  says; and its native counters, except those an original of the same name and wording replaces.
  */
  lemma {:induction false} CaptureIsExactly(counters: seq<Counter>, carried: seq<Counter>, id: CounterId)
    requires AllTraced(carried)
    ensures id.Derived? ==>
      Get(CaptureAll(counters, carried), id) == if Has(counters, id) then Get(counters, id) else Get(carried, id)
    ensures id.Native? ==>
      Get(CaptureAll(counters, carried), id) ==
        if Has(counters, id) && HasOriginal(Latest(carried), |carried|, Get(counters, id).value) then None
        else Get(counters, id)
  {
    assert IsCaptured(counters, Latest(carried), |carried|, CaptureAll(counters, carried));
    match id
    case Native(name) => ClonesGiveWayExactly(counters, Latest(carried), |carried|, name, Get(counters, id));
    case Derived(_) =>
      var latest := Latest(carried);
      if Has(carried, id) {
        var c := Get(carried, id).value;
        OnlyLatest(carried, id, c);
        EntersUpTo(counters, latest, |latest|, id, c);
        var i :| 0 <= i < |carried| && carried[i] == c;
        assert latest[i].id == id;
        assert Comes(latest, |latest|, id);
      } else {
        forall i | 0 <= i < |latest| ensures latest[i].id != id {
          HasMember(carried, i);
        }
        EntersUpTo(counters, latest, |latest|, id, Raise(0, FromHold, "", "", ""));
      }
  }

  // ------------------------------------------------------------ from the close to the new attempt

  /** One of the things the close leaves open: an observation, a refusal, a hold without a resolver, or its own counter. */
  predicate LeavesOpen(c: Close, kind: Kind, id: string)
  {
    match kind
    case FromCold => exists o :: o in c.unresolved && o.id == id
    case FromExecution => exists o :: o in c.failures && o.id == id
    case FromHold => exists h :: h in c.holds && !HasResolver(h.code) && id == h.code + ":" + h.detail
    case FromCounter => exists d :: d in c.counters && d.origin.None? && d.id == Native(id)
  }

  lemma {:induction false} OpenIsCarried(c: Close, kind: Kind, id: string) returns (d: Counter)
    requires LeavesOpen(c, kind, id)
    ensures d in ReviewObligations(c) && d.id == Derived(Origin(c.attempt, kind, id))
  {
    match kind
    case FromCold =>
      var o :| o in c.unresolved && o.id == id;
      d := Raise(c.attempt, FromCold, id, o.text, o.actor);
      assert IsPending(d, c.attempt, FromCold, o.id, o.text, o.actor) && FromItsColdReview(c, d);
      ReviewIsExactly(c, d);
    case FromExecution =>
      var o :| o in c.failures && o.id == id;
      d := Raise(c.attempt, FromExecution, id, o.text, o.actor);
      assert IsPending(d, c.attempt, FromExecution, o.id, o.text, o.actor) && FromItsExecution(c, d);
      ReviewIsExactly(c, d);
    case FromHold =>
      var h :| h in c.holds && !HasResolver(h.code) && id == h.code + ":" + h.detail;
      var i :| 0 <= i < |c.holds| && c.holds[i] == h;
      d := Raise(c.attempt, FromHold, id, h.detail, c.finalBy);
      assert HoldCounts(c, i) && FromItsHolds(c, d);
      ReviewIsExactly(c, d);
    case FromCounter =>
      var b :| b in c.counters && b.origin.None? && b.id == Native(id);
      var i :| 0 <= i < |c.counters| && c.counters[i] == b;
      d := Normalize(c.attempt, b);
      assert IsCarriedOn(d, c.attempt, c.counters[i]) && FromItsCounters(c, d);
      ReviewIsExactly(c, d);
  }

  /** Whatever a reachable source leaves open is in the new attempt under its own identity. */
  lemma {:induction false} OpenMattersArrive(
    g: Graph, start: seq<Digest>, digests: seq<Digest>, closes: map<Digest, Close>, record: Close, d: Digest,
    kind: Kind, id: string)
    requires ListsReachable(g, start, digests) && Reaches(g, start, d)
    requires forall e :: e in digests ==> e in closes && AllSound(closes[e].counters)
    requires d in closes && LeavesOpen(closes[d], kind, id)
    ensures var carried := Carried(ClosesOf(digests, closes));
      AllTraced(carried) && Has(CaptureAll(record.counters, carried), Derived(Origin(closes[d].attempt, kind, id)))
  {
    var c := OpenIsCarried(closes[d], kind, id);
    ReachableObligationsArrive(g, start, digests, closes, record, d, c);
  }

  /** No source has the obligation among its counters yet, so nobody can have decided it. */
  predicate NobodyCarries(sources: seq<Close>, id: CounterId)
  {
    forall j :: 0 <= j < |sources| ==> forall d :: d in sources[j].counters ==> d.id != id
  }

  lemma {:induction false} FirstCarriedIsPending(c: Close, d: Counter)
    requires d in ReviewObligations(c) && AllSound(c.counters) && d.origin.Some? && d.origin.value.kind != FromCounter
    requires forall b :: b in c.counters ==> b.id != d.id
    ensures d.decision == Pending
  {
    ReviewIsExactly(c, d);
    forall i | 0 <= i < |c.counters| ensures !IsCarriedOn(d, c.attempt, c.counters[i]) {
      assert c.counters[i] in c.counters;
    }
  }

  /**
  A cold observation, an execution failure or a hold that is carried for the first time holds the new attempt, at every
  moment of every run after the capture, until somebody named decides it at a time on record.
  */
  lemma {:induction false} OpenMattersHold(
    states: seq<Close>, moves: seq<Move>, k: nat, n: nat, i: nat, kind: Kind, id: string)
    requires IsWork(states, moves) && states[0].events == [] && k < n < |states| && CapturedAt(states, moves, k)
    requires forall j :: 0 <= j < |moves[k].sources| ==> AllSound(moves[k].sources[j].counters)
    requires i < |moves[k].sources| && LeavesOpen(moves[k].sources[i], kind, id) && kind != FromCounter
    requires var key := Derived(Origin(moves[k].sources[i].attempt, kind, id));
      NobodyCarries(moves[k].sources, key) && Get(states[k].counters, key).None?
    ensures var key := Derived(Origin(moves[k].sources[i].attempt, kind, id));
      key in Residual(states[n], moves[k].sources) <==> !DecidedWithEvidence(states, moves, key, n)
  {
    var sources := moves[k].sources;
    var key := Derived(Origin(sources[i].attempt, kind, id));
    var c := OpenIsCarried(sources[i], kind, id);
    CarriedMembers(sources, c);
    MemberIsHad(Carried(sources), c);
    var original := Get(Carried(sources), key).value;
    CarriedMembers(sources, original);
    var j :| 0 <= j < |sources| && original in ReviewObligations(sources[j]);
    ReviewTraced(sources[j]);
    assert Traced(original);
    FirstCarriedIsPending(sources[j], original);
    CapturedHoldsUntilDecided(states, moves, k, n, original);
  }

  // ------------------------------------------------------------ what holds, field by field

  /** The entry words the obligation alike and states who decided what, when and why. */
  predicate StatesDecision(current: Counter, original: Counter, accepted: bool, actor: string, at: string, reason: string)
  {
    && current.finding == original.finding && current.raisedBy == original.raisedBy && current.origin == original.origin
    && actor != "" && at != "" && reason != ""
    && current.decision == if accepted then Accepted(actor, at, reason) else Rejected(actor, at, reason)
  }

  predicate Answered(record: Close, original: Counter, accepted: bool, actor: string, at: string, reason: string)
  {
    && Get(record.counters, original.id).Some?
    && var current := Get(record.counters, original.id).value;
    && StatesDecision(current, original, accepted, actor, at, reason)
    && ((current.decision == original.decision && current.remediation == original.remediation)
        || Decided(original.id, accepted, actor, at) in record.events)
  }

  /** An obligation stops holding exactly when it is answered: unchanged from its source, or with its line in the ledger. */
  lemma {:induction false} HoldsUnlessAnswered(record: Close, sources: seq<Close>, original: Counter)
    requires Get(Carried(sources), original.id) == Some(original)
    ensures original.id !in Residual(record, sources) <==>
      exists accepted, actor, at, reason :: Answered(record, original, accepted, actor, at, reason)
  {
    ResidualMeans(record, sources, original.id);
    if Settles(record, original) {
      var current := Get(record.counters, original.id).value;
      var d := current.decision;
      assert Answered(record, original, d.Accepted?, d.actor, d.at, d.reason);
    }
  }

  /** What the latest decision leaves in the record and in the ledger. */
  lemma {:induction false} DecisionIsWritten(states: seq<Close>, moves: seq<Move>, id: CounterId, n: nat, j: nat)
    requires IsWork(states, moves) && n < |states| && id.Derived? && LatestDecision(states, moves, id, n, j)
    ensures var current, m := Get(states[n].counters, id), moves[j];
      && current.Some? && m.reason != ""
      && current.value.decision == (if m.accepted then Accepted(m.actor, m.at, m.reason) else Rejected(m.actor, m.at, m.reason))
      && (m.accepted ==> m.remediation.Some? && current.value.remediation == m.remediation)
      && Decided(id, m.accepted, m.actor, m.at) in states[n].events
    decreases n
  {
    DecisionStands(states, moves, id, n, j);
    EventStays(states, moves, n, id, j);
    BlankIsEmpty(moves[j].reason);
    RemediationStands(states, moves, id, n, j);
  }

  lemma {:induction false} RemediationStands(states: seq<Close>, moves: seq<Move>, id: CounterId, n: nat, j: nat)
    requires IsWork(states, moves) && n < |states| && id.Derived? && LatestDecision(states, moves, id, n, j)
    ensures moves[j].accepted ==>
      Get(states[n].counters, id).Some? && Get(states[n].counters, id).value.remediation == moves[j].remediation
    decreases n
  {
    if j == n - 1 {
      GetRuled(states[j].counters, moves[j], id);
      assert states[j + 1] == After(states[j], moves[j]);
    } else {
      assert LatestDecision(states, moves, id, n - 1, j);
      RemediationStands(states, moves, id, n - 1, j);
      DecisionStands(states, moves, id, n - 1, j);
      assert !DecidedAt(states, moves, id, n - 1);
      EntryStays(states[n - 1], moves[n - 1], id);
      assert states[n - 1 + 1] == After(states[n - 1], moves[n - 1]);
    }
  }

  /** Which moves go through: nothing after publication but a first capture, no name twice, no decision without its grounds. */
  lemma {:induction false} MovesGoThroughExactly(r: Close, m: Move)
    ensures m.CounterAck? ==> (Step(r, m).Ok? <==> !r.published && m.name != "" && Get(r.counters, Native(m.name)) == None)
    ensures m.Decide? ==>
      (Step(r, m).Ok? <==>
         && !r.published && Get(r.counters, m.id).Some?
         && (exists i :: 0 <= i < |m.reason| && !IsSpace(m.reason[i])) && (m.accepted ==> m.remediation.Some?))
    ensures m.Report? || m.Publish? ==> (Step(r, m).Ok? <==> !r.published)
    ensures m.Capture? && Step(r, m).Ok? ==> !r.frozen && After(r, m).frozen
    ensures m.Capture? && r.frozen ==> Step(r, m) == Refused(IsFrozen)
    ensures Step(r, m).Refused? ==> After(r, m) == r
  {
  }

  /** What is reported, published and objected is what a successor will have to answer. */
  lemma {:induction false} MovesLeaveOpen(r: Close, m: Move)
    ensures m.Report? && !r.published ==>
      && (forall o :: o in m.unresolved ==> LeavesOpen(After(r, m), FromCold, o.id))
      && (forall o :: o in m.failures ==> LeavesOpen(After(r, m), FromExecution, o.id))
    ensures m.Publish? && !r.published ==>
      && After(r, m).published && After(r, m).finalBy == m.actor
      && forall h :: h in m.holds && !HasResolver(h.code) ==> LeavesOpen(After(r, m), FromHold, h.code + ":" + h.detail)
    ensures m.CounterAck? && !r.published && m.name != "" && !Has(r.counters, Native(m.name)) ==>
      && LeavesOpen(After(r, m), FromCounter, m.name)
      && Get(After(r, m).counters, Native(m.name)) == Some(Counter(Native(m.name), m.finding, m.actor, None, Pending, None))
  {
    if m.CounterAck? && !r.published && m.name != "" && !Has(r.counters, Native(m.name)) {
      var c := Counter(Native(m.name), m.finding, m.actor, None, Pending, None);
      GetAppend(r.counters, c, Native(m.name));
      assert After(r, m).counters[|r.counters|] == c;
      assert c in After(r, m).counters;
    }
  }

  /** A record that was published with its obligations captured is never changed again. */
  lemma {:induction false} PublishedStands(states: seq<Close>, moves: seq<Move>, m: nat, n: nat)
    requires IsWork(states, moves) && m <= n < |states| && states[m].published && states[m].frozen
    ensures states[n] == states[m]
    decreases n - m
  {
    if m < n {
      PublishedStands(states, moves, m, n - 1);
      assert states[n - 1 + 1] == After(states[n - 1], moves[n - 1]);
    }
  }

  // ------------------------------------------------------------ the walk, link by link

  /** c names d: as its parent, or in its list of obligations. */
  predicate Links(g: Graph, c: Digest, d: Digest)
  {
    && c in g.records
    && (g.records[c].parent == Some(d)
        || exists l :: g.records[c].obligations == Some(l) && l in g.lists && d in g.lists[l])
  }

  /** The records listed are the start and what they name, step by step, oldest first by opening, generation and digest. */
  lemma {:induction false} SourcesFollowLinks(g: Graph, start: seq<Digest>, digests: seq<Digest>)
    requires ListsReachable(g, start, digests)
    ensures forall d :: d in start ==> d in digests
    ensures forall c, d :: c in digests && Links(g, c, d) ==> d in digests
    ensures forall d :: d in digests ==> d in start || exists c :: c in digests && Links(g, c, d)
    ensures forall i, j :: 0 <= i < j < |digests| ==>
      && digests[i] in g.records && digests[j] in g.records
      && var a, b := g.records[digests[i]], g.records[digests[j]];
         || a.openedAt < b.openedAt || (a.openedAt == b.openedAt && a.generation < b.generation)
         || (a.openedAt == b.openedAt && a.generation == b.generation && digests[i] < digests[j])
  {
    forall d | d in start ensures d in digests {
      assert ReachIn(g, start, d, 0);
    }
    forall c, d | c in digests && Links(g, c, d) ensures d in digests {
      assert Reaches(g, start, c) && Readable(g, c) && d in Next(g, c);
      ReachesNext(g, start, c, d);
    }
    forall d | d in digests ensures d in start || exists c :: c in digests && Links(g, c, d) {
      assert Reaches(g, start, d);
      var steps: nat :| ReachIn(g, start, d, steps);
      if steps > 0 {
        var c :| ReachIn(g, start, c, steps - 1) && Readable(g, c) && d in Next(g, c);
        assert Reaches(g, start, c) && Links(g, c, d);
      }
    }
  }
}
