/**
Obligations carried from related attempts into a new one
(src/agenttalk/acceptance_obligations.py): the bounded walk over source records, the stable
identity of a carried counter, and the fold that captures and later checks them.
*/
module AcceptanceObligations {
  import opened SetSizes
  import opened Wrappers

  type Digest = nat

  datatype Error = RecordMissing | TooMany

  const MAX_SOURCES: nat := 256

  // ------------------------------------------------------------ the source-record graph

  datatype Source = Source(openedAt: int, generation: nat, parent: Option<Digest>, obligations: Option<Digest>)

  /** Retained records, and retained lists of digests. */
  datatype Graph = Graph(records: map<Digest, Source>, lists: map<Digest, seq<Digest>>)

  predicate Readable(g: Graph, d: Digest)
  {
    d in g.records && (g.records[d].obligations.Some? ==> g.records[d].obligations.value in g.lists)
  }

  function Next(g: Graph, d: Digest): seq<Digest>
    requires Readable(g, d)
  {
    var source := g.records[d];
    (if source.parent.Some? then [source.parent.value] else [])
    + (if source.obligations.Some? then g.lists[source.obligations.value] else [])
  }

  ghost predicate ReachIn(g: Graph, start: seq<Digest>, d: Digest, steps: nat)
    decreases steps
  {
    if steps == 0 then d in start
    else exists c :: ReachIn(g, start, c, steps - 1) && Readable(g, c) && d in Next(g, c)
  }

  /** Some chain of parent and obligation links leads from the start to d. */
  ghost predicate Reaches(g: Graph, start: seq<Digest>, d: Digest)
  {
    exists steps: nat :: ReachIn(g, start, d, steps)
  }

  lemma {:induction false} ReachesNext(g: Graph, start: seq<Digest>, c: Digest, d: Digest)
    requires Reaches(g, start, c) && Readable(g, c) && d in Next(g, c)
    ensures Reaches(g, start, d)
  {
    var steps: nat :| ReachIn(g, start, c, steps);
    assert ReachIn(g, start, d, steps + 1);
  }

  /** A set that holds the start and is closed under the links holds everything reachable. */
  lemma {:induction false} ClosedHoldsReachable(g: Graph, start: seq<Digest>, closed: set<Digest>, d: Digest, steps: nat)
    requires forall s :: s in start ==> s in closed
    requires forall c :: c in closed ==> Readable(g, c) && forall e :: e in Next(g, c) ==> e in closed
    requires ReachIn(g, start, d, steps)
    ensures d in closed
    decreases steps
  {
    if steps > 0 {
      var c :| ReachIn(g, start, c, steps - 1) && Readable(g, c) && d in Next(g, c);
      ClosedHoldsReachable(g, start, closed, c, steps - 1);
    }
  }

  predicate Before(g: Graph, a: Digest, b: Digest)
    requires a in g.records && b in g.records
  {
    var x, y := g.records[a], g.records[b];
    || x.openedAt < y.openedAt
    || (x.openedAt == y.openedAt && (x.generation < y.generation || (x.generation == y.generation && a < b)))
  }

  ghost predicate SortedSources(g: Graph, ds: seq<Digest>)
  {
    && (forall i :: 0 <= i < |ds| ==> ds[i] in g.records)
    && (forall i, j :: 0 <= i < j < |ds| ==> Before(g, ds[i], ds[j]))
  }

  function Insert(g: Graph, ds: seq<Digest>, d: Digest): (r: seq<Digest>)
    requires SortedSources(g, ds) && d in g.records && d !in ds
    ensures SortedSources(g, r)
    ensures forall e :: e in r <==> e in ds || e == d
  {
    if ds == [] then [d]
    else
      var front, last := ds[..|ds| - 1], ds[|ds| - 1];
      assert ds == front + [last];
      if Before(g, last, d) then ds + [d]
      else
        var inserted := Insert(g, front, d);
        assert forall e :: e in inserted ==> e in g.records && Before(g, e, last);
        inserted + [last]
  }

  /** Exactly the reachable records, each once, oldest first. */
  ghost predicate ListsReachable(g: Graph, start: seq<Digest>, result: seq<Digest>)
  {
    && SortedSources(g, result) && |result| <= MAX_SOURCES
    && (forall d :: d in result <==> Reaches(g, start, d))
    && (forall d :: d in result ==> Readable(g, d))
  }

  /** Everything reachable reads back, and there is not too much of it. */
  ghost predicate Bounded(g: Graph, start: seq<Digest>)
  {
    exists all: set<Digest> :: |all| <= MAX_SOURCES && forall d :: Reaches(g, start, d) ==> d in all && Readable(g, d)
  }

  lemma {:induction false} TooManySources(g: Graph, start: seq<Digest>, seen: set<Digest>, d: Digest)
    requires (forall s :: s in seen ==> Reaches(g, start, s)) && Reaches(g, start, d) && d !in seen
    requires |seen| >= MAX_SOURCES
    ensures !Bounded(g, start)
  {
    forall all: set<Digest> | forall e :: Reaches(g, start, e) ==> e in all && Readable(g, e) ensures |all| > MAX_SOURCES {
      SubsetSize(seen + {d}, all);
    }
  }

  /** A sorted list has no repetition, so it is as long as its set of members. */
  lemma {:induction false} SizeOfInsert(g: Graph, ds: seq<Digest>, members: set<Digest>)
    requires SortedSources(g, ds) && forall d :: d in ds <==> d in members
    ensures |ds| == |members|
  {
    if ds == [] {
      assert members == {};
    } else {
      var last, front := ds[|ds| - 1], ds[..|ds| - 1];
      assert ds == front + [last];
      assert last !in front;
      SizeOfInsert(g, front, members - {last});
    }
  }

  /** Where the walk stands: everything met is reachable, and links of what was read lead to what was met. */
  ghost predicate Walking(g: Graph, start: seq<Digest>, pending: seq<Digest>, seen: set<Digest>)
  {
    && (forall d :: d in pending || d in seen ==> Reaches(g, start, d))
    && (forall d :: d in start ==> d in pending || d in seen)
    && (forall c :: c in seen ==> Readable(g, c) && forall d :: d in Next(g, c) ==> d in pending || d in seen)
  }

  lemma {:induction false} WalkStarts(g: Graph, start: seq<Digest>)
    ensures Walking(g, start, start, {})
  {
    forall d | d in start ensures Reaches(g, start, d) {
      assert ReachIn(g, start, d, 0);
    }
  }

  lemma {:induction false} WalkSkips(g: Graph, start: seq<Digest>, pending: seq<Digest>, seen: set<Digest>)
    requires Walking(g, start, pending, seen) && pending != [] && pending[0] in seen
    ensures Walking(g, start, pending[1..], seen)
  {
    assert pending == [pending[0]] + pending[1..];
  }

  lemma {:induction false} WalkVisits(g: Graph, start: seq<Digest>, pending: seq<Digest>, seen: set<Digest>)
    requires Walking(g, start, pending, seen) && pending != [] && Readable(g, pending[0])
    ensures Walking(g, start, pending[1..] + Next(g, pending[0]), seen + {pending[0]})
  {
    var digest := pending[0];
    assert pending == [digest] + pending[1..];
    forall d | d in Next(g, digest) ensures Reaches(g, start, d) {
      ReachesNext(g, start, digest, d);
    }
  }

  lemma {:induction false} WalkEnds(g: Graph, start: seq<Digest>, seen: set<Digest>)
    requires Walking(g, start, [], seen)
    ensures forall d :: Reaches(g, start, d) <==> d in seen
    ensures |seen| <= MAX_SOURCES ==> Bounded(g, start)
  {
    forall d | Reaches(g, start, d) ensures d in seen {
      var steps: nat :| ReachIn(g, start, d, steps);
      ClosedHoldsReachable(g, start, seen, d, steps);
    }
  }

  method Sources(g: Graph, start: seq<Digest>) returns (r: Result<seq<Digest>, Error>)
    ensures r.Ok? <==> Bounded(g, start)
    ensures r.Ok? ==> ListsReachable(g, start, r.value)
  {
    var pending, seen, result := start, {}, [];
    WalkStarts(g, start);
    while pending != []
      invariant Walking(g, start, pending, seen)
      invariant SortedSources(g, result) && |result| == |seen| <= MAX_SOURCES
      invariant forall d :: d in result <==> d in seen
      decreases MAX_SOURCES - |seen|, |pending|
    {
      var digest := pending[0];
      if digest in seen {
        WalkSkips(g, start, pending, seen);
        pending := pending[1..];
      } else {
        if |seen| >= MAX_SOURCES {
          TooManySources(g, start, seen, digest);
          return Refused(TooMany);
        }
        if !Readable(g, digest) {
          assert Reaches(g, start, digest);
          return Refused(RecordMissing);
        }
        WalkVisits(g, start, pending, seen);
        result := Insert(g, result, digest);
        seen := seen + {digest};
        SizeOfInsert(g, result, seen);
        pending := pending[1..] + Next(g, digest);
      }
    }
    WalkEnds(g, start, seen);
    return Ok(result);
  }

  // ------------------------------------------------------------ obligations and their identity

  datatype Kind = FromCounter | FromCold | FromExecution | FromHold

  datatype Origin = Origin(attempt: nat, kind: Kind, id: string)

  /** A counter carries the name it was raised under, or the digest of its origin. */
  datatype CounterId = Native(name: string) | Derived(origin: Origin)

  datatype Decision = Pending | Accepted(actor: string, at: string, reason: string) | Rejected(actor: string, at: string, reason: string)

  datatype Counter = Counter(
    id: CounterId, finding: string, raisedBy: string, origin: Option<Origin>, decision: Decision, remediation: Option<string>)

  datatype Hold = Hold(code: string, detail: string)

  const RESIDUAL := "acceptance_residual_open"

  /** Hold codes whose obligation is recomputed from current evidence instead of being carried. */
  const RECOMPUTED: set<string> := {
    "acceptance_row_failed", "acceptance_category_moved_unreviewed",
    "acceptance_scope_reduction_unapproved", "acceptance_plan_stale",
    RESIDUAL, "undecided_counter", "accepted_counter_missing_remediation",
    "open_blocker_remediation", "gate_hold",
    "acceptance_cold_missing", "acceptance_lens_not_independent",
    "acceptance_trust_unresolved", "missing_lens", "stale_lens_ack", "unauthorized_lens_ack"
  }

  /** A ledger line `counter:<decision>`; the reason is not part of it. */
  datatype Decided = Decided(id: CounterId, accepted: bool, actor: string, at: string)

  /** What raises a counter of its own: its name, its wording and who is named for it. */
  datatype Finding = Finding(id: string, text: string, actor: string)

  /**
  The parts of a close that carry obligations. `unresolved` are the blocking cold observations its
  reconciliation did not resolve, with their evidence and reviewer; `failures` the refusals of its
  execution evidence, with who attached it; `finalBy` published it with its `holds`. `frozen` tells
  that the route is complete and obligations were captured.
  */
  datatype Close = Close(
    attempt: nat, counters: seq<Counter>, unresolved: seq<Finding>, failures: seq<Finding>, holds: seq<Hold>,
    finalBy: string, events: seq<Decided>,
    frozen: bool, published: bool)

  function Raise(attempt: nat, kind: Kind, id: string, finding: string, actor: string): Counter
  {
    var origin := Origin(attempt, kind, id);
    Counter(Derived(origin), finding, actor, Some(origin), Pending, None)
  }

  function NameOf(id: CounterId): string
  {
    match id case Native(name) => name case Derived(origin) => origin.id
  }

  /** A counter without an origin gets one, and with it a lasting identity. */
  function Normalize(attempt: nat, c: Counter): Counter
  {
    if c.origin.Some? then c
    else
      var raised := Raise(attempt, FromCounter, NameOf(c.id), c.finding, c.raisedBy);
      c.(id := raised.id, origin := raised.origin)
  }

  function NormalizeAll(attempt: nat, cs: seq<Counter>): (r: seq<Counter>)
    ensures |r| == |cs| && forall i :: 0 <= i < |cs| ==> r[i] == Normalize(attempt, cs[i])
  {
    seq(|cs|, i requires 0 <= i < |cs| => Normalize(attempt, cs[i]))
  }

  function RaiseAll(attempt: nat, kind: Kind, findings: seq<Finding>): seq<Counter>
  {
    seq(|findings|, i requires 0 <= i < |findings| => Raise(attempt, kind, findings[i].id, findings[i].text, findings[i].actor))
  }

  /** A residual hold is carried as such only when nothing before it accounts for it. */
  function RaiseHolds(attempt: nat, result: seq<Counter>, holds: seq<Hold>, finalBy: string): (r: seq<Counter>)
    ensures result <= r
    decreases |holds|
  {
    if holds == [] then result
    else
      var h := holds[0];
      var carried := h.code !in RECOMPUTED || (h.code == RESIDUAL && result == []);
      RaiseHolds(
        attempt, if carried then result + [Raise(attempt, FromHold, h.code + ":" + h.detail, h.detail, finalBy)] else result,
        holds[1..], finalBy)
  }

  function ReviewObligations(c: Close): seq<Counter>
  {
    RaiseHolds(c.attempt,
               NormalizeAll(c.attempt, c.counters)
               + RaiseAll(c.attempt, FromCold, c.unresolved) + RaiseAll(c.attempt, FromExecution, c.failures),
               c.holds, c.finalBy)
  }

  /** Dictionary reading of a list of assignments: the latest one counts. */
  function Get(cs: seq<Counter>, id: CounterId): (r: Option<Counter>)
    ensures r.Some? ==> r.value in cs && r.value.id == id
  {
    if cs == [] then None
    else if cs[|cs| - 1].id == id then Some(cs[|cs| - 1])
    else Get(cs[..|cs| - 1], id)
  }

  predicate Has(cs: seq<Counter>, id: CounterId)
  {
    Get(cs, id).Some?
  }

  lemma {:induction false} HasMember(cs: seq<Counter>, i: nat)
    requires i < |cs|
    ensures Has(cs, cs[i].id)
  {
    if cs[|cs| - 1].id != cs[i].id {
      HasMember(cs[..|cs| - 1], i);
    }
  }

  lemma {:induction false} GetAppend(cs: seq<Counter>, c: Counter, id: CounterId)
    ensures Get(cs + [c], id) == if c.id == id then Some(c) else Get(cs, id)
  {
    assert (cs + [c])[..|cs|] == cs;
  }

  lemma {:induction false} GetWithout(cs: seq<Counter>, gone: CounterId, id: CounterId)
    requires id != gone
    ensures Get(Without(cs, gone), id) == Get(cs, id)
  {
    if cs != [] {
      var front, last := cs[..|cs| - 1], cs[|cs| - 1];
      GetWithout(front, gone, id);
      GetAppend(Without(front, gone), last, id);
    }
  }

  /** Obligations of all sources, in the order of the sources. */
  function Carried(sources: seq<Close>): seq<Counter>
  {
    if sources == [] then [] else Carried(sources[..|sources| - 1]) + ReviewObligations(sources[|sources| - 1])
  }

  predicate Somewhere(sources: seq<Close>, c: Counter)
  {
    exists i :: 0 <= i < |sources| && c in ReviewObligations(sources[i])
  }

  lemma {:induction false} SomewhereOfAppend(front: seq<Close>, last: Close, c: Counter)
    ensures Somewhere(front + [last], c) <==> Somewhere(front, c) || c in ReviewObligations(last)
  {
    var sources := front + [last];
    if Somewhere(front, c) {
      var i :| 0 <= i < |front| && c in ReviewObligations(front[i]);
      assert sources[i] == front[i];
    }
    assert sources[|front|] == last;
  }

  lemma {:induction false} CarriedMembers(sources: seq<Close>, c: Counter)
    ensures c in Carried(sources) <==> Somewhere(sources, c)
  {
    if sources != [] {
      var front, last := sources[..|sources| - 1], sources[|sources| - 1];
      CarriedMembers(front, c);
      SomewhereOfAppend(front, last, c);
      assert sources == front + [last];
    }
  }

  // ------------------------------------------------------------ capture

  function Without(cs: seq<Counter>, id: CounterId): (r: seq<Counter>)
    ensures forall c :: c in r <==> c in cs && c.id != id
  {
    if cs == [] then []
    else
      var front, last := cs[..|cs| - 1], cs[|cs| - 1];
      assert cs == front + [last];
      if last.id == id then Without(front, id) else Without(front, id) + [last]
  }

  function SetDefault(cs: seq<Counter>, c: Counter): (r: seq<Counter>)
    ensures forall d :: d in cs ==> d in r
  {
    if Has(cs, c.id) then cs else cs + [c]
  }

  /** The successor's clone of a native counter gives way to the stable identity. */
  predicate IsClone(native: Option<Counter>, carried: Counter)
    requires carried.origin.Some?
  {
    carried.origin.value.kind.FromCounter? && native.Some? && native.value.finding == carried.finding
  }

  function CaptureOne(counters: seq<Counter>, c: Counter): seq<Counter>
    requires c.origin.Some?
  {
    var native := Native(c.origin.value.id);
    SetDefault(if IsClone(Get(counters, native), c) then Without(counters, native) else counters, c)
  }

  /** Identity and origin of a counter agree. */
  predicate Sound(c: Counter)
  {
    if c.origin.Some? then c.id == Derived(c.origin.value) else c.id.Native?
  }

  predicate AllSound(cs: seq<Counter>)
  {
    forall c :: c in cs ==> Sound(c)
  }

  predicate Traced(c: Counter)
  {
    c.origin.Some? && c.id == Derived(c.origin.value)
  }

  predicate AllTraced(cs: seq<Counter>)
  {
    forall i :: 0 <= i < |cs| ==> Traced(cs[i])
  }

  lemma {:induction false} RaisedHoldsTraced(attempt: nat, result: seq<Counter>, holds: seq<Hold>, finalBy: string)
    requires AllTraced(result)
    ensures AllTraced(RaiseHolds(attempt, result, holds, finalBy))
    decreases |holds|
  {
    if holds != [] {
      var h := holds[0];
      var carried := h.code !in RECOMPUTED || (h.code == RESIDUAL && result == []);
      RaisedHoldsTraced(
        attempt, if carried then result + [Raise(attempt, FromHold, h.code + ":" + h.detail, h.detail, finalBy)] else result,
        holds[1..], finalBy);
    }
  }

  lemma {:induction false} ReviewTraced(c: Close)
    requires AllSound(c.counters)
    ensures AllTraced(ReviewObligations(c))
    ensures forall i :: 0 <= i < |c.counters| ==> Normalize(c.attempt, c.counters[i]) in ReviewObligations(c)
  {
    var first := NormalizeAll(c.attempt, c.counters)
      + RaiseAll(c.attempt, FromCold, c.unresolved) + RaiseAll(c.attempt, FromExecution, c.failures);
    forall i | 0 <= i < |c.counters| ensures Traced(Normalize(c.attempt, c.counters[i])) {
      assert c.counters[i] in c.counters && Sound(c.counters[i]);
    }
    RaisedHoldsTraced(c.attempt, first, c.holds, c.finalBy);
    forall i | 0 <= i < |c.counters| ensures Normalize(c.attempt, c.counters[i]) in ReviewObligations(c) {
      assert ReviewObligations(c)[i] == first[i] == NormalizeAll(c.attempt, c.counters)[i];
    }
  }

  lemma {:induction false} CarriedTraced(sources: seq<Close>)
    requires forall i :: 0 <= i < |sources| ==> AllSound(sources[i].counters)
    ensures AllTraced(Carried(sources))
  {
    forall c | c in Carried(sources) ensures Traced(c) {
      CarriedMembers(sources, c);
      var i :| 0 <= i < |sources| && c in ReviewObligations(sources[i]);
      ReviewTraced(sources[i]);
    }
  }

  /** The dictionary entry each assignment ends up with. */
  function Latest(carried: seq<Counter>): (r: seq<Counter>)
    requires AllTraced(carried)
    ensures |r| == |carried| && AllTraced(r) && forall i :: 0 <= i < |r| ==> r[i].id == carried[i].id
  {
    seq(|carried|, i requires 0 <= i < |carried| => LatestAt(carried, i))
  }

  function LatestAt(carried: seq<Counter>, i: nat): (c: Counter)
    requires AllTraced(carried) && i < |carried|
    ensures Traced(c) && c.id == carried[i].id
    ensures Get(carried, carried[i].id) == Some(c)
  {
    HasMember(carried, i);
    Get(carried, carried[i].id).value
  }

  function CaptureUpTo(counters: seq<Counter>, latest: seq<Counter>, n: nat): seq<Counter>
    requires AllTraced(latest) && n <= |latest|
  {
    if n == 0 then counters else CaptureOne(CaptureUpTo(counters, latest, n - 1), latest[n - 1])
  }

  function CaptureAll(counters: seq<Counter>, carried: seq<Counter>): seq<Counter>
    requires AllTraced(carried)
  {
    CaptureUpTo(counters, Latest(carried), |carried|)
  }

  method Capture(record: Close, sources: seq<Close>) returns (counters: seq<Counter>)
    requires forall i :: 0 <= i < |sources| ==> AllSound(sources[i].counters)
    ensures AllTraced(Carried(sources)) && counters == CaptureAll(record.counters, Carried(sources))
  {
    CarriedTraced(sources);
    var latest := Latest(Carried(sources));
    counters := record.counters;
    for n := 0 to |latest|
      invariant counters == CaptureUpTo(record.counters, latest, n)
    {
      counters := CaptureOne(counters, latest[n]);
    }
  }

  // ------------------------------------------------------------ nothing is lost

  /** A counter the record had stays, or lives on under the identity of the same native name. */
  ghost predicate Accounted(before: Counter, after: seq<Counter>)
  {
    || before in after
    || (before.id.Native? && exists o: Origin :: o.kind.FromCounter? && o.id == before.id.name && Has(after, Derived(o)))
  }

  /** The entry of a carried identity after one more counter was captured. */
  function Enters(entry: Option<Counter>, c: Counter, id: CounterId): Option<Counter>
  {
    if entry.Some? then entry else if c.id == id then Some(c) else None
  }

  lemma {:induction false} GetCaptureOne(counters: seq<Counter>, c: Counter, id: CounterId)
    requires c.origin.Some? && id.Derived? && c.id.Derived?
    ensures Get(CaptureOne(counters, c), id) == Enters(Get(counters, id), c, id)
  {
    var native := Native(c.origin.value.id);
    GetWithout(counters, native, id);
    GetWithout(counters, native, c.id);
    GetAppend(counters, c, id);
    GetAppend(Without(counters, native), c, id);
  }

  lemma {:induction false} OneKeepsDerived(counters: seq<Counter>, c: Counter, id: CounterId)
    requires Traced(c) && id.Derived?
    ensures Has(counters, id) ==> Has(CaptureOne(counters, c), id)
    ensures Has(CaptureOne(counters, c), c.id)
  {
    GetCaptureOne(counters, c, id);
    GetCaptureOne(counters, c, c.id);
  }

  predicate IsCaptured(counters: seq<Counter>, latest: seq<Counter>, n: nat, after: seq<Counter>)
    requires AllTraced(latest) && n <= |latest|
  {
    after == CaptureUpTo(counters, latest, n)
  }

  /** After the first n captures the identity reads as this entry. */
  ghost predicate Reads(counters: seq<Counter>, latest: seq<Counter>, n: nat, id: CounterId, entry: Option<Counter>)
    requires AllTraced(latest) && n <= |latest|
  {
    forall after {:trigger IsCaptured(counters, latest, n, after)} ::
      IsCaptured(counters, latest, n, after) ==> Get(after, id) == entry
  }

  lemma {:induction false} ReadsNext(
    counters: seq<Counter>, latest: seq<Counter>, n: nat, id: CounterId, entry: Option<Counter>)
    requires AllTraced(latest) && n < |latest| && id.Derived? && Reads(counters, latest, n, id, entry)
    ensures Reads(counters, latest, n + 1, id, Enters(entry, latest[n], id))
  {
    assert Traced(latest[n]) && IsCaptured(counters, latest, n, CaptureUpTo(counters, latest, n));
    GetCaptureOne(CaptureUpTo(counters, latest, n), latest[n], id);
  }

  lemma {:induction false} ReadsStays(
    counters: seq<Counter>, latest: seq<Counter>, n: nat, id: CounterId, entry: Option<Counter>)
    requires AllTraced(latest) && n < |latest| && id.Derived? && entry.Some? && Reads(counters, latest, n, id, entry)
    ensures Reads(counters, latest, n + 1, id, entry)
  {
    assert Enters(entry, latest[n], id) == entry;
    ReadsNext(counters, latest, n, id, entry);
  }

  lemma {:induction false} EntryRemains(
    counters: seq<Counter>, latest: seq<Counter>, m: nat, n: nat, id: CounterId, entry: Option<Counter>)
    requires AllTraced(latest) && m <= n <= |latest| && id.Derived? && entry.Some? && Reads(counters, latest, m, id, entry)
    ensures Reads(counters, latest, n, id, entry)
    decreases n - m
  {
    if m < n {
      ReadsStays(counters, latest, m, id, entry);
      EntryRemains(counters, latest, m + 1, n, id, entry);
    }
  }

  lemma {:induction false} CarriedArrives(counters: seq<Counter>, latest: seq<Counter>, i: nat)
    requires AllTraced(latest) && i < |latest|
    ensures Has(CaptureUpTo(counters, latest, |latest|), latest[i].id)
  {
    var id, before := latest[i].id, CaptureUpTo(counters, latest, i);
    assert Traced(latest[i]);
    ReadsNext(counters, latest, i, id, Get(before, id));
    EntryRemains(counters, latest, i + 1, |latest|, id, Enters(Get(before, id), latest[i], id));
    assert IsCaptured(counters, latest, |latest|, CaptureUpTo(counters, latest, |latest|));
  }

  lemma {:induction false} OneAccounts(counters: seq<Counter>, c: Counter, d: Counter)
    requires Traced(c) && d in counters
    ensures Accounted(d, CaptureOne(counters, c))
  {
    var after := CaptureOne(counters, c);
    if d !in after {
      assert c.origin.value.id == d.id.name && Has(after, Derived(c.origin.value));
    }
  }

  lemma {:induction false} CaptureAccounts(counters: seq<Counter>, latest: seq<Counter>, n: nat, d: Counter)
    requires AllTraced(latest) && n <= |latest| && d in counters
    ensures Accounted(d, CaptureUpTo(counters, latest, n))
  {
    if n > 0 {
      CaptureAccounts(counters, latest, n - 1, d);
      var before := CaptureUpTo(counters, latest, n - 1);
      if d in before {
        OneAccounts(before, latest[n - 1], d);
      } else {
        var o: Origin :| o.kind.FromCounter? && o.id == d.id.name && Has(before, Derived(o));
        OneKeepsDerived(before, latest[n - 1], Derived(o));
      }
    }
  }

  lemma {:induction false} CaptureBrings(counters: seq<Counter>, carried: seq<Counter>, c: Counter)
    requires AllTraced(carried) && c in carried
    ensures Has(CaptureAll(counters, carried), c.id)
  {
    var i :| 0 <= i < |carried| && carried[i] == c;
    CarriedArrives(counters, Latest(carried), i);
  }

  /** Every obligation of every source is in the record afterwards, and no earlier counter is lost. */
  lemma {:induction false} CaptureIsComplete(record: Close, sources: seq<Close>)
    requires forall i :: 0 <= i < |sources| ==> AllSound(sources[i].counters)
    ensures AllTraced(Carried(sources))
    ensures var after := CaptureAll(record.counters, Carried(sources));
      && (forall i, c :: 0 <= i < |sources| && c in ReviewObligations(sources[i]) ==> Has(after, c.id))
      && (forall d :: d in record.counters ==> Accounted(d, after))
  {
    CarriedTraced(sources);
    var carried := Carried(sources);
    var after := CaptureAll(record.counters, carried);
    forall i, c | 0 <= i < |sources| && c in ReviewObligations(sources[i]) ensures Has(after, c.id) {
      CarriedMembers(sources, c);
      CaptureBrings(record.counters, carried, c);
    }
    forall d | d in record.counters ensures Accounted(d, after) {
      CaptureAccounts(record.counters, Latest(carried), |carried|, d);
    }
  }

  /** The closes behind a list of digests. */
  function ClosesOf(digests: seq<Digest>, closes: map<Digest, Close>): (r: seq<Close>)
    requires forall e :: e in digests ==> e in closes
    ensures |r| == |digests| && forall i :: 0 <= i < |digests| ==> r[i] == closes[digests[i]]
  {
    seq(|digests|, i requires 0 <= i < |digests| => closes[digests[i]])
  }

  /** From the graph to the record: an obligation of any reachable source, however far, is in the new attempt. */
  lemma {:induction false} ReachableObligationsArrive(
    g: Graph, start: seq<Digest>, digests: seq<Digest>, closes: map<Digest, Close>, record: Close, d: Digest, c: Counter)
    requires ListsReachable(g, start, digests) && Reaches(g, start, d)
    requires forall e :: e in digests ==> e in closes && AllSound(closes[e].counters)
    requires d in closes && c in ReviewObligations(closes[d])
    ensures var carried := Carried(ClosesOf(digests, closes));
      AllTraced(carried) && Has(CaptureAll(record.counters, carried), c.id)
  {
    var sources := ClosesOf(digests, closes);
    assert d in digests;
    var i :| 0 <= i < |digests| && digests[i] == d;
    assert sources[i] == closes[d];
    forall j | 0 <= j < |sources| ensures AllSound(sources[j].counters) {
      assert digests[j] in digests;
    }
    CaptureIsComplete(record, sources);
  }

  // ------------------------------------------------------------ held until decided

  predicate SameObligation(a: Counter, b: Counter)
  {
    a.id == b.id && a.finding == b.finding && a.raisedBy == b.raisedBy && a.origin == b.origin
  }

  predicate HasEvidence(d: Decision)
  {
    !d.Pending? && d.actor != "" && d.at != "" && d.reason != ""
  }

  predicate Recorded(events: seq<Decided>, id: CounterId, d: Decision)
  {
    !d.Pending? && Decided(id, d.Accepted?, d.actor, d.at) in events
  }

  /** The record's counter settles what the latest source said. */
  predicate Settles(record: Close, original: Counter)
  {
    var current := Get(record.counters, original.id);
    && current.Some? && SameObligation(current.value, original)
    && HasEvidence(current.value.decision)
    && (current.value.decision != original.decision || current.value.remediation != original.remediation ==>
          Recorded(record.events, original.id, current.value.decision))
  }

  /** Obligations the evaluation holds the attempt for. */
  function Residual(record: Close, sources: seq<Close>): set<CounterId>
  {
    var carried := Carried(sources);
    set c | c in carried && (Get(carried, c.id).None? || !Settles(record, Get(carried, c.id).value)) :: c.id
  }
}
