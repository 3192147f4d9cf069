/**
What the operator is shown and what not, over the log and the items themselves (src/agenttalk/attention.py): which lines
count, what each action does to an item, who is printed under which flags, and who stands above whom.
*/
module AttentionView {
  import opened Wrappers
  import opened PythonText
  import opened StableSort
  import opened Attention
  import opened AttentionQueue

  // ------------------------------------------------------------ which lines count

  /** The line is about the item: every field is there, and the reason says something. */
  predicate IsComplete(e: Event, id: string)
  {
    && e.action.Known? && e.itemId == Some(id) && id != ""
    && e.actor.Some? && e.actor != Some("") && e.at.Some? && e.at != Some("")
    && e.reason.Some? && (exists i :: 0 <= i < |e.reason.value| && !IsSpace(e.reason.value[i]))
    && e.sourceHash.Some?
  }

  /** About the item's dead letter, or about what the operator made of it. */
  predicate IsResolution(a: Action)
  {
    a == ResolveDeadLetter || a == RequeuedAfterResolve
  }

  predicate Speaks(e: Event, id: string, resolution: bool)
  {
    IsComplete(e, id) && IsResolution(e.action.value) == resolution
  }

  ghost predicate IsNewest(events: seq<Event>, id: string, resolution: bool, i: nat)
  {
    && i < |events| && Speaks(events[i], id, resolution)
    && forall j :: i < j < |events| ==> !Speaks(events[j], id, resolution)
  }

  function Side(resolution: bool): Family
  {
    if resolution then DeadLetterResolution else Disposition
  }

  lemma {:induction false} SpeaksIsConcerns(e: Event, id: string, resolution: bool)
    ensures Concerns(e, id, Side(resolution)) <==> Speaks(e, id, resolution)
  {
  }

  lemma {:induction false} NewestIsLatest(events: seq<Event>, id: string, resolution: bool, i: nat)
    ensures IsNewest(events, id, resolution, i) <==> IsLatest(events, |events|, id, Side(resolution), i)
  {
    forall j | 0 <= j < |events| ensures Concerns(events[j], id, Side(resolution)) <==> Speaks(events[j], id, resolution) {
      SpeaksIsConcerns(events[j], id, resolution);
    }
  }

  /** A complete line speaks for its item from then on; any other changes nothing. */
  lemma {:induction false} LineCountsExactly(before: seq<Event>, e: Event, id: string, resolution: bool)
    requires Hashable(before) && !e.action.Unhashable?
    ensures Hashable(before + [e])
    ensures Lookup(Fold(before + [e]).value, id, Side(resolution)) ==
      if Speaks(e, id, resolution) then Some(e) else Lookup(Fold(before).value, id, Side(resolution))
  {
    assert (before + [e])[..|before|] == before;
    assert Hashable(before + [e]);
    SpeaksIsConcerns(e, id, resolution);
  }

  lemma {:induction false} NewestIsFolded(events: seq<Event>, id: string, resolution: bool, i: nat)
    requires Hashable(events) && IsNewest(events, id, resolution, i)
    ensures Lookup(Fold(events).value, id, Side(resolution)) == Some(events[i])
  {
    FoldFolds(events);
    NewestIsLatest(events, id, resolution, i);
    LatestIsFolded(events, Fold(events).value, id, Side(resolution), i);
  }

  lemma {:induction false} FoldedIsNewest(events: seq<Event>, id: string, resolution: bool) returns (i: nat)
    requires Hashable(events) && Lookup(Fold(events).value, id, Side(resolution)).Some?
    ensures IsNewest(events, id, resolution, i) && Lookup(Fold(events).value, id, Side(resolution)) == Some(events[i])
  {
    FoldFolds(events);
    i := FoldedIsLatest(events, Fold(events).value, id, Side(resolution));
    NewestIsLatest(events, id, resolution, i);
  }

  // ------------------------------------------------------------ what an action does

  predicate IsInForce(e: Event, item: Item, clock: Clock)
    requires e.action.Known?
  {
    && e.sourceHash == Some(item.sourceHash)
    && match e.action.value
       case Defer =>
         e.until.UntilText? && clock.now.Some? && clock.parse(e.until.text).Some?
         && clock.now.value < clock.parse(e.until.text).value
       case Dismiss =>
         || item.source == Capacity
         || (item.advisory && (item.source == ConfigBlocked || item.source == GateHold || item.source == CloseHold
                               || item.source == LeadUnarmed || item.source == CoordinationStall))
       case AnsweredElsewhere => item.source == NeedsOperator
       case ResolveDeadLetter => item.source == DeadLetter
       case RequeuedAfterResolve => false
  }

  /** The newest line of its kind about the item has this action and is in force. */
  ghost predicate IsTakenOut(events: seq<Event>, item: Item, clock: Clock, a: Action)
  {
    exists i: nat :: IsNewest(events, item.itemId, IsResolution(a), i) && events[i].action == Known(a)
      && IsInForce(events[i], item, clock)
  }

  lemma {:induction false} NewestIsOne(events: seq<Event>, id: string, resolution: bool, i: nat, j: nat)
    requires IsNewest(events, id, resolution, i) && IsNewest(events, id, resolution, j)
    ensures i == j
  {
  }

  /** What the two newest lines make of an active item. */
  lemma {:induction false} StateOfLines(item: Item, folded: Folded, clock: Clock)
    requires SoundFold(folded) && item.state == Active
    ensures var dl, e := Lookup(folded, item.itemId, DeadLetterResolution), Lookup(folded, item.itemId, Disposition);
      var after := Applied(item, folded, clock).state;
      if dl.Some? && dl.value.action == Known(ResolveDeadLetter) && IsInForce(dl.value, item, clock) then after == Resolved
      else if e.Some? && IsInForce(e.value, item, clock) then
        after == match e.value.action.value
                 case Defer => Deferred
                 case Dismiss => Dismissed
                 case AnsweredElsewhere => Answered
                 case _ => Active
      else after == Active
    ensures var e := Lookup(folded, item.itemId, Disposition);
      e.Some? ==> !IsResolution(e.value.action.value)
  {
    var dl, e := Lookup(folded, item.itemId, DeadLetterResolution), Lookup(folded, item.itemId, Disposition);
    assert dl.Some? ==> Concerns(dl.value, item.itemId, DeadLetterResolution);
    assert e.Some? ==> Concerns(e.value, item.itemId, Disposition);
  }

  /** A decision on the item is in force with this action, and no resolution of its dead letter stands above it. */
  ghost predicate IsDecided(events: seq<Event>, item: Item, clock: Clock, a: Action)
  {
    IsTakenOut(events, item, clock, a) && !IsTakenOut(events, item, clock, ResolveDeadLetter)
  }

  lemma {:induction false} ResolvedExactly(events: seq<Event>, item: Item, clock: Clock)
    requires Hashable(events)
    ensures var dl := Lookup(Fold(events).value, item.itemId, DeadLetterResolution);
      IsTakenOut(events, item, clock, ResolveDeadLetter) <==>
        dl.Some? && dl.value.action == Known(ResolveDeadLetter) && IsInForce(dl.value, item, clock)
  {
    var dl := Lookup(Fold(events).value, item.itemId, DeadLetterResolution);
    if IsTakenOut(events, item, clock, ResolveDeadLetter) {
      var i: nat :| IsNewest(events, item.itemId, true, i) && events[i].action == Known(ResolveDeadLetter)
        && IsInForce(events[i], item, clock);
      NewestIsFolded(events, item.itemId, true, i);
    }
    if dl.Some? {
      var i := FoldedIsNewest(events, item.itemId, true);
    }
  }

  lemma {:induction false} DecidedByExactly(events: seq<Event>, item: Item, clock: Clock, a: Action)
    requires Hashable(events) && !IsResolution(a)
    ensures var e := Lookup(Fold(events).value, item.itemId, Disposition);
      IsTakenOut(events, item, clock, a) <==> e.Some? && e.value.action == Known(a) && IsInForce(e.value, item, clock)
  {
    var e := Lookup(Fold(events).value, item.itemId, Disposition);
    if IsTakenOut(events, item, clock, a) {
      var i: nat :| IsNewest(events, item.itemId, false, i) && events[i].action == Known(a)
        && IsInForce(events[i], item, clock);
      NewestIsFolded(events, item.itemId, false, i);
    }
    if e.Some? {
      var i := FoldedIsNewest(events, item.itemId, false);
    }
  }

  /** Each action has its own state: an active item ends in it exactly if that action takes it out. */
  lemma {:induction false} StateTellsAction(events: seq<Event>, item: Item, clock: Clock)
    requires Hashable(events) && item.state == Active
    ensures var after := Applied(item, Fold(events).value, clock).state;
      && (after == Resolved <==> IsTakenOut(events, item, clock, ResolveDeadLetter))
      && (after == Deferred <==> IsDecided(events, item, clock, Defer))
      && (after == Dismissed <==> IsDecided(events, item, clock, Dismiss))
      && (after == Answered <==> IsDecided(events, item, clock, AnsweredElsewhere))
      && (after == Active <==> forall a :: !IsTakenOut(events, item, clock, a))
  {
    ResolvedExactly(events, item, clock);
    DecidedByExactly(events, item, clock, Defer);
    DecidedByExactly(events, item, clock, Dismiss);
    DecidedByExactly(events, item, clock, AnsweredElsewhere);
    StateOfLines(item, Fold(events).value, clock);
  }

  // ------------------------------------------------------------ who is printed

  /** The item may be printed: nothing takes it out, or the flag of what takes it out is set. */
  ghost predicate MayShow(events: seq<Event>, item: Item, clock: Clock, show: Show)
  {
    || (forall a :: !IsTakenOut(events, item, clock, a))
    || (show.resolved && IsTakenOut(events, item, clock, ResolveDeadLetter))
    || (show.deferred && IsDecided(events, item, clock, Defer))
    || (show.dismissed && IsDecided(events, item, clock, Dismiss))
    || (show.resolved && IsDecided(events, item, clock, AnsweredElsewhere))
  }

  /** Printed with its own line, or by name under the item that stands for it. */
  ghost predicate IsPrinted(lines: seq<Line>, id: string)
  {
    exists l :: l in lines && IsNamed(l, id)
  }

  lemma {:induction false} ShownExactly(events: seq<Event>, item: Item, clock: Clock, show: Show)
    requires Hashable(events) && item.state == Active
    ensures Shown(Applied(item, Fold(events).value, clock), show) <==> MayShow(events, item, clock, show)
  {
    StateTellsAction(events, item, clock);
  }

  predicate IsNamed(l: Line, id: string)
  {
    l.rep.itemId == id || exists s :: s in l.duplicates && s.itemId == id
  }

  lemma {:induction false} LineNames(e: Entry, id: string)
    ensures IsNamed(LineFrom(e), id) <==> exists x :: x in ItemsOf(e) && x.itemId == id
  {
    var shadows := Shadows(e.duplicates);
    if s :| s in shadows && s.itemId == id {
      var j :| 0 <= j < |shadows| && shadows[j] == s;
      assert e.duplicates[j] in ItemsOf(e);
    }
    if x :| x in ItemsOf(e) && x.itemId == id {
      if x != e.rep {
        var j :| 0 <= j < |e.duplicates| && e.duplicates[j] == x;
        assert shadows[j] in shadows;
      }
    }
    assert e.rep in ItemsOf(e);
  }

  lemma {:induction false} PrintedIsFlat(entries: seq<Entry>, id: string)
    ensures IsPrinted(Rendered(entries), id) <==> exists x :: x in Flatten(entries) && x.itemId == id
  {
    if entries != [] {
      var first, rest := entries[0], entries[1..];
      PrintedIsFlat(rest, id);
      LineNames(first, id);
      PrintedOfFirst(LineFrom(first), Rendered(rest), id);
      assert Rendered(entries) == [LineFrom(first)] + Rendered(rest);
    }
  }

  lemma {:induction false} PrintedOfFirst(l: Line, rest: seq<Line>, id: string)
    ensures IsPrinted([l] + rest, id) <==> IsNamed(l, id) || IsPrinted(rest, id)
  {
    var lines := [l] + rest;
    assert lines[0] == l;
    forall m | m in rest ensures m in lines {
      var i :| 0 <= i < |rest| && rest[i] == m;
      assert lines[i + 1] == m;
    }
  }

  lemma {:induction false} DecisionKeepsId(item: Item, e: Event, clock: Clock)
    requires ValidEvent(e)
    ensures AfterDisposition(item, e, clock).itemId == item.itemId
  {
  }

  lemma {:induction false} AppliedKeepsId(item: Item, folded: Folded, clock: Clock)
    requires SoundFold(folded)
    ensures Applied(item, folded, clock).itemId == item.itemId
  {
    var dl, e := Lookup(folded, item.itemId, DeadLetterResolution), Lookup(folded, item.itemId, Disposition);
    assert dl.Some? ==> Concerns(dl.value, item.itemId, DeadLetterResolution);
    assert e.Some? ==> Concerns(e.value, item.itemId, Disposition);
    var first := if dl.Some? then Unresolved(item, dl.value) else item;
    assert first.itemId == item.itemId;
    if e.Some? {
      DecisionKeepsId(first, e.value, clock);
    }
  }

  lemma {:induction false} VisibleComesFrom(items: seq<Item>, folded: Folded, clock: Clock, show: Show, x: Item)
    returns (y: Item)
    requires SoundFold(folded) && x in VisibleOf(items, folded, clock, show)
    ensures y in items && x == Applied(y, folded, clock) && Shown(x, show) && x.itemId == y.itemId
  {
    var f := Seen(folded, clock, show);
    Collected(items, f, x);
    y :| y in items && f(y) == Some(x);
    AppliedKeepsId(y, folded, clock);
  }

  lemma {:induction false} ShownIsVisible(items: seq<Item>, folded: Folded, clock: Clock, show: Show, item: Item)
    requires SoundFold(folded) && item in items && Shown(Applied(item, folded, clock), show)
    ensures Applied(item, folded, clock) in VisibleOf(items, folded, clock, show)
  {
    CollectHolds(items, Seen(folded, clock, show), item);
  }

  ghost predicate AnyNamed(visible: seq<Item>, id: string)
  {
    exists x :: x in visible && x.itemId == id
  }

  lemma {:induction false} VisibleNamed(items: seq<Item>, folded: Folded, clock: Clock, show: Show, item: Item)
    requires SoundFold(folded) && item in items && forall y :: y in items && y.itemId == item.itemId ==> y == item
    ensures AnyNamed(VisibleOf(items, folded, clock, show), item.itemId) <==> Shown(Applied(item, folded, clock), show)
  {
    var visible, after := VisibleOf(items, folded, clock, show), Applied(item, folded, clock);
    AppliedKeepsId(item, folded, clock);
    if Shown(after, show) {
      ShownIsVisible(items, folded, clock, show, item);
    }
    if AnyNamed(visible, item.itemId) {
      var x :| x in visible && x.itemId == item.itemId;
      var y := VisibleComesFrom(items, folded, clock, show, x);
      assert y == item;
    }
  }

  lemma {:induction false} QueuePrints(visible: seq<Item>, now: int, id: string)
    ensures IsPrinted(Rendered(Queue(visible, now)), id) <==> AnyNamed(visible, id)
  {
    var flat := Flatten(Queue(visible, now));
    PrintedIsFlat(Queue(visible, now), id);
    EveryItemOnce(visible, now);
    forall x: Item ensures x in flat <==> x in visible {
      SameMembers(flat, visible, x);
      SameMembers(visible, flat, x);
    }
  }

  lemma {:induction false} PrintedIfShown(
    items: seq<Item>, folded: Folded, clock: Clock, now: int, show: Show, item: Item, lines: seq<Line>)
    requires SoundFold(folded) && item in items && forall y :: y in items && y.itemId == item.itemId ==> y == item
    requires lines == Rendered(Queue(VisibleOf(items, folded, clock, show), now))
    ensures IsPrinted(lines, item.itemId) <==> Shown(Applied(item, folded, clock), show)
  {
    QueuePrints(VisibleOf(items, folded, clock, show), now, item.itemId);
    VisibleNamed(items, folded, clock, show, item);
  }

  lemma {:induction false} QueuePrintsShown(
    items: seq<Item>, events: seq<Event>, clock: Clock, now: int, show: Show, item: Item)
    requires Hashable(events) && item in items && forall y :: y in items && y.itemId == item.itemId ==> y == item
    ensures QueueFor(items, events, clock, now, show).Ok?
    ensures IsPrinted(QueueFor(items, events, clock, now, show).value, item.itemId) <==>
      Shown(Applied(item, Fold(events).value, clock), show)
  {
    var lines := QueueFor(items, events, clock, now, show).value;
    PrintedIfShown(items, Fold(events).value, clock, now, show, item, lines);
  }

  /**
  Under any flags, an active item that was delivered once is printed if and only if nothing takes it out or the flag of the
  action that takes it out is set.
  */
  lemma {:induction false} PrintedExactly(
    items: seq<Item>, events: seq<Event>, clock: Clock, now: int, show: Show, item: Item)
    requires Hashable(events) && item in items && item.state == Active
    requires forall y :: y in items && y.itemId == item.itemId ==> y == item
    ensures QueueFor(items, events, clock, now, show).Ok?
    ensures IsPrinted(QueueFor(items, events, clock, now, show).value, item.itemId) <==> MayShow(events, item, clock, show)
  {
    QueuePrintsShown(items, events, clock, now, show, item);
    ShownExactly(events, item, clock, show);
  }

  /** The default view shows exactly what nothing takes out. */
  lemma {:induction false} DefaultViewExactly(items: seq<Item>, events: seq<Event>, clock: Clock, now: int, item: Item)
    requires Hashable(events) && item in items && item.state == Active
    requires forall y :: y in items && y.itemId == item.itemId ==> y == item
    ensures var r := QueueFor(items, events, clock, now, Show(false, false, false));
      r.Ok? && (IsPrinted(r.value, item.itemId) <==> forall a :: !IsTakenOut(events, item, clock, a))
  {
    PrintedExactly(items, events, clock, now, Show(false, false, false), item);
  }

  /** Each line is the representative as it stands, and the others of its group by id and references, in rank order. */
  lemma {:induction false} LinesExactly(
    items: seq<Item>, events: seq<Event>, clock: Clock, now: int, show: Show, entries: seq<Entry>, i: nat)
    requires Hashable(events) && entries == Queue(VisibleOf(items, Fold(events).value, clock, show), now) && i < |entries|
    ensures var r := QueueFor(items, events, clock, now, show);
      && r.Ok? && |r.value| == |entries|
      && r.value[i].rep == entries[i].rep && |r.value[i].duplicates| == |entries[i].duplicates|
      && forall j :: 0 <= j < |entries[i].duplicates| ==>
           && r.value[i].duplicates[j].itemId == entries[i].duplicates[j].itemId
           && r.value[i].duplicates[j].refs == entries[i].duplicates[j].refs
  {
    assert Rendered(entries)[i] == LineFrom(entries[i]);
  }

  // ------------------------------------------------------------ who stands above whom

  /** A call for the operator first, a reader that failed last. */
  function Tier(s: Source): nat
  {
    match s
    case NeedsOperator => 0
    case ProcessTreeHold => 1
    case ConfigBlocked => 2
    case CoordinationStall => 3
    case UsageLimitPark => 4
    case DeadLetter => 5
    case GateHold => 6
    case CloseHold => 6
    case LeadUnarmed => 7
    case Capacity => 8
    case SourceError => 9
  }

  /** Overdue, due within a day, due later, never due. */
  function Haste(neededBy: Option<int>, now: int): nat
  {
    if neededBy.None? then 3 else if neededBy.value < now then 0 else if neededBy.value <= now + 86400 then 1 else 2
  }

  /** Urgent, high, normal, anything else. */
  function Place(p: Priority): nat
  {
    if p == Urgent then 0 else if p == High then 1 else if p == Normal then 2 else 3
  }

  /** High, medium, low, anything else. */
  function Grade(p: Priority): nat
  {
    if p == High then 0 else if p == Normal then 1 else if p == Low then 2 else 3
  }

  /** Whole hours, the oldest of all where they are unknown or more than three days. */
  function Hours(item: Item): int
  {
    if item.ageUnknown || item.ageSeconds >= 72 * 3600 then 72 else item.ageSeconds / 3600
  }

  /** The first difference decides. */
  predicate Ahead(a: Item, b: Item, now: int)
  {
    if (a.state == Active) != (b.state == Active) then a.state == Active
    else if a.humanCanUnblock != b.humanCanUnblock then a.humanCanUnblock
    else if Place(a.priority) != Place(b.priority) then Place(a.priority) < Place(b.priority)
    else if Grade(a.risk) != Grade(b.risk) then Grade(a.risk) < Grade(b.risk)
    else if Tier(a.source) != Tier(b.source) then Tier(a.source) < Tier(b.source)
    else if Haste(a.neededBy, now) != Haste(b.neededBy, now) then Haste(a.neededBy, now) < Haste(b.neededBy, now)
    else if Hours(a) != Hours(b) then Hours(a) > Hours(b)
    else Le(Codes(a.itemId), Codes(b.itemId))
  }

  lemma {:induction false} LeSeven(a: seq<int>, b: seq<int>)
    requires |a| >= 7 && |b| >= 7
    ensures Le(a, b) <==>
      if a[0] != b[0] then a[0] < b[0] else if a[1] != b[1] then a[1] < b[1] else if a[2] != b[2] then a[2] < b[2]
      else if a[3] != b[3] then a[3] < b[3] else if a[4] != b[4] then a[4] < b[4]
      else if a[5] != b[5] then a[5] < b[5] else if a[6] != b[6] then a[6] < b[6] else Le(a[7..], b[7..])
  {
    LeFrom(a, b, 6);
    LeFrom(a, b, 5);
    LeFrom(a, b, 4);
    LeFrom(a, b, 3);
    LeFrom(a, b, 2);
    LeFrom(a, b, 1);
    LeFrom(a, b, 0);
    assert a[0..] == a && b[0..] == b;
  }

  lemma {:induction false} LeFrom(a: seq<int>, b: seq<int>, i: nat)
    requires i < |a| && i < |b|
    ensures Le(a[i..], b[i..]) <==> if a[i] != b[i] then a[i] < b[i] else Le(a[i + 1..], b[i + 1..])
  {
    assert a[i..][1..] == a[i + 1..] && b[i..][1..] == b[i + 1..];
  }

  /** Sorting by key is sorting by the first difference. */
  lemma {:induction false} RankExactly(a: Item, b: Item, now: int)
    ensures Le(SortKey(a, now), SortKey(b, now)) <==> Ahead(a, b, now)
  {
    var x, y := SortKey(a, now), SortKey(b, now);
    LeSeven(x, y);
    assert x[7..] == Codes(a.itemId) && y[7..] == Codes(b.itemId);
    WeightsAgree(a, b, now);
  }

  lemma {:induction false} WeightsAgree(a: Item, b: Item, now: int)
    ensures PriorityWeight(a.priority) > PriorityWeight(b.priority) <==> Place(a.priority) < Place(b.priority)
    ensures PriorityWeight(a.priority) == PriorityWeight(b.priority) <==> Place(a.priority) == Place(b.priority)
    ensures RiskWeight(a.risk) > RiskWeight(b.risk) <==> Grade(a.risk) < Grade(b.risk)
    ensures RiskWeight(a.risk) == RiskWeight(b.risk) <==> Grade(a.risk) == Grade(b.risk)
    ensures Weight(a.source) > Weight(b.source) <==> Tier(a.source) < Tier(b.source)
    ensures Weight(a.source) == Weight(b.source) <==> Tier(a.source) == Tier(b.source)
    ensures NeededWeight(a.neededBy, now) > NeededWeight(b.neededBy, now) <==> Haste(a.neededBy, now) < Haste(b.neededBy, now)
    ensures NeededWeight(a.neededBy, now) == NeededWeight(b.neededBy, now) <==> Haste(a.neededBy, now) == Haste(b.neededBy, now)
    ensures AgeBucket(a) == Hours(a) && AgeBucket(b) == Hours(b)
  {
  }
}
