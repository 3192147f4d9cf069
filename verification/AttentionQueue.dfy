/**
Ranking and assembly of the attention queue (src/agenttalk/attention.py): who is shown, who represents
whom, and in which order.
*/
module AttentionQueue {
  import opened Wrappers
  import opened StableSort
  import opened Attention

  // ------------------------------------------------------------ ranking

  function Weight(s: Source): int
  {
    match s
    case NeedsOperator => 100
    case ProcessTreeHold => 95
    case ConfigBlocked => 90
    case CoordinationStall => 85
    case UsageLimitPark => 82
    case DeadLetter => 80
    case GateHold => 70
    case CloseHold => 70
    case LeadUnarmed => 60
    case Capacity => 20
    case SourceError => 10
  }

  function PriorityWeight(p: Priority): int
  {
    match p
    case Urgent => 4
    case High => 3
    case Normal => 2
    case _ => 1
  }

  /** `normal` stands for medium; a severity the table does not know weighs nothing. */
  function RiskWeight(p: Priority): int
  {
    match p
    case High => 3
    case Normal => 2
    case Low => 1
    case _ => 0
  }

  function NeededWeight(neededBy: Option<int>, now: int): int
  {
    if neededBy.None? then 0
    else if neededBy.value < now then 3
    else if neededBy.value - now <= 24 * 3600 then 2
    else 1
  }

  function AgeBucket(item: Item): int
  {
    if item.ageUnknown || item.ageSeconds / 3600 > 72 then 72 else item.ageSeconds / 3600
  }

  function Codes(s: string): seq<int>
  {
    seq(|s|, i requires 0 <= i < |s| => s[i] as int)
  }

  /** The negated rank tuple, then the characters of the id: seven numbers, so the id only breaks ties. */
  function SortKey(item: Item, now: int): seq<int>
  {
    [ if item.state == Active then -1 else 0,
      if item.humanCanUnblock then -1 else 0,
      -PriorityWeight(item.priority), -RiskWeight(item.risk), -Weight(item.source),
      -NeededWeight(item.neededBy, now), -AgeBucket(item)
    ] + Codes(item.itemId)
  }

  function ByRank(now: int): Key<Item>
  {
    (item: Item) => SortKey(item, now)
  }

  lemma {:induction false} KeyNamesItem(a: Item, b: Item, now: int)
    requires SortKey(a, now) == SortKey(b, now)
    ensures a.itemId == b.itemId
  {
    assert SortKey(a, now)[7..] == Codes(a.itemId) && SortKey(b, now)[7..] == Codes(b.itemId);
    assert |a.itemId| == |b.itemId|;
    forall i | 0 <= i < |a.itemId| ensures a.itemId[i] == b.itemId[i] {
      assert Codes(a.itemId)[i] == Codes(b.itemId)[i];
    }
  }

  /** Every active item comes before every other one, whatever their weights. */
  lemma {:induction false} ActiveFirst(a: Item, b: Item, now: int)
    requires a.state == Active && b.state != Active
    ensures Le(SortKey(a, now), SortKey(b, now)) && !Le(SortKey(b, now), SortKey(a, now))
  {
    assert SortKey(a, now)[0] == -1 && SortKey(b, now)[0] == 0;
  }

  // ------------------------------------------------------------ groups

  datatype Entry = Entry(rep: Item, duplicates: seq<Item>)

  function MembersOf(k: string): Item -> Option<Item>
  {
    (item: Item) => if item.dedupeKey == k then Some(item) else None
  }

  function Group(visible: seq<Item>, k: string): seq<Item>
  {
    Collect(visible, MembersOf(k))
  }

  /** Group keys in order of first appearance. */
  function KeysOf(visible: seq<Item>): (ks: seq<string>)
  {
    if visible == [] then []
    else
      var ks := KeysOf(visible[..|visible| - 1]);
      var k := visible[|visible| - 1].dedupeKey;
      if k in ks then ks else ks + [k]
  }

  predicate Distinct<T(==)>(xs: seq<T>)
  {
    forall i, j :: 0 <= i < j < |xs| ==> xs[i] != xs[j]
  }

  lemma {:induction false} KeysCover(visible: seq<Item>)
    ensures Distinct(KeysOf(visible))
    ensures forall k :: k in KeysOf(visible) <==> exists x :: x in visible && x.dedupeKey == k
  {
    if visible != [] {
      var front, last := visible[..|visible| - 1], visible[|visible| - 1];
      assert visible == front + [last];
      KeysCover(front);
    }
  }

  lemma {:induction false} InGroup(visible: seq<Item>, k: string, x: Item)
    ensures x in Group(visible, k) <==> x in visible && x.dedupeKey == k
    ensures multiset(Group(visible, k))[x] == if x.dedupeKey == k then multiset(visible)[x] else 0
  {
    if visible != [] {
      var front, last := visible[..|visible| - 1], visible[|visible| - 1];
      assert visible == front + [last];
      InGroup(front, k, x);
    }
  }

  /** The highest-ranked member stands for the group, the others are listed under it. */
  function EntryFor(members: seq<Item>, now: int): Entry
    requires members != []
  {
    SortSorts(members, ByRank(now));
    var ranked := SortBy(members, ByRank(now));
    Entry(ranked[0], ranked[1..])
  }

  function EntryOf(visible: seq<Item>, now: int): string -> Option<Entry>
  {
    (k: string) => if Group(visible, k) == [] then None else Some(EntryFor(Group(visible, k), now))
  }

  function ByRepresentative(now: int): Key<Entry>
  {
    (e: Entry) => SortKey(e.rep, now)
  }

  function Queue(visible: seq<Item>, now: int): seq<Entry>
  {
    SortBy(Collect(KeysOf(visible), EntryOf(visible, now)), ByRepresentative(now))
  }

  // ------------------------------------------------------------ each visible item once

  function ItemsOf(e: Entry): seq<Item>
  {
    [e.rep] + e.duplicates
  }

  function Flatten(entries: seq<Entry>): seq<Item>
  {
    if entries == [] then [] else ItemsOf(entries[0]) + Flatten(entries[1..])
  }

  lemma {:induction false} FlattenConcat(a: seq<Entry>, b: seq<Entry>)
    ensures Flatten(a + b) == Flatten(a) + Flatten(b)
  {
    if a == [] {
      assert a + b == b;
    } else {
      assert (a + b)[1..] == a[1..] + b;
      FlattenConcat(a[1..], b);
    }
  }

  lemma {:induction false} FlattenIgnoresOrder(a: seq<Entry>, b: seq<Entry>)
    requires multiset(a) == multiset(b)
    ensures multiset(Flatten(a)) == multiset(Flatten(b))
    decreases |a|
  {
    if a == [] {
      assert |multiset(b)| == |b| && |multiset(a)| == 0;
    } else {
      var pre, post := TakeOut(a, b);
      FlattenIgnoresOrder(a[1..], pre + post);
      FlattenConcat(pre + [a[0]], post);
      FlattenConcat(pre, [a[0]]);
      FlattenConcat(pre, post);
      assert Flatten([a[0]]) == ItemsOf(a[0]) + Flatten([]) == ItemsOf(a[0]);
    }
  }

  lemma {:induction false} EntryHoldsGroup(members: seq<Item>, now: int)
    requires members != []
    ensures multiset(ItemsOf(EntryFor(members, now))) == multiset(members)
    ensures EntryFor(members, now).rep in members
    ensures forall x :: x in members ==> Le(SortKey(EntryFor(members, now).rep, now), SortKey(x, now))
  {
    var key, ranked := ByRank(now), SortBy(members, ByRank(now));
    SortSorts(members, key);
    assert ranked == [ranked[0]] + ranked[1..];
    SameMembers(ranked, members, ranked[0]);
    forall x | x in members ensures Le(key(ranked[0]), key(x)) {
      SameMembers(ranked, members, x);
      FirstIsLeast(ranked, x, key);
    }
  }

  lemma {:induction false} GroupOnce(visible: seq<Item>, k: string, now: int, x: Item)
    ensures multiset(Flatten(Kept(EntryOf(visible, now)(k))))[x] == if x.dedupeKey == k then multiset(visible)[x] else 0
  {
    var more := Kept(EntryOf(visible, now)(k));
    InGroup(visible, k, x);
    if Group(visible, k) != [] {
      EntryHoldsGroup(Group(visible, k), now);
      assert Flatten(more) == ItemsOf(more[0]) + Flatten(more[1..]) == ItemsOf(more[0]);
    }
  }

  lemma {:induction false} GroupsOnce(visible: seq<Item>, ks: seq<string>, now: int, x: Item)
    requires Distinct(ks)
    ensures multiset(Flatten(Collect(ks, EntryOf(visible, now))))[x]
         == if x.dedupeKey in ks then multiset(visible)[x] else 0
  {
    if ks != [] {
      var front, k := ks[..|ks| - 1], ks[|ks| - 1];
      assert ks == front + [k];
      GroupsOnce(visible, front, now, x);
      FlattenConcat(Collect(front, EntryOf(visible, now)), Kept(EntryOf(visible, now)(k)));
      GroupOnce(visible, k, now, x);
    }
  }

  /** Every visible item is in the queue exactly as often as it was visible, as representative or duplicate. */
  lemma {:induction false} EveryItemOnce(visible: seq<Item>, now: int)
    ensures multiset(Flatten(Queue(visible, now))) == multiset(visible)
  {
    var entries := Collect(KeysOf(visible), EntryOf(visible, now));
    KeysCover(visible);
    SortSorts(entries, ByRepresentative(now));
    FlattenIgnoresOrder(Queue(visible, now), entries);
    forall x: Item ensures multiset(Flatten(entries))[x] == multiset(visible)[x] {
      GroupsOnce(visible, KeysOf(visible), now, x);
      assert x in multiset(visible) ==> x in visible;
    }
  }

  /** Entries are in rank order, each is one whole group, and its representative outranks its duplicates. */
  lemma {:induction false} QueueIsRanked(visible: seq<Item>, now: int, e: Entry)
    requires e in Queue(visible, now)
    ensures Sorted(Queue(visible, now), ByRepresentative(now))
    ensures multiset(ItemsOf(e)) == multiset(Group(visible, e.rep.dedupeKey))
    ensures forall x :: x in ItemsOf(e) ==> Le(SortKey(e.rep, now), SortKey(x, now))
  {
    var entries := Collect(KeysOf(visible), EntryOf(visible, now));
    SortSorts(entries, ByRepresentative(now));
    SameMembers(Queue(visible, now), entries, e);
    Collected(KeysOf(visible), EntryOf(visible, now), e);
    var k :| k in KeysOf(visible) && EntryOf(visible, now)(k) == Some(e);
    EntryHoldsGroup(Group(visible, k), now);
    InGroup(visible, k, e.rep);
    forall x | x in ItemsOf(e) ensures x in Group(visible, k) {
      SameMembers(ItemsOf(e), Group(visible, k), x);
    }
  }

  // ------------------------------------------------------------ what is printed

  /** A duplicate is listed by its id and references alone. */
  datatype Shadow = Shadow(itemId: string, refs: seq<string>)

  datatype Line = Line(rep: Item, duplicates: seq<Shadow>)

  function ShadowOf(item: Item): Shadow
  {
    Shadow(item.itemId, item.refs)
  }

  function Shadows(items: seq<Item>): (r: seq<Shadow>)
    ensures |r| == |items| && forall i :: 0 <= i < |r| ==> r[i] == ShadowOf(items[i])
  {
    seq(|items|, i requires 0 <= i < |items| => ShadowOf(items[i]))
  }

  function LineFrom(e: Entry): Line
  {
    Line(e.rep, Shadows(e.duplicates))
  }

  function Rendered(entries: seq<Entry>): (r: seq<Line>)
    ensures |r| == |entries| && forall i :: 0 <= i < |r| ==> r[i] == LineFrom(entries[i])
  {
    seq(|entries|, i requires 0 <= i < |entries| => LineFrom(entries[i]))
  }

  lemma {:induction false} RenderConcat(a: seq<Entry>, b: seq<Entry>)
    ensures Rendered(a + b) == Rendered(a) + Rendered(b)
  {
  }

  // ------------------------------------------------------------ assembly

  datatype Show = Show(deferred: bool, dismissed: bool, resolved: bool)

  predicate Shown(item: Item, show: Show)
  {
    match item.state
    case Active => true
    case Deferred => show.deferred
    case Dismissed => show.dismissed
    case Resolved => show.resolved
    case Answered => show.resolved
  }

  function Seen(folded: Folded, clock: Clock, show: Show): Item -> Option<Item>
    requires SoundFold(folded)
  {
    (item: Item) => if Shown(Applied(item, folded, clock), show) then Some(Applied(item, folded, clock)) else None
  }

  function VisibleOf(items: seq<Item>, folded: Folded, clock: Clock, show: Show): seq<Item>
    requires SoundFold(folded)
  {
    Collect(items, Seen(folded, clock, show))
  }

  /** The dictionary of groups after some of the visible items, with its keys in insertion order. */
  ghost predicate Grouped(visible: seq<Item>, order: seq<string>, groups: map<string, seq<Item>>)
  {
    && order == KeysOf(visible) && (forall k :: k in groups <==> k in order)
    && forall k :: k in groups ==> IsGroup(visible, groups[k], k)
  }

  ghost predicate IsGroup(visible: seq<Item>, members: seq<Item>, k: string)
  {
    members != [] && members == Group(visible, k)
  }

  lemma {:induction false} GroupGrows(visible: seq<Item>, x: Item, k: string)
    ensures Group(visible + [x], k) == Group(visible, k) + (if x.dedupeKey == k then [x] else [])
  {
    assert (visible + [x])[..|visible|] == visible;
  }

  lemma {:induction false} KeysGrow(visible: seq<Item>, x: Item)
    ensures KeysOf(visible + [x]) == KeysOf(visible) + (if x.dedupeKey in KeysOf(visible) then [] else [x.dedupeKey])
  {
    assert (visible + [x])[..|visible|] == visible;
  }

  lemma {:induction false} NewKeyIsEmpty(visible: seq<Item>, k: string)
    requires k !in KeysOf(visible)
    ensures Group(visible, k) == []
  {
    KeysCover(visible);
    if Group(visible, k) != [] {
      InGroup(visible, k, Group(visible, k)[0]);
    }
  }

  function Added(groups: map<string, seq<Item>>, x: Item): map<string, seq<Item>>
  {
    groups[x.dedupeKey := (if x.dedupeKey in groups then groups[x.dedupeKey] else []) + [x]]
  }

  lemma {:induction false} GroupOneMore(
    visible: seq<Item>, x: Item, longer: seq<Item>, order: seq<string>, groups: map<string, seq<Item>>)
    requires Grouped(visible, order, groups) && longer == visible + [x]
    ensures Grouped(longer, if x.dedupeKey in groups then order else order + [x.dedupeKey], Added(groups, x))
  {
    var key := x.dedupeKey;
    var after := Added(groups, x);
    KeysGrow(visible, x);
    if key !in groups {
      NewKeyIsEmpty(visible, key);
    }
    forall k | k in after ensures IsGroup(longer, after[k], k) {
      GroupGrows(visible, x, k);
      assert k in groups ==> IsGroup(visible, groups[k], k);
    }
  }

  method GroupItems(visible: seq<Item>) returns (order: seq<string>, groups: map<string, seq<Item>>)
    ensures Grouped(visible, order, groups)
  {
    order, groups := [], map[];
    for i := 0 to |visible|
      invariant Grouped(visible[..i], order, groups)
    {
      var x := visible[i];
      assert visible[..i + 1] == visible[..i] + [x];
      GroupOneMore(visible[..i], x, visible[..i + 1], order, groups);
      ghost var next := Added(groups, x);
      var k := x.dedupeKey;
      var members := if k in groups then groups[k] else [];
      order := if k in groups then order else order + [k];
      groups := groups[k := members + [x]];
      assert groups == next;
    }
    assert visible[..|visible|] == visible;
  }

  method Represent(visible: seq<Item>, order: seq<string>, groups: map<string, seq<Item>>, now: int)
    returns (reps: seq<Line>)
    requires Grouped(visible, order, groups)
    ensures reps == Rendered(Collect(KeysOf(visible), EntryOf(visible, now)))
  {
    reps := [];
    ghost var entry := EntryOf(visible, now);
    for i := 0 to |order|
      invariant reps == Rendered(Collect(order[..i], entry))
    {
      RepresentOne(visible, order, groups, now, i);
      var members := groups[order[i]];
      reps := reps + [LineFrom(EntryFor(members, now))];
    }
    assert order[..|order|] == order;
  }

  function ByLine(now: int): Key<Line>
  {
    (l: Line) => SortKey(l.rep, now)
  }

  lemma {:induction false} RenderInsert(e: Entry, entries: seq<Entry>, now: int)
    ensures Rendered(Insert(e, entries, ByRepresentative(now))) == Insert(LineFrom(e), Rendered(entries), ByLine(now))
  {
    if entries != [] && !Le(SortKey(e.rep, now), SortKey(entries[0].rep, now)) {
      RenderInsert(e, entries[1..], now);
      assert Rendered(entries)[1..] == Rendered(entries[1..]);
    }
  }

  /** Sorting what is printed is printing what was sorted. */
  lemma {:induction false} RenderSort(entries: seq<Entry>, now: int)
    ensures Rendered(SortBy(entries, ByRepresentative(now))) == SortBy(Rendered(entries), ByLine(now))
  {
    if entries != [] {
      RenderSort(entries[1..], now);
      RenderInsert(entries[0], SortBy(entries[1..], ByRepresentative(now)), now);
      assert Rendered(entries)[1..] == Rendered(entries[1..]);
    }
  }

  lemma {:induction false} RepresentOne(
    visible: seq<Item>, order: seq<string>, groups: map<string, seq<Item>>, now: int, i: nat)
    requires Grouped(visible, order, groups) && i < |order|
    ensures order[i] in groups && groups[order[i]] != []
    ensures Rendered(Collect(order[..i + 1], EntryOf(visible, now)))
         == Rendered(Collect(order[..i], EntryOf(visible, now))) + [LineFrom(EntryFor(groups[order[i]], now))]
  {
    var k, entry := order[i], EntryOf(visible, now);
    assert k in order && IsGroup(visible, groups[k], k);
    CollectStep(order, i, entry);
    assert entry(k) == Some(EntryFor(groups[k], now));
    RenderConcat(Collect(order[..i], entry), [EntryFor(groups[k], now)]);
  }

  lemma {:induction false} VisibleStep(items: seq<Item>, n: nat, folded: Folded, clock: Clock, show: Show)
    requires SoundFold(folded) && n < |items|
    ensures var item := Applied(items[n], folded, clock);
      VisibleOf(items[..n + 1], folded, clock, show)
      == VisibleOf(items[..n], folded, clock, show) + (if Shown(item, show) then [item] else [])
  {
    CollectStep(items, n, Seen(folded, clock, show));
  }

  method SelectVisible(items: seq<Item>, folded: Folded, clock: Clock, show: Show) returns (visible: seq<Item>)
    requires SoundFold(folded)
    ensures visible == VisibleOf(items, folded, clock, show)
  {
    visible := [];
    for i := 0 to |items|
      invariant visible == VisibleOf(items[..i], folded, clock, show)
    {
      VisibleStep(items, i, folded, clock, show);
      var item := ApplyDisposition(items[i], folded, clock);
      if Shown(item, show) {
        visible := visible + [item];
      }
    }
    assert items[..|items|] == items;
  }

  /** What the operator is shown: nothing at all where the log does not fold. */
  function QueueFor(items: seq<Item>, events: seq<Event>, clock: Clock, now: int, show: Show): Result<seq<Line>, FoldError>
  {
    match Fold(events)
    case Refused(error) => Refused(error)
    case Ok(folded) => Ok(Rendered(Queue(VisibleOf(items, folded, clock, show), now)))
  }

  method BuildQueue(items: seq<Item>, events: seq<Event>, clock: Clock, now: int, show: Show)
    returns (r: Result<seq<Line>, FoldError>)
    ensures r == QueueFor(items, events, clock, now, show)
    ensures r.Ok? <==> Hashable(events)
  {
    var latest := FoldDispositions(events);
    if latest.Refused? {
      return Refused(latest.error);
    }
    var visible := SelectVisible(items, latest.value, clock, show);
    var order, groups := GroupItems(visible);
    var reps := Represent(visible, order, groups, now);
    RenderSort(Collect(KeysOf(visible), EntryOf(visible, now)), now);
    return Ok(SortBy(reps, ByLine(now)));
  }

  /** An active item that no line of the log handles is in the queue, as itself, whatever is asked for. */
  lemma {:induction false} UnhandledIsQueued(
    items: seq<Item>, events: seq<Event>, clock: Clock, show: Show, now: int, item: Item)
    requires Hashable(events) && item in items && item.state == Active && !Handled(events, item, clock)
    ensures var folded := Fold(events).value;
      Applied(item, folded, clock) in Flatten(Queue(VisibleOf(items, folded, clock, show), now))
  {
    var folded := Fold(events).value;
    var visible := VisibleOf(items, folded, clock, show);
    HiddenExactlyWhenHandled(events, item, clock);
    CollectHolds(items, Seen(folded, clock, show), item);
    EveryItemOnce(visible, now);
    SameMembers(Flatten(Queue(visible, now)), visible, Applied(item, folded, clock));
  }

  lemma {:induction false} CollectHolds<T, U>(xs: seq<T>, f: T -> Option<U>, x: T)
    requires x in xs && f(x).Some?
    ensures f(x).value in Collect(xs, f)
  {
    var n := |xs| - 1;
    if xs[n] != x {
      assert x in xs[..n];
      CollectHolds(xs[..n], f, x);
    }
  }
}
