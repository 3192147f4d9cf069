/**
Does the queue depend on the order in which the sources deliver their items? (`build_queue` and `sort_items` in
src/agenttalk/attention.py.) The sort is stable, so it does exactly where a tie can be seen.
*/
module AttentionOrder {
  import opened Wrappers
  import opened StableSort
  import opened Attention
  import opened AttentionQueue

  // ------------------------------------------------------------ one group

  function LineFor(members: seq<Item>, now: int): Line
    requires members != []
  {
    LineFrom(EntryFor(members, now))
  }

  /** Nobody in the group outranks the item. */
  ghost predicate Leads(members: seq<Item>, x: Item, now: int)
  {
    forall z :: z in members ==> Le(SortKey(x, now), SortKey(z, now))
  }

  /** A tie between the two cannot be seen: they are listed alike, and at the top they are the same. */
  ghost predicate TieHidden(members: seq<Item>, x: Item, y: Item, now: int)
  {
    ShadowOf(x) == ShadowOf(y) && (Leads(members, x, now) ==> x == y)
  }

  ghost predicate TiesHidden(members: seq<Item>, now: int)
  {
    forall x, y :: x in members && y in members && SortKey(x, now) == SortKey(y, now) ==> TieHidden(members, x, y, now)
  }

  lemma {:induction false} RankedAt(members: seq<Item>, now: int, i: nat)
    requires i < |members|
    ensures |SortBy(members, ByRank(now))| == |members| && SortBy(members, ByRank(now))[i] in members
    ensures Leads(members, SortBy(members, ByRank(now))[0], now)
  {
    var ranked := SortBy(members, ByRank(now));
    SortSorts(members, ByRank(now));
    SameMembers(ranked, members, ranked[i]);
    EntryHoldsGroup(members, now);
  }

  lemma {:induction false} GroupSettled(a: seq<Item>, b: seq<Item>, now: int)
    requires a != [] && multiset(a) == multiset(b) && TiesHidden(a, now)
    ensures b != [] && LineFor(a, now) == LineFor(b, now)
  {
    assert |multiset(a)| == |a| && |multiset(b)| == |b|;
    var ra, rb := SortBy(a, ByRank(now)), SortBy(b, ByRank(now));
    SortSorts(a, ByRank(now));
    SortSorts(b, ByRank(now));
    SameKeys(a, b, ByRank(now));
    forall i | 0 <= i < |a| ensures TieHidden(a, ra[i], rb[i], now) {
      RankedAt(a, now, i);
      RankedAt(b, now, i);
      SameMembers(a, b, rb[i]);
      assert ByRank(now)(ra[i]) == ByRank(now)(rb[i]);
    }
    RankedAt(a, now, 0);
    RankedAt(b, now, 0);
    assert TieHidden(a, ra[0], rb[0], now);
    forall i | 0 <= i < |a| - 1 ensures Shadows(ra[1..])[i] == Shadows(rb[1..])[i] {
      assert TieHidden(a, ra[i + 1], rb[i + 1], now);
    }
    assert Shadows(ra[1..]) == Shadows(rb[1..]);
  }

  lemma {:induction false} LeadsSorted(x: Item, y: Item, rest: seq<Item>, now: int)
    requires SortKey(x, now) == SortKey(y, now)
    ensures var s := SortBy(rest, ByRank(now));
      Leads([x, y] + rest, x, now) ==> s == [] || Le(SortKey(x, now), SortKey(s[0], now))
  {
    var s := SortBy(rest, ByRank(now));
    SortSorts(rest, ByRank(now));
    if s != [] {
      SameMembers(s, rest, s[0]);
      assert s[0] in [x, y] + rest;
    }
  }

  /** A tie that can be seen: taken in first, either of the two is printed first. */
  lemma {:induction false} TieShows(x: Item, y: Item, rest: seq<Item>, now: int)
    requires SortKey(x, now) == SortKey(y, now) && !TieHidden([x, y] + rest, x, y, now)
    ensures LineFor([x, y] + rest, now) != LineFor([y, x] + rest, now)
  {
    var key, s := ByRank(now), SortBy(rest, ByRank(now));
    LeadsSorted(x, y, rest, now);
    var p := SortTwo(x, y, rest, key);
    var one, two := SortBy([x, y] + rest, key), SortBy([y, x] + rest, key);
    assert one[p] == x && two[p] == y;
    if p > 0 {
      assert !Leads([x, y] + rest, x, now);
      assert Shadows(one[1..])[p - 1] == ShadowOf(x) && Shadows(two[1..])[p - 1] == ShadowOf(y);
    }
  }

  // ------------------------------------------------------------ all groups

  function LineOf(visible: seq<Item>, now: int): string -> Option<Line>
  {
    (k: string) => if Group(visible, k) == [] then None else Some(LineFor(Group(visible, k), now))
  }

  function LinesOf(visible: seq<Item>, now: int): seq<Line>
  {
    Collect(KeysOf(visible), LineOf(visible, now))
  }

  lemma {:induction false} RenderKept(e: Option<Entry>)
    ensures Rendered(Kept(e)) == Kept(if e.None? then None else Some(LineFrom(e.value)))
  {
  }

  lemma {:induction false} RenderCollect(visible: seq<Item>, ks: seq<string>, now: int)
    ensures Rendered(Collect(ks, EntryOf(visible, now))) == Collect(ks, LineOf(visible, now))
  {
    if ks != [] {
      var front, k := ks[..|ks| - 1], ks[|ks| - 1];
      RenderCollect(visible, front, now);
      RenderConcat(Collect(front, EntryOf(visible, now)), Kept(EntryOf(visible, now)(k)));
      RenderKept(EntryOf(visible, now)(k));
    }
  }

  /** The queue as it is printed. */
  function Printed(visible: seq<Item>, now: int): seq<Line>
  {
    Rendered(Queue(visible, now))
  }

  lemma {:induction false} PrintedIsSorted(visible: seq<Item>, now: int)
    ensures Printed(visible, now) == SortBy(LinesOf(visible, now), ByLine(now))
  {
    RenderSort(Collect(KeysOf(visible), EntryOf(visible, now)), now);
    RenderCollect(visible, KeysOf(visible), now);
  }

  /** A line tells its group. */
  lemma {:induction false} LineNamesGroup(visible: seq<Item>, now: int, l: Line)
    requires l in LinesOf(visible, now)
    ensures l.rep in visible && LineOf(visible, now)(l.rep.dedupeKey) == Some(l)
  {
    Collected(KeysOf(visible), LineOf(visible, now), l);
    var k :| k in KeysOf(visible) && LineOf(visible, now)(k) == Some(l);
    EntryHoldsGroup(Group(visible, k), now);
    InGroup(visible, k, l.rep);
  }

  /** No tie can be seen: neither in a group nor between the representatives of two groups. */
  ghost predicate Unambiguous(visible: seq<Item>, now: int)
  {
    && (forall k :: TiesHidden(Group(visible, k), now))
    && Injective(LinesOf(visible, now), ByLine(now))
  }

  ghost predicate QueueOrderFree(visible: seq<Item>, now: int)
  {
    forall b: seq<Item> :: multiset(b) == multiset(visible) ==> Printed(b, now) == Printed(visible, now)
  }

  lemma {:induction false} DistinctMultiset<T>(a: seq<T>, b: seq<T>)
    requires Distinct(a) && Distinct(b) && forall x :: x in a <==> x in b
    ensures multiset(a) == multiset(b)
  {
    forall x ensures multiset(a)[x] == multiset(b)[x] {
      DistinctCount(a, x);
      DistinctCount(b, x);
    }
  }

  lemma {:induction false} DistinctCount<T>(a: seq<T>, x: T)
    requires Distinct(a)
    ensures multiset(a)[x] == if x in a then 1 else 0
  {
    if a != [] {
      assert a == a[..|a| - 1] + [a[|a| - 1]];
      DistinctCount(a[..|a| - 1], x);
    }
  }

  lemma {:induction false} CollectAlike<T, U>(xs: seq<T>, f: T -> Option<U>, g: T -> Option<U>)
    requires forall x :: x in xs ==> f(x) == g(x)
    ensures Collect(xs, f) == Collect(xs, g)
  {
    if xs != [] {
      CollectAlike(xs[..|xs| - 1], f, g);
    }
  }

  lemma {:induction false} SameLines(a: seq<Item>, b: seq<Item>, now: int, k: string)
    requires multiset(a) == multiset(b) && TiesHidden(Group(a, k), now)
    ensures LineOf(a, now)(k) == LineOf(b, now)(k)
  {
    var ga, gb := Group(a, k), Group(b, k);
    CollectIgnoresOrder(a, b, MembersOf(k));
    assert |multiset(ga)| == |ga| && |multiset(gb)| == |gb|;
    if ga != [] {
      GroupSettled(ga, gb, now);
    }
  }

  lemma {:induction false} LinesKeepMembers(a: seq<Item>, b: seq<Item>, now: int)
    requires multiset(a) == multiset(b) && forall k :: TiesHidden(Group(a, k), now)
    ensures multiset(LinesOf(a, now)) == multiset(LinesOf(b, now))
  {
    KeysCover(a);
    KeysCover(b);
    forall x: Item ensures x in a <==> x in b {
      SameMembers(a, b, x);
    }
    DistinctMultiset(KeysOf(a), KeysOf(b));
    CollectIgnoresOrder(KeysOf(a), KeysOf(b), LineOf(a, now));
    forall k | k in KeysOf(b) ensures LineOf(a, now)(k) == LineOf(b, now)(k) {
      SameLines(a, b, now, k);
    }
    CollectAlike(KeysOf(b), LineOf(a, now), LineOf(b, now));
  }

  lemma {:induction false} UnambiguousSettles(a: seq<Item>, b: seq<Item>, now: int)
    requires multiset(a) == multiset(b) && Unambiguous(a, now)
    ensures Printed(a, now) == Printed(b, now)
  {
    LinesKeepMembers(a, b, now);
    SortIgnoresOrder(LinesOf(a, now), LinesOf(b, now), ByLine(now));
    PrintedIsSorted(a, now);
    PrintedIsSorted(b, now);
  }

  // ------------------------------------------------------------ a tie in a group

  lemma {:induction false} GroupOfTwo(x: Item, y: Item, rest: seq<Item>, k: string)
    ensures Group([x, y] + rest, k)
         == (if x.dedupeKey == k then [x] else []) + (if y.dedupeKey == k then [y] else []) + Group(rest, k)
  {
    CollectConcat([x, y], rest, MembersOf(k));
    assert [x, y] == [x] + [y];
    CollectConcat([x], [y], MembersOf(k));
    CollectOne(x, MembersOf(k));
    CollectOne(y, MembersOf(k));
  }

  lemma {:induction false} GroupOfPair(x: Item, y: Item, rest: seq<Item>)
    requires x.dedupeKey == y.dedupeKey
    ensures Group([x, y] + rest, x.dedupeKey) == [x, y] + Group(rest, x.dedupeKey)
  {
    CollectTwo(x, y, rest, MembersOf(x.dedupeKey), x, y);
  }

  lemma {:induction false} GroupTakesTwo(visible: seq<Item>, x: Item, y: Item, rest: seq<Item>)
    requires multiset([x, y] + rest) == multiset(visible) && x.dedupeKey == y.dedupeKey
    ensures multiset([x, y] + Group(rest, x.dedupeKey)) == multiset(Group(visible, x.dedupeKey))
  {
    CollectIgnoresOrder([x, y] + rest, visible, MembersOf(x.dedupeKey));
    GroupOfPair(x, y, rest);
  }

  lemma {:induction false} LeadsAlike(a: seq<Item>, b: seq<Item>, x: Item, now: int)
    requires multiset(a) == multiset(b)
    ensures Leads(a, x, now) <==> Leads(b, x, now)
  {
    forall z: Item ensures z in a <==> z in b {
      SameMembers(a, b, z);
    }
  }

  lemma {:induction false} PrintedLine(visible: seq<Item>, now: int, k: string, l: Line)
    requires LineOf(visible, now)(k) == Some(l)
    ensures l in Printed(visible, now) && l.rep.dedupeKey == k
    ensures forall m :: m in Printed(visible, now) && m.rep.dedupeKey == k ==> m == l
  {
    var lines := LinesOf(visible, now);
    PrintedIsSorted(visible, now);
    SortSorts(lines, ByLine(now));
    KeysCover(visible);
    InGroup(visible, k, Group(visible, k)[0]);
    CollectHolds(KeysOf(visible), LineOf(visible, now), k);
    SameMembers(Printed(visible, now), lines, l);
    EntryHoldsGroup(Group(visible, k), now);
    InGroup(visible, k, l.rep);
    forall m | m in Printed(visible, now) && m.rep.dedupeKey == k ensures m == l {
      SameMembers(Printed(visible, now), lines, m);
      LineNamesGroup(visible, now, m);
    }
  }

  /** The visible tie decides which of two orders was taken. */
  lemma {:induction false} GroupSwapShows(x: Item, y: Item, rest: seq<Item>, now: int)
    requires x.dedupeKey == y.dedupeKey && SortKey(x, now) == SortKey(y, now)
    requires !TieHidden([x, y] + Group(rest, x.dedupeKey), x, y, now)
    ensures Printed([x, y] + rest, now) != Printed([y, x] + rest, now)
  {
    var k := x.dedupeKey;
    var one, two, members := [x, y] + rest, [y, x] + rest, Group(rest, k);
    TieShows(x, y, members, now);
    GroupOfPair(x, y, rest);
    GroupOfPair(y, x, rest);
    PrintedLine(one, now, k, LineFor([x, y] + members, now));
    PrintedLine(two, now, k, LineFor([y, x] + members, now));
  }

  lemma {:induction false} NotOrderFree(visible: seq<Item>, one: seq<Item>, two: seq<Item>, now: int)
    requires multiset(one) == multiset(visible) && multiset(two) == multiset(visible)
    requires Printed(one, now) != Printed(two, now)
    ensures !QueueOrderFree(visible, now)
  {
  }

  lemma {:induction false} HiddenAlike(a: seq<Item>, b: seq<Item>, x: Item, y: Item, now: int)
    requires multiset(a) == multiset(b)
    ensures TieHidden(a, x, y, now) <==> TieHidden(b, x, y, now)
  {
    LeadsAlike(a, b, x, now);
  }

  lemma {:induction false} GroupTieShows(visible: seq<Item>, k: string, x: Item, y: Item, now: int)
    requires x in Group(visible, k) && y in Group(visible, k) && SortKey(x, now) == SortKey(y, now)
    requires x != y && !TieHidden(Group(visible, k), x, y, now)
    ensures !QueueOrderFree(visible, now)
  {
    InGroup(visible, k, x);
    InGroup(visible, k, y);
    var rest := TakeTwo(visible, x, y);
    GroupTakesTwo(visible, x, y, rest);
    HiddenAlike([x, y] + Group(rest, k), Group(visible, k), x, y, now);
    GroupSwapShows(x, y, rest, now);
    NotOrderFree(visible, [x, y] + rest, [y, x] + rest, now);
  }

  // ------------------------------------------------------------ a tie between groups

  lemma {:induction false} KeysSwap(x: Item, y: Item, rest: seq<Item>) returns (more: seq<string>)
    requires x.dedupeKey != y.dedupeKey
    ensures KeysOf([x, y] + rest) == [x.dedupeKey, y.dedupeKey] + more
    ensures KeysOf([y, x] + rest) == [y.dedupeKey, x.dedupeKey] + more
  {
    if rest == [] {
      more := [];
      assert [x, y] == ([] + [x]) + [y] && [y, x] == ([] + [y]) + [x];
      KeysGrow([], x);
      KeysGrow([], y);
      KeysGrow([] + [x], y);
      KeysGrow([] + [y], x);
      assert [x, y] + rest == [x, y] && [y, x] + rest == [y, x];
    } else {
      var front, last := rest[..|rest| - 1], rest[|rest| - 1];
      more := KeysSwap(x, y, front);
      assert [x, y] + rest == ([x, y] + front) + [last] && [y, x] + rest == ([y, x] + front) + [last];
      KeysGrow([x, y] + front, last);
      KeysGrow([y, x] + front, last);
      more := more + if last.dedupeKey in [x.dedupeKey, y.dedupeKey] + more then [] else [last.dedupeKey];
    }
  }

  lemma {:induction false} LinesSwap(x: Item, y: Item, rest: seq<Item>, now: int, l: Line, m: Line) returns (more: seq<Line>)
    requires x.dedupeKey != y.dedupeKey
    requires LineOf([x, y] + rest, now)(x.dedupeKey) == Some(l) && LineOf([x, y] + rest, now)(y.dedupeKey) == Some(m)
    ensures LinesOf([x, y] + rest, now) == [l, m] + more && LinesOf([y, x] + rest, now) == [m, l] + more
  {
    var one, two := [x, y] + rest, [y, x] + rest;
    var f, g := LineOf(one, now), LineOf(two, now);
    forall k ensures f(k) == g(k) {
      GroupOfTwo(x, y, rest, k);
      GroupOfTwo(y, x, rest, k);
    }
    var ks := KeysSwap(x, y, rest);
    more := Collect(ks, f);
    CollectTwo(x.dedupeKey, y.dedupeKey, ks, f, l, m);
    CollectTwo(y.dedupeKey, x.dedupeKey, ks, g, m, l);
    CollectAlike(ks, f, g);
  }

  lemma {:induction false} LinesSwapShows(x: Item, y: Item, rest: seq<Item>, now: int, l: Line, m: Line)
    requires x.dedupeKey != y.dedupeKey && l != m && SortKey(l.rep, now) == SortKey(m.rep, now)
    requires LineOf([x, y] + rest, now)(x.dedupeKey) == Some(l) && LineOf([x, y] + rest, now)(y.dedupeKey) == Some(m)
    ensures Printed([x, y] + rest, now) != Printed([y, x] + rest, now)
  {
    var more := LinesSwap(x, y, rest, now, l, m);
    TiesShow(l, m, more, ByLine(now));
    PrintedIsSorted([x, y] + rest, now);
    PrintedIsSorted([y, x] + rest, now);
  }

  lemma {:induction false} LinesTieShows(visible: seq<Item>, l: Line, m: Line, now: int)
    requires forall k :: TiesHidden(Group(visible, k), now)
    requires l in LinesOf(visible, now) && m in LinesOf(visible, now) && l != m
    requires SortKey(l.rep, now) == SortKey(m.rep, now)
    ensures !QueueOrderFree(visible, now)
  {
    LineNamesGroup(visible, now, l);
    LineNamesGroup(visible, now, m);
    var x, y := l.rep, m.rep;
    var rest := TakeTwo(visible, x, y);
    SameLines(visible, [x, y] + rest, now, x.dedupeKey);
    SameLines(visible, [x, y] + rest, now, y.dedupeKey);
    LinesSwapShows(x, y, rest, now, l, m);
    NotOrderFree(visible, [x, y] + rest, [y, x] + rest, now);
  }

  // ------------------------------------------------------------ main results

  /** The printed queue is the same for every order of the visible items if and only if no tie can be seen. */
  lemma {:induction false} QueueOrderFreeExactly(visible: seq<Item>, now: int)
    ensures QueueOrderFree(visible, now) <==> Unambiguous(visible, now)
  {
    if Unambiguous(visible, now) {
      forall b: seq<Item> | multiset(b) == multiset(visible) ensures Printed(b, now) == Printed(visible, now) {
        UnambiguousSettles(visible, b, now);
      }
    } else if k :| !TiesHidden(Group(visible, k), now) {
      var members := Group(visible, k);
      var x, y :| x in members && y in members && SortKey(x, now) == SortKey(y, now) && !TieHidden(members, x, y, now);
      GroupTieShows(visible, k, x, y, now);
    } else {
      var l, m :| l in LinesOf(visible, now) && m in LinesOf(visible, now) && ByLine(now)(l) == ByLine(now)(m) && l != m;
      LinesTieShows(visible, l, m, now);
    }
  }

  ghost predicate AssemblyOrderFree(items: seq<Item>, folded: Folded, clock: Clock, show: Show, now: int)
    requires SoundFold(folded)
  {
    forall b: seq<Item> :: multiset(b) == multiset(items) ==>
      Printed(VisibleOf(b, folded, clock, show), now) == Printed(VisibleOf(items, folded, clock, show), now)
  }

  /** The whole assembly ignores the order in which the sources deliver their items exactly when no tie can be seen. */
  lemma {:induction false} AssemblyIgnoresOrder(items: seq<Item>, folded: Folded, clock: Clock, show: Show, now: int)
    requires SoundFold(folded)
    ensures AssemblyOrderFree(items, folded, clock, show, now) <==> Unambiguous(VisibleOf(items, folded, clock, show), now)
  {
    var visible, f := VisibleOf(items, folded, clock, show), Seen(folded, clock, show);
    QueueOrderFreeExactly(visible, now);
    if Unambiguous(visible, now) {
      forall b: seq<Item> | multiset(b) == multiset(items)
        ensures Printed(VisibleOf(b, folded, clock, show), now) == Printed(visible, now)
      {
        CollectIgnoresOrder(b, items, f);
      }
    } else {
      var v: seq<Item> :| multiset(v) == multiset(visible) && Printed(v, now) != Printed(visible, now);
      var b := CollectLifts(items, f, v);
      assert VisibleOf(b, folded, clock, show) == v;
    }
  }

  ghost predicate UniqueIds(items: seq<Item>)
  {
    forall x, y :: x in items && y in items && x.itemId == y.itemId ==> x == y
  }

  /** Distinct ids are enough. */
  lemma {:induction false} UniqueIdsSuffice(visible: seq<Item>, now: int)
    requires UniqueIds(visible)
    ensures Unambiguous(visible, now)
  {
    forall k ensures TiesHidden(Group(visible, k), now) {
      var members := Group(visible, k);
      forall x, y | x in members && y in members && SortKey(x, now) == SortKey(y, now) ensures TieHidden(members, x, y, now) {
        InGroup(visible, k, x);
        InGroup(visible, k, y);
        KeyNamesItem(x, y, now);
      }
    }
    forall l, m | l in LinesOf(visible, now) && m in LinesOf(visible, now) && ByLine(now)(l) == ByLine(now)(m) ensures l == m {
      LineNamesGroup(visible, now, l);
      LineNamesGroup(visible, now, m);
      KeyNamesItem(l.rep, m.rep, now);
    }
  }

  /** Two snapshots under one id: whichever comes first stands for the group. */
  lemma {:induction false} RepeatedIdMatters(now: int) returns (a: Item, b: Item)
    ensures a.itemId == b.itemId && a.dedupeKey == b.dedupeKey && a.sourceHash != b.sourceHash && a.state == b.state == Active
    ensures Printed([a, b], now) != Printed([b, a], now)
  {
    a := Item("i", NeedsOperator, "old", [], false, "k", true, High, Unset, None, false, 0, Active, [], None, None);
    b := a.(sourceHash := "new");
    assert [a, b] + [] == [a, b] && [b, a] + [] == [b, a];
    assert SortKey(a, now) == SortKey(b, now);
    LeTotal(SortKey(a, now), SortKey(a, now));
    assert Group([], "k") == [] && Leads([a, b] + [], a, now);
    GroupSwapShows(a, b, [], now);
  }
}
