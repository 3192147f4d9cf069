/**
A capacity reading as it ages (src/agenttalk/capacity.py, `current_view`). The published file holds
the view of its moment; a later reader takes the view of that view.
*/
module Capacity {
  import opened Wrappers

  /** A stored time field; the source treats empty and missing alike. */
  datatype Stamp = Missing | NotText | Text(s: string)

  datatype Confidence = Unknown | Observed | Stale | OtherValue

  /** The refusal flag; a saved list or object is no text. */
  datatype Flag = NoFlag | NoText | Named(window: string)

  type Figures = seq<Option<string>>

  /** Primary and secondary window, latest verdict, conversation fill; the fill is dated by `observedAt`. */
  datatype Snapshot = Snapshot(
    figures: seq<Figures>, primaryAt: Stamp, secondaryAt: Stamp, statusAt: Stamp, observedAt: Stamp,
    flag: Flag, confidence: Confidence, source: string, reason: Option<string>)

  const PRIMARY := 0
  const SECONDARY := 1
  const PARTS: nat := 4

  predicate Shaped(s: Snapshot)
  {
    |s.figures| == PARTS
  }

  /** `parse` stands for reading an ISO time with its zone; `staleAfter` for the age limit. */
  datatype Reader = Reader(parse: string -> Option<int>, staleAfter: int)

  predicate Empty(f: Figures)
  {
    forall i :: 0 <= i < |f| ==> f[i].None?
  }

  function Cleared(f: Figures): (r: Figures)
    ensures |r| == |f| && Empty(r)
  {
    seq(|f|, i => None)
  }

  predicate Truthy(t: Stamp)
  {
    t.NotText? || (t.Text? && t.s != "")
  }

  function OwnTime(s: Snapshot, i: nat): Stamp
  {
    if i == 0 then s.primaryAt else if i == 1 then s.secondaryAt else if i == 2 then s.statusAt else s.observedAt
  }

  function TimeOf(s: Snapshot, i: nat): Stamp
  {
    if Truthy(OwnTime(s, i)) then OwnTime(s, i) else s.observedAt
  }

  function Age(t: Stamp, now: int, r: Reader): Option<int>
  {
    if t.Text? && t.s != "" && r.parse(t.s).Some? then Some(now - r.parse(t.s).value) else None
  }

  predicate HasFigures(s: Snapshot, i: nat)
    requires Shaped(s) && i < PARTS
  {
    !Empty(s.figures[i])
  }

  predicate Fresh(t: Stamp, now: int, r: Reader)
  {
    Age(t, now, r).Some? && Age(t, now, r).value <= r.staleAfter
  }

  /** A part that had figures still counts. */
  predicate Live(s: Snapshot, i: nat, now: int, r: Reader)
    requires Shaped(s) && i < PARTS
  {
    HasFigures(s, i) && Fresh(TimeOf(s, i), now, r)
  }

  predicate Seen(s: Snapshot)
    requires Shaped(s)
  {
    HasFigures(s, 0) || HasFigures(s, 1) || HasFigures(s, 2) || HasFigures(s, 3)
  }

  predicate Current(s: Snapshot, now: int, r: Reader)
    requires Shaped(s)
  {
    Live(s, 0, now, r) || Live(s, 1, now, r) || Live(s, 2, now, r) || Live(s, 3, now, r)
  }

  function EffectiveConfidence(s: Snapshot, now: int, r: Reader): Confidence
  {
    if s.confidence == Unknown || Age(s.observedAt, now, r).None? then Unknown
    else if Age(s.observedAt, now, r).value > r.staleAfter then Stale
    else if s.confidence == OtherValue then Observed
    else s.confidence
  }

  /** A flag that names a window lasts as long as that window, any other while every window with figures does. */
  predicate FlagLasts(s: Snapshot, now: int, r: Reader)
    requires Shaped(s)
  {
    if s.flag == Named("five_hour") then Live(s, PRIMARY, now, r)
    else if s.flag == Named("seven_day") then Live(s, SECONDARY, now, r)
    else
      && (HasFigures(s, PRIMARY) || HasFigures(s, SECONDARY))
      && (HasFigures(s, PRIMARY) ==> Live(s, PRIMARY, now, r))
      && (HasFigures(s, SECONDARY) ==> Live(s, SECONDARY, now, r))
  }

  function FiguresAt(s: Snapshot, i: nat, now: int, r: Reader): Figures
    requires Shaped(s) && i < PARTS
  {
    if HasFigures(s, i) && !Live(s, i, now, r) then Cleared(s.figures[i]) else s.figures[i]
  }

  function ViewAt(s: Snapshot, now: int, r: Reader): (v: Snapshot)
    requires Shaped(s)
    ensures Shaped(v)
  {
    if s.confidence == Unknown then s
    else
      s.(figures := [FiguresAt(s, 0, now, r), FiguresAt(s, 1, now, r), FiguresAt(s, 2, now, r), FiguresAt(s, 3, now, r)],
         flag := if s.flag.Named? && FlagLasts(s, now, r) then s.flag else NoFlag,
         confidence := if !Seen(s) then EffectiveConfidence(s, now, r) else if Current(s, now, r) then Observed else Stale,
         reason := if Seen(s) && !Current(s, now, r) then Some(s.source + "_stale") else s.reason)
  }

  /** The part the flag names, if it names one. */
  function OwnPart(f: Flag): Option<nat>
  {
    if f == Named("five_hour") then Some(PRIMARY) else if f == Named("seven_day") then Some(SECONDARY) else None
  }

  /** Which parts had figures, and which of those still count. */
  ghost predicate Tallied(s: Snapshot, n: nat, live: map<nat, bool>, now: int, r: Reader)
    requires Shaped(s) && n <= PARTS
  {
    && (forall j: nat :: j in live ==> j < n && HasFigures(s, j) && live[j] == Live(s, j, now, r))
    && (forall j: nat :: j < n && HasFigures(s, j) ==> j in live)
  }

  predicate SeenUpTo(s: Snapshot, n: nat)
    requires Shaped(s) && n <= PARTS
  {
    n > 0 && (HasFigures(s, n - 1) || SeenUpTo(s, n - 1))
  }

  predicate CurrentUpTo(s: Snapshot, n: nat, now: int, r: Reader)
    requires Shaped(s) && n <= PARTS
  {
    n > 0 && (Live(s, n - 1, now, r) || CurrentUpTo(s, n - 1, now, r))
  }

  lemma {:induction false} AllParts(s: Snapshot, now: int, r: Reader)
    requires Shaped(s)
    ensures SeenUpTo(s, PARTS) == Seen(s) && CurrentUpTo(s, PARTS, now, r) == Current(s, now, r)
  {
    assert SeenUpTo(s, 1) == HasFigures(s, 0) && CurrentUpTo(s, 1, now, r) == Live(s, 0, now, r);
    assert SeenUpTo(s, 3) == (HasFigures(s, 2) || HasFigures(s, 1) || SeenUpTo(s, 1));
    assert CurrentUpTo(s, 3, now, r) == (Live(s, 2, now, r) || Live(s, 1, now, r) || CurrentUpTo(s, 1, now, r));
  }

  method ExpireParts(s: Snapshot, now: int, r: Reader)
    returns (view: Snapshot, seen: bool, current: bool, live: map<nat, bool>)
    requires Shaped(s)
    ensures Shaped(view) && view == s.(figures := view.figures)
    ensures forall j :: 0 <= j < PARTS ==> view.figures[j] == FiguresAt(s, j, now, r)
    ensures Tallied(s, PARTS, live, now, r) && seen == Seen(s) && current == Current(s, now, r)
  {
    view, seen, current, live := s, false, false, map[];
    for i := 0 to PARTS
      invariant Shaped(view) && view == s.(figures := view.figures)
      invariant forall j :: 0 <= j < i ==> view.figures[j] == FiguresAt(s, j, now, r)
      invariant forall j :: i <= j < PARTS ==> view.figures[j] == s.figures[j]
      invariant Tallied(s, i, live, now, r)
      invariant seen == SeenUpTo(s, i) && current == CurrentUpTo(s, i, now, r)
    {
      if !Empty(view.figures[i]) {
        seen := true;
        var at := if Truthy(OwnTime(view, i)) then OwnTime(view, i) else view.observedAt;
        var age := Age(at, now, r);
        live := live[i := age.Some? && age.value <= r.staleAfter];
        current := current || live[i];
        if !live[i] {
          view := view.(figures := view.figures[i := Cleared(view.figures[i])]);
        }
      }
    }
    AllParts(s, now, r);
  }

  method CurrentView(s: Snapshot, now: int, r: Reader) returns (view: Snapshot)
    requires Shaped(s)
    ensures view == ViewAt(s, now, r)
  {
    view := s;
    if view.confidence == Unknown {
      return;
    }
    var seen, current, live;
    view, seen, current, live := ExpireParts(s, now, r);
    assert view.figures == ViewAt(s, now, r).figures;
    if !view.flag.Named? {
      view := view.(flag := NoFlag);
    }
    var lasts := FlagStays(view.flag, live);
    assert view.flag.Named? ==> lasts == FlagLasts(s, now, r);
    if !lasts {
      view := view.(flag := NoFlag);
    }
    view := view.(confidence := if seen then (if current then Observed else Stale) else EffectiveConfidence(view, now, r));
    if seen && !current {
      view := view.(reason := Some(view.source + "_stale"));
    }
  }

  method FlagStays(flag: Flag, live: map<nat, bool>) returns (lasts: bool)
    ensures lasts <==>
      if OwnPart(flag).Some? then OwnPart(flag).value in live && live[OwnPart(flag).value]
      else
        && (PRIMARY in live || SECONDARY in live)
        && (PRIMARY in live ==> live[PRIMARY]) && (SECONDARY in live ==> live[SECONDARY])
  {
    var own := OwnPart(flag);
    if own.Some? {
      lasts := if own.value in live then live[own.value] else false;
    } else {
      var windows := (if PRIMARY in live then [live[PRIMARY]] else []) + (if SECONDARY in live then [live[SECONDARY]] else []);
      lasts := windows != [] && forall i :: 0 <= i < |windows| ==> windows[i];
      assert PRIMARY in live ==> windows[0] == live[PRIMARY];
      assert SECONDARY in live ==> windows[|windows| - 1] == live[SECONDARY];
    }
  }

  // ------------------------------------------------------------ the view, field by field

  predicate HasAny(f: Figures)
  {
    exists i :: 0 <= i < |f| && f[i].Some?
  }

  /** The stamp is a readable time within the limit; an empty or missing stamp is replaced by the reading's own. */
  predicate IsRecent(stamp: Stamp, observedAt: Stamp, now: int, r: Reader)
  {
    var used := if stamp == Missing || stamp == Text("") then observedAt else stamp;
    match used
    case Text(t) => t != "" && r.parse(t).Some? && now - r.parse(t).value <= r.staleAfter
    case _ => false
  }

  /** What is left of a part dated by this stamp. */
  predicate Leaves(before: Figures, after: Figures, recent: bool)
  {
    |after| == |before| && forall i :: 0 <= i < |before| ==> after[i] == if recent then before[i] else None
  }

  lemma {:induction false} LiveExactly(s: Snapshot, now: int, r: Reader)
    requires Shaped(s)
    ensures Live(s, 0, now, r) <==> HasAny(s.figures[0]) && IsRecent(s.primaryAt, s.observedAt, now, r)
    ensures Live(s, 1, now, r) <==> HasAny(s.figures[1]) && IsRecent(s.secondaryAt, s.observedAt, now, r)
    ensures Live(s, 2, now, r) <==> HasAny(s.figures[2]) && IsRecent(s.statusAt, s.observedAt, now, r)
    ensures Live(s, 3, now, r) <==> HasAny(s.figures[3]) && IsRecent(s.observedAt, s.observedAt, now, r)
  {
  }

  /**
  Each window is dated by its own stamp, the latest verdict by the status stamp, the fill by the reading's: a part past the
  limit, or undated, loses all its figures and nothing else; the stamps and the source stay.
  */
  lemma {:induction false} PartsExpireExactly(s: Snapshot, now: int, r: Reader)
    requires Shaped(s)
    ensures var v := ViewAt(s, now, r);
      if s.confidence == Unknown then v == s
      else
        && Leaves(s.figures[0], v.figures[0], IsRecent(s.primaryAt, s.observedAt, now, r))
        && Leaves(s.figures[1], v.figures[1], IsRecent(s.secondaryAt, s.observedAt, now, r))
        && Leaves(s.figures[2], v.figures[2], IsRecent(s.statusAt, s.observedAt, now, r))
        && Leaves(s.figures[3], v.figures[3], IsRecent(s.observedAt, s.observedAt, now, r))
        && v.primaryAt == s.primaryAt && v.secondaryAt == s.secondaryAt && v.statusAt == s.statusAt
        && v.observedAt == s.observedAt && v.source == s.source
  {
    LiveExactly(s, now, r);
    forall i | 0 <= i < PARTS ensures HasFigures(s, i) <==> HasAny(s.figures[i]) {
    }
  }

  /** When the refusal flag stays: its window does, or every window there is where it names none. */
  lemma {:induction false} FlagLastsExactly(s: Snapshot, now: int, r: Reader)
    requires Shaped(s) && s.confidence != Unknown
    ensures var v, first, second := ViewAt(s, now, r), HasAny(s.figures[0]), HasAny(s.figures[1]);
      var firstLasts, secondLasts :=
        IsRecent(s.primaryAt, s.observedAt, now, r), IsRecent(s.secondaryAt, s.observedAt, now, r);
      && (v.flag == s.flag || v.flag == NoFlag)
      && (v.flag != NoFlag <==>
            && s.flag.Named?
            && (s.flag == Named("five_hour") ==> first && firstLasts)
            && (s.flag == Named("seven_day") ==> second && secondLasts)
            && (s.flag != Named("five_hour") && s.flag != Named("seven_day") ==>
                  (first || second) && (first ==> firstLasts) && (second ==> secondLasts)))
  {
    LiveExactly(s, now, r);
    forall i | 0 <= i < PARTS ensures HasFigures(s, i) <==> HasAny(s.figures[i]) {
    }
  }

  /** Some part has figures and is recent. */
  predicate AnyRecent(s: Snapshot, now: int, r: Reader)
    requires Shaped(s)
  {
    || (HasAny(s.figures[0]) && IsRecent(s.primaryAt, s.observedAt, now, r))
    || (HasAny(s.figures[1]) && IsRecent(s.secondaryAt, s.observedAt, now, r))
    || (HasAny(s.figures[2]) && IsRecent(s.statusAt, s.observedAt, now, r))
    || (HasAny(s.figures[3]) && IsRecent(s.observedAt, s.observedAt, now, r))
  }

  /** The time of the reading can be read at all. */
  predicate IsDated(s: Snapshot, r: Reader)
  {
    s.observedAt.Text? && s.observedAt.s != "" && r.parse(s.observedAt.s).Some?
  }

  /** What the view says of itself: observed while a part with figures is recent, and by its own time where there are none. */
  lemma {:induction false} ConfidenceExactly(s: Snapshot, now: int, r: Reader)
    requires Shaped(s) && s.confidence != Unknown
    ensures var v := ViewAt(s, now, r);
      var any := HasAny(s.figures[0]) || HasAny(s.figures[1]) || HasAny(s.figures[2]) || HasAny(s.figures[3]);
      && (any ==> v.confidence == if AnyRecent(s, now, r) then Observed else Stale)
      && (any && !AnyRecent(s, now, r) ==> v.reason == Some(s.source + "_stale"))
      && (!any || AnyRecent(s, now, r) ==> v.reason == s.reason)
      && (!any && !IsDated(s, r) ==> v.confidence == Unknown)
      && (!any && IsDated(s, r) && !IsRecent(s.observedAt, s.observedAt, now, r) ==> v.confidence == Stale)
      && (!any && IsDated(s, r) && IsRecent(s.observedAt, s.observedAt, now, r) ==>
            v.confidence == if s.confidence == Stale then Stale else Observed)
  {
    LiveExactly(s, now, r);
    forall i | 0 <= i < PARTS ensures HasFigures(s, i) <==> HasAny(s.figures[i]) {
    }
  }

  // ------------------------------------------------------------ a view of a view

  lemma {:induction false} SamePart(s: Snapshot, i: nat, t1: int, t2: int, r: Reader)
    requires Shaped(s) && i < PARTS && t1 <= t2 && s.confidence != Unknown
    ensures var v := ViewAt(s, t1, r);
      && TimeOf(v, i) == TimeOf(s, i) && v.figures[i] == FiguresAt(s, i, t1, r)
      && (HasFigures(v, i) <==> Live(s, i, t1, r))
      && (Live(v, i, t2, r) <==> Live(s, i, t2, r))
      && FiguresAt(v, i, t2, r) == FiguresAt(s, i, t2, r)
  {
    var v := ViewAt(s, t1, r);
    assert i == 0 || i == 1 || i == 2 || i == 3;
    assert v.figures[i] == FiguresAt(s, i, t1, r);
    if HasFigures(s, i) && !Live(s, i, t1, r) {
      assert Empty(Cleared(s.figures[i]));
      assert !Fresh(TimeOf(s, i), t2, r);
    } else if !HasFigures(s, i) {
      assert v.figures[i] == s.figures[i];
    }
  }

  /** The one case in which publishing changes the verdict: old figures, and no readable time of its own. */
  predicate Undated(s: Snapshot, t1: int, r: Reader)
    requires Shaped(s)
  {
    s.confidence != Unknown && Seen(s) && !Current(s, t1, r) && Age(s.observedAt, t1, r).None?
  }

  lemma {:induction false} FiguresOfView(s: Snapshot, t1: int, t2: int, r: Reader)
    requires Shaped(s) && t1 <= t2 && s.confidence != Unknown
    ensures var v := ViewAt(s, t1, r);
      && (Seen(v) <==> Current(s, t1, r)) && (Current(v, t2, r) <==> Current(s, t2, r))
      && (Current(s, t2, r) ==> Current(s, t1, r)) && (Current(s, t1, r) ==> Seen(s))
      && (forall i :: 0 <= i < PARTS ==> FiguresAt(v, i, t2, r) == FiguresAt(s, i, t2, r))
  {
    forall i | 0 <= i < PARTS ensures FiguresAt(ViewAt(s, t1, r), i, t2, r) == FiguresAt(s, i, t2, r) {
      SamePart(s, i, t1, t2, r);
    }
    SamePart(s, 0, t1, t2, r);
    SamePart(s, 1, t1, t2, r);
    SamePart(s, 2, t1, t2, r);
    SamePart(s, 3, t1, t2, r);
  }

  lemma {:induction false} FlagOfView(s: Snapshot, t1: int, t2: int, r: Reader)
    requires Shaped(s) && t1 <= t2 && s.confidence != Unknown && s.flag.Named?
    ensures var v := ViewAt(s, t1, r);
      (v.flag.Named? && FlagLasts(v, t2, r)) <==> FlagLasts(s, t2, r)
    ensures ViewAt(s, t1, r).flag.Named? ==> ViewAt(s, t1, r).flag == s.flag
  {
    SamePart(s, PRIMARY, t1, t2, r);
    SamePart(s, SECONDARY, t1, t2, r);
  }

  /**
  Publishing a reading and viewing it later is viewing it later, in every field, except exactly for
  an undated reading whose figures were already old.
  */
  lemma {:induction false} PublishingChangesNothing(s: Snapshot, t1: int, t2: int, r: Reader)
    requires Shaped(s) && t1 <= t2
    ensures ViewAt(ViewAt(s, t1, r), t2, r) == ViewAt(s, t2, r) <==> !Undated(s, t1, r)
  {
    if s.confidence != Unknown {
      var v := ViewAt(s, t1, r);
      FiguresOfView(s, t1, t2, r);
      if s.flag.Named? {
        FlagOfView(s, t1, t2, r);
      }
      ConfidenceOfView(s, t1, t2, r);
      if v.confidence == Unknown {
        UnknownView(s, t1, t2, r);
      } else {
        assert ViewAt(v, t2, r).figures == ViewAt(s, t2, r).figures;
      }
    }
  }

  lemma {:induction false} ConfidenceOfView(s: Snapshot, t1: int, t2: int, r: Reader)
    requires Shaped(s) && t1 <= t2 && s.confidence != Unknown
    ensures ViewAt(ViewAt(s, t1, r), t2, r).confidence == ViewAt(s, t2, r).confidence <==> !Undated(s, t1, r)
  {
    FiguresOfView(s, t1, t2, r);
  }

  lemma {:induction false} UnknownView(s: Snapshot, t1: int, t2: int, r: Reader)
    requires Shaped(s) && t1 <= t2 && s.confidence != Unknown && ViewAt(s, t1, r).confidence == Unknown
    ensures ViewAt(s, t1, r) == ViewAt(s, t2, r)
  {
    assert ViewAt(s, t1, r).figures == ViewAt(s, t2, r).figures;
  }

  /** There are such readings: a figure with an old time of its own, in a reading without a time. */
  lemma {:induction false} UndatedReading(t1: int, t2: int) returns (s: Snapshot, r: Reader)
    requires t1 <= t2
    ensures Shaped(s) && Undated(s, t1, r) && ViewAt(ViewAt(s, t1, r), t2, r) != ViewAt(s, t2, r)
  {
    r := Reader(text => Some(t1 - 2), 1);
    s := Snapshot([[Some("80")], [], [], []], Text("old"), Missing, Missing, Missing, NoFlag, Observed, "cli", None);
    assert HasFigures(s, 0) by {
      assert s.figures[0][0].Some?;
    }
    assert Age(TimeOf(s, 0), t1, r) == Some(2);
    PublishingChangesNothing(s, t1, t2, r);
  }
}
