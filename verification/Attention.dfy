/**
Operator dispositions of the attention queue (src/agenttalk/attention.py): the fold over an untrusted
log and the reading that decides whether a live item stays in view.
*/
module Attention {
  import opened Wrappers
  import opened PythonText

  datatype Source =
    | NeedsOperator | ConfigBlocked | UsageLimitPark | ProcessTreeHold | DeadLetter | GateHold
    | CloseHold | LeadUnarmed | Capacity | CoordinationStall | SourceError

  datatype Action = Defer | Dismiss | AnsweredElsewhere | ResolveDeadLetter | RequeuedAfterResolve

  datatype Family = Disposition | DeadLetterResolution

  function FamilyOf(a: Action): Family
  {
    if a == ResolveDeadLetter || a == RequeuedAfterResolve then DeadLetterResolution else Disposition
  }

  /** What a line says its action is: a known one; no action or another plain value; an array or an object. */
  datatype ActionField = Known(value: Action) | OtherValue | Unhashable

  /** Nothing, or a value that counts as false; a text; any other value. */
  datatype UntilField = NoUntil | UntilText(text: string) | OddUntil

  /** One decoded line of the log; other fields are None when absent or of the wrong type, as all are if it is no object. */
  datatype Event = Event(
    action: ActionField, itemId: Option<string>, actor: Option<string>, at: Option<string>,
    reason: Option<string>, sourceHash: Option<string>, until: UntilField)

  predicate ValidEvent(e: Event)
  {
    && e.action.Known?
    && e.itemId.Some? && e.itemId.value != "" && e.actor.Some? && e.actor.value != "" && e.at.Some? && e.at.value != ""
    && e.reason.Some? && !IsBlank(e.reason.value)
    && e.sourceHash.Some?
  }

  datatype State = Active | Deferred | Dismissed | Resolved | Answered

  datatype Warning = IgnoredIllegitimate | PriorStale | InvalidUntil

  datatype Priority = Urgent | High | Normal | Low | Unset

  datatype Item = Item(
    itemId: string, source: Source, sourceHash: string, refs: seq<string>, advisory: bool, dedupeKey: string,
    humanCanUnblock: bool, priority: Priority, risk: Priority, neededBy: Option<int>, ageUnknown: bool, ageSeconds: int,
    state: State, warnings: seq<Warning>, deferredUntil: Option<string>, reason: Option<string>)

  predicate Allowed(a: Action, source: Source, advisory: bool)
  {
    match a
    case ResolveDeadLetter => source == DeadLetter
    case RequeuedAfterResolve => source == DeadLetter
    case AnsweredElsewhere => source == NeedsOperator
    case Defer => true
    case Dismiss =>
      if source == Capacity then true
      else if source == NeedsOperator || source == ProcessTreeHold || source == DeadLetter then false
      else if source == ConfigBlocked || source == GateHold || source == CloseHold || source == LeadUnarmed
        || source == CoordinationStall then advisory
      else false
  }

  // ------------------------------------------------------------ the fold

  predicate Concerns(e: Event, id: string, family: Family)
  {
    ValidEvent(e) && e.itemId.value == id && FamilyOf(e.action.value) == family
  }

  /** Line i is the newest valid one about the item in the family, among the first n. */
  predicate IsLatest(events: seq<Event>, n: nat, id: string, family: Family, i: nat)
    requires n <= |events|
  {
    i < n && Concerns(events[i], id, family) && forall j :: i < j < n ==> !Concerns(events[j], id, family)
  }

  type Folded = map<(string, Family), Event>

  ghost predicate IsFold(events: seq<Event>, n: nat, folded: Folded, id: string, family: Family)
    requires n <= |events|
  {
    if (id, family) in folded then exists i: nat :: IsLatest(events, n, id, family, i) && events[i] == folded[(id, family)]
    else forall i :: 0 <= i < n ==> !Concerns(events[i], id, family)
  }

  ghost predicate Folds(events: seq<Event>, n: nat, folded: Folded)
    requires n <= |events|
  {
    forall id, family :: IsFold(events, n, folded, id, family)
  }

  lemma {:induction false} FoldOne(events: seq<Event>, n: nat, folded: Folded)
    requires n < |events| && Folds(events, n, folded)
    ensures var e := events[n];
      Folds(events, n + 1, if ValidEvent(e) then folded[(e.itemId.value, FamilyOf(e.action.value)) := e] else folded)
  {
    var e, m := events[n], n + 1;
    var after := if ValidEvent(e) then folded[(e.itemId.value, FamilyOf(e.action.value)) := e] else folded;
    forall id, family ensures IsFold(events, m, after, id, family) {
      assert IsFold(events, n, folded, id, family);
      if Concerns(e, id, family) {
        assert IsLatest(events, m, id, family, n);
      } else if (id, family) in folded {
        var i: nat :| IsLatest(events, n, id, family, i) && events[i] == folded[(id, family)];
        assert IsLatest(events, m, id, family, i);
      }
    }
  }

  ghost predicate SoundFold(folded: Folded)
  {
    forall k :: k in folded ==> Concerns(folded[k], k.0, k.1)
  }

  /** The membership test on the set of actions raises for a value that cannot be hashed, and nothing catches it. */
  datatype FoldError = UnhashableAction

  predicate Hashable(events: seq<Event>)
  {
    forall i :: 0 <= i < |events| ==> !events[i].action.Unhashable?
  }

  /** One unhashable action anywhere, and there is no fold. */
  function Fold(events: seq<Event>): (r: Result<Folded, FoldError>)
    ensures r.Ok? <==> Hashable(events)
    ensures r.Ok? ==> SoundFold(r.value)
  {
    if events == [] then Ok(map[])
    else
      var front, e := events[..|events| - 1], events[|events| - 1];
      assert events == front + [e];
      match Fold(front)
      case Refused(error) => Refused(error)
      case Ok(latest) =>
        if e.action.Unhashable? then Refused(UnhashableAction)
        else Ok(if ValidEvent(e) then latest[(e.itemId.value, FamilyOf(e.action.value)) := e] else latest)
  }

  /** What a fold there is says: for each item and family the newest valid line, and nothing else. */
  lemma {:induction false} FoldFolds(events: seq<Event>)
    requires Hashable(events)
    ensures Folds(events, |events|, Fold(events).value)
  {
    if events != [] {
      var n := |events| - 1;
      var front := events[..n];
      FoldFolds(front);
      FoldsLonger(front, events, Fold(front).value);
      FoldOne(events, n, Fold(front).value);
    }
  }

  lemma {:induction false} FoldsLonger(front: seq<Event>, events: seq<Event>, folded: Folded)
    requires Folds(front, |front|, folded) && |front| <= |events| && front == events[..|front|]
    ensures Folds(events, |front|, folded)
  {
    forall id, family ensures IsFold(events, |front|, folded, id, family) {
      assert IsFold(front, |front|, folded, id, family);
      if (id, family) in folded {
        var i: nat :| IsLatest(front, |front|, id, family, i) && front[i] == folded[(id, family)];
        assert IsLatest(events, |front|, id, family, i);
      } else {
        assert forall i :: 0 <= i < |front| ==> events[i] == front[i];
      }
    }
  }

  /** A single forged line takes the whole queue away, whatever stands around it. */
  lemma {:induction false} ForgedLineRefuses(before: seq<Event>, after: seq<Event>, forged: Event)
    requires forged == Event(Unhashable, None, None, None, None, None, NoUntil)
    ensures Fold(before + [forged] + after) == Refused(UnhashableAction)
  {
    var events := before + [forged] + after;
    assert events[|before|] == forged;
    assert Fold(events).Refused? && Fold(events).error == UnhashableAction;
  }

  method FoldDispositions(events: seq<Event>) returns (r: Result<Folded, FoldError>)
    ensures r == Fold(events)
  {
    var latest: Folded := map[];
    for i := 0 to |events|
      invariant Fold(events[..i]) == Ok(latest)
    {
      var e := events[i];
      assert events[..i + 1][..i] == events[..i];
      if e.action.Unhashable? {
        assert !Hashable(events);
        assert Fold(events).Refused? && Fold(events).error == UnhashableAction;
        return Refused(UnhashableAction);
      }
      if ValidEvent(e) {
        latest := latest[(e.itemId.value, FamilyOf(e.action.value)) := e];
      }
    }
    assert events[..|events|] == events;
    return Ok(latest);
  }

  // ------------------------------------------------------------ reading a disposition

  /** `parse` stands for the timestamp parser, `now` for the parsed current time. */
  datatype Clock = Clock(parse: string -> Option<int>, now: Option<int>)

  predicate StillDeferred(e: Event, clock: Clock)
  {
    && e.until.UntilText? && clock.parse(e.until.text).Some? && clock.now.Some?
    && clock.now.value < clock.parse(e.until.text).value
  }

  /** Something was meant, and it is no time. */
  predicate BadUntil(e: Event, clock: Clock)
  {
    e.until.OddUntil? || (e.until.UntilText? && e.until.text != "" && clock.parse(e.until.text).None?)
  }

  function Warned(item: Item, w: Warning): Item
  {
    item.(warnings := item.warnings + [w])
  }

  predicate Resolves(e: Event, item: Item)
    requires ValidEvent(e)
  {
    e.action.value == ResolveDeadLetter && item.source == DeadLetter && e.sourceHash.value == item.sourceHash
  }

  /** A resolution that does not apply only leaves a warning. */
  function Unresolved(item: Item, e: Event): Item
    requires ValidEvent(e)
  {
    if e.action.value != ResolveDeadLetter then item
    else Warned(item, if item.source == DeadLetter then PriorStale else IgnoredIllegitimate)
  }

  function AfterDisposition(item: Item, e: Event, clock: Clock): Item
    requires ValidEvent(e)
  {
    if !Allowed(e.action.value, item.source, item.advisory) then Warned(item, IgnoredIllegitimate)
    else if e.sourceHash.value != item.sourceHash then Warned(item, PriorStale)
    else
      match e.action.value
      case Defer =>
        if StillDeferred(e, clock) then item.(state := Deferred, deferredUntil := Some(e.until.text), reason := e.reason)
        else if BadUntil(e, clock) then Warned(item, InvalidUntil)
        else item
      case Dismiss => item.(state := Dismissed, reason := e.reason)
      case AnsweredElsewhere => item.(state := Answered, reason := e.reason)
      case _ => item.(reason := e.reason)
  }

  function Lookup(folded: Folded, id: string, family: Family): Option<Event>
  {
    if (id, family) in folded then Some(folded[(id, family)]) else None
  }

  function Applied(item: Item, folded: Folded, clock: Clock): Item
    requires SoundFold(folded)
  {
    var dl, e := Lookup(folded, item.itemId, DeadLetterResolution), Lookup(folded, item.itemId, Disposition);
    if dl.Some? && Resolves(dl.value, item) then item.(state := Resolved)
    else
      var first := if dl.Some? then Unresolved(item, dl.value) else item;
      if e.Some? then AfterDisposition(first, e.value, clock) else first
  }

  method ApplyDisposition(live: Item, folded: Folded, clock: Clock) returns (item: Item)
    requires SoundFold(folded)
    ensures item == Applied(live, folded, clock)
  {
    item := live;
    var dl := Lookup(folded, item.itemId, DeadLetterResolution);
    if dl.Some? && dl.value.action.value == ResolveDeadLetter {
      if !Allowed(ResolveDeadLetter, item.source, item.advisory) {
        item := Warned(item, IgnoredIllegitimate);
      } else if dl.value.sourceHash.value == item.sourceHash {
        item := item.(state := Resolved);
        return;
      } else {
        item := Warned(item, PriorStale);
      }
    }
    var disp := Lookup(folded, item.itemId, Disposition);
    if disp.Some? {
      item := ApplyDecision(item, disp.value, clock);
    }
  }

  method ApplyDecision(before: Item, disp: Event, clock: Clock) returns (item: Item)
    requires ValidEvent(disp)
    ensures item == AfterDisposition(before, disp, clock)
  {
    item := before;
    var action := disp.action.value;
    if !Allowed(action, item.source, item.advisory) {
      item := Warned(item, IgnoredIllegitimate);
      return;
    }
    if disp.sourceHash.value != item.sourceHash {
      item := Warned(item, PriorStale);
      return;
    }
    if action == Defer {
      var until := if disp.until.UntilText? then clock.parse(disp.until.text) else None;
      var given := disp.until.OddUntil? || (disp.until.UntilText? && disp.until.text != "");
      if until.None? || clock.now.None? || clock.now.value >= until.value {
        if given && until.None? {
          item := Warned(item, InvalidUntil);
        }
        return;
      }
      item := item.(state := Deferred, deferredUntil := Some(disp.until.text));
    } else if action == Dismiss {
      item := item.(state := Dismissed);
    } else if action == AnsweredElsewhere {
      item := item.(state := Answered);
    }
    item := item.(reason := disp.reason);
  }

  // ------------------------------------------------------------ what can take an item out of view

  /** A line takes an item out of view: about its live snapshot, allowed for its source, and in force. */
  predicate Effective(e: Event, item: Item, clock: Clock)
  {
    && ValidEvent(e) && e.sourceHash.value == item.sourceHash
    && match e.action.value
       case Defer => StillDeferred(e, clock)
       case AnsweredElsewhere => item.source == NeedsOperator
       case ResolveDeadLetter => item.source == DeadLetter
       case RequeuedAfterResolve => false
       case Dismiss =>
         || item.source == Capacity
         || (item.advisory && item.source != NeedsOperator && item.source != ProcessTreeHold && item.source != DeadLetter
             && item.source != SourceError && item.source != UsageLimitPark)
  }

  /** Some line of the log, the newest valid one about the item in its family, is in force. */
  ghost predicate Handled(events: seq<Event>, item: Item, clock: Clock)
  {
    exists i: nat, family ::
      IsLatest(events, |events|, item.itemId, family, i) && Effective(events[i], item, clock)
  }

  lemma {:induction false} LatestIsFolded(events: seq<Event>, folded: Folded, id: string, family: Family, i: nat)
    requires Folds(events, |events|, folded) && IsLatest(events, |events|, id, family, i)
    ensures Lookup(folded, id, family) == Some(events[i])
  {
    assert IsFold(events, |events|, folded, id, family);
    if (id, family) in folded {
      var j: nat :| IsLatest(events, |events|, id, family, j) && events[j] == folded[(id, family)];
      assert i == j;
    }
  }

  lemma {:induction false} FoldedIsLatest(events: seq<Event>, folded: Folded, id: string, family: Family) returns (i: nat)
    requires Folds(events, |events|, folded) && (id, family) in folded
    ensures IsLatest(events, |events|, id, family, i) && events[i] == folded[(id, family)]
  {
    assert IsFold(events, |events|, folded, id, family);
    i :| IsLatest(events, |events|, id, family, i) && events[i] == folded[(id, family)];
  }

  lemma {:induction false} DecidedExactly(item: Item, e: Event, clock: Clock)
    requires ValidEvent(e) && FamilyOf(e.action.value) == Disposition && item.state == Active
    ensures AfterDisposition(item, e, clock).state != Active <==> Effective(e, item, clock)
  {
  }

  lemma {:induction false} AppliedExactly(item: Item, folded: Folded, clock: Clock)
    requires SoundFold(folded) && item.state == Active
    ensures var dl, e := Lookup(folded, item.itemId, DeadLetterResolution), Lookup(folded, item.itemId, Disposition);
      Applied(item, folded, clock).state != Active <==>
        (dl.Some? && Effective(dl.value, item, clock)) || (e.Some? && Effective(e.value, item, clock))
  {
    var dl, e := Lookup(folded, item.itemId, DeadLetterResolution), Lookup(folded, item.itemId, Disposition);
    assert dl.Some? ==> Concerns(dl.value, item.itemId, DeadLetterResolution);
    assert e.Some? ==> Concerns(e.value, item.itemId, Disposition);
    if e.Some? {
      DecidedExactly(if dl.Some? then Unresolved(item, dl.value) else item, e.value, clock);
    }
  }

  /** For any log that folds at all, an active item leaves the default view exactly when such a line stands in it. */
  lemma {:induction false} HiddenExactlyWhenHandled(events: seq<Event>, item: Item, clock: Clock)
    requires Hashable(events) && item.state == Active
    ensures Applied(item, Fold(events).value, clock).state != Active <==> Handled(events, item, clock)
  {
    var folded := Fold(events).value;
    FoldFolds(events);
    AppliedExactly(item, folded, clock);
    if Handled(events, item, clock) {
      var i: nat, family :|
        IsLatest(events, |events|, item.itemId, family, i) && Effective(events[i], item, clock);
      LatestIsFolded(events, folded, item.itemId, family, i);
    }
    if Applied(item, folded, clock).state != Active {
      var dl := Lookup(folded, item.itemId, DeadLetterResolution);
      var family := if dl.Some? && Effective(dl.value, item, clock) then DeadLetterResolution else Disposition;
      var i := FoldedIsLatest(events, folded, item.itemId, family);
      assert Effective(events[i], item, clock);
    }
  }

  /**
  A call for the operator is out of view only through an unexpired deferral or an answer elsewhere, a dead
  letter only through an unexpired deferral or its resolution, a process-tree hold only through an unexpired
  deferral; always the newest line of its family, recorded against the live snapshot.
  */
  lemma {:induction false} BlockingItemsStay(events: seq<Event>, item: Item, clock: Clock) returns (i: nat)
    requires Hashable(events) && item.state == Active
    requires item.source == NeedsOperator || item.source == DeadLetter || item.source == ProcessTreeHold
    requires Applied(item, Fold(events).value, clock).state != Active
    ensures i < |events| && ValidEvent(events[i]) && events[i].itemId == Some(item.itemId)
    ensures events[i].sourceHash == Some(item.sourceHash)
    ensures IsLatest(events, |events|, item.itemId, FamilyOf(events[i].action.value), i)
    ensures var a := events[i].action.value;
      || (a == Defer && StillDeferred(events[i], clock))
      || (a == AnsweredElsewhere && item.source == NeedsOperator)
      || (a == ResolveDeadLetter && item.source == DeadLetter)
  {
    HiddenExactlyWhenHandled(events, item, clock);
    var family;
    i, family :| IsLatest(events, |events|, item.itemId, family, i) && Effective(events[i], item, clock);
  }
}
