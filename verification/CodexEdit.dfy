/**
Enabling a project (`enable_project` in src/agenttalk/codex_config.py), on lines: one block is
kept, its managed settings are brought to their targets, and everything else stays as it was.
*/
module CodexEdit {
  import opened Wrappers
  import opened TomlText
  import opened CodexConfig

  // ------------------------------------------------------------ the settings of a block

  predicate SettingAt(read: Reader, body: seq<string>, i: nat, k: Managed)
    requires i < |body|
  {
    read(body[i]).Setting? && read(body[i]).key == k
  }

  function LastOf(read: Reader, body: seq<string>, k: Managed): (r: Option<nat>)
    ensures r.Some? ==> r.value < |body| && SettingAt(read, body, r.value, k)
    ensures r.Some? ==> forall i :: r.value < i < |body| ==> !SettingAt(read, body, i, k)
    ensures r.None? ==> forall i :: 0 <= i < |body| ==> !SettingAt(read, body, i, k)
  {
    LastUpTo(read, body, k, |body|)
  }

  function LastUpTo(read: Reader, body: seq<string>, k: Managed, n: nat): (r: Option<nat>)
    requires n <= |body|
    ensures r.Some? ==> r.value < n && SettingAt(read, body, r.value, k)
    ensures r.Some? ==> forall i :: r.value < i < n ==> !SettingAt(read, body, i, k)
    ensures r.None? ==> forall i :: 0 <= i < n ==> !SettingAt(read, body, i, k)
  {
    if n == 0 then None
    else if SettingAt(read, body, n - 1, k) then Some(n - 1)
    else LastUpTo(read, body, k, n - 1)
  }

  /** What a reader of the block takes the key to be: its last setting. */
  function ValueOf(read: Reader, body: seq<string>, k: Managed): Option<string>
  {
    var at := LastOf(read, body, k);
    if at.None? then None else Some(read(body[at.value]).value)
  }

  function Leading(read: Reader, body: seq<string>, i: nat): (n: nat)
    requires i <= |body|
    ensures i <= n <= |body|
    decreases |body| - i
  {
    if i < |body| && read(body[i]).Setting? then Leading(read, body, i + 1) else i
  }

  function Rewrite(w: Script, body: seq<string>, k: Managed): (r: seq<string>)
    ensures |r| == |body|
  {
    var at := LastOf(w.read, body, k);
    if at.Some? && w.read(body[at.value]).value != Target(k) then body[at.value := w.keyLine(k)] else body
  }

  function RewriteFirst(w: Script, body: seq<string>, n: nat): (r: seq<string>)
    requires n <= |MANAGED_KEYS|
    ensures |r| == |body|
  {
    if n == 0 then body else Rewrite(w, RewriteFirst(w, body, n - 1), MANAGED_KEYS[n - 1])
  }

  function MissingFirst(w: Script, body: seq<string>, n: nat): seq<string>
    requires n <= |MANAGED_KEYS|
  {
    if n == 0 then []
    else
      MissingFirst(w, body, n - 1)
      + (if LastOf(w.read, body, MANAGED_KEYS[n - 1]).None? then [w.keyLine(MANAGED_KEYS[n - 1])] else [])
  }

  function Updated(w: Script, body: seq<string>): seq<string>
  {
    var at, rewritten := Leading(w.read, body, 0), RewriteFirst(w, body, |MANAGED_KEYS|);
    rewritten[..at] + MissingFirst(w, body, |MANAGED_KEYS|) + rewritten[at..]
  }

  function KeyLines(w: Script): seq<string>
  {
    [w.keyLine(Trust), w.keyLine(Approval), w.keyLine(Sandbox)]
  }

  /** A blank line separates a new block from what is there. */
  function Separator(read: Reader, lines: seq<string>): seq<string>
  {
    if lines != [] && read(lines[|lines| - 1]) != Blank then [""] else []
  }

  /** The edit as a whole. */
  function Enabled(w: Script, lines: seq<string>): (r: seq<string>)
    ensures r != []
  {
    var c := Collapsed(w.read, lines);
    var v := ViewOf(w.read, c);
    if v.None? then c + Separator(w.read, c) + [w.header] + KeyLines(w)
    else Flat(v.value.(body := Updated(w, v.value.body)))
  }

  // ------------------------------------------------------------ values after the edit

  /** The place of a key in MANAGED_KEYS. */
  function Position(k: Managed): (i: nat)
    ensures i < |MANAGED_KEYS|
  {
    match k case Trust => 0 case Approval => 1 case Sandbox => 2
  }

  lemma {:induction false} PositionOf(i: nat)
    requires i < |MANAGED_KEYS|
    ensures forall k :: Position(k) == i <==> k == MANAGED_KEYS[i]
  {
    assert i == 0 || i == 1 || i == 2;
  }

  lemma {:induction false} LastConcat(read: Reader, a: seq<string>, b: seq<string>, k: Managed)
    ensures ValueOf(read, a + b, k) == if ValueOf(read, b, k).Some? then ValueOf(read, b, k) else ValueOf(read, a, k)
  {
    var c := a + b;
    var inA, inB, inC := LastOf(read, a, k), LastOf(read, b, k), LastOf(read, c, k);
    forall i | 0 <= i < |b| ensures SettingAt(read, c, |a| + i, k) == SettingAt(read, b, i, k) {
    }
    forall i | 0 <= i < |a| ensures SettingAt(read, c, i, k) == SettingAt(read, a, i, k) {
    }
    if inC.Some? && inC.value >= |a| {
      assert SettingAt(read, b, inC.value - |a|, k);
      assert inB == Some(inC.value - |a|);
    } else if inC.Some? {
      assert SettingAt(read, a, inC.value, k) && inA == inC;
    }
  }

  lemma {:induction false} RewriteValue(w: Script, body: seq<string>, k: Managed, other: Managed)
    requires Faithful(w)
    ensures ValueOf(w.read, Rewrite(w, body, k), other)
         == if other == k && ValueOf(w.read, body, k).Some? then Some(Target(k)) else ValueOf(w.read, body, other)
    ensures ValueOf(w.read, body, k) == Some(Target(k)) ==> Rewrite(w, body, k) == body
    ensures LastOf(w.read, Rewrite(w, body, k), other) == LastOf(w.read, body, other)
  {
    var read, r := w.read, Rewrite(w, body, k);
    forall i | 0 <= i < |body| ensures SettingAt(read, r, i, other) == SettingAt(read, body, i, other) {
    }
    var before, after := LastOf(read, body, other), LastOf(read, r, other);
    if before.Some? {
      assert SettingAt(read, r, before.value, other);
    }
    if after.Some? {
      assert SettingAt(read, body, after.value, other);
    }
    assert before == after;
  }

  /** What key k reads as once the first n keys were rewritten. */
  function ValueAfter(before: Option<string>, n: nat, k: Managed): Option<string>
  {
    if Position(k) < n && before.Some? then Some(Target(k)) else before
  }

  lemma {:induction false} RewrittenOnce(w: Script, before: seq<string>, n: nat, k: Managed, value: Option<string>)
    requires Faithful(w) && n < |MANAGED_KEYS| && ValueOf(w.read, before, k) == ValueAfter(value, n, k)
    ensures ValueOf(w.read, Rewrite(w, before, MANAGED_KEYS[n]), k) == ValueAfter(value, n + 1, k)
  {
    RewriteValue(w, before, MANAGED_KEYS[n], k);
    PositionOf(n);
  }

  lemma {:induction false} RewrittenValue(w: Script, body: seq<string>, n: nat, k: Managed)
    requires Faithful(w) && n <= |MANAGED_KEYS|
    ensures ValueOf(w.read, RewriteFirst(w, body, n), k) == ValueAfter(ValueOf(w.read, body, k), n, k)
  {
    if n > 0 {
      RewrittenValue(w, body, n - 1, k);
      RewrittenOnce(w, RewriteFirst(w, body, n - 1), n - 1, k, ValueOf(w.read, body, k));
    }
  }

  lemma {:induction false} SingleValue(w: Script, k: Managed, other: Managed)
    requires Faithful(w)
    ensures ValueOf(w.read, [w.keyLine(k)], other) == if other == k then Some(Target(k)) else None
  {
    assert SettingAt(w.read, [w.keyLine(k)], 0, k);
    assert k != other ==> !SettingAt(w.read, [w.keyLine(k)], 0, other);
  }

  /** What key k reads as among the lines for those of the first n keys that the block lacks. */
  function AddedValue(before: Option<string>, n: nat, k: Managed): Option<string>
  {
    if Position(k) < n && before.None? then Some(Target(k)) else None
  }

  lemma {:induction false} AddedOnce(
    w: Script, body: seq<string>, fewer: seq<string>, more: seq<string>, n: nat, k: Managed)
    requires Faithful(w) && n < |MANAGED_KEYS|
    requires more == if LastOf(w.read, body, MANAGED_KEYS[n]).None? then [w.keyLine(MANAGED_KEYS[n])] else []
    requires ValueOf(w.read, fewer, k) == AddedValue(ValueOf(w.read, body, k), n, k)
    ensures ValueOf(w.read, fewer + more, k) == AddedValue(ValueOf(w.read, body, k), n + 1, k)
  {
    LastConcat(w.read, fewer, more, k);
    MoreValue(w, body, MANAGED_KEYS[n], more, k);
    PositionOf(n);
  }

  lemma {:induction false} MissingValue(w: Script, body: seq<string>, n: nat, k: Managed)
    requires Faithful(w) && n <= |MANAGED_KEYS|
    ensures ValueOf(w.read, MissingFirst(w, body, n), k) == AddedValue(ValueOf(w.read, body, k), n, k)
  {
    if n > 0 {
      var last := MANAGED_KEYS[n - 1];
      var fewer, more := MissingFirst(w, body, n - 1), if LastOf(w.read, body, last).None? then [w.keyLine(last)] else [];
      MissingValue(w, body, n - 1, k);
      AddedOnce(w, body, fewer, more, n - 1, k);
      assert MissingFirst(w, body, n) == fewer + more;
    }
  }

  lemma {:induction false} MoreValue(w: Script, body: seq<string>, last: Managed, more: seq<string>, k: Managed)
    requires Faithful(w) && more == if LastOf(w.read, body, last).None? then [w.keyLine(last)] else []
    ensures ValueOf(w.read, more, k) == if last == k && ValueOf(w.read, body, k).None? then Some(Target(k)) else None
  {
    SingleValue(w, last, k);
  }

  /** After the update every managed key reads as its target, whatever the block held. */
  lemma {:induction false} UpdatedValue(w: Script, body: seq<string>, k: Managed)
    requires Faithful(w)
    ensures ValueOf(w.read, Updated(w, body), k) == Some(Target(k))
  {
    var read, at, r, more := w.read, Leading(w.read, body, 0), RewriteFirst(w, body, |MANAGED_KEYS|), MissingFirst(w, body, |MANAGED_KEYS|);
    RewrittenValue(w, body, |MANAGED_KEYS|, k);
    MissingValue(w, body, |MANAGED_KEYS|, k);
    LastConcat(read, r[..at], more, k);
    LastConcat(read, r[..at] + more, r[at..], k);
    assert r == r[..at] + r[at..];
    LastConcat(read, r[..at], r[at..], k);
  }

  ghost predicate OnTarget(read: Reader, body: seq<string>)
  {
    forall k :: ValueOf(read, body, k) == Some(Target(k))
  }

  lemma {:induction false} NothingToRewrite(w: Script, body: seq<string>, n: nat)
    requires Faithful(w) && OnTarget(w.read, body) && n <= |MANAGED_KEYS|
    ensures RewriteFirst(w, body, n) == body && MissingFirst(w, body, n) == []
  {
    if n > 0 {
      NothingToRewrite(w, body, n - 1);
      RewriteValue(w, body, MANAGED_KEYS[n - 1], MANAGED_KEYS[n - 1]);
      assert ValueOf(w.read, body, MANAGED_KEYS[n - 1]).Some?;
    }
  }

  lemma {:induction false} UpdateSettles(w: Script, body: seq<string>)
    requires Faithful(w)
    ensures OnTarget(w.read, Updated(w, body)) && Updated(w, Updated(w, body)) == Updated(w, body)
  {
    forall k ensures ValueOf(w.read, Updated(w, body), k) == Some(Target(k)) {
      UpdatedValue(w, body, k);
    }
    UpdateOnTarget(w, Updated(w, body));
  }

  // ------------------------------------------------------------ what stays

  /** Everything in a block but its managed settings: comments, blanks, other keys. */
  function Unmanaged(read: Reader, body: seq<string>): seq<string>
  {
    if body == [] then [] else (if read(body[0]).Setting? then [] else [body[0]]) + Unmanaged(read, body[1..])
  }

  lemma {:induction false} UnmanagedConcat(read: Reader, a: seq<string>, b: seq<string>)
    ensures Unmanaged(read, a + b) == Unmanaged(read, a) + Unmanaged(read, b)
  {
    if a == [] {
      assert a + b == b;
    } else {
      assert (a + b)[1..] == a[1..] + b;
      UnmanagedConcat(read, a[1..], b);
    }
  }

  lemma {:induction false} UnmanagedReplace(read: Reader, body: seq<string>, i: nat, line: string)
    requires i < |body| && read(body[i]).Setting? && read(line).Setting?
    ensures Unmanaged(read, body[i := line]) == Unmanaged(read, body)
  {
    assert body == body[..i] + [body[i]] + body[i + 1..];
    assert body[i := line] == body[..i] + [line] + body[i + 1..];
    UnmanagedConcat(read, body[..i], [body[i]]);
    UnmanagedConcat(read, body[..i] + [body[i]], body[i + 1..]);
    UnmanagedConcat(read, body[..i], [line]);
    UnmanagedConcat(read, body[..i] + [line], body[i + 1..]);
  }

  lemma {:induction false} UnmanagedRewrite(w: Script, body: seq<string>, n: nat)
    requires Faithful(w) && n <= |MANAGED_KEYS|
    ensures Unmanaged(w.read, RewriteFirst(w, body, n)) == Unmanaged(w.read, body)
  {
    if n > 0 {
      var before, k := RewriteFirst(w, body, n - 1), MANAGED_KEYS[n - 1];
      UnmanagedRewrite(w, body, n - 1);
      var at := LastOf(w.read, before, k);
      if at.Some? {
        assert w.read(w.keyLine(k)).Setting?;
        UnmanagedReplace(w.read, before, at.value, w.keyLine(k));
      }
    }
  }

  lemma {:induction false} NoneUnmanagedMissing(w: Script, body: seq<string>, n: nat)
    requires Faithful(w) && n <= |MANAGED_KEYS|
    ensures Unmanaged(w.read, MissingFirst(w, body, n)) == []
  {
    if n > 0 {
      var k := MANAGED_KEYS[n - 1];
      var more := if LastOf(w.read, body, k).None? then [w.keyLine(k)] else [];
      NoneUnmanagedMissing(w, body, n - 1);
      UnmanagedConcat(w.read, MissingFirst(w, body, n - 1), more);
      assert w.read(w.keyLine(k)).Setting?;
    }
  }

  lemma {:induction false} UnmanagedInsert(read: Reader, r: seq<string>, more: seq<string>, at: nat)
    requires at <= |r| && Unmanaged(read, more) == []
    ensures Unmanaged(read, r[..at] + more + r[at..]) == Unmanaged(read, r)
  {
    UnmanagedConcat(read, r[..at], more);
    UnmanagedConcat(read, r[..at] + more, r[at..]);
    assert r == r[..at] + r[at..];
    UnmanagedConcat(read, r[..at], r[at..]);
  }

  lemma {:induction false} UpdateKeepsUnmanaged(w: Script, body: seq<string>)
    requires Faithful(w)
    ensures Unmanaged(w.read, Updated(w, body)) == Unmanaged(w.read, body)
  {
    UnmanagedRewrite(w, body, |MANAGED_KEYS|);
    NoneUnmanagedMissing(w, body, |MANAGED_KEYS|);
    UnmanagedInsert(
      w.read, RewriteFirst(w, body, |MANAGED_KEYS|), MissingFirst(w, body, |MANAGED_KEYS|), Leading(w.read, body, 0));
  }

  /** Lines of the result come from the file, or are written by the editor. */
  ghost predicate Allowed(w: Script, lines: seq<string>, line: string)
  {
    line in lines || line == "" || line == w.header || exists k :: line == w.keyLine(k)
  }

  lemma {:induction false} RewriteFrom(w: Script, body: seq<string>, n: nat, line: string)
    requires n <= |MANAGED_KEYS| && (line in RewriteFirst(w, body, n) || line in MissingFirst(w, body, n))
    ensures line in body || exists k :: line == w.keyLine(k)
  {
    if n > 0 {
      var before, fewer, k := RewriteFirst(w, body, n - 1), MissingFirst(w, body, n - 1), MANAGED_KEYS[n - 1];
      assert RewriteFirst(w, body, n) == Rewrite(w, before, k);
      assert line in Rewrite(w, before, k) ==> line in before || line == w.keyLine(k);
      if line in before || line in fewer {
        RewriteFrom(w, body, n - 1, line);
      } else {
        assert line == w.keyLine(k);
      }
    }
  }

  lemma {:induction false} UpdatedFrom(w: Script, body: seq<string>, line: string)
    requires line in Updated(w, body)
    ensures line in body || exists k :: line == w.keyLine(k)
  {
    RewriteFrom(w, body, |MANAGED_KEYS|, line);
  }

  lemma {:induction false} NoTableUpdated(w: Script, body: seq<string>)
    requires Faithful(w) && NoTable(w.read, body)
    ensures NoTable(w.read, Updated(w, body))
  {
    var r := Updated(w, body);
    forall i | 0 <= i < |r| ensures !TableAt(w.read, r, i) {
      UpdatedFrom(w, body, r[i]);
      if r[i] in body {
        var j :| 0 <= j < |body| && body[j] == r[i];
        assert !TableAt(w.read, body, j);
      }
    }
  }

  lemma {:induction false} OutsideFromLines(read: Reader, lines: seq<string>, inside: bool, line: string)
    requires line in Outside(read, lines, inside)
    ensures line in lines
    decreases |lines|
  {
    var now := if TableAt(read, lines, 0) then read(lines[0]).matches else inside;
    if now || line != lines[0] {
      OutsideFromLines(read, lines[1..], now, line);
    }
  }

  // ------------------------------------------------------------ the whole edit

  /** The result, split around its only block. */
  function EnabledView(w: Script, lines: seq<string>): View
  {
    var v := ViewOf(w.read, Collapsed(w.read, lines));
    if v.None? then View(lines + Separator(w.read, lines), w.header, KeyLines(w), [])
    else v.value.(body := Updated(w, v.value.body))
  }

  lemma {:induction false} KeyLinesOnTarget(w: Script)
    requires Faithful(w)
    ensures OnTarget(w.read, KeyLines(w)) && NoTable(w.read, KeyLines(w))
  {
    forall k ensures ValueOf(w.read, KeyLines(w), k) == Some(Target(k)) {
      LastConcat(w.read, [w.keyLine(Trust)], [w.keyLine(Approval)], k);
      LastConcat(w.read, [w.keyLine(Trust)] + [w.keyLine(Approval)], [w.keyLine(Sandbox)], k);
      assert KeyLines(w) == [w.keyLine(Trust)] + [w.keyLine(Approval)] + [w.keyLine(Sandbox)];
      SingleValue(w, Trust, k);
      SingleValue(w, Approval, k);
      SingleValue(w, Sandbox, k);
    }
    forall i | 0 <= i < 3 ensures !TableAt(w.read, KeyLines(w), i) {
    }
  }

  lemma {:induction false} EnabledIsSingle(w: Script, lines: seq<string>)
    requires Faithful(w)
    ensures var v := EnabledView(w, lines);
      IsSingle(w.read, v) && Flat(v) == Enabled(w, lines) && OnTarget(w.read, v.body)
  {
    CollapseKeepsOutside(w.read, lines);
    var before := ViewOf(w.read, Collapsed(w.read, lines));
    if before.Some? {
      UpdateSettles(w, before.value.body);
      NoTableUpdated(w, before.value.body);
    } else {
      KeyLinesOnTarget(w);
      NoMatchConcat(w.read, lines, Separator(w.read, lines));
      var v := EnabledView(w, lines);
      assert v.pre + [v.header] + v.body + [] == v.pre + [v.header] + v.body;
    }
  }

  /**
  After enabling there is exactly one matching block, and all three keys read as their targets; the
  lines outside matching blocks are those there were, in order (with a blank before a new block); the
  kept block keeps its unmanaged lines; enabling again changes nothing.
  */
  lemma {:induction false} EnableSettles(w: Script, lines: seq<string>, v: View)
    requires Faithful(w) && v == EnabledView(w, lines)
    ensures Enabled(w, lines) == Flat(v)
    ensures Sections(w.read, Flat(v)) == [Section(|v.pre|, |v.pre| + 1 + |v.body|)] && OnTarget(w.read, v.body)
    ensures Enabled(w, Flat(v)) == Flat(v)
    ensures Outside(w.read, Flat(v), false)
         == Outside(w.read, lines, false) + (if ViewOf(w.read, lines).None? then Separator(w.read, lines) else [])
    ensures ViewOf(w.read, lines).Some? ==> Unmanaged(w.read, v.body) == Unmanaged(w.read, ViewOf(w.read, lines).value.body)
  {
    EnabledIsSingle(w, lines);
    SingleSection(w.read, v);
    SettledView(w, v);
    EnableKeeps(w, lines);
  }

  lemma {:induction false} SettledView(w: Script, v: View)
    requires Faithful(w) && IsSingle(w.read, v) && OnTarget(w.read, v.body)
    ensures Enabled(w, Flat(v)) == Flat(v)
  {
    SingleCollapsed(w.read, v);
    UpdateOnTarget(w, v.body);
    assert v.(body := Updated(w, v.body)) == v;
  }

  lemma {:induction false} EnableKeeps(w: Script, lines: seq<string>)
    requires Faithful(w)
    ensures var v, before := EnabledView(w, lines), ViewOf(w.read, lines);
      && Outside(w.read, Flat(v), false)
         == Outside(w.read, lines, false) + (if before.None? then Separator(w.read, lines) else [])
      && (before.Some? ==> Unmanaged(w.read, v.body) == Unmanaged(w.read, before.value.body))
  {
    var v := EnabledView(w, lines);
    EnabledIsSingle(w, lines);
    SingleCollapsed(w.read, v);
    CollapseKeepsOutside(w.read, lines);
    var kept := ViewOf(w.read, Collapsed(w.read, lines));
    if kept.Some? {
      SingleCollapsed(w.read, kept.value);
      UpdateKeepsUnmanaged(w, kept.value.body);
    } else {
      OutsideOfUnmatched(w.read, lines);
    }
  }

  lemma {:induction false} UpdateOnTarget(w: Script, body: seq<string>)
    requires Faithful(w) && OnTarget(w.read, body)
    ensures Updated(w, body) == body
  {
    NothingToRewrite(w, body, |MANAGED_KEYS|);
    Rejoin(body, Leading(w.read, body, 0));
  }

  lemma {:induction false} Rejoin<T>(s: seq<T>, at: nat)
    requires at <= |s|
    ensures s[..at] + [] + s[at..] == s
  {
  }

  // ------------------------------------------------------------ disabling

  function WithoutGates(read: Reader, body: seq<string>): seq<string>
  {
    if body == [] then []
    else
      var gate := read(body[0]).Setting? && read(body[0]).key != Trust;
      (if gate then [] else [body[0]]) + WithoutGates(read, body[1..])
  }

  function Disabled(read: Reader, lines: seq<string>): seq<string>
  {
    var v := ViewOf(read, Collapsed(read, lines));
    if v.None? then lines else Flat(v.value.(body := WithoutGates(read, v.value.body)))
  }

  lemma {:induction false} WithoutGatesValue(read: Reader, body: seq<string>, k: Managed)
    ensures ValueOf(read, WithoutGates(read, body), k) == if k == Trust then ValueOf(read, body, k) else None
  {
    if body != [] {
      var first, tail, rest := [body[0]], body[1..], WithoutGates(read, body[1..]);
      WithoutGatesValue(read, tail, k);
      assert first + tail == body;
      LastConcat(read, first, tail, k);
      LastConcat(read, first, rest, k);
      FirstValue(read, body[0], k);
      assert [] + rest == rest;
    }
  }

  lemma {:induction false} WithoutGatesUnmanaged(read: Reader, body: seq<string>)
    ensures Unmanaged(read, WithoutGates(read, body)) == Unmanaged(read, body)
  {
    if body != [] {
      var rest := WithoutGates(read, body[1..]);
      WithoutGatesUnmanaged(read, body[1..]);
      UnmanagedConcat(read, [body[0]], rest);
      assert [] + rest == rest;
      assert Unmanaged(read, [body[0]]) == if read(body[0]).Setting? then [] else [body[0]];
    }
  }

  lemma {:induction false} WithoutGatesFrom(read: Reader, body: seq<string>, line: string)
    requires line in WithoutGates(read, body)
    ensures line in body
  {
    if line != body[0] {
      WithoutGatesFrom(read, body[1..], line);
    }
  }

  lemma {:induction false} WithoutGatesNoTable(read: Reader, body: seq<string>)
    requires NoTable(read, body)
    ensures NoTable(read, WithoutGates(read, body))
  {
    var r := WithoutGates(read, body);
    forall i | 0 <= i < |r| ensures !TableAt(read, r, i) {
      WithoutGatesFrom(read, body, r[i]);
      var j :| 0 <= j < |body| && body[j] == r[i];
      assert !TableAt(read, body, j);
    }
  }

  lemma {:induction false} FirstValue(read: Reader, line: string, k: Managed)
    ensures ValueOf(read, [line], k) == if read(line).Setting? && read(line).key == k then Some(read(line).value) else None
  {
    assert SettingAt(read, [line], 0, k) == (read(line).Setting? && read(line).key == k);
  }

  /** Disabling removes every approval and sandbox setting of the project, and nothing else that is managed or not. */
  lemma {:induction false} DisableRemovesGates(read: Reader, lines: seq<string>)
    requires ViewOf(read, lines).Some?
    ensures var r, body := Disabled(read, lines), ViewOf(read, lines).value.body; var v := ViewOf(read, r);
      && v.Some? && IsSingle(read, v.value)
      && (forall k :: ValueOf(read, v.value.body, k) == if k == Trust then ValueOf(read, body, k) else None)
      && Unmanaged(read, v.value.body) == Unmanaged(read, body)
      && Outside(read, r, false) == Outside(read, lines, false)
  {
    CollapseKeepsOutside(read, lines);
    var kept := ViewOf(read, Collapsed(read, lines)).value;
    var after := kept.(body := WithoutGates(read, kept.body));
    forall k ensures ValueOf(read, after.body, k) == if k == Trust then ValueOf(read, kept.body, k) else None {
      WithoutGatesValue(read, kept.body, k);
    }
    WithoutGatesUnmanaged(read, kept.body);
    WithoutGatesNoTable(read, kept.body);
    SingleCollapsed(read, kept);
    SingleCollapsed(read, after);
  }

  // ------------------------------------------------------------ the editor, step by step

  lemma {:induction false} RewrittenLast(w: Script, body: seq<string>, n: nat, k: Managed)
    requires Faithful(w) && n <= |MANAGED_KEYS|
    ensures LastOf(w.read, RewriteFirst(w, body, n), k) == LastOf(w.read, body, k)
  {
    if n > 0 {
      RewrittenLast(w, body, n - 1, k);
      RewriteValue(w, RewriteFirst(w, body, n - 1), MANAGED_KEYS[n - 1], k);
    }
  }

  /** The line number of a key's last setting, if it has one. */
  ghost predicate AtLast(read: Reader, body: seq<string>, n: nat, offset: nat, existing: map<Managed, nat>, k: Managed)
    requires n <= |body|
  {
    var last := LastUpTo(read, body, k, n);
    if last.Some? then k in existing && existing[k] == offset + last.value else k !in existing
  }

  ghost predicate AllAtLast(read: Reader, body: seq<string>, n: nat, offset: nat, existing: map<Managed, nat>)
    requires n <= |body|
  {
    forall k :: AtLast(read, body, n, offset, existing, k)
  }

  lemma {:induction false} IndexOne(read: Reader, body: seq<string>, n: nat, offset: nat, existing: map<Managed, nat>)
    requires n < |body| && AllAtLast(read, body, n, offset, existing)
    ensures var line := read(body[n]);
      AllAtLast(read, body, n + 1, offset, if line.Setting? then existing[line.key := offset + n] else existing)
  {
    var line := read(body[n]);
    var after := if line.Setting? then existing[line.key := offset + n] else existing;
    var m := n + 1;
    forall k ensures AtLast(read, body, m, offset, after, k) {
      assert AtLast(read, body, n, offset, existing, k);
    }
  }

  method IndexSettings(read: Reader, lines: seq<string>, start: nat, end: nat) returns (existing: map<Managed, nat>)
    requires start < end <= |lines|
    ensures AllAtLast(read, lines[start + 1..end], end - start - 1, start + 1, existing)
  {
    existing := map[];
    ghost var body := lines[start + 1..end];
    for i := start + 1 to end
      invariant AllAtLast(read, body, i - start - 1, start + 1, existing)
    {
      IndexOne(read, body, i - start - 1, start + 1, existing);
      assert lines[i] == body[i - start - 1];
      var line := read(lines[i]);
      if line.Setting? {
        existing := existing[line.key := i];
      }
    }
  }

  /** Just past the managed settings the block begins with. */
  method InsertionPoint(read: Reader, lines: seq<string>, start: nat, end: nat) returns (at: nat)
    requires start < end <= |lines|
    ensures at == start + 1 + Leading(read, lines[start + 1..end], 0)
  {
    ghost var body := lines[start + 1..end];
    at := start + 1;
    while at < end && read(lines[at]).Setting?
      invariant start + 1 <= at <= end
      invariant Leading(read, body, at - start - 1) == Leading(read, body, 0)
    {
      assert body[at - start - 1] == lines[at];
      at := at + 1;
    }
    assert at < end ==> body[at - start - 1] == lines[at];
  }

  lemma {:induction false} SpliceAt<T>(head: seq<T>, body: seq<T>, tail: seq<T>, i: nat, x: T)
    requires i < |body|
    ensures (head + body + tail)[|head| + i := x] == head + body[i := x] + tail
  {
  }

  lemma {:induction false} RewriteInPlace(w: Script, head: seq<string>, body: seq<string>, tail: seq<string>, k: Managed)
    ensures var all, at := head + body + tail, LastOf(w.read, body, k);
      if at.None? then Rewrite(w, body, k) == body
      else
        && all[|head| + at.value] == body[at.value]
        && head + Rewrite(w, body, k) + tail
           == if w.read(body[at.value]).value != Target(k) then all[|head| + at.value := w.keyLine(k)] else all
  {
    var at := LastOf(w.read, body, k);
    if at.Some? {
      SpliceAt(head, body, tail, at.value, w.keyLine(k));
    }
  }

  lemma {:induction false} RewriteOneKey(
    w: Script, head: seq<string>, body: seq<string>, tail: seq<string>, n: nat, existing: map<Managed, nat>)
    requires Faithful(w) && n < |MANAGED_KEYS| && AllAtLast(w.read, body, |body|, |head|, existing)
    ensures var k, all, next := MANAGED_KEYS[n], head + RewriteFirst(w, body, n) + tail, head + RewriteFirst(w, body, n + 1) + tail;
      if k in existing then
        && existing[k] < |all| && MissingFirst(w, body, n + 1) == MissingFirst(w, body, n)
        && w.read(all[existing[k]]).Setting?
        && next == if w.read(all[existing[k]]).value != Target(k) then all[existing[k] := w.keyLine(k)] else all
      else next == all && MissingFirst(w, body, n + 1) == MissingFirst(w, body, n) + [w.keyLine(k)]
  {
    var k, rewritten := MANAGED_KEYS[n], RewriteFirst(w, body, n);
    assert AtLast(w.read, body, |body|, |head|, existing, k);
    RewrittenLast(w, body, n, k);
    RewriteInPlace(w, head, rewritten, tail, k);
    assert RewriteFirst(w, body, n + 1) == Rewrite(w, rewritten, k);
  }

  method RewriteSettings(w: Script, lines: seq<string>, start: nat, end: nat, existing: map<Managed, nat>)
    returns (r: seq<string>, insertions: seq<string>)
    requires Faithful(w) && start < end <= |lines|
    requires AllAtLast(w.read, lines[start + 1..end], end - start - 1, start + 1, existing)
    ensures r == lines[..start + 1] + RewriteFirst(w, lines[start + 1..end], |MANAGED_KEYS|) + lines[end..]
    ensures insertions == MissingFirst(w, lines[start + 1..end], |MANAGED_KEYS|)
  {
    ghost var head, body, tail := lines[..start + 1], lines[start + 1..end], lines[end..];
    insertions := [];
    r := lines;
    ghost var rewritten := body;
    assert r == head + rewritten + tail;
    for n := 0 to |MANAGED_KEYS|
      invariant rewritten == RewriteFirst(w, body, n) && r == head + rewritten + tail
      invariant insertions == MissingFirst(w, body, n)
    {
      var k := MANAGED_KEYS[n];
      RewriteOneKey(w, head, body, tail, n, existing);
      rewritten := RewriteFirst(w, body, n + 1);
      if k in existing {
        if w.read(r[existing[k]]).value != Target(k) {
          r := r[existing[k] := w.keyLine(k)];
        }
      } else {
        insertions := insertions + [w.keyLine(k)];
      }
    }
  }

  method UpdateBlock(w: Script, lines: seq<string>, start: nat, end: nat) returns (r: seq<string>)
    requires Faithful(w) && start < end <= |lines|
    ensures r == lines[..start + 1] + Updated(w, lines[start + 1..end]) + lines[end..]
  {
    var existing := IndexSettings(w.read, lines, start, end);
    var insertAt := InsertionPoint(w.read, lines, start, end);
    var insertions;
    r, insertions := RewriteSettings(w, lines, start, end, existing);
    ghost var head, body, tail := lines[..start + 1], lines[start + 1..end], lines[end..];
    InsertInto(head, RewriteFirst(w, body, |MANAGED_KEYS|), tail, insertions, insertAt - start - 1);
    r := r[..insertAt] + insertions + r[insertAt..];
    assert r == head + Updated(w, body) + tail;
  }

  lemma {:induction false} InsertInto<T>(head: seq<T>, body: seq<T>, tail: seq<T>, more: seq<T>, i: nat)
    requires i <= |body|
    ensures var all := head + body + tail;
      all[..|head| + i] + more + all[|head| + i..] == head + (body[..i] + more + body[i..]) + tail
  {
    var all := head + body + tail;
    assert all[..|head| + i] == head + body[..i];
    assert all[|head| + i..] == body[i..] + tail;
  }

  method AppendBlock(w: Script, before: seq<string>) returns (lines: seq<string>)
    ensures lines == before + Separator(w.read, before) + [w.header] + KeyLines(w)
  {
    lines := before;
    if lines != [] && w.read(lines[|lines| - 1]) != Blank {
      lines := lines + [""];
    }
    lines := lines + [w.header];
    ghost var head := lines;
    for n := 0 to |MANAGED_KEYS|
      invariant lines == head + KeyLines(w)[..n]
    {
      lines := lines + [w.keyLine(MANAGED_KEYS[n])];
      assert KeyLines(w)[..n + 1] == KeyLines(w)[..n] + [w.keyLine(MANAGED_KEYS[n])];
    }
    assert KeyLines(w)[..3] == KeyLines(w);
  }

  /** One block left, and its section in view; or no block at all. */
  lemma {:induction false} CollapsedSection(read: Reader, before: seq<string>)
    ensures var lines := Collapsed(read, before); var v := ViewOf(read, lines);
      && (v.None? ==> Sections(read, lines) == [])
      && (v.Some? ==> IsSingle(read, v.value) && Flat(v.value) == lines)
      && (v.Some? ==> Sections(read, lines) == [Section(|v.value.pre|, |v.value.pre| + 1 + |v.value.body|)])
  {
    CollapseKeepsOutside(read, before);
    var lines := Collapsed(read, before);
    var v := ViewOf(read, lines);
    if v.Some? {
      SingleSection(read, v.value);
    } else {
      NoSections(read, lines, 0, |lines|);
    }
  }

  lemma {:induction false} FlatUpdated(v: View, body: seq<string>)
    ensures var l, s, e := Flat(v), |v.pre|, |v.pre| + 1 + |v.body|;
      && s < e <= |l| && l[s + 1..e] == v.body && l[..s + 1] + body + l[e..] == Flat(v.(body := body))
  {
    FlatAt(v);
    assert Flat(v)[..|v.pre| + 1] == v.pre + [v.header];
  }

  lemma {:induction false} CollapsedReadable(w: Script, lines: seq<string>)
    requires Readable(w.raises, lines)
    ensures Readable(w.raises, Collapsed(w.read, lines))
  {
    var c, v := Collapsed(w.read, lines), ViewOf(w.read, lines);
    forall i | 0 <= i < |c| ensures !w.raises(c[i]) {
      if v.Some? && c[i] in Outside(w.read, v.value.post, false) {
        OutsideFromLines(w.read, v.value.post, false, c[i]);
      }
      assert c[i] in lines;
    }
  }

  /** The edit goes through exactly if the search for the project's blocks does. */
  method EnableLines(w: Script, before: seq<string>) returns (r: Result<seq<string>, Raised>)
    requires Faithful(w)
    ensures r == if Readable(w.raises, before) then Ok(Enabled(w, before)) else Refused(OverflowError)
  {
    var collapsed := CollapseDuplicates(w.read, w.raises, before);
    if collapsed.Refused? {
      return Refused(OverflowError);
    }
    var lines := collapsed.value.0;
    CollapsedReadable(w, before);
    CollapsedSection(w.read, before);
    ghost var view := ViewOf(w.read, lines);
    var found := FindAllSections(w.read, w.raises, lines);
    if found.Refused? {
      return Refused(OverflowError);
    }
    var sections := found.value;
    if |sections| == 0 {
      lines := AppendBlock(w, lines);
    } else {
      FlatUpdated(view.value, Updated(w, view.value.body));
      lines := UpdateBlock(w, lines, sections[0].start, sections[0].end);
    }
    return Ok(lines);
  }

  lemma {:induction false} WithoutGatesConcat(read: Reader, a: seq<string>, b: seq<string>)
    ensures WithoutGates(read, a + b) == WithoutGates(read, a) + WithoutGates(read, b)
  {
    if a == [] {
      assert a + b == b;
    } else {
      assert (a + b)[1..] == a[1..] + b;
      WithoutGatesConcat(read, a[1..], b);
    }
  }

  lemma {:induction false} OneWithoutGates(read: Reader, body: seq<string>, n: nat)
    requires n < |body|
    ensures WithoutGates(read, body[..n + 1]) == WithoutGates(read, body[..n])
      + if read(body[n]).Setting? && read(body[n]).key != Trust then [] else [body[n]]
  {
    assert body[..n + 1] == body[..n] + [body[n]];
    WithoutGatesConcat(read, body[..n], [body[n]]);
    assert [body[n]][1..] == [];
  }

  method RemoveGates(read: Reader, lines: seq<string>, start: nat, end: nat) returns (block: seq<string>)
    requires start < end <= |lines|
    ensures block == [lines[start]] + WithoutGates(read, lines[start + 1..end])
  {
    block := [lines[start]];
    ghost var body := lines[start + 1..end];
    for i := start + 1 to end
      invariant block == [lines[start]] + WithoutGates(read, body[..i - start - 1])
    {
      OneWithoutGates(read, body, i - start - 1);
      assert lines[i] == body[i - start - 1];
      var line := read(lines[i]);
      if !(line.Setting? && line.key != Trust) {
        block := block + [lines[i]];
      }
    }
    assert body[..end - start - 1] == body;
  }

  /** Disabling, or the same refusal. */
  method DisableLines(w: Script, before: seq<string>) returns (r: Result<seq<string>, Raised>)
    ensures r == if Readable(w.raises, before) then Ok(Disabled(w.read, before)) else Refused(OverflowError)
  {
    var collapsed := CollapseDuplicates(w.read, w.raises, before);
    if collapsed.Refused? {
      return Refused(OverflowError);
    }
    var lines := collapsed.value.0;
    CollapsedReadable(w, before);
    CollapsedSection(w.read, before);
    ghost var view := ViewOf(w.read, lines);
    var found := FindAllSections(w.read, w.raises, lines);
    if found.Refused? {
      return Refused(OverflowError);
    }
    var sections := found.value;
    if |sections| == 0 {
      return Ok(before);
    }
    var start, end := sections[0].start, sections[0].end;
    DisableSplice(w.read, view.value);
    var block := RemoveGates(w.read, lines, start, end);
    return Ok(lines[..start] + block + lines[end..]);
  }

  lemma {:induction false} DisableSplice(read: Reader, v: View)
    ensures var l, s, e := Flat(v), |v.pre|, |v.pre| + 1 + |v.body|; var kept := WithoutGates(read, v.body);
      && s < e <= |l| && l[s] == v.header && l[s + 1..e] == v.body
      && l[..s] + ([l[s]] + kept) + l[e..] == Flat(v.(body := kept))
  {
    FlatAt(v);
    var kept := WithoutGates(read, v.body);
    assert v.pre + ([v.header] + kept) + v.post == v.pre + [v.header] + kept + v.post;
  }

  ghost predicate Reported(read: Reader, body: seq<string>, n: nat, values: map<Managed, string>, k: Managed)
    requires n <= |body|
  {
    var last := LastUpTo(read, body, k, n);
    if last.Some? then k in values && values[k] == read(body[last.value]).value else k !in values
  }

  ghost predicate AllReported(read: Reader, body: seq<string>, n: nat, values: map<Managed, string>)
    requires n <= |body|
  {
    forall k :: Reported(read, body, n, values, k)
  }

  lemma {:induction false} ReportOne(read: Reader, body: seq<string>, n: nat, values: map<Managed, string>)
    requires n < |body| && AllReported(read, body, n, values)
    ensures var line := read(body[n]);
      AllReported(read, body, n + 1, if line.Setting? then values[line.key := line.value] else values)
  {
    var line := read(body[n]);
    var after := if line.Setting? then values[line.key := line.value] else values;
    var m := n + 1;
    forall k ensures Reported(read, body, m, after, k) {
      assert Reported(read, body, n, values, k);
    }
  }

  /** What `status` reports: the first block's values, and how many further blocks there are. */
  ghost predicate IsStatus(read: Reader, lines: seq<string>, present: bool, duplicates: nat, values: map<Managed, string>)
  {
    var sections := Sections(read, lines);
    if sections == [] then !present && duplicates == 0 && values == map[]
    else
      && present && duplicates == |sections| - 1
      && sections[0].start < sections[0].end <= |lines|
      && var body := lines[sections[0].start + 1..sections[0].end]; AllReported(read, body, |body|, values)
  }

  datatype Status = Status(present: bool, duplicates: nat, values: map<Managed, string>)

  method ReadStatus(w: Script, lines: seq<string>) returns (r: Result<Status, Raised>)
    ensures r.Ok? <==> Readable(w.raises, lines)
    ensures r.Ok? ==> IsStatus(w.read, lines, r.value.present, r.value.duplicates, r.value.values)
  {
    var read := w.read;
    var found := FindAllSections(read, w.raises, lines);
    if found.Refused? {
      return Refused(OverflowError);
    }
    var sections := found.value;
    if |sections| == 0 {
      return Ok(Status(false, 0, map[]));
    }
    SectionAt(read, lines, 0, 0);
    var start, end := sections[0].start, sections[0].end;
    ghost var body := lines[start + 1..end];
    var values: map<Managed, string> := map[];
    for i := start + 1 to end
      invariant AllReported(read, body, i - start - 1, values)
    {
      ReportOne(read, body, i - start - 1, values);
      assert lines[i] == body[i - start - 1];
      var line := read(lines[i]);
      if line.Setting? {
        values := values[line.key := line.value];
      }
    }
    return Ok(Status(true, |sections| - 1, values));
  }
}
