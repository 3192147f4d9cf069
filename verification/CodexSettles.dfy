/**
Enabling twice (`enable_project` in src/agenttalk/codex_config.py): exactly which files are, byte for
byte, what the second run leaves alone.
*/
module CodexSettles {
  import opened Wrappers
  import opened PythonText
  import opened TomlText
  import opened CodexConfig
  import opened CodexEdit
  import opened CodexText
  import opened CodexFile

  /** The kept block has nothing to add below its last line, or rewrites that line. */
  predicate BlockStaysLast(w: Script, body: seq<string>)
  {
    || Leading(w.read, body, 0) < |body|
    || MissingFirst(w, body, |MANAGED_KEYS|) == []
    || (body != [] && var last := w.read(body[|body| - 1]); last.Setting? && last.value != Target(last.key))
  }

  /** The edit writes nothing below the last line as it stands. */
  predicate ReturnStaysLast(w: Script, lines: seq<string>)
  {
    var v := ViewOf(w.read, lines);
    v.Some? && (v.value.post != [] || BlockStaysLast(w, v.value.body))
  }

  // ------------------------------------------------------------ lines of which only the last may end in a return

  lemma {:induction false} FitConcat(a: seq<string>, b: seq<string>)
    ensures b != [] ==> (Fit(a + b) <==> AllSealed(a, LF) && Fit(b))
    ensures AllSealed(a, LF) && Fit(b) ==> Fit(a + b)
  {
    var c := a + b;
    assert forall i :: 0 <= i < |b| ==> c[|a| + i] == b[i];
    assert forall i :: 0 <= i < |a| ==> c[i] == a[i];
    if b == [] {
      assert c == a;
    }
  }

  lemma {:induction false} SealedConcat(a: seq<string>, b: seq<string>)
    ensures AllSealed(a + b, LF) <==> AllSealed(a, LF) && AllSealed(b, LF)
  {
    var c := a + b;
    assert forall i :: 0 <= i < |b| ==> c[|a| + i] == b[i];
    assert forall i :: 0 <= i < |a| ==> c[i] == a[i];
  }

  lemma {:induction false} OutsideIsFit(read: Reader, lines: seq<string>, inside: bool)
    requires Fit(lines)
    ensures Fit(Outside(read, lines, inside))
    decreases |lines|
  {
    if lines != [] {
      var first, rest := [lines[0]], lines[1..];
      var now := if TableAt(read, lines, 0) then read(lines[0]).matches else inside;
      assert lines == first + rest;
      FitConcat(first, rest);
      assert rest == [] ==> Outside(read, rest, now) == [];
      if rest != [] {
        OutsideIsFit(read, rest, now);
        FitConcat(first, Outside(read, rest, now));
      }
      assert [] + Outside(read, rest, now) == Outside(read, rest, now);
    }
  }

  lemma {:induction false} CleanIsSealed(w: Script, line: string)
    requires NoBreaks(line)
    ensures Sealed(line, LF)
  {
  }

  lemma {:induction false} MissingIsSealed(w: Script, body: seq<string>, n: nat)
    requires Clean(w) && n <= |MANAGED_KEYS|
    ensures AllSealed(MissingFirst(w, body, n), LF)
  {
    if n > 0 {
      MissingIsSealed(w, body, n - 1);
      CleanIsSealed(w, w.keyLine(MANAGED_KEYS[n - 1]));
    }
  }

  lemma {:induction false} RewriteIsFit(w: Script, body: seq<string>, n: nat)
    requires Clean(w) && n <= |MANAGED_KEYS| && Fit(body)
    ensures Fit(RewriteFirst(w, body, n))
  {
    if n > 0 {
      RewriteIsFit(w, body, n - 1);
      CleanIsSealed(w, w.keyLine(MANAGED_KEYS[n - 1]));
    }
  }

  /** The last line is rewritten exactly when it is a setting off its target. */
  lemma {:induction false} LastRewritten(w: Script, body: seq<string>, n: nat)
    requires Faithful(w) && body != [] && w.read(body[|body| - 1]).Setting? && n <= |MANAGED_KEYS|
    ensures var i := |body| - 1; var last := w.read(body[i]);
      RewriteFirst(w, body, n)[i]
      == if Position(last.key) < n && last.value != Target(last.key) then w.keyLine(last.key) else body[i]
  {
    if n > 0 {
      var i, k, before := |body| - 1, MANAGED_KEYS[n - 1], RewriteFirst(w, body, n - 1);
      var last := w.read(body[i]);
      LastRewritten(w, body, n - 1);
      PositionOf(n - 1);
      assert SettingAt(w.read, before, i, last.key);
      assert k == last.key ==> LastOf(w.read, before, k) == Some(i);
      assert k != last.key ==> !SettingAt(w.read, before, i, k);
      assert RewriteFirst(w, body, n) == Rewrite(w, before, k);
    }
  }

  /** A block all of whose lines are settings ends in one. */
  lemma {:induction false} LeadingSettings(read: Reader, body: seq<string>, i: nat, j: nat)
    requires i <= j < |body| && Leading(read, body, i) == |body|
    ensures read(body[j]).Setting?
    decreases |body| - i
  {
    if i < j {
      LeadingSettings(read, body, i + 1, j);
    }
  }

  lemma {:induction false} UpdatedIsFit(w: Script, body: seq<string>)
    requires Faithful(w) && Clean(w) && body != [] && Fit(body) && BlockStaysLast(w, body)
    ensures Fit(Updated(w, body))
  {
    var at, r, more := Leading(w.read, body, 0), RewriteFirst(w, body, |MANAGED_KEYS|), MissingFirst(w, body, |MANAGED_KEYS|);
    RewriteIsFit(w, body, |MANAGED_KEYS|);
    MissingIsSealed(w, body, |MANAGED_KEYS|);
    assert r == r[..at] + r[at..];
    if at < |body| {
      FitConcat(r[..at], r[at..]);
      SealedConcat(r[..at], more);
      FitConcat(r[..at] + more, r[at..]);
    } else if more == [] {
      Rejoin(r, at);
    } else {
      var last := w.read(body[|body| - 1]);
      LastRewritten(w, body, |MANAGED_KEYS|);
      CleanIsSealed(w, w.keyLine(last.key));
      assert AllSealed(r, LF);
      assert r[..at] + more + r[at..] == r + more;
      SealedConcat(r, more);
    }
  }

  lemma {:induction false} ViewIsFit(v: View)
    requires Fit(Flat(v))
    ensures if v.post != [] then AllSealed(v.pre + [v.header] + v.body, LF) && Fit(v.post)
            else if v.body != [] then AllSealed(v.pre + [v.header], LF) && Fit(v.body)
            else AllSealed(v.pre, LF) && Fit([v.header])
  {
    FitConcat(v.pre + [v.header] + v.body, v.post);
    FitConcat(v.pre + [v.header], v.body);
    FitConcat(v.pre, [v.header]);
    assert v.post == [] ==> v.pre + [v.header] + v.body + v.post == v.pre + [v.header] + v.body;
    assert v.body == [] ==> v.pre + [v.header] + v.body == v.pre + [v.header];
  }

  lemma {:induction false} UpdatedIsSealed(w: Script, body: seq<string>)
    requires Clean(w) && AllSealed(body, LF)
    ensures AllSealed(Updated(w, body), LF)
  {
    var r := Updated(w, body);
    forall i | 0 <= i < |r| ensures Sealed(r[i], LF) {
      UpdatedFrom(w, body, r[i]);
      if r[i] in body {
        var j :| 0 <= j < |body| && body[j] == r[i];
        assert Sealed(body[j], LF);
      } else {
        CleanIsSealed(w, r[i]);
      }
    }
  }

  lemma {:induction false} EnabledOfView(w: Script, lines: seq<string>)
    requires ViewOf(w.read, lines).Some?
    ensures var v := ViewOf(w.read, lines).value;
      Enabled(w, lines) == v.pre + [v.header] + Updated(w, v.body) + Outside(w.read, v.post, false)
  {
    var v := ViewOf(w.read, lines).value;
    var kept := v.(post := Outside(w.read, v.post, false));
    OutsideHasNoMatch(w.read, v.post, false);
    SingleCollapsed(w.read, kept);
  }

  lemma {:induction false} EnabledIsFit(w: Script, lines: seq<string>)
    requires Faithful(w) && Clean(w) && Fit(lines) && ReturnStaysLast(w, lines)
    ensures Fit(Enabled(w, lines))
  {
    var v := ViewOf(w.read, lines).value;
    var head, updated, tail := v.pre + [v.header], Updated(w, v.body), Outside(w.read, v.post, false);
    ViewIsFit(v);
    EnabledOfView(w, lines);
    if v.post != [] {
      SealedConcat(head, v.body);
      UpdatedIsSealed(w, v.body);
      SealedConcat(head, updated);
      OutsideIsFit(w.read, v.post, false);
      FitConcat(head + updated, tail);
    } else {
      assert v.body == [] ==> MissingFirst(w, v.body, |MANAGED_KEYS|) != [];
      UpdatedIsFit(w, v.body);
      FitConcat(head, updated);
      assert head + updated + tail == head + updated;
    }
  }

  lemma {:induction false} FitSplits(lines: seq<string>)
    requires lines != [] && Fit(lines)
    ensures NewlineOf(Join(lines, LF)) == LF && Split(Join(lines, LF), LF) == lines
  {
    JoinedHasNoCrlf(lines);
    SplitUndoesJoin(lines, LF);
  }

  lemma {:induction false} NothingTrails(t: string)
    requires !HasCrlf(t) && EndsInReturn(t)
    ensures var lines := Split(t, LF);
      Fit(lines) && Body(lines) == lines && Trailing(lines) == [] && EndsInReturn(lines[|lines| - 1])
  {
    SplitIsFit(t);
  }

  lemma {:induction false} EditedIsJoin(w: Script, t: string, lines: seq<string>, e: seq<string>)
    requires !HasCrlf(t) && EndsInReturn(t) && lines == Split(t, LF) && e == Enabled(w, lines)
    ensures EditedText(w, t) == Join(e, LF)
  {
    NothingTrails(t);
    assert e + [] == e;
  }

  lemma {:induction false} PiecesOfFit(w: Script, t: string, lines: seq<string>, e: seq<string>)
    requires Faithful(w) && Clean(w) && !HasCrlf(t) && EndsInReturn(t)
    requires lines == Split(t, LF) && e == Enabled(w, lines) && ReturnStaysLast(w, lines)
    ensures NewlineOf(EditedText(w, t)) == LF && Split(EditedText(w, t), LF) == e && EditedText(w, t) == Join(e, LF)
  {
    NothingTrails(t);
    EnabledIsFit(w, lines);
    EditedIsJoin(w, t, lines, e);
    FitSplits(e);
  }

  lemma {:induction false} FitSettles(w: Script, t: string)
    requires Faithful(w) && Clean(w) && !HasCrlf(t) && EndsInReturn(t) && ReturnStaysLast(w, Split(t, LF))
    ensures EditedText(w, EditedText(w, t)) == EditedText(w, t)
  {
    var lines := Split(t, LF);
    var e := Enabled(w, lines);
    PiecesOfFit(w, t, lines, e);
    assert e + [] == e;
    EditAgain(w, lines, []);
  }

  // ------------------------------------------------------------ a return that gets a line below it

  lemma {:induction false} JoinConcat(a: seq<string>, b: seq<string>, nl: string)
    requires a != [] && b != []
    ensures Join(a + b, nl) == Join(a, nl) + nl + Join(b, nl)
  {
    if |a| == 1 {
      assert (a + b)[1..] == b;
    } else {
      assert (a + b)[1..] == a[1..] + b;
      JoinConcat(a[1..], b, nl);
      assert a[0] + nl + (Join(a[1..], nl) + nl + Join(b, nl)) == (a[0] + nl + Join(a[1..], nl)) + nl + Join(b, nl);
    }
  }

  lemma {:induction false} JoinLast(a: seq<string>, line: string, c: char, nl: string)
    ensures Join(a + [line + [c]], nl) == Join(a + [line], nl) + [c]
  {
    if a == [] {
      assert a + [line] == [line] && a + [line + [c]] == [line + [c]];
    } else {
      JoinConcat(a, [line], nl);
      JoinConcat(a, [line + [c]], nl);
      assert (Join(a, nl) + nl + line) + [c] == Join(a, nl) + nl + (line + [c]);
    }
  }

  /** The return and the newline after it become the file's only CRLF. */
  lemma {:induction false} OneCrlf(a: seq<string>, last: string, b: seq<string>)
    requires AllSealed(a, LF) && Unbroken(last, LF) && EndsInReturn(last) && b != [] && AllSealed(b, LF)
    ensures var t := Join(a + [last] + b, LF);
      HasCrlf(t) && Split(t, CRLF) == [Join(a + [last[..|last| - 1]], LF), Join(b, LF)]
  {
    var line := last[..|last| - 1];
    var head, rest := Join(a + [line], LF), Join(b, LF);
    assert last == line + ['\r'];
    JoinConcat(a + [last], b, LF);
    JoinLast(a, line, '\r', LF);
    var t := Join(a + [last] + b, LF);
    assert t == head + CRLF + rest by {
      assert (head + ['\r']) + LF == head + CRLF;
    }
    assert t[|head|] == '\r' && t[|head| + 1] == '\n';
    assert Unbroken(line, LF) by {
      assert forall i :: 0 <= i < |line| ==> line[i] == last[i];
    }
    FitConcat(a, [line]);
    JoinedHasNoCrlf(a + [line]);
    JoinedHasNoCrlf(b);
    SplitLine(head, CRLF, rest);
    SplitLast(rest, CRLF);
  }

  lemma {:induction false} JoinIsNotEmpty(b: seq<string>)
    requires b != [] && b[|b| - 1] != ""
    ensures Join(b, LF) != ""
  {
  }

  lemma {:induction false} LongerThanPieces(w: Script, t: string)
    requires Faithful(w) && Clean(w) && HasCrlf(t) && |Split(t, CRLF)| == 2 && Trailing(Split(t, CRLF)) == []
    ensures EditedText(w, t) != t
  {
    var pieces := Split(t, CRLF);
    PiecesOfEnabled(w, t);
    EnabledIsSingle(w, Body(pieces));
    var body := EnabledView(w, Body(pieces)).body;
    var a, b := LastOf(w.read, body, Trust), LastOf(w.read, body, Approval);
    assert ValueOf(w.read, body, Trust).Some? && ValueOf(w.read, body, Approval).Some?;
    assert SettingAt(w.read, body, a.value, Trust) && SettingAt(w.read, body, b.value, Approval);
    assert a.value != b.value && |body| >= 2;
  }

  /** What the edit makes of such a file: the last line, and below it something that ends in a setting. */
  lemma {:induction false} EnabledBuries(w: Script, lines: seq<string>) returns (a: seq<string>, b: seq<string>)
    requires Faithful(w) && Clean(w) && Fit(lines) && lines != [] && !ReturnStaysLast(w, lines)
    ensures AllSealed(a, LF) && AllSealed(b, LF) && b != [] && b[|b| - 1] != ""
    ensures Enabled(w, lines) == a + [lines[|lines| - 1]] + b
  {
    if ViewOf(w.read, lines).None? {
      a, b := BuriedByBlock(w, lines);
    } else {
      var v := ViewOf(w.read, lines).value;
      EnabledOfView(w, lines);
      a, b := BuriedInBlock(w, v);
      assert Enabled(w, lines) == v.pre + [v.header] + Updated(w, v.body);
    }
  }

  lemma {:induction false} BuriedInBlock(w: Script, v: View) returns (a: seq<string>, b: seq<string>)
    requires Faithful(w) && Clean(w) && Fit(Flat(v)) && v.post == [] && !BlockStaysLast(w, v.body)
    ensures AllSealed(a, LF) && AllSealed(b, LF) && b != [] && b[|b| - 1] != ""
    ensures v.pre + [v.header] + Updated(w, v.body) == a + [Flat(v)[|Flat(v)| - 1]] + b
  {
    var head := v.pre + [v.header];
    ViewIsFit(v);
    MissingIsSealed(w, v.body, |MANAGED_KEYS|);
    MissingEnds(w, v.body, |MANAGED_KEYS|);
    b := MissingFirst(w, v.body, |MANAGED_KEYS|);
    if v.body == [] {
      a := v.pre;
      assert Flat(v) == head;
      assert Updated(w, v.body) == b;
    } else {
      var before := BuriedBySettings(w, v.body);
      a := head + before;
      SealedConcat(head, before);
      assert Flat(v) == head + v.body;
      assert head + (before + [v.body[|v.body| - 1]] + b) == a + [v.body[|v.body| - 1]] + b;
    }
  }

  lemma {:induction false} BuriedByBlock(w: Script, lines: seq<string>) returns (a: seq<string>, b: seq<string>)
    requires Faithful(w) && Clean(w) && Fit(lines) && lines != [] && ViewOf(w.read, lines).None?
    ensures AllSealed(a, LF) && AllSealed(b, LF) && b != [] && b[|b| - 1] != ""
    ensures Enabled(w, lines) == a + [lines[|lines| - 1]] + b
  {
    var last, more := lines[|lines| - 1], [w.header] + KeyLines(w);
    a, b := lines[..|lines| - 1], Separator(w.read, lines) + more;
    assert lines == a + [last];
    FitConcat(a, [last]);
    assert w.read(w.keyLine(Sandbox)) != Blank;
    assert b[|b| - 1] == w.keyLine(Sandbox);
    forall i | 0 <= i < |b| ensures Sealed(b[i], LF) {
      assert NoBreaks(b[i]);
    }
    NoMatchNoView(w.read, lines);
    assert lines + Separator(w.read, lines) + [w.header] + KeyLines(w) == a + [last] + b;
  }

  lemma {:induction false} MissingEnds(w: Script, body: seq<string>, n: nat)
    requires Faithful(w) && n <= |MANAGED_KEYS|
    ensures var more := MissingFirst(w, body, n); more != [] ==> more[|more| - 1] != ""
  {
    if n > 0 {
      MissingEnds(w, body, n - 1);
      assert w.read(w.keyLine(MANAGED_KEYS[n - 1])) != Blank;
    }
  }

  lemma {:induction false} BuriedBySettings(w: Script, body: seq<string>) returns (before: seq<string>)
    requires Faithful(w) && Clean(w) && Fit(body) && body != [] && !BlockStaysLast(w, body)
    ensures AllSealed(before, LF)
    ensures Updated(w, body) == before + [body[|body| - 1]] + MissingFirst(w, body, |MANAGED_KEYS|)
  {
    var i, r, more := |body| - 1, RewriteFirst(w, body, |MANAGED_KEYS|), MissingFirst(w, body, |MANAGED_KEYS|);
    LeadingSettings(w.read, body, 0, i);
    LastRewritten(w, body, |MANAGED_KEYS|);
    RewriteIsFit(w, body, |MANAGED_KEYS|);
    before := r[..i];
    assert r == before + [body[i]];
    FitConcat(before, [body[i]]);
    assert r[..|body|] + more + r[|body|..] == r + more;
  }

  lemma {:induction false} BuriedIsNotSettled(w: Script, t: string)
    requires Faithful(w) && Clean(w) && !HasCrlf(t) && EndsInReturn(t) && !ReturnStaysLast(w, Split(t, LF))
    ensures EditedText(w, EditedText(w, t)) != EditedText(w, t)
  {
    var lines := Split(t, LF);
    NothingTrails(t);
    EditedIsJoin(w, t, lines, Enabled(w, lines));
    var a, b := EnabledBuries(w, lines);
    OneCrlf(a, lines[|lines| - 1], b);
    JoinIsNotEmpty(b);
    LongerThanPieces(w, EditedText(w, t));
  }

  // ------------------------------------------------------------ main results

  /**
  Taken as a function on texts, the edit is idempotent, byte for byte, exactly when the file has a CRLF, or does not end
  in a bare return, or it writes nothing below that last line.
  */
  lemma {:induction false} EditTwiceIsOnce(w: Script, t: string)
    requires Faithful(w) && Clean(w)
    ensures EditedText(w, EditedText(w, t)) == EditedText(w, t) <==>
      HasCrlf(t) || !EndsInReturn(t) || ReturnStaysLast(w, Split(t, LF))
  {
    if HasCrlf(t) || !EndsInReturn(t) {
      var pieces := Split(t, NewlineOf(t));
      PiecesOfEnabled(w, t);
      EditAgain(w, Body(pieces), Trailing(pieces));
    } else if ReturnStaysLast(w, Split(t, LF)) {
      FitSettles(w, t);
    } else {
      BuriedIsNotSettled(w, t);
    }
  }

  lemma {:induction false} SealedStaysSearchable(w: Script, t: string)
    requires Faithful(w) && Clean(w) && Searchable(w, t) && (HasCrlf(t) || !EndsInReturn(t))
    ensures Searchable(w, EditedText(w, t))
  {
    EditReadable(w, Split(t, NewlineOf(t)));
    PiecesOfEnabled(w, t);
  }

  lemma {:induction false} FitStaysSearchable(w: Script, t: string)
    requires Faithful(w) && Clean(w) && Searchable(w, t)
    requires !HasCrlf(t) && EndsInReturn(t) && ReturnStaysLast(w, Split(t, LF))
    ensures Searchable(w, EditedText(w, t))
  {
    EnabledReadable(w, Split(t, LF));
    PiecesOfFit(w, t, Split(t, LF), Enabled(w, Split(t, LF)));
  }

  /**
  Enabling goes through exactly where no line raises. There a second run changes nothing, byte for byte, if and only if
  the file has a CRLF, or does not end in a bare return, or the edit writes nothing below that last line.
  */
  lemma {:induction false} EnableTwiceIsOnce(w: Script, t: string)
    requires Faithful(w) && Clean(w)
    ensures EnableText(w, t).Ok? <==> Searchable(w, t)
    ensures EnableText(w, t).Ok? ==>
      (EnableText(w, EnableText(w, t).value) == EnableText(w, t) <==>
         HasCrlf(t) || !EndsInReturn(t) || ReturnStaysLast(w, Split(t, LF)))
  {
    EditTwiceIsOnce(w, t);
    if Searchable(w, t) {
      if HasCrlf(t) || !EndsInReturn(t) {
        SealedStaysSearchable(w, t);
      } else if ReturnStaysLast(w, Split(t, LF)) {
        FitStaysSearchable(w, t);
      }
    }
  }

  /**
  For the TOML reading of any project path: enabling goes through exactly where no table header below `projects.` has a
  basic-quoted key with an oversized escape, and there the same condition decides. One carriage return alone is a file
  that is not settled.
  */
  lemma {:induction false} EveryProjectSettles(p: Project, w: Script, t: string)
    requires w == ScriptOf(p)
    ensures EnableText(w, t).Ok? <==> forall line :: line in Split(t, NewlineOf(t)) ==> !HasOversizedEscape(p, line)
    ensures EnableText(w, t).Ok? ==>
      (EnableText(w, EnableText(w, t).value) == EnableText(w, t) <==>
         HasCrlf(t) || !EndsInReturn(t) || ReturnStaysLast(w, Split(t, LF)))
    ensures t == "\r" ==> EnableText(w, t).Ok? && EnableText(w, EnableText(w, t).value) != EnableText(w, t)
  {
    ScriptIsFaithful(p);
    ScriptIsClean(p);
    EnableTwiceIsOnce(w, t);
    SearchableExactly(p, t);
    if t == "\r" {
      LoneReturnIsBlank(p);
    }
  }

  lemma {:induction false} SearchableExactly(p: Project, t: string)
    ensures Searchable(ScriptOf(p), t) <==> forall line :: line in Split(t, NewlineOf(t)) ==> !HasOversizedEscape(p, line)
  {
    var lines := Split(t, NewlineOf(t));
    forall line ensures ScriptOf(p).raises(line) <==> HasOversizedEscape(p, line) {
      RaisesAtOversizedEscapes(p, line);
    }
    if forall line :: line in lines ==> !HasOversizedEscape(p, line) {
      forall i | 0 <= i < |lines| ensures !ScriptOf(p).raises(lines[i]) {
        assert lines[i] in lines;
      }
    }
  }

  lemma {:induction false} LoneReturnIsBlank(p: Project)
    ensures ViewOf(ScriptOf(p).read, Split("\r", LF)).None? && Searchable(ScriptOf(p), "\r")
  {
    var read, lines := ScriptOf(p).read, ["\r"];
    SplitLast("\r", LF);
    assert Strip("\r") == "";
    OtherLinesDoNotRaise(p, "\r");
    assert read("\r") == Blank;
    forall i | 0 <= i < |lines| ensures !MatchAt(read, lines, i) {
    }
    NoMatchNoView(read, lines);
  }

  // ------------------------------------------------------------ an oversized escape

  /** Eight characters that neither end a basic string nor a line. */
  predicate IsDigits(digits: string)
  {
    |digits| == 8 && NoBreaks(digits) && forall k :: 0 <= k < 8 ==> digits[k] != '\\' && digits[k] != '"'
  }

  lemma {:induction false} OversizedKeyRaises(key: string, digits: string, hex: HexReader)
    requires key == "\"\\U" + digits + "\"" && |digits| == 8 && hex(digits).TooLarge?
    ensures Unquote(key, hex).Refused?
  {
    var inner := "\\U" + digits;
    assert key[0] == '"' && key[|key| - 1] == '"';
    assert Strip(key) == key && key[1..|key| - 1] == inner;
    assert inner[2..10] == digits;
  }

  lemma {:induction false} OversizedRaises(p: Project, digits: string)
    requires IsDigits(digits) && p.hex(digits).TooLarge?
    ensures Raises(p, OversizedHeader(digits))
  {
    var key := "\"\\U" + digits + "\"";
    OversizedParses(digits);
    OversizedKeyRaises(key, digits, p.hex);
    Prefixed(PROJECTS, key);
    Prefixed("[" + PROJECTS, key + "]");
    assert OversizedHeader(digits) == ("[" + PROJECTS) + (key + "]");
  }

  lemma {:induction false} OversizedHasNoBreaks(digits: string)
    requires IsDigits(digits)
    ensures NoBreaks(OversizedHeader(digits))
  {
    NoBreaksConcat("\"\\U", digits);
    NoBreaksConcat("\"\\U" + digits, "\"");
    NoBreaksConcat("[" + PROJECTS, "\"\\U" + digits + "\"");
    NoBreaksConcat("[" + PROJECTS + ("\"\\U" + digits + "\""), "]");
  }

  lemma {:induction false} OneLine(line: string)
    requires NoBreaks(line)
    ensures NewlineOf(line + LF) == LF && Split(line + LF, LF) == [line, ""] && StatusLines(line + LF) == [line, ""]
  {
    var t := line + LF;
    assert [line, ""][1..] == [""];
    assert line + LF + "" == t && Join([line, ""], LF) == t;
    ReadBack([line, ""], LF);
    SplitLine(line, LF, "");
    assert forall k :: 0 <= k < |line| ==> t[k] == line[k];
  }

  /** A file with such a header: enabling, disabling and `status` raise, and nothing is written. */
  lemma {:induction false} OversizedHeaderRefuses(p: Project, digits: string, t: string)
    requires IsDigits(digits) && p.hex(digits).TooLarge? && t == OversizedHeader(digits) + LF
    ensures EnableText(ScriptOf(p), t) == Refused(OverflowError)
    ensures !Readable(ScriptOf(p).raises, StatusLines(t)) && !Readable(ScriptOf(p).raises, Body(Split(t, NewlineOf(t))))
  {
    var w, line := ScriptOf(p), OversizedHeader(digits);
    OversizedRaises(p, digits);
    OversizedHasNoBreaks(digits);
    OneLine(line);
    assert w.raises(line);
    assert Split(t, LF)[0] == line && StatusLines(t)[0] == line && Body(Split(t, LF))[0] == line;
  }

  /** In particular `[projects."\UFFFFFFFF"]`, of which the source's reading is an OverflowError. */
  lemma {:induction false} LargestEscapeRefuses(p: Project)
    requires p.hex("FFFFFFFF").TooLarge?
    ensures EnableText(ScriptOf(p), "[projects.\"\\UFFFFFFFF\"]\n") == Refused(OverflowError)
  {
    var digits := "FFFFFFFF";
    assert OversizedHeader(digits) + LF == "[projects.\"\\UFFFFFFFF\"]\n";
    OversizedHeaderRefuses(p, digits, OversizedHeader(digits) + LF);
  }
}
