/**
`enable_project` and `status` (src/agenttalk/codex_config.py) on whole files: splitting, editing and
joining again, with the newline the file already has.
*/
module CodexFile {
  import opened Wrappers
  import opened PythonText
  import opened TomlText
  import opened CodexConfig
  import opened CodexEdit
  import opened CodexText

  predicate NoBreaks(line: string)
  {
    forall i :: 0 <= i < |line| ==> line[i] != '\r' && line[i] != '\n'
  }

  predicate EndsInReturn(s: string)
  {
    s != [] && s[|s| - 1] == '\r'
  }

  ghost predicate Clean(w: Script)
  {
    NoBreaks(w.header) && forall k :: NoBreaks(w.keyLine(k))
  }

  lemma {:induction false} EscapedHasNoBreaks(s: string)
    ensures NoBreaks(EscapeChars(s))
  {
    if s != [] {
      EscapedHasNoBreaks(s[1..]);
      assert NoBreaks(EscapeChar(s[0]));
    }
  }

  lemma {:induction false} NoBreaksConcat(a: string, b: string)
    requires NoBreaks(a) && NoBreaks(b)
    ensures NoBreaks(a + b)
  {
  }

  lemma {:induction false} QuoteHasNoBreaks(key: string)
    ensures NoBreaks(Quote(key))
  {
    if forall i :: 0 <= i < |key| ==> !NeedsBasic(key[i]) {
      NoBreaksConcat("'", key);
      NoBreaksConcat("'" + key, "'");
    } else {
      EscapeIsCharwise(key);
      EscapedHasNoBreaks(key);
      NoBreaksConcat("\"", Escape(key));
      NoBreaksConcat("\"" + Escape(key), "\"");
    }
  }

  lemma {:induction false} KeyLineHasNoBreaks(k: Managed)
    ensures NoBreaks(KeyLine(k))
  {
    assert NoBreaks(NameOf(k)) && NoBreaks(Target(k));
    NoBreaksConcat(NameOf(k), " ");
    NoBreaksConcat(" ", Target(k));
    NoBreaksConcat(NameOf(k) + " ", "=");
    NoBreaksConcat((NameOf(k) + " ") + "=", " " + Target(k));
  }

  /** What the editor writes stays on one line, whatever the project's path. */
  lemma {:induction false} ScriptIsClean(p: Project)
    ensures Clean(ScriptOf(p))
  {
    QuoteHasNoBreaks(p.key);
    NoBreaksConcat("[" + PROJECTS, Quote(p.key));
    NoBreaksConcat("[" + PROJECTS + Quote(p.key), "]");
    forall k ensures NoBreaks(ScriptOf(p).keyLine(k)) {
      KeyLineHasNoBreaks(k);
    }
  }

  // ------------------------------------------------------------ the whole file

  /** A final newline leaves an empty last piece, which is set aside during the edit. */
  function Trailing(pieces: seq<string>): seq<string>
    requires pieces != []
  {
    if pieces[|pieces| - 1] == "" then [""] else []
  }

  function Body(pieces: seq<string>): seq<string>
    requires pieces != []
  {
    pieces[..|pieces| - |Trailing(pieces)|]
  }

  function EditedText(w: Script, t: string): string
  {
    var nl := NewlineOf(t);
    var pieces := Split(t, nl);
    Join(Enabled(w, Body(pieces)) + Trailing(pieces), nl)
  }

  /** No line of the file raises when the project's blocks are searched for. */
  predicate Searchable(w: Script, t: string)
  {
    Readable(w.raises, Split(t, NewlineOf(t)))
  }

  /** The new text, or the exception, and then nothing is written. */
  function EnableText(w: Script, t: string): Result<string, Raised>
  {
    if Searchable(w, t) then Ok(EditedText(w, t)) else Refused(OverflowError)
  }

  lemma {:induction false} BodyReadable(w: Script, pieces: seq<string>)
    requires !w.raises("") && pieces != []
    ensures Readable(w.raises, Body(pieces)) <==> Readable(w.raises, pieces)
  {
    var body := Body(pieces);
    assert pieces == body + Trailing(pieces);
    forall i | 0 <= i < |body| ensures body[i] == pieces[i] {
    }
  }

  /** The block for a file that does not exist yet. */
  function RenderBlock(w: Script): string
  {
    Join([w.header] + KeyLines(w) + [""], LF)
  }

  lemma {:induction false} EnabledUnmatched(w: Script, lines: seq<string>)
    requires NoMatch(w.read, lines) && Separator(w.read, lines) == []
    ensures Enabled(w, lines) == lines + ([w.header] + KeyLines(w))
  {
    NoMatchNoView(w.read, lines);
    assert lines + [] + [w.header] + KeyLines(w) == lines + ([w.header] + KeyLines(w));
  }

  /** Creating the file and enabling in an empty one write the same. */
  lemma {:induction false} RenderIsEnable(w: Script)
    ensures EditedText(w, "") == RenderBlock(w)
  {
    EnabledUnmatched(w, []);
    assert [] + ([w.header] + KeyLines(w)) == [w.header] + KeyLines(w);
    assert Split("", LF) == [""] && Body([""]) == [] && Trailing([""]) == [""];
  }

  /** Goes through exactly when no line of the file raises; a file to be created always does. */
  method EnableProject(w: Script, existing: Option<string>) returns (written: Result<string, Raised>)
    requires Faithful(w)
    ensures written == EnableText(w, if existing.Some? then existing.value else "")
    ensures written.Ok? <==> existing.None? || Searchable(w, existing.value)
  {
    if existing.None? {
      RenderIsEnable(w);
      assert Split("", LF) == [""];
      written := Ok(RenderBlock(w));
    } else {
      written := EnableExisting(w, existing.value);
    }
  }

  method EnableExisting(w: Script, text: string) returns (written: Result<string, Raised>)
    requires Faithful(w)
    ensures written == EnableText(w, text)
  {
    var newline := NewlineOf(text);
    var pieces := Split(text, newline);
    var lines := pieces;
    var trailing := lines[|lines| - 1] == "";
    if trailing {
      lines := lines[..|lines| - 1];
    }
    assert lines == Body(pieces);
    BodyReadable(w, pieces);
    var edited := EnableLines(w, lines);
    if edited.Refused? {
      return Refused(OverflowError);
    }
    lines := edited.value;
    if trailing {
      lines := lines + [""];
    }
    assert lines == Enabled(w, Body(pieces)) + Trailing(pieces);
    written := Ok(Join(lines, newline));
  }

  /** `status` on a text: universal newlines, then the search of EnableProject. */
  method StatusText(w: Script, text: string) returns (r: Result<Status, Raised>)
    ensures r.Ok? <==> Readable(w.raises, StatusLines(text))
    ensures r.Ok? ==> IsStatus(w.read, StatusLines(text), r.value.present, r.value.duplicates, r.value.values)
  {
    r := ReadStatus(w, StatusLines(text));
  }

  /** What `status` splits the file into. */
  function StatusLines(text: string): seq<string>
  {
    var u := Universal(text);
    Split(u, NewlineOf(u))
  }

  // ------------------------------------------------------------ enabling twice

  /** The line can be joined and split off again without changing the newline the file seems to use. */
  predicate Sealed(line: string, nl: string)
  {
    Unbroken(line, nl) && (nl == LF ==> !EndsInReturn(line))
  }

  predicate AllSealed(lines: seq<string>, nl: string)
  {
    forall i :: 0 <= i < |lines| ==> Sealed(lines[i], nl)
  }

  /** Only the last line may end in a return. */
  predicate Fit(lines: seq<string>)
  {
    forall i :: 0 <= i < |lines| ==> Unbroken(lines[i], LF) && (i < |lines| - 1 ==> !EndsInReturn(lines[i]))
  }

  lemma {:induction false} JoinShowsReturn(lines: seq<string>, i: nat)
    requires i < |lines| - 1 && EndsInReturn(lines[i])
    ensures HasCrlf(Join(lines, LF))
  {
    var line, rest := lines[0], Join(lines[1..], LF);
    var t := line + LF + rest;
    if i == 0 {
      assert t[|line| - 1] == '\r' && t[|line|] == '\n';
    } else {
      JoinShowsReturn(lines[1..], i - 1);
      var j :| 0 <= j < |rest| - 1 && rest[j] == '\r' && rest[j + 1] == '\n';
      assert t[|line| + 1 + j] == '\r' && t[|line| + 1 + j + 1] == '\n';
    }
  }

  lemma {:induction false} JoinEnds(lines: seq<string>)
    requires lines != []
    ensures EndsInReturn(Join(lines, LF)) <==> EndsInReturn(lines[|lines| - 1])
  {
    if |lines| > 1 {
      var rest := Join(lines[1..], LF);
      var t := lines[0] + LF + rest;
      JoinEnds(lines[1..]);
      assert t[|t| - 1] == if rest == [] then '\n' else rest[|rest| - 1];
    }
  }

  lemma {:induction false} SplitIsFit(t: string)
    requires !HasCrlf(t)
    ensures Fit(Split(t, LF)) && (EndsInReturn(t) <==> EndsInReturn(Split(t, LF)[|Split(t, LF)| - 1]))
  {
    var lines := Split(t, LF);
    SplitIsUnbroken(t, LF);
    JoinEnds(lines);
    forall i | 0 <= i < |lines| - 1 ensures !EndsInReturn(lines[i]) {
      if EndsInReturn(lines[i]) {
        JoinShowsReturn(lines, i);
      }
    }
  }

  lemma {:induction false} PiecesAreSealed(t: string)
    requires HasCrlf(t) || !EndsInReturn(t)
    ensures AllSealed(Split(t, NewlineOf(t)), NewlineOf(t))
  {
    if HasCrlf(t) {
      SplitIsUnbroken(t, CRLF);
    } else {
      SplitIsFit(t);
    }
  }

  lemma {:induction false} JoinedHasNoCrlf(lines: seq<string>)
    requires lines != [] && Fit(lines)
    ensures !HasCrlf(Join(lines, LF))
    decreases |lines|
  {
    if |lines| == 1 {
      assert Join(lines, LF) == lines[0] && !HasLf(lines[0]);
    } else {
      var line, tail := lines[0], lines[1..];
      assert forall i :: 0 <= i < |tail| ==> tail[i] == lines[i + 1];
      JoinedHasNoCrlf(tail);
      var rest := Join(tail, LF);
      var t := line + LF + rest;
      forall i | 0 <= i < |t| - 1 ensures !(t[i] == '\r' && t[i + 1] == '\n') {
        if i < |line| {
          assert t[i] == line[i] && (i + 1 < |line| ==> t[i + 1] == line[i + 1]);
        } else if i > |line| {
          assert t[i] == rest[i - |line| - 1] && t[i + 1] == rest[i - |line|];
        }
      }
    }
  }

  lemma {:induction false} JoinedHasCrlf(lines: seq<string>)
    requires |lines| >= 2
    ensures HasCrlf(Join(lines, CRLF))
  {
    var t := lines[0] + CRLF + Join(lines[1..], CRLF);
    assert t[|lines[0]|] == '\r' && t[|lines[0]| + 1] == '\n';
  }

  lemma {:induction false} EnabledFrom(w: Script, lines: seq<string>, line: string)
    requires line in Enabled(w, lines)
    ensures Allowed(w, lines, line)
  {
    var c := Collapsed(w.read, lines);
    var before, v := ViewOf(w.read, lines), ViewOf(w.read, c);
    if line in c {
      if before.Some? && line in Outside(w.read, before.value.post, false) {
        OutsideFromLines(w.read, before.value.post, false, line);
      }
    } else if v.Some? {
      UpdatedFrom(w, v.value.body, line);
    } else {
      assert line in Separator(w.read, c) || line == w.header || line in KeyLines(w);
    }
  }

  lemma {:induction false} EnabledIsSealed(w: Script, lines: seq<string>, nl: string)
    requires Clean(w) && IsNewline(nl) && AllSealed(lines, nl)
    ensures AllSealed(Enabled(w, lines), nl)
  {
    var r := Enabled(w, lines);
    forall i | 0 <= i < |r| ensures Sealed(r[i], nl) {
      EnabledFrom(w, lines, r[i]);
      if r[i] in lines {
        var j :| 0 <= j < |lines| && lines[j] == r[i];
        assert Sealed(lines[j], nl);
      } else {
        assert NoBreaks(r[i]);
      }
    }
  }

  /** Without a blank last line, a settled file is still settled. */
  lemma {:induction false} SettledWithoutLast(w: Script, v: View, less: seq<string>)
    requires Faithful(w) && IsSingle(w.read, v) && OnTarget(w.read, v.body) && Flat(v) == less + [""]
    ensures Enabled(w, less) == less
  {
    if v.post != [] {
      PostWithoutLast(w, v);
      var u := v.(post := v.post[..|v.post| - 1]);
      assert v.post == u.post + [v.post[|v.post| - 1]];
      assert Flat(v) == Flat(u) + [v.post[|v.post| - 1]];
      assert Flat(u) == (less + [""])[..|less|] == less;
      SettledView(w, u);
    } else {
      assert v.body != [] by {
        assert ValueOf(w.read, v.body, Trust).Some?;
      }
      var u := v.(body := v.body[..|v.body| - 1]);
      assert v.body == u.body + [v.body[|v.body| - 1]];
      assert Flat(v) == Flat(u) + [v.body[|v.body| - 1]];
      assert Flat(u) == (less + [""])[..|less|] == less;
      assert v.body[|v.body| - 1] == Flat(v)[|less|] == "";
      BodyWithoutLast(w, v);
      SettledView(w, u);
    }
  }

  lemma {:induction false} PostWithoutLast(w: Script, v: View)
    requires IsSingle(w.read, v) && v.post != []
    ensures IsSingle(w.read, v.(post := v.post[..|v.post| - 1]))
  {
    var less := v.post[..|v.post| - 1];
    assert TableAt(w.read, v.post, 0);
    assert less != [] ==> TableAt(w.read, less, 0);
    forall i | 0 <= i < |less| ensures !MatchAt(w.read, less, i) {
      assert !MatchAt(w.read, v.post, i);
    }
  }

  lemma {:induction false} BodyWithoutLast(w: Script, v: View)
    requires Faithful(w) && IsSingle(w.read, v) && OnTarget(w.read, v.body) && v.body != [] && v.body[|v.body| - 1] == ""
    ensures var u := v.(body := v.body[..|v.body| - 1]); IsSingle(w.read, u) && OnTarget(w.read, u.body)
  {
    var read, body := w.read, v.body[..|v.body| - 1];
    assert v.body == body + [""];
    forall k ensures ValueOf(read, body, k) == Some(Target(k)) {
      LastConcat(read, body, [""], k);
      FirstValue(read, "", k);
      assert ValueOf(read, v.body, k) == Some(Target(k));
    }
    forall i | 0 <= i < |body| ensures !TableAt(read, body, i) {
      assert !TableAt(read, v.body, i);
    }
  }

  /** The pieces of an edited file are the lines that went into it. */
  lemma {:induction false} PiecesOfEnabled(w: Script, t: string)
    requires Faithful(w) && Clean(w) && (HasCrlf(t) || !EndsInReturn(t))
    ensures var nl := NewlineOf(t); var pieces := Split(t, nl);
      && NewlineOf(EditedText(w, t)) == nl
      && Split(EditedText(w, t), nl) == Enabled(w, Body(pieces)) + Trailing(pieces)
  {
    var nl := NewlineOf(t);
    var pieces := Split(t, nl);
    PiecesAreSealed(t);
    forall i | 0 <= i < |Body(pieces)| ensures Sealed(Body(pieces)[i], nl) {
      assert Sealed(pieces[i], nl);
    }
    EnabledIsSealed(w, Body(pieces), nl);
    var lines := Enabled(w, Body(pieces)) + Trailing(pieces);
    forall i | 0 <= i < |lines| ensures Sealed(lines[i], nl) && Unbroken(lines[i], nl) {
      assert i < |Enabled(w, Body(pieces))| ==> Sealed(Enabled(w, Body(pieces))[i], nl);
    }
    SplitUndoesJoin(lines, nl);
    if nl == LF {
      JoinedHasNoCrlf(lines);
    } else {
      EnabledIsSingle(w, Body(pieces));
      assert ValueOf(w.read, EnabledView(w, Body(pieces)).body, Trust).Some?;
      JoinedHasCrlf(lines);
    }
  }

  lemma {:induction false} EditAgain(w: Script, lines: seq<string>, last: seq<string>)
    requires Faithful(w) && (last == [] || last == [""])
    ensures var again := Enabled(w, lines) + last; Enabled(w, Body(again)) + Trailing(again) == again
  {
    EnabledIsSingle(w, lines);
    ViewAgain(w, EnabledView(w, lines), last);
  }

  lemma {:induction false} ViewAgain(w: Script, v: View, last: seq<string>)
    requires Faithful(w) && IsSingle(w.read, v) && OnTarget(w.read, v.body) && (last == [] || last == [""])
    ensures var again := Flat(v) + last; Enabled(w, Body(again)) + Trailing(again) == again
  {
    var again := Flat(v) + last;
    BodyAndTrailing(again);
    if last == [""] {
      assert Body(again) == Flat(v);
      SettledView(w, v);
    } else if Trailing(again) == [] {
      assert again == Flat(v);
      SettledView(w, v);
    } else {
      assert again == Flat(v);
      SettledWithoutLast(w, v, Body(again));
    }
  }

  lemma {:induction false} BodyAndTrailing(e: seq<string>)
    requires e != []
    ensures Body(e) + Trailing(e) == e
    ensures Trailing(e) == [] || Trailing(e) == [""]
    ensures Trailing(e) == [] ==> Body(e) == e
    ensures e[|e| - 1] == "" ==> Body(e) == e[..|e| - 1] && Trailing(e) == [""]
  {
  }

  // ------------------------------------------------------------ what a reader sees

  /** Universal newlines: every kind of line end reads as a line feed. */
  function Universal(t: string): string
  {
    if t == [] then []
    else if t[0] == '\r' then [ '\n' ] + Universal(if |t| > 1 && t[1] == '\n' then t[2..] else t[1..])
    else [t[0]] + Universal(t[1..])
  }

  /** A line feed, a return and a line feed, or a return alone. */
  predicate EndsLine(end: string, rest: string)
  {
    IsNewline(end) || (end == "\r" && (rest == "" || rest[0] != '\n'))
  }

  /** However a line ends, it reads as ended by a line feed, and what follows reads for itself. */
  lemma {:induction false} UniversalLine(line: string, end: string, rest: string)
    requires EndsLine(end, rest) && NoBreaks(line)
    ensures Universal(line + end + rest) == line + "\n" + Universal(rest)
    decreases |line|
  {
    var t := line + end + rest;
    if line == [] {
      assert t == end + rest && t[|end|..] == rest && t[0] == end[0];
      assert end == CRLF ==> t[1] == '\n';
      assert end == "\r" && |t| > 1 ==> t[1] == rest[0];
    } else {
      assert t[1..] == line[1..] + end + rest && t[0] == line[0];
      UniversalLine(line[1..], end, rest);
      assert [line[0]] + line[1..] == line;
    }
  }

  lemma {:induction false} UniversalLast(line: string)
    requires NoBreaks(line)
    ensures Universal(line) == line
    decreases |line|
  {
    if line != [] {
      UniversalLast(line[1..]);
    }
  }

  predicate AllNoBreaks(lines: seq<string>)
  {
    forall i :: 0 <= i < |lines| ==> NoBreaks(lines[i])
  }

  lemma {:induction false} UniversalJoin(lines: seq<string>, nl: string)
    requires lines != [] && IsNewline(nl) && AllNoBreaks(lines)
    ensures Universal(Join(lines, nl)) == Join(lines, LF)
    decreases |lines|
  {
    assert NoBreaks(lines[0]);
    if |lines| == 1 {
      UniversalLast(lines[0]);
    } else {
      assert AllNoBreaks(lines[1..]) by {
        assert forall i :: 0 <= i < |lines| - 1 ==> lines[1..][i] == lines[i + 1];
      }
      UniversalJoin(lines[1..], nl);
      UniversalLine(lines[0], nl, Join(lines[1..], nl));
    }
  }

  /** One newline style: no stray line break inside a line. */
  predicate OneStyle(t: string)
  {
    AllNoBreaks(Split(t, NewlineOf(t)))
  }

  /** Exactly one block, with the values enabling is for. */
  ghost predicate ReportsEnabled(present: bool, duplicates: nat, values: map<Managed, string>)
  {
    present && duplicates == 0 && forall k :: k in values && values[k] == Target(k)
  }

  lemma {:induction false} StatusOfSingle(
    read: Reader, v: View, present: bool, duplicates: nat, values: map<Managed, string>)
    requires IsSingle(read, v) && OnTarget(read, v.body)
    requires IsStatus(read, Flat(v), present, duplicates, values)
    ensures ReportsEnabled(present, duplicates, values)
  {
    SingleSection(read, v);
    FlatAt(v);
    forall k ensures k in values && values[k] == Target(k) {
      assert Reported(read, v.body, |v.body|, values, k);
      assert ValueOf(read, v.body, k) == Some(Target(k));
    }
  }

  lemma {:induction false} BlankAtEnd(w: Script, v: View) returns (more: View)
    requires Faithful(w) && IsSingle(w.read, v) && OnTarget(w.read, v.body)
    ensures IsSingle(w.read, more) && OnTarget(w.read, more.body) && Flat(more) == Flat(v) + [""]
  {
    var read := w.read;
    if v.post == [] {
      more := v.(body := v.body + [""]);
      forall i | 0 <= i < |more.body| ensures !TableAt(read, more.body, i) {
        assert i < |v.body| ==> !TableAt(read, v.body, i);
      }
      forall k ensures ValueOf(read, more.body, k) == Some(Target(k)) {
        LastConcat(read, v.body, [""], k);
        FirstValue(read, "", k);
        assert ValueOf(read, v.body, k) == Some(Target(k));
      }
    } else {
      more := v.(post := v.post + [""]);
      assert TableAt(read, v.post, 0);
      assert TableAt(read, more.post, 0);
      NoMatchConcat(read, v.post, [""]);
    }
  }

  lemma {:induction false} EnabledHasNoBreaks(w: Script, lines: seq<string>)
    requires Clean(w) && AllNoBreaks(lines)
    ensures AllNoBreaks(Enabled(w, lines))
  {
    var e := Enabled(w, lines);
    forall i | 0 <= i < |e| ensures NoBreaks(e[i]) {
      EnabledFrom(w, lines, e[i]);
      if e[i] in lines {
        var j :| 0 <= j < |lines| && lines[j] == e[i];
        assert NoBreaks(lines[j]);
      }
    }
  }

  lemma {:induction false} ReadBack(lines: seq<string>, nl: string)
    requires lines != [] && IsNewline(nl) && AllNoBreaks(lines)
    ensures var u := Universal(Join(lines, nl)); NewlineOf(u) == LF && Split(u, LF) == lines
  {
    forall i | 0 <= i < |lines| ensures Sealed(lines[i], LF) && Unbroken(lines[i], LF) {
      assert NoBreaks(lines[i]);
    }
    UniversalJoin(lines, nl);
    JoinedHasNoCrlf(lines);
    SplitUndoesJoin(lines, LF);
  }

  lemma {:induction false} EnabledReadable(w: Script, lines: seq<string>)
    requires Faithful(w) && Readable(w.raises, lines)
    ensures Readable(w.raises, Enabled(w, lines))
  {
    var e := Enabled(w, lines);
    forall i | 0 <= i < |e| ensures !w.raises(e[i]) {
      EnabledFrom(w, lines, e[i]);
      if e[i] in lines {
        var j :| 0 <= j < |lines| && lines[j] == e[i];
      }
    }
  }

  /** The lines of an edited file raise no more than those that went into it. */
  lemma {:induction false} EditReadable(w: Script, pieces: seq<string>)
    requires Faithful(w) && pieces != [] && Readable(w.raises, pieces)
    ensures Readable(w.raises, Enabled(w, Body(pieces)) + Trailing(pieces))
  {
    BodyReadable(w, pieces);
    EnabledReadable(w, Body(pieces));
  }

  /**
  In a file of one newline style `status` and enabling raise on the same lines. Where they do not, whatever was in the
  file, `status` afterwards goes through as well and reports one block with all three targets.
  */
  lemma {:induction false} StatusAfterEnable(
    w: Script, t: string, present: bool, duplicates: nat, values: map<Managed, string>)
    requires Faithful(w) && Clean(w) && OneStyle(t)
    ensures EnableText(w, t).Ok? <==> Readable(w.raises, StatusLines(t))
    ensures EnableText(w, t).Ok? ==>
      var after := StatusLines(EnableText(w, t).value);
      && Readable(w.raises, after)
      && (IsStatus(w.read, after, present, duplicates, values) ==> ReportsEnabled(present, duplicates, values))
  {
    var pieces := Split(t, NewlineOf(t));
    var v, last := EnabledView(w, Body(pieces)), Trailing(pieces);
    SplitIsUnbroken(t, NewlineOf(t));
    ReadBack(pieces, NewlineOf(t));
    EditHasNoBreaks(w, pieces, v);
    assert EditedText(w, t) == Join(Flat(v) + last, NewlineOf(t));
    if EnableText(w, t).Ok? {
      ReadBack(Flat(v) + last, NewlineOf(t));
      EditReadable(w, pieces);
      if IsStatus(w.read, StatusLines(EditedText(w, t)), present, duplicates, values) {
        StatusOfText(w, v, last, NewlineOf(t), present, duplicates, values);
      }
    }
  }

  lemma {:induction false} EditHasNoBreaks(w: Script, pieces: seq<string>, v: View)
    requires Faithful(w) && Clean(w) && pieces != [] && AllNoBreaks(pieces) && v == EnabledView(w, Body(pieces))
    ensures IsSingle(w.read, v) && OnTarget(w.read, v.body) && Flat(v) == Enabled(w, Body(pieces)) && AllNoBreaks(Flat(v))
  {
    forall i | 0 <= i < |Body(pieces)| ensures NoBreaks(Body(pieces)[i]) {
      assert NoBreaks(pieces[i]);
    }
    EnabledHasNoBreaks(w, Body(pieces));
    EnabledIsSingle(w, Body(pieces));
  }

  lemma {:induction false} StatusOfText(
    w: Script, v: View, last: seq<string>, nl: string, present: bool, duplicates: nat, values: map<Managed, string>)
    requires Faithful(w) && IsSingle(w.read, v) && OnTarget(w.read, v.body) && (last == [] || last == [""]) && IsNewline(nl)
    requires AllNoBreaks(Flat(v))
    requires var u := Universal(Join(Flat(v) + last, nl)); IsStatus(w.read, Split(u, NewlineOf(u)), present, duplicates, values)
    ensures ReportsEnabled(present, duplicates, values)
  {
    ReadBack(Flat(v) + last, nl);
    if last == [] {
      assert Flat(v) + last == Flat(v);
      StatusOfSingle(w.read, v, present, duplicates, values);
    } else {
      var more := BlankAtEnd(w, v);
      StatusOfSingle(w.read, more, present, duplicates, values);
    }
  }
}
