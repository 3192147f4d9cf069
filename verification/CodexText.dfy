/**
The text of a configuration file around the line editor of CodexEdit: how lines read (TOML v1.0.0, as far as
src/agenttalk/codex_config.py reads it), which newline a file uses, and what that means for the file as a whole.
*/
module CodexText {
  import opened Wrappers
  import opened PythonText
  import opened TomlText
  import opened CodexConfig
  import opened CodexEdit

  // ------------------------------------------------------------ how a line reads

  /** `fold` stands for `str.casefold`. */
  datatype Project = Project(key: string, fold: string -> string, hex: HexReader)

  function NameOf(k: Managed): string
  {
    match k
    case Trust => "trust_level"
    case Approval => "approval_policy"
    case Sandbox => "sandbox_mode"
  }

  predicate StartsWith(s: string, start: string)
  {
    |start| <= |s| && s[..|start|] == start
  }

  /** The path a table key names below `projects.`; reading it can raise. */
  function PathOf(key: string, hex: HexReader): Result<Option<string>, Raised>
  {
    if StartsWith(key, PROJECTS) then Unquote(key[|PROJECTS|..], hex) else Ok(None)
  }

  function PathOn(p: Project, line: string): Result<Option<string>, Raised>
  {
    var header := ParseHeader(line);
    if StartsWith(Strip(line), "[" + PROJECTS) && header.Some? then PathOf(header.value.key, p.hex) else Ok(None)
  }

  predicate NamesProject(p: Project, line: string)
  {
    var path := PathOn(p, line);
    path.Ok? && path.value.Some? && p.fold(path.value.value) == p.fold(p.key)
  }

  /** The search for the project's blocks stops at this line. */
  predicate Raises(p: Project, line: string)
  {
    PathOn(p, line).Refused?
  }

  /** ... exactly at a table header below `projects.` whose basic-quoted key has an escape that is too large. */
  ghost predicate HasOversizedEscape(p: Project, line: string)
  {
    var header := ParseHeader(line);
    && StartsWith(Strip(line), "[" + PROJECTS) && header.Some? && StartsWith(header.value.key, PROJECTS)
    && var key := Strip(header.value.key[|PROJECTS|..]); IsBasic(key) && ReachesOverflow(key[1..|key| - 1], p.hex)
  }

  lemma {:induction false} RaisesAtOversizedEscapes(p: Project, line: string)
    ensures Raises(p, line) <==> HasOversizedEscape(p, line)
  {
    var header := ParseHeader(line);
    if StartsWith(Strip(line), "[" + PROJECTS) && header.Some? && StartsWith(header.value.key, PROJECTS) {
      var key := Strip(header.value.key[|PROJECTS|..]);
      if IsBasic(key) {
        RaisesExactly(key[1..|key| - 1], p.hex);
      }
    }
  }

  function KeyNamed(name: string): Option<Managed>
  {
    if name == NameOf(Trust) then Some(Trust)
    else if name == NameOf(Approval) then Some(Approval)
    else if name == NameOf(Sandbox) then Some(Sandbox)
    else None
  }

  function Classify(p: Project, line: string): Line
  {
    var s := Strip(line);
    if s == [] then Blank
    else if s[0] == '[' then Table(NamesProject(p, line))
    else
      var pair := ParsePair(line);
      if pair.None? || KeyNamed(pair.value.key).None? then Other
      else Setting(KeyNamed(pair.value.key).value, pair.value.value)
  }

  function KeyLine(k: Managed): string
  {
    PairLine(NameOf(k), Target(k))
  }

  function ScriptOf(p: Project): Script
  {
    Script(line => Classify(p, line), line => Raises(p, line), SectionHeader(p.key), KeyLine)
  }

  lemma {:induction false} NamesAreTight(k: Managed)
    ensures Tight(NameOf(k)) && Tight(Target(k)) && NameOf(k)[0] != '#' && NameOf(k)[0] != '['
    ensures forall i :: 0 <= i < |NameOf(k)| ==> NameOf(k)[i] != '='
    ensures KeyNamed(NameOf(k)) == Some(k)
  {
    assert |NameOf(Trust)| == 11 && |NameOf(Approval)| == 15 && |NameOf(Sandbox)| == 12;
  }

  lemma {:induction false} BracketFirst(s: string)
    requires StartsWith(s, "[" + PROJECTS)
    ensures s != [] && s[0] == '['
  {
    var start := "[" + PROJECTS;
    assert s[..|start|][0] == start[0];
  }

  lemma {:induction false} OtherLinesDoNotRaise(p: Project, line: string)
    requires Strip(line) == [] || Strip(line)[0] != '['
    ensures !Raises(p, line)
  {
    if StartsWith(Strip(line), "[" + PROJECTS) {
      BracketFirst(Strip(line));
    }
  }

  lemma {:induction false} ClassifiesSetting(p: Project, line: string, k: Managed, value: string)
    requires Tight(line) && line[0] != '[' && ParsePair(line) == Some(Pair(NameOf(k), value)) && KeyNamed(NameOf(k)) == Some(k)
    ensures Classify(p, line) == Setting(k, value) && !Raises(p, line)
  {
    assert Strip(line) == line;
    OtherLinesDoNotRaise(p, line);
  }

  lemma {:induction false} KeyLineReadsBack(p: Project, k: Managed)
    ensures Classify(p, KeyLine(k)) == Setting(k, Target(k)) && !Raises(p, KeyLine(k))
  {
    var line, name, value := KeyLine(k), NameOf(k), Target(k);
    NamesAreTight(k);
    PairParsesBack(name, value);
    assert line == PairLine(name, value);
    assert line[0] == name[0] && line[|line| - 1] == value[|value| - 1];
    ClassifiesSetting(p, line, k, value);
  }

  lemma {:induction false} Prefixed(start: string, rest: string)
    ensures StartsWith(start + rest, start) && (start + rest)[|start|..] == rest
  {
    assert (start + rest)[..|start|] == start;
  }

  lemma {:induction false} PathReadsBack(key: string, hex: HexReader)
    ensures PathOf(PROJECTS + Quote(key), hex) == Ok(Some(key))
  {
    Prefixed(PROJECTS, Quote(key));
    UnquoteUndoesQuote(key, hex);
  }

  lemma {:induction false} NamedTable(p: Project, line: string, header: Header)
    requires Strip(line) == line && line != [] && line[0] == '[' && StartsWith(line, "[" + PROJECTS)
    requires ParseHeader(line) == Some(header) && PathOf(header.key, p.hex) == Ok(Some(p.key))
    ensures Classify(p, line) == Table(true) && !Raises(p, line)
  {
  }

  lemma {:induction false} HeaderStarts(key: string)
    ensures var line := SectionHeader(key); line != [] && line[0] == '[' && StartsWith(line, "[" + PROJECTS)
  {
    Prefixed("[" + PROJECTS, Quote(key) + "]");
    assert SectionHeader(key) == ("[" + PROJECTS) + (Quote(key) + "]");
  }

  lemma {:induction false} HeaderReadsBack(p: Project)
    ensures Classify(p, SectionHeader(p.key)) == Table(true) && !Raises(p, SectionHeader(p.key))
  {
    HeaderParsesBack(p.key);
    PathReadsBack(p.key, p.hex);
    HeaderStarts(p.key);
    NamedTable(p, SectionHeader(p.key), Header(PROJECTS + Quote(p.key), ""));
  }

  /** Whatever the project's path, the written header is found again and the written settings read as meant. */
  lemma {:induction false} ScriptIsFaithful(p: Project)
    ensures Faithful(ScriptOf(p))
  {
    HeaderReadsBack(p);
    assert Strip("") == "";
    OtherLinesDoNotRaise(p, "");
    forall k
      ensures ScriptOf(p).read(ScriptOf(p).keyLine(k)) == Setting(k, Target(k)) && !ScriptOf(p).raises(ScriptOf(p).keyLine(k))
    {
      KeyLineReadsBack(p, k);
    }
  }

  // ------------------------------------------------------------ newlines

  const LF := "\n"
  const CRLF := "\r\n"

  predicate HasCrlf(t: string)
  {
    exists i :: 0 <= i < |t| - 1 && t[i] == '\r' && t[i + 1] == '\n'
  }

  predicate HasLf(t: string)
  {
    exists i :: 0 <= i < |t| && t[i] == '\n'
  }

  function NewlineOf(t: string): string
  {
    if HasCrlf(t) then CRLF else LF
  }

  predicate IsNewline(nl: string)
  {
    nl == LF || nl == CRLF
  }

  /** `t.split(nl)`. */
  function Split(t: string, nl: string): (r: seq<string>)
    requires IsNewline(nl)
    ensures r != []
    decreases |t|
  {
    if StartsWith(t, nl) then [""] + Split(t[|nl|..], nl)
    else if t == [] then [""]
    else
      var rest := Split(t[1..], nl);
      [[t[0]] + rest[0]] + rest[1..]
  }

  /** `nl.join(lines)`. */
  function Join(lines: seq<string>, nl: string): string
    requires lines != []
  {
    if |lines| == 1 then lines[0] else lines[0] + nl + Join(lines[1..], nl)
  }

  /** No newline of the given kind in the line. */
  predicate Unbroken(line: string, nl: string)
  {
    if nl == LF then !HasLf(line) else !HasCrlf(line)
  }

  lemma {:induction false} StartsNewline(t: string, nl: string)
    requires IsNewline(nl)
    ensures StartsWith(t, nl) <==>
      if nl == LF then t != [] && t[0] == '\n' else |t| >= 2 && t[0] == '\r' && t[1] == '\n'
  {
    if |t| >= 2 {
      assert t[..2][0] == t[0] && t[..2][1] == t[1];
    }
    assert |t| >= 2 && t[0] == '\r' && t[1] == '\n' ==> t[..2] == CRLF;
    assert t != [] && t[0] == '\n' ==> t[..1] == LF;
  }

  lemma {:induction false} NewlineInside(line: string, nl: string)
    requires IsNewline(nl) && Unbroken(line, nl) && line != []
    ensures Unbroken(line[1..], nl) && !StartsWith(line, nl)
  {
    StartsNewline(line, nl);
    var rest := line[1..];
    forall i | 0 <= i < |rest| ensures rest[i] == line[i + 1] {
    }
  }

  lemma {:induction false} NoNewlineYet(line: string, nl: string, rest: string)
    requires IsNewline(nl) && Unbroken(line, nl) && line != []
    ensures !StartsWith(line + nl + rest, nl)
  {
    var t := line + nl + rest;
    StartsNewline(t, nl);
    assert t[0] == line[0] && (|line| > 1 ==> t[1] == line[1]) && (|line| == 1 ==> t[1] == nl[0]);
  }

  lemma {:induction false} SplitLine(line: string, nl: string, rest: string)
    requires IsNewline(nl) && Unbroken(line, nl)
    ensures Split(line + nl + rest, nl) == [line] + Split(rest, nl)
    decreases |line|
  {
    var t := line + nl + rest;
    if line == [] {
      assert t == nl + rest && t[..|nl|] == nl && t[|nl|..] == rest;
    } else {
      NoNewlineYet(line, nl, rest);
      NewlineInside(line, nl);
      assert t[1..] == line[1..] + nl + rest;
      SplitLine(line[1..], nl, rest);
      assert t[0] == line[0] && [line[0]] + line[1..] == line;
    }
  }

  lemma {:induction false} SplitLast(line: string, nl: string)
    requires IsNewline(nl) && Unbroken(line, nl)
    ensures Split(line, nl) == [line]
    decreases |line|
  {
    if line != [] {
      NewlineInside(line, nl);
      SplitLast(line[1..], nl);
      assert [line[0]] + line[1..] == line;
    }
  }

  predicate AllUnbroken(lines: seq<string>, nl: string)
  {
    forall i :: 0 <= i < |lines| ==> Unbroken(lines[i], nl)
  }

  lemma {:induction false} SplitUndoesJoin(lines: seq<string>, nl: string)
    requires lines != [] && IsNewline(nl) && AllUnbroken(lines, nl)
    ensures Split(Join(lines, nl), nl) == lines
    decreases |lines|
  {
    assert Unbroken(lines[0], nl);
    if |lines| == 1 {
      SplitLast(lines[0], nl);
    } else {
      assert AllUnbroken(lines[1..], nl) by {
        assert forall i :: 0 <= i < |lines| - 1 ==> lines[1..][i] == lines[i + 1];
      }
      SplitUndoesJoin(lines[1..], nl);
      SplitLine(lines[0], nl, Join(lines[1..], nl));
    }
  }

  lemma {:induction false} UnbrokenExtends(c: char, line: string, nl: string)
    requires IsNewline(nl) && Unbroken(line, nl) && !StartsWith([c] + line, nl)
    ensures Unbroken([c] + line, nl)
  {
    StartsNewline([c] + line, nl);
    assert forall i :: 0 < i < |[c] + line| ==> ([c] + line)[i] == line[i - 1];
  }

  lemma {:induction false} SplitIsUnbroken(t: string, nl: string)
    requires IsNewline(nl)
    ensures AllUnbroken(Split(t, nl), nl)
    ensures Join(Split(t, nl), nl) == t
    ensures StartsWith(t, Split(t, nl)[0])
    decreases |t|
  {
    var r := Split(t, nl);
    if StartsWith(t, nl) {
      var rest := Split(t[|nl|..], nl);
      SplitIsUnbroken(t[|nl|..], nl);
      assert r[1..] == rest && t == nl + t[|nl|..];
      assert r[0] + nl + Join(rest, nl) == nl + Join(rest, nl);
    } else if t != [] {
      var rest := Split(t[1..], nl);
      SplitIsUnbroken(t[1..], nl);
      SplitGrowsFirst(t, nl, rest);
    }
  }

  lemma {:induction false} SplitGrowsFirst(t: string, nl: string, rest: seq<string>)
    requires IsNewline(nl) && t != [] && !StartsWith(t, nl)
    requires rest != [] && AllUnbroken(rest, nl) && Join(rest, nl) == t[1..] && StartsWith(t[1..], rest[0])
    ensures var r := [[t[0]] + rest[0]] + rest[1..];
      AllUnbroken(r, nl) && Join(r, nl) == t && StartsWith(t, r[0])
  {
    var r := [[t[0]] + rest[0]] + rest[1..];
    assert Unbroken(rest[0], nl);
    assert r[0] == t[..|r[0]|] by {
      assert t == [t[0]] + t[1..];
      assert t[1..][..|rest[0]|] == rest[0];
    }
    assert StartsWith(r[0], nl) ==> StartsWith(t, nl);
    UnbrokenExtends(t[0], rest[0], nl);
    assert forall i :: 1 <= i < |r| ==> r[i] == rest[i];
    assert t == [t[0]] + t[1..];
    if |rest| > 1 {
      assert r[1..] == rest[1..];
      assert ([t[0]] + rest[0]) + nl + Join(rest[1..], nl) == [t[0]] + (rest[0] + nl + Join(rest[1..], nl));
    }
  }
}
