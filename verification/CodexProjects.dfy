/**
Which table is whose (`_find_all_sections` in src/agenttalk/codex_config.py): every spelling of the project's own header
is found, no other table is taken for it, and an edit leaves the other tables where and as they are.
*/
module CodexProjects {
  import opened Wrappers
  import opened PythonText
  import opened TomlText
  import opened CodexConfig
  import opened CodexEdit
  import opened CodexText
  import opened CodexFile

  // ------------------------------------------------------------ blanks around a line

  lemma {:induction false} SolidFromSkips(s: string, i: nat, n: nat)
    requires i <= n <= |s| && forall k :: i <= k < n ==> IsSpace(s[k])
    ensures SolidFrom(s, i) == SolidFrom(s, n)
    decreases n - i
  {
    if i < n {
      SolidFromSkips(s, i + 1, n);
    }
  }

  lemma {:induction false} SolidToSkips(s: string, i: nat, n: nat, j: nat)
    requires i <= n <= j <= |s| && forall k :: n <= k < j ==> IsSpace(s[k])
    ensures SolidTo(s, i, j) == SolidTo(s, i, n)
    decreases j - n
  {
    if n < j {
      SolidToSkips(s, i, n, j - 1);
    }
  }

  lemma {:induction false} StripAround(before: string, core: string, after: string)
    requires IsBlank(before) && Tight(core) && IsBlank(after)
    ensures Strip(before + core + after) == core
  {
    var s, a, b := before + core + after, |before|, |before| + |core|;
    assert forall k :: 0 <= k < a ==> s[k] == before[k];
    assert forall k :: b <= k < |s| ==> s[k] == after[k - b];
    assert s[a] == core[0] && s[b - 1] == core[|core| - 1];
    SolidFromSkips(s, 0, a);
    SolidToSkips(s, a, b, |s|);
    assert s[a..b] == core;
  }

  lemma {:induction false} StripBlank(s: string)
    requires IsBlank(s)
    ensures Strip(s) == ""
  {
    SolidFromSkips(s, 0, |s|);
  }

  // ------------------------------------------------------------ every spelling of a header

  /** A literal string, or a basic string with its escapes. */
  predicate Spells(q: string, key: string)
  {
    || (q == "'" + key + "'" && forall i :: 0 <= i < |key| ==> key[i] != '\'')
    || q == "\"" + Escape(key) + "\""
  }

  lemma {:induction false} SpelledCloses(s: string, p: nat, q: string, key: string)
    requires Spells(q, key) && p + |q| < |s| && s[p..p + |q|] == q && s[p + |q|] == ']'
    ensures CloseAt(s, p) == Some(p + |q|)
  {
    assert forall k :: 0 <= k < |q| ==> s[p + k] == s[p..p + |q|][k] == q[k];
    assert s[p] == q[0];
    if q[0] == '\'' {
      forall k | p + 1 <= k < p + 1 + |key| ensures s[k] != '\'' {
        assert s[k] == q[k - p] == key[k - p - 1];
      }
      assert s[p + 1 + |key|] == q[|key| + 1] == '\'';
      assert Find(s, '\'', p + 1) == Some(p + 1 + |key|);
    } else {
      EscapeIsCharwise(key);
      var e := EscapeChars(key);
      assert s[p + 1..p + 1 + |e|] == e by {
        assert forall k :: 0 <= k < |e| ==> s[p + 1 + k] == q[1 + k] == e[k];
      }
      assert s[p + 1 + |e|] == q[|e| + 1] == '"';
      SkipEscaped(s, p + 1, key);
    }
  }

  lemma {:induction false} SpelledReads(q: string, key: string, hex: HexReader)
    requires Spells(q, key)
    ensures Unquote(q, hex) == Ok(Some(key))
  {
    if q[0] == '\'' {
      UnquoteQuoted('\'', key, hex);
    } else {
      EscapeIsCharwise(key);
      UnescapeUndoes(key, hex);
      UnquoteQuoted('"', Escape(key), hex);
    }
  }

  /** What may follow a header on its line: nothing, or a comment after any blanks. */
  predicate IsTail(gap: string, comment: string)
  {
    IsBlank(gap) && if comment == "" then gap == "" else Tight(comment) && comment[0] == '#'
  }

  function HeaderLine(before: string, q: string, gap: string, comment: string, after: string): string
  {
    before + ("[" + "projects." + q + "]" + (gap + comment)) + after
  }

  /** Where the parts of a header stand. */
  predicate IsHeaderText(s: string, q: string, rest: string)
  {
    && |s| == 11 + |q| + |rest| && s[0] == '[' && s[1..10] == PROJECTS && s[10..10 + |q|] == q && s[10 + |q|] == ']'
    && s[10 + |q| + 1..] == rest
  }

  lemma {:induction false} HeaderIsText(q: string, rest: string)
    ensures IsHeaderText("[" + PROJECTS + q + "]" + rest, q, rest)
  {
    var s := "[" + PROJECTS + q + "]" + rest;
    assert s == "[" + (PROJECTS + (q + ("]" + rest)));
  }

  lemma {:induction false} TextCloses(s: string, q: string, key: string, rest: string)
    requires Spells(q, key) && IsHeaderText(s, q, rest)
    ensures CloseAt(s, 1) == Some(10 + |q|) && s[1..10 + |q|] == PROJECTS + q
  {
    forall k | 1 <= k < 10 ensures s[k] != '\'' && s[k] != '"' && s[k] != ']' {
      assert s[k] == s[1..10][k - 1] == PROJECTS[k - 1];
    }
    SkipPlain(s, 1, 10);
    SpelledCloses(s, 10, q, key);
    assert s[1..10 + |q|] == s[1..10] + s[10..10 + |q|];
  }

  lemma {:induction false} TailStrips(gap: string, comment: string)
    requires IsTail(gap, comment)
    ensures Strip(gap + comment) == comment
  {
    if comment == "" {
      StripBlank(gap + comment);
    } else {
      StripAround(gap, comment, "");
      assert gap + comment + "" == gap + comment;
    }
  }

  lemma {:induction false} HeaderEnds(s: string, q: string, gap: string, comment: string)
    requires IsTail(gap, comment) && IsHeaderText(s, q, gap + comment)
    ensures Tight(s) && StartsWith(s, "[" + PROJECTS)
  {
    var rest := gap + comment;
    assert s[..10] == [s[0]] + s[1..10];
    assert s[|s| - 1] == if rest == "" then ']' else s[10 + |q| + 1..][|rest| - 1];
    assert rest != "" ==> rest[|rest| - 1] == comment[|comment| - 1];
  }

  lemma {:induction false} HeaderCore(s: string, q: string, key: string, gap: string, comment: string)
    requires Spells(q, key) && IsTail(gap, comment) && s == "[" + PROJECTS + q + "]" + (gap + comment)
    ensures Tight(s) && s[0] == '[' && StartsWith(s, "[" + PROJECTS)
    ensures ParseStripped(s) == Some(Header(PROJECTS + q, comment))
  {
    HeaderIsText(q, gap + comment);
    TextCloses(s, q, key, gap + comment);
    TailStrips(gap, comment);
    HeaderEnds(s, q, gap, comment);
  }

  lemma {:induction false} NamedExactly(p: Project, line: string, s: string, q: string, key: string, comment: string)
    requires Strip(line) == s && s != [] && s[0] == '[' && StartsWith(s, "[" + PROJECTS)
    requires ParseStripped(s) == Some(Header(PROJECTS + q, comment)) && Spells(q, key)
    ensures Classify(p, line) == Table(p.fold(key) == p.fold(p.key)) && !Raises(p, line)
  {
    Prefixed(PROJECTS, q);
    SpelledReads(q, key, p.hex);
    assert PathOn(p, line) == Ok(Some(key));
  }

  /** Indented or not, commented or not, literal or basic: the header names this project exactly if its path folds alike. */
  lemma {:induction false} HeaderNamesExactly(
    p: Project, key: string, before: string, q: string, gap: string, comment: string, after: string)
    requires IsBlank(before) && IsBlank(after) && IsTail(gap, comment) && Spells(q, key)
    ensures var line := HeaderLine(before, q, gap, comment, after);
      Classify(p, line) == Table(p.fold(key) == p.fold(p.key)) && !Raises(p, line)
  {
    var s := "[" + PROJECTS + q + "]" + (gap + comment);
    HeaderCore(s, q, key, gap, comment);
    StripAround(before, s, after);
    NamedExactly(p, before + s + after, s, q, key, comment);
  }

  lemma {:induction false} QuoteSpells(key: string)
    ensures Spells(Quote(key), key)
  {
  }

  /** So the header the editor writes for another project is not this project's. */
  lemma {:induction false} WrittenHeaderNamesExactly(p: Project, key: string)
    ensures Classify(p, SectionHeader(key)) == Table(p.fold(key) == p.fold(p.key)) && !Raises(p, SectionHeader(key))
  {
    HeaderParsesBack(key);
    HeaderStarts(key);
    QuoteSpells(key);
    NamedExactly(p, SectionHeader(key), SectionHeader(key), Quote(key), key, "");
  }

  /** A table that is not below `projects.` is nobody's. */
  lemma {:induction false} OtherTablesNameNobody(p: Project, line: string)
    requires Strip(line) != [] && Strip(line)[0] == '[' && !StartsWith(Strip(line), "[projects.")
    ensures Classify(p, line) == Table(false) && !Raises(p, line)
  {
    assert "[" + PROJECTS == "[projects.";
  }

  lemma {:induction false} PairReads(name: string, gap: string, space: string, value: string)
    requires Tight(name) && Tight(value) && IsBlank(gap) && IsBlank(space) && name[0] != '#' && name[0] != '['
    requires forall i :: 0 <= i < |name| ==> name[i] != '='
    ensures var core := (name + gap) + "=" + (space + value); Tight(core) && core[0] == name[0]
    ensures ParsePair((name + gap) + "=" + (space + value)) == Some(Pair(name, value))
  {
    var left, right := name + gap, space + value;
    var core := left + "=" + right;
    assert left[0] == name[0] && right[|right| - 1] == value[|value| - 1];
    assert core[0] == left[0] && core[|core| - 1] == right[|right| - 1];
    forall i | 0 <= i < |left| ensures left[i] != '=' {
      assert left[i] == if i < |name| then name[i] else gap[i - |name|];
    }
    SplitsAtEquals(left, right);
    StripAround("", name, gap);
    StripAround(space, value, "");
    assert "" + name + gap == left && space + value + "" == right;
  }

  lemma {:induction false} SettingStripped(p: Project, line: string, core: string, k: Managed, name: string, value: string)
    requires Strip(line) == core && Tight(core) && core[0] != '['
    requires ParsePair(core) == Some(Pair(name, value)) && KeyNamed(name) == Some(k)
    ensures Classify(p, line) == Setting(k, value)
  {
    assert ParsePair(line) == ParsePair(core);
  }

  /** A setting reads the same whatever blanks are around its parts. */
  lemma {:induction false} SettingReads(
    p: Project, k: Managed, before: string, gap: string, space: string, value: string, after: string)
    requires IsBlank(before) && IsBlank(gap) && IsBlank(space) && IsBlank(after) && Tight(value)
    ensures var name := match k case Trust => "trust_level" case Approval => "approval_policy" case Sandbox => "sandbox_mode";
      Classify(p, before + ((name + gap) + "=" + (space + value)) + after) == Setting(k, value)
  {
    var core := (NameOf(k) + gap) + "=" + (space + value);
    NamesAreTight(k);
    PairReads(NameOf(k), gap, space, value);
    StripAround(before, core, after);
    SettingStripped(p, before + core + after, core, k, NameOf(k), value);
  }

  predicate IsAssignment(s: string, i: nat, name: string, value: string)
  {
    i < |s| && s[i] == '=' && (forall j :: 0 <= j < i ==> s[j] != '=') && Strip(s[..i]) == name && Strip(s[i + 1..]) == value
  }

  predicate IsPair(s: string, name: string, value: string)
  {
    s != [] && s[0] != '#' && s[0] != '[' && exists i :: 0 <= i < |s| && IsAssignment(s, i, name, value)
  }

  lemma {:induction false} PairsExactly(line: string, name: string, value: string)
    ensures ParsePair(line) == Some(Pair(name, value)) <==> IsPair(Strip(line), name, value)
  {
    var s := Strip(line);
    var at := Find(s, '=', 0);
    if at.Some? {
      assert forall i, n, v :: IsAssignment(s, i, n, v) ==> i == at.value;
      assert IsAssignment(s, at.value, Strip(s[..at.value]), Strip(s[at.value + 1..]));
    }
  }

  lemma {:induction false} NamesExactly(name: string, k: Managed)
    ensures KeyNamed(name) == Some(k) <==> name == NameOf(k)
  {
    assert |NameOf(Trust)| == 11 && |NameOf(Approval)| == 15 && |NameOf(Sandbox)| == 12;
  }

  lemma {:induction false} NamesAreText(k: Managed)
    ensures NameOf(k) == match k case Trust => "trust_level" case Approval => "approval_policy" case Sandbox => "sandbox_mode"
  {
  }

  /** Which lines are settings: no comment, no header, and one of the three names before the first equals sign. */
  lemma {:induction false} SettingsExactly(p: Project, line: string, k: Managed, value: string)
    ensures var name := match k case Trust => "trust_level" case Approval => "approval_policy" case Sandbox => "sandbox_mode";
      Classify(p, line) == Setting(k, value) <==> IsPair(Strip(line), name, value)
  {
    NamesAreText(k);
    PairsExactly(line, NameOf(k), value);
    if ParsePair(line).Some? {
      NamesExactly(ParsePair(line).value.key, k);
    }
  }

  // ------------------------------------------------------------ the text that is written

  lemma {:induction false} JoinFirst(line: string, rest: seq<string>)
    requires rest != []
    ensures Join([line] + rest, LF) == line + "\n" + Join(rest, LF)
  {
    assert ([line] + rest)[1..] == rest;
  }

  lemma {:induction false} JoinFive(a: string, b: string, c: string, d: string)
    ensures Join([a, b, c, d, ""], LF) == a + "\n" + (b + "\n" + (c + "\n" + (d + "\n" + "")))
  {
    JoinFirst(d, [""]);
    JoinFirst(c, [d, ""]);
    JoinFirst(b, [c, d, ""]);
    JoinFirst(a, [b, c, d, ""]);
    assert [d] + [""] == [d, ""] && [c] + [d, ""] == [c, d, ""] && [b] + [c, d, ""] == [b, c, d, ""];
    assert [a] + [b, c, d, ""] == [a, b, c, d, ""];
  }

  lemma {:induction false} KeyLineText()
    ensures KeyLine(Trust) == "trust_level = \"trusted\""
    ensures KeyLine(Approval) == "approval_policy = \"never\""
    ensures KeyLine(Sandbox) == "sandbox_mode = \"workspace-write\""
  {
  }

  /** The block, letter by letter. */
  lemma {:induction false} RenderedText(p: Project)
    ensures RenderBlock(ScriptOf(p)) ==
      SectionHeader(p.key) + "\n"
      + ("trust_level = \"trusted\"" + "\n"
         + ("approval_policy = \"never\"" + "\n" + ("sandbox_mode = \"workspace-write\"" + "\n" + "")))
    ensures SectionHeader(p.key) == "[projects." + Quote(p.key) + "]"
  {
    var w := ScriptOf(p);
    KeyLineText();
    assert [w.header] + KeyLines(w) + [""] == [w.header, KeyLine(Trust), KeyLine(Approval), KeyLine(Sandbox), ""];
    JoinFive(w.header, KeyLine(Trust), KeyLine(Approval), KeyLine(Sandbox));
  }

  // ------------------------------------------------------------ the other tables stay

  /** A table of somebody else's, header and lines. */
  ghost predicate IsForeign(read: Reader, block: seq<string>)
  {
    block != [] && read(block[0]) == Table(false) && NoTable(read, block[1..])
  }

  lemma {:induction false} ForeignHasNoMatch(read: Reader, block: seq<string>)
    requires IsForeign(read, block)
    ensures NoMatch(read, block)
  {
    forall i | 0 <= i < |block| ensures !MatchAt(read, block, i) {
      assert i > 0 ==> !TableAt(read, block[1..], i - 1);
    }
  }

  lemma {:induction false} OutsideOfTwo(read: Reader, a: seq<string>, b: seq<string>, inside: bool)
    requires StartsTable(read, b)
    ensures Outside(read, a + b, inside) == Outside(read, a, inside) + Outside(read, b, false)
  {
    if a == [] {
      assert a + b == b;
    } else {
      var now := if TableAt(read, a, 0) then read(a[0]).matches else inside;
      assert (a + b)[1..] == a[1..] + b;
      OutsideOfTwo(read, a[1..], b, now);
    }
  }

  lemma {:induction false} OutsideOfThree(read: Reader, a: seq<string>, block: seq<string>, b: seq<string>)
    requires IsForeign(read, block) && StartsTable(read, b)
    ensures Outside(read, a + (block + b), false) == Outside(read, a, false) + (block + Outside(read, b, false))
  {
    OutsideOfTwo(read, a, block + b, false);
    OutsideOfTwo(read, block, b, false);
    ForeignHasNoMatch(read, block);
    OutsideOfUnmatched(read, block);
  }

  lemma {:induction false} ViewIsKept(read: Reader, lines: seq<string>, v: View)
    requires IsView(read, v) && Flat(v) == lines
    ensures var kept := v.(post := Outside(read, v.post, false));
      && Collapsed(read, lines) == Flat(kept) && ViewOf(read, Flat(kept)) == Some(kept)
  {
    ViewOfFlat(read, v);
    OutsideHasNoMatch(read, v.post, false);
    var kept := v.(post := Outside(read, v.post, false));
    SingleCollapsed(read, kept);
  }

  lemma {:induction false} EnabledOfView(w: Script, lines: seq<string>, v: View)
    requires IsView(w.read, v) && Flat(v) == lines
    ensures Enabled(w, lines) == v.pre + [v.header] + Updated(w, v.body) + Outside(w.read, v.post, false)
    ensures Disabled(w.read, lines) == v.pre + [v.header] + WithoutGates(w.read, v.body) + Outside(w.read, v.post, false)
  {
    ViewIsKept(w.read, lines, v);
  }

  /** The project's block stands before the other table: the other table follows it unchanged. */
  lemma {:induction false} BlockBefore(w: Script, a: seq<string>, block: seq<string>, b: seq<string>)
    requires IsForeign(w.read, block) && StartsTable(w.read, b) && ViewOf(w.read, a).Some?
    ensures Enabled(w, a + (block + b)) == Enabled(w, a) + (block + Outside(w.read, b, false))
    ensures Disabled(w.read, a + (block + b)) == Disabled(w.read, a) + (block + Outside(w.read, b, false))
  {
    var v := ViewOf(w.read, a).value;
    var wider := v.(post := v.post + (block + b));
    assert TableAt(w.read, block, 0);
    assert v.post == [] ==> wider.post[0] == block[0];
    assert v.post != [] ==> wider.post[0] == v.post[0] && TableAt(w.read, v.post, 0);
    assert Flat(wider) == Flat(v) + (block + b);
    EnabledOfView(w, a, v);
    EnabledOfView(w, a + (block + b), wider);
    OutsideOfThree(w.read, v.post, block, b);
    Reassociate(v.pre + [v.header] + Updated(w, v.body), Outside(w.read, v.post, false), block + Outside(w.read, b, false));
    Reassociate(v.pre + [v.header] + WithoutGates(w.read, v.body), Outside(w.read, v.post, false), block + Outside(w.read, b, false));
  }

  lemma {:induction false} Reassociate<T>(a: seq<T>, b: seq<T>, c: seq<T>)
    ensures a + (b + c) == (a + b) + c
  {
  }

  /** The project's block stands after the other table. */
  lemma {:induction false} BlockAfter(w: Script, a: seq<string>, block: seq<string>, b: seq<string>)
    requires IsForeign(w.read, block) && ViewOf(w.read, a).None? && ViewOf(w.read, b).Some?
    ensures Enabled(w, a + (block + b)) == a + (block + Enabled(w, b))
    ensures Disabled(w.read, a + (block + b)) == a + (block + Disabled(w.read, b))
  {
    var v := ViewOf(w.read, b).value;
    var wider := v.(pre := a + (block + v.pre));
    ForeignHasNoMatch(w.read, block);
    NoMatchConcat(w.read, block, v.pre);
    NoMatchConcat(w.read, a, block + v.pre);
    assert Flat(wider) == a + (block + Flat(v));
    EnabledOfView(w, b, v);
    EnabledOfView(w, a + (block + b), wider);
    AfterPrefix(a, block, v.pre, v.header, Updated(w, v.body), Outside(w.read, v.post, false));
    AfterPrefix(a, block, v.pre, v.header, WithoutGates(w.read, v.body), Outside(w.read, v.post, false));
  }

  lemma {:induction false} AfterPrefix<T>(a: seq<T>, block: seq<T>, pre: seq<T>, header: T, body: seq<T>, post: seq<T>)
    ensures (a + (block + pre)) + [header] + body + post == a + (block + (pre + [header] + body + post))
  {
  }

  lemma {:induction false} NoBlock(w: Script, a: seq<string>, block: seq<string>, b: seq<string>)
    requires IsForeign(w.read, block) && ViewOf(w.read, a).None? && ViewOf(w.read, b).None?
    ensures var lines := a + (block + b);
      && Enabled(w, lines) == a + (block + (b + Separator(w.read, lines) + [w.header] + KeyLines(w)))
      && Disabled(w.read, lines) == lines
  {
    var lines := a + (block + b);
    ForeignHasNoMatch(w.read, block);
    NoMatchConcat(w.read, block, b);
    NoMatchConcat(w.read, a, block + b);
    NoMatchNoView(w.read, lines);
  }

  /** What becomes of the lines before another table. */
  function EnabledBefore(w: Script, a: seq<string>): seq<string>
  {
    if ViewOf(w.read, a).Some? then Enabled(w, a) else a
  }

  /** What becomes of the lines after another table, given the lines up to it. */
  function EnabledAfter(w: Script, front: seq<string>, b: seq<string>): seq<string>
  {
    if ViewOf(w.read, front).Some? then Outside(w.read, b, false)
    else if ViewOf(w.read, b).Some? then Enabled(w, b)
    else b + Separator(w.read, front + b) + [w.header] + KeyLines(w)
  }

  lemma {:induction false} FrontHasView(read: Reader, a: seq<string>, block: seq<string>)
    requires IsForeign(read, block)
    ensures ViewOf(read, a + block).Some? <==> ViewOf(read, a).Some?
  {
    if ViewOf(read, a).None? {
      ForeignHasNoMatch(read, block);
      NoMatchConcat(read, a, block);
      NoMatchNoView(read, a + block);
    } else {
      var v := ViewOf(read, a).value;
      var i := |v.pre|;
      assert (a + block)[i] == a[i] == v.header;
      assert MatchAt(read, a + block, i);
    }
  }

  lemma {:induction false} SameWithoutView(read: Reader, b: seq<string>)
    requires ViewOf(read, b).None?
    ensures Disabled(read, b) == b
  {
  }

  lemma {:induction false} ForeignStays(w: Script, a: seq<string>, block: seq<string>, b: seq<string>)
    requires IsForeign(w.read, block) && StartsTable(w.read, b)
    ensures Enabled(w, a + (block + b)) == EnabledBefore(w, a) + (block + EnabledAfter(w, a + block, b))
    ensures Disabled(w.read, a + (block + b)) ==
      if ViewOf(w.read, a).Some? then Disabled(w.read, a) + (block + Outside(w.read, b, false))
      else a + (block + Disabled(w.read, b))
  {
    FrontHasView(w.read, a, block);
    assert a + (block + b) == (a + block) + b;
    if ViewOf(w.read, a).Some? {
      BlockBefore(w, a, block, b);
    } else if ViewOf(w.read, b).Some? {
      BlockAfter(w, a, block, b);
    } else {
      NoBlock(w, a, block, b);
      SameWithoutView(w.read, b);
    }
  }

  /** A block of another project, as the editor writes its header, up to the next table. */
  ghost predicate IsOthersBlock(p: Project, key: string, body: seq<string>, b: seq<string>)
  {
    && p.fold(key) != p.fold(p.key)
    && NoTable(line => Classify(p, line), body) && StartsTable(line => Classify(p, line), b)
  }

  /**
  Enabling a project in a file that holds another project's block: wherever that block stands, it stands there line for
  line afterwards, and what is written before and after it does not depend on it, the blank line before a new block aside.
  */
  lemma {:induction false} OtherProjectsStay(p: Project, t: string, a: seq<string>, key: string, body: seq<string>, b: seq<string>)
    requires IsOthersBlock(p, key, body, b) && Searchable(ScriptOf(p), t)
    requires Body(Split(t, NewlineOf(t))) == a + ([SectionHeader(key)] + body + b)
    ensures var w, nl, block := ScriptOf(p), NewlineOf(t), [SectionHeader(key)] + body;
      EnableText(w, t) ==
        Ok(Join(EnabledBefore(w, a) + (block + EnabledAfter(w, a + block, b)) + Trailing(Split(t, nl)), nl))
  {
    var w, block := ScriptOf(p), [SectionHeader(key)] + body;
    WrittenHeaderNamesExactly(p, key);
    assert block[1..] == body;
    assert forall i :: 0 <= i < |body| ==> TableAt(w.read, body, i) == TableAt(line => Classify(p, line), body, i);
    assert b != [] ==> TableAt(w.read, b, 0) == TableAt(line => Classify(p, line), b, 0);
    ForeignStays(w, a, block, b);
  }
}
