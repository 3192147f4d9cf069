/**
The pieces of TOML v1.0.0 that src/agenttalk/codex_config.py writes and reads itself: quoted table
keys, table headers and `key = value` lines.
*/
module TomlText {
  import opened Wrappers
  import opened PythonText

  /** What `chr(int(digits, 16))` makes of the digits of an escape: a character, its ValueError, or its OverflowError. */
  datatype Digits = Char(c: char) | NoChar | TooLarge

  type HexReader = string -> Digits

  /** Nothing catches it. */
  datatype Raised = OverflowError

  // ------------------------------------------------------------ quoting

  predicate NeedsBasic(c: char)
  {
    c == '\'' || c == '\r' || c == '\n' || c == '\t' || c == '\U{8}' || c == '\U{C}' || c == '\0'
  }

  function Replace(s: string, from: char, to: string): string
  {
    if s == [] then [] else (if s[0] == from then to else [s[0]]) + Replace(s[1..], from, to)
  }

  /** The chain of `replace` calls, each over the result of the one before. */
  function Escape(s: string): string
  {
    Replace(Replace(Replace(Replace(Replace(Replace(Replace(
      s, '\\', "\\\\"), '"', "\\\""), '\U{8}', "\\b"), '\t', "\\t"), '\n', "\\n"), '\U{C}', "\\f"), '\r', "\\r")
  }

  function Quote(s: string): string
  {
    if forall i :: 0 <= i < |s| ==> !NeedsBasic(s[i]) then "'" + s + "'" else "\"" + Escape(s) + "\""
  }

  /** One character of the key, as it stands between double quotes. */
  function EscapeChar(c: char): string
  {
    if c == '\\' then "\\\\"
    else if c == '"' then "\\\""
    else if c == '\U{8}' then "\\b"
    else if c == '\t' then "\\t"
    else if c == '\n' then "\\n"
    else if c == '\U{C}' then "\\f"
    else if c == '\r' then "\\r"
    else [c]
  }

  function EscapeChars(s: string): string
  {
    if s == [] then [] else EscapeChar(s[0]) + EscapeChars(s[1..])
  }

  lemma {:induction false} ReplaceConcat(a: string, b: string, from: char, to: string)
    ensures Replace(a + b, from, to) == Replace(a, from, to) + Replace(b, from, to)
  {
    if a == [] {
      assert a + b == b;
    } else {
      assert (a + b)[1..] == a[1..] + b;
      ReplaceConcat(a[1..], b, from, to);
    }
  }

  lemma {:induction false} EscapeConcat(a: string, b: string)
    ensures Escape(a + b) == Escape(a) + Escape(b)
  {
    ReplaceConcat(a, b, '\\', "\\\\");
    var a1, b1 := Replace(a, '\\', "\\\\"), Replace(b, '\\', "\\\\");
    ReplaceConcat(a1, b1, '"', "\\\"");
    var a2, b2 := Replace(a1, '"', "\\\""), Replace(b1, '"', "\\\"");
    ReplaceConcat(a2, b2, '\U{8}', "\\b");
    var a3, b3 := Replace(a2, '\U{8}', "\\b"), Replace(b2, '\U{8}', "\\b");
    ReplaceConcat(a3, b3, '\t', "\\t");
    var a4, b4 := Replace(a3, '\t', "\\t"), Replace(b3, '\t', "\\t");
    ReplaceConcat(a4, b4, '\n', "\\n");
    var a5, b5 := Replace(a4, '\n', "\\n"), Replace(b4, '\n', "\\n");
    ReplaceConcat(a5, b5, '\U{C}', "\\f");
    ReplaceConcat(Replace(a5, '\U{C}', "\\f"), Replace(b5, '\U{C}', "\\f"), '\r', "\\r");
  }

  lemma {:induction false} ReplaceNothing(s: string, from: char, to: string)
    requires forall i :: 0 <= i < |s| ==> s[i] != from
    ensures Replace(s, from, to) == s
  {
    if s != [] {
      ReplaceNothing(s[1..], from, to);
    }
  }

  lemma {:induction false} ReplaceSingle(c: char, from: char, to: string)
    ensures Replace([c], from, to) == if c == from then to else [c]
  {
  }

  lemma {:induction false} EscapeOne(c: char)
    ensures Escape([c]) == EscapeChar(c)
  {
    ReplaceSingle(c, '\\', "\\\\");
    var t := Replace([c], '\\', "\\\\");
    if c == '\\' || c == '"' {
      ReplaceSingle(c, '"', "\\\"");
      var u := EscapeChar(c);
      if c == '\\' {
        ReplaceNothing(u, '"', "\\\"");
      }
      ReplaceNothing(u, '\U{8}', "\\b");
      ReplaceNothing(u, '\t', "\\t");
      ReplaceNothing(u, '\n', "\\n");
      ReplaceNothing(u, '\U{C}', "\\f");
      ReplaceNothing(u, '\r', "\\r");
    } else {
      ReplaceSingle(c, '"', "\\\"");
      ReplaceSingle(c, '\U{8}', "\\b");
      ReplaceSingle(c, '\t', "\\t");
      ReplaceSingle(c, '\n', "\\n");
      ReplaceSingle(c, '\U{C}', "\\f");
      ReplaceSingle(c, '\r', "\\r");
      var u := EscapeChar(c);
      if c == '\U{8}' { ReplaceNothing(u, '\t', "\\t"); }
      if c == '\U{8}' || c == '\t' { ReplaceNothing(u, '\n', "\\n"); }
      if c == '\U{8}' || c == '\t' || c == '\n' { ReplaceNothing(u, '\U{C}', "\\f"); }
      if c == '\U{8}' || c == '\t' || c == '\n' || c == '\U{C}' { ReplaceNothing(u, '\r', "\\r"); }
    }
  }

  /** No replacement touches what an earlier one wrote: the chain works character by character. */
  lemma {:induction false} EscapeIsCharwise(s: string)
    ensures Escape(s) == EscapeChars(s)
  {
    if s == [] {
    } else {
      assert s == [s[0]] + s[1..];
      EscapeConcat([s[0]], s[1..]);
      EscapeOne(s[0]);
      EscapeIsCharwise(s[1..]);
    }
  }

  // ------------------------------------------------------------ unquoting

  function Simple(c: char): Option<char>
  {
    match c
    case '\\' => Some('\\')
    case '"' => Some('"')
    case 'n' => Some('\n')
    case 'r' => Some('\r')
    case 't' => Some('\t')
    case 'b' => Some('\U{8}')
    case 'f' => Some('\U{C}')
    case '/' => Some('/')
    case _ => None
  }

  /** The digits of the escape the text begins with, if it begins with a complete \u or \U escape. */
  function EscapeDigits(s: string): Option<string>
  {
    if |s| < 2 || s[0] != '\\' then None
    else if s[1] == 'u' && |s| >= 6 then Some(s[2..6])
    else if s[1] == 'U' && |s| >= 10 then Some(s[2..10])
    else None
  }

  /** The text begins with an escape whose number is too large even to be refused. */
  predicate OverflowsHere(s: string, hex: HexReader)
  {
    EscapeDigits(s).Some? && hex(EscapeDigits(s).value).TooLarge?
  }

  /** How far one step of the unescaping goes, and what it yields; an unknown escape is left as it stands. */
  function Unit(s: string, hex: HexReader): (u: (nat, char))
    requires s != []
    ensures 0 < u.0 <= |s|
  {
    if s[0] == '\\' && |s| > 1 && Simple(s[1]).Some? then (2, Simple(s[1]).value)
    else if EscapeDigits(s).Some? && hex(EscapeDigits(s).value).Char? then
      (2 + |EscapeDigits(s).value|, hex(EscapeDigits(s).value).c)
    else (1, s[0])
  }

  function Unescape(s: string, hex: HexReader): Result<string, Raised>
  {
    if s == [] then Ok([])
    else if OverflowsHere(s, hex) then Refused(OverflowError)
    else
      match Unescape(s[Unit(s, hex).0..], hex)
      case Ok(rest) => Ok([Unit(s, hex).1] + rest)
      case Refused(error) => Refused(error)
  }

  /** The unescaping comes to stand at position i. */
  ghost predicate Reaches(s: string, hex: HexReader, i: nat)
    requires i <= |s|
    decreases i
  {
    i == 0 || exists j: nat :: j < i && Reaches(s, hex, j) && !OverflowsHere(s[j..], hex) && i == j + Unit(s[j..], hex).0
  }

  /** It comes to stand before an escape that is too large. */
  ghost predicate ReachesOverflow(s: string, hex: HexReader)
  {
    exists i: nat :: i < |s| && Reaches(s, hex, i) && OverflowsHere(s[i..], hex)
  }

  /** From where it stands it gets through exactly if it comes to stand before no such escape later. */
  lemma {:induction false} RaisesFrom(s: string, hex: HexReader, i: nat)
    requires i <= |s| && Reaches(s, hex, i) && Unescape(s[i..], hex).Refused?
    ensures ReachesOverflow(s, hex)
    decreases |s| - i
  {
    if i < |s| && !OverflowsHere(s[i..], hex) {
      var next := i + Unit(s[i..], hex).0;
      assert s[i..][Unit(s[i..], hex).0..] == s[next..];
      RaisesFrom(s, hex, next);
    }
  }

  lemma {:induction false} RaisesBefore(s: string, hex: HexReader, i: nat)
    requires i <= |s| && Reaches(s, hex, i) && Unescape(s[i..], hex).Refused?
    ensures Unescape(s, hex).Refused?
    decreases i
  {
    if i == 0 {
      assert s[0..] == s;
    } else {
      var j: nat :| j < i && Reaches(s, hex, j) && !OverflowsHere(s[j..], hex) && i == j + Unit(s[j..], hex).0;
      assert s[j..][Unit(s[j..], hex).0..] == s[i..];
      RaisesBefore(s, hex, j);
    }
  }

  /** Unescaping raises if and only if it reaches an escape whose number is too large. */
  lemma {:induction false} RaisesExactly(s: string, hex: HexReader)
    ensures Unescape(s, hex).Refused? <==> ReachesOverflow(s, hex)
  {
    assert s[0..] == s && Reaches(s, hex, 0);
    if Unescape(s, hex).Refused? {
      RaisesFrom(s, hex, 0);
    }
    if ReachesOverflow(s, hex) {
      var i: nat :| i < |s| && Reaches(s, hex, i) && OverflowsHere(s[i..], hex);
      RaisesBefore(s, hex, i);
    }
  }

  /** One step of the index loop. */
  method UnescapeAt(s: string, i: nat, hex: HexReader) returns (r: Result<(nat, char), Raised>)
    requires i < |s|
    ensures r == if OverflowsHere(s[i..], hex) then Refused(OverflowError) else Ok(Unit(s[i..], hex))
  {
    ghost var rest := s[i..];
    assert |rest| >= 6 ==> rest[2..6] == s[i + 2..i + 6];
    assert |rest| >= 10 ==> rest[2..10] == s[i + 2..i + 10];
    if s[i] == '\\' && i + 1 < |s| {
      var next := s[i + 1];
      if Simple(next).Some? {
        return Ok((2, Simple(next).value));
      }
      if next == 'u' && i + 6 <= |s| {
        match hex(s[i + 2..i + 6])
        case Char(c) => return Ok((6, c));
        case TooLarge => return Refused(OverflowError);
        case NoChar =>
      }
      if next == 'U' && i + 10 <= |s| {
        match hex(s[i + 2..i + 10])
        case Char(c) => return Ok((10, c));
        case TooLarge => return Refused(OverflowError);
        case NoChar =>
      }
    }
    return Ok((1, s[i]));
  }

  method BasicUnescape(s: string, hex: HexReader) returns (r: Result<string, Raised>)
    ensures r == Unescape(s, hex)
    ensures r.Refused? <==> ReachesOverflow(s, hex)
  {
    RaisesExactly(s, hex);
    var out := [];
    var i := 0;
    assert s[0..] == s;
    FollowingNothing(Unescape(s, hex));
    while i < |s|
      invariant 0 <= i <= |s|
      invariant Following(out, Unescape(s[i..], hex)) == Following([], Unescape(s, hex)) == Unescape(s, hex)
    {
      var unit := UnescapeAt(s, i, hex);
      if unit.Refused? {
        return Refused(unit.error);
      }
      var (taken, emitted) := unit.value;
      assert s[i..][taken..] == s[i + taken..];
      FollowingTwice(out, [emitted], Unescape(s[i + taken..], hex));
      out := out + [emitted];
      i := i + taken;
    }
    assert out + [] == out;
    return Ok(out);
  }

  function Following(front: string, rest: Result<string, Raised>): Result<string, Raised>
  {
    match rest case Ok(s) => Ok(front + s) case Refused(error) => Refused(error)
  }

  lemma {:induction false} FollowingNothing(rest: Result<string, Raised>)
    ensures Following([], rest) == rest
  {
    if rest.Ok? {
      assert [] + rest.value == rest.value;
    }
  }

  lemma {:induction false} FollowingTwice(a: string, b: string, rest: Result<string, Raised>)
    ensures Following(a, Following(b, rest)) == Following(a + b, rest)
  {
    if rest.Ok? {
      assert a + (b + rest.value) == a + b + rest.value;
    }
  }

  function Unquote(raw: string, hex: HexReader): Result<Option<string>, Raised>
  {
    var s := Strip(raw);
    if s == [] then Ok(None)
    else if s[0] == '\'' && s[|s| - 1] == '\'' && |s| >= 2 then Ok(Some(s[1..|s| - 1]))
    else if IsBasic(s) then
      match Unescape(s[1..|s| - 1], hex)
      case Ok(key) => Ok(Some(key))
      case Refused(error) => Refused(error)
    else Ok(Some(s))
  }

  predicate IsBasic(s: string)
  {
    |s| >= 2 && s[0] == '"' && s[|s| - 1] == '"'
  }

  /** A character stands for itself, unless it could be misread, or is written as a simple escape. */
  predicate Encodes(e: string, c: char)
  {
    || (|e| == 1 && e[0] == c && c != '\\' && c != '"')
    || (|e| == 2 && e[0] == '\\' && Simple(e[1]) == Some(c))
  }

  lemma {:induction false} EscapeEncodes(c: char)
    ensures Encodes(EscapeChar(c), c)
  {
  }

  lemma {:induction false} UnescapeEncoded(e: string, c: char, rest: string, hex: HexReader)
    requires Encodes(e, c)
    ensures Unescape(e + rest, hex) == Following([c], Unescape(rest, hex))
  {
    var all := e + rest;
    assert all[|e|..] == rest && all[0] == e[0] && (|e| == 2 ==> all[1] == e[1]);
  }

  lemma {:induction false} UnescapeUndoes(s: string, hex: HexReader)
    ensures Unescape(EscapeChars(s), hex) == Ok(s)
  {
    if s != [] {
      EscapeEncodes(s[0]);
      UnescapeEncoded(EscapeChar(s[0]), s[0], EscapeChars(s[1..]), hex);
      UnescapeUndoes(s[1..], hex);
      assert s == [s[0]] + s[1..];
    }
  }

  lemma {:induction false} UnquoteQuoted(mark: char, inner: string, hex: HexReader)
    requires mark == '\'' || mark == '"'
    requires mark == '"' ==> Unescape(inner, hex).Ok?
    ensures Unquote([mark] + inner + [mark], hex) == Ok(Some(if mark == '"' then Unescape(inner, hex).value else inner))
  {
    var q := [mark] + inner + [mark];
    assert q[0] == mark && q[|q| - 1] == mark && q[1..|q| - 1] == inner;
    assert Strip(q) == q;
  }

  /** Quoting a key and reading it back gives the key, for every key. */
  lemma {:induction false} UnquoteUndoesQuote(s: string, hex: HexReader)
    ensures Unquote(Quote(s), hex) == Ok(Some(s))
  {
    if forall i :: 0 <= i < |s| ==> !NeedsBasic(s[i]) {
      UnquoteQuoted('\'', s, hex);
    } else {
      EscapeIsCharwise(s);
      UnescapeUndoes(s, hex);
      UnquoteQuoted('"', Escape(s), hex);
    }
  }

  // ------------------------------------------------------------ table headers

  function Find(s: string, c: char, i: nat): (r: Option<nat>)
    ensures r.Some? ==> i <= r.value < |s| && s[r.value] == c
    ensures r.Some? ==> forall k :: i <= k < r.value ==> s[k] != c
    ensures r.None? ==> forall k :: i <= k < |s| ==> s[k] != c
    decreases |s| - i
  {
    if i >= |s| then None else if s[i] == c then Some(i) else Find(s, c, i + 1)
  }

  /** Where a basic string that is open at i has ended. */
  function SkipBasic(s: string, i: nat): (r: Option<nat>)
    ensures r.Some? ==> i < r.value <= |s|
    decreases |s| - i
  {
    if i >= |s| then None
    else if s[i] == '\\' && i + 1 < |s| then SkipBasic(s, i + 2)
    else if s[i] == '"' then Some(i + 1)
    else SkipBasic(s, i + 1)
  }

  /** The first closing bracket outside quoted parts. */
  function CloseAt(s: string, i: nat): (r: Option<nat>)
    ensures r.Some? ==> i <= r.value < |s|
    decreases |s| - i
  {
    if i >= |s| then None
    else if s[i] == '\'' then
      var end := Find(s, '\'', i + 1);
      if end.None? then None else CloseAt(s, end.value + 1)
    else if s[i] == '"' then
      var end := SkipBasic(s, i + 1);
      if end.None? then None else CloseAt(s, end.value)
    else if s[i] == ']' then Some(i)
    else CloseAt(s, i + 1)
  }

  datatype Header = Header(key: string, comment: string)

  /** Strings are stripped before they are parsed. */
  function ParseStripped(s: string): Option<Header>
  {
    if s == [] || s[0] != '[' then None
    else
      var close := CloseAt(s, 1);
      if close.None? then None else HeaderAt(s, close.value)
  }

  function HeaderAt(s: string, close: nat): Option<Header>
    requires 1 <= close < |s|
  {
    var tail := Strip(s[close + 1..]);
    if tail != [] && tail[0] != '#' then None else Some(Header(s[1..close], tail))
  }

  function ParseHeader(line: string): Option<Header>
  {
    ParseStripped(Strip(line))
  }

  method ParseTableHeader(line: string) returns (r: Option<Header>)
    ensures r == ParseHeader(line)
  {
    var s := Strip(line);
    if s == [] || s[0] != '[' {
      return None;
    }
    var close := FindClose(s);
    if close.None? {
      return None;
    }
    return HeaderAt(s, close.value);
  }

  method FindClose(s: string) returns (r: Option<nat>)
    requires s != []
    ensures r == CloseAt(s, 1)
  {
    var i := 1;
    while i < |s|
      invariant 1 <= i <= |s| && CloseAt(s, i) == CloseAt(s, 1)
      decreases |s| - i
    {
      if s[i] == '\'' {
        var end := Find(s, '\'', i + 1);
        if end.None? {
          return None;
        }
        i := end.value + 1;
      } else if s[i] == '"' {
        var end := SkipBasicString(s, i + 1);
        if end.None? {
          return None;
        }
        i := end.value;
      } else if s[i] == ']' {
        return Some(i);
      } else {
        i := i + 1;
      }
    }
    return None;
  }

  method SkipBasicString(s: string, start: nat) returns (r: Option<nat>)
    requires start <= |s|
    ensures r == SkipBasic(s, start)
  {
    var i := start;
    while i < |s|
      invariant start <= i <= |s| && SkipBasic(s, i) == SkipBasic(s, start)
      decreases |s| - i
    {
      if s[i] == '\\' && i + 1 < |s| {
        i := i + 2;
      } else if s[i] == '"' {
        return Some(i + 1);
      } else {
        i := i + 1;
      }
    }
    return None;
  }

  lemma {:induction false} SkipEncoded(s: string, p: nat, e: string, c: char)
    requires Encodes(e, c) && p + |e| < |s| && s[p..p + |e|] == e
    ensures SkipBasic(s, p) == SkipBasic(s, p + |e|)
  {
    assert s[p] == s[p..p + |e|][0] == e[0];
  }

  lemma {:induction false} SkipEscaped(s: string, p: nat, key: string)
    requires p + |EscapeChars(key)| < |s|
    requires s[p..p + |EscapeChars(key)|] == EscapeChars(key) && s[p + |EscapeChars(key)|] == '"'
    ensures SkipBasic(s, p) == Some(p + |EscapeChars(key)| + 1)
    decreases |key|
  {
    if key != [] {
      EscapeEncodes(key[0]);
      SkipFirst(s, p, EscapeChar(key[0]), key[0], EscapeChars(key[1..]));
      SkipEscaped(s, p + |EscapeChar(key[0])|, key[1..]);
    }
  }

  lemma {:induction false} SkipFirst(s: string, p: nat, e: string, c: char, rest: string)
    requires Encodes(e, c) && p + |e| + |rest| < |s| && s[p..p + |e + rest|] == e + rest
    ensures SkipBasic(s, p) == SkipBasic(s, p + |e|) && s[p + |e|..p + |e| + |rest|] == rest
  {
    var all := e + rest;
    assert s[p..p + |e|] == s[p..p + |all|][..|e|] == e;
    assert s[p + |e|..p + |e| + |rest|] == s[p..p + |all|][|e|..] == rest;
    SkipEncoded(s, p, e, c);
  }

  lemma {:induction false} SkipPlain(s: string, i: nat, j: nat)
    requires i <= j <= |s| && forall k :: i <= k < j ==> s[k] != '\'' && s[k] != '"' && s[k] != ']'
    ensures CloseAt(s, i) == CloseAt(s, j)
    decreases j - i
  {
    if i < j {
      SkipPlain(s, i + 1, j);
    }
  }

  lemma {:induction false} SkipQuoted(s: string, p: nat, key: string)
    requires p + |Quote(key)| < |s| && s[p..p + |Quote(key)|] == Quote(key) && s[p + |Quote(key)|] == ']'
    ensures CloseAt(s, p) == Some(p + |Quote(key)|)
  {
    var q := Quote(key);
    assert forall k :: 0 <= k < |q| ==> s[p + k] == s[p..p + |q|][k] == q[k];
    assert s[p] == q[0];
    if forall i :: 0 <= i < |key| ==> !NeedsBasic(key[i]) {
      forall k | p + 1 <= k < p + 1 + |key| ensures s[k] != '\'' {
        assert s[k] == q[k - p] == key[k - p - 1];
      }
      assert s[p + 1 + |key|] == q[|key| + 1] == '\'';
      assert Find(s, '\'', p + 1) == Some(p + 1 + |key|);
    } else {
      EscapeIsCharwise(key);
      var e := EscapeChars(key);
      assert s[p + 1..p + 1 + |e|] == e by {
        assert forall k :: 0 <= k < |e| ==> s[p + 1 + k] == q[1 + k] == e[k];
      }
      assert s[p + 1 + |e|] == q[|e| + 1] == '"';
      SkipEscaped(s, p + 1, key);
    }
  }

  const PROJECTS := "projects."

  function SectionHeader(key: string): string
  {
    "[" + PROJECTS + Quote(key) + "]"
  }

  lemma {:induction false} HeaderCloses(key: string)
    ensures var s := SectionHeader(key);
      |s| == 11 + |Quote(key)| && s[0] == '[' && s[|s| - 1] == ']' && CloseAt(s, 1) == Some(|s| - 1)
  {
    var s, q := SectionHeader(key), Quote(key);
    assert s[1..10] == PROJECTS;
    forall k | 1 <= k < 10 ensures s[k] != '\'' && s[k] != '"' && s[k] != ']' {
      assert s[k] == PROJECTS[k - 1];
    }
    SkipPlain(s, 1, 10);
    assert s[10..10 + |q|] == q;
    SkipQuoted(s, 10, key);
  }

  lemma {:induction false} ParsesAt(s: string, close: nat)
    requires |s| >= 2 && s[0] == '[' && s[|s| - 1] == ']' && close == |s| - 1 && CloseAt(s, 1) == Some(close)
    ensures Strip(s) == s && ParseHeader(s) == Some(Header(s[1..close], ""))
  {
    assert Strip(s) == s;
    assert s[close + 1..] == [];
    assert HeaderAt(s, close) == Some(Header(s[1..close], ""));
  }

  /** The header written for a key parses back to exactly the quoted key, without a comment. */
  lemma {:induction false} HeaderParsesBack(key: string)
    ensures Strip(SectionHeader(key)) == SectionHeader(key)
    ensures ParseHeader(SectionHeader(key)) == Some(Header(PROJECTS + Quote(key), ""))
  {
    var s := SectionHeader(key);
    HeaderCloses(key);
    ParsesAt(s, |s| - 1);
    assert s[1..|s| - 1] == PROJECTS + Quote(key);
  }

  /** A header whose key is one \U escape. */
  function OversizedHeader(digits: string): string
  {
    "[" + PROJECTS + ("\"\\U" + digits + "\"") + "]"
  }

  lemma {:induction false} SkipBasicPlain(s: string, i: nat, j: nat)
    requires i <= j <= |s| && forall k :: i <= k < j ==> s[k] != '\\' && s[k] != '"'
    ensures SkipBasic(s, i) == SkipBasic(s, j)
    decreases j - i
  {
    if i < j {
      SkipBasicPlain(s, i + 1, j);
    }
  }

  lemma {:induction false} OversizedParses(digits: string)
    requires |digits| == 8 && forall k :: 0 <= k < 8 ==> digits[k] != '\\' && digits[k] != '"'
    ensures var s := OversizedHeader(digits);
      Strip(s) == s && ParseHeader(s) == Some(Header(PROJECTS + ("\"\\U" + digits + "\""), ""))
  {
    var s, q := OversizedHeader(digits), "\"\\U" + digits + "\"";
    assert |s| == 23 && s[0] == '[' && s[22] == ']' && s[10..22] == q && s[1..10] == PROJECTS;
    forall k | 1 <= k < 10 ensures s[k] != '\'' && s[k] != '"' && s[k] != ']' {
      assert s[k] == PROJECTS[k - 1];
    }
    SkipPlain(s, 1, 10);
    forall k | 0 <= k < 12 ensures s[10 + k] == q[k] {
      assert s[10..22][k] == s[10 + k];
    }
    forall k | 13 <= k < 21 ensures s[k] == digits[k - 13] {
      assert s[10 + (k - 10)] == q[k - 10];
    }
    SkipBasicPlain(s, 13, 21);
    assert SkipBasic(s, 11) == SkipBasic(s, 13) == SkipBasic(s, 21) == Some(22);
    assert CloseAt(s, 10) == CloseAt(s, 22) == Some(22);
    ParsesAt(s, 22);
    assert s[1..22] == PROJECTS + q;
  }

  // ------------------------------------------------------------ key = value lines

  datatype Pair = Pair(key: string, value: string)

  function ParsePair(line: string): Option<Pair>
  {
    var s := Strip(line);
    if s == [] || s[0] == '#' || s[0] == '[' then None
    else
      var at := Find(s, '=', 0);
      if at.None? then None else Some(Pair(Strip(s[..at.value]), Strip(s[at.value + 1..])))
  }

  /** Nothing for `strip()` to take off. */
  predicate Tight(s: string)
  {
    s != [] && !IsSpace(s[0]) && !IsSpace(s[|s| - 1])
  }

  lemma {:induction false} StripPadding(s: string)
    requires Tight(s)
    ensures Strip(s + " ") == s && Strip(" " + s) == s
  {
    var after, before := s + " ", " " + s;
    assert after[0] == s[0] && after[|s| - 1] == s[|s| - 1];
    assert SolidTo(after, 0, |after|) == SolidTo(after, 0, |s|) == |s|;
    assert after[0..|s|] == s;
    assert before[1] == s[0] && before[|before| - 1] == s[|s| - 1];
    assert SolidFrom(before, 0) == SolidFrom(before, 1) == 1;
    assert before[1..|before|] == s;
  }

  lemma {:induction false} FindsFirst(s: string, c: char, at: nat)
    requires at < |s| && s[at] == c && forall k :: 0 <= k < at ==> s[k] != c
    ensures Find(s, c, 0) == Some(at)
  {
  }

  lemma {:induction false} SplitsAtEquals(left: string, right: string)
    requires left != [] && !IsSpace(left[0]) && left[0] != '#' && left[0] != '['
    requires right != [] && !IsSpace(right[|right| - 1])
    requires forall i :: 0 <= i < |left| ==> left[i] != '='
    ensures ParsePair(left + "=" + right) == Some(Pair(Strip(left), Strip(right)))
  {
    var s := left + "=" + right;
    assert s[..|left|] == left && s[|left| + 1..] == right;
    FindsFirst(s, '=', |left|);
    assert s[0] == left[0] && s[|s| - 1] == right[|right| - 1];
    assert Strip(s) == s;
  }

  /** The line written for a key and a value: one blank on either side of the equals sign. */
  function PairLine(key: string, value: string): string
  {
    (key + " ") + "=" + (" " + value)
  }

  lemma {:induction false} PairParsesBack(key: string, value: string)
    requires Tight(key) && Tight(value) && key[0] != '#' && key[0] != '['
    requires forall i :: 0 <= i < |key| ==> key[i] != '='
    ensures ParsePair(PairLine(key, value)) == Some(Pair(key, value))
  {
    var left, right := key + " ", " " + value;
    assert left[0] == key[0] && right[|right| - 1] == value[|value| - 1];
    forall i | 0 <= i < |left| ensures left[i] != '=' {
      assert i < |key| ==> left[i] == key[i];
    }
    SplitsAtEquals(left, right);
    StripPadding(key);
    StripPadding(value);
  }
}
