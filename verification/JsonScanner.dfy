/**
The byte scanner in front of registry decoding (src/agenttalk/acceptance_registry.py, `decode`).
It bounds nesting and node count before a tree is built, so it has to agree with the tree the
text denotes, whatever the layout.
*/
module JsonScanner {

  type Byte = b: int | 0 <= b < 256

  const MAX_INPUT_BYTES: nat := 1024 * 1024
  const MAX_DEPTH: nat := 24
  const MAX_NODES: nat := 8192

  const QUOTE: Byte := 34
  const BACKSLASH: Byte := 92
  const OPEN_LIST: Byte := 91
  const CLOSE_LIST: Byte := 93
  const OPEN_OBJECT: Byte := 123
  const CLOSE_OBJECT: Byte := 125
  const COMMA: Byte := 44
  const COLON: Byte := 58

  predicate IsLayout(b: Byte)
  {
    b == 32 || b == 9 || b == 13 || b == 10
  }

  /** A byte of a number or of `true`, `false`, `null`: anything without a structural meaning. */
  predicate IsPlain(b: Byte)
  {
    && !IsLayout(b) && b != QUOTE && b != COMMA && b != COLON
    && b != OPEN_LIST && b != CLOSE_LIST && b != OPEN_OBJECT && b != CLOSE_OBJECT
  }

  // ------------------------------------------------------------ the scanner

  /** `deepest` is the largest depth reached so far; the source only compares it with its limit. */
  datatype Scan = Scan(depth: int, nodes: nat, atom: bool, quoted: bool, escaped: bool, deepest: int)

  const START := Scan(0, 0, false, false, false, 0)

  function Step(s: Scan, b: Byte): Scan
  {
    if s.quoted then
      if s.escaped then s.(escaped := false)
      else if b == BACKSLASH then s.(escaped := true)
      else if b == QUOTE then s.(quoted := false)
      else s
    else if b == QUOTE then s.(quoted := true, atom := false, nodes := s.nodes + 1)
    else if b == OPEN_LIST || b == OPEN_OBJECT then
      s.(atom := false, nodes := s.nodes + 1, depth := s.depth + 1, deepest := Max(s.deepest, s.depth + 1))
    else if b == CLOSE_LIST || b == CLOSE_OBJECT then s.(atom := false, depth := s.depth - 1)
    else if IsLayout(b) || b == COMMA || b == COLON then s.(atom := false)
    else if !s.atom then s.(atom := true, nodes := s.nodes + 1)
    else s
  }

  function Max(a: int, b: int): int
  {
    if a < b then b else a
  }

  function Run(s: Scan, data: seq<Byte>): Scan
    decreases |data|
  {
    if data == [] then s else Run(Step(s, data[0]), data[1..])
  }

  predicate WithinLimits(s: Scan)
  {
    s.deepest <= MAX_DEPTH && s.nodes <= MAX_NODES
  }

  lemma {:induction false} RunConcat(s: Scan, first: seq<Byte>, second: seq<Byte>)
    ensures Run(s, first + second) == Run(Run(s, first), second)
    decreases |first|
  {
    if first == [] {
      assert first + second == second;
    } else {
      assert (first + second)[1..] == first[1..] + second;
      RunConcat(Step(s, first[0]), first[1..], second);
    }
  }

  /** A limit once passed stays passed, so stopping early changes nothing. */
  lemma {:induction false} RunGrows(s: Scan, data: seq<Byte>)
    ensures Run(s, data).nodes >= s.nodes && Run(s, data).deepest >= s.deepest
    decreases |data|
  {
    if data != [] {
      RunGrows(Step(s, data[0]), data[1..]);
    }
  }

  method Accepts(data: seq<Byte>) returns (ok: bool)
    ensures ok <==> |data| <= MAX_INPUT_BYTES && WithinLimits(Run(START, data))
  {
    if |data| > MAX_INPUT_BYTES {
      return false;
    }
    var depth: int, nodes: nat, atom, quoted, escaped := 0, 0, false, false, false;
    ghost var deepest := 0;
    for i := 0 to |data|
      invariant Run(START, data[..i]) == Scan(depth, nodes, atom, quoted, escaped, deepest)
      invariant deepest <= MAX_DEPTH && nodes <= MAX_NODES
    {
      var byte := data[i];
      assert data[..i + 1] == data[..i] + [byte];
      RunConcat(START, data[..i], [byte]);
      assert data == data[..i + 1] + data[i + 1..];
      RunConcat(START, data[..i + 1], data[i + 1..]);
      RunGrows(Run(START, data[..i + 1]), data[i + 1..]);
      if quoted {
        if escaped {
          escaped := false;
        } else if byte == BACKSLASH {
          escaped := true;
        } else if byte == QUOTE {
          quoted := false;
        }
      } else if byte == QUOTE {
        quoted, atom, nodes := true, false, nodes + 1;
      } else if byte == OPEN_LIST || byte == OPEN_OBJECT {
        atom, nodes, depth := false, nodes + 1, depth + 1;
        deepest := Max(deepest, depth);
        if depth > MAX_DEPTH {
          return false;
        }
      } else if byte == CLOSE_LIST || byte == CLOSE_OBJECT {
        atom, depth := false, depth - 1;
      } else if IsLayout(byte) || byte == COMMA || byte == COLON {
        atom := false;
      } else if !atom {
        atom, nodes := true, nodes + 1;
      }
      if nodes > MAX_NODES {
        return false;
      }
    }
    assert data[..|data|] == data;
    return true;
  }

  // ------------------------------------------------------------ JSON texts

  /**
  A JSON value with the layout of one of its texts (sections 2 to 7 of RFC 8259): a string keeps
  the bytes between its quotes, every blank run sits where the grammar allows one.
  */
  datatype Value =
    | Atom(text: seq<Byte>)
    | String(body: seq<Byte>)
    | List(gap: seq<Byte>, items: Items)
    | Object(gap: seq<Byte>, members: Members)

  datatype Items = NoItems | Item(before: seq<Byte>, value: Value, after: seq<Byte>, rest: Items)

  datatype Members =
    | NoMembers
    | Member(before: seq<Byte>, key: seq<Byte>, afterKey: seq<Byte>, gap: seq<Byte>, value: Value, after: seq<Byte>, rest: Members)

  predicate Layout(bs: seq<Byte>)
  {
    forall i :: 0 <= i < |bs| ==> IsLayout(bs[i])
  }

  predicate Plain(bs: seq<Byte>)
  {
    forall i :: 0 <= i < |bs| ==> IsPlain(bs[i])
  }

  /** No bare quote, and no backslash without the byte it escapes. */
  predicate StringBody(bs: seq<Byte>)
  {
    if bs == [] then true
    else if bs[0] == BACKSLASH then |bs| >= 2 && StringBody(bs[2..])
    else bs[0] != QUOTE && StringBody(bs[1..])
  }

  predicate WellFormed(v: Value)
  {
    match v
    case Atom(text) => text != [] && Plain(text)
    case String(body) => StringBody(body)
    case List(gap, items) => Layout(gap) && WellFormedItems(items)
    case Object(gap, members) => Layout(gap) && WellFormedMembers(members)
  }

  predicate WellFormedItems(items: Items)
  {
    match items
    case NoItems => true
    case Item(before, value, after, rest) => Layout(before) && WellFormed(value) && Layout(after) && WellFormedItems(rest)
  }

  predicate WellFormedMembers(members: Members)
  {
    match members
    case NoMembers => true
    case Member(before, key, afterKey, gap, value, after, rest) =>
      && Layout(before) && StringBody(key) && Layout(afterKey) && Layout(gap)
      && WellFormed(value) && Layout(after) && WellFormedMembers(rest)
  }

  function Text(v: Value): seq<Byte>
  {
    match v
    case Atom(text) => text
    case String(body) => Quoted(body)
    case List(gap, items) => [OPEN_LIST] + gap + TextOfItems(items, []) + [CLOSE_LIST]
    case Object(gap, members) => [OPEN_OBJECT] + gap + TextOfMembers(members, []) + [CLOSE_OBJECT]
  }

  function Quoted(body: seq<Byte>): seq<Byte>
  {
    [QUOTE] + body + [QUOTE]
  }

  function TextOfItems(items: Items, separator: seq<Byte>): seq<Byte>
  {
    match items
    case NoItems => []
    case Item(before, value, after, rest) => separator + before + Text(value) + after + TextOfItems(rest, [COMMA])
  }

  function TextOfMembers(members: Members, separator: seq<Byte>): seq<Byte>
  {
    match members
    case NoMembers => []
    case Member(before, key, afterKey, gap, value, after, rest) =>
      separator + before + Quoted(key) + afterKey + [COLON] + gap + Text(value) + after + TextOfMembers(rest, [COMMA])
  }

  /** How many containers enclose the innermost point. */
  function Depth(v: Value): nat
  {
    match v
    case Atom(_) => 0
    case String(_) => 0
    case List(_, items) => 1 + DepthOfItems(items)
    case Object(_, members) => 1 + DepthOfMembers(members)
  }

  function DepthOfItems(items: Items): nat
  {
    match items
    case NoItems => 0
    case Item(_, value, _, rest) => Max(Depth(value), DepthOfItems(rest))
  }

  function DepthOfMembers(members: Members): nat
  {
    match members
    case NoMembers => 0
    case Member(_, _, _, _, value, _, rest) => Max(Depth(value), DepthOfMembers(rest))
  }

  /** Containers, strings (keys too) and atoms. */
  function Nodes(v: Value): nat
  {
    match v
    case Atom(_) => 1
    case String(_) => 1
    case List(_, items) => 1 + NodesOfItems(items)
    case Object(_, members) => 1 + NodesOfMembers(members)
  }

  function NodesOfItems(items: Items): nat
  {
    match items
    case NoItems => 0
    case Item(_, value, _, rest) => Nodes(value) + NodesOfItems(rest)
  }

  function NodesOfMembers(members: Members): nat
  {
    match members
    case NoMembers => 0
    case Member(_, _, _, _, value, _, rest) => 1 + Nodes(value) + NodesOfMembers(rest)
  }

  // ------------------------------------------------------------ scanner and tree agree

  /** Between tokens, with the peak at least the current depth. */
  predicate AtRest(s: Scan)
  {
    !s.quoted && !s.escaped && s.depth <= s.deepest
  }

  /** The scan after a part of the given size, with `atom` telling whether its last byte was plain. */
  function Counted(s: Scan, nodes: nat, depth: nat, atom: bool): Scan
  {
    s.(nodes := s.nodes + nodes, deepest := Max(s.deepest, s.depth + depth), atom := atom)
  }

  lemma {:induction false} ScanLayout(s: Scan, bs: seq<Byte>)
    requires AtRest(s) && Layout(bs)
    ensures Run(s, bs) == s.(atom := s.atom && bs == [])
    decreases |bs|
  {
    if bs != [] {
      ScanLayout(Step(s, bs[0]), bs[1..]);
    }
  }

  lemma {:induction false} ScanPlain(s: Scan, bs: seq<Byte>)
    requires AtRest(s) && Plain(bs) && s.atom
    ensures Run(s, bs) == s
  {
    if bs != [] {
      ScanPlain(s, bs[1..]);
    }
  }

  lemma {:induction false} ScanAtom(s: Scan, text: seq<Byte>)
    requires AtRest(s) && Plain(text) && text != [] && !s.atom
    ensures Run(s, text) == Counted(s, 1, 0, true)
  {
    ScanPlain(Step(s, text[0]), text[1..]);
  }

  lemma {:induction false} ScanBody(s: Scan, body: seq<Byte>)
    requires s.quoted && !s.escaped && StringBody(body)
    ensures Run(s, body) == s
  {
    if body != [] {
      if body[0] == BACKSLASH {
        assert body[1..][1..] == body[2..];
        ScanBody(s, body[2..]);
      } else {
        ScanBody(s, body[1..]);
      }
    }
  }

  lemma {:induction false} RunOne(s: Scan, b: Byte)
    ensures Run(s, [b]) == Step(s, b)
  {
  }

  lemma {:induction false} ScanString(s: Scan, body: seq<Byte>)
    requires AtRest(s) && StringBody(body)
    ensures Run(s, Quoted(body)) == Counted(s, 1, 0, false)
  {
    RunConcat(s, [QUOTE] + body, [QUOTE]);
    RunConcat(s, [QUOTE], body);
    ScanBody(Step(s, QUOTE), body);
  }

  lemma {:induction false} ScanElement(s: Scan, head: seq<Byte>, value: Value, after: seq<Byte>, nodes: nat)
    requires AtRest(s) && Run(s, head) == Counted(s, nodes, 0, false) && WellFormed(value) && Layout(after)
    ensures var end := Run(s, head + Text(value) + after);
      end == Counted(s, nodes + Nodes(value), Depth(value), end.atom)
    decreases value, 1
  {
    RunConcat(s, head, Text(value));
    ScanValue(Run(s, head), value);
    RunConcat(s, head + Text(value), after);
    ScanLayout(Run(s, head + Text(value)), after);
  }

  lemma {:induction false} ScanItems(s: Scan, items: Items, separator: seq<Byte>)
    requires AtRest(s) && WellFormedItems(items) && (separator == [COMMA] || (separator == [] && !s.atom))
    ensures var after := Run(s, TextOfItems(items, separator));
      after == Counted(s, NodesOfItems(items), DepthOfItems(items), after.atom)
    decreases items, 0
  {
    match items
    case NoItems =>
    case Item(before, value, after, rest) =>
      RunConcat(s, separator, before);
      ScanLayout(Run(s, separator), before);
      var head := separator + before;
      ScanElement(s, head, value, after, 0);
      var s3 := Run(s, head + Text(value) + after);
      RunConcat(s, head + Text(value) + after, TextOfItems(rest, [COMMA]));
      ScanItems(s3, rest, [COMMA]);
  }

  lemma {:induction false} ScanMembers(s: Scan, members: Members, separator: seq<Byte>)
    requires AtRest(s) && WellFormedMembers(members) && (separator == [COMMA] || (separator == [] && !s.atom))
    ensures var after := Run(s, TextOfMembers(members, separator));
      after == Counted(s, NodesOfMembers(members), DepthOfMembers(members), after.atom)
    decreases members, 0
  {
    match members
    case NoMembers =>
    case Member(before, key, afterKey, gap, value, after, rest) =>
      ScanKey(s, separator, before, key, afterKey, gap);
      var head := separator + before + Quoted(key) + afterKey + [COLON] + gap;
      ScanElement(s, head, value, after, 1);
      var s3 := Run(s, head + Text(value) + after);
      RunConcat(s, head + Text(value) + after, TextOfMembers(rest, [COMMA]));
      ScanMembers(s3, rest, [COMMA]);
  }

  lemma {:induction false} ScanKey(
    s: Scan, separator: seq<Byte>, before: seq<Byte>, key: seq<Byte>, afterKey: seq<Byte>, gap: seq<Byte>)
    requires AtRest(s) && (separator == [COMMA] || (separator == [] && !s.atom))
    requires Layout(before) && StringBody(key) && Layout(afterKey) && Layout(gap)
    ensures Run(s, separator + before + Quoted(key) + afterKey + [COLON] + gap) == Counted(s, 1, 0, false)
  {
    var s1 := s.(atom := false);
    var s2 := Counted(s, 1, 0, false);
    RunConcat(s, separator, before);
    ScanLayout(Run(s, separator), before);
    RunConcat(s, separator + before, Quoted(key));
    ScanString(s1, key);
    RunConcat(s, separator + before + Quoted(key), afterKey);
    ScanLayout(s2, afterKey);
    RunConcat(s, separator + before + Quoted(key) + afterKey, [COLON]);
    RunOne(s2, COLON);
    RunConcat(s, separator + before + Quoted(key) + afterKey + [COLON], gap);
    ScanLayout(s2, gap);
  }

  lemma {:induction false} ScanContainer(s: Scan, open: Byte, gap: seq<Byte>, inner: seq<Byte>, close: Byte, nodes: nat, depth: nat)
    requires AtRest(s) && Layout(gap)
    requires open == OPEN_LIST || open == OPEN_OBJECT
    requires close == CLOSE_LIST || close == CLOSE_OBJECT
    requires var s1 := Step(s, open); var s2 := Run(s1, inner); s2 == Counted(s1, nodes, depth, s2.atom)
    ensures Run(s, [open] + gap + inner + [close]) == Counted(s, 1 + nodes, 1 + depth, false)
  {
    var s1 := Step(s, open);
    RunOne(s, open);
    RunConcat(s, [open], gap);
    ScanLayout(s1, gap);
    RunConcat(s, [open] + gap, inner);
    RunConcat(s, [open] + gap + inner, [close]);
    RunOne(Run(s1, inner), close);
  }

  /** Scanning a value's text adds its nodes and reaches its depth, from wherever it starts. */
  lemma {:induction false} ScanValue(s: Scan, v: Value)
    requires AtRest(s) && WellFormed(v) && !s.atom
    ensures Run(s, Text(v)) == Counted(s, Nodes(v), Depth(v), v.Atom?)
    decreases v, 0
  {
    match v
    case Atom(text) => ScanAtom(s, text);
    case String(body) => ScanString(s, body);
    case List(gap, items) =>
      ScanItems(Step(s, OPEN_LIST), items, []);
      ScanContainer(s, OPEN_LIST, gap, TextOfItems(items, []), CLOSE_LIST, NodesOfItems(items), DepthOfItems(items));
    case Object(gap, members) =>
      ScanMembers(Step(s, OPEN_OBJECT), members, []);
      ScanContainer(s, OPEN_OBJECT, gap, TextOfMembers(members, []), CLOSE_OBJECT, NodesOfMembers(members), DepthOfMembers(members));
  }

  /** On every layout of every value the scanner refuses exactly the trees over its limits. */
  lemma {:induction false} ScannerAgreesWithTree(before: seq<Byte>, v: Value, after: seq<Byte>)
    requires Layout(before) && WellFormed(v) && Layout(after)
    ensures var end := Run(START, before + Text(v) + after);
      && end.deepest == Depth(v) && end.nodes == Nodes(v) && end.depth == 0 && !end.quoted
      && (WithinLimits(end) <==> Depth(v) <= MAX_DEPTH && Nodes(v) <= MAX_NODES)
  {
    ScanLayout(START, before);
    RunConcat(START, before, Text(v));
    ScanValue(START, v);
    RunConcat(START, before + Text(v), after);
    ScanLayout(Run(START, Text(v)), after);
  }
}
