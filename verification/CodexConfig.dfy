/**
The block editor of src/agenttalk/codex_config.py, on the lines of a configuration file. How one
line reads is a parameter here (`Reader`); CodexText fixes it to the TOML reading of the source.
*/
module CodexConfig {
  import opened Wrappers
  import opened TomlText

  datatype Managed = Trust | Approval | Sandbox

  const MANAGED_KEYS: seq<Managed> := [Trust, Approval, Sandbox]

  function Target(k: Managed): string
  {
    match k
    case Trust => "\"trusted\""
    case Approval => "\"never\""
    case Sandbox => "\"workspace-write\""
  }

  /** A table header, of the project's own table or another one; a managed setting; or neither. */
  datatype Line = Table(matches: bool) | Setting(key: Managed, value: string) | Blank | Other

  type Reader = string -> Line

  /** `raises`: reading the line as a table header ends in an exception that nothing catches. */
  datatype Script = Script(read: Reader, raises: string -> bool, header: string, keyLine: Managed -> string)

  /** What the editor writes reads back as what it meant. */
  ghost predicate Faithful(w: Script)
  {
    && w.read(w.header) == Table(true) && w.read("") == Blank && !w.raises(w.header) && !w.raises("")
    && forall k :: w.read(w.keyLine(k)) == Setting(k, Target(k)) && !w.raises(w.keyLine(k))
  }

  /** No line raises. */
  predicate Readable(raises: string -> bool, lines: seq<string>)
  {
    forall i :: 0 <= i < |lines| ==> !raises(lines[i])
  }

  // ------------------------------------------------------------ finding the blocks

  datatype Section = Section(start: nat, end: nat)

  predicate TableAt(read: Reader, lines: seq<string>, i: nat)
    requires i < |lines|
  {
    read(lines[i]).Table?
  }

  predicate MatchAt(read: Reader, lines: seq<string>, i: nat)
    requires i < |lines|
  {
    read(lines[i]) == Table(true)
  }

  function BlockEnd(read: Reader, lines: seq<string>, i: nat): (j: nat)
    requires i <= |lines|
    ensures i <= j <= |lines| && (j < |lines| ==> TableAt(read, lines, j))
    ensures forall k :: i <= k < j ==> !TableAt(read, lines, k)
    decreases |lines| - i
  {
    if i == |lines| || TableAt(read, lines, i) then i else BlockEnd(read, lines, i + 1)
  }

  function SectionsFrom(read: Reader, lines: seq<string>, i: nat): (r: seq<Section>)
    requires i <= |lines|
    decreases |lines| - i
  {
    if i == |lines| then []
    else
      (if MatchAt(read, lines, i) then [Section(i, BlockEnd(read, lines, i + 1))] else [])
      + SectionsFrom(read, lines, i + 1)
  }

  function Sections(read: Reader, lines: seq<string>): seq<Section>
  {
    SectionsFrom(read, lines, 0)
  }

  /** The whole file is searched, so a line that raises ends the search wherever it stands. */
  method FindAllSections(read: Reader, raises: string -> bool, lines: seq<string>) returns (r: Result<seq<Section>, Raised>)
    ensures r == if Readable(raises, lines) then Ok(Sections(read, lines)) else Refused(OverflowError)
  {
    var sections := [];
    for i := 0 to |lines|
      invariant sections + SectionsFrom(read, lines, i) == Sections(read, lines)
      invariant Readable(raises, lines[..i])
    {
      if raises(lines[i]) {
        return Refused(OverflowError);
      }
      assert lines[..i + 1] == lines[..i] + [lines[i]];
      ghost var before := sections;
      ghost var rest := SectionsFrom(read, lines, i + 1);
      if MatchAt(read, lines, i) {
        var j := i + 1;
        while j < |lines| && !TableAt(read, lines, j)
          invariant i + 1 <= j <= |lines| && BlockEnd(read, lines, j) == BlockEnd(read, lines, i + 1)
        {
          j := j + 1;
        }
        assert before + ([Section(i, j)] + rest) == (before + [Section(i, j)]) + rest;
        sections := sections + [Section(i, j)];
      } else {
        assert [] + rest == rest;
      }
    }
    assert sections + [] == sections && lines[..|lines|] == lines;
    return Ok(sections);
  }

  ghost predicate NoMatch(read: Reader, lines: seq<string>)
  {
    forall i :: 0 <= i < |lines| ==> !MatchAt(read, lines, i)
  }

  ghost predicate NoTable(read: Reader, lines: seq<string>)
  {
    forall i :: 0 <= i < |lines| ==> !TableAt(read, lines, i)
  }

  lemma {:induction false} NoMatchSlice(read: Reader, lines: seq<string>, i: nat, j: nat)
    requires i <= j <= |lines| && forall k :: i <= k < j ==> !MatchAt(read, lines, k)
    ensures NoMatch(read, lines[i..j])
  {
    forall k | 0 <= k < j - i ensures !MatchAt(read, lines[i..j], k) {
      assert !MatchAt(read, lines, i + k);
    }
  }

  lemma {:induction false} NoTableSlice(read: Reader, lines: seq<string>, i: nat, j: nat)
    requires i <= j <= |lines| && forall k :: i <= k < j ==> !TableAt(read, lines, k)
    ensures NoTable(read, lines[i..j])
  {
    forall k | 0 <= k < j - i ensures !TableAt(read, lines[i..j], k) {
      assert !TableAt(read, lines, i + k);
    }
  }

  lemma {:induction false} NoMatchTail(read: Reader, lines: seq<string>)
    requires NoMatch(read, lines) && lines != []
    ensures !MatchAt(read, lines, 0) && NoMatch(read, lines[1..])
  {
    NoMatchSlice(read, lines, 1, |lines|);
    assert lines[1..|lines|] == lines[1..];
  }

  lemma {:induction false} NoMatchConcat(read: Reader, a: seq<string>, b: seq<string>)
    requires NoMatch(read, a) && NoMatch(read, b)
    ensures NoMatch(read, a + b)
  {
    forall k | 0 <= k < |a + b| ensures !MatchAt(read, a + b, k) {
      assert if k < |a| then !MatchAt(read, a, k) else !MatchAt(read, b, k - |a|);
    }
  }

  ghost predicate StartsTable(read: Reader, lines: seq<string>)
  {
    lines == [] || TableAt(read, lines, 0)
  }

  /** The lines that belong to no matching block, in order. */
  function Outside(read: Reader, lines: seq<string>, inside: bool): seq<string>
  {
    if lines == [] then []
    else
      var now := if TableAt(read, lines, 0) then read(lines[0]).matches else inside;
      (if now then [] else [lines[0]]) + Outside(read, lines[1..], now)
  }

  lemma {:induction false} OutsideHasNoMatch(read: Reader, lines: seq<string>, inside: bool)
    ensures NoMatch(read, Outside(read, lines, inside))
    ensures StartsTable(read, lines) || inside ==> StartsTable(read, Outside(read, lines, inside))
    decreases |lines|
  {
    if lines != [] {
      var now := if TableAt(read, lines, 0) then read(lines[0]).matches else inside;
      OutsideHasNoMatch(read, lines[1..], now);
      var rest := Outside(read, lines[1..], now);
      if !now {
        assert !MatchAt(read, lines, 0);
        assert NoMatch(read, [lines[0]]) by {
          assert forall k :: 0 <= k < 1 ==> !MatchAt(read, [lines[0]], k);
        }
        NoMatchConcat(read, [lines[0]], rest);
      } else {
        assert [] + rest == rest;
      }
    }
  }

  lemma {:induction false} OutsideOfUnmatched(read: Reader, lines: seq<string>)
    requires NoMatch(read, lines)
    ensures Outside(read, lines, false) == lines
  {
    if lines != [] {
      NoMatchTail(read, lines);
      OutsideOfUnmatched(read, lines[1..]);
      assert lines == [lines[0]] + lines[1..];
    }
  }

  lemma {:induction false} OutsideSkipsPrefix(read: Reader, pre: seq<string>, rest: seq<string>)
    requires NoMatch(read, pre)
    ensures Outside(read, pre + rest, false) == pre + Outside(read, rest, false)
  {
    if pre == [] {
      assert pre + rest == rest;
    } else {
      assert (pre + rest)[1..] == pre[1..] + rest;
      NoMatchTail(read, pre);
      OutsideSkipsPrefix(read, pre[1..], rest);
      assert Outside(read, pre + rest, false) == [pre[0]] + Outside(read, pre[1..] + rest, false);
      assert pre == [pre[0]] + pre[1..];
    }
  }

  lemma {:induction false} OutsideDropsBody(read: Reader, body: seq<string>, rest: seq<string>)
    requires NoTable(read, body) && StartsTable(read, rest)
    ensures Outside(read, body + rest, true) == Outside(read, rest, false)
    decreases |body|
  {
    if body == [] {
      assert body + rest == rest;
    } else {
      assert (body + rest)[1..] == body[1..] + rest;
      assert !TableAt(read, body, 0);
      NoTableSlice(read, body, 1, |body|);
      assert body[1..|body|] == body[1..];
      OutsideDropsBody(read, body[1..], rest);
    }
  }

  // ------------------------------------------------------------ keeping one block

  /** A file split around its first matching block. */
  datatype View = View(pre: seq<string>, header: string, body: seq<string>, post: seq<string>)

  function Flat(v: View): seq<string>
  {
    v.pre + [v.header] + v.body + v.post
  }

  ghost predicate IsView(read: Reader, v: View)
  {
    && NoMatch(read, v.pre) && read(v.header) == Table(true)
    && NoTable(read, v.body) && StartsTable(read, v.post)
  }

  /** ... and no matching block after it. */
  ghost predicate IsSingle(read: Reader, v: View)
  {
    IsView(read, v) && NoMatch(read, v.post)
  }

  function FirstMatch(read: Reader, lines: seq<string>, i: nat): (j: nat)
    requires i <= |lines|
    ensures i <= j <= |lines| && (j < |lines| ==> MatchAt(read, lines, j))
    ensures forall k :: i <= k < j ==> !MatchAt(read, lines, k)
    decreases |lines| - i
  {
    if i == |lines| || MatchAt(read, lines, i) then i else FirstMatch(read, lines, i + 1)
  }

  function ViewOf(read: Reader, lines: seq<string>): (v: Option<View>)
    ensures v.None? ==> NoMatch(read, lines)
    ensures v.Some? ==> IsView(read, v.value) && Flat(v.value) == lines
  {
    var s := FirstMatch(read, lines, 0);
    if s == |lines| then None
    else
      var e := BlockEnd(read, lines, s + 1);
      assert lines[..s] + [lines[s]] + lines[s + 1..e] + lines[e..] == lines;
      assert lines[0..s] == lines[..s];
      NoMatchSlice(read, lines, 0, s);
      NoTableSlice(read, lines, s + 1, e);
      assert e < |lines| ==> TableAt(read, lines, e);
      Some(View(lines[..s], lines[s], lines[s + 1..e], lines[e..]))
  }

  lemma {:induction false} NoFirstMatch(read: Reader, lines: seq<string>, i: nat)
    requires NoMatch(read, lines) && i <= |lines|
    ensures FirstMatch(read, lines, i) == |lines|
    decreases |lines| - i
  {
    if i < |lines| {
      assert !MatchAt(read, lines, i);
      NoFirstMatch(read, lines, i + 1);
    }
  }

  lemma {:induction false} NoMatchNoView(read: Reader, lines: seq<string>)
    requires NoMatch(read, lines)
    ensures ViewOf(read, lines).None? && Collapsed(read, lines) == lines
  {
    NoFirstMatch(read, lines, 0);
  }

  function Collapsed(read: Reader, lines: seq<string>): seq<string>
  {
    var v := ViewOf(read, lines);
    if v.None? then lines else Flat(v.value.(post := Outside(read, v.value.post, false)))
  }

  lemma {:induction false} NoSections(read: Reader, lines: seq<string>, i: nat, j: nat)
    requires i <= j <= |lines| && forall k :: i <= k < j ==> !MatchAt(read, lines, k)
    ensures SectionsFrom(read, lines, i) == SectionsFrom(read, lines, j)
    decreases j - i
  {
    if i < j {
      assert !MatchAt(read, lines, i);
      NoSections(read, lines, i + 1, j);
    }
  }

  lemma {:induction false} BlockEndIs(read: Reader, lines: seq<string>, i: nat, j: nat)
    requires i <= j <= |lines| && (j < |lines| ==> TableAt(read, lines, j))
    requires forall k :: i <= k < j ==> !TableAt(read, lines, k)
    ensures BlockEnd(read, lines, i) == j
    decreases j - i
  {
    if i < j {
      BlockEndIs(read, lines, i + 1, j);
    }
  }

  lemma {:induction false} FlatAt(v: View)
    ensures var l, s, e := Flat(v), |v.pre|, |v.pre| + 1 + |v.body|;
      && |l| == e + |v.post| && l[s] == v.header && l[..s] == v.pre && l[s + 1..e] == v.body && l[e..] == v.post
  {
  }

  lemma {:induction false} FirstMatchIs(read: Reader, lines: seq<string>, i: nat, j: nat)
    requires i <= j < |lines| && MatchAt(read, lines, j) && forall k :: i <= k < j ==> !MatchAt(read, lines, k)
    ensures FirstMatch(read, lines, i) == j
    decreases j - i
  {
    if i < j {
      FirstMatchIs(read, lines, i + 1, j);
    }
  }

  lemma {:induction false} ViewOfFlat(read: Reader, v: View)
    requires IsView(read, v)
    ensures var l, s, e := Flat(v), |v.pre|, |v.pre| + 1 + |v.body|;
      && s + 1 <= e <= |l| && FirstMatch(read, l, 0) == s && BlockEnd(read, l, s + 1) == e
      && ViewOf(read, l) == Some(v)
  {
    var l, s, e := Flat(v), |v.pre|, |v.pre| + 1 + |v.body|;
    FlatAt(v);
    forall k | 0 <= k < s ensures !MatchAt(read, l, k) {
      assert l[k] == v.pre[k] && !MatchAt(read, v.pre, k);
    }
    FirstMatchIs(read, l, 0, s);
    forall k | s + 1 <= k < e ensures !TableAt(read, l, k) {
      assert l[k] == l[s + 1..e][k - s - 1] == v.body[k - s - 1] && !TableAt(read, v.body, k - s - 1);
    }
    assert |v.post| > 0 ==> l[e] == l[e..][0] == v.post[0] && TableAt(read, v.post, 0);
    BlockEndIs(read, l, s + 1, e);
  }

  /** The first section is the view's block. */
  lemma {:induction false} FirstSection(read: Reader, v: View)
    requires IsView(read, v)
    ensures var s, e := |v.pre|, |v.pre| + 1 + |v.body|;
      Sections(read, Flat(v)) == [Section(s, e)] + SectionsFrom(read, Flat(v), e)
  {
    ViewOfFlat(read, v);
    var l := Flat(v);
    assert forall k :: 0 <= k < FirstMatch(read, l, 0) ==> !MatchAt(read, l, k);
    NoSections(read, l, 0, |v.pre|);
    NextSections(read, l, |v.pre|);
  }

  lemma {:induction false} NextSections(read: Reader, lines: seq<string>, i: nat)
    requires i < |lines| && MatchAt(read, lines, i)
    ensures var e := BlockEnd(read, lines, i + 1);
      SectionsFrom(read, lines, i) == [Section(i, e)] + SectionsFrom(read, lines, e)
  {
    var e := BlockEnd(read, lines, i + 1);
    forall k | i + 1 <= k < e ensures !MatchAt(read, lines, k) {
      assert !TableAt(read, lines, k);
    }
    NoSections(read, lines, i + 1, e);
  }

  lemma {:induction false} SingleSection(read: Reader, v: View)
    requires IsSingle(read, v)
    ensures Sections(read, Flat(v)) == [Section(|v.pre|, |v.pre| + 1 + |v.body|)]
  {
    var l, e := Flat(v), |v.pre| + 1 + |v.body|;
    FlatAt(v);
    FirstSection(read, v);
    forall k | e <= k < |l| ensures !MatchAt(read, l, k) {
      assert l[k] == l[e..][k - e] == v.post[k - e] && !MatchAt(read, v.post, k - e);
    }
    NoSections(read, l, e, |l|);
  }

  lemma {:induction false} SingleCollapsed(read: Reader, v: View)
    requires IsSingle(read, v)
    ensures ViewOf(read, Flat(v)) == Some(v) && Collapsed(read, Flat(v)) == Flat(v)
    ensures Outside(read, Flat(v), false) == v.pre + v.post
  {
    ViewOfFlat(read, v);
    OutsideOfUnmatched(read, v.post);
    assert v.(post := Outside(read, v.post, false)) == v;
    OutsideOfView(read, v);
  }

  lemma {:induction false} OutsideOfView(read: Reader, v: View)
    requires IsView(read, v)
    ensures Outside(read, Flat(v), false) == v.pre + Outside(read, v.post, false)
  {
    var rest := [v.header] + (v.body + v.post);
    assert Flat(v) == v.pre + rest;
    OutsideSkipsPrefix(read, v.pre, rest);
    assert rest[1..] == v.body + v.post;
    OutsideDropsBody(read, v.body, v.post);
  }

  /** Collapsing leaves at most one matching block, the first, and every line outside such blocks. */
  lemma {:induction false} CollapseKeepsOutside(read: Reader, lines: seq<string>)
    ensures var after := ViewOf(read, Collapsed(read, lines));
      && after.Some? == ViewOf(read, lines).Some?
      && (after.Some? ==> IsSingle(read, after.value) && after.value.body == ViewOf(read, lines).value.body)
      && Outside(read, Collapsed(read, lines), false) == Outside(read, lines, false)
  {
    var before := ViewOf(read, lines);
    if before.Some? {
      var v := before.value;
      var kept := v.(post := Outside(read, v.post, false));
      OutsideHasNoMatch(read, v.post, false);
      SingleCollapsed(read, kept);
      OutsideOfView(read, v);
    }
  }

  /** What is left once the blocks from position p on are deleted. */
  function CutFrom(read: Reader, lines: seq<string>, p: nat): seq<string>
    requires p <= |lines|
  {
    lines[..p] + Outside(read, lines[p..], false)
  }

  lemma {:induction false} OutsideOfBlock(read: Reader, lines: seq<string>, s: nat)
    requires s < |lines| && MatchAt(read, lines, s)
    ensures Outside(read, lines[s..], false) == Outside(read, lines[BlockEnd(read, lines, s + 1)..], false)
  {
    var e := BlockEnd(read, lines, s + 1);
    var rest, body, tail := lines[s..], lines[s + 1..e], lines[e..];
    NoTableSlice(read, lines, s + 1, e);
    assert e < |lines| ==> TableAt(read, lines, e) && tail[0] == lines[e];
    assert rest[0] == lines[s] && rest[1..] == body + tail;
    OutsideDropsBody(read, body, tail);
  }

  lemma {:induction false} OutsideFrom(read: Reader, lines: seq<string>, p: nat, s: nat)
    requires p <= s < |lines| && (forall k :: p <= k < s ==> !MatchAt(read, lines, k)) && MatchAt(read, lines, s)
    ensures Outside(read, lines[p..], false)
         == lines[p..s] + Outside(read, lines[BlockEnd(read, lines, s + 1)..], false)
  {
    assert lines[p..] == lines[p..s] + lines[s..];
    NoMatchSlice(read, lines, p, s);
    OutsideSkipsPrefix(read, lines[p..s], lines[s..]);
    OutsideOfBlock(read, lines, s);
  }

  lemma {:induction false} CutOneMore(read: Reader, lines: seq<string>, p: nat, s: nat, e: nat)
    requires p <= s < e <= |lines| && (forall k :: p <= k < s ==> !MatchAt(read, lines, k))
    requires MatchAt(read, lines, s) && e == BlockEnd(read, lines, s + 1)
    ensures CutFrom(read, lines, e)[..s] + CutFrom(read, lines, e)[e..] == CutFrom(read, lines, p)
  {
    OutsideFrom(read, lines, p, s);
    Resplice(lines, Outside(read, lines[e..], false), p, s, e);
  }

  lemma {:induction false} Resplice<T>(lines: seq<T>, kept: seq<T>, p: nat, s: nat, e: nat)
    requires p <= s < e <= |lines|
    ensures (lines[..e] + kept)[..s] + (lines[..e] + kept)[e..] == lines[..p] + (lines[p..s] + kept)
  {
  }

  /** Where the search for section n starts. */
  function SearchFrom(sections: seq<Section>, i: nat, n: nat): nat
    requires n <= |sections|
  {
    if n == 0 then i else sections[n - 1].end
  }

  /** The next block at or after a position. */
  ghost predicate IsNext(read: Reader, lines: seq<string>, from: nat, next: Section)
  {
    && from <= next.start < next.end <= |lines|
    && MatchAt(read, lines, next.start) && next.end == BlockEnd(read, lines, next.start + 1)
    && forall k :: from <= k < next.start ==> !MatchAt(read, lines, k)
  }

  lemma {:induction false} NextEarlier(read: Reader, lines: seq<string>, from: nat, next: Section)
    requires from < |lines| && !MatchAt(read, lines, from) && IsNext(read, lines, from + 1, next)
    ensures IsNext(read, lines, from, next)
  {
  }

  lemma {:induction false} SectionAt(read: Reader, lines: seq<string>, i: nat, n: nat)
    requires i <= |lines| && n < |SectionsFrom(read, lines, i)|
    ensures var all := SectionsFrom(read, lines, i); IsNext(read, lines, SearchFrom(all, i, n), all[n])
    decreases |lines| - i
  {
    var all := SectionsFrom(read, lines, i);
    if MatchAt(read, lines, i) {
      NextSections(read, lines, i);
      if n > 0 {
        var e := BlockEnd(read, lines, i + 1);
        var rest := SectionsFrom(read, lines, e);
        assert all[n] == rest[n - 1] && SearchFrom(all, i, n) == SearchFrom(rest, e, n - 1);
        SectionAt(read, lines, e, n - 1);
      }
    } else {
      assert all == SectionsFrom(read, lines, i + 1);
      SectionAt(read, lines, i + 1, n);
      if n == 0 {
        NextEarlier(read, lines, i, all[0]);
      }
    }
  }

  lemma {:induction false} CutAfterLast(read: Reader, lines: seq<string>, i: nat)
    requires i <= |lines|
    ensures var all := SectionsFrom(read, lines, i);
      SearchFrom(all, i, |all|) <= |lines| && CutFrom(read, lines, SearchFrom(all, i, |all|)) == lines
    decreases |lines| - i
  {
    var all := SectionsFrom(read, lines, i);
    if all == [] {
      NoSectionsConverse(read, lines, i);
      OutsideOfUnmatched(read, lines[i..]);
      assert lines[..i] + lines[i..] == lines;
    } else if MatchAt(read, lines, i) {
      var e := BlockEnd(read, lines, i + 1);
      NextSections(read, lines, i);
      CutAfterLast(read, lines, e);
      var rest := SectionsFrom(read, lines, e);
      assert SearchFrom(all, i, |all|) == SearchFrom(rest, e, |rest|);
    } else {
      CutAfterLast(read, lines, i + 1);
      assert SearchFrom(all, i, |all|) == SearchFrom(all, i + 1, |all|);
    }
  }

  lemma {:induction false} NoSectionsConverse(read: Reader, lines: seq<string>, i: nat)
    requires i <= |lines| && SectionsFrom(read, lines, i) == []
    ensures NoMatch(read, lines[i..])
    decreases |lines| - i
  {
    if i < |lines| {
      NoSectionsConverse(read, lines, i + 1);
      forall k | 0 <= k < |lines[i..]| ensures !MatchAt(read, lines[i..], k) {
        assert !MatchAt(read, lines, i);
        assert k > 0 ==> !MatchAt(read, lines[i + 1..], k - 1) && lines[i..][k] == lines[i + 1..][k - 1];
      }
    }
  }

  /** Deleting from last to first keeps earlier positions valid. */
  method CollapseDuplicates(read: Reader, raises: string -> bool, lines: seq<string>)
    returns (result: Result<(seq<string>, nat), Raised>)
    ensures result.Ok? <==> Readable(raises, lines)
    ensures result.Ok? ==> result.value.0 == Collapsed(read, lines)
    ensures result.Ok? ==>
      result.value.1 == if |Sections(read, lines)| == 0 then 0 else |Sections(read, lines)| - 1
  {
    var found := FindAllSections(read, raises, lines);
    if found.Refused? {
      return Refused(found.error);
    }
    var sections, r := found.value, lines;
    CutAfterLast(read, lines, 0);
    if |sections| == 0 {
      CollapseIsCut(read, lines);
      return Ok((r, 0));
    }
    var n := |sections|;
    while n > 1
      invariant 1 <= n <= |sections|
      invariant sections[n - 1].end <= |lines| && r == CutFrom(read, lines, sections[n - 1].end)
    {
      n := n - 1;
      SectionAt(read, lines, 0, n);
      SectionAt(read, lines, 0, n - 1);
      CutOneMore(read, lines, sections[n - 1].end, sections[n].start, sections[n].end);
      r := r[..sections[n].start] + r[sections[n].end..];
    }
    CollapseIsCut(read, lines);
    return Ok((r, |sections| - 1));
  }

  lemma {:induction false} CollapseIsCut(read: Reader, lines: seq<string>)
    ensures var all := Sections(read, lines);
      if all == [] then Collapsed(read, lines) == lines
      else all[0].end <= |lines| && Collapsed(read, lines) == CutFrom(read, lines, all[0].end)
  {
    var view := ViewOf(read, lines);
    if view.Some? {
      ViewOfFlat(read, view.value);
      FirstSection(read, view.value);
      FlatAt(view.value);
    } else {
      NoSections(read, lines, 0, |lines|);
    }
  }
}
