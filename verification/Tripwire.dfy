/**
The client-reference tripwire (scripts/client_reference_tripwire.py): hashed n-grams of denylisted
strings, the word-aligned scan for them, and the merging of overlapping hits.
*/
module Tripwire {
  import opened StableSort

  type Digest = string

  /** `hash` and `lower` are any functions, on whole strings; `isWord` is `str.isalnum`. */
  datatype Alphabet = Alphabet(lower: string -> string, isWord: char -> bool, hash: string -> Digest)

  /** Lower-casing keeps the length, and lower-casing twice is lower-casing once; it may look at the context. */
  ghost predicate Steady(a: Alphabet)
  {
    forall s :: |a.lower(s)| == |s| && a.lower(a.lower(s)) == a.lower(s)
  }

  function HashToken(a: Alphabet, token: string): Digest
  {
    a.hash(a.lower(token))
  }

  // ------------------------------------------------------------ the denylist

  datatype Config = Config(minNgram: nat, maxNgram: nat, hashes: set<Digest>)

  function Min(a: nat, b: nat): nat
  {
    if a < b then a else b
  }

  /** Substrings of the listed lengths; a string below the floor stands only for itself. */
  predicate IsNgram(s: string, start: nat, length: nat, least: nat, most: nat)
  {
    Min(least, |s|) <= length <= Min(most, |s|) && start + length <= |s|
  }

  /** The n-grams that are shorter than the given length, or as long and start earlier. */
  predicate Before(start: nat, length: nat, l: nat, s: nat)
  {
    length < l || (length == l && start < s)
  }

  ghost predicate HasNgrams(a: Alphabet, s: string, least: nat, most: nat, hashes: set<Digest>, l: nat, st: nat)
  {
    forall start: nat, length: nat :: IsNgram(s, start, length, least, most) && Before(start, length, l, st) ==>
      HashToken(a, s[start..start + length]) in hashes
  }

  ghost predicate FromNgram(a: Alphabet, s: string, least: nat, most: nat, h: Digest)
  {
    exists start: nat, length: nat ::
      IsNgram(s, start, length, least, most) && h == HashToken(a, s[start..start + length])
  }

  method AddNgrams(a: Alphabet, token: string, least: nat, most: nat, before: set<Digest>) returns (hashes: set<Digest>)
    ensures before <= hashes
    ensures forall start: nat, length: nat :: IsNgram(token, start, length, least, most) ==>
      HashToken(a, token[start..start + length]) in hashes
    ensures forall h :: h in hashes ==> h in before || FromNgram(a, token, least, most, h)
  {
    hashes := before;
    var n := |token|;
    var lo, hi := Min(least, n), Min(most, n);
    var length := lo;
    while length <= hi
      invariant lo <= length && before <= hashes
      invariant HasNgrams(a, token, least, most, hashes, length, 0)
      invariant forall h :: h in hashes ==> h in before || FromNgram(a, token, least, most, h)
      decreases hi + 1 - length
    {
      for start := 0 to n - length + 1
        invariant before <= hashes
        invariant HasNgrams(a, token, least, most, hashes, length, start)
        invariant forall h :: h in hashes ==> h in before || FromNgram(a, token, least, most, h)
      {
        var h := HashToken(a, token[start..start + length]);
        assert IsNgram(token, start, length, least, most) && FromNgram(a, token, least, most, h);
        hashes := hashes + {h};
      }
      length := length + 1;
    }
  }

  function Longest(strings: seq<string>, default: nat): (m: nat)
    ensures m >= default && forall i :: 0 <= i < |strings| ==> |strings[i]| <= m
    ensures m == default || exists i :: 0 <= i < |strings| && |strings[i]| == m
    decreases |strings|
  {
    if strings == [] then default
    else
      var rest := Longest(strings[1..], default);
      assert forall i :: 1 <= i < |strings| ==> strings[i] == strings[1..][i - 1];
      if |strings[0]| > rest then |strings[0]| else rest
  }

  ghost predicate Lists(a: Alphabet, strings: seq<string>, n: nat, config: Config, hashes: set<Digest>)
    requires n <= |strings|
  {
    forall i, start: nat, length: nat :: 0 <= i < n && IsNgram(strings[i], start, length, config.minNgram, config.maxNgram) ==>
      HashToken(a, strings[i][start..start + length]) in hashes
  }

  ghost predicate FromList(a: Alphabet, strings: seq<string>, n: nat, config: Config, h: Digest)
    requires n <= |strings|
  {
    exists i :: 0 <= i < n && FromNgram(a, strings[i], config.minNgram, config.maxNgram, h)
  }

  method BuildDenylist(a: Alphabet, strings: seq<string>, minNgram: nat) returns (config: Config)
    ensures config.minNgram == minNgram && config.maxNgram == Longest(strings, minNgram)
    ensures Lists(a, strings, |strings|, config, config.hashes)
    ensures forall h :: h in config.hashes ==> FromList(a, strings, |strings|, config, h)
  {
    var most := Longest(strings, minNgram);
    config := Config(minNgram, most, {});
    for i := 0 to |strings|
      invariant config.minNgram == minNgram && config.maxNgram == most
      invariant Lists(a, strings, i, config, config.hashes)
      invariant forall h :: h in config.hashes ==> FromList(a, strings, i, config, h)
    {
      var hashes := AddNgrams(a, strings[i], minNgram, most, config.hashes);
      config := config.(hashes := hashes);
    }
  }

  // ------------------------------------------------------------ the scan

  datatype Hit = Hit(line: nat, column: nat, length: nat, offset: nat)

  predicate Aligned(a: Alphabet, lower: string, start: nat, length: nat)
    requires start + length <= |lower|
  {
    && (start > 0 ==> !a.isWord(lower[start - 1]))
    && (start + length < |lower| ==> !a.isWord(lower[start + length]))
  }

  predicate Matches(a: Alphabet, lower: string, config: Config, start: nat, length: nat)
  {
    && config.minNgram <= length <= config.maxNgram && start + length <= |lower|
    && Aligned(a, lower, start, length) && HashToken(a, lower[start..start + length]) in config.hashes
  }

  function Newlines(text: string, offset: nat): nat
    requires offset <= |text|
  {
    if offset == 0 then 0 else Newlines(text, offset - 1) + if text[offset - 1] == '\n' then 1 else 0
  }

  /** Where the line of an offset begins. */
  function LineStart(text: string, offset: nat): (s: nat)
    requires offset <= |text|
    ensures s <= offset && (s == 0 || text[s - 1] == '\n') && forall k :: s <= k < offset ==> text[k] != '\n'
  {
    if offset == 0 || text[offset - 1] == '\n' then offset else LineStart(text, offset - 1)
  }

  /** Line and column are one-based and name the place in the text. */
  predicate Located(text: string, h: Hit)
  {
    h.offset <= |text| && h.line == Newlines(text, h.offset) + 1 && h.column == h.offset - LineStart(text, h.offset) + 1
  }

  /** `starts` are the offsets at which the lines of the first n characters begin. */
  ghost predicate LineStarts(text: string, n: nat, starts: seq<nat>)
    requires n <= |text|
  {
    && |starts| == Newlines(text, n) + 1
    && (forall i, j :: 0 <= i < j < |starts| ==> starts[i] < starts[j])
    && (forall o: nat :: o <= n ==> Newlines(text, o) < |starts| && starts[Newlines(text, o)] == LineStart(text, o))
    && (forall i :: 0 <= i < |starts| ==> starts[i] <= n)
  }

  lemma {:induction false} NewlinesGrow(text: string, a: nat, b: nat)
    requires a <= b <= |text|
    ensures Newlines(text, a) <= Newlines(text, b)
    decreases b
  {
    if a < b {
      NewlinesGrow(text, a, b - 1);
    }
  }

  method FindLineStarts(text: string) returns (starts: seq<nat>)
    ensures LineStarts(text, |text|, starts)
  {
    starts := [0];
    for i := 0 to |text|
      invariant LineStarts(text, i, starts)
    {
      forall o: nat | o <= i ensures Newlines(text, o) <= Newlines(text, i) {
        NewlinesGrow(text, o, i);
      }
      if text[i] == '\n' {
        starts := starts + [i + 1];
      }
    }
  }

  /** The number of entries not above the offset: `bisect_right` on an ascending list. */
  function CountUpTo(starts: seq<nat>, offset: nat): (n: nat)
    ensures n <= |starts|
  {
    if starts == [] then 0 else if starts[|starts| - 1] <= offset then |starts| else CountUpTo(starts[..|starts| - 1], offset)
  }

  lemma {:induction false} CountFinds(starts: seq<nat>, offset: nat, i: nat)
    requires i < |starts| && starts[i] <= offset && (i + 1 < |starts| ==> offset < starts[i + 1])
    requires forall j, k :: 0 <= j < k < |starts| ==> starts[j] < starts[k]
    ensures CountUpTo(starts, offset) == i + 1
    decreases |starts|
  {
    if i + 1 < |starts| {
      assert starts[|starts| - 1] >= starts[i + 1];
      CountFinds(starts[..|starts| - 1], offset, i);
    }
  }

  lemma {:induction false} NextStartIsLater(text: string, starts: seq<nat>, offset: nat)
    requires offset <= |text| && LineStarts(text, |text|, starts)
    ensures var i := Newlines(text, offset); i < |starts| && (i + 1 < |starts| ==> offset < starts[i + 1])
  {
    var i := Newlines(text, offset);
    if i + 1 < |starts| {
      var next := starts[i + 1];
      if next <= offset {
        StartOf(text, |text|, starts, i + 1);
        NewlinesGrow(text, next, offset);
      }
    }
  }

  lemma {:induction false} StartOf(text: string, n: nat, starts: seq<nat>, i: nat)
    requires n <= |text| && LineStarts(text, n, starts) && i < |starts|
    ensures Newlines(text, starts[i]) == i
    decreases n
  {
    var o := starts[i];
    assert starts[Newlines(text, o)] == LineStart(text, o) <= o;
    Reached(text, n, i);
    var p: nat :| p <= n && Newlines(text, p) == i;
    assert starts[i] == LineStart(text, p);
    SameLine(text, p);
  }

  lemma {:induction false} Reached(text: string, n: nat, i: nat)
    requires n <= |text| && i <= Newlines(text, n)
    ensures exists p: nat :: p <= n && Newlines(text, p) == i
  {
    if i != Newlines(text, n) {
      Reached(text, n - 1, i);
    }
  }

  lemma {:induction false} SameLine(text: string, p: nat)
    requires p <= |text|
    ensures Newlines(text, LineStart(text, p)) == Newlines(text, p)
  {
    if p > 0 && text[p - 1] != '\n' {
      SameLine(text, p - 1);
    }
  }

  method LineAndColumn(text: string, starts: seq<nat>, offset: nat) returns (line: nat, column: nat)
    requires offset <= |text| && LineStarts(text, |text|, starts)
    ensures line == Newlines(text, offset) + 1 && column == offset - LineStart(text, offset) + 1
  {
    NextStartIsLater(text, starts, offset);
    CountFinds(starts, offset, Newlines(text, offset));
    var index := CountUpTo(starts, offset) - 1;
    return index + 1, offset - starts[index] + 1;
  }

  ghost predicate HasHit(hits: seq<Hit>, start: nat, length: nat)
  {
    exists i :: 0 <= i < |hits| && hits[i].offset == start && hits[i].length == length
  }

  ghost predicate Scanned(a: Alphabet, lower: string, config: Config, hits: seq<Hit>, l: nat, s: nat)
  {
    forall start: nat, length: nat :: Matches(a, lower, config, start, length) && Before(start, length, l, s) ==>
      HasHit(hits, start, length)
  }

  ghost predicate Genuine(a: Alphabet, text: string, config: Config, h: Hit)
  {
    Matches(a, a.lower(text), config, h.offset, h.length) && Located(text, h)
  }

  lemma {:induction false} ScanOne(a: Alphabet, lower: string, config: Config, hits: seq<Hit>, h: Hit, more: bool)
    requires Scanned(a, lower, config, hits, h.length, h.offset)
    requires more == Matches(a, lower, config, h.offset, h.length)
    ensures Scanned(a, lower, config, if more then hits + [h] else hits, h.length, h.offset + 1)
  {
    var after := if more then hits + [h] else hits;
    forall start: nat, length: nat | Matches(a, lower, config, start, length) && Before(start, length, h.length, h.offset + 1)
      ensures HasHit(after, start, length)
    {
      if Before(start, length, h.length, h.offset) {
        var i :| 0 <= i < |hits| && hits[i].offset == start && hits[i].length == length;
        assert after[i] == hits[i];
      } else {
        assert after[|hits|] == h;
      }
    }
  }

  /** The hits are exactly the word-aligned places whose hash is listed, each located in the text. */
  method FindHits(a: Alphabet, text: string, config: Config) returns (hits: seq<Hit>)
    requires config.minNgram >= 1 && |a.lower(text)| == |text|
    ensures forall start: nat, length: nat :: Matches(a, a.lower(text), config, start, length) ==> HasHit(hits, start, length)
    ensures forall i :: 0 <= i < |hits| ==> Genuine(a, text, config, hits[i])
  {
    hits := [];
    var lower := a.lower(text);
    var n := |lower|;
    var starts := FindLineStarts(text);
    var length := config.minNgram;
    while length <= config.maxNgram
      invariant config.minNgram <= length && Scanned(a, lower, config, hits, length, 0)
      invariant forall i :: 0 <= i < |hits| ==> Genuine(a, text, config, hits[i])
      decreases config.maxNgram + 1 - length
    {
      if length <= n {
        for start := 0 to n - length + 1
          invariant Scanned(a, lower, config, hits, length, start)
          invariant forall i :: 0 <= i < |hits| ==> Genuine(a, text, config, hits[i])
        {
          var line, column := LineAndColumn(text, starts, start);
          var hit := Hit(line, column, length, start);
          var found := Aligned(a, lower, start, length) && HashToken(a, lower[start..start + length]) in config.hashes;
          ScanOne(a, lower, config, hits, hit, found);
          if found {
            hits := hits + [hit];
          }
        }
      }
      length := length + 1;
    }
  }

  // ------------------------------------------------------------ what is found

  /** The string stands in the text, in whatever case, with no word character right before or after it. */
  predicate Occurs(a: Alphabet, text: string, s: string, p: nat)
  {
    && p + |s| <= |text| == |a.lower(text)| && a.lower(text[p..p + |s|]) == a.lower(s)
    && Aligned(a, a.lower(text), p, |s|)
  }

  /** Some string of the denylist has an n-gram that lower-cases to this. */
  ghost predicate Listed(a: Alphabet, strings: seq<string>, config: Config, lowered: string)
  {
    exists i, start: nat, length: nat ::
      0 <= i < |strings| && IsNgram(strings[i], start, length, config.minNgram, config.maxNgram)
      && a.lower(strings[i][start..start + length]) == lowered
  }

  /** A word-aligned place in the lowered text whose lower-casing, once more, is that of a listed n-gram. */
  ghost predicate Found(a: Alphabet, strings: seq<string>, config: Config, text: string, p: nat, n: nat)
  {
    && config.minNgram <= n <= config.maxNgram && p + n <= |a.lower(text)| && Aligned(a, a.lower(text), p, n)
    && Listed(a, strings, config, a.lower(a.lower(text)[p..p + n]))
  }

  /** The hits are the ones of `FindHits`. */
  ghost predicate AreHits(a: Alphabet, text: string, config: Config, hits: seq<Hit>)
  {
    && (forall start: nat, length: nat :: Matches(a, a.lower(text), config, start, length) ==> HasHit(hits, start, length))
    && forall i :: 0 <= i < |hits| ==> Genuine(a, text, config, hits[i])
  }

  /** The configuration is the one of `BuildDenylist`. */
  ghost predicate IsDenylist(a: Alphabet, strings: seq<string>, config: Config)
  {
    && config.maxNgram == Longest(strings, config.minNgram)
    && Lists(a, strings, |strings|, config, config.hashes)
    && forall h :: h in config.hashes ==> FromList(a, strings, |strings|, config, h)
  }

  ghost predicate InjectiveHash(a: Alphabet)
  {
    forall x, y :: a.hash(x) == a.hash(y) ==> x == y
  }

  /** Whatever the hash, what is found is a hit. */
  lemma {:induction false} FoundIsHit(
    a: Alphabet, strings: seq<string>, config: Config, text: string, hits: seq<Hit>, p: nat, n: nat)
    requires IsDenylist(a, strings, config) && AreHits(a, text, config, hits) && Found(a, strings, config, text, p, n)
    ensures HasHit(hits, p, n)
  {
    var lowered := a.lower(a.lower(text)[p..p + n]);
    var i, start: nat, length: nat :|
      0 <= i < |strings| && IsNgram(strings[i], start, length, config.minNgram, config.maxNgram)
      && a.lower(strings[i][start..start + length]) == lowered;
    assert HashToken(a, strings[i][start..start + length]) in config.hashes;
    assert Matches(a, a.lower(text), config, p, n);
  }

  lemma {:induction false} HashedIsListed(a: Alphabet, strings: seq<string>, config: Config, token: string)
    requires InjectiveHash(a) && HashToken(a, token) in config.hashes
    requires forall h :: h in config.hashes ==> FromList(a, strings, |strings|, config, h)
    ensures Listed(a, strings, config, a.lower(token))
  {
    var h := HashToken(a, token);
    assert FromList(a, strings, |strings|, config, h);
    var i :| 0 <= i < |strings| && FromNgram(a, strings[i], config.minNgram, config.maxNgram, h);
    var start: nat, length: nat :|
      IsNgram(strings[i], start, length, config.minNgram, config.maxNgram)
      && h == HashToken(a, strings[i][start..start + length]);
    assert a.lower(strings[i][start..start + length]) == a.lower(token);
  }

  /** With a hash that tells texts apart, a place is hit if and only if it is found. */
  lemma {:induction false} HitExactly(
    a: Alphabet, strings: seq<string>, config: Config, text: string, hits: seq<Hit>, p: nat, n: nat)
    requires InjectiveHash(a) && IsDenylist(a, strings, config) && AreHits(a, text, config, hits)
    ensures HasHit(hits, p, n) <==> Found(a, strings, config, text, p, n)
  {
    if HasHit(hits, p, n) {
      var k :| 0 <= k < |hits| && hits[k].offset == p && hits[k].length == n;
      assert Genuine(a, text, config, hits[k]);
      HashedIsListed(a, strings, config, a.lower(text)[p..p + n]);
    }
    if Found(a, strings, config, text, p, n) {
      FoundIsHit(a, strings, config, text, hits, p, n);
    }
  }

  /** So an occurrence of a listed string is a hit if and only if its place in the lowered text still reads as an n-gram. */
  lemma {:induction false} OccurrenceIsHitExactly(
    a: Alphabet, strings: seq<string>, config: Config, text: string, hits: seq<Hit>, i: nat, p: nat)
    requires InjectiveHash(a) && IsDenylist(a, strings, config) && AreHits(a, text, config, hits)
    requires i < |strings| && |strings[i]| >= config.minNgram && Occurs(a, text, strings[i], p)
    ensures var n := |strings[i]|;
      HasHit(hits, p, n) <==> Listed(a, strings, config, a.lower(a.lower(text)[p..p + n]))
  {
    HitExactly(a, strings, config, text, hits, p, |strings[i]|);
  }

  /** A place with no word character right before or right after it. */
  predicate StandsAlone(a: Alphabet, lower: string, p: nat, n: nat)
  {
    p + n <= |lower| && (p == 0 || !a.isWord(lower[p - 1])) && (p + n == |lower| || !a.isWord(lower[p + n]))
  }

  predicate IsPart(a: Alphabet, s: string, start: nat, n: nat, lowered: string)
  {
    start + n <= |s| && a.lower(s[start..start + n]) == lowered
  }

  /** Some listed string has a part of this length that lower-cases to this. */
  ghost predicate IsFragment(a: Alphabet, strings: seq<string>, n: nat, lowered: string)
  {
    exists i, start: nat :: 0 <= i < |strings| && IsPart(a, strings[i], start, n, lowered)
  }

  /** At least as long as the floor, standing alone, and lowered once more it reads as part of a listed string. */
  ghost predicate IsMarked(a: Alphabet, strings: seq<string>, floor: nat, text: string, p: nat, n: nat)
  {
    floor <= n && StandsAlone(a, a.lower(text), p, n) && IsFragment(a, strings, n, a.lower(a.lower(text)[p..p + n]))
  }

  lemma {:induction false} ListedIsFragment(a: Alphabet, strings: seq<string>, config: Config, lowered: string)
    requires Steady(a) && Listed(a, strings, config, lowered)
    ensures IsFragment(a, strings, |lowered|, lowered)
  {
    var i, start: nat, length: nat :|
      0 <= i < |strings| && IsNgram(strings[i], start, length, config.minNgram, config.maxNgram)
      && a.lower(strings[i][start..start + length]) == lowered;
    assert |a.lower(strings[i][start..start + length])| == length;
    assert IsPart(a, strings[i], start, |lowered|, lowered);
  }

  lemma {:induction false} FragmentIsListed(a: Alphabet, strings: seq<string>, config: Config, n: nat, lowered: string)
    requires config.maxNgram == Longest(strings, config.minNgram) && config.minNgram <= n
    requires IsFragment(a, strings, n, lowered)
    ensures Listed(a, strings, config, lowered) && n <= config.maxNgram
  {
    var i, start: nat :| 0 <= i < |strings| && IsPart(a, strings[i], start, n, lowered);
    assert IsNgram(strings[i], start, n, config.minNgram, config.maxNgram);
  }

  /** What is found is what is marked; the lengths of the denylist leave nothing out. */
  lemma {:induction false} FoundExactly(a: Alphabet, strings: seq<string>, config: Config, text: string, p: nat, n: nat)
    requires Steady(a) && config.maxNgram == Longest(strings, config.minNgram)
    ensures Found(a, strings, config, text, p, n) <==> IsMarked(a, strings, config.minNgram, text, p, n)
  {
    var low := a.lower(text);
    if p + n <= |low| {
      var lowered := a.lower(low[p..p + n]);
      assert |lowered| == |low[p..p + n]| == n;
      if Found(a, strings, config, text, p, n) {
        ListedIsFragment(a, strings, config, lowered);
      }
      if IsMarked(a, strings, config.minNgram, text, p, n) {
        FragmentIsListed(a, strings, config, n, lowered);
      }
    }
  }

  /** The place reads in the lowered text as it does when lowered alone. */
  predicate InPlace(a: Alphabet, text: string, p: nat, n: nat)
  {
    p + n <= |text| == |a.lower(text)| && a.lower(text)[p..p + n] == a.lower(text[p..p + n])
  }

  lemma {:induction false} InPlaceIsFound(
    a: Alphabet, strings: seq<string>, config: Config, text: string, i: nat, p: nat)
    requires Steady(a) && config.maxNgram == Longest(strings, config.minNgram)
    requires i < |strings| && |strings[i]| >= config.minNgram
    requires Occurs(a, text, strings[i], p) && InPlace(a, text, p, |strings[i]|)
    ensures Found(a, strings, config, text, p, |strings[i]|)
  {
    var s := strings[i];
    assert IsNgram(s, 0, |s|, config.minNgram, config.maxNgram);
    assert s[0..0 + |s|] == s;
    assert a.lower(a.lower(text)[p..p + |s|]) == a.lower(s);
  }

  /** Whatever the hash, no denylisted string of at least the floor length is missed where it reads as it does alone. */
  lemma {:induction false} NothingIsMissed(
    a: Alphabet, strings: seq<string>, config: Config, text: string, hits: seq<Hit>, i: nat, p: nat)
    requires Steady(a) && IsDenylist(a, strings, config) && AreHits(a, text, config, hits)
    requires i < |strings| && |strings[i]| >= config.minNgram
    requires Occurs(a, text, strings[i], p) && InPlace(a, text, p, |strings[i]|)
    ensures HasHit(hits, p, |strings[i]|)
  {
    InPlaceIsFound(a, strings, config, text, i, p);
    FoundIsHit(a, strings, config, text, hits, p, |strings[i]|);
  }

  /** On strings of such characters lower-casing does not look at the context. */
  ghost predicate ContextFree(a: Alphabet, plain: char -> bool, one: char -> char)
  {
    forall s :: AllPlain(s, plain) ==> |a.lower(s)| == |s| && forall i :: 0 <= i < |s| ==> a.lower(s)[i] == one(s[i])
  }

  predicate AllPlain(s: string, plain: char -> bool)
  {
    forall i :: 0 <= i < |s| ==> plain(s[i])
  }

  /** In a text of such characters every place reads as it does alone, so nothing is missed in it. */
  lemma {:induction false} PlainTextIsInPlace(a: Alphabet, plain: char -> bool, one: char -> char, text: string, p: nat, n: nat)
    requires ContextFree(a, plain, one) && AllPlain(text, plain) && p + n <= |text|
    ensures InPlace(a, text, p, n)
  {
    var slice := text[p..p + n];
    assert AllPlain(slice, plain);
    assert a.lower(text)[p..p + n] == a.lower(slice);
  }

  // ------------------------------------------------------------ merging

  ghost predicate Covers(hits: seq<Hit>, position: nat)
  {
    exists i :: 0 <= i < |hits| && Spans(hits[i], position)
  }

  predicate Spans(h: Hit, position: nat)
  {
    h.offset <= position < h.offset + h.length
  }

  predicate Inside(h: Hit, outer: Hit)
  {
    outer.offset <= h.offset && h.offset + h.length <= outer.offset + outer.length
  }

  ghost predicate Disjoint(hits: seq<Hit>)
  {
    forall i, j :: 0 <= i < j < |hits| ==> hits[i].offset + hits[i].length <= hits[j].offset
  }

  function ByOffset(): Key<Hit>
  {
    (h: Hit) => [h.offset as int]
  }

  predicate SamePlace(a: Hit, b: Hit)
  {
    a.offset == b.offset && a.line == b.line && a.column == b.column
  }

  ghost predicate WithinSome(h: Hit, merged: seq<Hit>)
  {
    exists i :: 0 <= i < |merged| && Inside(h, merged[i])
  }

  ghost predicate BegunBySome(m: Hit, hits: seq<Hit>)
  {
    exists j :: 0 <= j < |hits| && SamePlace(hits[j], m)
  }

  ghost predicate SameCover(merged: seq<Hit>, hits: seq<Hit>)
  {
    forall position: nat :: Covers(merged, position) <==> Covers(hits, position)
  }

  ghost predicate WithinAt(hits: seq<Hit>, j: nat, merged: seq<Hit>)
    requires j < |hits|
  {
    WithinSome(hits[j], merged)
  }

  ghost predicate BegunAt(merged: seq<Hit>, i: nat, hits: seq<Hit>)
    requires i < |merged|
  {
    BegunBySome(merged[i], hits)
  }

  ghost predicate AllWithin(hits: seq<Hit>, merged: seq<Hit>)
  {
    forall j :: 0 <= j < |hits| ==> WithinAt(hits, j, merged)
  }

  ghost predicate AllBegun(merged: seq<Hit>, hits: seq<Hit>)
  {
    forall i :: 0 <= i < |merged| ==> BegunAt(merged, i, hits)
  }

  lemma {:induction false} CoversAppend(hits: seq<Hit>, h: Hit, position: nat)
    ensures Covers(hits + [h], position) <==> Covers(hits, position) || Spans(h, position)
  {
    var all := hits + [h];
    if Covers(hits, position) {
      var i :| 0 <= i < |hits| && Spans(hits[i], position);
      assert all[i] == hits[i];
    }
    if Spans(h, position) {
      assert all[|hits|] == h;
    }
    if Covers(all, position) {
      var i :| 0 <= i < |all| && Spans(all[i], position);
      assert i < |hits| ==> all[i] == hits[i];
    }
  }

  lemma {:induction false} WithinAppend(h: Hit, merged: seq<Hit>, m: Hit)
    ensures WithinSome(h, merged + [m]) <==> WithinSome(h, merged) || Inside(h, m)
  {
    var all := merged + [m];
    if WithinSome(h, merged) {
      var i :| 0 <= i < |merged| && Inside(h, merged[i]);
      assert all[i] == merged[i];
    }
    if Inside(h, m) {
      assert all[|merged|] == m;
    }
    if WithinSome(h, all) {
      var i :| 0 <= i < |all| && Inside(h, all[i]);
      assert i < |merged| ==> all[i] == merged[i];
    }
  }

  lemma {:induction false} BegunAppend(m: Hit, hits: seq<Hit>, h: Hit)
    ensures BegunBySome(m, hits) || SamePlace(h, m) ==> BegunBySome(m, hits + [h])
  {
    var all := hits + [h];
    if BegunBySome(m, hits) {
      var j :| 0 <= j < |hits| && SamePlace(hits[j], m);
      assert SamePlace(all[j], m);
    } else if SamePlace(h, m) {
      assert SamePlace(all[|hits|], m);
    }
  }

  function Widened(prior: Hit, h: Hit): Hit
  {
    var end := if prior.offset + prior.length > h.offset + h.length then prior.offset + prior.length else h.offset + h.length;
    prior.(length := end - prior.offset)
  }

  /** Merged hits are where the raw ones were, and every raw hit is inside one of them. */
  ghost predicate Merges(hits: seq<Hit>, merged: seq<Hit>)
  {
    && Disjoint(merged) && SameCover(merged, hits) && AllWithin(hits, merged) && AllBegun(merged, hits)
    && (hits == [] <==> merged == [])
    && (hits != [] && merged != [] ==> merged[|merged| - 1].offset <= hits[|hits| - 1].offset)
  }

  lemma {:induction false} WideCover(hits: seq<Hit>, front: seq<Hit>, last: Hit, h: Hit)
    requires SameCover(front + [last], hits) && last.offset <= h.offset < last.offset + last.length
    ensures SameCover(front + [Widened(last, h)], hits + [h])
  {
    forall position: nat ensures Covers(front + [Widened(last, h)], position) <==> Covers(hits + [h], position) {
      CoversAppend(front, last, position);
      CoversAppend(front, Widened(last, h), position);
      CoversAppend(hits, h, position);
    }
  }

  lemma {:induction false} WideWithin(hits: seq<Hit>, front: seq<Hit>, last: Hit, h: Hit)
    requires AllWithin(hits, front + [last]) && last.offset <= h.offset
    ensures AllWithin(hits + [h], front + [Widened(last, h)])
  {
    var all, wide := hits + [h], Widened(last, h);
    forall j | 0 <= j < |all| ensures WithinAt(all, j, front + [wide]) {
      WithinAppend(all[j], front, last);
      WithinAppend(all[j], front, wide);
      assert j < |hits| ==> all[j] == hits[j] && WithinAt(hits, j, front + [last]);
    }
  }

  lemma {:induction false} WideBegun(hits: seq<Hit>, front: seq<Hit>, last: Hit, h: Hit)
    requires AllBegun(front + [last], hits) && last.offset <= h.offset
    ensures AllBegun(front + [Widened(last, h)], hits + [h])
  {
    var wide := Widened(last, h);
    forall i | 0 <= i < |front + [wide]| ensures BegunAt(front + [wide], i, hits + [h]) {
      assert BegunAt(front + [last], i, hits);
      var j :| 0 <= j < |hits| && SamePlace(hits[j], (front + [last])[i]);
      assert SamePlace(hits[j], (front + [wide])[i]);
      BegunAppend((front + [wide])[i], hits, h);
    }
  }

  lemma {:induction false} WideDisjoint(front: seq<Hit>, last: Hit, wide: Hit)
    requires Disjoint(front + [last]) && wide.offset == last.offset
    ensures Disjoint(front + [wide])
  {
    var before, after := front + [last], front + [wide];
    forall i, j | 0 <= i < j < |after| ensures after[i].offset + after[i].length <= after[j].offset {
      assert before[i].offset + before[i].length <= before[j].offset;
    }
  }

  lemma {:induction false} MergeOverlapping(hits: seq<Hit>, front: seq<Hit>, last: Hit, h: Hit)
    requires Merges(hits, front + [last]) && last.offset <= h.offset < last.offset + last.length
    ensures Merges(hits + [h], front + [Widened(last, h)])
  {
    WideCover(hits, front, last, h);
    WideWithin(hits, front, last, h);
    WideBegun(hits, front, last, h);
    WideDisjoint(front, last, Widened(last, h));
  }

  lemma {:induction false} ApartDisjoint(merged: seq<Hit>, h: Hit)
    requires Disjoint(merged)
    requires merged != [] ==> merged[|merged| - 1].offset + merged[|merged| - 1].length <= h.offset
    ensures Disjoint(merged + [h])
  {
    var after := merged + [h];
    forall i, j | 0 <= i < j < |after| ensures after[i].offset + after[i].length <= after[j].offset {
      if j < |merged| {
        assert merged[i].offset + merged[i].length <= merged[j].offset;
      } else if i < |merged| - 1 {
        assert merged[i].offset + merged[i].length <= merged[|merged| - 1].offset;
      }
    }
  }

  lemma {:induction false} ApartWithin(hits: seq<Hit>, merged: seq<Hit>, h: Hit)
    requires AllWithin(hits, merged)
    ensures AllWithin(hits + [h], merged + [h])
  {
    var all := hits + [h];
    forall j | 0 <= j < |all| ensures WithinAt(all, j, merged + [h]) {
      WithinAppend(all[j], merged, h);
      assert j < |hits| ==> all[j] == hits[j] && WithinAt(hits, j, merged);
    }
  }

  lemma {:induction false} ApartBegun(hits: seq<Hit>, merged: seq<Hit>, h: Hit)
    requires AllBegun(merged, hits)
    ensures AllBegun(merged + [h], hits + [h])
  {
    var all := merged + [h];
    forall i | 0 <= i < |all| ensures BegunAt(all, i, hits + [h]) {
      BegunAppend(all[i], hits, h);
      assert i < |merged| ==> all[i] == merged[i] && BegunAt(merged, i, hits);
    }
  }

  lemma {:induction false} ApartCover(hits: seq<Hit>, merged: seq<Hit>, h: Hit)
    requires SameCover(merged, hits)
    ensures SameCover(merged + [h], hits + [h])
  {
    forall position: nat ensures Covers(merged + [h], position) <==> Covers(hits + [h], position) {
      CoversAppend(merged, h, position);
      CoversAppend(hits, h, position);
    }
  }

  lemma {:induction false} MergeApart(hits: seq<Hit>, merged: seq<Hit>, h: Hit)
    requires Merges(hits, merged)
    requires merged != [] ==> merged[|merged| - 1].offset + merged[|merged| - 1].length <= h.offset
    ensures Merges(hits + [h], merged + [h])
  {
    ApartDisjoint(merged, h);
    ApartWithin(hits, merged, h);
    ApartBegun(hits, merged, h);
    ApartCover(hits, merged, h);
  }

  predicate Overlaps(merged: seq<Hit>, h: Hit)
  {
    merged != [] && h.offset < merged[|merged| - 1].offset + merged[|merged| - 1].length
  }

  /** An overlapping hit widens the last span, any other starts a new one. */
  function MergeStep(merged: seq<Hit>, h: Hit): seq<Hit>
  {
    if Overlaps(merged, h) then merged[..|merged| - 1] + [Widened(merged[|merged| - 1], h)] else merged + [h]
  }

  lemma {:induction false} MergeOne(hits: seq<Hit>, merged: seq<Hit>, h: Hit)
    requires Merges(hits, merged) && (hits != [] ==> hits[|hits| - 1].offset <= h.offset)
    ensures merged != [] ==> merged[|merged| - 1].offset <= h.offset
    ensures Merges(hits + [h], MergeStep(merged, h))
  {
    if Overlaps(merged, h) {
      var front, last := merged[..|merged| - 1], merged[|merged| - 1];
      assert merged == front + [last];
      MergeOverlapping(hits, front, last, h);
    } else {
      MergeApart(hits, merged, h);
    }
  }

  lemma {:induction false} NothingMerged()
    ensures Merges([], [])
  {
    forall position: nat ensures !Covers([], position) {
    }
  }

  lemma {:induction false} OffsetsAscend(ordered: seq<Hit>, n: nat)
    requires Sorted(ordered, ByOffset()) && n < |ordered|
    ensures ordered[..n] != [] ==> ordered[..n][|ordered[..n]| - 1].offset <= ordered[n].offset
  {
    if n > 0 {
      assert Le(ByOffset()(ordered[n - 1]), ByOffset()(ordered[n]));
    }
  }

  function MergedOf(ordered: seq<Hit>, n: nat): seq<Hit>
    requires n <= |ordered|
  {
    if n == 0 then [] else MergeStep(MergedOf(ordered, n - 1), ordered[n - 1])
  }

  lemma {:induction false} MergeNext(ordered: seq<Hit>, n: nat, merged: seq<Hit>)
    requires n < |ordered| && Merges(ordered[..n], merged)
    requires ordered[..n] != [] ==> ordered[..n][|ordered[..n]| - 1].offset <= ordered[n].offset
    ensures Merges(ordered[..n + 1], MergeStep(merged, ordered[n]))
  {
    MergeOne(ordered[..n], merged, ordered[n]);
    assert ordered[..n + 1] == ordered[..n] + [ordered[n]];
  }

  lemma {:induction false} MergedOfMerges(ordered: seq<Hit>, n: nat)
    requires Sorted(ordered, ByOffset()) && n <= |ordered|
    ensures Merges(ordered[..n], MergedOf(ordered, n))
  {
    if n == 0 {
      NothingMerged();
    } else {
      MergedOfMerges(ordered, n - 1);
      OffsetsAscend(ordered, n - 1);
      MergeNext(ordered, n - 1, MergedOf(ordered, n - 1));
    }
  }

  method MergeOrdered(ordered: seq<Hit>) returns (merged: seq<Hit>)
    ensures merged == MergedOf(ordered, |ordered|)
  {
    merged := [];
    for n := 0 to |ordered|
      invariant merged == MergedOf(ordered, n)
    {
      var h := ordered[n];
      if merged != [] && h.offset < merged[|merged| - 1].offset + merged[|merged| - 1].length {
        var prior := merged[|merged| - 1];
        var end := if prior.offset + prior.length > h.offset + h.length then prior.offset + prior.length else h.offset + h.length;
        merged := merged[|merged| - 1 := Hit(prior.line, prior.column, end - prior.offset, prior.offset)];
      } else {
        merged := merged + [h];
      }
    }
  }

  lemma {:induction false} CoversIgnoresOrder(a: seq<Hit>, b: seq<Hit>, position: nat)
    requires multiset(a) == multiset(b) && Covers(a, position)
    ensures Covers(b, position)
  {
    var i :| 0 <= i < |a| && Spans(a[i], position);
    SameMembers(a, b, a[i]);
    var j :| 0 <= j < |b| && b[j] == a[i];
    assert Spans(b[j], position);
  }

  /** Merged spans are in order and disjoint, cover the same positions, and each raw hit lies in one of them. */
  ghost predicate IsReport(hits: seq<Hit>, merged: seq<Hit>)
  {
    && Disjoint(merged) && SameCover(merged, hits)
    && (forall h :: h in hits ==> WithinSome(h, merged)) && (forall m :: m in merged ==> BegunBySome(m, hits))
  }

  lemma {:induction false} SomeIgnoreOrder(hits: seq<Hit>, ordered: seq<Hit>, merged: seq<Hit>, x: Hit)
    requires multiset(ordered) == multiset(hits)
    ensures x in hits && AllWithin(ordered, merged) ==> WithinSome(x, merged)
    ensures x in merged && AllBegun(merged, ordered) ==> BegunBySome(x, hits)
  {
    if x in hits && AllWithin(ordered, merged) {
      SameMembers(hits, ordered, x);
      var j :| 0 <= j < |ordered| && ordered[j] == x;
      assert WithinAt(ordered, j, merged);
    }
    if x in merged && AllBegun(merged, ordered) {
      var i :| 0 <= i < |merged| && merged[i] == x;
      assert BegunAt(merged, i, ordered);
      var j :| 0 <= j < |ordered| && SamePlace(ordered[j], x);
      SameMembers(ordered, hits, ordered[j]);
      var k :| 0 <= k < |hits| && hits[k] == ordered[j];
      assert SamePlace(hits[k], x);
    }
  }

  lemma {:induction false} CoverIgnoresOrder(hits: seq<Hit>, ordered: seq<Hit>, merged: seq<Hit>)
    requires multiset(ordered) == multiset(hits) && SameCover(merged, ordered)
    ensures SameCover(merged, hits)
  {
    forall position: nat ensures Covers(merged, position) <==> Covers(hits, position) {
      if Covers(hits, position) {
        CoversIgnoresOrder(hits, ordered, position);
      }
      if Covers(ordered, position) {
        CoversIgnoresOrder(ordered, hits, position);
      }
    }
  }

  lemma {:induction false} ReportIgnoresOrder(hits: seq<Hit>, ordered: seq<Hit>, merged: seq<Hit>)
    requires multiset(ordered) == multiset(hits) && Merges(ordered, merged)
    ensures IsReport(hits, merged)
  {
    CoverIgnoresOrder(hits, ordered, merged);
    forall h | h in hits ensures WithinSome(h, merged) {
      SomeIgnoreOrder(hits, ordered, merged, h);
    }
    forall m | m in merged ensures BegunBySome(m, hits) {
      SomeIgnoreOrder(hits, ordered, merged, m);
    }
  }

  method DedupeOverlapping(hits: seq<Hit>) returns (merged: seq<Hit>)
    ensures IsReport(hits, merged)
  {
    var ordered := SortBy(hits, ByOffset());
    SortSorts(hits, ByOffset());
    merged := MergeOrdered(ordered);
    MergedOfMerges(ordered, |ordered|);
    assert ordered[..|ordered|] == ordered;
    ReportIgnoresOrder(hits, ordered, merged);
  }

  lemma {:induction false} HitIsReported(hits: seq<Hit>, report: seq<Hit>, p: nat, n: nat)
    requires HasHit(hits, p, n) && IsReport(hits, report)
    ensures Reported(report, p, n)
  {
    var k :| 0 <= k < |hits| && hits[k].offset == p && hits[k].length == n;
    assert hits[k] in hits && WithinSome(hits[k], report);
    var j :| 0 <= j < |report| && Inside(hits[k], report[j]);
    assert report[j] in report && Inside(Hit(1, 1, n, p), report[j]);
  }

  /** The place lies inside one reported span. */
  ghost predicate Reported(report: seq<Hit>, p: nat, n: nat)
  {
    exists r :: r in report && Inside(Hit(1, 1, n, p), r)
  }

  /**
  From denylist to report: every place found, and so every occurrence that reads in the lowered text as it does alone,
  lies inside one reported span; where the hash tells texts apart, every span covers only positions of places found.
  */
  method Check(a: Alphabet, strings: seq<string>, minNgram: nat, text: string) returns (report: seq<Hit>)
    requires minNgram >= 1 && Steady(a)
    ensures Disjoint(report)
    ensures forall p: nat, n: nat :: IsMarked(a, strings, minNgram, text, p, n) ==> Reported(report, p, n)
    ensures InjectiveHash(a) ==>
      forall q: nat :: Covers(report, q) ==> exists p: nat, n: nat :: p <= q < p + n && IsMarked(a, strings, minNgram, text, p, n)
    ensures forall i, p: nat ::
      0 <= i < |strings| && |strings[i]| >= minNgram && Occurs(a, text, strings[i], p) && InPlace(a, text, p, |strings[i]|) ==>
        Reported(report, p, |strings[i]|)
    ensures forall r :: r in report ==> Located(text, r)
  {
    var config := BuildDenylist(a, strings, minNgram);
    var hits := FindHits(a, text, config);
    report := DedupeOverlapping(hits);
    ghost var shape := Config(minNgram, Longest(strings, minNgram), {});
    forall p: nat, n: nat | IsMarked(a, strings, minNgram, text, p, n) ensures Reported(report, p, n) {
      FoundExactly(a, strings, shape, text, p, n);
      SameShape(a, strings, shape, config, text, p, n);
      FoundIsHit(a, strings, config, text, hits, p, n);
      HitIsReported(hits, report, p, n);
    }
    forall i, p: nat |
      0 <= i < |strings| && |strings[i]| >= minNgram && Occurs(a, text, strings[i], p) && InPlace(a, text, p, |strings[i]|)
      ensures Reported(report, p, |strings[i]|)
    {
      InPlaceIsFound(a, strings, shape, text, i, p);
      FoundExactly(a, strings, shape, text, p, |strings[i]|);
    }
    if InjectiveHash(a) {
      forall q: nat | Covers(report, q)
        ensures exists p: nat, n: nat :: p <= q < p + n && IsMarked(a, strings, minNgram, text, p, n)
      {
        CoveredIsFound(a, strings, shape, config, text, hits, report, q);
        var p: nat, n: nat :| p <= q < p + n && Found(a, strings, shape, text, p, n);
        FoundExactly(a, strings, shape, text, p, n);
      }
    }
    forall r | r in report ensures Located(text, r) {
      assert BegunBySome(r, hits);
      var k :| 0 <= k < |hits| && SamePlace(hits[k], r);
      assert Genuine(a, text, config, hits[k]);
    }
  }

  /** Some place found has the position. */
  ghost predicate FoundOver(a: Alphabet, strings: seq<string>, config: Config, text: string, q: nat)
  {
    exists p: nat, n: nat :: p <= q < p + n && Found(a, strings, config, text, p, n)
  }

  lemma {:induction false} SameShape(
    a: Alphabet, strings: seq<string>, x: Config, y: Config, text: string, p: nat, n: nat)
    requires x.minNgram == y.minNgram && x.maxNgram == y.maxNgram
    ensures Found(a, strings, x, text, p, n) <==> Found(a, strings, y, text, p, n)
  {
  }

  lemma {:induction false} CoveredIsFound(
    a: Alphabet, strings: seq<string>, shape: Config, config: Config, text: string, hits: seq<Hit>, report: seq<Hit>, q: nat)
    requires InjectiveHash(a) && IsDenylist(a, strings, config) && AreHits(a, text, config, hits)
    requires shape.minNgram == config.minNgram && shape.maxNgram == config.maxNgram
    requires SameCover(report, hits) && Covers(report, q)
    ensures FoundOver(a, strings, shape, text, q)
  {
    assert Covers(hits, q);
    var k :| 0 <= k < |hits| && Spans(hits[k], q);
    var p, n := hits[k].offset, hits[k].length;
    assert HasHit(hits, p, n);
    HitExactly(a, strings, config, text, hits, p, n);
    SameShape(a, strings, shape, config, text, p, n);
  }
}
