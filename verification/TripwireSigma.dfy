/**
Lower-casing as the tripwire's language does it (`str.lower`, with the final-sigma rule of the Unicode standard,
section 3.13): one letter looks at its context, and around that letter the tripwire misses words.
*/
module TripwireSigma {
  import opened Tripwire

  const SIGMA := '\U{3A3}'
  const SMALL := '\U{3C3}'
  const FINAL := '\U{3C2}'

  /** The lower case of single characters, and the two properties of characters the rule asks for. */
  datatype Casing = Casing(simple: char -> char, cased: char -> bool, ignorable: char -> bool)

  ghost predicate Sane(c: Casing)
  {
    && c.simple(SMALL) == SMALL && c.simple(FINAL) == FINAL
    && forall x :: x != SIGMA ==> c.simple(x) != SIGMA && c.simple(c.simple(x)) == c.simple(x)
  }

  predicate CasedBefore(c: Casing, s: string, i: nat)
    requires i <= |s|
  {
    i > 0 && if c.ignorable(s[i - 1]) then CasedBefore(c, s, i - 1) else c.cased(s[i - 1])
  }

  predicate CasedAfter(c: Casing, s: string, i: nat)
    requires i <= |s|
    decreases |s| - i
  {
    i < |s| && if c.ignorable(s[i]) then CasedAfter(c, s, i + 1) else c.cased(s[i])
  }

  /** A letter before it and none after it, ignorable characters apart. */
  predicate IsFinal(c: Casing, s: string, i: nat)
    requires i < |s|
  {
    CasedBefore(c, s, i) && !CasedAfter(c, s, i + 1)
  }

  function LowerAt(c: Casing, s: string, i: nat): char
    requires i < |s|
  {
    if s[i] != SIGMA then c.simple(s[i]) else if IsFinal(c, s, i) then FINAL else SMALL
  }

  function LowerCase(c: Casing, s: string): (r: string)
    ensures |r| == |s| && forall i :: 0 <= i < |s| ==> r[i] == LowerAt(c, s, i)
  {
    seq(|s|, i requires 0 <= i < |s| => LowerAt(c, s, i))
  }

  /** An alphabet of the language. */
  ghost predicate Speaks(a: Alphabet, c: Casing)
  {
    Sane(c) && forall s :: a.lower(s) == LowerCase(c, s)
  }

  lemma {:induction false} LowerCaseTwice(c: Casing, s: string)
    requires Sane(c)
    ensures LowerCase(c, LowerCase(c, s)) == LowerCase(c, s)
  {
    var r := LowerCase(c, s);
    forall i | 0 <= i < |s| ensures LowerAt(c, r, i) == r[i] {
      assert r[i] == LowerAt(c, s, i);
    }
  }

  /** It keeps the length and is idempotent, so all that is proved of the tripwire holds with it. */
  lemma {:induction false} IsSteady(a: Alphabet, c: Casing)
    requires Speaks(a, c)
    ensures Steady(a)
  {
    forall s ensures |a.lower(s)| == |s| && a.lower(a.lower(s)) == a.lower(s) {
      LowerCaseTwice(c, s);
    }
  }

  /** Character i of the place is no capital sigma, or one that is final both in the text and alone, or in neither. */
  predicate SigmaAgrees(c: Casing, text: string, p: nat, n: nat, i: nat)
    requires i < n && p + n <= |text|
  {
    text[p + i] == SIGMA ==> IsFinal(c, text, p + i) == IsFinal(c, text[p..p + n], i)
  }

  /** A place reads as it does alone exactly if every capital sigma in it agrees. */
  lemma {:induction false} InPlaceExactly(a: Alphabet, c: Casing, text: string, p: nat, n: nat)
    requires Speaks(a, c) && p + n <= |text|
    ensures InPlace(a, text, p, n) <==> forall i: nat :: i < n ==> SigmaAgrees(c, text, p, n, i)
  {
    var slice := text[p..p + n];
    var whole, alone := a.lower(text)[p..p + n], a.lower(slice);
    forall i: nat | i < n ensures whole[i] == alone[i] <==> SigmaAgrees(c, text, p, n, i) {
      assert whole[i] == LowerAt(c, text, p + i) && alone[i] == LowerAt(c, slice, i) && slice[i] == text[p + i];
    }
    if forall i: nat :: i < n ==> SigmaAgrees(c, text, p, n, i) {
      assert whole == alone;
    }
  }

  /** In a text without a capital sigma nothing is missed. */
  lemma {:induction false} NoSigmaNothingMissed(
    a: Alphabet, c: Casing, strings: seq<string>, config: Config, text: string, hits: seq<Hit>, i: nat, p: nat)
    requires Speaks(a, c) && IsDenylist(a, strings, config) && AreHits(a, text, config, hits)
    requires forall k :: 0 <= k < |text| ==> text[k] != SIGMA
    requires i < |strings| && |strings[i]| >= config.minNgram && Occurs(a, text, strings[i], p)
    ensures HasHit(hits, p, |strings[i]|)
  {
    IsSteady(a, c);
    InPlaceExactly(a, c, text, p, |strings[i]|);
    NothingIsMissed(a, strings, config, text, hits, i, p);
  }

  // ------------------------------------------------------------ the word that is missed

  const WORD := "\U{39F}\U{394}\U{39F}\U{3A3}"
  const TEXT := "\U{39F}\U{394}\U{39F}\U{3A3}.\U{391}"

  /** What the standard says of the five characters of the text. */
  ghost predicate KnowsText(c: Casing)
  {
    && c.simple('\U{39F}') == '\U{3BF}' && c.simple('\U{394}') == '\U{3B4}' && c.simple('\U{391}') == '\U{3B1}'
    && c.simple('\U{3BF}') == '\U{3BF}' && c.simple('\U{3B4}') == '\U{3B4}'
    && c.cased('\U{39F}') && c.cased('\U{394}') && c.cased('\U{391}') && c.cased('\U{3BF}') && c.cased('\U{3B4}')
    && !c.ignorable('\U{39F}') && !c.ignorable('\U{394}') && !c.ignorable('\U{391}') && c.ignorable('.')
  }

  lemma {:induction false} SigmaBeforeDot(c: Casing)
    requires KnowsText(c)
    ensures IsFinal(c, WORD, 3) && !IsFinal(c, TEXT, 3)
  {
    assert WORD[2] == '\U{39F}' && TEXT[4] == '.' && TEXT[5] == '\U{391}';
    assert CasedBefore(c, WORD, 3) && !CasedAfter(c, WORD, 4);
    assert CasedAfter(c, TEXT, 5) && CasedAfter(c, TEXT, 4);
  }

  lemma {:induction false} WordOccurs(a: Alphabet, c: Casing)
    requires Speaks(a, c) && KnowsText(c) && !a.isWord(a.lower(TEXT)[4])
    ensures Occurs(a, TEXT, WORD, 0) && a.lower(WORD)[3] == FINAL && a.lower(TEXT)[..4][3] == SMALL
  {
    SigmaBeforeDot(c);
    assert TEXT[0..0 + |WORD|] == WORD;
    assert a.lower(TEXT)[3] == LowerAt(c, TEXT, 3) && a.lower(WORD)[3] == LowerAt(c, WORD, 3);
  }

  lemma {:induction false} OnlyNgram(start: nat, length: nat, most: nat)
    requires IsNgram(WORD, start, length, 4, most)
    ensures WORD[start..start + length] == WORD
  {
    assert WORD[0..4] == WORD;
  }

  lemma {:induction false} OtherIsNotListed(a: Alphabet, config: Config, lowered: string)
    requires config.minNgram == 4 && lowered != a.lower(WORD)
    ensures !Listed(a, [WORD], config, lowered)
  {
    if Listed(a, [WORD], config, lowered) {
      var i, start: nat, length: nat :|
        0 <= i < |[WORD]| && IsNgram([WORD][i], start, length, config.minNgram, config.maxNgram)
        && a.lower([WORD][i][start..start + length]) == lowered;
      OnlyNgram(start, length, config.maxNgram);
    }
  }

  lemma {:induction false} SliceReadsOtherwise(a: Alphabet, c: Casing)
    requires Speaks(a, c) && KnowsText(c) && !a.isWord(a.lower(TEXT)[4])
    ensures Occurs(a, TEXT, WORD, 0) && a.lower(a.lower(TEXT)[0..0 + |WORD|]) != a.lower(WORD)
  {
    WordOccurs(a, c);
    var slice := a.lower(TEXT)[0..0 + |WORD|];
    assert slice == a.lower(TEXT)[..4];
    assert a.lower(slice)[3] == LowerAt(c, slice, 3) == SMALL;
  }

  lemma {:induction false} UnlistedIsMissed(
    a: Alphabet, strings: seq<string>, config: Config, text: string, hits: seq<Hit>, word: string)
    requires InjectiveHash(a) && IsDenylist(a, strings, config) && AreHits(a, text, config, hits)
    requires strings == [word] && |word| >= config.minNgram && Occurs(a, text, word, 0)
    requires !Listed(a, strings, config, a.lower(a.lower(text)[0..0 + |word|]))
    ensures !HasHit(hits, 0, |word|)
  {
    OccurrenceIsHitExactly(a, strings, config, text, hits, 0, 0);
  }

  /** The denylisted word stands in the text, word-aligned, and is no hit: what follows it changes its last letter. */
  lemma {:induction false} SigmaIsMissed(a: Alphabet, c: Casing, config: Config, hits: seq<Hit>)
    requires Speaks(a, c) && KnowsText(c) && InjectiveHash(a) && !a.isWord(a.lower(TEXT)[4])
    requires config.minNgram == 4 && IsDenylist(a, [WORD], config) && AreHits(a, TEXT, config, hits)
    ensures Occurs(a, TEXT, WORD, 0) && !HasHit(hits, 0, |WORD|)
  {
    SliceReadsOtherwise(a, c);
    OtherIsNotListed(a, config, a.lower(a.lower(TEXT)[0..0 + |WORD|]));
    UnlistedIsMissed(a, [WORD], config, TEXT, hits, WORD);
  }

  /** There is such an alphabet. */
  lemma {:induction false} SigmaAlphabet() returns (a: Alphabet, c: Casing)
    ensures Speaks(a, c) && KnowsText(c) && InjectiveHash(a) && !a.isWord(a.lower(TEXT)[4])
  {
    c := Casing(
      x => if x == '\U{39F}' then '\U{3BF}' else if x == '\U{394}' then '\U{3B4}' else if x == '\U{391}' then '\U{3B1}' else x,
      x => x != '.', x => x == '.');
    var casing := c;
    a := Alphabet(s => LowerCase(casing, s), x => x != '.', s => s);
    assert a.lower(TEXT)[4] == LowerAt(c, TEXT, 4) == '.';
  }
}
