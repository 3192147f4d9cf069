/**
The language's own `sorted` and the few facts about it that the queue depends on: lexicographic keys,
stability, and that distinct keys leave only one order.
*/
module StableSort {
  import opened Wrappers

  /** Tuples of numbers and the characters of a string compare like this. */
  predicate Le(a: seq<int>, b: seq<int>)
  {
    a == [] || (b != [] && (a[0] < b[0] || (a[0] == b[0] && Le(a[1..], b[1..]))))
  }

  lemma {:induction false} LeTotal(a: seq<int>, b: seq<int>)
    ensures Le(a, b) || Le(b, a)
  {
    if a != [] && b != [] && a[0] == b[0] {
      LeTotal(a[1..], b[1..]);
    }
  }

  lemma {:induction false} LeTransitive(a: seq<int>, b: seq<int>, c: seq<int>)
    requires Le(a, b) && Le(b, c)
    ensures Le(a, c)
  {
    if a != [] && a[0] == b[0] && b[0] == c[0] {
      LeTransitive(a[1..], b[1..], c[1..]);
    }
  }

  lemma {:induction false} LeAntisymmetric(a: seq<int>, b: seq<int>)
    requires Le(a, b) && Le(b, a)
    ensures a == b
  {
    if a != [] && b != [] {
      LeAntisymmetric(a[1..], b[1..]);
      assert a == [a[0]] + a[1..] && b == [b[0]] + b[1..];
    }
  }

  type Key<!T> = T -> seq<int>

  ghost predicate Sorted<T>(xs: seq<T>, key: Key<T>)
  {
    forall i, j :: 0 <= i < j < |xs| ==> Le(key(xs[i]), key(xs[j]))
  }

  /** Before the first element that is not smaller, so that equal keys keep their order. */
  function Insert<T>(x: T, xs: seq<T>, key: Key<T>): seq<T>
  {
    if xs == [] || Le(key(x), key(xs[0])) then [x] + xs else [xs[0]] + Insert(x, xs[1..], key)
  }

  function SortBy<T>(xs: seq<T>, key: Key<T>): seq<T>
  {
    if xs == [] then [] else Insert(xs[0], SortBy(xs[1..], key), key)
  }

  lemma {:induction false} InsertKeeps<T>(x: T, xs: seq<T>, key: Key<T>)
    ensures multiset(Insert(x, xs, key)) == multiset([x]) + multiset(xs)
  {
    if xs != [] && !Le(key(x), key(xs[0])) {
      InsertKeeps(x, xs[1..], key);
      assert xs == [xs[0]] + xs[1..];
    }
  }

  lemma {:induction false} InsertIsSorted<T>(x: T, xs: seq<T>, key: Key<T>)
    requires Sorted(xs, key)
    ensures Sorted(Insert(x, xs, key), key)
  {
    var r := Insert(x, xs, key);
    if xs == [] {
    } else if Le(key(x), key(xs[0])) {
      forall i, j | 0 <= i < j < |r| ensures Le(key(r[i]), key(r[j])) {
        if i > 0 {
          assert r[i] == xs[i - 1] && r[j] == xs[j - 1];
        } else if j > 1 {
          assert r[j] == xs[j - 1];
          LeTransitive(key(x), key(xs[0]), key(xs[j - 1]));
        }
      }
    } else {
      var rest := Insert(x, xs[1..], key);
      InsertIsSorted(x, xs[1..], key);
      LeTotal(key(x), key(xs[0]));
      forall i, j | 0 <= i < j < |r| ensures Le(key(r[i]), key(r[j])) {
        if i > 0 {
          assert r[i] == rest[i - 1] && r[j] == rest[j - 1];
        } else {
          InsertKeeps(x, xs[1..], key);
          assert r[j] == rest[j - 1];
          assert r[j] in multiset(rest);
          if r[j] in xs[1..] {
            var k :| 0 <= k < |xs| - 1 && xs[1..][k] == r[j];
            assert xs[k + 1] == r[j];
          } else {
            assert r[j] == x;
          }
        }
      }
    }
  }

  lemma {:induction false} SortSorts<T>(xs: seq<T>, key: Key<T>)
    ensures Sorted(SortBy(xs, key), key) && multiset(SortBy(xs, key)) == multiset(xs)
    ensures |SortBy(xs, key)| == |xs|
  {
    if xs != [] {
      SortSorts(xs[1..], key);
      InsertIsSorted(xs[0], SortBy(xs[1..], key), key);
      InsertKeeps(xs[0], SortBy(xs[1..], key), key);
      assert xs == [xs[0]] + xs[1..];
    }
    assert |multiset(SortBy(xs, key))| == |SortBy(xs, key)| && |multiset(xs)| == |xs|;
  }

  ghost predicate Injective<T(!new)>(xs: seq<T>, key: Key<T>)
  {
    forall x, y :: x in xs && y in xs && key(x) == key(y) ==> x == y
  }

  lemma {:induction false} SameMembers<T>(a: seq<T>, b: seq<T>, x: T)
    requires multiset(a) == multiset(b)
    ensures x in a <==> x in b
  {
    assert x in a <==> x in multiset(a);
    assert x in b <==> x in multiset(b);
  }

  lemma {:induction false} RestOf<T>(a: seq<T>)
    requires a != []
    ensures multiset(a[1..]) == multiset(a) - multiset([a[0]])
  {
    assert a == [a[0]] + a[1..];
  }

  lemma {:induction false} SameHead<T(!new)>(a: seq<T>, b: seq<T>, key: Key<T>)
    requires Sorted(a, key) && Sorted(b, key) && multiset(a) == multiset(b) && Injective(a, key) && a != [] && b != []
    ensures a[0] == b[0]
  {
    SameMembers(a, b, a[0]);
    SameMembers(a, b, b[0]);
    FirstIsLeast(a, b[0], key);
    FirstIsLeast(b, a[0], key);
    LeAntisymmetric(key(a[0]), key(b[0]));
  }

  lemma {:induction false} SortedRest<T(!new)>(a: seq<T>, key: Key<T>)
    requires a != [] && Sorted(a, key)
    ensures Sorted(a[1..], key) && (Injective(a, key) ==> Injective(a[1..], key))
  {
  }

  /** With distinct keys there is one sorted order. */
  lemma {:induction false} SortedOnce<T(!new)>(a: seq<T>, b: seq<T>, key: Key<T>)
    requires Sorted(a, key) && Sorted(b, key) && multiset(a) == multiset(b) && Injective(a, key)
    ensures a == b
    decreases |a|
  {
    assert |multiset(a)| == |a| && |multiset(b)| == |b|;
    if a != [] {
      SameHead(a, b, key);
      RestOf(a);
      RestOf(b);
      SortedRest(a, key);
      SortedRest(b, key);
      SortedOnce(a[1..], b[1..], key);
      assert a == [a[0]] + a[1..] && b == [b[0]] + b[1..];
    }
  }

  lemma {:induction false} FirstIsLeast<T>(xs: seq<T>, x: T, key: Key<T>)
    requires Sorted(xs, key) && x in xs
    ensures Le(key(xs[0]), key(x))
  {
    var i :| 0 <= i < |xs| && xs[i] == x;
    if i == 0 {
      LeTotal(key(x), key(x));
    }
  }

  lemma {:induction false} SortIgnoresOrder<T(!new)>(a: seq<T>, b: seq<T>, key: Key<T>)
    requires multiset(a) == multiset(b) && Injective(a, key)
    ensures SortBy(a, key) == SortBy(b, key)
  {
    SortSorts(a, key);
    SortSorts(b, key);
    forall x | x in SortBy(a, key) ensures x in a {
      SameMembers(SortBy(a, key), a, x);
    }
    SortedOnce(SortBy(a, key), SortBy(b, key), key);
  }

  // ------------------------------------------------------------ ties

  /** Two elements of one key end up side by side, the one inserted last in front. */
  lemma {:induction false} InsertTwo<T>(x: T, y: T, s: seq<T>, key: Key<T>) returns (p: nat)
    requires key(x) == key(y)
    ensures p <= |s| && Insert(x, Insert(y, s, key), key) == s[..p] + [x, y] + s[p..]
    ensures Insert(y, Insert(x, s, key), key) == s[..p] + [y, x] + s[p..]
    ensures (s == [] || Le(key(x), key(s[0]))) <==> p == 0
  {
    LeTotal(key(x), key(x));
    if s == [] || Le(key(x), key(s[0])) {
      p := 0;
      assert [x] + ([y] + s) == s[..0] + [x, y] + s[0..];
      assert [y] + ([x] + s) == s[..0] + [y, x] + s[0..];
    } else {
      var first, rest := s[0], s[1..];
      var q := InsertTwo(x, y, rest, key);
      p := q + 1;
      assert s == [first] + rest;
      assert Insert(y, s, key) == [first] + Insert(y, rest, key);
      assert Insert(x, s, key) == [first] + Insert(x, rest, key);
      InsertPast(x, first, Insert(y, rest, key), key);
      InsertPast(y, first, Insert(x, rest, key), key);
      assert s[..p] == [first] + rest[..q] && s[p..] == rest[q..];
    }
  }

  lemma {:induction false} InsertPast<T>(x: T, first: T, rest: seq<T>, key: Key<T>)
    requires !Le(key(x), key(first))
    ensures Insert(x, [first] + rest, key) == [first] + Insert(x, rest, key)
  {
    assert ([first] + rest)[1..] == rest;
  }

  lemma {:induction false} SortTwo<T>(x: T, y: T, rest: seq<T>, key: Key<T>) returns (p: nat)
    requires key(x) == key(y)
    ensures var s := SortBy(rest, key);
      && p <= |s| && (p == 0 <==> s == [] || Le(key(x), key(s[0])))
      && SortBy([x, y] + rest, key) == s[..p] + [x, y] + s[p..]
      && SortBy([y, x] + rest, key) == s[..p] + [y, x] + s[p..]
  {
    assert ([x, y] + rest)[1..] == [y] + rest && ([y] + rest)[1..] == rest;
    assert ([y, x] + rest)[1..] == [x] + rest && ([x] + rest)[1..] == rest;
    p := InsertTwo(x, y, SortBy(rest, key), key);
  }

  lemma {:induction false} TakeOne<T>(a: seq<T>, x: T) returns (pre: seq<T>, post: seq<T>)
    requires x in a
    ensures a == pre + [x] + post && multiset(a) == multiset([x]) + multiset(pre + post)
  {
    var i :| 0 <= i < |a| && a[i] == x;
    pre, post := a[..i], a[i + 1..];
    assert a == pre + [x] + post;
    Together(pre, [x]);
    Together(pre + [x], post);
    Together(pre, post);
  }

  lemma {:induction false} Together<T>(a: seq<T>, b: seq<T>)
    ensures multiset(a + b) == multiset(a) + multiset(b)
  {
  }

  lemma {:induction false} StillIn<T>(pre: seq<T>, x: T, post: seq<T>, y: T)
    requires y in pre + [x] + post && x != y
    ensures y in pre + post
  {
  }

  /** Any two elements of a list can be taken to its front. */
  lemma {:induction false} TakeTwo<T>(a: seq<T>, x: T, y: T) returns (rest: seq<T>)
    requires x in a && y in a && x != y
    ensures multiset([x, y] + rest) == multiset(a) && multiset([y, x] + rest) == multiset(a)
  {
    var pre, post := TakeOne(a, x);
    StillIn(pre, x, post, y);
    var before, after := TakeOne(pre + post, y);
    rest := before + after;
    Together([x, y], rest);
    Together([y, x], rest);
    assert multiset([x, y]) == multiset([x]) + multiset([y]) == multiset([y, x]);
    Arranged(multiset(a), multiset([x]), multiset([y]), multiset(rest), multiset(pre + post));
  }

  lemma {:induction false} Arranged<T>(all: multiset<T>, x: multiset<T>, y: multiset<T>, rest: multiset<T>, less: multiset<T>)
    requires all == x + less && less == y + rest
    ensures x + y + rest == all
  {
  }

  ghost predicate OrderFree<T(!new)>(a: seq<T>, key: Key<T>)
  {
    forall b: seq<T> :: multiset(b) == multiset(a) ==> SortBy(b, key) == SortBy(a, key)
  }

  lemma {:induction false} TiesShow<T(!new)>(x: T, y: T, rest: seq<T>, key: Key<T>)
    requires key(x) == key(y) && x != y
    ensures SortBy([x, y] + rest, key) != SortBy([y, x] + rest, key)
  {
    var p := SortTwo(x, y, rest, key);
    var s := SortBy(rest, key);
    assert (s[..p] + [x, y] + s[p..])[p] == x && (s[..p] + [y, x] + s[p..])[p] == y;
  }

  /** A list sorts alike from every input order if and only if equal keys mean equal elements. */
  lemma {:induction false} OrderFreeExactly<T(!new)>(a: seq<T>, key: Key<T>)
    ensures OrderFree(a, key) <==> Injective(a, key)
  {
    if Injective(a, key) {
      forall b: seq<T> | multiset(b) == multiset(a) ensures SortBy(b, key) == SortBy(a, key) {
        SortIgnoresOrder(a, b, key);
      }
    } else {
      var x, y :| x in a && y in a && key(x) == key(y) && x != y;
      var rest := TakeTwo(a, x, y);
      TiesShow(x, y, rest, key);
    }
  }

  /** From every input order the keys come out alike. */
  lemma {:induction false} SameKeys<T>(a: seq<T>, b: seq<T>, key: Key<T>)
    requires multiset(a) == multiset(b)
    ensures |SortBy(a, key)| == |SortBy(b, key)|
    ensures forall i :: 0 <= i < |SortBy(a, key)| ==> key(SortBy(a, key)[i]) == key(SortBy(b, key)[i])
  {
    var sa, sb := SortBy(a, key), SortBy(b, key);
    var f: T -> Option<seq<int>> := x => Some(key(x));
    SortSorts(a, key);
    SortSorts(b, key);
    KeysAt(sa, key, f);
    KeysAt(sb, key, f);
    CollectIgnoresOrder(sa, sb, f);
    SortedOnce(Collect(sa, f), Collect(sb, f), k => k);
  }

  lemma {:induction false} KeysAt<T>(s: seq<T>, key: Key<T>, f: T -> Option<seq<int>>)
    requires forall x :: x in s ==> f(x) == Some(key(x))
    ensures |Collect(s, f)| == |s| && forall i :: 0 <= i < |s| ==> Collect(s, f)[i] == key(s[i])
  {
    if s != [] {
      KeysAt(s[..|s| - 1], key, f);
    }
  }

  // ------------------------------------------------------------ comprehensions

  /** `[f(x) for x in xs if ...]`: what f maps to None is left out. */
  function Collect<T, U>(xs: seq<T>, f: T -> Option<U>): seq<U>
  {
    if xs == [] then [] else Collect(xs[..|xs| - 1], f) + Kept(f(xs[|xs| - 1]))
  }

  function Kept<U>(x: Option<U>): seq<U>
  {
    if x.None? then [] else [x.value]
  }

  lemma {:induction false} CollectConcat<T, U>(a: seq<T>, b: seq<T>, f: T -> Option<U>)
    ensures Collect(a + b, f) == Collect(a, f) + Collect(b, f)
    decreases |b|
  {
    if b == [] {
      assert a + b == a;
    } else {
      var n := |b| - 1;
      assert (a + b)[..|a + b| - 1] == a + b[..n];
      CollectConcat(a, b[..n], f);
      assert Collect(a, f) + Collect(b[..n], f) + Kept(f(b[n])) == Collect(a, f) + (Collect(b[..n], f) + Kept(f(b[n])));
    }
  }

  lemma {:induction false} CollectOne<T, U>(x: T, f: T -> Option<U>)
    ensures Collect([x], f) == Kept(f(x))
  {
    assert [x][..0] == [];
    assert [] + Kept(f(x)) == Kept(f(x));
  }

  lemma {:induction false} CollectPair<T, U>(x: T, y: T, f: T -> Option<U>, u: U, v: U)
    requires f(x) == Some(u) && f(y) == Some(v)
    ensures Collect([x, y], f) == [u, v]
  {
    assert [x, y] == [x] + [y];
    CollectConcat([x], [y], f);
    CollectOne(x, f);
    CollectOne(y, f);
  }

  lemma {:induction false} CollectTwo<T, U>(x: T, y: T, rest: seq<T>, f: T -> Option<U>, u: U, v: U)
    requires f(x) == Some(u) && f(y) == Some(v)
    ensures Collect([x, y] + rest, f) == [u, v] + Collect(rest, f)
  {
    CollectConcat([x, y], rest, f);
    CollectPair(x, y, f, u, v);
  }

  lemma {:induction false} CollectStep<T, U>(xs: seq<T>, n: nat, f: T -> Option<U>)
    requires n < |xs|
    ensures Collect(xs[..n + 1], f) == Collect(xs[..n], f) + Kept(f(xs[n]))
  {
    assert xs[..n + 1][..n] == xs[..n];
  }

  lemma {:induction false} CollectWithout<T, U>(pre: seq<T>, x: T, post: seq<T>, f: T -> Option<U>)
    ensures multiset(Collect(pre + [x] + post, f)) == multiset(Kept(f(x))) + multiset(Collect(pre + post, f))
  {
    CollectConcat(pre + [x], post, f);
    CollectConcat(pre, [x], f);
    CollectOne(x, f);
    CollectConcat(pre, post, f);
  }

  /** Where the first element of one order stands in the other, and what surrounds it there. */
  lemma {:induction false} TakeOut<T>(a: seq<T>, b: seq<T>) returns (pre: seq<T>, post: seq<T>)
    requires multiset(a) == multiset(b) && a != []
    ensures b == pre + [a[0]] + post && multiset(a[1..]) == multiset(pre + post)
  {
    SameMembers(a, b, a[0]);
    var i :| 0 <= i < |b| && b[i] == a[0];
    pre, post := b[..i], b[i + 1..];
    assert b == pre + [a[0]] + post;
    assert a == [] + [a[0]] + a[1..] && [] + a[1..] == a[1..];
    WithoutOne(pre, a[0], post);
    WithoutOne([], a[0], a[1..]);
  }

  lemma {:induction false} WithoutOne<T>(pre: seq<T>, x: T, post: seq<T>)
    ensures multiset(pre + post) == multiset(pre + [x] + post) - multiset([x])
  {
    assert multiset(pre + [x] + post) == multiset(pre + [x]) + multiset(post);
    assert multiset(pre + [x]) == multiset(pre) + multiset([x]);
    assert multiset(pre + post) == multiset(pre) + multiset(post);
  }

  lemma {:induction false} CollectIgnoresOrder<T, U>(a: seq<T>, b: seq<T>, f: T -> Option<U>)
    requires multiset(a) == multiset(b)
    ensures multiset(Collect(a, f)) == multiset(Collect(b, f))
    decreases |a|
  {
    if a == [] {
      assert |multiset(b)| == |b| && |multiset(a)| == 0;
    } else {
      var pre, post := TakeOut(a, b);
      CollectIgnoresOrder(a[1..], pre + post, f);
      CollectWithout(pre, a[0], post, f);
      CollectHead(a, f);
    }
  }

  lemma {:induction false} CollectHead<T, U>(a: seq<T>, f: T -> Option<U>)
    requires a != []
    ensures multiset(Collect(a, f)) == multiset(Kept(f(a[0]))) + multiset(Collect(a[1..], f))
  {
    assert a == [a[0]] + a[1..];
    CollectConcat([a[0]], a[1..], f);
    CollectOne(a[0], f);
  }

  lemma {:induction false} Collected<T, U>(xs: seq<T>, f: T -> Option<U>, y: U)
    requires y in Collect(xs, f)
    ensures exists x :: x in xs && f(x) == Some(y)
  {
    var n := |xs| - 1;
    if y in Collect(xs[..n], f) {
      Collected(xs[..n], f, y);
    } else {
      assert f(xs[n]) == Some(y);
    }
  }

  /** The element behind the first thing collected, and the rest without it. */
  lemma {:induction false} LiftFirst<T, U>(a: seq<T>, f: T -> Option<U>, v: seq<U>) returns (x: T, rest: seq<T>)
    requires v != [] && multiset(v) == multiset(Collect(a, f))
    ensures f(x) == Some(v[0]) && multiset(a) == multiset([x]) + multiset(rest)
    ensures multiset(v[1..]) == multiset(Collect(rest, f))
  {
    SameMembers(v, Collect(a, f), v[0]);
    Collected(a, f, v[0]);
    x :| x in a && f(x) == Some(v[0]);
    var pre, post := TakeOne(a, x);
    rest := pre + post;
    CollectWithout(pre, x, post, f);
    RestOf(v);
    LessOne(multiset(v), multiset([v[0]]), multiset(Collect(rest, f)));
  }

  lemma {:induction false} LiftBack<T, U>(x: T, rest: seq<T>, f: T -> Option<U>, v: seq<U>)
    requires v != [] && f(x) == Some(v[0]) && Collect(rest, f) == v[1..]
    ensures Collect([x] + rest, f) == v && multiset([x] + rest) == multiset([x]) + multiset(rest)
  {
    CollectConcat([x], rest, f);
    CollectOne(x, f);
    assert [v[0]] + v[1..] == v;
  }

  /** Every order of what was collected comes from an order of the list. */
  lemma {:induction false} CollectLifts<T, U>(a: seq<T>, f: T -> Option<U>, v: seq<U>) returns (b: seq<T>)
    requires multiset(v) == multiset(Collect(a, f))
    ensures multiset(b) == multiset(a) && Collect(b, f) == v
    decreases |v|
  {
    if v == [] {
      b := a;
      assert |multiset(Collect(a, f))| == |Collect(a, f)| && |multiset(v)| == 0;
    } else {
      var x, rest := LiftFirst(a, f, v);
      var order := CollectLifts(rest, f, v[1..]);
      LiftBack(x, order, f, v);
      b := [x] + order;
    }
  }

  lemma {:induction false} LessOne<T>(all: multiset<T>, one: multiset<T>, rest: multiset<T>)
    requires all == one + rest
    ensures all - one == rest
  {
  }
}
