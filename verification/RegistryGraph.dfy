/**
Dependency depth of registry entries (src/agenttalk/acceptance_registry.py, `validate_registry`).
The search (RegistrySearch) remembers the depth of every finished entry and refuses cycles and chains that are
too long; what it accepts and remembers is stated over all dependency paths.
*/
module RegistryGraph {
  type Key = string

  const MAX_DEPTH: nat := 24

  type Graph = map<Key, seq<Key>>

  /** Every dependency is an entry; checked before the search. */
  predicate Closed(g: Graph)
  {
    forall k :: k in g ==> forall i :: 0 <= i < |g[k]| ==> g[k][i] in g
  }

  predicate DependsOn(g: Graph, k: Key, d: Key)
  {
    k in g && d in g[k]
  }

  /** Entries, each listing the next among its dependencies. */
  predicate IsPath(g: Graph, p: seq<Key>)
  {
    && p != []
    && (forall i :: 0 <= i < |p| ==> p[i] in g)
    && (forall i :: 0 <= i < |p| - 1 ==> DependsOn(g, p[i], p[i + 1]))
  }

  predicate IsPathFrom(g: Graph, k: Key, p: seq<Key>)
  {
    IsPath(g, p) && p[0] == k
  }

  /** `depth` is the number of entries on a longest path from k. */
  ghost predicate IsDepth(g: Graph, k: Key, depth: nat)
  {
    && (exists p :: IsPathFrom(g, k, p) && |p| == depth)
    && (forall p :: IsPathFrom(g, k, p) ==> |p| <= depth)
  }

  /** No chain is longer than the limit. */
  ghost predicate Shallow(g: Graph)
  {
    forall p :: IsPath(g, p) ==> |p| <= MAX_DEPTH
  }

  lemma {:induction false} JoinPaths(g: Graph, p: seq<Key>, q: seq<Key>)
    requires IsPath(g, p) && IsPath(g, q) && DependsOn(g, p[|p| - 1], q[0])
    ensures IsPath(g, p + q)
  {
  }

  /** Going round a cycle often enough makes a path of any length. */
  lemma {:induction false} CycleIsDeep(g: Graph, cycle: seq<Key>, n: nat) returns (p: seq<Key>)
    requires IsPath(g, cycle) && DependsOn(g, cycle[|cycle| - 1], cycle[0])
    ensures IsPath(g, p) && |p| > n && p[0] == cycle[0]
  {
    p := cycle;
    if n > 0 {
      var rest := CycleIsDeep(g, cycle, n - 1);
      JoinPaths(g, cycle, rest);
      p := cycle + rest;
    }
  }

  /** In particular an accepted graph has no cycle. */
  lemma {:induction false} ShallowIsAcyclic(g: Graph, cycle: seq<Key>)
    requires Shallow(g) && IsPath(g, cycle)
    ensures !DependsOn(g, cycle[|cycle| - 1], cycle[0])
  {
    if DependsOn(g, cycle[|cycle| - 1], cycle[0]) {
      var p := CycleIsDeep(g, cycle, MAX_DEPTH);
    }
  }

  predicate DepthsDecrease(g: Graph, depths: map<Key, nat>)
  {
    && depths.Keys == g.Keys
    && forall k :: k in g ==> forall i :: 0 <= i < |g[k]| ==> g[k][i] in depths && depths[g[k][i]] < depths[k]
  }

  lemma {:induction false} DependencyIsShallower(g: Graph, k: Key, d: Key, a: nat, b: nat)
    requires DependsOn(g, k, d) && IsDepth(g, k, a) && IsDepth(g, d, b)
    ensures b < a
  {
    var p :| IsPathFrom(g, d, p) && |p| == b;
    JoinPaths(g, [k], p);
    assert IsPathFrom(g, k, [k] + p);
  }

  lemma {:induction false} RepeatMakesCycle(g: Graph, chain: seq<Key>, key: Key)
    requires IsPath(g, chain + [key]) && key in chain
    ensures !Shallow(g)
  {
    var i :| 0 <= i < |chain| && chain[i] == key;
    var whole := chain + [key];
    var cycle := chain[i..];
    forall j | 0 <= j < |cycle| - 1 ensures DependsOn(g, cycle[j], cycle[j + 1]) {
      assert cycle[j] == whole[i + j] && cycle[j + 1] == whole[i + j + 1];
    }
    assert forall j :: 0 <= j < |cycle| ==> cycle[j] == whole[i + j];
    assert whole[|chain| - 1] == chain[|chain| - 1] && whole[|chain|] == key;
    var p := CycleIsDeep(g, cycle, MAX_DEPTH);
  }

  lemma {:induction false} DeepBelowChain(g: Graph, chain: seq<Key>, key: Key, depth: nat)
    requires IsPath(g, chain + [key]) && IsDepth(g, key, depth) && depth + |chain| > MAX_DEPTH
    ensures !Shallow(g)
  {
    var p :| IsPathFrom(g, key, p) && |p| == depth;
    var whole := chain + p;
    assert |whole| > MAX_DEPTH;
    forall i | 0 <= i < |whole| - 1 ensures DependsOn(g, whole[i], whole[i + 1]) {
      if i < |chain| {
        assert whole[i] == (chain + [key])[i] && whole[i + 1] == (chain + [key])[i + 1];
      }
    }
    assert forall i :: 0 <= i < |chain| ==> whole[i] == (chain + [key])[i];
    assert IsPath(g, whole);
  }

  ghost predicate Extends(before: map<Key, nat>, after: map<Key, nat>)
  {
    forall k :: k in before ==> k in after && after[k] == before[k]
  }

  ghost predicate IsGreatest(keys: seq<Key>, depths: map<Key, nat>, best: nat)
  {
    && (forall d :: d in keys ==> d in depths && depths[d] <= best)
    && (best > 0 ==> exists d :: d in keys && d in depths && depths[d] == best)
  }

  lemma {:induction false} GreatestGrows(keys: seq<Key>, key: Key, before: map<Key, nat>, after: map<Key, nat>, best: nat)
    requires IsGreatest(keys, before, best) && Extends(before, after) && key in after
    ensures IsGreatest(keys + [key], after, if after[key] > best then after[key] else best)
  {
    assert key in keys + [key];
    if best > 0 {
      var d :| d in keys && d in before && before[d] == best;
      assert d in keys + [key];
    }
  }

  /** The depth of an entry from the depths of its dependencies. */
  lemma {:induction false} DepthFromDependencies(g: Graph, k: Key, depths: map<Key, nat>, best: nat)
    requires k in g && IsGreatest(g[k], depths, best)
    requires forall d :: d in g[k] ==> IsDepth(g, d, depths[d])
    ensures IsDepth(g, k, 1 + best)
  {
    if best == 0 {
      assert IsPathFrom(g, k, [k]);
    } else {
      var d :| d in g[k] && d in depths && depths[d] == best;
      var p :| IsPathFrom(g, d, p) && |p| == best;
      JoinPaths(g, [k], p);
      assert IsPathFrom(g, k, [k] + p);
    }
    forall p | IsPathFrom(g, k, p) ensures |p| <= 1 + best {
      if |p| > 1 {
        assert p[1] in g[k] && p[1] in depths;
        assert IsPathFrom(g, p[1], p[1..]);
      }
    }
  }

  predicate WithinLimit(k: Key, depths: map<Key, nat>)
  {
    k in depths && depths[k] <= MAX_DEPTH
  }

  ghost predicate VisitedFirst(keys: seq<Key>, n: nat, depths: map<Key, nat>)
    requires n <= |keys|
  {
    forall j :: 0 <= j < n ==> WithinLimit(keys[j], depths)
  }

  lemma {:induction false} VisitedOneMore(keys: seq<Key>, n: nat, before: map<Key, nat>, after: map<Key, nat>)
    requires n < |keys| && VisitedFirst(keys, n, before) && Extends(before, after) && WithinLimit(keys[n], after)
    ensures VisitedFirst(keys, n + 1, after)
  {
    forall j | 0 <= j < n + 1 ensures WithinLimit(keys[j], after) {
      assert j < n ==> WithinLimit(keys[j], before);
    }
  }

  lemma {:induction false} SingleEntry(g: Graph, keys: seq<Key>, i: nat)
    requires i < |keys| && forall k :: k in keys <==> k in g
    ensures IsPath(g, [] + [keys[i]])
  {
    assert keys[i] in keys;
  }

  lemma {:induction false} AllShallow(g: Graph, keys: seq<Key>, depths: map<Key, nat>)
    requires (forall k :: k in keys <==> k in g) && VisitedFirst(keys, |keys|, depths)
    requires forall k :: k in depths ==> k in g && IsDepth(g, k, depths[k])
    ensures Shallow(g) && depths.Keys == g.Keys
  {
    forall k | k in g ensures k in depths && depths[k] <= MAX_DEPTH {
      assert k in keys;
      var j :| 0 <= j < |keys| && keys[j] == k;
      assert WithinLimit(keys[j], depths);
    }
    forall p | IsPath(g, p) ensures |p| <= MAX_DEPTH {
      assert IsPathFrom(g, p[0], p);
    }
  }

  lemma {:induction false} AllDecrease(g: Graph, depths: map<Key, nat>)
    requires Closed(g) && depths.Keys == g.Keys && forall k :: k in depths ==> IsDepth(g, k, depths[k])
    ensures DepthsDecrease(g, depths)
  {
    forall k, i | k in g && 0 <= i < |g[k]| ensures g[k][i] in depths && depths[g[k][i]] < depths[k] {
      DependencyIsShallower(g, k, g[k][i], depths[k], depths[g[k][i]]);
    }
  }
}
