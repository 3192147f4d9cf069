/** The memoised depth-first search of `validate_registry` (src/agenttalk/acceptance_registry.py). */
module RegistrySearch {
  import opened Wrappers
  import opened RegistryGraph

  datatype Error = CycleOrDepth | Depth

  /** The memo of one validation. */
  class Search {
    const graph: Graph
    var depths: map<Key, nat>

    constructor (g: Graph)
      ensures graph == g && depths == map[]
    {
      graph := g;
      depths := map[];
    }

    ghost predicate Valid()
      reads this
    {
      Closed(graph) && forall k :: k in depths ==> k in graph && IsDepth(graph, k, depths[k])
    }

    method Visit(key: Key, chain: seq<Key>) returns (r: Result<nat, Error>)
      requires Valid() && IsPath(graph, chain + [key])
      modifies this
      ensures Valid() && Extends(old(depths), depths)
      ensures r.Ok? ==> key in depths && r.value == depths[key] && depths[key] + |chain| <= MAX_DEPTH
      ensures r.Refused? ==> !Shallow(graph)
      decreases MAX_DEPTH - |chain|, 1
    {
      assert (chain + [key])[|chain|] == key;
      if key in chain {
        RepeatMakesCycle(graph, chain, key);
        return Refused(CycleOrDepth);
      }
      if |chain| >= MAX_DEPTH {
        assert |chain + [key]| > MAX_DEPTH;
        return Refused(CycleOrDepth);
      }
      if key !in depths {
        var best := VisitDependencies(key, chain);
        if best.Refused? {
          return best;
        }
        DepthFromDependencies(graph, key, depths, best.value);
        depths := depths[key := 1 + best.value];
      }
      if depths[key] + |chain| > MAX_DEPTH {
        DeepBelowChain(graph, chain, key, depths[key]);
        return Refused(Depth);
      }
      return Ok(depths[key]);
    }

    /** The greatest depth among the dependencies of an entry, 0 when it has none. */
    method VisitDependencies(key: Key, chain: seq<Key>) returns (r: Result<nat, Error>)
      requires Valid() && IsPath(graph, chain + [key]) && |chain| < MAX_DEPTH
      modifies this
      ensures Valid() && Extends(old(depths), depths) && key in graph
      ensures r.Ok? ==> IsGreatest(graph[key], depths, r.value)
      ensures r.Refused? ==> !Shallow(graph)
      decreases MAX_DEPTH - |chain|, 0
    {
      assert (chain + [key])[|chain|] == key;
      var dependencies := graph[key];
      var best := 0;
      for i := 0 to |dependencies|
        invariant Valid() && Extends(old(depths), depths)
        invariant IsGreatest(dependencies[..i], depths, best)
      {
        ghost var before := depths;
        var dependency := dependencies[i];
        assert DependsOn(graph, key, dependency);
        JoinPaths(graph, chain + [key], [dependency]);
        var depth := Visit(dependency, chain + [key]);
        if depth.Refused? {
          return depth;
        }
        GreatestGrows(dependencies[..i], dependency, before, depths, best);
        assert dependencies[..i + 1] == dependencies[..i] + [dependency];
        if depth.value > best {
          best := depth.value;
        }
      }
      assert dependencies[..|dependencies|] == dependencies;
      return Ok(best);
    }

    /** Accepts exactly the graphs without cycles and without long chains; then every depth is exact. */
    method VisitAll(keys: seq<Key>) returns (ok: bool)
      requires Closed(graph) && depths == map[] && (forall k :: k in keys <==> k in graph)
      modifies this
      ensures ok <==> Shallow(graph)
      ensures ok ==> depths.Keys == graph.Keys && forall k :: k in graph ==> IsDepth(graph, k, depths[k])
      ensures ok ==> DepthsDecrease(graph, depths)
    {
      for i := 0 to |keys|
        invariant Valid() && VisitedFirst(keys, i, depths)
      {
        SingleEntry(graph, keys, i);
        ghost var before := depths;
        var depth := Visit(keys[i], []);
        if depth.Refused? {
          return false;
        }
        VisitedOneMore(keys, i, before, depths);
      }
      AllShallow(graph, keys, depths);
      AllDecrease(graph, depths);
      return true;
    }
  }
}
