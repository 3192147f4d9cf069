/**
The two memoised recursions of the preflight, `entry_inputs` (src/agenttalk/acceptance_registry.py) and
`inherited` (src/agenttalk/acceptance_preflight.py), against their reachability in Preflight.
*/
module PreflightMemo {
  import opened RegistryGraph
  import opened Preflight

  /** The memo of `entry_inputs`. */
  class Collector {
    const reg: Registry
    ghost const depths: map<Key, nat>
    var result: map<Key, set<Ref>>

    constructor (reg: Registry, ghost depths: map<Key, nat>)
      requires Validated(reg, depths)
      ensures this.reg == reg && this.depths == depths && result == map[] && Valid()
    {
      this.reg, this.depths, result := reg, depths, map[];
    }

    ghost predicate Valid()
      reads this
    {
      Validated(reg, depths) && forall k :: k in result ==> k in reg.graph && AreInputs(reg, k, result[k])
    }

    method Collect(key: Key) returns (r: set<Ref>)
      requires Valid() && key in reg.graph
      modifies this
      ensures Valid() && old(result.Keys) + {key} <= result.Keys
      ensures AreInputs(reg, key, r)
      decreases depths[key], 1
    {
      if key !in result {
        var inputs := CollectDependencies(key);
        var all := AddEvidence(reg.files, inputs);
        EntryCollected(reg, depths, key, inputs, all);
        result := result[key := all];
      }
      return result[key];
    }

    method CollectDependencies(key: Key) returns (inputs: set<Ref>)
      requires Valid() && key in reg.graph
      modifies this
      ensures Valid() && old(result.Keys) <= result.Keys
      ensures forall r :: r in inputs <==> r in reg.own[key] || FromFirst(reg, reg.graph[key], |reg.graph[key]|, r)
      decreases depths[key], 0
    {
      inputs := reg.own[key];
      for i := 0 to |reg.graph[key]|
        invariant Valid() && old(result.Keys) <= result.Keys
        invariant forall r :: r in inputs <==> r in reg.own[key] || FromFirst(reg, reg.graph[key], i, r)
      {
        var more := Collect(reg.graph[key][i]);
        inputs := inputs + more;
      }
    }

    /** Every entry gets exactly the inputs of the entries it reaches. */
    method CollectAll(keys: seq<Key>)
      requires Valid() && forall k :: k in keys <==> k in reg.graph
      modifies this
      ensures result.Keys == reg.graph.Keys && forall k :: k in result ==> AreInputs(reg, k, result[k])
    {
      for i := 0 to |keys|
        invariant Valid() && forall j :: 0 <= j < i ==> keys[j] in result
      {
        var inputs := Collect(keys[i]);
      }
    }
  }

  /** The memo of `inherited`. */
  class Inheritance {
    const reg: Registry
    const findings: Findings
    ghost const depths: map<Key, nat>
    var resolved: map<Key, set<Hold>>

    constructor (reg: Registry, findings: Findings, ghost depths: map<Key, nat>)
      requires Closed(reg.graph) && DepthsDecrease(reg.graph, depths) && Covers(reg, findings)
      ensures this.reg == reg && this.findings == findings && this.depths == depths && resolved == map[] && Valid()
    {
      this.reg, this.findings, this.depths, resolved := reg, findings, depths, map[];
    }

    ghost predicate Valid()
      reads this
    {
      && Closed(reg.graph) && DepthsDecrease(reg.graph, depths) && Covers(reg, findings)
      && forall k :: k in resolved ==> k in reg.graph && AreHolds(reg, findings, k, resolved[k])
    }

    method Inherited(key: Key) returns (r: set<Hold>)
      requires Valid() && key in reg.graph
      modifies this
      ensures Valid() && old(resolved.Keys) + {key} <= resolved.Keys
      ensures AreHolds(reg, findings, key, r)
      decreases depths[key], 1
    {
      if key !in resolved {
        var errors := InheritDependencies(key);
        resolved := resolved[key := errors];
      }
      return resolved[key];
    }

    method InheritDependencies(key: Key) returns (errors: set<Hold>)
      requires Valid() && key in reg.graph
      modifies this
      ensures Valid() && old(resolved.Keys) <= resolved.Keys
      ensures AreHolds(reg, findings, key, errors)
      decreases depths[key], 0
    {
      errors := OwnHolds(findings, key);
      for i := 0 to |reg.graph[key]|
        invariant Valid() && old(resolved.Keys) <= resolved.Keys
        invariant Gathered(reg, findings, key, i, errors)
      {
        var more := Inherited(reg.graph[key][i]);
        GatherOne(reg, findings, key, i, errors, more);
        errors := errors + more;
      }
      GatheredAll(reg, findings, key, errors);
    }

    /** Every entry ends up with exactly the holds of the entries it reaches. */
    method InheritAll(keys: seq<Key>)
      requires Valid() && forall k :: k in keys <==> k in reg.graph
      modifies this
      ensures resolved.Keys == reg.graph.Keys && forall k :: k in resolved ==> AreHolds(reg, findings, k, resolved[k])
    {
      for i := 0 to |keys|
        invariant Valid() && forall j :: 0 <= j < i ==> keys[j] in resolved
      {
        var holds := Inherited(keys[i]);
      }
    }
  }
}
