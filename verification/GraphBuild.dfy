/** dependency_graph::build: names to indices, Kahn's algorithm over a min-heap, and the depth-first
    search that names a cycle when Kahn's loop stalls. */
module GraphBuild {
  import opened Wrappers
  import opened DependencyGraph
  import opened CycleSearch

  datatype NodeConfig = NodeConfig(name: string, dependsOn: seq<string>)

  datatype ErrorCode =
    | EmptyName | DuplicateName | DuplicateDependency | SelfDependency | MissingDependency | CycleFound

  datatype Graph = Graph(names: seq<string>, dependencies: Edges, dependents: Edges, order: seq<nat>)
  {
    /** What every graph returned by `Build` satisfies. */
    ghost predicate Valid() {
      && |names| == |dependencies|
      && Distinct(names)
      && WellFormed(dependencies)
      && ReverseOf(dependencies, dependents)
      && Topological(dependencies, order)
      && Greedy(dependencies, order)
    }
  }

  datatype BuildResult =
    | Built(graph: Graph)
    | Rejected(code: ErrorCode, cyclePath: seq<string>)

  // ----- What is wrong with a list of configurations, in the order in which it is looked for

  function NameFault(configs: seq<NodeConfig>, k: nat): Option<ErrorCode>
    requires k < |configs|
  {
    if configs[k].name == "" then Some(EmptyName)
    else if exists j :: 0 <= j < k && configs[j].name == configs[k].name then Some(DuplicateName)
    else None
  }

  predicate Known(configs: seq<NodeConfig>, name: string) {
    exists k :: 0 <= k < |configs| && configs[k].name == name
  }

  function DependencyFault(configs: seq<NodeConfig>, i: nat, j: nat): Option<ErrorCode>
    requires i < |configs| && j < |configs[i].dependsOn|
  {
    var dependency := configs[i].dependsOn[j];
    if dependency in configs[i].dependsOn[..j] then Some(DuplicateDependency)
    else if dependency == configs[i].name then Some(SelfDependency)
    else if !Known(configs, dependency) then Some(MissingDependency)
    else None
  }

  /** What each error code says about the configuration it is reported for. */
  lemma NameFaultMeans(configs: seq<NodeConfig>, k: nat)
    requires k < |configs|
    ensures NameFault(configs, k) in {None, Some(EmptyName), Some(DuplicateName)}
    ensures NameFault(configs, k) == Some(EmptyName) <==> |configs[k].name| == 0
    ensures NameFault(configs, k) == Some(DuplicateName) ==>
      exists j :: 0 <= j < k && configs[j].name == configs[k].name
  {}

  lemma DependencyFaultMeans(configs: seq<NodeConfig>, i: nat, j: nat)
    requires i < |configs| && j < |configs[i].dependsOn|
    ensures var d, fault := configs[i].dependsOn[j], DependencyFault(configs, i, j);
      && fault in {None, Some(DuplicateDependency), Some(SelfDependency), Some(MissingDependency)}
      && (fault == Some(DuplicateDependency) ==> exists l :: 0 <= l < j && configs[i].dependsOn[l] == d)
      && (fault == Some(SelfDependency) ==> d == configs[i].name)
      && (fault == Some(MissingDependency) ==> forall k :: 0 <= k < |configs| ==> configs[k].name != d)
  {}

  ghost predicate NamesOk(configs: seq<NodeConfig>) {
    && (forall k :: 0 <= k < |configs| ==> configs[k].name != "")
    && (forall j, k :: 0 <= j < k < |configs| ==> configs[j].name != configs[k].name)
  }

  ghost predicate DependenciesOk(configs: seq<NodeConfig>) {
    forall i :: 0 <= i < |configs| ==> DependencyListOk(configs, configs[i])
  }

  ghost predicate DependencyListOk(configs: seq<NodeConfig>, config: NodeConfig) {
    && Distinct(config.dependsOn)
    && config.name !in config.dependsOn
    && (forall d :: d in config.dependsOn ==> Known(configs, d))
  }

  ghost predicate DependsDirectly(configs: seq<NodeConfig>, name: string, dependency: string) {
    exists i :: 0 <= i < |configs| && configs[i].name == name && dependency in configs[i].dependsOn
  }

  ghost predicate NameWalk(configs: seq<NodeConfig>, p: seq<string>) {
    forall i :: 0 <= i < |p| - 1 ==> DependsDirectly(configs, p[i], p[i + 1])
  }

  /** A chain of dependencies that leads back to where it started. */
  ghost predicate Circular(configs: seq<NodeConfig>, p: seq<string>) {
    |p| >= 2 && p[0] == p[|p| - 1] && NameWalk(configs, p)
  }

  ghost predicate Acyclic(configs: seq<NodeConfig>) {
    !exists p :: Circular(configs, p)
  }

  // ----- Resolving names

  /** Node `i` is configuration `i`, and edge `j` of node `i` leads to its `j`-th dependency. */
  ghost predicate Resolves(configs: seq<NodeConfig>, names: seq<string>, deps: Edges) {
    && |names| == |configs| == |deps|
    && (forall i :: 0 <= i < |configs| ==> names[i] == configs[i].name)
    && (forall i :: 0 <= i < |configs| ==> ResolvesNode(configs, deps[i], configs[i].dependsOn))
  }

  ghost predicate ResolvesNode(configs: seq<NodeConfig>, ids: seq<nat>, dependsOn: seq<string>) {
    && |ids| == |dependsOn|
    && forall j :: 0 <= j < |ids| ==> ids[j] < |configs| && configs[ids[j]].name == dependsOn[j]
  }

  function NamesOf(names: seq<string>, ids: seq<nat>): (r: seq<string>)
    requires forall k :: 0 <= k < |ids| ==> ids[k] < |names|
    ensures |r| == |ids| && forall k :: 0 <= k < |ids| ==> r[k] == names[ids[k]]
  {
    if ids == [] then [] else NamesOf(names, ids[..|ids| - 1]) + [names[ids[|ids| - 1]]]
  }

  method IndexNames(configs: seq<NodeConfig>) returns (fault: Option<ErrorCode>, indices: map<string, nat>)
    ensures fault == None <==> NamesOk(configs)
    ensures fault.Some? ==>
      exists k :: 0 <= k < |configs| && fault == NameFault(configs, k)
        && forall j :: 0 <= j < k ==> NameFault(configs, j) == None
    ensures fault == None ==>
      && (forall name :: name in indices ==> indices[name] < |configs| && configs[indices[name]].name == name)
      && (forall k :: 0 <= k < |configs| ==> configs[k].name in indices)
  {
    indices := map[];
    for i := 0 to |configs|
      invariant NamesOk(configs[..i])
      invariant forall j :: 0 <= j < i ==> NameFault(configs, j) == None
      invariant forall name :: name in indices ==> indices[name] < i && configs[indices[name]].name == name
      invariant forall k :: 0 <= k < i ==> configs[k].name in indices
    {
      if configs[i].name == "" {
        assert NameFault(configs, i) == Some(EmptyName);
        return Some(EmptyName), indices;
      }
      if configs[i].name in indices {
        var j := indices[configs[i].name];
        assert configs[j].name == configs[i].name;
        assert NameFault(configs, i) == Some(DuplicateName);
        return Some(DuplicateName), indices;
      }
      indices := indices[configs[i].name := i];
    }
    assert configs[..|configs|] == configs;
    fault := None;
  }

  method ResolveDependencies(configs: seq<NodeConfig>, indices: map<string, nat>)
    returns (fault: Option<ErrorCode>, deps: Edges, dependents: Edges)
    requires NamesOk(configs)
    requires forall name :: name in indices ==> indices[name] < |configs| && configs[indices[name]].name == name
    requires forall k :: 0 <= k < |configs| ==> configs[k].name in indices
    ensures fault == None <==> DependenciesOk(configs)
    ensures fault.Some? ==>
      exists i, j :: 0 <= i < |configs| && 0 <= j < |configs[i].dependsOn| && fault == DependencyFault(configs, i, j)
        && DependenciesOkBefore(configs, i, j)
    ensures fault == None ==>
      && |deps| == |configs| && WellFormed(deps) && ReverseOf(deps, dependents)
      && forall i :: 0 <= i < |configs| ==> ResolvesNode(configs, deps[i], configs[i].dependsOn)
  {
    deps := [];
    dependents := seq(|configs|, _ => []);
    for i := 0 to |configs|
      invariant |deps| == i && |dependents| == |configs|
      invariant forall k :: 0 <= k < i ==> DependencyListOk(configs, configs[k])
      invariant forall k :: 0 <= k < i ==> ResolvesNode(configs, deps[k], configs[k].dependsOn)
      invariant ReverseSoFar(deps, dependents)
    {
      var ids: seq<nat>;
      fault, ids, dependents := ResolveNode(configs, indices, i, deps, dependents);
      if fault.Some? { return; }
      deps := deps + [ids];
    }
    fault := None;
  }

  ghost predicate DependenciesOkBefore(configs: seq<NodeConfig>, i: nat, j: nat)
    requires i < |configs| && j < |configs[i].dependsOn|
  {
    && (forall k :: 0 <= k < i ==> DependencyListOk(configs, configs[k]))
    && (forall l :: 0 <= l < j ==> DependencyFault(configs, i, l) == None)
  }

  lemma NoFaults(configs: seq<NodeConfig>, i: nat)
    requires i < |configs|
    requires forall j :: 0 <= j < |configs[i].dependsOn| ==> DependencyFault(configs, i, j) == None
    ensures DependencyListOk(configs, configs[i])
  {
    var list := configs[i].dependsOn;
    forall j, k | 0 <= j < k < |list| ensures list[j] != list[k] {
      assert DependencyFault(configs, i, k) == None;
      assert list[j] in list[..k];
    }
    forall d | d in list ensures d != configs[i].name && Known(configs, d) {
      var k :| 0 <= k < |list| && list[k] == d;
      assert DependencyFault(configs, i, k) == None;
    }
  }

  /** `dependents` lists the edges of `deps` backwards. */
  ghost predicate ReverseSoFar(deps: Edges, dependents: Edges) {
    && |deps| <= |dependents|
    && (forall d :: 0 <= d < |dependents| ==> Ascending(dependents[d]))
    && (forall d, i :: 0 <= d < |dependents| && i in dependents[d] ==> i < |deps|)
    && (forall d, i :: 0 <= d < |dependents| && 0 <= i < |deps| ==> (i in dependents[d] <==> d in deps[i]))
  }

  lemma AddReverseEdge(deps: Edges, ids: seq<nat>, dependents: Edges, d: nat)
    requires |deps| < |dependents| && d < |dependents| && d !in ids
    requires ReverseSoFar(deps + [ids], dependents)
    ensures ReverseSoFar(deps + [ids + [d]], dependents[d := dependents[d] + [|deps|]])
  {
    var deps0, deps1 := deps + [ids], deps + [ids + [d]];
    var after := dependents[d := dependents[d] + [|deps|]];
    assert |deps| !in dependents[d] by {
      assert deps0[|deps|] == ids;
    }
    assert Ascending(dependents[d] + [|deps|]) by {
      assert Ascending(dependents[d]);
      forall i | 0 <= i < |dependents[d]| ensures dependents[d][i] < |deps| {
        assert dependents[d][i] in dependents[d];
      }
    }
    forall e, i | 0 <= e < |after| && 0 <= i < |deps1| ensures i in after[e] <==> e in deps1[i] {
      assert i in dependents[e] <==> e in deps0[i];
      if i < |deps| { assert deps1[i] == deps0[i] == deps[i]; }
    }
  }

  method ResolveNode(configs: seq<NodeConfig>, indices: map<string, nat>, i: nat, deps: Edges, dependents: Edges)
    returns (fault: Option<ErrorCode>, ids: seq<nat>, dependents': Edges)
    requires i < |configs| && |deps| == i && |dependents| == |configs|
    requires forall name :: name in indices ==> indices[name] < |configs| && configs[indices[name]].name == name
    requires forall k :: 0 <= k < |configs| ==> configs[k].name in indices
    requires ReverseSoFar(deps, dependents)
    ensures fault == None <==> DependencyListOk(configs, configs[i])
    ensures fault.Some? ==>
      exists j :: 0 <= j < |configs[i].dependsOn| && fault == DependencyFault(configs, i, j)
        && forall l :: 0 <= l < j ==> DependencyFault(configs, i, l) == None
    ensures fault == None ==> ResolvesNode(configs, ids, configs[i].dependsOn)
    ensures fault == None ==> |dependents'| == |dependents| && ReverseSoFar(deps + [ids], dependents')
  {
    ids, dependents' := [], dependents;
    var seen := {};
    for j := 0 to |configs[i].dependsOn|
      invariant seen == Elems(configs[i].dependsOn[..j])
      invariant forall l :: 0 <= l < j ==> DependencyFault(configs, i, l) == None
      invariant ResolvesNode(configs, ids, configs[i].dependsOn[..j])
      invariant |dependents'| == |configs| && ReverseSoFar(deps + [ids], dependents')
    {
      var dependency := configs[i].dependsOn[j];
      ghost var found := DependencyFault(configs, i, j);
      if dependency in seen { return Some(DuplicateDependency), ids, dependents'; }
      seen := seen + {dependency};
      if dependency == configs[i].name { return Some(SelfDependency), ids, dependents'; }
      if dependency !in indices {
        assert dependency in configs[i].dependsOn && !Known(configs, dependency);
        return Some(MissingDependency), ids, dependents';
      }
      var d := indices[dependency];
      AddReverseEdge(deps, ids, dependents', d);
      ids := ids + [d];
      dependents' := dependents'[d := dependents'[d] + [i]];
    }
    assert configs[i].dependsOn[..|configs[i].dependsOn|] == configs[i].dependsOn;
    NoFaults(configs, i);
    fault := None;
  }

  // ----- Kahn's algorithm

  /** How many of the listed dependencies have not been placed. */
  ghost function Missing(ids: seq<nat>, done: set<nat>): (n: nat)
    ensures n == 0 <==> forall d :: d in ids ==> d in done
  {
    if ids == [] then 0
    else Missing(ids[..|ids| - 1], done) + if ids[|ids| - 1] in done then 0 else 1
  }

  lemma {:induction false} MissingNothing(ids: seq<nat>)
    ensures Missing(ids, {}) == |ids|
  {
    if ids != [] { MissingNothing(ids[..|ids| - 1]); }
  }

  lemma {:induction false} MissingAfter(ids: seq<nat>, done: set<nat>, x: nat)
    requires Distinct(ids) && x !in done
    ensures Missing(ids, done + {x}) == Missing(ids, done) - if x in ids then 1 else 0
  {
    if ids != [] {
      var init := ids[..|ids| - 1];
      MissingAfter(init, done, x);
      assert x in ids <==> x in init || x == ids[|ids| - 1];
    }
  }

  method Kahn(deps: Edges, dependents: Edges) returns (order: seq<nat>)
    requires WellFormed(deps) && ReverseOf(deps, dependents)
    ensures Distinct(order) && DependenciesFirst(deps, order) && Greedy(deps, order)
    ensures Available(deps, Elems(order)) == {}
  {
    order := [];
    var indegree := seq(|deps|, i requires 0 <= i < |deps| => |deps[i]|);
    var ready := set i: nat | i < |deps| && indegree[i] == 0;
    forall i | 0 <= i < |deps| ensures indegree[i] == Missing(deps[i], {}) { MissingNothing(deps[i]); }
    assert Elems(order) == {};
    while ready != {}
      invariant PlacedGreedily(deps, order)
      invariant ready == Available(deps, Elems(order))
      invariant |indegree| == |deps|
      invariant forall i :: 0 <= i < |deps| ==> indegree[i] == Missing(deps[i], Elems(order))
      decreases |deps| - |order|
    {
      LeastExists(ready);
      var id :| id in ready && forall x :: x in ready ==> id <= x;
      ghost var done := Elems(order);
      ExtendOrder(deps, order, id);
      indegree, ready := Release(deps, dependents, id, done, indegree, ready - {id});
      order := order + [id];
    }
    PlacedIsGreedy(deps, order);
  }

  /** The smallest available node can be placed next; what is placed has its dependencies placed. */
  lemma ExtendOrder(deps: Edges, order: seq<nat>, id: nat)
    requires PlacedGreedily(deps, order) && IsLeast(id, Available(deps, Elems(order)))
    ensures PlacedGreedily(deps, order + [id])
    ensures Elems(order + [id]) == Elems(order) + {id}
    ensures forall i, d :: i in Elems(order) && i < |deps| && d in deps[i] ==> d in Elems(order)
    ensures |order| < |deps|
  {
    assert (order + [id])[..|order|] == order;
    PlacedIsGreedy(deps, order);
    PlacedIsGreedy(deps, order + [id]);
    NotTooLong(deps, order + [id]);
    forall i, d | i in Elems(order) && i < |deps| && d in deps[i] ensures d in Elems(order) {
      var k :| 0 <= k < |order| && order[k] == i;
      assert d in order[..k];
    }
  }

  lemma NotTooLong(deps: Edges, order: seq<nat>)
    requires Distinct(order) && forall k :: 0 <= k < |order| ==> order[k] < |deps|
    ensures |order| <= |deps|
  {
    DistinctSize(order);
    var all := Range(|deps|);
    assert Elems(order) <= all;
    assert all == Elems(order) + (all - Elems(order));
  }

  /** Takes one placed node off the indegree of its dependents. */
  method Release(deps: Edges, dependents: Edges, id: nat, ghost done: set<nat>, indegree0: seq<nat>, ready0: set<nat>)
    returns (indegree: seq<nat>, ready: set<nat>)
    requires WellFormed(deps) && ReverseOf(deps, dependents)
    requires id in Available(deps, done) && ready0 == Available(deps, done) - {id}
    requires forall i, d :: i in done && i < |deps| && d in deps[i] ==> d in done
    requires |indegree0| == |deps|
    requires forall i :: 0 <= i < |deps| ==> indegree0[i] == Missing(deps[i], done)
    ensures |indegree| == |deps|
    ensures forall i :: 0 <= i < |deps| ==> indegree[i] == Missing(deps[i], done + {id})
    ensures ready == Available(deps, done + {id})
  {
    indegree, ready := indegree0, ready0;
    var list := dependents[id];
    for t := 0 to |list|
      invariant |indegree| == |deps|
      invariant forall i :: 0 <= i < |deps| ==>
        indegree[i] == Missing(deps[i], if i in list[..t] then done + {id} else done)
      invariant forall i :: i in ready <==> i in ready0 || (i in list[..t] && i < |deps| && indegree[i] == 0)
    {
      var dependent := list[t];
      assert dependent in dependents[id];
      assert dependent !in list[..t] && id in deps[dependent];
      MissingAfter(deps[dependent], done, id);
      indegree := indegree[dependent := indegree[dependent] - 1];
      if indegree[dependent] == 0 { ready := ready + {dependent}; }
    }
    assert list[..|list|] == list;
    forall i | 0 <= i < |deps|
      ensures indegree[i] == Missing(deps[i], done + {id})
      ensures i in ready <==> i in Available(deps, done + {id})
    {
      MissingAfter(deps[i], done, id);
    }
  }

  // ----- Cycles of names and cycles of nodes

  lemma NodeCycleNamed(configs: seq<NodeConfig>, names: seq<string>, deps: Edges, p: seq<nat>)
    requires NamesOk(configs) && Resolves(configs, names, deps) && Cycle(deps, p)
    ensures Circular(configs, NamesOf(names, p))
    ensures Distinct(NamesOf(names, p)[..|p| - 1])
  {
    var q := NamesOf(names, p);
    forall i | 0 <= i < |q| - 1 ensures DependsDirectly(configs, q[i], q[i + 1]) {
      var j :| 0 <= j < |deps[p[i]]| && deps[p[i]][j] == p[i + 1];
      assert ResolvesNode(configs, deps[p[i]], configs[p[i]].dependsOn);
      assert configs[p[i]].dependsOn[j] == q[i + 1];
    }
    forall i, j | 0 <= i < j < |p| - 1 ensures q[i] != q[j] {
      assert p[..|p| - 1][i] != p[..|p| - 1][j];
    }
  }

  lemma EdgeOfNames(configs: seq<NodeConfig>, names: seq<string>, deps: Edges, x: nat, y: nat)
    requires NamesOk(configs) && Resolves(configs, names, deps)
    requires x < |configs| && y < |configs|
    requires DependsDirectly(configs, configs[x].name, configs[y].name)
    ensures y in deps[x]
  {}

  ghost function IndexOf(configs: seq<NodeConfig>, name: string): nat {
    if Known(configs, name) then
      var k :| 0 <= k < |configs| && configs[k].name == name; k
    else 0
  }

  lemma NameCycleFound(configs: seq<NodeConfig>, names: seq<string>, deps: Edges, p: seq<string>)
    requires NamesOk(configs) && Resolves(configs, names, deps) && Circular(configs, p)
    ensures exists q :: ClosedWalk(deps, q)
  {
    var q := seq(|p|, i requires 0 <= i < |p| => IndexOf(configs, p[i]));
    forall i | 0 <= i < |p| ensures q[i] < |configs| && configs[q[i]].name == p[i] {
      var i' := if i == |p| - 1 then 0 else i;
      assert p[i'] == p[i] && DependsDirectly(configs, p[i'], p[i' + 1]);
      assert Known(configs, p[i]);
    }
    forall i | 0 <= i < |q| - 1 ensures q[i + 1] in deps[q[i]] {
      EdgeOfNames(configs, names, deps, q[i], q[i + 1]);
    }
    assert ClosedWalk(deps, q);
  }

  /** Succeeds exactly on named, closed, acyclic configurations, and then with the smallest
      topological order; otherwise reports the first fault, or a cycle. */
  method Build(configs: seq<NodeConfig>) returns (r: BuildResult)
    ensures r.Built? <==> NamesOk(configs) && DependenciesOk(configs) && Acyclic(configs)
    ensures r.Built? ==> r.graph.Valid() && Resolves(configs, r.graph.names, r.graph.dependencies)
    ensures r.Rejected? && !NamesOk(configs) ==>
      exists k :: 0 <= k < |configs| && NameFault(configs, k) == Some(r.code)
        && forall j :: 0 <= j < k ==> NameFault(configs, j) == None
    ensures r.Rejected? && NamesOk(configs) && !DependenciesOk(configs) ==>
      exists i, j :: 0 <= i < |configs| && 0 <= j < |configs[i].dependsOn|
        && DependencyFault(configs, i, j) == Some(r.code) && DependenciesOkBefore(configs, i, j)
    ensures r.Rejected? && NamesOk(configs) && DependenciesOk(configs) ==>
      && r.code == CycleFound
      && Circular(configs, r.cyclePath) && Distinct(r.cyclePath[..|r.cyclePath| - 1])
  {
    var fault, indices := IndexNames(configs);
    if fault.Some? { return Rejected(fault.value, []); }
    var names := seq(|configs|, i requires 0 <= i < |configs| => configs[i].name);
    var deps, dependents;
    fault, deps, dependents := ResolveDependencies(configs, indices);
    if fault.Some? { return Rejected(fault.value, []); }
    var order := Kahn(deps, dependents);
    if |order| != |configs| {
      Incomplete(deps, order);
      var path := FindCycle(deps, Elems(order));
      NodeCycleNamed(configs, names, deps, path);
      return Rejected(CycleFound, NamesOf(names, path));
    }
    r := Built(Graph(names, deps, dependents, order));
    if exists p :: Circular(configs, p) {
      ghost var p :| Circular(configs, p);
      NameCycleFound(configs, names, deps, p);
      ghost var q :| ClosedWalk(deps, q);
      OrderedIsAcyclic(deps, order, q);
    }
  }

  lemma Incomplete(deps: Edges, order: seq<nat>)
    requires Distinct(order) && DependenciesFirst(deps, order) && |order| != |deps|
    ensures exists x: nat :: x < |deps| && x !in Elems(order)
  {
    NotTooLong(deps, order);
    DistinctSize(order);
    var all := Range(|deps|);
    assert Elems(order) <= all;
    assert all == Elems(order) + (all - Elems(order));
    assert |all - Elems(order)| > 0;
    var x :| x in all - Elems(order);
    assert x < |deps| && x !in Elems(order);
  }

  /** The configurations determine the graph. */
  lemma GraphUnique(configs: seq<NodeConfig>, g: Graph, h: Graph)
    requires NamesOk(configs)
    requires g.Valid() && Resolves(configs, g.names, g.dependencies)
    requires h.Valid() && Resolves(configs, h.names, h.dependencies)
    ensures g == h
  {
    forall i | 0 <= i < |configs| ensures g.dependencies[i] == h.dependencies[i] {
      SameIds(configs, g.dependencies[i], h.dependencies[i], configs[i].dependsOn);
    }
    assert g.names == h.names && g.dependencies == h.dependencies;
    forall d | 0 <= d < |configs| ensures g.dependents[d] == h.dependents[d] {
      SameDependents(g, h, d);
    }
    assert g.dependents == h.dependents;
    GreedyIsUnique(g.dependencies, g.order, h.order);
  }

  lemma SameIds(configs: seq<NodeConfig>, ids: seq<nat>, ids': seq<nat>, dependsOn: seq<string>)
    requires NamesOk(configs)
    requires ResolvesNode(configs, ids, dependsOn) && ResolvesNode(configs, ids', dependsOn)
    ensures ids == ids'
  {}

  lemma SameDependents(g: Graph, h: Graph, d: nat)
    requires |g.dependencies| == |h.dependencies| && d < |g.dependencies| && g.dependencies == h.dependencies
    requires ReverseOf(g.dependencies, g.dependents) && ReverseOf(h.dependencies, h.dependents)
    ensures g.dependents[d] == h.dependents[d]
  {
    forall i ensures i in g.dependents[d] <==> i in h.dependents[d] {
      if i in g.dependents[d] { assert d in h.dependencies[i]; }
      if i in h.dependents[d] { assert d in g.dependencies[i]; }
    }
    AscendingUnique(g.dependents[d], h.dependents[d]);
  }

  function Reverse(s: seq<nat>): (r: seq<nat>)
    ensures |r| == |s| && forall i :: 0 <= i < |s| ==> r[i] == s[|s| - 1 - i]
  {
    if s == [] then [] else [s[|s| - 1]] + Reverse(s[..|s| - 1])
  }

  /** reverse_topological_order, the order in which a shutdown asks the programs to stop: every
      program is asked exactly once, and before anything it depends on. */
  lemma StopsDependentsFirst(deps: Edges, order: seq<nat>)
    requires Topological(deps, order)
    ensures Distinct(Reverse(order)) && forall x: nat :: x < |deps| ==> x in Reverse(order)
    ensures forall i, j | 0 <= i < |order| && 0 <= j < |order| ::
      Reverse(order)[j] in deps[Reverse(order)[i]] ==> i < j
  {
    var r, n := Reverse(order), |order|;
    PermutationCovers(order, n);
    forall x: nat | x < n ensures x in r {
      assert x in order;
      var k :| 0 <= k < n && order[k] == x;
      assert r[n - 1 - k] == x;
    }
    forall i, j | 0 <= i < n && 0 <= j < n && r[j] in deps[r[i]] ensures i < j {
      assert r[j] in order[..n - 1 - i];
    }
  }

  /** dependency_graph::find. */
  function Find(g: Graph, name: string): (r: Option<nat>)
    ensures r == None ==> name !in g.names
    ensures r.Some? ==> r.value < |g.names| && g.names[r.value] == name
  {
    FindFrom(g.names, name, 0)
  }

  function FindFrom(names: seq<string>, name: string, from: nat): (r: Option<nat>)
    requires from <= |names|
    ensures r == None ==> name !in names[from..]
    ensures r.Some? ==> r.value < |names| && names[r.value] == name
    decreases |names| - from
  {
    if from == |names| then None
    else if names[from] == name then Some(from)
    else FindFrom(names, name, from + 1)
  }
}
