/** dependency_runtime: the loops and recursions that carry out the operations of RuntimeSpec. */
module DependencyRuntime {
  import opened Wrappers
  import opened DependencyGraph
  import opened GraphBuild
  import opened RuntimeSpec

  /** `ids` are exactly the nodes that depend on `id`, in topological order. */
  ghost predicate DependentsInOrder(g: Graph, id: nat, ids: seq<nat>)
    requires Dag(g)
  {
    && (forall x: nat :: x in ids <==> x < |g.names| && DependsOn(g, x, id))
    && (forall i, j :: 0 <= i < j < |ids| ==> Rank(g, ids[i]) < Rank(g, ids[j]))
  }

  /** Every visited node but the ones still queued has had its dependents visited. */
  ghost predicate Explored(g: Graph, id: nat, visited: set<nat>, queue: seq<nat>)
    requires Dag(g)
  {
    && id in visited
    && (forall x :: x in visited ==> x < |g.names| && (x == id || DependsOn(g, x, id)))
    && (forall x :: x in queue ==> x in visited)
    && (forall x, d {:trigger d in g.dependencies[x]} ::
          0 <= x < |g.names| && d in g.dependencies[x] && d in visited && d !in queue ==> x in visited)
  }

  lemma {:induction false} ExploredIsAll(g: Graph, id: nat, visited: set<nat>, x: nat)
    requires Dag(g) && Explored(g, id, visited, []) && x < |g.names| && DependsOn(g, x, id)
    ensures x in visited
    decreases Rank(g, x)
  {
    var d :| d in g.dependencies[x] && (d == id || DependsOn(g, d, id));
    if d != id { ExploredIsAll(g, id, visited, d); }
  }

  /** Breadth-first search along the dependents, then sorted by topological position. */
  method TransitiveDependents(g: Graph, id: nat) returns (ids: seq<nat>)
    requires g.Valid() && Dag(g) && id < |g.names|
    ensures DependentsInOrder(g, id, ids)
  {
    var visited := Reached(g, id);
    ids := SortByPosition(g, visited - {id});
    forall x: nat | x < |g.names| ensures x in visited - {id} <==> DependsOn(g, x, id) {
      if DependsOn(g, x, id) {
        ExploredIsAll(g, id, visited, x);
        DependsOnRank(g, x, id);
      }
    }
  }

  method Reached(g: Graph, id: nat) returns (visited: set<nat>)
    requires g.Valid() && Dag(g) && id < |g.names|
    ensures Explored(g, id, visited, [])
  {
    var queue := [id];
    visited := {id};
    while queue != []
      invariant Explored(g, id, visited, queue)
      decreases Range(|g.names|) - visited, |queue|
    {
      assert queue == [queue[0]] + queue[1..];
      ghost var before := visited;
      visited, queue := VisitDependents(g, id, visited, queue[1..], queue[0]);
      if visited != before {
        assert visited == before + (visited - before);
        ghost var x :| x in visited - before;
        assert x in Range(|g.names|) - before;
      }
    }
  }

  method SortByPosition(g: Graph, chosen: set<nat>) returns (ids: seq<nat>)
    requires Arranged(g) && forall x :: x in chosen ==> x < |g.names|
    ensures forall x :: x in ids <==> x in chosen
    ensures forall i, j :: 0 <= i < j < |ids| ==> Rank(g, ids[i]) < Rank(g, ids[j])
  {
    ids := [];
    PermutationCovers(g.order, |g.names|);
    for k := 0 to |g.order|
      invariant forall x :: x in ids <==> x in g.order[..k] && x in chosen
      invariant forall i :: 0 <= i < |ids| ==> Rank(g, ids[i]) < k
      invariant forall i, j :: 0 <= i < j < |ids| ==> Rank(g, ids[i]) < Rank(g, ids[j])
    {
      RankAt(g, k);
      assert g.order[..k + 1] == g.order[..k] + [g.order[k]];
      if g.order[k] in chosen { ids := ids + [g.order[k]]; }
    }
    assert g.order[..|g.order|] == g.order;
    assert forall x :: x in chosen ==> x in g.order;
  }

  method VisitDependents(g: Graph, ghost id: nat, visited0: set<nat>, queue0: seq<nat>, current: nat)
    returns (visited: set<nat>, queue: seq<nat>)
    requires Dag(g) && ReverseOf(g.dependencies, g.dependents) && id < |g.names|
    requires Explored(g, id, visited0, [current] + queue0)
    ensures Explored(g, id, visited, queue)
    ensures visited0 <= visited
    ensures visited == visited0 ==> queue == queue0
  {
    visited, queue := visited0, queue0;
    assert current in [current] + queue0;
    var list := g.dependents[current];
    for k := 0 to |list|
      invariant visited0 <= visited
      invariant visited == visited0 ==> queue == queue0
      invariant Explored(g, id, visited, [current] + queue)
      invariant forall x :: x in list[..k] ==> x in visited
    {
      var dependent := list[k];
      assert dependent in g.dependents[current];
      assert current in g.dependencies[dependent];
      assert DependsOn(g, dependent, id);
      if dependent !in visited {
        Enqueue(g, id, visited, [current] + queue, dependent);
        visited := visited + {dependent};
        queue := queue + [dependent];
        assert [current] + queue == [current] + queue[..|queue| - 1] + [dependent];
      }
    }
    assert list[..|list|] == list;
    Dequeue(g, id, visited, queue, current);
  }

  lemma Dequeue(g: Graph, id: nat, visited: set<nat>, queue: seq<nat>, current: nat)
    requires Dag(g) && ReverseOf(g.dependencies, g.dependents) && current < |g.names|
    requires Explored(g, id, visited, [current] + queue)
    requires forall x :: x in g.dependents[current] ==> x in visited
    ensures Explored(g, id, visited, queue)
  {
    forall x | x in queue ensures x in visited {
      assert x in [current] + queue;
    }
    forall x, d | 0 <= x < |g.names| && d in g.dependencies[x] && d in visited && d !in queue ensures x in visited {
      if d == current {
        assert x in g.dependents[current];
      } else {
        assert d !in [current] + queue;
      }
    }
  }

  lemma Enqueue(g: Graph, id: nat, visited: set<nat>, queue: seq<nat>, x: nat)
    requires Dag(g) && Explored(g, id, visited, queue)
    requires x < |g.names| && DependsOn(g, x, id)
    ensures Explored(g, id, visited + {x}, queue + [x])
  {}

  ghost function Names(g: Graph, ids: seq<nat>): seq<string>
    requires forall k :: 0 <= k < |ids| ==> ids[k] < |g.names|
  {
    NamesOf(g.names, ids)
  }

  /** The nodes from `ids` that a failure of `id` newly blocks. */
  ghost predicate NewlyBlocked(g: Graph, r: Runtime, id: nat, blocked: seq<nat>)
    requires Dag(g) && Fits(g, r)
  {
    && (forall i :: 0 <= i < |blocked| ==> blocked[i] < |g.names|)
    && (forall x: nat :: x in blocked <==> x < |g.names| && FailureBlocks(g, r, id, x) && r.states[x] != Blocked)
    && (forall i, j :: 0 <= i < j < |blocked| ==> Rank(g, blocked[i]) < Rank(g, blocked[j]))
  }

  method DependenciesReady(g: Graph, states: seq<State>, ghost r: Runtime, id: nat) returns (ready: bool)
    requires Dag(g) && Fits(g, r) && r.states == states && id < |g.names|
    ensures ready <==> AllReady(g, r, id)
  {
    var list := g.dependencies[id];
    for k := 0 to |list|
      invariant forall d :: d in list[..k] ==> d < |states| && states[d] == Ready
    {
      assert list[k] in g.dependencies[id];
      assert list[..k + 1] == list[..k] + [list[k]];
      if states[list[k]] != Ready { return false; }
    }
    assert list[..|list|] == list;
    ready := true;
  }

  /** The order is a permutation of the nodes. */
  ghost predicate Arranged(g: Graph) {
    |g.order| == |g.names| && Distinct(g.order) && forall k :: 0 <= k < |g.order| ==> g.order[k] < |g.names|
  }

  /** The states once the first `k` nodes of the topological order have been considered. */
  ghost predicate LaunchedUpTo(g: Graph, r: Runtime, k: nat, states: seq<State>)
    requires Arranged(g) && Dag(g) && Fits(g, r) && k <= |g.order|
  {
    && |states| == |g.names|
    && forall x :: 0 <= x < |g.names| ==>
      states[x] == if x in g.order[..k] && CanStart(g, r, x) then Starting else r.states[x]
  }

  lemma LaunchNext(g: Graph, r: Runtime, k: nat, states: seq<State>)
    requires Arranged(g) && Dag(g) && Fits(g, r) && k < |g.order| && LaunchedUpTo(g, r, k, states)
    ensures states[g.order[k]] == r.states[g.order[k]]
    ensures AllReady(g, r.(states := states), g.order[k]) <==> AllReady(g, r, g.order[k])
    ensures LaunchedUpTo(g, r, k + 1, if CanStart(g, r, g.order[k]) then states[g.order[k] := Starting] else states)
    ensures Launched(g, r, g.order[..k + 1]) ==
      Launched(g, r, g.order[..k]) + if CanStart(g, r, g.order[k]) then [g.order[k]] else []
  {
    assert g.order[..k + 1] == g.order[..k] + [g.order[k]];
    assert g.order[k] !in g.order[..k];
    SameReadiness(g, r, r.(states := states), g.order[k]);
  }

  lemma LaunchComplete(g: Graph, r: Runtime, states: seq<State>)
    requires Arranged(g) && Dag(g) && Fits(g, r) && LaunchedUpTo(g, r, |g.order|, states)
    ensures states == Launch(g, r).states
  {
    PermutationCovers(g.order, |g.names|);
    forall x: nat | x < |g.names| ensures states[x] == Launch(g, r).states[x] {
      assert x in g.order;
    }
  }

  lemma NamesOfAppend(names: seq<string>, ids: seq<nat>, x: nat)
    requires x < |names| && forall k :: 0 <= k < |ids| ==> ids[k] < |names|
    ensures NamesOf(names, ids + [x]) == NamesOf(names, ids) + [names[x]]
  {}

  /** collect_startable, on the states as a value. */
  method StartableStates(g: Graph, states0: seq<State>, requested: seq<bool>)
    returns (states: seq<State>, names: seq<string>)
    requires Arranged(g) && Dag(g) && Fits(g, Runtime(states0, requested))
    ensures states == Launch(g, Runtime(states0, requested)).states
    ensures names == Names(g, Launched(g, Runtime(states0, requested), g.order))
  {
    states, names := states0, [];
    ghost var r := Runtime(states0, requested);
    ghost var ids := [];
    for k := 0 to |g.order|
      invariant LaunchedUpTo(g, r, k, states)
      invariant ids == Launched(g, r, g.order[..k])
      invariant names == Names(g, ids)
    {
      var id := g.order[k];
      LaunchNext(g, r, k, states);
      var ready := DependenciesReady(g, states, r.(states := states), id);
      if requested[id] && states[id] == Pending && ready {
        NamesOfAppend(g.names, ids, id);
        states, names, ids := states[id := Starting], names + [g.names[id]], ids + [id];
      }
    }
    assert g.order[..|g.order|] == g.order;
    LaunchComplete(g, r, states);
  }

  class DependencyRuntime {
    var graph: Graph
    var states: seq<State>
    var requested: seq<bool>

    ghost predicate Valid()
      reads this
    {
      graph.Valid() && Dag(graph) && Fits(graph, Now())
    }

    ghost function Now(): Runtime
      reads this
    {
      Runtime(states, requested)
    }

    constructor (graph: Graph)
      requires graph.Valid()
      ensures Valid() && this.graph == graph && Now() == AllIdle(graph)
    {
      this.graph := graph;
      states := seq(|graph.names|, _ => Idle);
      requested := seq(|graph.names|, _ => false);
      ValidIsDag(graph);
    }

    method Reset(graph: Graph)
      requires graph.Valid()
      modifies this
      ensures Valid() && this.graph == graph && Now() == AllIdle(graph)
    {
      this.graph := graph;
      states := seq(|graph.names|, _ => Idle);
      requested := seq(|graph.names|, _ => false);
      ValidIsDag(graph);
    }

    method CollectStartable() returns (names: seq<string>)
      requires Valid()
      modifies this`states
      ensures Valid() && Now() == Launch(graph, old(Now()))
      ensures names == Names(graph, Launched(graph, old(Now()), graph.order))
    {
      states, names := StartableStates(graph, states, requested);
    }

    method RequestAll() returns (names: seq<string>)
      requires Valid()
      modifies this`states, this`requested
      ensures Valid() && Now() == AfterRequestAll(graph, old(Now()))
      ensures names == Names(graph, Launched(graph, AllRequested(old(Now())), graph.order))
    {
      requested := seq(|requested|, _ => true);
      ghost var r0 := old(Now());
      for i := 0 to |states|
        invariant |states| == |graph.names| && requested == AllRequested(r0).requested
        invariant forall x :: 0 <= x < |states| ==>
          states[x] == if x < i then AllRequested(r0).states[x] else r0.states[x]
      {
        if states[i] == Idle || states[i] == Blocked { states := states[i := Pending]; }
      }
      assert states == AllRequested(r0).states && requested == AllRequested(r0).requested;
      names := CollectStartable();
    }

    method RequestClosure(name: string) returns (names: seq<string>)
      requires Valid()
      modifies this`states, this`requested
      ensures Valid()
      ensures match Find(graph, name)
        case None => Now() == old(Now()) && names == []
        case Some(id) =>
          && Now() == AfterClosure(graph, old(Now()), id)
          && names == Names(graph, Launched(graph, Request(graph, old(Now()), id), graph.order))
    {
      var found := Find(graph, name);
      if found == None { return []; }
      ghost var r0, visited := Now(), {};
      states, requested, visited := RequestDependencies(graph, states, requested, found.value, r0, visited);
      names := CollectStartable();
    }

    method MarkReady(name: string) returns (names: seq<string>)
      requires Valid()
      modifies this`states, this`requested
      ensures Valid()
      ensures match Find(graph, name)
        case None => Now() == old(Now()) && names == []
        case Some(id) =>
          && Now() == AfterReady(graph, old(Now()), id)
          && names == Names(graph, Launched(graph, Unblocked(graph, old(Now()), id), graph.order))
    {
      var found := Find(graph, name);
      if found == None { return []; }
      var id := found.value;
      ghost var r0 := Now();
      requested := requested[id := true];
      states := states[id := Ready];
      var list := TransitiveDependents(graph, id);
      ReconsiderStart(graph, r0, id, list);
      for k := 0 to |list|
        invariant Valid() && requested == r0.requested[id := true]
        invariant ReconsideredUpTo(graph, r0, id, list, k, states)
      {
        var x := list[k];
        assert x in list;
        var held := AnyHeld(graph, states, Now(), x);
        ReconsiderNext(graph, r0, id, list, k, states);
        if requested[x] && states[x] == Blocked && !held {
          states := states[x := Pending];
        }
      }
      ReconsiderEnd(graph, r0, id, list, states);
      names := CollectStartable();
    }

    method MarkFailed(name: string) returns (failed: seq<string>, blocked: seq<string>, ghost ids: seq<nat>)
      requires Valid()
      modifies this`states, this`requested
      ensures Valid()
      ensures match Find(graph, name)
        case None => Now() == old(Now()) && failed == [] && blocked == []
        case Some(id) =>
          && Now() == AfterFailure(graph, old(Now()), id)
          && failed == [name]
          && NewlyBlocked(graph, old(Now()), id, ids) && blocked == Names(graph, ids)
    {
      failed, blocked, ids := [], [], [];
      var found := Find(graph, name);
      if found == None { return; }
      var id := found.value;
      ghost var r0 := Now();
      requested := requested[id := true];
      states := states[id := Failed];
      failed := [name];
      var list := TransitiveDependents(graph, id);
      states, blocked, ids := BlockDependents(graph, list, states, requested, id, r0);
    }

    method MarkStarting(name: string)
      requires Valid()
      modifies this`states, this`requested
      ensures Valid()
      ensures match Find(graph, name)
        case None => Now() == old(Now())
        case Some(id) => Now() == Assigned(old(Now()), id, Starting, true)
    {
      var found := Find(graph, name);
      if found.Some? {
        requested, states := requested[found.value := true], states[found.value := Starting];
      }
    }

    method MarkIdle(name: string)
      requires Valid()
      modifies this`states, this`requested
      ensures Valid()
      ensures match Find(graph, name)
        case None => Now() == old(Now())
        case Some(id) => Now() == Assigned(old(Now()), id, Idle, false)
    {
      var found := Find(graph, name);
      if found.Some? {
        requested, states := requested[found.value := false], states[found.value := Idle];
      }
    }

    method AllTerminal() returns (terminal: bool)
      requires Valid()
      ensures terminal <==> Terminal(graph, Now())
    {
      for i := 0 to |states|
        invariant forall x :: 0 <= x < i && requested[x] ==> states[x] !in {Pending, Starting}
      {
        if requested[i] && (states[i] == Pending || states[i] == Starting) { return false; }
      }
      terminal := true;
    }

    /** The failed nodes that hold `name` back, in id order. */
    method BlockedBy(name: string) returns (names: seq<string>)
      requires Valid()
      ensures match Find(graph, name)
        case None => names == []
        case Some(id) => names == Names(graph, InIdOrder(HoldersOf(graph, Now(), id), |graph.names|))
    {
      var found := Find(graph, name);
      if found == None { return []; }
      var visited, result := Holders(graph, states, Now(), found.value, {}, {});
      HoldersComplete(graph, Now(), found.value, visited, result);
      names := SortById(graph, result);
    }

    method TakeSnapshot() returns (entries: seq<Entry>)
      requires Valid()
      ensures entries == Snapshot(graph, Now())
    {
      entries := [];
      for i := 0 to |graph.names|
        invariant |entries| == i && forall k :: 0 <= k < i ==> entries[k] == Snapshot(graph, Now())[k]
      {
        entries := entries + [Entry(graph.names[i], states[i], requested[i])];
      }
    }

    method Migrate(graph: Graph, entries: seq<Entry>)
      requires graph.Valid()
      modifies this
      ensures Valid() && this.graph == graph && Now() == Migrated(graph, entries)
    {
      Reset(graph);
      for i := 0 to |entries|
        invariant Valid() && this.graph == graph && Now() == Migrated(graph, entries[..i])
      {
        assert entries[..i + 1][..i] == entries[..i];
        var found := Find(graph, entries[i].name);
        if found.Some? {
          states := states[found.value := entries[i].state];
          requested := requested[found.value := entries[i].requested];
        }
      }
      assert entries[..|entries|] == entries;
    }
  }

  // ----- blocked_by

  /** The chosen numbers below `n`, in ascending order. */
  ghost function InIdOrder(chosen: set<nat>, n: nat): (ids: seq<nat>)
    ensures Ascending(ids) && forall y: nat :: y in ids <==> y < n && y in chosen
    ensures forall i :: 0 <= i < |ids| ==> ids[i] < n
  {
    if n == 0 then [] else InIdOrder(chosen, n - 1) + if n - 1 in chosen then [n - 1] else []
  }

  ghost function NamesBelow(g: Graph, chosen: set<nat>, n: nat): seq<string>
    requires n <= |g.names|
  {
    if n == 0 then [] else NamesBelow(g, chosen, n - 1) + if n - 1 in chosen then [g.names[n - 1]] else []
  }

  lemma {:induction false} NamesBelowAreInOrder(g: Graph, chosen: set<nat>, n: nat)
    requires n <= |g.names|
    ensures NamesBelow(g, chosen, n) == Names(g, InIdOrder(chosen, n))
  {
    if n > 0 {
      var before := InIdOrder(chosen, n - 1);
      NamesBelowAreInOrder(g, chosen, n - 1);
      if n - 1 in chosen {
        NamesOfAppend(g.names, before, n - 1);
      } else {
        assert InIdOrder(chosen, n) == before + [] == before;
      }
    }
  }

  method SortById(g: Graph, chosen: set<nat>) returns (names: seq<string>)
    ensures names == Names(g, InIdOrder(chosen, |g.names|))
  {
    names := [];
    for i := 0 to |g.names|
      invariant names == NamesBelow(g, chosen, i)
    {
      if i in chosen { names := names + [g.names[i]]; }
    }
    NamesBelowAreInOrder(g, chosen, |g.names|);
  }

  /** Failed nodes seen are reported; blocked ones added since `before` have been looked into. */
  ghost predicate LookedInto(g: Graph, r: Runtime, before: set<nat>, visited: set<nat>, result: set<nat>)
    requires Dag(g) && Fits(g, r)
  {
    && (forall w :: w in visited ==> w < |g.names| && (r.states[w] == Failed ==> w in result))
    && (forall w, d {:trigger d in g.dependencies[w]} ::
          w in visited && w !in before && w < |g.names| && r.states[w] == Blocked && d in g.dependencies[w] ==> d in visited)
  }

  method Holders(g: Graph, states: seq<State>, ghost r: Runtime, current: nat, visited0: set<nat>, result0: set<nat>)
    returns (visited: set<nat>, result: set<nat>)
    requires Dag(g) && Fits(g, r) && r.states == states && current < |g.names|
    requires LookedInto(g, r, visited0, visited0, result0)
    ensures visited0 <= visited && result0 <= result
    ensures LookedInto(g, r, visited0, visited, result)
    ensures forall d :: d in g.dependencies[current] ==> d in visited
    ensures forall y :: y in result && y !in result0 ==> HeldBy(g, r, current, y)
    decreases Rank(g, current)
  {
    visited, result := visited0, result0;
    var list := g.dependencies[current];
    for k := 0 to |list|
      invariant visited0 <= visited && result0 <= result
      invariant LookedInto(g, r, visited0, visited, result)
      invariant forall d :: d in list[..k] ==> d in visited
      invariant forall y :: y in result && y !in result0 ==> HeldBy(g, r, current, y)
    {
      var d := list[k];
      assert d in g.dependencies[current];
      assert list[..k + 1] == list[..k] + [d];
      if d !in visited {
        if states[d] == Failed {
          assert HeldBy(g, r, current, d);
          visited, result := visited + {d}, result + {d};
        } else if states[d] == Blocked {
          ghost var before := result;
          visited, result := Holders(g, states, r, d, visited + {d}, result);
          assert forall y :: y in result && y !in before ==> HeldBy(g, r, d, y) && HeldBy(g, r, current, y);
        } else {
          visited := visited + {d};
        }
      }
    }
    assert list[..|list|] == list;
  }

  lemma {:induction false} HoldersFound(g: Graph, r: Runtime, x: nat, visited: set<nat>, result: set<nat>, y: nat)
    requires Dag(g) && Fits(g, r) && x < |g.names| && LookedInto(g, r, {}, visited, result)
    requires forall d :: d in g.dependencies[x] ==> d in visited
    requires HeldBy(g, r, x, y)
    ensures y in result
    decreases Rank(g, x)
  {
    var d :| d in g.dependencies[x] &&
      (if r.states[d] == Failed then d == y else r.states[d] == Blocked && HeldBy(g, r, d, y));
    if r.states[d] == Blocked { HoldersFound(g, r, d, visited, result, y); }
  }

  lemma HoldersComplete(g: Graph, r: Runtime, x: nat, visited: set<nat>, result: set<nat>)
    requires Dag(g) && Fits(g, r) && x < |g.names| && LookedInto(g, r, {}, visited, result)
    requires forall d :: d in g.dependencies[x] ==> d in visited
    requires forall y :: y in result ==> HeldBy(g, r, x, y)
    ensures result == HoldersOf(g, r, x)
  {
    forall y: nat | HeldBy(g, r, x, y) ensures y in result && y < |g.names| {
      HoldersFound(g, r, x, visited, result, y);
      HeldByIsNode(g, r, x, y);
    }
  }

  lemma {:induction false} HeldByIsNode(g: Graph, r: Runtime, x: nat, y: nat)
    requires Dag(g) && Fits(g, r) && x < |g.names| && HeldBy(g, r, x, y)
    ensures y < |g.names| && r.states[y] == Failed
    decreases Rank(g, x)
  {
    var d :| d in g.dependencies[x] &&
      (if r.states[d] == Failed then d == y else r.states[d] == Blocked && HeldBy(g, r, d, y));
    if r.states[d] == Blocked { HeldByIsNode(g, r, d, y); }
  }

  // ----- request_dependencies

  /** `r` is `r0` with exactly the nodes in `visited` requested. */
  ghost predicate Marked(g: Graph, r0: Runtime, visited: set<nat>, r: Runtime)
    requires Fits(g, r0)
  {
    && Fits(g, r)
    && (forall v :: v in visited ==> v < |g.names| && Open(r0, v))
    && (forall x :: 0 <= x < |g.names| ==>
          && r.states[x] == (if x in visited then Reopened(r0.states[x]) else r0.states[x])
          && r.requested[x] == (r0.requested[x] || x in visited))
  }

  /** The nodes added to `before` bring their open dependencies along. */
  ghost predicate ClosedBetween(g: Graph, r0: Runtime, before: set<nat>, after: set<nat>)
    requires Dag(g) && Fits(g, r0)
  {
    forall x, d {:trigger d in g.dependencies[x]} ::
      x in after && x !in before && x < |g.names| && d in g.dependencies[x] && Open(r0, d) ==> d in after
  }

  /** request_dependencies, on the states as values: marks `id` and everything open beneath it. */
  method RequestDependencies(g: Graph, states0: seq<State>, requested0: seq<bool>, id: nat,
                             ghost r0: Runtime, ghost visited0: set<nat>)
    returns (states: seq<State>, requested: seq<bool>, ghost visited: set<nat>)
    requires Dag(g) && id < |g.names| && Fits(g, r0)
    requires Marked(g, r0, visited0, Runtime(states0, requested0))
    ensures Marked(g, r0, visited, Runtime(states, requested))
    ensures visited0 <= visited && (Open(r0, id) ==> id in visited)
    ensures forall v :: v in visited && v !in visited0 ==> Opens(g, r0, id, v)
    ensures ClosedBetween(g, r0, visited0, visited)
    ensures visited0 == {} ==> Runtime(states, requested) == Request(g, r0, id)
    decreases Rank(g, id)
  {
    states, requested, visited := states0, requested0, visited0;
    if requested[id] && states[id] != Failed && states[id] != Blocked {
      if visited0 == {} { MarkedAll(g, r0, visited, Runtime(states, requested), id); }
      return;
    }
    requested := requested[id := true];
    if states[id] == Idle || states[id] == Blocked || states[id] == Failed {
      states := states[id := Pending];
    }
    visited := visited + {id};
    assert Opens(g, r0, id, id);
    var list := g.dependencies[id];
    for k := 0 to |list|
      invariant Marked(g, r0, visited, Runtime(states, requested))
      invariant visited0 + {id} <= visited
      invariant forall v :: v in visited && v !in visited0 ==> Opens(g, r0, id, v)
      invariant ClosedBetween(g, r0, visited0 + {id}, visited)
      invariant forall d :: d in list[..k] && d < |g.names| && Open(r0, d) ==> d in visited
    {
      assert list[k] in g.dependencies[id];
      assert list[..k + 1] == list[..k] + [list[k]];
      states, requested, visited := RequestDependencies(g, states, requested, list[k], r0, visited);
    }
    assert list[..|list|] == list;
    if visited0 == {} { MarkedAll(g, r0, visited, Runtime(states, requested), id); }
  }

  lemma {:induction false} OpensIsMarked(g: Graph, r0: Runtime, visited: set<nat>, x: nat, y: nat)
    requires Dag(g) && Fits(g, r0) && x < |g.names| && x in visited
    requires ClosedBetween(g, r0, {}, visited) && Opens(g, r0, x, y)
    ensures y in visited
    decreases Rank(g, x)
  {
    if x != y {
      var d :| d in g.dependencies[x] && Opens(g, r0, d, y);
      OpensIsMarked(g, r0, visited, d, y);
    }
  }

  lemma MarkedAll(g: Graph, r0: Runtime, visited: set<nat>, r: Runtime, id: nat)
    requires Dag(g) && Fits(g, r0) && Marked(g, r0, visited, r) && id < |g.names|
    requires Open(r0, id) ==> id in visited
    requires forall v :: v in visited ==> Opens(g, r0, id, v)
    requires ClosedBetween(g, r0, {}, visited)
    ensures r == Request(g, r0, id)
  {
    forall x: nat | x < |g.names| ensures x in visited <==> Opens(g, r0, id, x) {
      if Opens(g, r0, id, x) { OpensIsMarked(g, r0, visited, id, x); }
    }
    var r' := Request(g, r0, id);
    assert r.states == r'.states && r.requested == r'.requested;
  }

  // ----- mark_ready

  method AnyHeld(g: Graph, states: seq<State>, ghost r: Runtime, x: nat) returns (held: bool)
    requires Dag(g) && Fits(g, r) && r.states == states && x < |g.names|
    ensures held <==> exists d :: d in g.dependencies[x] && Held(states[d])
  {
    var list := g.dependencies[x];
    for k := 0 to |list|
      invariant forall d :: d in list[..k] ==> d < |states| && !Held(states[d])
    {
      assert list[k] in g.dependencies[x];
      assert list[..k + 1] == list[..k] + [list[k]];
      if states[list[k]] == Failed || states[list[k]] == Blocked { return true; }
    }
    assert list[..|list|] == list;
    held := false;
  }

  /** Everything but the last dependents in the list has been reconsidered. */
  ghost predicate ReconsideredUpTo(g: Graph, r0: Runtime, id: nat, list: seq<nat>, k: nat, states: seq<State>)
    requires Dag(g) && Fits(g, r0) && k <= |list|
  {
    && |states| == |g.names|
    && DependentsInOrder(g, id, list)
    && forall x :: 0 <= x < |g.names| ==>
      states[x] == if x in list[k..] then r0.states[x] else Reconsidered(g, r0, id, x)
  }

  lemma ReconsiderStart(g: Graph, r0: Runtime, id: nat, list: seq<nat>)
    requires Dag(g) && Fits(g, r0) && id < |g.names| && DependentsInOrder(g, id, list)
    ensures ReconsideredUpTo(g, r0, id, list, 0, r0.states[id := Ready])
  {
    if id in list { DependsOnRank(g, id, id); }
    assert list[0..] == list;
  }

  lemma ReconsiderNext(g: Graph, r0: Runtime, id: nat, list: seq<nat>, k: nat, states: seq<State>)
    requires Dag(g) && Fits(g, r0) && id < |g.names| && k < |list|
    requires ReconsideredUpTo(g, r0, id, list, k, states)
    ensures list[k] < |g.names| && list[k] != id && states[list[k]] == r0.states[list[k]]
    ensures forall d :: d in g.dependencies[list[k]] ==> states[d] == Reconsidered(g, r0, id, d)
    ensures var x := list[k];
      var next := if r0.requested[x] && states[x] == Blocked && !(exists d :: d in g.dependencies[x] && Held(states[d]))
                  then Pending else states[x];
      ReconsideredUpTo(g, r0, id, list, k + 1, states[x := next])
  {
    var x := list[k];
    assert x in list && DependsOn(g, x, id);
    if x == id { DependsOnRank(g, id, id); }
    assert list[k..] == [x] + list[k + 1..];
    assert x !in list[k + 1..];
    assert forall d :: d in g.dependencies[x] ==> d !in list[k..];
    if exists d :: d in g.dependencies[x] && Held(states[d]) {
      var d :| d in g.dependencies[x] && Held(states[d]);
      assert Held(Reconsidered(g, r0, id, d));
    }
  }

  lemma ReconsiderEnd(g: Graph, r0: Runtime, id: nat, list: seq<nat>, states: seq<State>)
    requires Dag(g) && Fits(g, r0) && id < |g.names| && ReconsideredUpTo(g, r0, id, list, |list|, states)
    ensures states == Unblocked(g, r0, id).states
  {
    assert list[|list|..] == [];
  }

  // ----- mark_failed

  ghost predicate FailedUpTo(g: Graph, r0: Runtime, id: nat, list: seq<nat>, k: nat, states: seq<State>)
    requires Dag(g) && Fits(g, r0) && k <= |list|
  {
    && |states| == |g.names|
    && DependentsInOrder(g, id, list)
    && id !in list
    && forall x :: 0 <= x < |g.names| ==>
      states[x] == if x == id then Failed
                   else if x in list[..k] && FailureBlocks(g, r0, id, x) then Blocked
                   else r0.states[x]
  }

  ghost predicate BlockedUpTo(g: Graph, r0: Runtime, id: nat, list: seq<nat>, k: nat, ids: seq<nat>)
    requires Dag(g) && Fits(g, r0) && k <= |list|
  {
    && (forall i :: 0 <= i < |ids| ==> ids[i] < |g.names|)
    && (forall x: nat :: x in ids <==>
          x in list[..k] && x < |g.names| && FailureBlocks(g, r0, id, x) && r0.states[x] != Blocked)
    && (forall i, j :: 0 <= i < j < |ids| ==> Rank(g, ids[i]) < Rank(g, ids[j]))
  }

  /** The loop of mark_failed over the transitive dependents. */
  method BlockDependents(g: Graph, list: seq<nat>, states0: seq<State>, requested: seq<bool>, id: nat, ghost r0: Runtime)
    returns (states: seq<State>, blocked: seq<string>, ghost ids: seq<nat>)
    requires Dag(g) && Fits(g, r0) && id < |g.names| && DependentsInOrder(g, id, list)
    requires states0 == r0.states[id := Failed] && requested == r0.requested[id := true]
    ensures states == AfterFailure(g, r0, id).states
    ensures NewlyBlocked(g, r0, id, ids) && blocked == Names(g, ids)
  {
    states, blocked, ids := states0, [], [];
    if id in list { DependsOnRank(g, id, id); }
    for k := 0 to |list|
      invariant FailedUpTo(g, r0, id, list, k, states)
      invariant BlockedUpTo(g, r0, id, list, k, ids)
      invariant blocked == Names(g, ids)
    {
      states, blocked, ids := BlockNext(g, list, k, states, requested, id, r0, blocked, ids);
    }
    FailEnd(g, r0, id, list, states, ids);
  }

  method BlockNext(g: Graph, list: seq<nat>, k: nat, states0: seq<State>, requested: seq<bool>, id: nat,
                   ghost r0: Runtime, blocked0: seq<string>, ghost ids0: seq<nat>)
    returns (states: seq<State>, blocked: seq<string>, ghost ids: seq<nat>)
    requires Dag(g) && Fits(g, r0) && id < |g.names| && k < |list|
    requires FailedUpTo(g, r0, id, list, k, states0) && BlockedUpTo(g, r0, id, list, k, ids0)
    requires requested == r0.requested[id := true] && blocked0 == Names(g, ids0)
    ensures FailedUpTo(g, r0, id, list, k + 1, states) && BlockedUpTo(g, r0, id, list, k + 1, ids)
    ensures blocked == Names(g, ids)
  {
    states, blocked, ids := states0, blocked0, ids0;
    var x := list[k];
    FailNext(g, r0, id, list, k, states);
    BlockedNext(g, r0, id, list, k, ids);
    NamesOfAppend(g.names, ids, x);
    if requested[x] && states[x] != Ready {
      if states[x] != Blocked {
        blocked, ids := blocked + [g.names[x]], ids + [x];
      }
      states := states[x := Blocked];
    }
  }

  lemma FailNext(g: Graph, r0: Runtime, id: nat, list: seq<nat>, k: nat, states: seq<State>)
    requires Dag(g) && Fits(g, r0) && id < |g.names| && k < |list|
    requires FailedUpTo(g, r0, id, list, k, states)
    ensures list[k] < |g.names| && list[k] != id && states[list[k]] == r0.states[list[k]]
    ensures FailureBlocks(g, r0, id, list[k]) <==> r0.requested[list[k]] && states[list[k]] != Ready
    ensures FailedUpTo(g, r0, id, list, k + 1,
      if FailureBlocks(g, r0, id, list[k]) then states[list[k] := Blocked] else states)
  {
    var x := list[k];
    assert x in list;
    assert DependsOn(g, x, id);
    assert x !in list[..k];
    forall y ensures y in list[..k + 1] <==> y in list[..k] || y == x {
      assert list[..k + 1] == list[..k] + [x];
    }
  }

  lemma BlockedNext(g: Graph, r0: Runtime, id: nat, list: seq<nat>, k: nat, ids: seq<nat>)
    requires Dag(g) && Fits(g, r0) && k < |list| && list[k] < |g.names|
    requires forall i :: 0 <= i < k ==> Rank(g, list[i]) < Rank(g, list[k])
    requires BlockedUpTo(g, r0, id, list, k, ids)
    ensures BlockedUpTo(g, r0, id, list, k + 1,
      if FailureBlocks(g, r0, id, list[k]) && r0.states[list[k]] != Blocked then ids + [list[k]] else ids)
  {
    var x := list[k];
    assert list[..k + 1] == list[..k] + [x];
    forall i | 0 <= i < |ids| ensures Rank(g, ids[i]) < Rank(g, x) {
      assert ids[i] in ids;
      var j :| 0 <= j < k && list[j] == ids[i];
    }
  }

  lemma FailEnd(g: Graph, r0: Runtime, id: nat, list: seq<nat>, states: seq<State>, ids: seq<nat>)
    requires Dag(g) && Fits(g, r0) && id < |g.names|
    requires FailedUpTo(g, r0, id, list, |list|, states) && BlockedUpTo(g, r0, id, list, |list|, ids)
    ensures states == AfterFailure(g, r0, id).states && NewlyBlocked(g, r0, id, ids)
  {
    assert list[..|list|] == list;
  }

  /** Starting nodes does not change whether anything else is ready. */
  lemma SameReadiness(g: Graph, r: Runtime, r': Runtime, id: nat)
    requires Dag(g) && Fits(g, r) && Fits(g, r') && id < |g.names|
    requires forall x :: 0 <= x < |g.names| ==> (r'.states[x] == Ready <==> r.states[x] == Ready)
    ensures AllReady(g, r', id) <==> AllReady(g, r, id)
  {}
}
