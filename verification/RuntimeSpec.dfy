/** What each operation of dependency_runtime does to the states of the nodes, stated over the
    whole graph at once: in terms of what depends on what, not of the loops that get there. */
module RuntimeSpec {
  import opened Wrappers
  import opened DependencyGraph
  import opened GraphBuild

  datatype State = Idle | Pending | Starting | Ready | Failed | Blocked

  datatype Runtime = Runtime(states: seq<State>, requested: seq<bool>)

  // ----- The dependency relation

  ghost function Rank(g: Graph, x: nat): nat {
    if x in g.order then
      var k :| 0 <= k < |g.order| && g.order[k] == x; k
    else 0
  }

  ghost predicate Dag(g: Graph) {
    && |g.names| == |g.dependencies|
    && forall x, d {:trigger d in g.dependencies[x]} :: 0 <= x < |g.names| && d in g.dependencies[x] ==>
      d < |g.names| && Rank(g, d) < Rank(g, x)
  }

  lemma RankAt(g: Graph, k: nat)
    requires Distinct(g.order) && k < |g.order|
    ensures Rank(g, g.order[k]) == k
  {}

  lemma ValidIsDag(g: Graph)
    requires g.Valid()
    ensures Dag(g)
  {
    PermutationCovers(g.order, |g.names|);
    forall x, d | 0 <= x < |g.names| && d in g.dependencies[x] ensures d < |g.names| && Rank(g, d) < Rank(g, x) {
      assert x in g.order;
      var k :| 0 <= k < |g.order| && g.order[k] == x;
      assert d in g.order[..k];
      var l :| 0 <= l < k && g.order[l] == d;
      RankAt(g, k);
      RankAt(g, l);
    }
  }

  /** `x` depends on `y`, directly or through other nodes. */
  ghost predicate DependsOn(g: Graph, x: nat, y: nat)
    requires Dag(g) && x < |g.names|
    decreases Rank(g, x)
  {
    exists d :: d in g.dependencies[x] && (d == y || DependsOn(g, d, y))
  }

  lemma {:induction false} DependsOnTransitive(g: Graph, x: nat, y: nat, z: nat)
    requires Dag(g) && x < |g.names| && y < |g.names|
    requires DependsOn(g, x, y) && DependsOn(g, y, z)
    ensures DependsOn(g, x, z)
    decreases Rank(g, x)
  {
    var d :| d in g.dependencies[x] && (d == y || DependsOn(g, d, y));
    if d != y { DependsOnTransitive(g, d, y, z); }
  }

  lemma {:induction false} DependsOnRank(g: Graph, x: nat, y: nat)
    requires Dag(g) && x < |g.names| && DependsOn(g, x, y)
    ensures y < |g.names| && Rank(g, y) < Rank(g, x)
    decreases Rank(g, x)
  {
    var d :| d in g.dependencies[x] && (d == y || DependsOn(g, d, y));
    if d != y { DependsOnRank(g, d, y); }
  }

  /** The relation is reachability along dependency edges. */
  lemma {:induction false} DependsOnIsWalk(g: Graph, x: nat, y: nat)
    requires Dag(g) && x < |g.names|
    ensures DependsOn(g, x, y) <==>
      exists p :: Walk(g.dependencies, p) && |p| >= 2 && p[0] == x && p[|p| - 1] == y
    decreases Rank(g, x)
  {
    if DependsOn(g, x, y) {
      var d :| d in g.dependencies[x] && (d == y || DependsOn(g, d, y));
      if d == y {
        assert Walk(g.dependencies, [x, y]);
      } else {
        DependsOnIsWalk(g, d, y);
        var p :| Walk(g.dependencies, p) && |p| >= 2 && p[0] == d && p[|p| - 1] == y;
        assert Walk(g.dependencies, [x] + p);
      }
    }
    if p :| Walk(g.dependencies, p) && |p| >= 2 && p[0] == x && p[|p| - 1] == y {
      assert p[1] in g.dependencies[x];
      if |p| > 2 {
        DependsOnIsWalk(g, p[1], y);
        assert Walk(g.dependencies, p[1..]);
      }
    }
  }

  // ----- The operations

  ghost predicate Fits(g: Graph, r: Runtime) {
    |r.states| == |g.names| && |r.requested| == |g.names|
  }

  ghost function AllIdle(g: Graph): Runtime {
    Runtime(seq(|g.names|, _ => Idle), seq(|g.names|, _ => false))
  }

  ghost predicate AllReady(g: Graph, r: Runtime, x: nat)
    requires Dag(g) && Fits(g, r) && x < |g.names|
  {
    forall d :: d in g.dependencies[x] ==> r.states[d] == Ready
  }

  ghost predicate CanStart(g: Graph, r: Runtime, x: nat)
    requires Dag(g) && Fits(g, r) && x < |g.names|
  {
    r.requested[x] && r.states[x] == Pending && AllReady(g, r, x)
  }

  /** collect_startable: every requested node whose dependencies are all ready starts. */
  ghost function Launch(g: Graph, r: Runtime): (r': Runtime)
    requires Dag(g) && Fits(g, r)
    ensures Fits(g, r')
  {
    r.(states := seq(|g.names|, x requires 0 <= x < |g.names| => if CanStart(g, r, x) then Starting else r.states[x]))
  }

  /** The nodes that `Launch` starts, in topological order. */
  ghost function Launched(g: Graph, r: Runtime, order: seq<nat>): (ids: seq<nat>)
    requires Dag(g) && Fits(g, r) && forall k :: 0 <= k < |order| ==> order[k] < |g.names|
    ensures forall x :: x in ids <==> x in order && CanStart(g, r, x)
    ensures forall k :: 0 <= k < |ids| ==> ids[k] < |g.names|
    ensures Distinct(order) ==> Distinct(ids)
  {
    if order == [] then []
    else
      var init, last := order[..|order| - 1], order[|order| - 1];
      Launched(g, r, init) + if CanStart(g, r, last) then [last] else []
  }

  /** They come in topological order. */
  lemma {:induction false} LaunchedInOrder(g: Graph, r: Runtime, n: nat, i: nat, j: nat)
    requires Dag(g) && Fits(g, r) && Distinct(g.order) && forall k :: 0 <= k < |g.order| ==> g.order[k] < |g.names|
    requires n <= |g.order| && i < j < |Launched(g, r, g.order[..n])|
    ensures Rank(g, Launched(g, r, g.order[..n])[i]) < Rank(g, Launched(g, r, g.order[..n])[j]) < n
  {
    var ids := Launched(g, r, g.order[..n]);
    assert g.order[..n][..n - 1] == g.order[..n - 1];
    RankAt(g, n - 1);
    if j < |Launched(g, r, g.order[..n - 1])| {
      LaunchedInOrder(g, r, n - 1, i, j);
    } else {
      assert ids[i] in g.order[..n - 1];
      var k :| 0 <= k < n - 1 && g.order[k] == ids[i];
      RankAt(g, k);
    }
  }

  ghost function AllRequested(r: Runtime): Runtime {
    Runtime(
      seq(|r.states|, x requires 0 <= x < |r.states| => if r.states[x] in {Idle, Blocked} then Pending else r.states[x]),
      seq(|r.requested|, _ => true))
  }

  /** Nodes at which request_dependencies does not turn back. */
  ghost predicate Open(r: Runtime, x: nat)
    requires x < |r.states| == |r.requested|
  {
    !r.requested[x] || r.states[x] in {Failed, Blocked}
  }

  /** `y` is reached from `x` through open nodes only, both ends included. */
  ghost predicate Opens(g: Graph, r: Runtime, x: nat, y: nat)
    requires Dag(g) && Fits(g, r) && x < |g.names|
    decreases Rank(g, x)
  {
    Open(r, x) && (x == y || exists d :: d in g.dependencies[x] && Opens(g, r, d, y))
  }

  ghost function Reopened(s: State): State {
    if s in {Idle, Blocked, Failed} then Pending else s
  }

  ghost function Request(g: Graph, r: Runtime, id: nat): (r': Runtime)
    requires Dag(g) && Fits(g, r) && id < |g.names|
    ensures Fits(g, r')
  {
    Runtime(
      seq(|g.names|, x requires 0 <= x < |g.names| =>
        if Opens(g, r, id, x) then Reopened(r.states[x]) else r.states[x]),
      seq(|g.names|, x requires 0 <= x < |g.names| => r.requested[x] || Opens(g, r, id, x)))
  }

  ghost predicate Held(s: State) {
    s == Failed || s == Blocked
  }

  /** The state of `x` once `id` is ready and everything it held back has been reconsidered. */
  ghost function Reconsidered(g: Graph, r: Runtime, id: nat, x: nat): State
    requires Dag(g) && Fits(g, r) && x < |g.names|
    decreases Rank(g, x)
  {
    if x == id then Ready
    else if DependsOn(g, x, id) && r.requested[x] && r.states[x] == Blocked then
      if exists d :: d in g.dependencies[x] && Held(Reconsidered(g, r, id, d)) then Blocked else Pending
    else r.states[x]
  }

  ghost function Unblocked(g: Graph, r: Runtime, id: nat): (r': Runtime)
    requires Dag(g) && Fits(g, r) && id < |g.names|
    ensures Fits(g, r')
  {
    Runtime(
      seq(|g.names|, x requires 0 <= x < |g.names| => Reconsidered(g, r, id, x)),
      r.requested[id := true])
  }

  ghost predicate FailureBlocks(g: Graph, r: Runtime, id: nat, x: nat)
    requires Dag(g) && Fits(g, r) && x < |g.names|
  {
    x != id && DependsOn(g, x, id) && r.requested[x] && r.states[x] != Ready
  }

  ghost function AfterFailure(g: Graph, r: Runtime, id: nat): (r': Runtime)
    requires Dag(g) && Fits(g, r) && id < |g.names|
    ensures Fits(g, r')
  {
    Runtime(
      seq(|g.names|, x requires 0 <= x < |g.names| =>
        if x == id then Failed else if FailureBlocks(g, r, id, x) then Blocked else r.states[x]),
      r.requested[id := true])
  }

  ghost function AfterRequestAll(g: Graph, r: Runtime): (r': Runtime)
    requires Dag(g) && Fits(g, r)
    ensures Fits(g, r')
  {
    Launch(g, AllRequested(r))
  }

  ghost function AfterClosure(g: Graph, r: Runtime, id: nat): (r': Runtime)
    requires Dag(g) && Fits(g, r) && id < |g.names|
    ensures Fits(g, r')
  {
    Launch(g, Request(g, r, id))
  }

  ghost function AfterReady(g: Graph, r: Runtime, id: nat): (r': Runtime)
    requires Dag(g) && Fits(g, r) && id < |g.names|
    ensures Fits(g, r')
  {
    Launch(g, Unblocked(g, r, id))
  }

  ghost function Assigned(r: Runtime, id: nat, s: State, requested: bool): Runtime
    requires id < |r.states| == |r.requested|
  {
    Runtime(r.states[id := s], r.requested[id := requested])
  }

  /** The open nodes are reached along dependency edges. */
  lemma {:induction false} OpensIsWalk(g: Graph, r: Runtime, x: nat, y: nat)
    requires Dag(g) && Fits(g, r) && x < |g.names|
    ensures Opens(g, r, x, y) <==> exists p :: OpenWalk(g, r, x, y, p)
    decreases Rank(g, x)
  {
    if Opens(g, r, x, y) {
      if x == y {
        assert OpenWalk(g, r, x, y, [x]);
      } else {
        var d :| d in g.dependencies[x] && Opens(g, r, d, y);
        OpensIsWalk(g, r, d, y);
        var p :| OpenWalk(g, r, d, y, p);
        assert OpenWalk(g, r, x, y, [x] + p);
      }
    }
    if p :| OpenWalk(g, r, x, y, p) {
      if |p| > 1 {
        assert p[1] in g.dependencies[x];
        assert OpenWalk(g, r, p[1], y, p[1..]);
        OpensIsWalk(g, r, p[1], y);
      }
    }
  }

  /** A walk from `x` to `y` on which every node is unrequested, failed or blocked. */
  ghost predicate OpenWalk(g: Graph, r: Runtime, x: nat, y: nat, p: seq<nat>)
    requires Fits(g, r) && |g.names| == |g.dependencies|
  {
    && Walk(g.dependencies, p) && p != [] && p[0] == x && p[|p| - 1] == y
    && forall i :: 0 <= i < |p| ==> !r.requested[p[i]] || r.states[p[i]] == Failed || r.states[p[i]] == Blocked
  }

  // ----- What is asked of the states

  ghost predicate Terminal(g: Graph, r: Runtime)
    requires Fits(g, r)
  {
    forall x :: 0 <= x < |g.names| && r.requested[x] ==> r.states[x] !in {Pending, Starting}
  }

  /** The failed nodes that blocked_by reaches: through blocked dependencies only. */
  ghost predicate HeldBy(g: Graph, r: Runtime, x: nat, y: nat)
    requires Dag(g) && Fits(g, r) && x < |g.names|
    decreases Rank(g, x)
  {
    exists d :: d in g.dependencies[x] &&
      (if r.states[d] == Failed then d == y else r.states[d] == Blocked && HeldBy(g, r, d, y))
  }

  /** A walk from `x` through blocked nodes to the failed node `y`. */
  ghost predicate HoldingWalk(g: Graph, r: Runtime, x: nat, y: nat, p: seq<nat>)
    requires Fits(g, r) && |g.names| == |g.dependencies|
  {
    && Walk(g.dependencies, p) && |p| >= 2 && p[0] == x && p[|p| - 1] == y && r.states[y] == Failed
    && forall i :: 1 <= i < |p| - 1 ==> r.states[p[i]] == Blocked
  }

  lemma {:induction false} HeldByIsWalk(g: Graph, r: Runtime, x: nat, y: nat)
    requires Dag(g) && Fits(g, r) && x < |g.names| && y < |g.names|
    ensures HeldBy(g, r, x, y) <==> exists p :: HoldingWalk(g, r, x, y, p)
    decreases Rank(g, x)
  {
    if HeldBy(g, r, x, y) {
      var d :| d in g.dependencies[x] &&
        (if r.states[d] == Failed then d == y else r.states[d] == Blocked && HeldBy(g, r, d, y));
      if r.states[d] == Failed {
        assert HoldingWalk(g, r, x, y, [x, y]);
      } else {
        HeldByIsWalk(g, r, d, y);
        var p :| HoldingWalk(g, r, d, y, p);
        assert HoldingWalk(g, r, x, y, [x] + p);
      }
    }
    if p :| HoldingWalk(g, r, x, y, p) {
      assert p[1] in g.dependencies[x];
      if |p| > 2 {
        assert HoldingWalk(g, r, p[1], y, p[1..]);
        HeldByIsWalk(g, r, p[1], y);
      }
    }
  }

  /** The failed nodes that hold `x` back. */
  ghost function HoldersOf(g: Graph, r: Runtime, x: nat): set<nat>
    requires Dag(g) && Fits(g, r) && x < |g.names|
  {
    set y | 0 <= y < |g.names| && HeldBy(g, r, x, y)
  }

  // ----- Carrying states over to another graph

  datatype Entry = Entry(name: string, state: State, requested: bool)

  ghost function Snapshot(g: Graph, r: Runtime): (entries: seq<Entry>)
    requires Fits(g, r)
  {
    seq(|g.names|, i requires 0 <= i < |g.names| => Entry(g.names[i], r.states[i], r.requested[i]))
  }

  ghost function Migrated(g: Graph, entries: seq<Entry>): (r: Runtime)
    ensures Fits(g, r)
  {
    if entries == [] then AllIdle(g)
    else
      var r, last := Migrated(g, entries[..|entries| - 1]), entries[|entries| - 1];
      match Find(g, last.name)
      case None => r
      case Some(id) => Assigned(r, id, last.state, last.requested)
  }

  /** With distinct names on both sides every node takes over the entry of its name, if any. */
  lemma {:induction false} MigratedAt(g: Graph, entries: seq<Entry>, x: nat)
    requires Distinct(g.names) && x < |g.names|
    requires forall i, j :: 0 <= i < j < |entries| ==> entries[i].name != entries[j].name
    ensures forall i :: 0 <= i < |entries| && entries[i].name == g.names[x] ==>
      Migrated(g, entries).states[x] == entries[i].state && Migrated(g, entries).requested[x] == entries[i].requested
    ensures (forall i :: 0 <= i < |entries| ==> entries[i].name != g.names[x]) ==>
      Migrated(g, entries).states[x] == Idle && !Migrated(g, entries).requested[x]
  {
    if entries != [] {
      var init, last := entries[..|entries| - 1], entries[|entries| - 1];
      MigratedAt(g, init, x);
      assert last.name == g.names[x] ==> Find(g, last.name) == Some(x) by {
        if last.name == g.names[x] { assert g.names[x] in g.names; }
      }
    }
  }
}
