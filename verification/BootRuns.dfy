/** Boot: everything is requested once and every start is reported once, in any order.  How a boot
    ends depends only on which programs start successfully, not on the order of the reports. */
module BootRuns {
  import opened DependencyGraph
  import opened GraphBuild
  import opened RuntimeSpec

  /** Some node beneath `x` has reported a failure. */
  ghost predicate Spoiled(g: Graph, ok: seq<bool>, done: set<nat>, x: nat)
    requires Dag(g) && |ok| == |g.names| && x < |g.names|
  {
    exists y :: 0 <= y < |g.names| && DependsOn(g, x, y) && y in done && !ok[y]
  }

  ghost predicate Started(s: State) {
    s == Starting || s == Ready || s == Failed
  }

  ghost predicate Supported(g: Graph, ok: seq<bool>, done: set<nat>, x: nat)
    requires Dag(g) && |ok| == |g.names| && x < |g.names|
  {
    forall d :: d in g.dependencies[x] ==> d in done && ok[d]
  }

  /** The state of every node, told from the set of nodes that have reported. */
  ghost function StateAt(g: Graph, ok: seq<bool>, done: set<nat>, x: nat): State
    requires Dag(g) && |ok| == |g.names| && x < |g.names|
  {
    if x in done then if ok[x] then Ready else Failed
    else if Spoiled(g, ok, done, x) then Blocked
    else if Supported(g, ok, done, x) then Starting
    else Pending
  }

  ghost predicate At(g: Graph, ok: seq<bool>, done: set<nat>, r: Runtime)
    requires Dag(g)
  {
    && Fits(g, r) && |ok| == |g.names|
    && (forall x :: 0 <= x < |g.names| ==> r.requested[x] && r.states[x] == StateAt(g, ok, done, x))
    && (forall x :: x in done ==> x < |g.names| && Supported(g, ok, done, x))
  }

  lemma {:induction false} SupportedAllTheWay(g: Graph, ok: seq<bool>, done: set<nat>, x: nat, y: nat)
    requires Dag(g) && |ok| == |g.names| && x < |g.names|
    requires forall z :: z in done ==> z < |g.names| && Supported(g, ok, done, z)
    requires Supported(g, ok, done, x) && DependsOn(g, x, y)
    ensures y in done && ok[y]
    decreases Rank(g, x)
  {
    var d :| d in g.dependencies[x] && (d == y || DependsOn(g, d, y));
    if d != y { SupportedAllTheWay(g, ok, done, d, y); }
  }

  lemma BootStarts(g: Graph, ok: seq<bool>)
    requires Dag(g) && |ok| == |g.names|
    ensures At(g, ok, {}, AfterRequestAll(g, AllIdle(g)))
  {}

  /** No report of success unblocks a node above a failure. */
  lemma {:induction false} SpoiledStaysBlocked(g: Graph, ok: seq<bool>, done: set<nat>, r: Runtime, id: nat, x: nat)
    requires Dag(g) && At(g, ok, done, r) && id < |g.names| && r.states[id] == Starting
    requires x < |g.names| && r.states[x] == Blocked
    ensures Reconsidered(g, r, id, x) == Blocked
    decreases Rank(g, x)
  {
    var y :| 0 <= y < |g.names| && DependsOn(g, x, y) && y in done && !ok[y];
    var d :| d in g.dependencies[x] && (d == y || DependsOn(g, d, y));
    if d == y {
      assert Held(Reconsidered(g, r, id, d));
    } else {
      if d in done { SupportedAllTheWay(g, ok, done, d, y); }
      assert Spoiled(g, ok, done, d);
      SpoiledStaysBlocked(g, ok, done, r, id, d);
      assert Held(Reconsidered(g, r, id, d));
    }
  }

  lemma SuccessStep(g: Graph, ok: seq<bool>, done: set<nat>, r: Runtime, id: nat)
    requires Dag(g) && At(g, ok, done, r) && id < |g.names| && r.states[id] == Starting && ok[id]
    ensures At(g, ok, done + {id}, AfterReady(g, r, id))
    ensures forall x :: 0 <= x < |g.names| ==>
      (Started(AfterReady(g, r, id).states[x]) <==> Started(r.states[x]) || CanStart(g, Unblocked(g, r, id), x))
    ensures forall x :: 0 <= x < |g.names| && Started(r.states[x]) ==> Unblocked(g, r, id).states[x] != Pending
  {
    var u, done' := Unblocked(g, r, id), done + {id};
    forall x | 0 <= x < |g.names| ensures u.states[x] == if x == id then Ready else r.states[x] {
      if r.states[x] == Blocked { SpoiledStaysBlocked(g, ok, done, r, id, x); }
    }
    forall x | 0 <= x < |g.names| ensures Spoiled(g, ok, done', x) <==> Spoiled(g, ok, done, x) {
      if Spoiled(g, ok, done', x) {
        var y :| 0 <= y < |g.names| && DependsOn(g, x, y) && y in done' && !ok[y];
        assert y in done;
      }
      if Spoiled(g, ok, done, x) {
        var y :| 0 <= y < |g.names| && DependsOn(g, x, y) && y in done && !ok[y];
        assert y in done';
      }
    }
    forall x | 0 <= x < |g.names| ensures AllReady(g, u, x) <==> Supported(g, ok, done', x) {
      if AllReady(g, u, x) {
        forall d | d in g.dependencies[x] ensures d in done' && ok[d] {
          assert u.states[d] == Ready;
        }
      }
    }
  }

  lemma FailureStep(g: Graph, ok: seq<bool>, done: set<nat>, r: Runtime, id: nat)
    requires Dag(g) && At(g, ok, done, r) && id < |g.names| && r.states[id] == Starting && !ok[id]
    ensures At(g, ok, done + {id}, AfterFailure(g, r, id))
    ensures forall x :: 0 <= x < |g.names| ==> (Started(AfterFailure(g, r, id).states[x]) <==> Started(r.states[x]))
  {
    var r', done' := AfterFailure(g, r, id), done + {id};
    forall x | 0 <= x < |g.names| ensures Supported(g, ok, done', x) <==> Supported(g, ok, done, x) {
      if Supported(g, ok, done', x) {
        assert id !in g.dependencies[x];
      }
    }
    forall x | 0 <= x < |g.names| && Supported(g, ok, done, x) ensures !DependsOn(g, x, id) {
      if DependsOn(g, x, id) { SupportedAllTheWay(g, ok, done, x, id); }
    }
    forall x | 0 <= x < |g.names|
      ensures Spoiled(g, ok, done', x) <==> Spoiled(g, ok, done, x) || DependsOn(g, x, id)
    {
      if Spoiled(g, ok, done', x) {
        var y :| 0 <= y < |g.names| && DependsOn(g, x, y) && y in done' && !ok[y];
        assert y == id || y in done;
      }
      if Spoiled(g, ok, done, x) {
        var y :| 0 <= y < |g.names| && DependsOn(g, x, y) && y in done && !ok[y];
        assert y in done';
      }
    }
  }

  // ----- Runs

  ghost function After(g: Graph, ok: seq<bool>, r: Runtime, id: nat): Runtime
    requires Dag(g) && Fits(g, r) && |ok| == |g.names| && id < |g.names|
  {
    if ok[id] then AfterReady(g, r, id) else AfterFailure(g, r, id)
  }

  ghost predicate StepsTo(g: Graph, ok: seq<bool>, r: Runtime, id: nat, r': Runtime) {
    && Dag(g) && Fits(g, r) && |ok| == |g.names| && id < |g.names|
    && r.states[id] == Starting && r' == After(g, ok, r, id)
  }

  /** `events[i]` is the node whose start is reported at step `i`; `ok` tells how each start goes. */
  ghost predicate IsBoot(g: Graph, ok: seq<bool>, events: seq<nat>, trace: seq<Runtime>) {
    && g.Valid() && Dag(g) && |ok| == |g.names| && |trace| == |events| + 1
    && trace[0] == AfterRequestAll(g, AllIdle(g))
    && forall i :: 0 <= i < |events| ==> StepsTo(g, ok, trace[i], events[i], trace[i + 1])
  }

  ghost predicate Complete(g: Graph, r: Runtime)
    requires Fits(g, r)
  {
    forall x :: 0 <= x < |g.names| ==> r.states[x] != Starting
  }

  /** The programs emitted for start up to step `i`. */
  ghost function Emitted(g: Graph, ok: seq<bool>, events: seq<nat>, trace: seq<Runtime>, i: nat): (ids: seq<nat>)
    requires IsBoot(g, ok, events, trace) && i < |trace|
  {
    if i == 0 then Launched(g, AllRequested(AllIdle(g)), g.order)
    else
      assert StepsTo(g, ok, trace[i - 1], events[i - 1], trace[i - 1 + 1]);
      Emitted(g, ok, events, trace, i - 1) +
      if ok[events[i - 1]] then Launched(g, Unblocked(g, trace[i - 1], events[i - 1]), g.order) else []
  }

  lemma {:induction false} BootAt(g: Graph, ok: seq<bool>, events: seq<nat>, trace: seq<Runtime>, i: nat)
    requires IsBoot(g, ok, events, trace) && i < |trace|
    ensures At(g, ok, Elems(events[..i]), trace[i])
    ensures Distinct(events[..i]) && forall k :: 0 <= k < i ==> events[k] < |g.names|
  {
    if i == 0 {
      BootStarts(g, ok);
      assert Elems(events[..0]) == {};
    } else {
      BootAt(g, ok, events, trace, i - 1);
      assert StepsTo(g, ok, trace[i - 1], events[i - 1], trace[i - 1 + 1]);
      var done, id := Elems(events[..i - 1]), events[i - 1];
      assert events[..i] == events[..i - 1] + [id];
      assert Elems(events[..i]) == done + {id};
      if ok[id] {
        SuccessStep(g, ok, done, trace[i - 1], id);
      } else {
        FailureStep(g, ok, done, trace[i - 1], id);
      }
    }
  }

  /** A complete boot has heard of every node with nothing failed beneath it. */
  lemma {:induction false} SameReports(
      g: Graph, ok: seq<bool>, done1: set<nat>, r1: Runtime, done2: set<nat>, r2: Runtime, x: nat)
    requires Dag(g) && At(g, ok, done1, r1) && At(g, ok, done2, r2) && Complete(g, r2)
    requires x in done1
    ensures x in done2
    decreases Rank(g, x)
  {
    forall d | d in g.dependencies[x] ensures d in done2 && ok[d] {
      SameReports(g, ok, done1, r1, done2, r2, d);
    }
    assert Supported(g, ok, done2, x);
    if x !in done2 && Spoiled(g, ok, done2, x) {
      var y :| 0 <= y < |g.names| && DependsOn(g, x, y) && y in done2 && !ok[y];
      SupportedAllTheWay(g, ok, done2, x, y);
    }
    assert r2.states[x] != Starting;
  }

  /** Two complete boots with the same outcomes end in the same state. */
  lemma BootConfluence(g: Graph, ok: seq<bool>,
                       events1: seq<nat>, trace1: seq<Runtime>, events2: seq<nat>, trace2: seq<Runtime>)
    requires IsBoot(g, ok, events1, trace1) && IsBoot(g, ok, events2, trace2)
    requires Fits(g, trace1[|events1|]) && Complete(g, trace1[|events1|])
    requires Fits(g, trace2[|events2|]) && Complete(g, trace2[|events2|])
    ensures trace1[|events1|] == trace2[|events2|]
    ensures Elems(events1) == Elems(events2)
  {
    BootAt(g, ok, events1, trace1, |events1|);
    BootAt(g, ok, events2, trace2, |events2|);
    assert events1[..|events1|] == events1 && events2[..|events2|] == events2;
    var r1, r2 := trace1[|events1|], trace2[|events2|];
    forall x: nat | x in Elems(events1) ensures x in Elems(events2) {
      SameReports(g, ok, Elems(events1), r1, Elems(events2), r2, x);
    }
    forall x: nat | x in Elems(events2) ensures x in Elems(events1) {
      SameReports(g, ok, Elems(events2), r2, Elems(events1), r1, x);
    }
    assert Elems(events1) == Elems(events2);
    assert r1.states == r2.states && r1.requested == r2.requested;
  }

  lemma {:induction false} EmittedExactly(g: Graph, ok: seq<bool>, events: seq<nat>, trace: seq<Runtime>, i: nat)
    requires IsBoot(g, ok, events, trace) && i < |trace|
    ensures Fits(g, trace[i]) && Distinct(Emitted(g, ok, events, trace, i))
    ensures forall x: nat :: x in Emitted(g, ok, events, trace, i) <==> x < |g.names| && Started(trace[i].states[x])
  {
    PermutationCovers(g.order, |g.names|);
    if i > 0 {
      assert StepsTo(g, ok, trace[i - 1], events[i - 1], trace[i - 1 + 1]);
      EmittedExactly(g, ok, events, trace, i - 1);
      BootAt(g, ok, events, trace, i - 1);
      var done, id, r := Elems(events[..i - 1]), events[i - 1], trace[i - 1];
      if ok[id] {
        SuccessStep(g, ok, done, r, id);
        EmittedMore(g, Unblocked(g, r, id), Emitted(g, ok, events, trace, i - 1));
      } else {
        FailureStep(g, ok, done, r, id);
      }
    }
  }

  lemma EmittedMore(g: Graph, u: Runtime, before: seq<nat>)
    requires g.Valid() && Dag(g) && Fits(g, u) && Distinct(before)
    requires forall x :: x in before ==> x < |g.names| && u.states[x] != Pending
    ensures Distinct(before + Launched(g, u, g.order))
  {
    var more := Launched(g, u, g.order);
    forall i, j | 0 <= i < |before| && 0 <= j < |more| ensures before[i] != more[j] {
      assert before[i] in before && more[j] in more;
    }
  }

  /** When a boot comes to an end exactly the nodes above a failed one are blocked; every other
      node was emitted for start exactly once and has reported, and no node reported twice. */
  lemma BootOutcome(g: Graph, ok: seq<bool>, events: seq<nat>, trace: seq<Runtime>)
    requires IsBoot(g, ok, events, trace)
    requires Fits(g, trace[|events|]) && Complete(g, trace[|events|])
    ensures |events| <= |g.names|
    ensures var r, emitted := trace[|events|], Emitted(g, ok, events, trace, |events|);
      && Distinct(emitted)
      && forall x: nat :: x < |g.names| ==>
        && (r.states[x] == Blocked <==> exists y :: 0 <= y < |g.names| && DependsOn(g, x, y) && r.states[y] == Failed)
        && (x in emitted <==> r.states[x] != Blocked)
        && (r.states[x] != Blocked ==> r.states[x] == if ok[x] then Ready else Failed)
  {
    var n, r := |events|, trace[|events|];
    BootAt(g, ok, events, trace, n);
    assert events[..n] == events;
    EmittedExactly(g, ok, events, trace, n);
    NotTooLong(g.dependencies, events);
    forall x: nat | x < |g.names|
      ensures r.states[x] == Blocked || r.states[x] == if ok[x] then Ready else Failed
      ensures r.states[x] == Blocked <==> exists y :: 0 <= y < |g.names| && DependsOn(g, x, y) && r.states[y] == Failed
    {
      NodeOutcome(g, ok, Elems(events), r, x);
    }
  }

  lemma NodeOutcome(g: Graph, ok: seq<bool>, done: set<nat>, r: Runtime, x: nat)
    requires Dag(g) && At(g, ok, done, r) && Complete(g, r) && x < |g.names|
    ensures r.states[x] == Blocked || r.states[x] == if ok[x] then Ready else Failed
    ensures r.states[x] == Blocked <==> exists y :: 0 <= y < |g.names| && DependsOn(g, x, y) && r.states[y] == Failed
  {
    NothingPending(g, ok, done, r, x);
    if r.states[x] == Blocked {
      var y :| 0 <= y < |g.names| && DependsOn(g, x, y) && y in done && !ok[y];
      assert r.states[y] == Failed;
    }
    if y :| 0 <= y < |g.names| && DependsOn(g, x, y) && r.states[y] == Failed {
      assert Spoiled(g, ok, done, x);
      if x in done { SupportedAllTheWay(g, ok, done, x, y); }
    }
  }

  lemma {:induction false} NothingPending(g: Graph, ok: seq<bool>, done: set<nat>, r: Runtime, x: nat)
    requires Dag(g) && At(g, ok, done, r) && Complete(g, r) && x < |g.names|
    ensures r.states[x] != Pending
    decreases Rank(g, x)
  {
    if r.states[x] == Pending {
      var d :| d in g.dependencies[x] && !(d in done && ok[d]);
      NothingPending(g, ok, done, r, d);
    }
  }
}
