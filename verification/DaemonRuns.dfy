/** What holds in every state a running daemon can bring its dependency runtime into. */
module DaemonRuns {
  import opened DependencyGraph
  import opened GraphBuild
  import opened RuntimeSpec

  ghost predicate RequestedIffNotIdle(g: Graph, r: Runtime)
    requires Fits(g, r)
  {
    forall x :: 0 <= x < |g.names| ==> (r.requested[x] <==> r.states[x] != Idle)
  }

  ghost predicate PendingNotHeld(g: Graph, r: Runtime)
    requires Dag(g) && Fits(g, r)
  {
    forall x, d {:trigger d in g.dependencies[x]} :: 0 <= x < |g.names| && d in g.dependencies[x] ==>
      r.states[x] == Pending ==> !Held(r.states[d])
  }

  ghost predicate PendingWaits(g: Graph, r: Runtime)
    requires Dag(g) && Fits(g, r)
  {
    forall x :: 0 <= x < |g.names| && r.states[x] == Pending ==> !AllReady(g, r, x)
  }

  /** A node is requested iff it is not idle; a pending node has no failed or blocked dependency,
      and at least one that is not ready yet. */
  ghost predicate Settled(g: Graph, r: Runtime)
    requires Dag(g)
  {
    Fits(g, r) && RequestedIffNotIdle(g, r) && PendingNotHeld(g, r) && PendingWaits(g, r)
  }

  /** Starting what can start settles everything but the first two points, which it keeps. */
  lemma LaunchSettles(g: Graph, r: Runtime)
    requires Dag(g) && Fits(g, r) && RequestedIffNotIdle(g, r) && PendingNotHeld(g, r)
    ensures Settled(g, Launch(g, r))
  {}

  lemma ResetSettled(g: Graph)
    requires Dag(g)
    ensures Settled(g, AllIdle(g))
  {}

  lemma RequestAllSettled(g: Graph)
    requires Dag(g)
    ensures Settled(g, AfterRequestAll(g, AllIdle(g)))
  {}

  lemma OpensStep(g: Graph, r: Runtime, id: nat, x: nat, d: nat)
    requires Dag(g) && Fits(g, r) && id < |g.names| && x < |g.names|
    requires Opens(g, r, id, x) && d in g.dependencies[x] && Open(r, d)
    ensures Opens(g, r, id, d)
    decreases Rank(g, id)
  {
    if id == x {
      assert Opens(g, r, d, d);
    } else {
      var e :| e in g.dependencies[id] && Opens(g, r, e, x);
      OpensStep(g, r, e, x, d);
    }
  }

  lemma {:induction false} OpensEndsOpen(g: Graph, r: Runtime, id: nat, x: nat)
    requires Dag(g) && Fits(g, r) && id < |g.names| && Opens(g, r, id, x)
    ensures x < |g.names| && Open(r, x)
    decreases Rank(g, id)
  {
    if id != x {
      var e :| e in g.dependencies[id] && Opens(g, r, e, x);
      OpensEndsOpen(g, r, e, x);
    }
  }

  lemma ClosureSettled(g: Graph, r: Runtime, id: nat)
    requires Dag(g) && Settled(g, r) && id < |g.names|
    ensures Settled(g, AfterClosure(g, r, id))
  {
    var u := Request(g, r, id);
    forall x | 0 <= x < |g.names| ensures u.requested[x] <==> u.states[x] != Idle {
      if Opens(g, r, id, x) { OpensEndsOpen(g, r, id, x); }
    }
    forall x, d | 0 <= x < |g.names| && d in g.dependencies[x] && u.states[x] == Pending ensures !Held(u.states[d]) {
      if Held(r.states[d]) && Opens(g, r, id, x) {
        OpensStep(g, r, id, x, d);
      }
    }
    LaunchSettles(g, u);
  }

  lemma ReadySettled(g: Graph, r: Runtime, id: nat)
    requires Dag(g) && Settled(g, r) && id < |g.names|
    ensures Settled(g, AfterReady(g, r, id))
  {}

  /** After mark_ready no requested descendant stays blocked without a failed or blocked
      dependency of its own. */
  lemma ReadyLeavesNoneBehind(g: Graph, r: Runtime, id: nat, x: nat)
    requires Dag(g) && Fits(g, r) && id < |g.names| && x < |g.names|
    requires DependsOn(g, x, id) && x != id && r.requested[x]
    ensures AfterReady(g, r, id).states[x] == Blocked <==>
      r.states[x] == Blocked && exists d :: d in g.dependencies[x] && Held(AfterReady(g, r, id).states[d])
  {}

  lemma FailureSettled(g: Graph, r: Runtime, id: nat)
    requires Dag(g) && Settled(g, r) && id < |g.names|
    ensures Settled(g, AfterFailure(g, r, id))
  {}

  /** mark_starting and mark_idle, on any node. */
  lemma AssignedSettled(g: Graph, r: Runtime, id: nat, s: State)
    requires Dag(g) && Settled(g, r) && id < |g.names|
    requires s == Starting || s == Idle
    ensures Settled(g, Assigned(r, id, s, s != Idle))
  {}

  // ----- What each operation does to a node, and what it emits

  /** A node that was not starting and now is. */
  ghost predicate Starts(r: Runtime, r': Runtime, x: nat)
    requires x < |r.states| == |r'.states|
  {
    r.states[x] != Starting && r'.states[x] == Starting
  }

  /** Whatever is launched was not starting, and starts. */
  lemma LaunchStarts(g: Graph, u: Runtime, x: nat)
    requires g.Valid() && Dag(g) && Fits(g, u) && x < |g.names|
    ensures Starts(u, Launch(g, u), x) <==> x in Launched(g, u, g.order)
    ensures Launch(g, u).states[x] == Starting <==> u.states[x] == Starting || x in Launched(g, u, g.order)
  {
    PermutationCovers(g.order, |g.names|);
  }

  /** request_closure emits exactly the nodes that start. */
  lemma ClosureEmits(g: Graph, r: Runtime, id: nat, x: nat)
    requires g.Valid() && Dag(g) && Fits(g, r) && id < |g.names| && x < |g.names|
    ensures Starts(r, AfterClosure(g, r, id), x) <==> x in Launched(g, Request(g, r, id), g.order)
  {
    LaunchStarts(g, Request(g, r, id), x);
  }

  /** So does mark_ready, */
  lemma ReadyEmits(g: Graph, r: Runtime, id: nat, x: nat)
    requires g.Valid() && Dag(g) && Fits(g, r) && id < |g.names| && x < |g.names|
    ensures Starts(r, AfterReady(g, r, id), x) <==> x in Launched(g, Unblocked(g, r, id), g.order)
  {
    LaunchStarts(g, Unblocked(g, r, id), x);
  }

  /** and request_all. */
  lemma RequestAllEmits(g: Graph, r: Runtime, x: nat)
    requires g.Valid() && Dag(g) && Fits(g, r) && x < |g.names|
    ensures Starts(r, AfterRequestAll(g, r), x) <==> x in Launched(g, AllRequested(r), g.order)
  {
    LaunchStarts(g, AllRequested(r), x);
  }

  /** A node that has failed, is idle or blocked, asked for with all its dependencies ready, is emitted. */
  lemma AskedForStarts(g: Graph, r: Runtime, id: nat)
    requires g.Valid() && Dag(g) && Fits(g, r) && RequestedIffNotIdle(g, r) && id < |g.names|
    requires r.states[id] in {Idle, Failed, Blocked} && AllReady(g, r, id)
    ensures id in Launched(g, Request(g, r, id), g.order) && AfterClosure(g, r, id).states[id] == Starting
  {
    PermutationCovers(g.order, |g.names|);
    var u := Request(g, r, id);
    assert Opens(g, r, id, id);
    forall d | d in g.dependencies[id] ensures u.states[d] == Ready {
      assert r.states[d] == Ready;
    }
  }

  /** What is asked for is waiting, starting or ready afterwards; so is whatever it opened. */
  lemma AskedForIsUnderWay(g: Graph, r: Runtime, id: nat, x: nat)
    requires Dag(g) && Fits(g, r) && RequestedIffNotIdle(g, r) && id < |g.names| && x < |g.names|
    requires x == id || Opens(g, r, id, x)
    ensures AfterClosure(g, r, id).states[x] in {Pending, Starting, Ready} && AfterClosure(g, r, id).requested[x]
  {
    assert Open(r, id) ==> Opens(g, r, id, id);
  }

  /** Nothing that is not beneath it is touched. */
  lemma AskedForTouches(g: Graph, r: Runtime, id: nat, x: nat)
    requires Dag(g) && Settled(g, r) && id < |g.names| && x < |g.names|
    requires x != id && !DependsOn(g, id, x)
    ensures AfterClosure(g, r, id).states[x] == r.states[x]
    ensures AfterClosure(g, r, id).requested[x] == r.requested[x]
  {
    var u := Request(g, r, id);
    if Opens(g, r, id, x) { OpensIsBeneath(g, r, id, x); }
    if r.states[x] == Pending {
      assert !AllReady(g, r, x);
      var d :| d in g.dependencies[x] && r.states[d] != Ready;
      assert u.states[d] != Ready;
    }
  }

  lemma {:induction false} OpensIsBeneath(g: Graph, r: Runtime, id: nat, x: nat)
    requires Dag(g) && Fits(g, r) && id < |g.names| && Opens(g, r, id, x)
    ensures x == id || DependsOn(g, id, x)
    decreases Rank(g, id)
  {
    if x != id {
      var d :| d in g.dependencies[id] && Opens(g, r, d, x);
      OpensIsBeneath(g, r, d, x);
    }
  }

  /** mark_failed, node by node: what is ready or not requested stays, what waits or starts is blocked. */
  lemma FailureTouches(g: Graph, r: Runtime, id: nat, x: nat)
    requires Dag(g) && Fits(g, r) && id < |g.names| && x < |g.names|
    ensures var s := AfterFailure(g, r, id).states[x];
      if x == id then s == Failed
      else if DependsOn(g, x, id) && r.requested[x] && r.states[x] != Ready then s == Blocked
      else s == r.states[x]
    ensures AfterFailure(g, r, id).requested[x] <==> x == id || r.requested[x]
  {}

  /** mark_ready: only blocked and waiting dependents can change. */
  lemma ReadyTouches(g: Graph, r: Runtime, id: nat, x: nat)
    requires Dag(g) && Settled(g, r) && id < |g.names| && x < |g.names|
    ensures var s := AfterReady(g, r, id).states[x];
      && (x == id ==> s == Ready)
      && (x != id && !(DependsOn(g, x, id) && r.states[x] in {Blocked, Pending}) ==> s == r.states[x])
      && (x != id && r.states[x] == Pending ==> s in {Pending, Starting})
      && (x != id && r.states[x] == Blocked ==> s in {Blocked, Pending, Starting})
    ensures AfterReady(g, r, id).requested[x] <==> x == id || r.requested[x]
  {
    if r.states[x] == Pending && x != id && !DependsOn(g, x, id) {
      assert !AllReady(g, r, x);
      var d :| d in g.dependencies[x] && r.states[d] != Ready;
      assert d != id;
      assert Unblocked(g, r, id).states[d] != Ready;
    }
  }

  /** request_all: idle and blocked nodes wait or start, pending ones may start, the others stay. */
  lemma RequestAllTouches(g: Graph, r: Runtime, x: nat)
    requires Dag(g) && Fits(g, r) && x < |g.names|
    ensures var s := AfterRequestAll(g, r).states[x];
      if r.states[x] in {Idle, Blocked, Pending} then s in {Pending, Starting} else s == r.states[x]
    ensures AfterRequestAll(g, r).requested[x]
  {}

  // ----- Runs

  datatype Event =
    | Spawn                         // reset, then request everything
    | Clear                         // reset alone
    | Closure(id: nat)
    | NowReady(id: nat)
    | NowFailed(id: nat)
    | NowStarting(id: nat)
    | NowIdle(id: nat)
    | Adopt(graph: Graph)           // migrate a snapshot to a graph with further programs
    | Rebuild(graph: Graph)         // reset on another graph

  datatype Daemon = Daemon(g: Graph, r: Runtime)

  /** `grown` has the nodes of `g`, with the same dependencies, and possibly more. */
  ghost predicate Grown(g: Graph, grown: Graph) {
    && |g.names| == |g.dependencies|
    && g.names <= grown.names
    && g.dependencies <= grown.dependencies
  }

  ghost predicate Enabled(s: Daemon, e: Event) {
    && Dag(s.g) && Fits(s.g, s.r)
    && match e
       case Spawn => true
       case Clear => true
       case Adopt(graph) => graph.Valid() && Grown(s.g, graph)
       case Rebuild(graph) => graph.Valid()
       case _ => e.id < |s.g.names|
  }

  ghost predicate Good(s: Daemon) {
    s.g.Valid() && Dag(s.g) && Settled(s.g, s.r)
  }

  ghost function Next(s: Daemon, e: Event): Daemon
    requires Enabled(s, e)
  {
    match e
    case Spawn => s.(r := AfterRequestAll(s.g, AllIdle(s.g)))
    case Clear => s.(r := AllIdle(s.g))
    case Closure(id) => s.(r := AfterClosure(s.g, s.r, id))
    case NowReady(id) => s.(r := AfterReady(s.g, s.r, id))
    case NowFailed(id) => s.(r := AfterFailure(s.g, s.r, id))
    case NowStarting(id) => s.(r := Assigned(s.r, id, Starting, true))
    case NowIdle(id) => s.(r := Assigned(s.r, id, Idle, false))
    case Adopt(graph) => Daemon(graph, Migrated(graph, Snapshot(s.g, s.r)))
    case Rebuild(graph) => Daemon(graph, AllIdle(graph))
  }

  lemma AdoptedAt(g: Graph, r: Runtime, grown: Graph, x: nat)
    requires Distinct(grown.names) && Fits(g, r) && Grown(g, grown) && x < |grown.names|
    ensures var r' := Migrated(grown, Snapshot(g, r));
      if x < |g.names| then r'.states[x] == r.states[x] && r'.requested[x] == r.requested[x]
      else r'.states[x] == Idle && !r'.requested[x]
  {
    var entries := Snapshot(g, r);
    assert forall i :: 0 <= i < |g.names| ==> entries[i].name == grown.names[i];
    MigratedAt(grown, entries, x);
  }

  lemma AdoptSettled(g: Graph, r: Runtime, grown: Graph)
    requires Dag(g) && Settled(g, r) && grown.Valid() && Dag(grown) && Grown(g, grown)
    ensures Settled(grown, Migrated(grown, Snapshot(g, r)))
  {
    var r' := Migrated(grown, Snapshot(g, r));
    forall x: nat | x < |grown.names| {
      AdoptedAt(g, r, grown, x);
    }
    forall x | 0 <= x < |grown.names| && r'.states[x] == Pending ensures !AllReady(grown, r', x) {
      assert x < |g.names| && r.states[x] == Pending && grown.dependencies[x] == g.dependencies[x];
      assert !AllReady(g, r, x);
      var d :| d in g.dependencies[x] && r.states[d] != Ready;
      assert d in grown.dependencies[x];
    }
    forall x, d | 0 <= x < |grown.names| && d in grown.dependencies[x] && r'.states[x] == Pending
      ensures !Held(r'.states[d])
    {
      assert x < |g.names| && grown.dependencies[x] == g.dependencies[x];
      assert d in g.dependencies[x];
    }
  }

  lemma StepStaysGood(s: Daemon, e: Event)
    requires Good(s) && Enabled(s, e)
    ensures Good(Next(s, e))
  {
    match e
    case Spawn => RequestAllSettled(s.g);
    case Clear => ResetSettled(s.g);
    case Closure(id) => ClosureSettled(s.g, s.r, id);
    case NowReady(id) => ReadySettled(s.g, s.r, id);
    case NowFailed(id) => FailureSettled(s.g, s.r, id);
    case NowStarting(id) => AssignedSettled(s.g, s.r, id, Starting);
    case NowIdle(id) => AssignedSettled(s.g, s.r, id, Idle);
    case Adopt(graph) => ValidIsDag(graph); AdoptSettled(s.g, s.r, graph);
    case Rebuild(graph) => ValidIsDag(graph); ResetSettled(graph);
  }

  /** A run starts with every program idle; `trace[i + 1]` is what event `i` makes of `trace[i]`. */
  ghost predicate IsRun(g: Graph, events: seq<Event>, trace: seq<Daemon>) {
    && g.Valid() && |trace| == |events| + 1
    && trace[0] == Daemon(g, AllIdle(g))
    && forall i :: 0 <= i < |events| ==> StepsTo(trace[i], events[i], trace[i + 1])
  }

  ghost predicate StepsTo(s: Daemon, e: Event, s': Daemon) {
    Enabled(s, e) && s' == Next(s, e)
  }

  /** Every state of every run of the daemon is settled. */
  lemma {:induction false} EveryRunSettled(g: Graph, events: seq<Event>, trace: seq<Daemon>, i: nat)
    requires IsRun(g, events, trace) && i < |trace|
    ensures Good(trace[i])
  {
    if i == 0 {
      ValidIsDag(g);
      ResetSettled(g);
    } else {
      EveryRunSettled(g, events, trace, i - 1);
      assert StepsTo(trace[i - 1], events[i - 1], trace[i - 1 + 1]);
      StepStaysGood(trace[i - 1], events[i - 1]);
    }
  }
}
