/** Runs in which all programs are requested once, starting programs report how their start went,
    and any program may be asked for again. */
module SupervisedRuns {
  import opened DependencyGraph
  import opened GraphBuild
  import opened RuntimeSpec
  import opened DaemonRuns

  /** A node that was ever started stands on ready dependencies; a blocked node does not. */
  ghost predicate Grounded(g: Graph, r: Runtime)
    requires Dag(g) && Fits(g, r)
  {
    && (forall x :: 0 <= x < |g.names| ==> r.states[x] != Idle)
    && (forall x, d {:trigger d in g.dependencies[x]} :: 0 <= x < |g.names| && d in g.dependencies[x] ==>
          r.states[x] in {Starting, Ready, Failed} ==> r.states[d] == Ready)
    && (forall x :: 0 <= x < |g.names| && r.states[x] == Blocked ==> !AllReady(g, r, x))
  }

  ghost predicate Supervised(g: Graph, r: Runtime)
    requires Dag(g)
  {
    Settled(g, r) && Grounded(g, r)
  }

  lemma LaunchGrounded(g: Graph, r: Runtime)
    requires Dag(g) && Fits(g, r) && Grounded(g, r)
    ensures Grounded(g, Launch(g, r))
  {}

  lemma StartSupervised(g: Graph)
    requires Dag(g)
    ensures Supervised(g, AfterRequestAll(g, AllIdle(g)))
  {}

  lemma ClosureSupervised(g: Graph, r: Runtime, id: nat)
    requires Dag(g) && Supervised(g, r) && id < |g.names|
    ensures Supervised(g, AfterClosure(g, r, id))
  {
    ClosureSettled(g, r, id);
    var u := Request(g, r, id);
    forall x | 0 <= x < |g.names| && u.states[x] == Blocked ensures !AllReady(g, u, x) {
      assert !AllReady(g, r, x);
      var d :| d in g.dependencies[x] && r.states[d] != Ready;
      assert u.states[d] != Ready;
    }
    forall x, d | 0 <= x < |g.names| && d in g.dependencies[x] && u.states[x] in {Starting, Ready, Failed}
      ensures u.states[d] == Ready
    {
      assert r.states[x] == u.states[x];
    }
    LaunchGrounded(g, u);
  }

  lemma ReadySupervised(g: Graph, r: Runtime, id: nat)
    requires Dag(g) && Supervised(g, r) && id < |g.names| && r.states[id] == Starting
    ensures Supervised(g, AfterReady(g, r, id))
  {
    ReadySettled(g, r, id);
    var u := Unblocked(g, r, id);
    forall x | 0 <= x < |g.names| && u.states[x] == Blocked ensures !AllReady(g, u, x) {
      if DependsOn(g, x, id) {
        var d :| d in g.dependencies[x] && Held(Reconsidered(g, r, id, d));
        assert u.states[d] != Ready;
      } else {
        assert !AllReady(g, r, x);
        var d :| d in g.dependencies[x] && r.states[d] != Ready;
        assert d != id;
        assert u.states[d] != Ready;
      }
    }
    forall x, d | 0 <= x < |g.names| && d in g.dependencies[x] && u.states[x] in {Starting, Ready, Failed}
      ensures u.states[d] == Ready
    {
      assert r.states[x] in {Starting, Ready, Failed};
    }
    LaunchGrounded(g, u);
  }

  lemma {:induction false} ReadyAllTheWay(g: Graph, r: Runtime, x: nat, y: nat)
    requires Dag(g) && Fits(g, r) && Grounded(g, r) && x < |g.names|
    requires r.states[x] in {Starting, Ready, Failed} && DependsOn(g, x, y)
    ensures y < |g.names| && r.states[y] == Ready
    decreases Rank(g, x)
  {
    var d :| d in g.dependencies[x] && (d == y || DependsOn(g, d, y));
    if d != y { ReadyAllTheWay(g, r, d, y); }
  }

  lemma FailureSupervised(g: Graph, r: Runtime, id: nat)
    requires Dag(g) && Supervised(g, r) && id < |g.names| && r.states[id] == Starting
    ensures Supervised(g, AfterFailure(g, r, id))
  {
    FailureSettled(g, r, id);
    var r' := AfterFailure(g, r, id);
    forall x: nat | x < |g.names| && r.states[x] in {Starting, Ready, Failed} ensures !DependsOn(g, x, id) {
      if DependsOn(g, x, id) { ReadyAllTheWay(g, r, x, id); }
    }
    forall x | 0 <= x < |g.names| && r'.states[x] == Blocked ensures !AllReady(g, r', x) {
      if FailureBlocks(g, r, id, x) {
        var d :| d in g.dependencies[x] && (d == id || DependsOn(g, d, id));
        assert r'.states[d] != Ready;
      } else {
        assert !AllReady(g, r, x);
        var d :| d in g.dependencies[x] && r.states[d] != Ready;
        assert r'.states[d] != Ready;
      }
    }
    forall x, d | 0 <= x < |g.names| && d in g.dependencies[x] && r'.states[x] in {Starting, Ready, Failed}
      ensures r'.states[d] == Ready
    {
      assert r.states[x] in {Starting, Ready, Failed};
    }
  }

  // ----- Progress and outcome

  /** As long as something is pending or starting, something is starting. */
  lemma {:induction false} PendingLeadsToStarting(g: Graph, r: Runtime, x: nat)
    requires Dag(g) && Supervised(g, r) && x < |g.names| && r.states[x] in {Pending, Starting}
    ensures exists y :: 0 <= y < |g.names| && r.states[y] == Starting
    decreases Rank(g, x)
  {
    if r.states[x] == Pending {
      assert !AllReady(g, r, x);
      var d :| d in g.dependencies[x] && r.states[d] != Ready;
      assert !Held(r.states[d]);
      PendingLeadsToStarting(g, r, d);
    }
  }

  lemma Progress(g: Graph, r: Runtime)
    requires Dag(g) && Supervised(g, r) && !Terminal(g, r)
    ensures exists y :: 0 <= y < |g.names| && r.states[y] == Starting
  {
    var x :| 0 <= x < |g.names| && r.requested[x] && r.states[x] in {Pending, Starting};
    PendingLeadsToStarting(g, r, x);
  }

  ghost predicate HasFailedDependency(g: Graph, r: Runtime, x: nat)
    requires Dag(g) && Fits(g, r) && x < |g.names|
  {
    exists y :: 0 <= y < |g.names| && r.states[y] == Failed && DependsOn(g, x, y)
  }

  lemma {:induction false} BlockedHasCause(g: Graph, r: Runtime, x: nat)
    requires Dag(g) && Supervised(g, r) && Terminal(g, r) && x < |g.names| && r.states[x] == Blocked
    ensures HasFailedDependency(g, r, x)
    decreases Rank(g, x)
  {
    assert !AllReady(g, r, x);
    var d :| d in g.dependencies[x] && r.states[d] != Ready;
    if r.states[d] == Failed {
      assert DependsOn(g, x, d);
    } else {
      BlockedHasCause(g, r, d);
      var y :| 0 <= y < |g.names| && r.states[y] == Failed && DependsOn(g, d, y);
      assert DependsOn(g, x, y);
    }
  }

  /** Once everything has come to rest, exactly the nodes above a failure are blocked. */
  lemma TerminalOutcome(g: Graph, r: Runtime, x: nat)
    requires Dag(g) && Supervised(g, r) && Terminal(g, r) && x < |g.names|
    ensures r.states[x] == Blocked <==> HasFailedDependency(g, r, x)
    ensures r.states[x] in {Ready, Failed, Blocked}
    ensures (forall y :: 0 <= y < |g.names| ==> r.states[y] != Failed) ==> r.states[x] == Ready
  {
    if r.states[x] == Blocked { BlockedHasCause(g, r, x); }
    if HasFailedDependency(g, r, x) && r.states[x] != Blocked {
      var y :| 0 <= y < |g.names| && r.states[y] == Failed && DependsOn(g, x, y);
      ReadyAllTheWay(g, r, x, y);
    }
  }

  /** At rest those are all the failed nodes beneath. */
  lemma {:induction false} BlockedByIsExact(g: Graph, r: Runtime, x: nat, y: nat)
    requires Dag(g) && Supervised(g, r) && Terminal(g, r) && x < |g.names| && y < |g.names|
    ensures HeldBy(g, r, x, y) <==> DependsOn(g, x, y) && r.states[y] == Failed
    decreases Rank(g, x)
  {
    forall d | d in g.dependencies[x] ensures HeldBy(g, r, d, y) <==> DependsOn(g, d, y) && r.states[y] == Failed {
      BlockedByIsExact(g, r, d, y);
    }
    if DependsOn(g, x, y) && r.states[y] == Failed {
      var d :| d in g.dependencies[x] && (d == y || DependsOn(g, d, y));
      if d != y {
        TerminalOutcome(g, r, d);
        assert HasFailedDependency(g, r, d);
      }
      assert if r.states[d] == Failed then d == y else r.states[d] == Blocked && HeldBy(g, r, d, y);
    }
  }

  /** Once everything has come to rest these are all the failed nodes beneath. */
  lemma BlockedByAtRest(g: Graph, r: Runtime, x: nat)
    requires Dag(g) && Supervised(g, r) && Terminal(g, r) && x < |g.names|
    ensures HoldersOf(g, r, x) == set y | 0 <= y < |g.names| && DependsOn(g, x, y) && r.states[y] == Failed
  {
    forall y: nat | y < |g.names| ensures HeldBy(g, r, x, y) <==> DependsOn(g, x, y) && r.states[y] == Failed {
      BlockedByIsExact(g, r, x, y);
    }
  }

  // ----- Runs

  datatype Event = Reported(id: nat, ok: bool) | AskedFor(id: nat)

  ghost predicate Enabled(g: Graph, r: Runtime, e: Event) {
    && Dag(g) && Fits(g, r) && e.id < |g.names|
    && (e.Reported? ==> r.states[e.id] == Starting)
  }

  ghost function Next(g: Graph, r: Runtime, e: Event): Runtime
    requires Enabled(g, r, e)
  {
    match e
    case Reported(id, ok) => if ok then AfterReady(g, r, id) else AfterFailure(g, r, id)
    case AskedFor(id) => AfterClosure(g, r, id)
  }

  ghost predicate StepsTo(g: Graph, r: Runtime, e: Event, r': Runtime) {
    Enabled(g, r, e) && r' == Next(g, r, e)
  }

  ghost predicate IsRun(g: Graph, events: seq<Event>, trace: seq<Runtime>) {
    && Dag(g) && |trace| == |events| + 1
    && trace[0] == AfterRequestAll(g, AllIdle(g))
    && forall i :: 0 <= i < |events| ==> StepsTo(g, trace[i], events[i], trace[i + 1])
  }

  lemma {:induction false} EveryStateSupervised(g: Graph, events: seq<Event>, trace: seq<Runtime>, i: nat)
    requires IsRun(g, events, trace) && i < |trace|
    ensures Supervised(g, trace[i])
  {
    if i == 0 {
      StartSupervised(g);
    } else {
      EveryStateSupervised(g, events, trace, i - 1);
      assert StepsTo(g, trace[i - 1], events[i - 1], trace[i - 1 + 1]);
      match events[i - 1]
      case Reported(id, ok) =>
        if ok { ReadySupervised(g, trace[i - 1], id); } else { FailureSupervised(g, trace[i - 1], id); }
      case AskedFor(id) => ClosureSupervised(g, trace[i - 1], id);
    }
  }

  /** Safety and progress in every state of every run, and the outcome whenever it comes to rest. */
  lemma EveryRun(g: Graph, events: seq<Event>, trace: seq<Runtime>, i: nat)
    requires IsRun(g, events, trace) && i < |trace|
    ensures Fits(g, trace[i])
    ensures forall x, d | 0 <= x < |g.names| && d in g.dependencies[x] ::
      trace[i].states[x] in {Starting, Ready, Failed} ==> trace[i].states[d] == Ready
    ensures !Terminal(g, trace[i]) ==> exists y :: 0 <= y < |g.names| && trace[i].states[y] == Starting
    ensures Terminal(g, trace[i]) ==> forall x :: 0 <= x < |g.names| ==>
      (trace[i].states[x] == Blocked <==> HasFailedDependency(g, trace[i], x))
    ensures Terminal(g, trace[i]) ==> forall x, y | 0 <= x < |g.names| && 0 <= y < |g.names| ::
      HeldBy(g, trace[i], x, y) <==> DependsOn(g, x, y) && trace[i].states[y] == Failed
  {
    EveryStateSupervised(g, events, trace, i);
    var r := trace[i];
    if Terminal(g, r) {
      forall x | 0 <= x < |g.names| ensures r.states[x] == Blocked <==> HasFailedDependency(g, r, x) {
        TerminalOutcome(g, r, x);
      }
      forall x, y | 0 <= x < |g.names| && 0 <= y < |g.names|
        ensures HeldBy(g, r, x, y) <==> DependsOn(g, x, y) && r.states[y] == Failed
      {
        BlockedByIsExact(g, r, x, y);
      }
    } else {
      Progress(g, r);
    }
  }

  // ----- What is emitted over a run

  /** The nodes emitted for start by an event. */
  ghost function EmittedBy(g: Graph, r: Runtime, e: Event): seq<nat>
    requires g.Valid() && Enabled(g, r, e)
  {
    match e
    case Reported(id, ok) => if ok then Launched(g, Unblocked(g, r, id), g.order) else []
    case AskedFor(id) => Launched(g, Request(g, r, id), g.order)
  }

  /** `emitted[0]` is what request_all emits, `emitted[i + 1]` what event `i` does. */
  ghost predicate Emits(g: Graph, events: seq<Event>, trace: seq<Runtime>, emitted: seq<seq<nat>>)
    requires g.Valid() && IsRun(g, events, trace)
  {
    && |emitted| == |trace| && emitted[0] == Launched(g, AllRequested(AllIdle(g)), g.order)
    && forall i :: 0 <= i < |events| ==>
      StepsTo(g, trace[i], events[i], trace[i + 1]) && emitted[i + 1] == EmittedBy(g, trace[i], events[i])
  }

  /** How often `x` occurs in the lists. */
  ghost function Total(lists: seq<seq<nat>>, x: nat): nat {
    if lists == [] then 0 else Total(lists[..|lists| - 1], x) + multiset(lists[|lists| - 1])[x]
  }

  /** How often `x` passes into starting in a run that begins with it idle. */
  ghost function Passages(trace: seq<Runtime>, x: nat): nat
    requires forall k :: 0 <= k < |trace| ==> x < |trace[k].states|
  {
    if trace == [] then 0
    else
      var last := |trace| - 1;
      var before := if last == 0 then Idle else trace[last - 1].states[x];
      Passages(trace[..last], x) + if before != Starting && trace[last].states[x] == Starting then 1 else 0
  }

  lemma {:induction false} DistinctOnce(ids: seq<nat>, x: nat)
    requires Distinct(ids)
    ensures multiset(ids)[x] == if x in ids then 1 else 0
  {
    if ids != [] {
      var init, last := ids[..|ids| - 1], ids[|ids| - 1];
      DistinctOnce(init, x);
      assert ids == init + [last];
    }
  }

  lemma StepEmits(g: Graph, r: Runtime, e: Event, x: nat)
    requires g.Valid() && Enabled(g, r, e) && x < |g.names|
    ensures Fits(g, Next(g, r, e))
    ensures multiset(EmittedBy(g, r, e))[x] == if Starts(r, Next(g, r, e), x) then 1 else 0
  {
    DistinctOnce(EmittedBy(g, r, e), x);
    match e
    case Reported(id, ok) => if ok { ReadyEmits(g, r, id, x); }
    case AskedFor(id) => ClosureEmits(g, r, id, x);
  }

  ghost predicate OnceAt(trace: seq<Runtime>, emitted: seq<seq<nat>>, i: nat, x: nat)
    requires i < |trace| == |emitted| && x < |trace[i].states| && (i > 0 ==> x < |trace[i - 1].states|)
  {
    var before := if i == 0 then Idle else trace[i - 1].states[x];
    multiset(emitted[i])[x] == if before != Starting && trace[i].states[x] == Starting then 1 else 0
  }

  /** Each list holds `x` once if `x` starts there, and not at all otherwise. */
  lemma EmittedOnce(g: Graph, events: seq<Event>, trace: seq<Runtime>, emitted: seq<seq<nat>>, i: nat, x: nat)
    requires g.Valid() && IsRun(g, events, trace) && Emits(g, events, trace, emitted)
    requires i < |trace| && x < |g.names|
    ensures Fits(g, trace[i]) && (i > 0 ==> Fits(g, trace[i - 1])) && OnceAt(trace, emitted, i, x)
  {
    if i == 0 {
      RequestAllEmits(g, AllIdle(g), x);
      DistinctOnce(emitted[0], x);
    } else {
      assert StepsTo(g, trace[i - 1], events[i - 1], trace[i - 1 + 1]);
      assert emitted[i - 1 + 1] == EmittedBy(g, trace[i - 1], events[i - 1]);
      StepEmits(g, trace[i - 1], events[i - 1], x);
    }
  }

  lemma {:induction false} SameTotals(trace: seq<Runtime>, emitted: seq<seq<nat>>, x: nat)
    requires |emitted| == |trace| && forall k :: 0 <= k < |trace| ==> x < |trace[k].states|
    requires forall i :: 0 <= i < |trace| ==> OnceAt(trace, emitted, i, x)
    ensures Total(emitted, x) == Passages(trace, x)
  {
    if trace != [] {
      var last := |trace| - 1;
      forall i | 0 <= i < last ensures OnceAt(trace[..last], emitted[..last], i, x) {
        assert OnceAt(trace, emitted, i, x);
      }
      SameTotals(trace[..last], emitted[..last], x);
      assert OnceAt(trace, emitted, last, x);
    }
  }

  /** Over every run a program is emitted for start exactly as often as it passes into starting. */
  lemma EmittedPerPassage(g: Graph, events: seq<Event>, trace: seq<Runtime>, emitted: seq<seq<nat>>, x: nat)
    requires g.Valid() && IsRun(g, events, trace) && Emits(g, events, trace, emitted) && x < |g.names|
    ensures forall k :: 0 <= k < |trace| ==> x < |trace[k].states|
    ensures Total(emitted, x) == Passages(trace, x)
  {
    forall i | 0 <= i < |trace| ensures x < |trace[i].states| {
      EmittedOnce(g, events, trace, emitted, i, x);
    }
    forall i | 0 <= i < |trace| ensures OnceAt(trace, emitted, i, x) {
      EmittedOnce(g, events, trace, emitted, i, x);
    }
    SameTotals(trace, emitted, x);
  }

  /** A failed program that is asked for again is emitted again: its dependencies are ready. */
  lemma FailedIsRetried(g: Graph, events: seq<Event>, trace: seq<Runtime>, i: nat, id: nat)
    requires g.Valid() && IsRun(g, events, trace) && i < |events| && events[i] == AskedFor(id)
    requires Fits(g, trace[i]) && id < |g.names| && trace[i].states[id] == Failed
    ensures id in EmittedBy(g, trace[i], events[i])
    ensures |trace[i + 1].states| == |g.names| && trace[i + 1].states[id] == Starting
  {
    EveryStateSupervised(g, events, trace, i);
    assert StepsTo(g, trace[i], events[i], trace[i + 1]);
    assert AllReady(g, trace[i], id);
    AskedForStarts(g, trace[i], id);
  }

  /** After a program was asked for, neither it nor anything beneath it is idle, failed or blocked. */
  lemma {:induction false} AskedForIsHealthy(g: Graph, r: Runtime, id: nat, y: nat)
    requires Dag(g) && Supervised(g, r) && id < |g.names| && r.states[id] in {Pending, Starting, Ready}
    requires y == id || DependsOn(g, id, y)
    ensures y < |g.names| && r.states[y] in {Pending, Starting, Ready}
    decreases Rank(g, id)
  {
    if y != id {
      var d :| d in g.dependencies[id] && (d == y || DependsOn(g, d, y));
      assert !Held(r.states[d]);
      AskedForIsHealthy(g, r, d, y);
    }
  }

  lemma AskedForHeals(g: Graph, r: Runtime, id: nat, y: nat)
    requires Dag(g) && Supervised(g, r) && id < |g.names| && (y == id || DependsOn(g, id, y))
    ensures y < |g.names| && AfterClosure(g, r, id).states[y] in {Pending, Starting, Ready}
  {
    ClosureSupervised(g, r, id);
    AskedForIsUnderWay(g, r, id, id);
    AskedForIsHealthy(g, AfterClosure(g, r, id), id, y);
  }
}
