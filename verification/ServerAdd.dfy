/** pm_tiny_server_t::start_and_add_prog: a program joins the running daemon as a whole or not at
    all, as far as the dependency graph and the runtime states are concerned. */
module ServerAdd {
  import opened Wrappers
  import opened DependencyGraph
  import opened GraphBuild
  import opened RuntimeSpec
  import opened DaemonRuns
  import DependencyRuntime

  /** Every old node keeps its id and its dependencies when a program is added at the end. */
  lemma GrownByOne(configs: seq<NodeConfig>, config: NodeConfig, g: Graph, h: Graph)
    requires NamesOk(configs + [config])
    requires Resolves(configs, g.names, g.dependencies)
    requires Resolves(configs + [config], h.names, h.dependencies)
    ensures Grown(g, h)
  {
    var longer := configs + [config];
    forall i | 0 <= i < |configs| ensures h.names[i] == g.names[i] && h.dependencies[i] == g.dependencies[i] {
      assert longer[i] == configs[i];
      assert ResolvesNode(configs, g.dependencies[i], configs[i].dependsOn);
      assert ResolvesNode(longer, g.dependencies[i], longer[i].dependsOn);
      SameIds(longer, g.dependencies[i], h.dependencies[i], longer[i].dependsOn);
    }
  }

  /** A snapshot taken and migrated back restores every state and every requested flag. */
  lemma RoundTrip(g: Graph, r: Runtime)
    requires g.Valid() && Fits(g, r)
    ensures Migrated(g, Snapshot(g, r)) == r
  {
    var r' := Migrated(g, Snapshot(g, r));
    forall x | 0 <= x < |g.names| ensures r'.states[x] == r.states[x] && r'.requested[x] == r.requested[x] {
      AdoptedAt(g, r, g, x);
    }
    assert r'.states == r.states && r'.requested == r.requested;
  }

  ghost predicate Addable(programs: seq<NodeConfig>, program: NodeConfig) {
    var more := programs + [program];
    NamesOk(more) && DependenciesOk(more) && Acyclic(more)
  }

  // ----- Launching

  datatype Attempt = Attempt(name: string, launched: bool)

  function Attempted(tries: seq<Attempt>): (names: seq<string>)
    ensures |names| == |tries| && forall i :: 0 <= i < |tries| ==> names[i] == tries[i].name
  {
    seq(|tries|, i requires 0 <= i < |tries| => tries[i].name)
  }

  predicate AllLaunched(tries: seq<Attempt>) {
    forall i :: 0 <= i < |tries| ==> tries[i].launched
  }

  ghost function Up(tries: seq<Attempt>): set<string> {
    set i | 0 <= i < |tries| && tries[i].launched :: tries[i].name
  }

  /** The names without a process, in order. */
  function WithoutProcess(names: seq<string>, alive: set<string>): seq<string> {
    if names == [] then []
    else
      var last := |names| - 1;
      WithoutProcess(names[..last], alive) + if names[last] in alive then [] else [names[last]]
  }

  lemma {:induction false} WithoutProcessOnly(names: seq<string>, alive: set<string>)
    ensures forall name :: name in WithoutProcess(names, alive) <==> name in names && name !in alive
  {
    if names != [] { WithoutProcessOnly(names[..|names| - 1], alive); }
  }

  /** Every failed launch is reported to the runtime, one after the other. */
  ghost function AfterFailures(g: Graph, r: Runtime, tries: seq<Attempt>): (r': Runtime)
    requires Dag(g) && Fits(g, r)
    ensures Fits(g, r')
    ensures AllLaunched(tries) ==> r' == r
  {
    if tries == [] then r
    else
      var last := |tries| - 1;
      var before := AfterFailures(g, r, tries[..last]);
      if tries[last].launched then before
      else
        match Find(g, tries[last].name)
        case None => before
        case Some(id) => AfterFailure(g, before, id)
  }

  /** What asking for the added program emits. */
  ghost function JoinNames(g: Graph, r: Runtime, grown: Graph, id: nat): seq<string>
    requires Fits(g, r) && grown.Valid() && Dag(grown) && id < |grown.names|
  {
    DependencyRuntime.Names(grown,
      Launched(grown, Request(grown, Migrated(grown, Snapshot(g, r)), id), grown.order))
  }

  lemma JoinNamesDistinct(g: Graph, r: Runtime, grown: Graph, id: nat)
    requires Fits(g, r) && grown.Valid() && Dag(grown) && id < |grown.names|
    ensures Distinct(JoinNames(g, r, grown, id))
  {
    var ids := Launched(grown, Request(grown, Migrated(grown, Snapshot(g, r)), id), grown.order);
    assert Distinct(ids);
  }

  class Server {
    var programs: seq<NodeConfig>
    // the programs that have a process, and every launch ever tried
    var alive: set<string>
    var attempts: seq<Attempt>
    // no launch fails
    const launches: bool
    const runtime: DependencyRuntime.DependencyRuntime

    /** The graph is the one built from the managed programs. */
    ghost predicate Valid()
      reads this, runtime
    {
      && runtime.Valid()
      && NamesOk(programs) && DependenciesOk(programs) && Acyclic(programs)
      && Resolves(programs, runtime.graph.names, runtime.graph.dependencies)
    }

    constructor (launches: bool)
      ensures Valid() && programs == [] && fresh(runtime) && this.launches == launches
      ensures alive == {} && attempts == []
    {
      programs, this.launches, alive, attempts := [], launches, {}, [];
      runtime := new DependencyRuntime.DependencyRuntime(Graph([], [], [], []));
      new;
      NothingCircular(programs);
    }

    /** Launches what has no process yet.  Launching is up to the operating system: it may fail for any
        program, which is then reported as failed. */
    method SpawnAll(names: seq<string>) returns (tries: seq<Attempt>)
      requires runtime.Valid()
      modifies runtime, this`alive, this`attempts
      ensures runtime.Valid() && runtime.graph == old(runtime.graph)
      ensures attempts == old(attempts) + tries && alive == old(alive) + Up(tries)
      ensures Distinct(names) ==> Attempted(tries) == WithoutProcess(names, old(alive))
      ensures runtime.Now() == AfterFailures(runtime.graph, old(runtime.Now()), tries)
      ensures launches ==> AllLaunched(tries)
    {
      tries := [];
      for i := 0 to |names|
        invariant runtime.Valid() && runtime.graph == old(runtime.graph)
        invariant attempts == old(attempts) + tries && alive == old(alive) + Up(tries)
        invariant forall k :: 0 <= k < |tries| ==> tries[k].name in names[..i]
        invariant Distinct(names) ==> Attempted(tries) == WithoutProcess(names[..i], old(alive))
        invariant runtime.Now() == AfterFailures(runtime.graph, old(runtime.Now()), tries)
        invariant launches ==> AllLaunched(tries)
      {
        assert names[..i + 1][..i] == names[..i];
        assert Distinct(names) ==> names[i] !in Up(tries);
        if names[i] !in alive {
          var launched := *;
          launched := launched || launches;
          OneMoreTry(tries, Attempt(names[i], launched));
          if launched {
            alive := alive + {names[i]};
          } else {
            var _, _, _ := runtime.MarkFailed(names[i]);
          }
          tries, attempts := tries + [Attempt(names[i], launched)], attempts + [Attempt(names[i], launched)];
        }
      }
      assert names[..|names|] == names;
    }

    /** The new graph takes effect, with the states carried over and the program requested. */
    method Join(program: NodeConfig, graph: Graph, snapshot: seq<Entry>) returns (names: seq<string>)
      requires Valid() && graph.Valid() && snapshot == Snapshot(runtime.graph, runtime.Now())
      requires Addable(programs, program)
      requires Resolves(programs + [program], graph.names, graph.dependencies)
      modifies this, runtime
      ensures Valid() && programs == old(programs) + [program] && runtime.graph == graph
      ensures Grown(old(runtime.graph), graph) && |old(programs)| < |graph.names|
      ensures runtime.Now() ==
        AfterClosure(graph, Migrated(graph, Snapshot(old(runtime.graph), old(runtime.Now()))), |old(programs)|)
      ensures Dag(graph) && names == JoinNames(old(runtime.graph), old(runtime.Now()), graph, |old(programs)|)
      ensures alive == old(alive) - {program.name} && attempts == old(attempts)
    {
      alive := alive - {program.name};
      GrownByOne(programs, program, runtime.graph, graph);
      programs := programs + [program];
      AddedLast(programs, graph);
      runtime.Migrate(graph, snapshot);
      names := runtime.RequestClosure(program.name);
    }

    /** The last program is taken out again and the earlier states are put back. */
    method Leave(snapshot: seq<Entry>, ghost g: Graph, ghost r: Runtime)
      requires programs != [] && g.Valid() && Fits(g, r) && snapshot == Snapshot(g, r)
      requires var earlier := programs[..|programs| - 1];
        NamesOk(earlier) && DependenciesOk(earlier) && Acyclic(earlier) && Resolves(earlier, g.names, g.dependencies)
      modifies this, runtime
      ensures Valid() && programs == old(programs)[..|old(programs)| - 1]
      ensures runtime.graph == g && runtime.Now() == r
      ensures alive == old(alive) && attempts == old(attempts)
    {
      programs := programs[..|programs| - 1];
      var rebuilt := Build(programs);
      GraphUnique(programs, rebuilt.graph, g);
      runtime.Migrate(rebuilt.graph, snapshot);
      RoundTrip(g, r);
    }

    /** `grown` is the graph with the program in it, `tries` the launches this call tried: exactly those
        programs without a process that asking for the new one emits, in that order.  The call succeeds if
        and only if the configurations are acceptable and every launch succeeds. */
    method StartAndAdd(program: NodeConfig) returns (ok: bool, ghost grown: Graph, ghost tries: seq<Attempt>)
      requires Valid()
      modifies this, runtime
      ensures Valid()
      ensures attempts == old(attempts) + tries
      ensures !Addable(old(programs), program) ==> !ok && tries == [] && alive == old(alive)
      ensures Addable(old(programs), program) ==>
        && grown.Valid() && Dag(grown) && Grown(old(runtime.graph), grown) && |old(programs)| < |grown.names|
        && Resolves(old(programs) + [program], grown.names, grown.dependencies)
        && Attempted(tries) == WithoutProcess(
             JoinNames(old(runtime.graph), old(runtime.Now()), grown, |old(programs)|), old(alive) - {program.name})
        && (ok <==> AllLaunched(tries))
        && alive == old(alive) - {program.name} + Up(tries)
      ensures launches ==> (ok <==> Addable(old(programs), program))
      ensures !ok ==> programs == old(programs)
      ensures !ok ==> runtime.graph == old(runtime.graph) && runtime.Now() == old(runtime.Now())
      ensures ok ==> programs == old(programs) + [program] && runtime.graph == grown
      ensures ok ==> runtime.Now() == AfterClosure(grown,
        Migrated(grown, Snapshot(old(runtime.graph), old(runtime.Now()))), |old(programs)|)
    {
      grown, tries := runtime.graph, [];
      var snapshot := runtime.TakeSnapshot();
      var built := Build(programs + [program]);
      if built.Rejected? { return false, grown, tries; }
      grown := built.graph;
      var names := Join(program, built.graph, snapshot);
      JoinNamesDistinct(old(runtime.graph), old(runtime.Now()), grown, |old(programs)|);
      var done := SpawnAll(names);
      tries := done;
      if exists i :: 0 <= i < |done| && !done[i].launched {
        assert programs[..|programs| - 1] == old(programs);
        Leave(snapshot, old(runtime.graph), old(runtime.Now()));
        return false, grown, tries;
      }
      ok := true;
    }
  }

  lemma OneMoreTry(tries: seq<Attempt>, t: Attempt)
    ensures Up(tries + [t]) == Up(tries) + if t.launched then {t.name} else {}
    ensures Attempted(tries + [t]) == Attempted(tries) + [t.name]
    ensures (tries + [t])[..|tries|] == tries
  {
    var more := tries + [t];
    forall name ensures name in Up(more) <==> name in Up(tries) || (t.launched && name == t.name) {
      if name in Up(tries) {
        var i :| 0 <= i < |tries| && tries[i].launched && tries[i].name == name;
        assert more[i] == tries[i];
      }
      if t.launched && name == t.name { assert more[|tries|] == t; }
    }
  }

  /** Adding a program keeps the runtime settled. */
  lemma JoinSettled(g: Graph, r: Runtime, grown: Graph, id: nat)
    requires Dag(g) && Settled(g, r) && grown.Valid() && Grown(g, grown) && id < |grown.names|
    ensures Dag(grown) && Settled(grown, AfterClosure(grown, Migrated(grown, Snapshot(g, r)), id))
  {
    ValidIsDag(grown);
    AdoptSettled(g, r, grown);
    ClosureSettled(grown, Migrated(grown, Snapshot(g, r)), id);
  }

  lemma NothingCircular(programs: seq<NodeConfig>)
    requires programs == []
    ensures Acyclic(programs)
  {
    forall p ensures !Circular(programs, p) {
      assert |p| >= 2 ==> !DependsDirectly(programs, p[0], p[1]);
    }
  }

  lemma AddedLast(programs: seq<NodeConfig>, g: Graph)
    requires programs != [] && NamesOk(programs) && g.Valid() && Resolves(programs, g.names, g.dependencies)
    ensures Find(g, programs[|programs| - 1].name) == Some(|programs| - 1)
  {}
}
