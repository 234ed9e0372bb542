/** validate_and_order_prog_cfgs: programs are put into dependency order, stably. */
module ProgramOrder {
  import opened DependencyGraph
  import opened GraphBuild

  const MAX_NAME_LENGTH := 128

  predicate IsAlphanumeric(c: char) {
    '0' <= c <= '9' || 'A' <= c <= 'Z' || 'a' <= c <= 'z'
  }

  /** is_valid_program_name: [A-Za-z0-9][A-Za-z0-9._-]*, at most 128 characters. */
  predicate IsValidName(name: string) {
    && 0 < |name| <= MAX_NAME_LENGTH
    && IsAlphanumeric(name[0])
    && forall i :: 1 <= i < |name| ==> IsAlphanumeric(name[i]) || name[i] in {'.', '_', '-'}
  }

  /** A name has 1 to 128 ASCII letters, digits, periods, underscores and hyphens, and begins with a
      letter or a digit. */
  lemma ValidNameMeans(name: string)
    ensures IsValidName(name) <==>
      && 1 <= |name| <= 128
      && (forall i :: 0 <= i < |name| ==>
            var code := name[i] as int;
            48 <= code <= 57 || 65 <= code <= 90 || 97 <= code <= 122 || code == 46 || code == 95 || code == 45)
      && name[0] != '.' && name[0] != '_' && name[0] != '-'
  {}

  /** A program description: what ordering looks at, and whatever else it carries. */
  datatype Program = Program(config: NodeConfig, rest: string)

  function Configs(programs: seq<Program>): (r: seq<NodeConfig>)
    ensures |r| == |programs| && forall i :: 0 <= i < |programs| ==> r[i] == programs[i].config
  {
    seq(|programs|, i requires 0 <= i < |programs| => programs[i].config)
  }

  predicate NamesValid(programs: seq<Program>) {
    forall i :: 0 <= i < |programs| ==>
      IsValidName(programs[i].config.name) && forall d :: d in programs[i].config.dependsOn ==> IsValidName(d)
  }

  ghost predicate Acceptable(programs: seq<Program>) {
    var configs := Configs(programs);
    NamesValid(programs) && NamesOk(configs) && DependenciesOk(configs) && Acyclic(configs)
  }

  /** Every program comes after everything it depends on. */
  ghost predicate InOrder(programs: seq<Program>) {
    forall i, d :: 0 <= i < |programs| && d in programs[i].config.dependsOn ==>
      exists j :: 0 <= j < i && programs[j].config.name == d
  }

  /** `b` is `a` in another order. */
  ghost predicate Rearranges(a: seq<Program>, b: seq<Program>, order: seq<nat>) {
    && |order| == |a| == |b| && Distinct(order)
    && forall k :: 0 <= k < |a| ==> order[k] < |a| && b[k] == a[order[k]]
  }

  ghost function Identity(n: nat): (s: seq<nat>)
    ensures |s| == n && forall i :: 0 <= i < n ==> s[i] == i
  {
    seq(n, i requires 0 <= i => i)
  }

  /** If every dependency has a smaller number than its dependents, the order is 0, 1, 2, ... */
  lemma OrderedIsIdentity(deps: Edges, order: seq<nat>)
    requires Topological(deps, order) && Greedy(deps, order)
    requires forall i, d :: 0 <= i < |deps| && d in deps[i] ==> d < i
    ensures order == Identity(|deps|)
  {
    var s := Identity(|deps|);
    forall k | 0 <= k < |s|
      ensures forall x: nat :: x in s[..k] <==> x < k
    {
      forall x: nat | x < k ensures x in s[..k] { assert s[..k][x] == x; }
    }
    forall k | 0 <= k < |s| ensures IsLeast(s[k], Available(deps, Elems(s[..k]))) {}
    GreedyIsUnique(deps, order, s);
  }

  /** The ids of the dependencies of an ordered list are smaller than its own. */
  lemma InOrderIds(programs: seq<Program>, g: Graph)
    requires InOrder(programs) && NamesOk(Configs(programs))
    requires Resolves(Configs(programs), g.names, g.dependencies)
    ensures forall i, d :: 0 <= i < |g.dependencies| && d in g.dependencies[i] ==> d < i
  {
    var configs := Configs(programs);
    forall i, d | 0 <= i < |g.dependencies| && d in g.dependencies[i] ensures d < i {
      assert ResolvesNode(configs, g.dependencies[i], configs[i].dependsOn);
      var j :| 0 <= j < |g.dependencies[i]| && g.dependencies[i][j] == d;
      assert configs[i].dependsOn[j] == configs[d].name;
      assert configs[d].name in programs[i].config.dependsOn;
      var k :| 0 <= k < i && programs[k].config.name == configs[d].name;
      assert configs[k].name == configs[d].name;
    }
  }

  /** Arranging along a topological order puts the programs in order. */
  lemma ArrangedInOrder(programs: seq<Program>, g: Graph, ordered: seq<Program>)
    requires NamesOk(Configs(programs)) && g.Valid() && Resolves(Configs(programs), g.names, g.dependencies)
    requires Rearranges(programs, ordered, g.order)
    ensures InOrder(ordered)
  {
    var configs := Configs(programs);
    forall i, d | 0 <= i < |ordered| && d in ordered[i].config.dependsOn
      ensures exists j :: 0 <= j < i && ordered[j].config.name == d
    {
      var x := g.order[i];
      var l :| 0 <= l < |configs[x].dependsOn| && configs[x].dependsOn[l] == d;
      assert ResolvesNode(configs, g.dependencies[x], configs[x].dependsOn);
      var y := g.dependencies[x][l];
      assert y in g.dependencies[g.order[i]];
      assert y in g.order[..i];
      var j :| 0 <= j < i && g.order[j] == y;
      assert ordered[j].config.name == d;
    }
  }

  /** What is acceptable stays so in any other order. */
  lemma RearrangedAcceptable(a: seq<Program>, b: seq<Program>, order: seq<nat>)
    requires Acceptable(a) && Rearranges(a, b, order)
    ensures Acceptable(b)
  {
    var ca, cb := Configs(a), Configs(b);
    PermutationCovers(order, |a|);
    forall name ensures Known(ca, name) ==> Known(cb, name) {
      if k :| 0 <= k < |ca| && ca[k].name == name {
        assert k in order;
        var j :| 0 <= j < |order| && order[j] == k;
        assert cb[j].name == name;
      }
    }
    forall i | 0 <= i < |cb| ensures DependencyListOk(cb, cb[i]) {
      assert DependencyListOk(ca, ca[order[i]]);
    }
    if p :| Circular(cb, p) {
      forall i | 0 <= i < |p| - 1 ensures DependsDirectly(ca, p[i], p[i + 1]) {
        assert DependsDirectly(cb, p[i], p[i + 1]);
        var k :| 0 <= k < |cb| && cb[k].name == p[i] && p[i + 1] in cb[k].dependsOn;
        assert ca[order[k]] == cb[k];
      }
      assert Circular(ca, p);
    }
  }

  method ValidateAndOrder(programs: seq<Program>) returns (ok: bool, ordered: seq<Program>, ghost order: seq<nat>)
    ensures ok <==> Acceptable(programs)
    ensures ok ==> Rearranges(programs, ordered, order) && InOrder(ordered)
    ensures ok && InOrder(programs) ==> ordered == programs
    ensures !ok ==> ordered == programs
  {
    ordered, order := programs, [];
    for i := 0 to |programs|
      invariant NamesValid(programs[..i])
    {
      if !IsValidName(programs[i].config.name) { return false, programs, []; }
      if exists d :: d in programs[i].config.dependsOn && !IsValidName(d) { return false, programs, []; }
      assert programs[..i + 1] == programs[..i] + [programs[i]];
    }
    assert programs[..|programs|] == programs;
    var built := Build(Configs(programs));
    if built.Rejected? { return false, programs, []; }
    var g := built.graph;
    ordered, order := [], g.order;
    for k := 0 to |g.order|
      invariant |ordered| == k && forall j :: 0 <= j < k ==> ordered[j] == programs[g.order[j]]
    {
      ordered := ordered + [programs[g.order[k]]];
    }
    ArrangedInOrder(programs, g, ordered);
    if InOrder(programs) {
      InOrderIds(programs, g);
      OrderedIsIdentity(g.dependencies, g.order);
      assert ordered == programs;
    }
    ok := true;
  }

  /** Ordering what has been ordered changes nothing. */
  method OrderTwice(programs: seq<Program>) returns (ok: bool, once: seq<Program>, twice: seq<Program>)
    ensures ok ==> twice == once
    ensures ok <==> Acceptable(programs)
  {
    ghost var order;
    ok, once, order := ValidateAndOrder(programs);
    twice := once;
    if ok {
      RearrangedAcceptable(programs, once, order);
      ok, twice, order := ValidateAndOrder(once);
    }
  }
}
