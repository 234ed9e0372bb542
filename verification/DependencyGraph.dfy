/** Program dependency graphs: node `i` depends on the nodes in `dependencies[i]`. */
module DependencyGraph {
  type Edges = seq<seq<nat>>

  ghost predicate Distinct<T>(s: seq<T>) {
    forall i, j :: 0 <= i < j < |s| ==> s[i] != s[j]
  }

  function Elems<T>(s: seq<T>): set<T> {
    set x | x in s
  }

  /** All edges lead to nodes, and no edge is listed twice. */
  ghost predicate WellFormed(deps: Edges) {
    && (forall i, d :: 0 <= i < |deps| && d in deps[i] ==> d < |deps|)
    && (forall i :: 0 <= i < |deps| ==> Distinct(deps[i]))
  }

  ghost predicate Ascending(ids: seq<nat>) {
    forall i, j :: 0 <= i < j < |ids| ==> ids[i] < ids[j]
  }

  /** `dependents` lists the edges of `deps` backwards, each list in ascending order. */
  ghost predicate ReverseOf(deps: Edges, dependents: Edges) {
    && |dependents| == |deps|
    && WellFormed(dependents)
    && (forall d :: 0 <= d < |dependents| ==> Ascending(dependents[d]))
    && (forall i, d :: 0 <= i < |deps| && 0 <= d < |deps| ==> (i in dependents[d] <==> d in deps[i]))
  }

  ghost predicate DependenciesFirst(deps: Edges, order: seq<nat>) {
    && (forall k :: 0 <= k < |order| ==> order[k] < |deps|)
    && (forall k, d :: 0 <= k < |order| && d in deps[order[k]] ==> d in order[..k])
  }

  /** A permutation of the nodes that places every dependency before its dependents. */
  ghost predicate Topological(deps: Edges, order: seq<nat>) {
    |order| == |deps| && Distinct(order) && DependenciesFirst(deps, order)
  }

  ghost predicate Walk(deps: Edges, p: seq<nat>) {
    && (forall i :: 0 <= i < |p| ==> p[i] < |deps|)
    && (forall i :: 0 <= i < |p| - 1 ==> p[i + 1] in deps[p[i]])
  }

  ghost predicate ClosedWalk(deps: Edges, p: seq<nat>) {
    |p| >= 2 && Walk(deps, p) && p[0] == p[|p| - 1]
  }

  /** A closed walk that repeats no node but its first. */
  ghost predicate Cycle(deps: Edges, p: seq<nat>) {
    ClosedWalk(deps, p) && Distinct(p[..|p| - 1])
  }

  /** The nodes that may come next once the nodes in `done` have been placed. */
  ghost function Available(deps: Edges, done: set<nat>): set<nat> {
    set i | 0 <= i < |deps| && i !in done && (forall d :: d in deps[i] ==> d in done)
  }

  ghost predicate IsLeast(m: nat, s: set<nat>) {
    m in s && forall x :: x in s ==> m <= x
  }

  /** Every node placed is the smallest one that could be placed at that point. */
  ghost predicate Greedy(deps: Edges, order: seq<nat>) {
    forall k :: 0 <= k < |order| ==> IsLeast(order[k], Available(deps, Elems(order[..k])))
  }

  /** The same, built up node by node: each node is the smallest available one, or merely has all its
      dependencies before it. */
  ghost predicate PlacedGreedily(deps: Edges, order: seq<nat>) {
    order == [] ||
    (PlacedGreedily(deps, order[..|order| - 1]) &&
     IsLeast(order[|order| - 1], Available(deps, Elems(order[..|order| - 1]))))
  }

  ghost predicate Layered(deps: Edges, order: seq<nat>) {
    order == [] ||
    var init, last := order[..|order| - 1], order[|order| - 1];
    Layered(deps, init) && last < |deps| && forall d :: d in deps[last] ==> d in init
  }

  ghost predicate LexAtMost(a: seq<nat>, b: seq<nat>) {
    a == b || exists k :: 0 <= k < |a| && k < |b| && a[..k] == b[..k] && a[k] < b[k]
  }

  lemma {:induction false} DistinctSize<T>(s: seq<T>)
    requires Distinct(s)
    ensures |Elems(s)| == |s|
  {
    if s != [] {
      var init, last := s[..|s| - 1], s[|s| - 1];
      DistinctSize(init);
      assert Elems(s) == Elems(init) + {last};
      assert last !in init;
    }
  }

  ghost function Range(n: nat): (r: set<nat>)
    ensures |r| == n && forall x: nat :: x in r <==> x < n
  {
    if n == 0 then {} else Range(n - 1) + {n - 1}
  }

  lemma {:induction false} LayeredAt(deps: Edges, order: seq<nat>, k: nat)
    requires Layered(deps, order) && k < |order|
    ensures order[k] < |deps| && forall d :: d in deps[order[k]] ==> d in order[..k]
    decreases |order|
  {
    if k < |order| - 1 {
      LayeredAt(deps, order[..|order| - 1], k);
      assert order[..|order| - 1][..k] == order[..k];
    }
  }

  lemma LayeredIsOrdered(deps: Edges, order: seq<nat>)
    requires Layered(deps, order)
    ensures DependenciesFirst(deps, order)
  {}

  lemma {:induction false} PlacedAt(deps: Edges, order: seq<nat>, k: nat)
    requires PlacedGreedily(deps, order) && k < |order|
    ensures IsLeast(order[k], Available(deps, Elems(order[..k])))
    decreases |order|
  {
    if k < |order| - 1 {
      PlacedAt(deps, order[..|order| - 1], k);
      assert order[..|order| - 1][..k] == order[..k];
    }
  }

  lemma {:induction false} PlacedIsLayered(deps: Edges, order: seq<nat>)
    requires PlacedGreedily(deps, order)
    ensures Layered(deps, order)
  {
    if order != [] { PlacedIsLayered(deps, order[..|order| - 1]); }
  }

  lemma PlacedIsGreedy(deps: Edges, order: seq<nat>)
    requires PlacedGreedily(deps, order)
    ensures Greedy(deps, order) && Distinct(order) && DependenciesFirst(deps, order)
  {
    forall k | 0 <= k < |order|
      ensures IsLeast(order[k], Available(deps, Elems(order[..k]))) && order[k] !in order[..k]
    {
      PlacedAt(deps, order, k);
    }
    forall i, j | 0 <= i < j < |order| ensures order[i] != order[j] {
      assert order[i] in order[..j];
    }
    PlacedIsLayered(deps, order);
    LayeredIsOrdered(deps, order);
  }

  /** Distinct nodes, as many as there are nodes, are all the nodes. */
  lemma PermutationCovers(order: seq<nat>, n: nat)
    requires |order| == n && Distinct(order)
    requires forall k :: 0 <= k < n ==> order[k] < n
    ensures forall x: nat :: x < n ==> x in order
  {
    var all := Range(n);
    DistinctSize(order);
    assert Elems(order) <= all;
    assert all == Elems(order) + (all - Elems(order));
    forall x: nat | x < n ensures x in order {
      assert x in Elems(order);
    }
  }

  lemma {:induction false} LeastExists(s: set<nat>)
    requires s != {}
    ensures exists m :: IsLeast(m, s)
  {
    var x :| x in s;
    if s == {x} {
      assert IsLeast(x, s);
    } else {
      LeastExists(s - {x});
      assert s == (s - {x}) + {x};
      var m :| IsLeast(m, s - {x});
      if m <= x {
        assert IsLeast(m, s);
      } else {
        assert IsLeast(x, s);
      }
    }
  }

  /** The first position at which two orders differ. */
  lemma {:induction false} FirstDifference(a: seq<nat>, b: seq<nat>) returns (k: nat)
    requires |a| == |b| && a != b
    ensures k < |a| && a[..k] == b[..k] && a[k] != b[k]
  {
    if a[0] != b[0] {
      k := 0;
    } else {
      assert a == [a[0]] + a[1..] && b == [b[0]] + b[1..];
      var k' := FirstDifference(a[1..], b[1..]);
      k := k' + 1;
      assert a[..k] == [a[0]] + a[1..][..k'] && b[..k] == [b[0]] + b[1..][..k'];
    }
  }

  /** A greedy topological order is the lexicographically smallest one. */
  lemma GreedyIsSmallest(deps: Edges, order: seq<nat>, other: seq<nat>)
    requires Topological(deps, order) && Greedy(deps, order) && Topological(deps, other)
    ensures LexAtMost(order, other)
  {
    if order != other {
      var k := FirstDifference(order, other);
      assert other[k] in Available(deps, Elems(order[..k])) by {
        assert other[k] !in other[..k];
      }
      assert order[k] < other[k];
    }
  }

  /** Two topological orders that are each smallest are the same. */
  lemma GreedyIsUnique(deps: Edges, order: seq<nat>, other: seq<nat>)
    requires Topological(deps, order) && Greedy(deps, order)
    requires Topological(deps, other) && Greedy(deps, other)
    ensures order == other
  {
    if order != other {
      var k := FirstDifference(order, other);
    }
  }

  lemma {:induction false} WalkGoesBack(deps: Edges, order: seq<nat>, p: seq<nat>, k: nat, last: nat)
    requires Topological(deps, order) && Walk(deps, p) && p != []
    requires k < |order| && order[k] == p[0]
    requires last < |order| && order[last] == p[|p| - 1]
    ensures last <= k && (|p| >= 2 ==> last < k)
  {
    if |p| >= 2 {
      assert p[1] in deps[p[0]];
      var k' :| 0 <= k' < k && order[k'] == p[1];
      WalkGoesBack(deps, order, p[1..], k', last);
    }
  }

  /** A graph with a topological order has no closed walk. */
  lemma OrderedIsAcyclic(deps: Edges, order: seq<nat>, p: seq<nat>)
    requires Topological(deps, order)
    ensures !ClosedWalk(deps, p)
  {
    if ClosedWalk(deps, p) {
      PermutationCovers(order, |deps|);
      assert p[0] in order;
      var k :| 0 <= k < |order| && order[k] == p[0];
      WalkGoesBack(deps, order, p, k, k);
    }
  }

  /** If some node cannot be placed, no arrangement has that node after all its dependencies. */
  lemma {:induction false} StalledHasNoOrder(deps: Edges, done: set<nat>, order: seq<nat>, k: nat)
    requires Available(deps, done) == {}
    requires DependenciesFirst(deps, order)
    requires k < |order| && order[k] !in done
    ensures false
  {
    assert order[k] !in Available(deps, done);
    var d :| d in deps[order[k]] && d !in done;
    var k' :| 0 <= k' < k && order[k'] == d;
    StalledHasNoOrder(deps, done, order, k');
  }

  lemma {:induction false} AscendingUnique(a: seq<nat>, b: seq<nat>)
    requires Ascending(a) && Ascending(b) && forall x :: x in a <==> x in b
    ensures a == b
  {
    assert Elems(a) == Elems(b);
    DistinctSize(a);
    DistinctSize(b);
    if a != [] {
      assert a[0] in b && b[0] in a;
      assert a[0] == b[0];
      forall x ensures x in a[1..] <==> x in b[1..] {
        assert x in a <==> x == a[0] || x in a[1..];
        assert x in b <==> x == b[0] || x in b[1..];
      }
      AscendingUnique(a[1..], b[1..]);
      assert a == [a[0]] + a[1..] && b == [b[0]] + b[1..];
    }
  }
}
