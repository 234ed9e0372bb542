/** The depth-first search that names a dependency cycle once Kahn's loop has stalled. */
module CycleSearch {
  import opened DependencyGraph

  datatype Color = White | Grey | Black

  ghost predicate Consistent(deps: Edges, color: seq<Color>, stack: seq<nat>, finished: seq<nat>) {
    && |color| == |deps|
    && Distinct(stack) && Walk(deps, stack)
    && (forall i :: 0 <= i < |deps| ==> (color[i] == Grey <==> i in stack))
    && (forall i :: 0 <= i < |deps| ==> (color[i] == Black <==> i in finished))
    && Layered(deps, finished)
  }

  ghost function Whites(color: seq<Color>): set<nat> {
    set i: nat | i < |color| && color[i] == White
  }

  lemma Enter(deps: Edges, color: seq<Color>, stack: seq<nat>, finished: seq<nat>, id: nat)
    requires Consistent(deps, color, stack, finished)
    requires id < |deps| && color[id] == White
    requires stack != [] ==> id in deps[stack[|stack| - 1]]
    ensures Consistent(deps, color[id := Grey], stack + [id], finished)
    ensures Whites(color[id := Grey]) < Whites(color)
  {
    assert id in Whites(color) && id !in Whites(color[id := Grey]);
  }

  lemma Leave(deps: Edges, color: seq<Color>, stack: seq<nat>, finished: seq<nat>, id: nat)
    requires Consistent(deps, color, stack + [id], finished)
    requires id < |deps| && forall d :: d in deps[id] ==> d in finished
    ensures Consistent(deps, color[id := Black], stack, finished + [id])
    ensures Whites(color[id := Black]) == Whites(color)
  {
    var whole := stack + [id];
    assert whole[|stack|] == id;
    assert forall i :: 0 <= i < |stack| ==> whole[i] == stack[i];
    assert color[id] == Grey;
    assert (finished + [id])[..|finished|] == finished;
  }

  /** Visits a white node: either a cycle is found, or the node and everything beneath it turns black.
      `stack` holds the grey nodes, each depending on the next; `finished` the black ones in the order
      in which they turned black. */
  method Visit(deps: Edges, color0: seq<Color>, stack0: seq<nat>, ghost finished0: seq<nat>, id: nat)
    returns (cyclePath: seq<nat>, color: seq<Color>, ghost finished: seq<nat>)
    requires WellFormed(deps) && Consistent(deps, color0, stack0, finished0)
    requires id < |deps| && color0[id] == White
    requires stack0 != [] ==> id in deps[stack0[|stack0| - 1]]
    ensures cyclePath != [] ==> Cycle(deps, cyclePath)
    ensures cyclePath == [] ==> Consistent(deps, color, stack0, finished) && id in finished
    ensures cyclePath == [] ==> finished0 <= finished
    ensures cyclePath == [] ==> Whites(color) < Whites(color0)
    decreases Whites(color0)
  {
    Enter(deps, color0, stack0, finished0, id);
    cyclePath, color, finished := [], color0[id := Grey], finished0;
    var stack := stack0 + [id];
    var list := deps[id];
    for k := 0 to |list|
      invariant cyclePath == [] && Consistent(deps, color, stack, finished)
      invariant forall d :: d in list[..k] ==> d in finished
      invariant finished0 <= finished
      invariant Whites(color) < Whites(color0)
    {
      var dependency := list[k];
      assert dependency in deps[id];
      assert list[..k + 1] == list[..k] + [dependency];
      if color[dependency] == White {
        cyclePath, color, finished := Visit(deps, color, stack, finished, dependency);
        if cyclePath != [] { return; }
      }
      if color[dependency] == Grey {
        var begin :| 0 <= begin < |stack| && stack[begin] == dependency;
        CloseWalk(deps, stack, begin);
        cyclePath := stack[begin..] + [dependency];
        return;
      }
    }
    assert list[..|list|] == list;
    Leave(deps, color, stack0, finished, id);
    color, finished := color[id := Black], finished + [id];
  }

  lemma CloseWalk(deps: Edges, stack: seq<nat>, begin: nat)
    requires begin < |stack| && Walk(deps, stack) && Distinct(stack)
    requires stack[begin] in deps[stack[|stack| - 1]]
    ensures Cycle(deps, stack[begin..] + [stack[begin]])
  {}

  /** If some node can never be placed, the search always names a cycle. */
  method FindCycle(deps: Edges, ghost done: set<nat>) returns (path: seq<nat>)
    requires WellFormed(deps)
    requires Available(deps, done) == {} && exists x: nat :: x < |deps| && x !in done
    ensures Cycle(deps, path)
  {
    var color := seq(|deps|, _ => White);
    ghost var finished: seq<nat> := [];
    for i := 0 to |deps|
      invariant Consistent(deps, color, [], finished)
      invariant forall k: nat :: k < i ==> k in finished
    {
      if color[i] == White {
        path, color, finished := Visit(deps, color, [], finished, i);
        if path != [] { return; }
      }
    }
    ghost var x: nat :| x < |deps| && x !in done;
    assert x in finished;
    ghost var k :| 0 <= k < |finished| && finished[k] == x;
    LayeredIsOrdered(deps, finished);
    StalledHasNoOrder(deps, done, finished, k);
    path := [];
  }
}
