/** The depth-first cycle detector of core/src/graph.rs and the theory of closed walks it decides. */
module CycleSearch {
  import opened Basics

  type Arc = (string, string)

  ghost predicate ArcsOver(arcs: seq<Arc>, nodes: set<string>) {
    forall a :: a in arcs ==> a.0 in nodes && a.1 in nodes
  }

  /** Every consecutive pair of `w` is an arc. */
  ghost predicate IsWalk(w: seq<string>, arcs: seq<Arc>) {
    forall i :: 0 <= i < |w| - 1 ==> (w[i], w[i + 1]) in arcs
  }

  ghost predicate IsClosedWalk(w: seq<string>, arcs: seq<Arc>) {
    |w| >= 2 && w[0] == w[|w| - 1] && IsWalk(w, arcs)
  }

  ghost predicate Distinct<T>(s: seq<T>) {
    forall i, j :: 0 <= i < j < |s| ==> s[i] != s[j]
  }

  /** A closed walk that visits no node twice before it closes. */
  ghost predicate IsSimpleCycle(w: seq<string>, arcs: seq<Arc>) {
    IsClosedWalk(w, arcs) && Distinct(w[..|w| - 1])
  }

  ghost predicate Acyclic(arcs: seq<Arc>) {
    forall w :: !IsClosedWalk(w, arcs)
  }

  /** `adj` lists, for every node, exactly the heads of its outgoing arcs. */
  ghost predicate IsAdjacency(adj: map<string, seq<string>>, nodes: set<string>, arcs: seq<Arc>) {
    && adj.Keys == nodes
    && (forall n, v :: n in nodes ==> (v in adj[n] <==> (n, v) in arcs))
  }

  datatype Color = White | Gray | Black

  /** A node under exploration and the number of its neighbours already looked at. */
  datatype Frame = Frame(node: string, next: nat)

  /**
   * `done` is a finishing order: every arc out of a listed node leads to a node listed before it.
   * It is the reverse of a topological order of the finished nodes.
   */
  ghost predicate IsFinishingOrder(done: seq<string>, arcs: seq<Arc>) {
    forall k, v :: 0 <= k < |done| && (done[k], v) in arcs ==> v in done[..k]
  }

  /** A walk that starts at position `k` of a finishing order only moves towards its front. */
  lemma {:induction false} WalkDescends(done: seq<string>, arcs: seq<Arc>, w: seq<string>, k: nat)
    requires Distinct(done) && IsFinishingOrder(done, arcs)
    requires IsWalk(w, arcs) && |w| >= 2
    requires k < |done| && w[0] == done[k]
    ensures w[|w| - 1] in done[..k]
  {
    assert (w[0], w[1]) in arcs;
    var j :| 0 <= j < k && done[j] == w[1];
    if |w| > 2 {
      var tail := w[1..];
      assert IsWalk(tail, arcs) by {
        forall i | 0 <= i < |tail| - 1 ensures (tail[i], tail[i + 1]) in arcs {
          assert (w[i + 1], w[i + 2]) in arcs;
        }
      }
      WalkDescends(done, arcs, tail, j);
      assert w[|w| - 1] == tail[|tail| - 1];
    }
  }

  /** Nodes that admit a finishing order carry no closed walk. */
  lemma FinishingOrderIsAcyclic(done: seq<string>, nodes: set<string>, arcs: seq<Arc>)
    requires ArcsOver(arcs, nodes)
    requires Distinct(done) && IsFinishingOrder(done, arcs)
    requires forall n :: n in nodes ==> n in done
    ensures Acyclic(arcs)
  {
    forall w | IsClosedWalk(w, arcs) ensures false {
      assert (w[0], w[1]) in arcs;
      var k :| 0 <= k < |done| && done[k] == w[0];
      WalkDescends(done, arcs, w, k);
    }
  }

  /** The gray part of the search: the stack and the path name the same nodes, linked by arcs. */
  ghost predicate StackShape(stack: seq<Frame>, path: seq<string>, adj: map<string, seq<string>>) {
    && |stack| == |path|
    && Distinct(path)
    && (forall i :: 0 <= i < |stack| ==>
          stack[i].node == path[i] && path[i] in adj && stack[i].next <= |adj[path[i]]|)
    && (forall i :: 0 <= i < |stack| - 1 ==>
          0 < stack[i].next && adj[path[i]][stack[i].next - 1] == path[i + 1])
  }

  /** Every neighbour a frame has passed is finished, except the one the next frame explores. */
  ghost predicate PassedAreDone(stack: seq<Frame>, path: seq<string>, adj: map<string, seq<string>>, done: seq<string>)
    requires StackShape(stack, path, adj)
  {
    forall i, j :: 0 <= i < |stack| && 0 <= j < stack[i].next ==>
      adj[path[i]][j] in done || (i < |stack| - 1 && j == stack[i].next - 1)
  }

  ghost predicate ColorsAgree(color: map<string, Color>, nodes: set<string>, path: seq<string>, done: seq<string>) {
    && color.Keys == nodes
    && (forall n :: n in nodes ==> (color[n] == Gray <==> n in path))
    && (forall n :: n in nodes ==> (color[n] == Black <==> n in done))
    && (forall n :: n in path ==> n in nodes)
    && (forall n :: n in done ==> n in nodes)
  }

  /** The back arc from the top of the path to a node on it closes a simple cycle. */
  lemma BackArcClosesCycle(stack: seq<Frame>, path: seq<string>, adj: map<string, seq<string>>,
                           nodes: set<string>, arcs: seq<Arc>, at: nat)
    requires IsAdjacency(adj, nodes, arcs) && StackShape(stack, path, adj)
    requires at < |path| && path[at] in adj[path[|path| - 1]]
    ensures IsSimpleCycle(path[at..] + [path[at]], arcs)
  {
    var w := path[at..] + [path[at]];
    forall i | 0 <= i < |w| - 1 ensures (w[i], w[i + 1]) in arcs {
      if i < |w| - 2 {
        assert adj[path[at + i]][stack[at + i].next - 1] == path[at + i + 1];
      }
    }
    assert w[..|w| - 1] == path[at..];
  }

  /** What the search loop keeps: the shapes above, and a finishing order of the black nodes. */
  ghost predicate Searching(nodes: set<string>, arcs: seq<Arc>, adj: map<string, seq<string>>,
                            color: map<string, Color>, stack: seq<Frame>, path: seq<string>, done: seq<string>)
  {
    && IsAdjacency(adj, nodes, arcs)
    && StackShape(stack, path, adj)
    && PassedAreDone(stack, path, adj, done)
    && ColorsAgree(color, nodes, path, done)
    && Distinct(done) && IsFinishingOrder(done, arcs)
  }

  ghost function Whites(color: map<string, Color>): set<string> {
    set n | n in color && color[n] == White
  }

  /** Neighbours the top frame has not looked at yet. */
  ghost function Unseen(stack: seq<Frame>, adj: map<string, seq<string>>): int {
    if |stack| == 0 || stack[|stack| - 1].node !in adj then 0
    else |adj[stack[|stack| - 1].node]| - stack[|stack| - 1].next
  }

  function Advance(stack: seq<Frame>): seq<Frame>
    requires |stack| > 0
  {
    stack[|stack| - 1 := stack[|stack| - 1].(next := stack[|stack| - 1].next + 1)]
  }

  /** Stepping over a finished neighbour. */
  lemma StepOverBlack(nodes: set<string>, arcs: seq<Arc>, adj: map<string, seq<string>>,
                      color: map<string, Color>, stack: seq<Frame>, path: seq<string>, done: seq<string>, next: string)
    requires Searching(nodes, arcs, adj, color, stack, path, done) && |stack| > 0
    requires stack[|stack| - 1].next < |adj[path[|path| - 1]]|
    requires next == adj[path[|path| - 1]][stack[|stack| - 1].next]
    requires next in done
    ensures Searching(nodes, arcs, adj, color, Advance(stack), path, done)
  {
    var stack' := Advance(stack);
    forall i, j | 0 <= i < |stack'| && 0 <= j < stack'[i].next
      ensures adj[path[i]][j] in done || (i < |stack'| - 1 && j == stack'[i].next - 1)
    {
      assert j < stack[i].next || (i == |stack| - 1 && j == stack[i].next);
    }
  }

  /** Descending into an undiscovered neighbour. */
  /** Exploring an unseen neighbour lengthens path and stack by it. */
  lemma PushShape(stack: seq<Frame>, path: seq<string>, adj: map<string, seq<string>>, next: string)
    requires StackShape(stack, path, adj) && |stack| > 0 && next in adj && next !in path
    requires stack[|stack| - 1].next < |adj[path[|path| - 1]]|
    requires next == adj[path[|path| - 1]][stack[|stack| - 1].next]
    ensures StackShape(Advance(stack) + [Frame(next, 0)], path + [next], adj)
  {
    var stack', path' := Advance(stack) + [Frame(next, 0)], path + [next];
    forall i | 0 <= i < |stack'| - 1 ensures 0 < stack'[i].next && adj[path'[i]][stack'[i].next - 1] == path'[i + 1] {
      if i < |stack| - 1 {
        assert adj[path[i]][stack[i].next - 1] == path[i + 1];
      }
    }
  }

  lemma PushPassed(stack: seq<Frame>, path: seq<string>, adj: map<string, seq<string>>, done: seq<string>, next: string)
    requires StackShape(stack, path, adj) && PassedAreDone(stack, path, adj, done) && |stack| > 0 && next in adj
    requires stack[|stack| - 1].next < |adj[path[|path| - 1]]|
    requires StackShape(Advance(stack) + [Frame(next, 0)], path + [next], adj)
    ensures PassedAreDone(Advance(stack) + [Frame(next, 0)], path + [next], adj, done)
  {
    var stack', path' := Advance(stack) + [Frame(next, 0)], path + [next];
    forall i, j | 0 <= i < |stack'| && 0 <= j < stack'[i].next
      ensures adj[path'[i]][j] in done || (i < |stack'| - 1 && j == stack'[i].next - 1)
    {
      assert j < stack[i].next || (i == |stack| - 1 && j == stack[i].next);
    }
  }

  lemma PushColors(color: map<string, Color>, nodes: set<string>, path: seq<string>, done: seq<string>, next: string)
    requires ColorsAgree(color, nodes, path, done) && next in nodes && color[next] == White
    ensures ColorsAgree(color[next := Gray], nodes, path + [next], done) && next !in path
    ensures Whites(color[next := Gray]) < Whites(color)
  {
    assert next in Whites(color) && next !in Whites(color[next := Gray]);
  }

  lemma StepIntoWhite(nodes: set<string>, arcs: seq<Arc>, adj: map<string, seq<string>>,
                      color: map<string, Color>, stack: seq<Frame>, path: seq<string>, done: seq<string>, next: string)
    requires Searching(nodes, arcs, adj, color, stack, path, done) && |stack| > 0
    requires stack[|stack| - 1].next < |adj[path[|path| - 1]]|
    requires next == adj[path[|path| - 1]][stack[|stack| - 1].next]
    requires next in nodes && color[next] == White
    ensures Searching(nodes, arcs, adj, color[next := Gray], Advance(stack) + [Frame(next, 0)], path + [next], done)
    ensures Whites(color[next := Gray]) < Whites(color)
  {
    PushColors(color, nodes, path, done, next);
    PushShape(stack, path, adj, next);
    PushPassed(stack, path, adj, done, next);
  }

  /** A node whose successors are all finished may finish next. */
  lemma ExtendFinishingOrder(done: seq<string>, arcs: seq<Arc>, node: string)
    requires Distinct(done) && IsFinishingOrder(done, arcs) && node !in done
    requires forall v :: (node, v) in arcs ==> v in done
    ensures Distinct(done + [node]) && IsFinishingOrder(done + [node], arcs)
  {
    var done' := done + [node];
    forall k, v | 0 <= k < |done'| && (done'[k], v) in arcs ensures v in done'[..k] {
      assert done'[..k] == done[..k];
      assert done[..|done|] == done;
    }
  }

  /** Blackening the last node of the path. */
  lemma FinishColors(color: map<string, Color>, nodes: set<string>, path: seq<string>, done: seq<string>)
    requires ColorsAgree(color, nodes, path, done) && Distinct(path) && |path| > 0
    ensures var node := path[|path| - 1];
            && node !in done
            && ColorsAgree(color[node := Black], nodes, path[..|path| - 1], done + [node])
            && Whites(color[node := Black]) == Whites(color)
  {
    var node := path[|path| - 1];
    assert path == path[..|path| - 1] + [node];
    assert color[node] == Gray;
  }

  /** Popping the top frame: the frame below has passed a neighbour that is now finished. */
  lemma PopPassed(stack: seq<Frame>, path: seq<string>, adj: map<string, seq<string>>, done: seq<string>)
    requires StackShape(stack, path, adj) && |stack| > 0
    requires PassedAreDone(stack, path, adj, done)
    ensures var top := |stack| - 1;
            && StackShape(stack[..top], path[..top], adj)
            && PassedAreDone(stack[..top], path[..top], adj, done + [path[top]])
  {
    var top := |stack| - 1;
    forall i, j | 0 <= i < top && 0 <= j < stack[i].next
      ensures adj[path[i]][j] in done + [path[top]] || (i < top - 1 && j == stack[i].next - 1)
    {
      assert adj[path[i]][j] in done || (i < |stack| - 1 && j == stack[i].next - 1);
    }
  }

  /** Leaving a node all of whose neighbours are finished: it extends the finishing order. */
  lemma StepOut(nodes: set<string>, arcs: seq<Arc>, adj: map<string, seq<string>>,
                color: map<string, Color>, stack: seq<Frame>, path: seq<string>, done: seq<string>)
    requires Searching(nodes, arcs, adj, color, stack, path, done) && |stack| > 0
    requires stack[|stack| - 1].next == |adj[path[|path| - 1]]|
    ensures var top, node := |stack| - 1, stack[|stack| - 1].node;
            && Searching(nodes, arcs, adj, color[node := Black], stack[..top], path[..top], done + [node])
            && Whites(color[node := Black]) == Whites(color)
  {
    var top, node := |stack| - 1, stack[|stack| - 1].node;
    FinishColors(color, nodes, path, done);
    assert forall v :: (node, v) in arcs ==> v in done by {
      forall v | (node, v) in arcs ensures v in done {
        assert v in adj[node];
      }
    }
    ExtendFinishingOrder(done, arcs, node);
    PopPassed(stack, path, adj, done);
  }

  /** Adjacency lists with an entry for every node and one successor per arc, in arc order. */
  method BuildAdjacency(nodes: set<string>, arcs: seq<Arc>) returns (adj: map<string, seq<string>>)
    requires ArcsOver(arcs, nodes)
    ensures IsAdjacency(adj, nodes, arcs)
  {
    adj := map n | n in nodes :: [];
    for i := 0 to |arcs|
      invariant IsAdjacency(adj, nodes, arcs[..i])
    {
      var (from, to) := arcs[i];
      assert arcs[i] in arcs;
      assert arcs[..i + 1] == arcs[..i] + [arcs[i]];
      adj := adj[from := adj[from] + [to]];
    }
    assert arcs[..|arcs|] == arcs;
  }

  /** The first position of `n` in `path`. */
  method Position(path: seq<string>, n: string) returns (at: nat)
    requires n in path
    ensures at < |path| && path[at] == n && n !in path[..at]
  {
    at := 0;
    while path[at] != n
      invariant at < |path| && n !in path[..at]
      decreases |path| - at
    {
      at := at + 1;
      assert n !in path[..at];
      assert path == path[..at] + path[at..];
    }
  }

  /**
   * Iterative three-colour search with an explicit stack. The order in which start nodes are
   * taken is left open (`:|`), so the result holds for every iteration order of the node table.
   */
  method FindCycle(nodes: set<string>, arcs: seq<Arc>) returns (cycle: Option<seq<string>>)
    requires ArcsOver(arcs, nodes)
    ensures cycle.None? <==> Acyclic(arcs)
    ensures cycle.Some? ==> IsSimpleCycle(cycle.value, arcs)
  {
    var adj := BuildAdjacency(nodes, arcs);
    var color: map<string, Color> := map n | n in nodes :: White;
    var starts := nodes;
    ghost var done: seq<string> := [];
    while starts != {}
      invariant starts <= nodes
      invariant ColorsAgree(color, nodes, [], done)
      invariant forall n :: n in nodes && n !in starts ==> color[n] == Black
      invariant Distinct(done) && IsFinishingOrder(done, arcs)
      decreases starts
    {
      var start :| start in starts;
      starts := starts - {start};
      if color[start] == White {
        cycle, color, done := Explore(nodes, arcs, adj, color, start, done);
        if cycle.Some? {
          return;
        }
      }
    }
    FinishingOrderIsAcyclic(done, nodes, arcs);
    cycle := None;
  }

  /** The search from one white start node: either a cycle, or everything reached is finished. */
  method Explore(nodes: set<string>, ghost arcs: seq<Arc>, adj: map<string, seq<string>>,
                 color0: map<string, Color>, start: string, ghost done0: seq<string>)
    returns (cycle: Option<seq<string>>, color: map<string, Color>, ghost done: seq<string>)
    requires ArcsOver(arcs, nodes) && IsAdjacency(adj, nodes, arcs)
    requires start in nodes && start in color0 && color0[start] == White
    requires ColorsAgree(color0, nodes, [], done0)
    requires Distinct(done0) && IsFinishingOrder(done0, arcs)
    ensures cycle.Some? ==> IsSimpleCycle(cycle.value, arcs)
    ensures cycle.None? ==>
      && ColorsAgree(color, nodes, [], done)
      && Distinct(done) && IsFinishingOrder(done, arcs)
      && color[start] == Black
      && (forall n :: n in nodes && color0[n] == Black ==> color[n] == Black)
  {
    done := done0;
    var stack := [Frame(start, 0)];
    var path := [start];
    color := color0[start := Gray];
    while |stack| > 0
      invariant Searching(nodes, arcs, adj, color, stack, path, done)
      invariant color[start] != White
      invariant forall n :: n in nodes && color0[n] == Black ==> color[n] == Black
      decreases Whites(color), |stack|, Unseen(stack, adj)
    {
      var top := |stack| - 1;
      var Frame(node, idx) := stack[top];
      var neighbors := adj[node];
      if idx < |neighbors| {
        var next := neighbors[idx];
        assert (node, next) in arcs;
        match color[next] {
          case White =>
            StepIntoWhite(nodes, arcs, adj, color, stack, path, done, next);
            color := color[next := Gray];
            stack := Advance(stack) + [Frame(next, 0)];
            path := path + [next];
          case Gray =>
            var at := Position(path, next);
            BackArcClosesCycle(stack, path, adj, nodes, arcs, at);
            return Some(path[at..] + [next]), color, done;
          case Black =>
            StepOverBlack(nodes, arcs, adj, color, stack, path, done, next);
            stack := Advance(stack);
        }
      } else {
        StepOut(nodes, arcs, adj, color, stack, path, done);
        color := color[node := Black];
        done := done + [node];
        stack, path := stack[..top], path[..top];
      }
    }
    cycle := None;
  }
}
