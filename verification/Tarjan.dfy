/**
 Tarjan's strongly connected components, as the iterative search of src/solver.rs runs it.

 `State` collects the variables of the search. The vertices of the work stack (`path`) cut the vertex stack
 into segments: segment `i` starts at `path[i]` and holds the finished descendants of that vertex that could
 not be closed yet. The search changes its state by five moves (open a root, descend, cross, merge, close);
 what each move keeps is stated per segment, one lemma per part of the invariant.

 The order in which the search discovers the vertices is the depth-first preorder of the graph, and a component
 lists its vertices last discovered first. The component loop visits them in that order, which decides its result.
 */
module Tarjan {
  import opened Graphs
  import Ranges

  const UNSET: int := -1

  // `done[v]` counts the successors of `v` already handled; a stacked `v` is at position `pos[v]` of the stack,
  // in segment `seg[v]`.
  datatype State = State(
    index: seq<int>,
    lowlink: seq<int>,
    onStack: seq<bool>,
    stack: seq<nat>,
    compOf: seq<int>,
    comps: seq<seq<nat>>,
    counter: int,
    path: seq<nat>,
    done: seq<nat>,
    pos: seq<int>,
    seg: seq<int>)

  // ----- what the search keeps -----

  ghost predicate Shape(g: Graph, s: State) {
    && |s.index| == |s.lowlink| == |s.onStack| == |s.compOf| == |s.done| == |s.pos| == |s.seg| == |g|
    && s.counter >= 0
    && (forall v :: 0 <= v < |g| ==> UNSET <= s.index[v] < s.counter)
    && (forall v :: 0 <= v < |g| ==> s.done[v] <= |g[v]|)
    && (forall v :: 0 <= v < |g| && s.index[v] == UNSET ==> s.done[v] == 0)
  }

  ghost predicate Stacked(g: Graph, s: State)
    requires Shape(g, s)
  {
    && (forall i :: 0 <= i < |s.stack| ==> s.stack[i] < |g| && s.onStack[s.stack[i]] && s.pos[s.stack[i]] == i)
    && (forall v :: 0 <= v < |g| && s.onStack[v] ==> 0 <= s.pos[v] < |s.stack| && s.stack[s.pos[v]] == v)
    && (forall v :: 0 <= v < |g| && s.onStack[v] ==> s.index[v] != UNSET && s.compOf[v] == UNSET)
    && (forall v :: 0 <= v < |g| && s.index[v] == UNSET ==> s.compOf[v] == UNSET)
    && (forall v :: 0 <= v < |g| && s.index[v] != UNSET && !s.onStack[v] ==> s.compOf[v] != UNSET)
  }

  // Segment order, index order and stack order agree on path vertex `i` and vertex `y`.
  ghost predicate Ordered(s: State, i: nat, y: nat)
    requires i < |s.path| && s.path[i] < |s.index| == |s.pos| == |s.seg| && y < |s.index|
  {
    && (i <= s.seg[y] <==> s.index[s.path[i]] <= s.index[y])
    && (i <= s.seg[y] <==> s.pos[s.path[i]] <= s.pos[y])
  }

  ghost predicate Framed(g: Graph, s: State)
    requires Shape(g, s)
  {
    && (forall i :: 0 <= i < |s.path| ==> s.path[i] < |g| && s.onStack[s.path[i]] && s.seg[s.path[i]] == i)
    && (forall y :: 0 <= y < |g| && s.onStack[y] ==> 0 <= s.seg[y] < |s.path|)
    && (forall i, y {:trigger Ordered(s, i, y)} :: 0 <= i < |s.path| && 0 <= y < |g| && s.onStack[y] ==>
      Ordered(s, i, y))
    && (s.path == [] ==> s.stack == [])
    && (s.path != [] ==> s.pos[s.path[0]] == 0)
  }

  // A tree edge leads to path vertex `i`.
  ghost predicate Link(g: Graph, s: State, i: int)
    requires 0 < i < |s.path|
  {
    Edge(g, s.path[i - 1], s.path[i])
  }

  ghost predicate Linked(g: Graph, s: State) {
    forall i {:trigger Link(g, s, i)} :: 0 < i < |s.path| ==> Link(g, s, i)
  }

  // A stacked vertex off the path has all its edges handled.
  ghost predicate Settled(g: Graph, s: State, y: nat)
    requires Shape(g, s) && y < |g|
  {
    0 <= s.seg[y] < |s.path| && s.path[s.seg[y]] != y ==> s.done[y] == |g[y]|
  }

  // Every handled edge leads to a visited vertex, and among stacked vertices only the path has unhandled edges.
  ghost predicate Explored(g: Graph, s: State)
    requires Shape(g, s) && WellFormed(g)
  {
    && (forall y, k :: 0 <= y < |g| && 0 <= k < s.done[y] ==> s.index[g[y][k]] != UNSET)
    && (forall y {:trigger Settled(g, s, y)} :: 0 <= y < |g| && s.onStack[y] ==> Settled(g, s, y))
  }

  // The lowlink of the path vertex owning `y`'s segment is at most the index of what `y`'s `k`-th edge hits.
  ghost predicate LowBound(g: Graph, s: State, y: nat, k: nat)
    requires WellFormed(g) && Shape(g, s) && y < |g| && k < |g[y]|
  {
    s.onStack[g[y][k]] && 0 <= s.seg[y] < |s.path| && s.path[s.seg[y]] < |g| ==>
      s.lowlink[s.path[s.seg[y]]] <= s.index[g[y][k]]
  }

  ghost predicate LowBounds(g: Graph, s: State)
    requires Shape(g, s) && WellFormed(g)
  {
    forall y, k {:trigger LowBound(g, s, y, k)} :: 0 <= y < |g| && s.onStack[y] && 0 <= k < s.done[y] ==>
      LowBound(g, s, y, k)
  }

  ghost predicate LowTarget(g: Graph, s: State, v: nat, x: nat)
    requires Shape(g, s) && v < |g|
  {
    x < |g| && s.onStack[x] && s.index[x] == s.lowlink[v] && Reach(g, v, x)
  }

  // A path vertex's lowlink is the index of a stacked vertex it reaches, no later than itself.
  ghost predicate LowReached(g: Graph, s: State, v: nat)
    requires Shape(g, s) && v < |g|
  {
    s.lowlink[v] <= s.index[v] && exists x :: LowTarget(g, s, v, x)
  }

  ghost predicate LowsReached(g: Graph, s: State)
    requires Shape(g, s) && Framed(g, s)
  {
    forall i :: 0 <= i < |s.path| ==> LowReached(g, s, s.path[i])
  }

  // Path vertex `i` reaches `y` if `y` is stacked from it on; everything in its segment reaches it.
  ghost predicate Above(g: Graph, s: State, i: nat, y: nat)
    requires i < |s.path| && y < |s.seg|
  {
    i <= s.seg[y] ==> Reach(g, s.path[i], y)
  }

  ghost predicate Returns(g: Graph, s: State, y: nat)
    requires y < |s.seg|
  {
    0 <= s.seg[y] < |s.path| ==> Reach(g, y, s.path[s.seg[y]])
  }

  ghost predicate Connected(g: Graph, s: State)
    requires Shape(g, s)
  {
    && (forall i, y {:trigger Above(g, s, i, y)} :: 0 <= i < |s.path| && 0 <= y < |g| && s.onStack[y] ==>
      Above(g, s, i, y))
    && (forall y {:trigger Returns(g, s, y)} :: 0 <= y < |g| && s.onStack[y] ==> Returns(g, s, y))
  }

  // The emitted components: no edge leaves them upwards, and each is mutually reachable.
  ghost predicate Emitted(g: Graph, s: State)
    requires Shape(g, s) && WellFormed(g)
  {
    && (forall v, k :: 0 <= v < |g| && s.compOf[v] != UNSET && 0 <= k < |g[v]| ==>
          0 <= s.compOf[g[v][k]] <= s.compOf[v])
    && (forall u, v :: 0 <= u < |g| && 0 <= v < |g| && s.compOf[u] == s.compOf[v] != UNSET ==> Reach(g, u, v))
  }

  // `comps` lists exactly the vertices `compOf` assigns to each component, each once.
  ghost predicate Partitioned(n: nat, compOf: seq<int>, comps: seq<seq<nat>>) {
    && |compOf| == n
    && (forall v :: 0 <= v < n ==> UNSET <= compOf[v] < |comps|)
    && (forall c, i :: 0 <= c < |comps| && 0 <= i < |comps[c]| ==> comps[c][i] < n && compOf[comps[c][i]] == c)
    && (forall v :: 0 <= v < n && compOf[v] != UNSET ==> v in comps[compOf[v]])
    && (forall c, i, j :: 0 <= c < |comps| && 0 <= i < j < |comps[c]| ==> comps[c][i] != comps[c][j])
    && (forall c :: 0 <= c < |comps| ==> comps[c] != [])
  }

  ghost predicate Inv(g: Graph, s: State) {
    && WellFormed(g)
    && Shape(g, s)
    && Stacked(g, s)
    && Framed(g, s)
    && Linked(g, s)
    && Explored(g, s)
    && LowBounds(g, s)
    && LowsReached(g, s)
    && Connected(g, s)
    && Emitted(g, s)
    && Partitioned(|g|, s.compOf, s.comps)
  }

  function Top(s: State): nat requires s.path != [] { s.path[|s.path| - 1] }

  // ----- opening a vertex -----

  // Number, stack and open vertex `w`.
  function Open(s: State, w: nat): State
    requires w < |s.index| == |s.lowlink| == |s.onStack| == |s.pos| == |s.seg|
  {
    s.(index := s.index[w := s.counter],
       lowlink := s.lowlink[w := s.counter],
       counter := s.counter + 1,
       stack := s.stack + [w],
       onStack := s.onStack[w := true],
       path := s.path + [w],
       pos := s.pos[w := |s.stack|],
       seg := s.seg[w := |s.path|])
  }

  lemma OpenRootKeepsStack(g: Graph, s: State, w: nat)
    requires Shape(g, s) && Stacked(g, s) && s.stack == s.path == [] && w < |g| && s.index[w] == UNSET
    ensures Shape(g, Open(s, w)) && Stacked(g, Open(s, w))
    ensures forall v :: 0 <= v < |g| && Open(s, w).onStack[v] ==> v == w
  {
    var t := Open(s, w);
    assert t.stack == [w];
  }

  lemma OpenRootKeepsFrames(g: Graph, s: State, w: nat)
    requires Shape(g, s) && Stacked(g, s) && Framed(g, s) && s.path == [] && w < |g| && s.index[w] == UNSET
    ensures Shape(g, Open(s, w)) && Stacked(g, Open(s, w)) && Framed(g, Open(s, w))
  {
    OpenRootKeepsStack(g, s, w);
    var t := Open(s, w);
    assert t.path == [w] && t.pos[w] == 0 && t.seg[w] == 0;
    forall i, y | 0 <= i < |t.path| && 0 <= y < |g| && t.onStack[y] ensures Ordered(t, i, y) {
      assert i == 0 && y == w;
    }
  }

  lemma OpenRootKeepsInv(g: Graph, s: State, w: nat)
    requires Inv(g, s) && s.path == [] && w < |g| && s.index[w] == UNSET
    ensures Inv(g, Open(s, w))
  {
    var t := Open(s, w);
    OpenRootKeepsFrames(g, s, w);
    assert t.path == [w] && forall v :: 0 <= v < |g| && t.onStack[v] ==> v == w by {
      forall v | 0 <= v < |g| ensures !s.onStack[v] {}
    }
    ReachSelf(g, w);
    assert LowTarget(g, t, w, w);
  }

  // The next successor `w` of the top vertex is handled by the coming move.
  ghost predicate NextIs(g: Graph, s: State, w: nat)
    requires Shape(g, s)
  {
    && s.path != [] && Top(s) < |g| && s.done[Top(s)] < |g[Top(s)]|
    && w == g[Top(s)][s.done[Top(s)]] && w < |g|
  }

  function Advance(s: State): State
    requires s.path != [] && Top(s) < |s.done|
  {
    s.(done := s.done[Top(s) := s.done[Top(s)] + 1])
  }

  function Descend(s: State, w: nat): State
    requires s.path != [] && Top(s) < |s.done| && w < |s.index| == |s.lowlink| == |s.onStack| == |s.pos| == |s.seg|
  {
    Open(Advance(s), w)
  }

  lemma DescendKeepsStack(g: Graph, s: State, w: nat)
    requires Shape(g, s) && Stacked(g, s) && NextIs(g, s, w) && s.index[w] == UNSET && s.onStack[Top(s)]
    ensures Shape(g, Descend(s, w)) && Stacked(g, Descend(s, w))
  {
  }

  lemma DescendKeepsFrames(g: Graph, s: State, w: nat)
    requires Shape(g, s) && Stacked(g, s) && Framed(g, s) && NextIs(g, s, w) && s.index[w] == UNSET
    requires Shape(g, Descend(s, w))
    ensures Framed(g, Descend(s, w))
  {
    var t := Descend(s, w);
    forall i, y | 0 <= i < |t.path| && 0 <= y < |g| && t.onStack[y] ensures Ordered(t, i, y) {
      if i < |s.path| && y != w {
        assert Ordered(s, i, y);
      }
    }
  }

  lemma DescendKeepsEdges(g: Graph, s: State, w: nat)
    requires WellFormed(g) && Shape(g, s) && Framed(g, s) && NextIs(g, s, w) && s.index[w] == UNSET
    requires Linked(g, s) && Explored(g, s)
    requires Shape(g, Descend(s, w)) && Framed(g, Descend(s, w))
    ensures Linked(g, Descend(s, w)) && Explored(g, Descend(s, w))
  {
    var t := Descend(s, w);
    assert t.path == s.path + [w];
    forall i | 0 < i < |t.path| ensures Link(g, t, i) {
      if i < |s.path| { assert Link(g, s, i); }
    }
    forall y | 0 <= y < |g| && t.onStack[y] ensures Settled(g, t, y) {
      if y != w { assert Settled(g, s, y); }
    }
  }

  lemma DescendKeepsLowBounds(g: Graph, s: State, w: nat)
    requires WellFormed(g) && Shape(g, s) && Framed(g, s) && NextIs(g, s, w) && s.index[w] == UNSET
    requires Explored(g, s) && LowBounds(g, s) && LowReached(g, s, Top(s))
    requires Shape(g, Descend(s, w)) && Framed(g, Descend(s, w))
    ensures LowBounds(g, Descend(s, w))
  {
    var t := Descend(s, w);
    forall y, k | 0 <= y < |g| && t.onStack[y] && 0 <= k < t.done[y] ensures LowBound(g, t, y, k) {
      if k < s.done[y] && y != w { assert LowBound(g, s, y, k); }
    }
  }

  lemma DescendKeepsLows(g: Graph, s: State, w: nat)
    requires Shape(g, s) && Framed(g, s) && NextIs(g, s, w) && s.index[w] == UNSET
    requires LowsReached(g, s) && !s.onStack[w]
    requires Shape(g, Descend(s, w)) && Framed(g, Descend(s, w))
    ensures LowsReached(g, Descend(s, w))
  {
    var t := Descend(s, w);
    ReachSelf(g, w);
    assert LowTarget(g, t, w, w);
    forall i | 0 <= i < |s.path| ensures LowReached(g, t, s.path[i]) {
      assert LowReached(g, s, s.path[i]);
      var x: nat :| LowTarget(g, s, s.path[i], x);
      assert LowTarget(g, t, s.path[i], x);
    }
  }

  lemma DescendKeepsReach(g: Graph, s: State, w: nat)
    requires Shape(g, s) && Framed(g, s) && NextIs(g, s, w) && s.index[w] == UNSET
    requires Connected(g, s) && !s.onStack[w]
    requires Shape(g, Descend(s, w)) && Framed(g, Descend(s, w))
    ensures Connected(g, Descend(s, w))
  {
    var t, v := Descend(s, w), Top(s);
    ReachSelf(g, w);
    ReachEdge(g, v, w);
    forall i, y | 0 <= i < |t.path| && 0 <= y < |g| && t.onStack[y] ensures Above(g, t, i, y) {
      if i < |s.path| {
        assert Above(g, s, i, if y == w then v else y);
        if y == w { ReachTransitive(g, s.path[i], v, w); }
      }
    }
    forall y | 0 <= y < |g| && t.onStack[y] ensures Returns(g, t, y) {
      if y != w { assert Returns(g, s, y); }
    }
  }

  lemma DescendKeepsInv(g: Graph, s: State, w: nat)
    requires Inv(g, s) && NextIs(g, s, w) && s.index[w] == UNSET
    ensures Inv(g, Descend(s, w))
  {
    DescendKeepsStack(g, s, w);
    DescendKeepsFrames(g, s, w);
    DescendKeepsEdges(g, s, w);
    assert LowReached(g, s, s.path[|s.path| - 1]);
    DescendKeepsLowBounds(g, s, w);
    DescendKeepsLows(g, s, w);
    DescendKeepsReach(g, s, w);
  }

  // ----- crossing to a visited vertex -----

  function Cross(s: State, w: nat): State
    requires s.path != [] && Top(s) < |s.done| && w < |s.index| == |s.lowlink| == |s.onStack| == |s.done|
  {
    var v := Top(s);
    Advance(s).(lowlink := if s.onStack[w] then s.lowlink[v := Ranges.Min(s.lowlink[v], s.index[w])] else s.lowlink)
  }

  lemma CrossKeepsFrames(g: Graph, s: State, w: nat)
    requires WellFormed(g) && Shape(g, s) && Stacked(g, s) && Framed(g, s) && Explored(g, s)
    requires NextIs(g, s, w) && s.index[w] != UNSET
    ensures Shape(g, Cross(s, w)) && Stacked(g, Cross(s, w)) && Framed(g, Cross(s, w)) && Explored(g, Cross(s, w))
  {
    var t := Cross(s, w);
    forall i, y | 0 <= i < |t.path| && 0 <= y < |g| && t.onStack[y] ensures Ordered(t, i, y) {
      assert Ordered(s, i, y);
    }
    forall y | 0 <= y < |g| && t.onStack[y] ensures Settled(g, t, y) {
      assert Settled(g, s, y);
    }
  }

  lemma CrossKeepsReach(g: Graph, s: State, w: nat)
    requires Shape(g, s) && Connected(g, s) && NextIs(g, s, w) && s.index[w] != UNSET && Shape(g, Cross(s, w))
    ensures Connected(g, Cross(s, w))
  {
    var t := Cross(s, w);
    forall i, y | 0 <= i < |t.path| && 0 <= y < |g| && t.onStack[y] ensures Above(g, t, i, y) {
      assert Above(g, s, i, y);
    }
    forall y | 0 <= y < |g| && t.onStack[y] ensures Returns(g, t, y) {
      assert Returns(g, s, y);
    }
  }

  lemma CrossKeepsLowBounds(g: Graph, s: State, w: nat)
    requires WellFormed(g) && Shape(g, s) && Framed(g, s) && LowBounds(g, s)
    requires NextIs(g, s, w) && s.index[w] != UNSET
    requires Shape(g, Cross(s, w)) && Framed(g, Cross(s, w))
    ensures LowBounds(g, Cross(s, w))
  {
    var t := Cross(s, w);
    forall y, k | 0 <= y < |g| && t.onStack[y] && 0 <= k < t.done[y] ensures LowBound(g, t, y, k) {
      if k < s.done[y] { assert LowBound(g, s, y, k); }
    }
  }

  lemma CrossKeepsLows(g: Graph, s: State, w: nat)
    requires Shape(g, s) && Framed(g, s) && LowsReached(g, s)
    requires NextIs(g, s, w) && s.index[w] != UNSET
    requires Shape(g, Cross(s, w)) && Framed(g, Cross(s, w))
    ensures LowsReached(g, Cross(s, w))
  {
    var t, v := Cross(s, w), Top(s);
    ReachEdge(g, v, w);
    forall i | 0 <= i < |s.path| ensures LowReached(g, t, s.path[i]) {
      assert LowReached(g, s, s.path[i]);
      var x: nat :| LowTarget(g, s, s.path[i], x);
      if s.path[i] == v && s.onStack[w] && s.index[w] < s.lowlink[v] {
        assert LowTarget(g, t, s.path[i], w);
      } else {
        assert LowTarget(g, t, s.path[i], x);
      }
    }
  }

  lemma CrossKeepsInv(g: Graph, s: State, w: nat)
    requires Inv(g, s) && NextIs(g, s, w) && s.index[w] != UNSET
    ensures Inv(g, Cross(s, w))
  {
    CrossKeepsFrames(g, s, w);
    CrossKeepsReach(g, s, w);
    forall i | 0 < i < |s.path| ensures Link(g, Cross(s, w), i) {
      assert Link(g, s, i);
    }
    CrossKeepsLowBounds(g, s, w);
    CrossKeepsLows(g, s, w);
  }

  // ----- leaving a vertex whose component is not complete -----

  ghost predicate Exhausted(g: Graph, s: State)
    requires Shape(g, s)
  {
    s.path != [] && Top(s) < |g| && s.done[Top(s)] == |g[Top(s)]|
  }

  // The finished top vertex reaches an earlier stacked vertex: its segment joins its parent's.
  function Merge(s: State): State
    requires |s.path| >= 2 && Top(s) < |s.lowlink| && s.path[|s.path| - 2] < |s.lowlink|
  {
    var m, v, p := |s.path|, Top(s), s.path[|s.path| - 2];
    s.(path := s.path[..m - 1],
       lowlink := s.lowlink[p := Ranges.Min(s.lowlink[p], s.lowlink[v])],
       seg := seq(|s.seg|, y requires 0 <= y < |s.seg| => if s.seg[y] == m - 1 then m - 2 else s.seg[y]))
  }

  lemma RootClosesItself(g: Graph, s: State)
    requires Shape(g, s) && Framed(g, s) && |s.path| == 1 && LowReached(g, s, Top(s))
    ensures s.lowlink[Top(s)] == s.index[Top(s)]
  {
    var x: nat :| LowTarget(g, s, Top(s), x);
    assert Ordered(s, 0, x) && 0 <= s.seg[x];
  }

  lemma MergeReturns(g: Graph, s: State)
    requires Shape(g, s) && Framed(g, s) && Connected(g, s) && |s.path| >= 2 && LowReached(g, s, Top(s))
    requires s.lowlink[Top(s)] < s.index[Top(s)]
    ensures Reach(g, Top(s), s.path[|s.path| - 2])
  {
    var m, v := |s.path|, Top(s);
    var p := s.path[m - 2];
    var x: nat :| LowTarget(g, s, v, x);
    assert Ordered(s, m - 1, x);
    var q := s.path[s.seg[x]];
    assert Returns(g, s, x) && Above(g, s, s.seg[x], p);
    ReachTransitive(g, v, x, q);
    ReachTransitive(g, v, q, p);
  }

  lemma SameComponents(g: Graph, s: State, t: State)
    requires WellFormed(g) && Shape(g, s) && Shape(g, t) && Emitted(g, s) && t.compOf == s.compOf
    ensures Emitted(g, t)
  {
  }

  lemma MergeKeepsFrames(g: Graph, s: State)
    requires Shape(g, s) && Stacked(g, s) && Framed(g, s) && |s.path| >= 2
    ensures Shape(g, Merge(s)) && Stacked(g, Merge(s)) && Framed(g, Merge(s))
  {
    var t := Merge(s);
    forall i, y | 0 <= i < |t.path| && 0 <= y < |g| && t.onStack[y] ensures Ordered(t, i, y) {
      assert Ordered(s, i, y);
    }
  }

  lemma MergeKeepsEdges(g: Graph, s: State)
    requires WellFormed(g) && Shape(g, s) && Framed(g, s) && |s.path| >= 2 && Exhausted(g, s)
    requires Linked(g, s) && Explored(g, s) && Shape(g, Merge(s)) && Framed(g, Merge(s))
    ensures Linked(g, Merge(s)) && Explored(g, Merge(s))
  {
    var t := Merge(s);
    assert s.path == t.path + [Top(s)];
    forall i | 0 < i < |t.path| ensures Link(g, t, i) {
      assert Link(g, s, i);
    }
    forall y | 0 <= y < |g| && t.onStack[y] ensures Settled(g, t, y) {
      assert Settled(g, s, y);
    }
  }

  lemma MergeKeepsLowBounds(g: Graph, s: State)
    requires WellFormed(g) && Shape(g, s) && Framed(g, s) && LowBounds(g, s) && |s.path| >= 2
    requires Shape(g, Merge(s)) && Framed(g, Merge(s))
    ensures LowBounds(g, Merge(s))
  {
    var t := Merge(s);
    forall y, k | 0 <= y < |g| && t.onStack[y] && 0 <= k < t.done[y] ensures LowBound(g, t, y, k) {
      assert LowBound(g, s, y, k);
    }
  }

  lemma MergeKeepsLows(g: Graph, s: State)
    requires Shape(g, s) && Framed(g, s) && LowsReached(g, s) && |s.path| >= 2
    requires Edge(g, s.path[|s.path| - 2], Top(s))
    requires Shape(g, Merge(s)) && Framed(g, Merge(s))
    ensures LowsReached(g, Merge(s))
  {
    var t, m, v := Merge(s), |s.path|, Top(s);
    var p := s.path[m - 2];
    ReachEdge(g, p, v);
    forall i | 0 <= i < m - 1 ensures LowReached(g, t, s.path[i]) {
      assert LowReached(g, s, s.path[i]);
      var x: nat :| LowTarget(g, s, s.path[i], x);
      if i == m - 2 && s.lowlink[v] < s.lowlink[p] {
        assert LowReached(g, s, s.path[m - 1]);
        var z: nat :| LowTarget(g, s, v, z);
        ReachTransitive(g, p, v, z);
        assert LowTarget(g, t, p, z);
      } else {
        assert LowTarget(g, t, s.path[i], x);
      }
    }
  }

  lemma MergeKeepsReach(g: Graph, s: State)
    requires Shape(g, s) && Framed(g, s) && Connected(g, s) && |s.path| >= 2
    requires Reach(g, Top(s), s.path[|s.path| - 2])
    requires Shape(g, Merge(s)) && Framed(g, Merge(s))
    ensures Connected(g, Merge(s))
  {
    var t, m, v := Merge(s), |s.path|, Top(s);
    forall i, y | 0 <= i < |t.path| && 0 <= y < |g| && t.onStack[y] ensures Above(g, t, i, y) {
      assert Above(g, s, i, y);
    }
    forall y | 0 <= y < |g| && t.onStack[y] ensures Returns(g, t, y) {
      assert Returns(g, s, y);
      if s.seg[y] == m - 1 {
        ReachTransitive(g, y, v, s.path[m - 2]);
      }
    }
  }

  lemma MergeConnects(g: Graph, s: State)
    requires Inv(g, s) && Exhausted(g, s) && |s.path| >= 2 && s.lowlink[Top(s)] < s.index[Top(s)]
    ensures Edge(g, s.path[|s.path| - 2], Top(s)) && Reach(g, Top(s), s.path[|s.path| - 2])
  {
    assert Link(g, s, |s.path| - 1);
    assert LowReached(g, s, s.path[|s.path| - 1]);
    MergeReturns(g, s);
  }

  lemma MergeKeepsSegments(g: Graph, s: State)
    requires Inv(g, s) && Exhausted(g, s) && |s.path| >= 2 && s.lowlink[Top(s)] < s.index[Top(s)]
    requires Shape(g, Merge(s)) && Framed(g, Merge(s))
    ensures LowBounds(g, Merge(s)) && LowsReached(g, Merge(s)) && Connected(g, Merge(s))
  {
    MergeConnects(g, s);
    MergeKeepsLowBounds(g, s);
    MergeKeepsLows(g, s);
    MergeKeepsReach(g, s);
  }

  lemma MergeKeepsInv(g: Graph, s: State)
    requires Inv(g, s) && Exhausted(g, s) && |s.path| >= 2 && s.lowlink[Top(s)] < s.index[Top(s)]
    ensures Inv(g, Merge(s))
  {
    MergeKeepsFrames(g, s);
    MergeKeepsEdges(g, s);
    MergeKeepsSegments(g, s);
    var t := Merge(s);
    assert t.compOf == s.compOf && t.comps == s.comps;
    SameComponents(g, s, t);
  }

  // ----- closing a component -----

  function Reversed(xs: seq<nat>): (r: seq<nat>)
    ensures |r| == |xs|
    ensures forall i :: 0 <= i < |xs| ==> r[i] == xs[|xs| - 1 - i]
  {
    seq(|xs|, i requires 0 <= i < |xs| => xs[|xs| - 1 - i])
  }

  // The finished top vertex reaches nothing earlier: everything from stack position `at` on is its component.
  function Close(s: State, at: nat): State
    requires s.path != [] && at <= |s.stack| && |s.onStack| == |s.compOf| == |s.pos|
  {
    s.(path := s.path[..|s.path| - 1],
       stack := s.stack[..at],
       onStack := seq(|s.onStack|, x requires 0 <= x < |s.onStack| => s.onStack[x] && s.pos[x] < at),
       compOf := seq(|s.compOf|, x requires 0 <= x < |s.compOf| =>
         if s.onStack[x] && s.pos[x] >= at then |s.comps| else s.compOf[x]),
       comps := s.comps + [Reversed(s.stack[at..])])
  }

  ghost predicate CanClose(g: Graph, s: State)
    requires Shape(g, s)
  {
    Exhausted(g, s) && 0 <= s.pos[Top(s)] <= |s.stack| && s.lowlink[Top(s)] == s.index[Top(s)]
  }

  function Closing(s: State): State
    requires s.path != [] && Top(s) < |s.pos| && 0 <= s.pos[Top(s)] <= |s.stack| && |s.onStack| == |s.compOf| == |s.pos|
  {
    Close(s, s.pos[Top(s)])
  }

  // The vertices popped are exactly those of the top segment.
  lemma PoppedIsTopSegment(g: Graph, s: State)
    requires Shape(g, s) && Framed(g, s) && CanClose(g, s)
    ensures forall y :: 0 <= y < |g| && s.onStack[y] ==> (s.pos[Top(s)] <= s.pos[y] <==> s.seg[y] == |s.path| - 1)
  {
    forall y | 0 <= y < |g| && s.onStack[y] ensures s.pos[Top(s)] <= s.pos[y] <==> s.seg[y] == |s.path| - 1 {
      assert Ordered(s, |s.path| - 1, y);
    }
  }

  lemma ClosingKeepsStack(g: Graph, s: State)
    requires Shape(g, s) && Stacked(g, s) && CanClose(g, s)
    ensures Shape(g, Closing(s)) && Stacked(g, Closing(s))
  {
  }

  lemma ClosingKeepsFrames(g: Graph, s: State)
    requires Shape(g, s) && Stacked(g, s) && Framed(g, s) && CanClose(g, s) && Shape(g, Closing(s))
    ensures Framed(g, Closing(s))
  {
    PoppedIsTopSegment(g, s);
    var t := Closing(s);
    forall i, y | 0 <= i < |t.path| && 0 <= y < |g| && t.onStack[y] ensures Ordered(t, i, y) {
      assert Ordered(s, i, y);
    }
  }

  // Every edge out of the closing segment stays in it or enters an emitted component.
  lemma SegmentIsClosed(g: Graph, s: State, y: nat, k: nat)
    requires WellFormed(g) && Shape(g, s) && Stacked(g, s) && Framed(g, s) && Explored(g, s) && LowBounds(g, s)
    requires CanClose(g, s)
    requires y < |g| && s.onStack[y] && s.seg[y] == |s.path| - 1 && k < |g[y]|
    ensures (s.onStack[g[y][k]] && s.seg[g[y][k]] == |s.path| - 1) || s.compOf[g[y][k]] != UNSET
  {
    var m, z := |s.path|, g[y][k];
    assert Settled(g, s, y) && s.done[y] == |g[y]|;
    assert s.index[z] != UNSET;
    if s.onStack[z] {
      assert LowBound(g, s, y, k);
      assert Ordered(s, m - 1, z);
    }
  }

  lemma ClosingKeepsDownward(g: Graph, s: State)
    requires WellFormed(g) && Shape(g, s) && Stacked(g, s) && Framed(g, s) && Explored(g, s) && LowBounds(g, s)
    requires CanClose(g, s) && Emitted(g, s) && Partitioned(|g|, s.compOf, s.comps)
    ensures var t := Closing(s);
            forall v, k :: 0 <= v < |g| && t.compOf[v] != UNSET && 0 <= k < |g[v]| ==>
              0 <= t.compOf[g[v][k]] <= t.compOf[v]
  {
    var t := Closing(s);
    PoppedIsTopSegment(g, s);
    forall y, k | 0 <= y < |g| && t.compOf[y] != UNSET && 0 <= k < |g[y]|
      ensures 0 <= t.compOf[g[y][k]] <= t.compOf[y]
    {
      if s.onStack[y] {
        SegmentIsClosed(g, s, y, k);
      } else {
        assert s.compOf[g[y][k]] != UNSET;
      }
    }
  }

  lemma ClosingKeepsStrong(g: Graph, s: State)
    requires WellFormed(g) && Shape(g, s) && Stacked(g, s) && Framed(g, s) && Connected(g, s)
    requires CanClose(g, s) && Emitted(g, s) && Partitioned(|g|, s.compOf, s.comps)
    ensures var t := Closing(s);
            forall u, v :: 0 <= u < |g| && 0 <= v < |g| && t.compOf[u] == t.compOf[v] != UNSET ==> Reach(g, u, v)
  {
    var t, m, v := Closing(s), |s.path|, Top(s);
    PoppedIsTopSegment(g, s);
    forall x, y | 0 <= x < |g| && 0 <= y < |g| && t.compOf[x] == t.compOf[y] != UNSET
      ensures Reach(g, x, y)
    {
      if s.onStack[x] {
        assert s.onStack[y];
        assert Returns(g, s, x) && Above(g, s, m - 1, y);
        ReachTransitive(g, x, v, y);
      } else {
        assert s.compOf[x] == s.compOf[y];
      }
    }
  }

  lemma ClosingKeepsPartition(g: Graph, s: State)
    requires Shape(g, s) && Stacked(g, s) && Partitioned(|g|, s.compOf, s.comps)
    requires CanClose(g, s) && s.onStack[Top(s)]
    ensures Partitioned(|g|, Closing(s).compOf, Closing(s).comps)
  {
    var t, at := Closing(s), s.pos[Top(s)];
    var popped := s.stack[at..];
    var last := Reversed(popped);
    assert forall i :: 0 <= i < |last| ==> last[i] == s.stack[|s.stack| - 1 - i];
    forall i, j | 0 <= i < j < |last| ensures last[i] != last[j] {
      assert s.pos[last[i]] != s.pos[last[j]];
    }
    forall y | 0 <= y < |g| && s.onStack[y] && s.pos[y] >= at ensures y in last {
      assert last[|s.stack| - 1 - s.pos[y]] == y;
    }
    forall c, i | 0 <= c < |s.comps| && 0 <= i < |s.comps[c]| ensures t.compOf[s.comps[c][i]] == c {
      assert s.compOf[s.comps[c][i]] != UNSET;
    }
  }

  lemma ClosingKeepsEdges(g: Graph, s: State)
    requires WellFormed(g) && Shape(g, s) && Framed(g, s) && Linked(g, s) && Explored(g, s) && LowBounds(g, s)
    requires CanClose(g, s) && Shape(g, Closing(s)) && Framed(g, Closing(s))
    ensures Linked(g, Closing(s)) && Explored(g, Closing(s)) && LowBounds(g, Closing(s))
  {
    PoppedIsTopSegment(g, s);
    var t := Closing(s);
    forall i | 0 < i < |t.path| ensures Link(g, t, i) {
      assert Link(g, s, i);
    }
    forall y | 0 <= y < |g| && t.onStack[y] ensures Settled(g, t, y) {
      assert Settled(g, s, y);
    }
    forall y, k | 0 <= y < |g| && t.onStack[y] && 0 <= k < t.done[y] ensures LowBound(g, t, y, k) {
      assert LowBound(g, s, y, k);
    }
  }

  lemma ClosingKeepsLows(g: Graph, s: State)
    requires Shape(g, s) && Framed(g, s) && LowsReached(g, s)
    requires CanClose(g, s) && Shape(g, Closing(s)) && Framed(g, Closing(s))
    ensures LowsReached(g, Closing(s))
  {
    var t, m := Closing(s), |s.path|;
    forall i | 0 <= i < m - 1 ensures LowReached(g, t, s.path[i]) {
      assert LowReached(g, s, s.path[i]);
      var x: nat :| LowTarget(g, s, s.path[i], x);
      assert Ordered(s, m - 1, s.path[i]) && Ordered(s, m - 1, x);
      assert LowTarget(g, t, s.path[i], x);
    }
  }

  lemma ClosingKeepsReach(g: Graph, s: State)
    requires Shape(g, s) && Framed(g, s) && Connected(g, s)
    requires CanClose(g, s) && Shape(g, Closing(s)) && Framed(g, Closing(s))
    ensures Connected(g, Closing(s))
  {
    var t := Closing(s);
    forall i, y | 0 <= i < |t.path| && 0 <= y < |g| && t.onStack[y] ensures Above(g, t, i, y) {
      assert Above(g, s, i, y);
    }
    forall y | 0 <= y < |g| && t.onStack[y] ensures Returns(g, t, y) {
      assert Returns(g, s, y);
    }
  }

  lemma ClosingKeepsInv(g: Graph, s: State)
    requires Inv(g, s) && CanClose(g, s)
    ensures Inv(g, Closing(s))
  {
    ClosingKeepsStack(g, s);
    ClosingKeepsFrames(g, s);
    ClosingKeepsDownward(g, s);
    ClosingKeepsStrong(g, s);
    ClosingKeepsPartition(g, s);
    ClosingKeepsEdges(g, s);
    ClosingKeepsLows(g, s);
    ClosingKeepsReach(g, s);
  }

  // ----- the order of discovery -----

  // `x` was numbered before `w`.
  predicate Before(index: seq<int>, x: nat, w: nat)
    requires x < |index| && w < |index|
  {
    UNSET < index[x] < index[w]
  }

  // Every successor of `x` was numbered before `w`.
  ghost predicate Spent(g: Graph, index: seq<int>, x: nat, w: nat)
    requires WellFormed(g) && |index| == |g| && x < |g| && w < |g|
  {
    forall k :: 0 <= k < |g[x]| ==> Before(index, g[x][k], w)
  }

  // `w` was met as the `k`-th successor of `u`, the first one open, with everything numbered since `u` spent.
  ghost predicate MetFrom(g: Graph, index: seq<int>, u: nat, k: nat, w: nat)
    requires WellFormed(g) && |index| == |g| && w < |g|
  {
    && u < |g| && k < |g[u]| && g[u][k] == w && Before(index, u, w)
    && (forall j :: 0 <= j < k ==> Before(index, g[u][j], w))
    && (forall x :: 0 <= x < |g| && Before(index, u, x) && Before(index, x, w) ==> Spent(g, index, x, w))
  }

  // `w` was started from afresh: lower vertices had all been numbered, and everything numbered was spent.
  ghost predicate MetAsRoot(g: Graph, index: seq<int>, w: nat)
    requires WellFormed(g) && |index| == |g| && w < |g|
  {
    && (forall x :: 0 <= x < w ==> Before(index, x, w))
    && (forall x :: 0 <= x < |g| && Before(index, x, w) ==> Spent(g, index, x, w))
  }

  ghost predicate Met(g: Graph, index: seq<int>, w: nat)
    requires WellFormed(g) && |index| == |g| && w < |g|
  {
    MetAsRoot(g, index, w) || exists u, k :: MetFrom(g, index, u, k, w)
  }

  // The numbered vertices bear distinct numbers, each met in depth-first order.
  ghost predicate MetInOrder(g: Graph, index: seq<int>)
    requires WellFormed(g) && |index| == |g|
  {
    && (forall x, y :: 0 <= x < |g| && 0 <= y < |g| && index[x] == index[y] != UNSET ==> x == y)
    && (forall w :: 0 <= w < |g| && index[w] != UNSET ==> Met(g, index, w))
  }

  // The depth-first preorder of the whole graph, roots tried in ascending order and successors in list order.
  ghost predicate Preorder(g: Graph, index: seq<int>) {
    WellFormed(g) && |index| == |g| && (forall v :: 0 <= v < |g| ==> UNSET < index[v]) && MetInOrder(g, index)
  }

  // Later discovered first.
  ghost predicate FallsIn(index: seq<int>, comp: seq<nat>) {
    && (forall i :: 0 <= i < |comp| ==> comp[i] < |index|)
    && (forall i, j :: 0 <= i < j < |comp| ==> index[comp[i]] > index[comp[j]])
  }

  ghost predicate Falling(index: seq<int>, comps: seq<seq<nat>>) {
    forall c :: 0 <= c < |comps| ==> FallsIn(index, comps[c])
  }

  // What the search keeps about the numbers it gives: stacked vertices rise, emitted ones fall.
  ghost predicate Numbered(g: Graph, s: State) {
    && WellFormed(g) && Shape(g, s) && MetInOrder(g, s.index)
    && (forall i :: 0 <= i < |s.stack| ==> s.stack[i] < |g|)
    && (forall i, j :: 0 <= i < j < |s.stack| ==> s.index[s.stack[i]] < s.index[s.stack[j]])
    && Falling(s.index, s.comps)
  }

  // A new last number leaves every earlier one met as it was.
  lemma StaysMet(g: Graph, index: seq<int>, w: nat, last: int, v: nat)
    requires WellFormed(g) && |index| == |g| && w < |g| && v < |g| && index[w] == UNSET && index[v] != UNSET
    requires last >= 0 && forall x :: 0 <= x < |g| ==> UNSET <= index[x] < last
    requires Met(g, index, v)
    ensures Met(g, index[w := last], v)
  {
    var next := index[w := last];
    assert forall x :: 0 <= x < |g| ==> (Before(next, x, v) <==> Before(index, x, v));
    forall x | 0 <= x < |g| && Spent(g, index, x, v) ensures Spent(g, next, x, v) {}
    if MetAsRoot(g, index, v) {
      assert MetAsRoot(g, next, v);
    } else {
      var u, k :| MetFrom(g, index, u, k, v);
      forall x | 0 <= x < |g| && Before(next, u, x) && Before(next, x, v) ensures Spent(g, next, x, v) {
        assert x != w && Before(index, u, x) && Before(index, x, v);
      }
      assert MetFrom(g, next, u, k, v);
    }
  }

  lemma OpenKeepsFalling(g: Graph, s: State, t: State, w: nat)
    requires Shape(g, s) && Stacked(g, s) && Partitioned(|g|, s.compOf, s.comps) && Falling(s.index, s.comps)
    requires w < |g| && s.index[w] == UNSET && t.index == s.index[w := s.counter] && t.comps == s.comps
    ensures Falling(t.index, t.comps)
  {
    forall c | 0 <= c < |t.comps| ensures FallsIn(t.index, t.comps[c]) {
      assert FallsIn(s.index, s.comps[c]);
      forall i | 0 <= i < |t.comps[c]| ensures t.comps[c][i] != w {
        assert s.compOf[s.comps[c][i]] == c;
      }
    }
  }

  lemma OpenKeepsNumbers(g: Graph, s: State, t: State, w: nat)
    requires Inv(g, s) && Numbered(g, s) && Shape(g, t) && w < |g| && s.index[w] == UNSET
    requires t.index == s.index[w := s.counter] && t.stack == s.stack + [w] && t.comps == s.comps
    requires Met(g, t.index, w)
    ensures Numbered(g, t)
  {
    forall v | 0 <= v < |g| && t.index[v] != UNSET ensures Met(g, t.index, v) {
      if v != w { StaysMet(g, s.index, w, s.counter, v); }
    }
    OpenKeepsFalling(g, s, t, w);
    assert forall i :: 0 <= i < |s.stack| ==> s.onStack[s.stack[i]] && s.stack[i] != w;
  }

  // Whatever has left the stack is spent.
  lemma EmittedIsSpent(g: Graph, s: State, t: State, w: nat, x: nat)
    requires Inv(g, s) && w < |g| && s.index[w] == UNSET && |t.index| == |g| && t.index == s.index[w := s.counter]
    requires x < |g| && s.index[x] != UNSET && !s.onStack[x]
    ensures Spent(g, t.index, x, w)
  {
    forall k | 0 <= k < |g[x]| ensures Before(t.index, g[x][k], w) {
      assert s.compOf[g[x][k]] != UNSET;
    }
  }

  lemma OpenRootKeepsNumbers(g: Graph, s: State, w: nat)
    requires Inv(g, s) && Numbered(g, s) && s.path == [] && w < |g| && s.index[w] == UNSET
    requires forall x :: 0 <= x < w ==> s.index[x] != UNSET
    ensures Shape(g, Open(s, w)) && Numbered(g, Open(s, w))
  {
    OpenRootKeepsInv(g, s, w);
    var t := Open(s, w);
    forall x | 0 <= x < |g| && Before(t.index, x, w) ensures Spent(g, t.index, x, w) {
      assert !s.onStack[x];
      EmittedIsSpent(g, s, t, w, x);
    }
    assert MetAsRoot(g, t.index, w);
    OpenKeepsNumbers(g, s, t, w);
  }

  // What was discovered after the top vertex has been left already.
  lemma LeftIsSpent(g: Graph, s: State, t: State, w: nat, x: nat)
    requires Inv(g, s) && s.path != [] && x < |g| && s.onStack[x] && s.index[Top(s)] < s.index[x]
    requires w < |g| && s.index[w] == UNSET && |t.index| == |g| && t.index == s.index[w := s.counter]
    ensures Spent(g, t.index, x, w)
  {
    var m := |s.path|;
    assert Ordered(s, m - 1, x) && Settled(g, s, x);
    assert s.done[x] == |g[x]|;
    forall k | 0 <= k < |g[x]| ensures Before(t.index, g[x][k], w) {
      assert s.index[g[x][k]] != UNSET;
    }
  }

  lemma DescendMeets(g: Graph, s: State, w: nat)
    requires Inv(g, s) && NextIs(g, s, w) && s.index[w] == UNSET
    ensures Met(g, Descend(s, w).index, w)
  {
    var t, u := Descend(s, w), Top(s);
    assert s.onStack[u];
    forall x | 0 <= x < |g| && Before(t.index, u, x) && Before(t.index, x, w) ensures Spent(g, t.index, x, w) {
      if s.onStack[x] { LeftIsSpent(g, s, t, w, x); } else { EmittedIsSpent(g, s, t, w, x); }
    }
    assert MetFrom(g, t.index, u, s.done[u], w);
  }

  lemma DescendKeepsNumbers(g: Graph, s: State, w: nat)
    requires Inv(g, s) && Numbered(g, s) && NextIs(g, s, w) && s.index[w] == UNSET && Shape(g, Descend(s, w))
    ensures Numbered(g, Descend(s, w))
  {
    DescendMeets(g, s, w);
    OpenKeepsNumbers(g, s, Descend(s, w), w);
  }

  // ----- the search over arrays -----

  datatype Frame = Frame(v: nat, next: nat)

  ghost function Initial(n: nat): State {
    State(seq(n, _ => UNSET), seq(n, _ => 0), seq(n, _ => false), [], seq(n, _ => UNSET), [], 0, [],
          seq(n, _ => 0), seq(n, _ => 0), seq(n, _ => 0))
  }

  lemma InitialInv(g: Graph)
    requires WellFormed(g)
    ensures Inv(g, Initial(|g|)) && Numbered(g, Initial(|g|))
  {
  }

  // Edges not handled yet; every edge the search looks at lowers it.
  ghost function Pending(g: Graph, done: seq<nat>): nat
    requires |done| == |g| && forall v :: 0 <= v < |g| ==> done[v] <= |g[v]|
  {
    if g == [] then 0 else |g[0]| - done[0] + Pending(g[1..], done[1..])
  }

  lemma {:induction false} PendingDrops(g: Graph, done: seq<nat>, v: nat)
    requires |done| == |g| && v < |g| && done[v] < |g[v]| && forall v :: 0 <= v < |g| ==> done[v] <= |g[v]|
    ensures Pending(g, done[v := done[v] + 1]) == Pending(g, done) - 1
  {
    if v == 0 {
      assert done[v := done[v] + 1][1..] == done[1..];
    } else {
      assert done[v := done[v] + 1][1..] == done[1..][v - 1 := done[v] + 1];
      PendingDrops(g[1..], done[1..], v - 1);
    }
  }

  // The work stack mirrors the path: each frame holds its vertex and how many successors it has handled.
  ghost predicate Mirrors(work: seq<Frame>, s: State) {
    && |work| == |s.path|
    && forall i :: 0 <= i < |work| ==> s.path[i] < |s.done| && work[i] == Frame(s.path[i], s.done[s.path[i]])
  }

  lemma AdvanceMirrors(g: Graph, s: State, work: seq<Frame>)
    requires Shape(g, s) && Framed(g, s) && Mirrors(work, s) && s.path != []
    ensures var m := |work|; Mirrors(work[m - 1 := Frame(work[m - 1].v, work[m - 1].next + 1)], Advance(s))
  {
    forall i | 0 <= i < |work| - 1 ensures s.path[i] != Top(s) {
      assert s.seg[s.path[i]] == i;
    }
  }

  // The result of the search: a partition into strongly connected components, emitted against the edges.
  ghost predicate Condensation(g: Graph, compOf: seq<int>, comps: seq<seq<nat>>) {
    && Partitioned(|g|, compOf, comps)
    && (forall v :: 0 <= v < |g| ==> 0 <= compOf[v] < |comps|)
    && (forall u, v :: 0 <= u < |g| && 0 <= v < |g| ==> (compOf[u] == compOf[v] <==> Reach(g, u, v) && Reach(g, v, u)))
    && (forall u, k :: 0 <= u < |g| && 0 <= k < |g[u]| ==> 0 <= g[u][k] < |g| && compOf[g[u][k]] <= compOf[u])
  }

  lemma InvGivesCondensation(g: Graph, s: State)
    requires Inv(g, s) && s.path == [] && forall v :: 0 <= v < |g| ==> s.index[v] != UNSET
    ensures Condensation(g, s.compOf, s.comps)
  {
    forall v | 0 <= v < |g| ensures s.compOf[v] != UNSET {
      assert !s.onStack[v];
    }
    forall u, v | 0 <= u < |g| && 0 <= v < |g|
      ensures s.compOf[u] == s.compOf[v] <==> Reach(g, u, v) && Reach(g, v, u)
    {
      if Reach(g, u, v) && Reach(g, v, u) {
        ReachDescends(g, s.compOf, u, v);
        ReachDescends(g, s.compOf, v, u);
      }
    }
  }

  method OpenVertex(w: nat, counter: int, index: array<int>, lowlink: array<int>, onStack: array<bool>)
    requires w < index.Length == lowlink.Length == onStack.Length && index != lowlink
    modifies index, lowlink, onStack
    ensures index[..] == old(index[..])[w := counter]
    ensures lowlink[..] == old(lowlink[..])[w := counter]
    ensures onStack[..] == old(onStack[..])[w := true]
  {
    index[w] := counter;
    lowlink[w] := counter;
    onStack[w] := true;
  }

  // Pop the stack down to and including `v`, giving every popped vertex the component number `id`.
  method PopComponent(v: nat, stack: seq<nat>, id: int, onStack: array<bool>, compOf: array<int>, ghost at: nat)
    returns (rest: seq<nat>, comp: seq<nat>)
    requires onStack.Length == compOf.Length && forall i :: 0 <= i < |stack| ==> stack[i] < onStack.Length
    requires at < |stack| && stack[at] == v && forall i :: at < i < |stack| ==> stack[i] != v
    modifies onStack, compOf
    ensures rest == stack[..at] && comp == Reversed(stack[at..])
    ensures forall x :: 0 <= x < onStack.Length ==>
              onStack[x] == (old(onStack[x]) && x !in stack[at..])
                && compOf[x] == if x in stack[at..] then id else old(compOf[x])
  {
    rest, comp := stack, [];
    var done := false;
    while !done
      invariant at <= |rest| <= |stack| && rest == stack[..|rest|] && (done <==> |rest| == at)
      invariant comp == Reversed(stack[|rest|..])
      invariant forall x :: 0 <= x < onStack.Length ==>
                  && onStack[x] == (old(onStack[x]) && x !in stack[|rest|..])
                  && compOf[x] == if x in stack[|rest|..] then id else old(compOf[x])
      decreases |rest|
    {
      var w := rest[|rest| - 1];
      assert stack[|rest| - 1..] == [w] + stack[|rest|..];
      rest := rest[..|rest| - 1];
      onStack[w] := false;
      compOf[w] := id;
      comp := comp + [w];
      done := w == v;
    }
  }

  lemma PoppedByPosition(g: Graph, s: State, at: nat, x: nat)
    requires Shape(g, s) && Stacked(g, s) && at <= |s.stack| && x < |g|
    ensures x in s.stack[at..] <==> s.onStack[x] && s.pos[x] >= at
  {
    if s.onStack[x] && s.pos[x] >= at {
      assert s.stack[at..][s.pos[x] - at] == x;
    }
    if x in s.stack[at..] {
      var i :| 0 <= i < |s.stack| - at && s.stack[at..][i] == x;
      assert s.stack[at + i] == x;
    }
  }

  // The arrays and lists of the search hold exactly the fields of `s`.
  ghost predicate Holds(s: State, index: array<int>, lowlink: array<int>, onStack: array<bool>, compOf: array<int>,
                        stack: seq<nat>, comps: seq<seq<nat>>)
    reads index, lowlink, onStack, compOf
  {
    && index != lowlink && index != compOf && lowlink != compOf
    && index[..] == s.index && lowlink[..] == s.lowlink && onStack[..] == s.onStack && compOf[..] == s.compOf
    && stack == s.stack && comps == s.comps
  }

  // Pop the component of the top vertex off the stack.
  method CloseTop(g: Graph, ghost s: State, stack: seq<nat>, comps: seq<seq<nat>>, v: nat,
                  index: array<int>, lowlink: array<int>, onStack: array<bool>, compOf: array<int>)
    returns (stack': seq<nat>, comps': seq<seq<nat>>)
    requires Shape(g, s) && Stacked(g, s) && CanClose(g, s) && s.onStack[Top(s)] && v == Top(s)
    requires Holds(s, index, lowlink, onStack, compOf, stack, comps)
    modifies onStack, compOf
    ensures Holds(Closing(s), index, lowlink, onStack, compOf, stack', comps')
  {
    ghost var at: nat := s.pos[v];
    assert s.stack[at] == v;
    assert forall i :: at < i < |stack| ==> s.pos[stack[i]] == i;
    var comp;
    stack', comp := PopComponent(v, stack, |comps|, onStack, compOf, at);
    comps' := comps + [comp];
    forall x: nat | x < |g| ensures x in stack[at..] <==> s.onStack[x] && s.pos[x] >= at {
      PoppedByPosition(g, s, at, x);
    }
    assert onStack[..] == Closing(s).onStack && compOf[..] == Closing(s).compOf;
  }

  // Handing a closed vertex's lowlink upwards changes nothing.
  lemma ParentLowIsSmall(g: Graph, s: State)
    requires Inv(g, s) && |s.path| >= 2
    ensures s.lowlink[s.path[|s.path| - 2]] < s.index[Top(s)]
    ensures s.path[|s.path| - 2] != Top(s)
  {
    var m := |s.path|;
    assert LowReached(g, s, s.path[m - 2]);
    assert s.seg[s.path[m - 2]] == m - 2 && s.seg[s.path[m - 1]] == m - 1;
    assert Ordered(s, m - 1, s.path[m - 2]);
  }

  // The state after a completed vertex has been left.
  ghost function Left(s: State): State
    requires s.path != [] && Top(s) < |s.lowlink| == |s.index| == |s.onStack| == |s.compOf| == |s.pos|
    requires 0 <= s.pos[Top(s)] <= |s.stack|
    requires s.lowlink[Top(s)] != s.index[Top(s)] ==> |s.path| >= 2 && s.path[|s.path| - 2] < |s.lowlink|
  {
    if s.lowlink[Top(s)] == s.index[Top(s)] then Closing(s) else Merge(s)
  }

  lemma LeftKeepsInv(g: Graph, s: State)
    requires Inv(g, s) && Exhausted(g, s)
    ensures s.onStack[Top(s)] && 0 <= s.pos[Top(s)] < |s.stack|
    ensures s.lowlink[Top(s)] != s.index[Top(s)] ==> |s.path| >= 2 && s.path[|s.path| - 2] < |s.lowlink|
    ensures Inv(g, Left(s))
  {
    assert s.onStack[Top(s)];
    assert LowReached(g, s, s.path[|s.path| - 1]);
    if s.lowlink[Top(s)] == s.index[Top(s)] {
      ClosingKeepsInv(g, s);
    } else {
      if |s.path| == 1 { RootClosesItself(g, s); }
      MergeKeepsInv(g, s);
    }
  }

  lemma LeaveKeepsNumbers(g: Graph, s: State)
    requires Inv(g, s) && Numbered(g, s) && Exhausted(g, s) && Shape(g, Left(s))
    requires 0 <= s.pos[Top(s)] < |s.stack|
    requires s.lowlink[Top(s)] != s.index[Top(s)] ==> |s.path| >= 2 && s.path[|s.path| - 2] < |s.lowlink|
    ensures Numbered(g, Left(s))
  {
    var t := Left(s);
    forall c | 0 <= c < |t.comps| ensures FallsIn(t.index, t.comps[c]) {
      if c < |s.comps| {
        assert t.comps[c] == s.comps[c] && FallsIn(s.index, s.comps[c]);
      } else {
        ReversedFalls(s.index, s.stack, s.pos[Top(s)]);
      }
    }
  }

  // What is popped off a rising stack falls.
  lemma ReversedFalls(index: seq<int>, stack: seq<nat>, at: nat)
    requires at <= |stack| && forall i :: 0 <= i < |stack| ==> stack[i] < |index|
    requires forall i, j :: 0 <= i < j < |stack| ==> index[stack[i]] < index[stack[j]]
    ensures FallsIn(index, Reversed(stack[at..]))
  {
  }

  // Leave a completed vertex: close its component, then hand its lowlink to its parent.
  method Leave(g: Graph, ghost s: State, work: seq<Frame>, stack: seq<nat>, comps: seq<seq<nat>>,
               index: array<int>, lowlink: array<int>, onStack: array<bool>, compOf: array<int>)
    returns (work': seq<Frame>, stack': seq<nat>, comps': seq<seq<nat>>)
    requires Shape(g, s) && Stacked(g, s) && Exhausted(g, s) && Mirrors(work, s)
    requires s.onStack[Top(s)]
    requires |s.path| >= 2 ==> var p := s.path[|s.path| - 2];
               p < |g| && p != Top(s) && s.lowlink[p] < s.index[Top(s)]
    requires s.lowlink[Top(s)] != s.index[Top(s)] ==> |s.path| >= 2
    requires Holds(s, index, lowlink, onStack, compOf, stack, comps)
    modifies lowlink, onStack, compOf
    ensures |work'| == |work| - 1 && work' == work[..|work| - 1]
    ensures Holds(Left(s), index, lowlink, onStack, compOf, stack', comps')
  {
    var m := |work|;
    var v := work[m - 1].v;
    stack', comps' := stack, comps;
    assert v == Top(s);
    if lowlink[v] == index[v] {
      stack', comps' := CloseTop(g, s, stack, comps, v, index, lowlink, onStack, compOf);
    }
    work' := work[..m - 1];
    if work' != [] {
      var p := work'[m - 2].v;
      lowlink[p] := Ranges.Min(lowlink[p], lowlink[v]);
      assert lowlink[..] == Left(s).lowlink;
    }
  }

  // Look at the next edge of the top vertex: open its target, or note a target that is still stacked.
  method LookAt(g: Graph, ghost s: State, work: seq<Frame>, stack: seq<nat>, counter: int, ghost comps: seq<seq<nat>>,
                index: array<int>, lowlink: array<int>, onStack: array<bool>, ghost compOf: array<int>)
    returns (work': seq<Frame>, stack': seq<nat>, counter': int, ghost s': State)
    requires Shape(g, s) && Mirrors(work, s) && work != [] && Top(s) < |g| && s.done[Top(s)] < |g[Top(s)]|
    requires counter == s.counter && Holds(s, index, lowlink, onStack, compOf, stack, comps)
    requires NextIs(g, s, g[Top(s)][s.done[Top(s)]])
    requires s.index[Top(s)] != UNSET && Mirrors(work[|work| - 1 := Frame(Top(s), s.done[Top(s)] + 1)], Advance(s))
    modifies index, lowlink, onStack
    ensures var w := g[Top(s)][s.done[Top(s)]]; s' == if s.index[w] == UNSET then Descend(s, w) else Cross(s, w)
    ensures counter' == s'.counter && Mirrors(work', s') && Holds(s', index, lowlink, onStack, compOf, stack', comps)
  {
    var v, ci := work[|work| - 1].v, work[|work| - 1].next;
    work', stack', counter' := work[|work| - 1 := Frame(v, ci + 1)], stack, counter;
    var w := g[v][ci];
    assert index[w] == s.index[w];
    if index[w] == UNSET {
      DescendMirrors(g, s, work', w);
      s' := Descend(s, w);
      OpenVertex(w, counter, index, lowlink, onStack);
      counter' := counter + 1;
      stack' := stack + [w];
      work' := work' + [Frame(w, 0)];
    } else {
      s' := Cross(s, w);
      if onStack[w] {
        lowlink[v] := Ranges.Min(lowlink[v], index[w]);
      }
      assert lowlink[..] == s'.lowlink;
    }
  }

  lemma DescendMirrors(g: Graph, s: State, work: seq<Frame>, w: nat)
    requires Shape(g, s) && NextIs(g, s, w) && s.index[w] == UNSET && w != Top(s) && Mirrors(work, Advance(s))
    ensures Mirrors(work + [Frame(w, 0)], Descend(s, w))
  {
  }

  ghost predicate HasEdge(g: Graph, s: State, work: seq<Frame>)
    requires Inv(g, s) && Mirrors(work, s) && work != []
  {
    work[|work| - 1].next < |g[s.path[|work| - 1]]|
  }

  ghost function Looked(g: Graph, s: State): State
    requires Shape(g, s) && s.path != [] && Top(s) < |g| && s.done[Top(s)] < |g[Top(s)]|
             && g[Top(s)][s.done[Top(s)]] < |g|
  {
    var w := g[Top(s)][s.done[Top(s)]];
    if s.index[w] == UNSET then Descend(s, w) else Cross(s, w)
  }

  lemma NextEdge(g: Graph, s: State, work: seq<Frame>)
    requires Inv(g, s) && Mirrors(work, s) && work != [] && HasEdge(g, s, work)
    ensures var v := Top(s); v < |g| && s.done[v] < |g[v]| && s.index[v] != UNSET && NextIs(g, s, g[v][s.done[v]])
    ensures Mirrors(work[|work| - 1 := Frame(Top(s), s.done[Top(s)] + 1)], Advance(s))
    ensures Pending(g, Advance(s).done) < Pending(g, s.done)
  {
    assert s.onStack[Top(s)];
    AdvanceMirrors(g, s, work);
    PendingDrops(g, s.done, Top(s));
  }

  lemma LookedKeepsInv(g: Graph, s: State, w: nat)
    requires Inv(g, s) && NextIs(g, s, w)
    ensures Inv(g, Looked(g, s)) && Looked(g, s).done == Advance(s).done && Visits(s, Looked(g, s))
  {
    if s.index[w] == UNSET { DescendKeepsInv(g, s, w); } else { CrossKeepsInv(g, s, w); }
  }

  lemma LookedKeepsNumbers(g: Graph, s: State, w: nat)
    requires Inv(g, s) && Numbered(g, s) && NextIs(g, s, w) && Shape(g, Looked(g, s))
    ensures Numbered(g, Looked(g, s))
  {
    if s.index[w] == UNSET { DescendKeepsNumbers(g, s, w); }
  }

  // One round of the search loop.
  method Step(g: Graph, ghost s: State, work: seq<Frame>, stack: seq<nat>, comps: seq<seq<nat>>, counter: int,
              index: array<int>, lowlink: array<int>, onStack: array<bool>, compOf: array<int>)
    returns (work': seq<Frame>, stack': seq<nat>, comps': seq<seq<nat>>, counter': int, ghost s': State)
    requires Inv(g, s) && Numbered(g, s) && Mirrors(work, s) && work != []
    requires counter == s.counter && Holds(s, index, lowlink, onStack, compOf, stack, comps)
    modifies index, lowlink, onStack, compOf
    ensures Inv(g, s') && Numbered(g, s') && Mirrors(work', s') && Visits(s, s')
    ensures counter' == s'.counter && Holds(s', index, lowlink, onStack, compOf, stack', comps')
    ensures Pending(g, s'.done) < Pending(g, s.done) || (s'.done == s.done && |work'| < |work|)
  {
    var v, ci := work[|work| - 1].v, work[|work| - 1].next;
    assert v == Top(s) && v < |g|;
    counter', comps' := counter, comps;
    if ci < |g[v]| {
      NextEdge(g, s, work);
      LookedKeepsInv(g, s, g[v][s.done[v]]);
      LookedKeepsNumbers(g, s, g[v][s.done[v]]);
      work', stack', counter', s' := LookAt(g, s, work, stack, counter, comps, index, lowlink, onStack, compOf);
    } else {
      LeaveTop(g, s, work);
      LeaveKeepsNumbers(g, s);
      LeftMirrors(s, work);
      s' := Left(s);
      work', stack', comps' := Leave(g, s, work, stack, comps, index, lowlink, onStack, compOf);
    }
  }

  lemma LeaveTop(g: Graph, s: State, work: seq<Frame>)
    requires Inv(g, s) && Mirrors(work, s) && work != [] && !HasEdge(g, s, work)
    ensures Exhausted(g, s) && s.onStack[Top(s)] && 0 <= s.pos[Top(s)] < |s.stack|
    ensures s.lowlink[Top(s)] != s.index[Top(s)] ==> |s.path| >= 2
    ensures |s.path| >= 2 ==> var p := s.path[|s.path| - 2];
              p < |g| && p != Top(s) && s.lowlink[p] < s.index[Top(s)]
    ensures Inv(g, Left(s)) && Visits(s, Left(s))
  {
    LeftKeepsInv(g, s);
    if |work| >= 2 { ParentLowIsSmall(g, s); }
  }

  lemma LeftMirrors(s: State, work: seq<Frame>)
    requires Mirrors(work, s) && work != []
    requires s.path != [] && Top(s) < |s.lowlink| == |s.index| == |s.onStack| == |s.compOf| == |s.pos|
    requires 0 <= s.pos[Top(s)] <= |s.stack|
    requires s.lowlink[Top(s)] != s.index[Top(s)] ==> |s.path| >= 2 && s.path[|s.path| - 2] < |s.lowlink|
    ensures Mirrors(work[..|work| - 1], Left(s))
  {
  }

  // Search from one unvisited root until the work stack is empty.
  method SearchFrom(g: Graph, start: nat, ghost s: State, stack: seq<nat>, comps: seq<seq<nat>>, counter: int,
                    index: array<int>, lowlink: array<int>, onStack: array<bool>, compOf: array<int>)
    returns (stack': seq<nat>, comps': seq<seq<nat>>, counter': int, ghost s': State)
    requires Inv(g, s) && Numbered(g, s) && s.path == [] && start < |g| && s.index[start] == UNSET
    requires forall x :: 0 <= x < start ==> s.index[x] != UNSET
    requires counter == s.counter && Holds(s, index, lowlink, onStack, compOf, stack, comps)
    modifies index, lowlink, onStack, compOf
    ensures Inv(g, s') && Numbered(g, s') && s'.path == []
    ensures counter' == s'.counter && Holds(s', index, lowlink, onStack, compOf, stack', comps')
    ensures Visits(s, s') && s'.index[start] != UNSET
  {
    var work := [Frame(start, 0)];
    OpenRootKeepsInv(g, s, start);
    OpenRootKeepsNumbers(g, s, start);
    s' := Open(s, start);
    comps' := comps;
    OpenVertex(start, counter, index, lowlink, onStack);
    counter' := counter + 1;
    stack' := stack + [start];
    while work != []
      invariant Inv(g, s') && Numbered(g, s') && Mirrors(work, s')
      invariant counter' == s'.counter && Holds(s', index, lowlink, onStack, compOf, stack', comps')
      invariant Visits(s, s') && s'.index[start] != UNSET
      decreases Pending(g, s'.done), |work|
    {
      work, stack', comps', counter', s' :=
        Step(g, s', work, stack', comps', counter', index, lowlink, onStack, compOf);
    }
  }

  // What was visited stays visited.
  ghost predicate Visits(s: State, t: State) {
    |s.index| == |t.index| && forall v :: 0 <= v < |s.index| && s.index[v] != UNSET ==> t.index[v] != UNSET
  }

  // Search from every vertex that no earlier search has visited.
  method SearchAll(g: Graph, ghost s: State, counter: int,
                   index: array<int>, lowlink: array<int>, onStack: array<bool>, compOf: array<int>)
    returns (stack: seq<nat>, comps: seq<seq<nat>>, counter': int, ghost s': State)
    requires Inv(g, s) && Numbered(g, s) && s.path == []
    requires counter == s.counter && Holds(s, index, lowlink, onStack, compOf, [], [])
    modifies index, lowlink, onStack, compOf
    ensures Inv(g, s') && Numbered(g, s') && s'.path == []
    ensures counter' == s'.counter && Holds(s', index, lowlink, onStack, compOf, stack, comps)
    ensures forall v :: 0 <= v < |g| ==> s'.index[v] != UNSET
  {
    stack, comps, counter', s' := [], [], counter, s;
    for start := 0 to |g|
      invariant Inv(g, s') && Numbered(g, s') && s'.path == []
      invariant counter' == s'.counter && Holds(s', index, lowlink, onStack, compOf, stack, comps)
      invariant forall v :: 0 <= v < start ==> s'.index[v] != UNSET
    {
      if index[start] == UNSET {
        stack, comps, counter', s' := SearchFrom(g, start, s', stack, comps, counter', index, lowlink, onStack, compOf);
      }
    }
  }

  /** Tarjan's search: the condensation of any graph, each component listed against the depth-first preorder. */
  method TarjanScc(g: Graph) returns (compOf: array<int>, comps: seq<seq<nat>>, ghost order: seq<int>)
    requires WellFormed(g)
    ensures fresh(compOf)
    ensures Condensation(g, compOf[..], comps)
    ensures Preorder(g, order) && Falling(order, comps)
  {
    var n := |g|;
    var index := new int[n](_ => UNSET);
    var lowlink := new int[n](_ => 0);
    var onStack := new bool[n](_ => false);
    var stack: seq<nat> := [];
    compOf := new int[n](_ => UNSET);
    comps := [];
    var counter := 0;
    ghost var s := Initial(n);
    InitialInv(g);
    assert Holds(s, index, lowlink, onStack, compOf, stack, comps);
    stack, comps, counter, s := SearchAll(g, s, counter, index, lowlink, onStack, compOf);
    InvGivesCondensation(g, s);
    order := s.index;
  }
}
