/**
 Kahn's ordering of the component graph, as `topo_order` of src/solver.rs builds it: collect the edges
 between different components once each, then repeatedly take a component no unprocessed component flows into.
 */
module Kahn {
  import opened Graphs
  import Tarjan

  type Edges = set<(nat, nat)>

  // Some edge of `g` leads from component `c` into the different component `d`.
  ghost predicate Crosses(g: Graph, compOf: seq<int>, c: nat, d: nat)
    requires WellFormed(g) && |compOf| == |g|
  {
    c != d && exists u, k :: 0 <= u < |g| && 0 <= k < |g[u]| && compOf[u] == c && compOf[g[u][k]] == d
  }

  // The components with an edge into `d`, not counting those in `gone`.
  ghost function Preds(edges: Edges, m: nat, d: nat, gone: set<nat>): set<nat> {
    set c: nat | c < m && (c, d) in edges && c !in gone
  }

  // `dag` lists the edges by source, each once.
  ghost predicate Lists(dag: seq<seq<nat>>, edges: Edges) {
    && (forall c, d :: (c, d) in edges ==> c < |dag| && d < |dag|)
    && (forall c: nat, d: nat :: c < |dag| ==> (d in dag[c] <==> (c, d) in edges))
    && (forall c, i, j :: 0 <= c < |dag| && 0 <= i < j < |dag[c]| ==> dag[c][i] != dag[c][j])
  }

  ghost predicate Counts(indeg: seq<int>, edges: Edges, gone: set<nat>) {
    forall d :: 0 <= d < |indeg| ==> indeg[d] == |Preds(edges, |indeg|, d, gone)|
  }

  // The cross edges among the edges of the vertices before `u`, and the first `k` of `u`.
  ghost predicate Collected(g: Graph, compOf: seq<int>, u: nat, k: nat, edges: Edges)
    requires WellFormed(g) && |compOf| == |g|
  {
    forall c: nat, d: nat :: (c, d) in edges <==>
      c != d && exists x, i ::
        0 <= x < |g| && 0 <= i < |g[x]| && Before(x, i, u, k) && compOf[x] == c && compOf[g[x][i]] == d
  }

  predicate Before(x: int, i: int, u: nat, k: nat) {
    x < u || (x == u && i < k)
  }

  lemma CollectOne(g: Graph, compOf: seq<int>, u: nat, k: nat, edges: Edges)
    requires WellFormed(g) && |compOf| == |g| && u < |g| && k < |g[u]| && 0 <= compOf[u] && 0 <= compOf[g[u][k]]
    requires Collected(g, compOf, u, k, edges)
    ensures var c, d := compOf[u], compOf[g[u][k]];
            Collected(g, compOf, u, k + 1, if c == d then edges else edges + {(c, d)})
  {
    var cu, du := compOf[u], compOf[g[u][k]];
    var edges' := if cu == du then edges else edges + {(cu, du)};
    forall c: nat, d: nat
      ensures (c, d) in edges' <==>
        c != d && exists x, i ::
          0 <= x < |g| && 0 <= i < |g[x]| && Before(x, i, u, k + 1) && compOf[x] == c && compOf[g[x][i]] == d
    {
      if c == cu && d == du && c != d {
        assert Before(u, k, u, k + 1);
      }
      if x, i :|
         0 <= x < |g| && 0 <= i < |g[x]| && Before(x, i, u, k + 1) && compOf[x] == c && compOf[g[x][i]] == d && c != d {
        assert Before(x, i, u, k) || (x == u && i == k);
      }
      if (c, d) in edges {
        var x, i :| 0 <= x < |g| && 0 <= i < |g[x]| && Before(x, i, u, k) && compOf[x] == c && compOf[g[x][i]] == d;
        assert Before(x, i, u, k + 1);
      }
    }
  }

  lemma NextVertex(g: Graph, compOf: seq<int>, u: nat, edges: Edges)
    requires WellFormed(g) && |compOf| == |g| && u < |g| && Collected(g, compOf, u, |g[u]|, edges)
    ensures Collected(g, compOf, u + 1, 0, edges)
  {
    forall x, i | 0 <= x < |g| && 0 <= i < |g[x]| ensures Before(x, i, u + 1, 0) <==> Before(x, i, u, |g[u]|) {}
    forall c: nat, d: nat
      ensures (c, d) in edges <==>
        c != d && exists x, i ::
          0 <= x < |g| && 0 <= i < |g[x]| && Before(x, i, u + 1, 0) && compOf[x] == c && compOf[g[x][i]] == d
    {
      if (c, d) in edges {
        var x, i :| 0 <= x < |g| && 0 <= i < |g[x]| && Before(x, i, u, |g[u]|) && compOf[x] == c
          && compOf[g[x][i]] == d;
        assert Before(x, i, u + 1, 0);
      }
      if x, i :|
         0 <= x < |g| && 0 <= i < |g[x]| && Before(x, i, u + 1, 0) && compOf[x] == c && compOf[g[x][i]] == d && c != d {
        assert Before(x, i, u, |g[u]|);
      }
    }
  }

  lemma AddPred(edges: Edges, m: nat, c: nat, d: nat, x: nat)
    requires c < m && (c, d) !in edges
    ensures |Preds(edges + {(c, d)}, m, x, {})| == |Preds(edges, m, x, {})| + if x == d then 1 else 0
  {
    if x == d {
      assert Preds(edges + {(c, d)}, m, d, {}) == Preds(edges, m, d, {}) + {c};
    } else {
      assert Preds(edges + {(c, d)}, m, x, {}) == Preds(edges, m, x, {});
    }
  }

  // Process the edge list: collect each edge between different components once, and count in-degrees.
  method BuildDag(g: Graph, compOf: seq<int>, m: nat)
    returns (dag: array<seq<nat>>, indeg: array<int>, ghost edges: Edges)
    requires WellFormed(g) && |compOf| == |g| && forall v :: 0 <= v < |g| ==> 0 <= compOf[v] < m
    ensures fresh(dag) && fresh(indeg) && dag.Length == indeg.Length == m
    ensures forall c: nat, d: nat :: (c, d) in edges <==> Crosses(g, compOf, c, d)
    ensures Lists(dag[..], edges) && Counts(indeg[..], edges, {})
  {
    dag := new seq<nat>[m](_ => []);
    indeg := new int[m](_ => 0);
    var seen: set<(nat, nat)> := {};
    assert Counts(indeg[..], {}, {}) by {
      forall d | 0 <= d < m ensures Preds({}, m, d, {}) == {} {}
    }
    for u := 0 to |g|
      invariant Collected(g, compOf, u, 0, seen)
      invariant Lists(dag[..], seen) && Counts(indeg[..], seen, {})
    {
      for k := 0 to |g[u]|
        invariant Collected(g, compOf, u, k, seen)
        invariant Lists(dag[..], seen) && Counts(indeg[..], seen, {})
      {
        var c: nat, d: nat := compOf[u], compOf[g[u][k]];
        CollectOne(g, compOf, u, k, seen);
        if c != d && (c, d) !in seen {
          ghost var dag0, indeg0, seen0 := dag[..], indeg[..], seen;
          seen := seen + {(c, d)};
          dag[c] := dag[c] + [d];
          indeg[d] := indeg[d] + 1;
          assert dag[..] == dag0[c := dag0[c] + [d]] && indeg[..] == indeg0[d := indeg0[d] + 1];
          ListOne(dag0, seen0, c, d);
          forall x | 0 <= x < m ensures indeg[..][x] == |Preds(seen, m, x, {})| {
            AddPred(seen0, m, c, d, x);
          }
        } else {
          assert c != d ==> seen + {(c, d)} == seen;
        }
      }
      NextVertex(g, compOf, u, seen);
    }
    edges := seen;
    AllCollected(g, compOf, edges);
  }

  lemma ListOne(dag: seq<seq<nat>>, edges: Edges, c: nat, d: nat)
    requires Lists(dag, edges) && c < |dag| && d < |dag| && (c, d) !in edges
    ensures Lists(dag[c := dag[c] + [d]], edges + {(c, d)})
  {
    assert d !in dag[c];
    var dag' := dag[c := dag[c] + [d]];
    assert forall x: nat, i :: x < |dag| && 0 <= i < |dag[x]| ==> dag'[x][i] == dag[x][i];
  }

  lemma AllCollected(g: Graph, compOf: seq<int>, edges: Edges)
    requires WellFormed(g) && |compOf| == |g| && Collected(g, compOf, |g|, 0, edges)
    ensures forall c: nat, d: nat :: (c, d) in edges <==> Crosses(g, compOf, c, d)
  {
    forall x, i | 0 <= x < |g| && 0 <= i < |g[x]| ensures Before(x, i, |g|, 0) {}
  }

  // ----- the queue -----

  ghost function Elements(s: seq<nat>): set<nat> { set x | x in s }

  ghost predicate Distinct(s: seq<nat>) {
    forall i, j :: 0 <= i < j < |s| ==> s[i] != s[j]
  }

  // Queued: everything without unprocessed predecessors, once, after all its predecessors.
  ghost predicate Queued(edges: Edges, indeg: seq<int>, queue: seq<nat>) {
    && Distinct(queue)
    && (forall i :: 0 <= i < |queue| ==> queue[i] < |indeg|)
    && (forall d :: 0 <= d < |indeg| ==> (d in queue <==> indeg[d] == 0))
    && (forall i, j :: 0 <= i < |queue| && 0 <= j < |queue| && (queue[i], queue[j]) in edges ==> i < j)
  }

  // In-degrees part-way through the successors `row` of the component being processed.
  ghost predicate CountsDown(indeg: seq<int>, edges: Edges, gone: set<nat>, row: seq<nat>) {
    forall d :: 0 <= d < |indeg| ==>
      indeg[d] == |Preds(edges, |indeg|, d, gone)| - (if d in row then 1 else 0)
  }

  lemma FinishRow(indeg: seq<int>, edges: Edges, gone: set<nat>, c: nat, row: seq<nat>)
    requires c < |indeg| && c !in gone && CountsDown(indeg, edges, gone, row)
    requires forall d: nat :: d in row <==> (c, d) in edges
    ensures Counts(indeg, edges, gone + {c})
  {
    forall d | 0 <= d < |indeg| ensures indeg[d] == |Preds(edges, |indeg|, d, gone + {c})| {
      if d in row {
        assert Preds(edges, |indeg|, d, gone + {c}) == Preds(edges, |indeg|, d, gone) - {c};
        assert c in Preds(edges, |indeg|, d, gone);
      } else {
        assert Preds(edges, |indeg|, d, gone + {c}) == Preds(edges, |indeg|, d, gone);
      }
    }
  }

  // The component at `queue[head]` has just been dequeued: lower the in-degree of its successors, queueing those that
  // reach 0.
  method ProcessRow(c: nat, row: seq<nat>, indeg: array<int>, queue: seq<nat>, ghost edges: Edges, ghost head: nat)
    returns (queue': seq<nat>)
    requires head < |queue| && queue[head] == c && c < indeg.Length
    requires Distinct(row) && forall d: nat :: d in row <==> (c, d) in edges
    requires forall d: nat :: d in row ==> d < indeg.Length
    requires Counts(indeg[..], edges, Elements(queue[..head]))
    requires Queued(edges, indeg[..], queue)
    modifies indeg
    ensures |queue'| >= |queue| && queue'[..|queue|] == queue
    ensures Counts(indeg[..], edges, Elements(queue'[..head + 1]))
    ensures Queued(edges, indeg[..], queue')
  {
    ghost var gone := Elements(queue[..head]);
    queue' := queue;
    assert c !in gone;
    for k := 0 to |row|
      invariant |queue'| >= |queue| && queue'[..|queue|] == queue
      invariant CountsDown(indeg[..], edges, gone, row[..k])
      invariant Queued(edges, indeg[..], queue')
    {
      var d := row[k];
      ghost var before, q0 := indeg[..], queue';
      assert d !in row[..k] && row[..k + 1] == row[..k] + [d];
      PredsPositive(edges, indeg.Length, d, gone, c);
      indeg[d] := indeg[d] - 1;
      assert indeg[..] == before[d := before[d] - 1];
      assert d !in q0;
      if indeg[d] == 0 {
        queue' := queue' + [d];
        LastPred(edges, indeg.Length, d, gone, c);
        forall j | 0 <= j < |q0| ensures (d, q0[j]) !in edges {
          QueuedEarlier(edges, before, q0, gone, row[..k], c, d, j);
        }
      }
    }
    assert row[..|row|] == row;
    FinishRow(indeg[..], edges, gone, c, row);
    assert queue'[..head + 1] == queue[..head] + [c];
    assert Elements(queue'[..head + 1]) == gone + {c};
  }

  lemma PredsPositive(edges: Edges, m: nat, d: nat, gone: set<nat>, c: nat)
    requires c < m && (c, d) in edges && c !in gone
    ensures |Preds(edges, m, d, gone)| >= 1
  {
    assert c in Preds(edges, m, d, gone);
  }

  lemma LastPred(edges: Edges, m: nat, d: nat, gone: set<nat>, c: nat)
    requires c < m && (c, d) in edges && c !in gone && |Preds(edges, m, d, gone)| == 1
    ensures forall x: nat :: x < m && x !in gone && (x, d) in edges ==> x == c
  {
    var s := Preds(edges, m, d, gone);
    assert c in s && |s - {c}| == 0;
    assert s == {c} + (s - {c});
    assert forall x: nat :: x in s <==> x < m && x !in gone && (x, d) in edges;
  }

  lemma NoPreds(edges: Edges, m: nat, d: nat, gone: set<nat>)
    requires |Preds(edges, m, d, gone)| == 0
    ensures forall x: nat :: x < m && x !in gone ==> (x, d) !in edges
  {
    var s := Preds(edges, m, d, gone);
    assert forall x: nat :: x in s <==> x < m && x !in gone && (x, d) in edges;
  }

  // A component that still has an unprocessed predecessor flows into nothing that is queued.
  lemma QueuedEarlier(edges: Edges, indeg: seq<int>, queue: seq<nat>, gone: set<nat>, row: seq<nat>, c: nat, d: nat,
                      j: nat)
    requires Queued(edges, indeg, queue) && CountsDown(indeg, edges, gone, row)
    requires forall x: nat :: x in row ==> (c, x) in edges
    requires j < |queue| && d < |indeg| && d !in queue && d != c && d !in gone && c !in gone && c < |indeg|
    ensures (d, queue[j]) !in edges
  {
    var x := queue[j];
    if (d, x) in edges {
      assert indeg[x] == 0;
      assert d in Preds(edges, |indeg|, x, gone);
      if x in row {
        assert c in Preds(edges, |indeg|, x, gone);
        assert {c, d} <= Preds(edges, |indeg|, x, gone);
        SubsetSize({c, d}, Preds(edges, |indeg|, x, gone));
      }
    }
  }

  lemma SubsetSize(a: set<nat>, b: set<nat>)
    requires a <= b
    ensures |a| <= |b|
  {
    assert b == a + (b - a);
  }

  // ----- the order -----

  ghost predicate Permutation(order: seq<nat>, m: nat) {
    && |order| == m
    && Distinct(order)
    && (forall c: nat :: c < m ==> c in order)
    && (forall i :: 0 <= i < |order| ==> order[i] < m)
  }

  // Every cross edge leads from an earlier to a later component of `order`.
  ghost predicate Forward(g: Graph, compOf: seq<int>, order: seq<nat>)
    requires WellFormed(g) && |compOf| == |g|
  {
    forall i, j :: 0 <= i < |order| && 0 <= j < |order| && Crosses(g, compOf, order[i], order[j]) ==> i < j
  }

  lemma {:induction false} DistinctBelow(s: seq<nat>, m: nat)
    requires Distinct(s) && forall i :: 0 <= i < |s| ==> s[i] < m
    ensures |s| == |Elements(s)| <= m
  {
    BelowSize(m);
    SubsetSize(Elements(s), Below(m));
    DistinctSize(s);
  }

  lemma {:induction false} DistinctSize(s: seq<nat>)
    requires Distinct(s)
    ensures |Elements(s)| == |s|
  {
    if s != [] {
      var init := s[..|s| - 1];
      DistinctSize(init);
      assert s == init + [s[|s| - 1]];
      assert Elements(s) == Elements(init) + {s[|s| - 1]};
    }
  }

  ghost function Below(m: nat): set<nat> {
    if m == 0 then {} else Below(m - 1) + {m - 1}
  }

  lemma {:induction false} BelowSize(m: nat)
    ensures forall x: nat :: x in Below(m) <==> x < m
    ensures |Below(m)| == m
  {
    if m > 0 {
      BelowSize(m - 1);
    }
  }

  lemma FullCover(s: seq<nat>, m: nat)
    requires Distinct(s) && (forall i :: 0 <= i < |s| ==> s[i] < m)
    requires forall c: nat :: c < m ==> c in s
    ensures |s| == m
  {
    DistinctBelow(s, m);
    BelowSize(m);
    assert Elements(s) == Below(m);
  }

  // When every cross edge descends, the queue drains the whole graph: the largest component left
  // over would have only processed predecessors.
  lemma QueueCovers(edges: Edges, indeg: seq<int>, queue: seq<nat>)
    requires Counts(indeg, edges, Elements(queue)) && Queued(edges, indeg, queue)
    requires forall c: nat, d: nat :: (c, d) in edges ==> d < c
    ensures forall c: nat :: c < |indeg| ==> c in queue
  {
    var c: int := |indeg| - 1;
    while c >= 0
      invariant -1 <= c < |indeg|
      invariant forall x: nat :: c < x < |indeg| ==> x in queue
    {
      assert Preds(edges, |indeg|, c, Elements(queue)) == {};
      c := c - 1;
    }
  }

  // Dequeue until the queue is empty.
  method Drain(dag: array<seq<nat>>, indeg: array<int>, initial: seq<nat>, ghost edges: Edges) returns (order: seq<nat>)
    requires dag.Length == indeg.Length && Lists(dag[..], edges)
    requires Counts(indeg[..], edges, {}) && Queued(edges, indeg[..], initial)
    modifies indeg
    ensures Counts(indeg[..], edges, Elements(order)) && Queued(edges, indeg[..], order)
  {
    var m, queue := dag.Length, initial;
    order := [];
    var head := 0;
    DistinctBelow(queue, m);
    assert Elements(queue[..0]) == {};
    while head < |queue|
      invariant 0 <= head <= |queue| <= m && order == queue[..head]
      invariant Lists(dag[..], edges)
      invariant Counts(indeg[..], edges, Elements(queue[..head]))
      invariant Queued(edges, indeg[..], queue)
      decreases m - head
    {
      var c := queue[head];
      order := order + [c];
      queue := ProcessRow(c, dag[c], indeg, queue, edges, head);
      head := head + 1;
      DistinctBelow(queue, m);
    }
    assert queue[..head] == queue == order;
  }

  method AppendRest(drained: seq<nat>, m: nat) returns (order: seq<nat>, appended: bool)
    requires Distinct(drained) && forall i :: 0 <= i < |drained| ==> drained[i] < m
    ensures Permutation(order, m)
    ensures appended <==> !(forall c: nat :: c < m ==> c in drained)
    ensures !appended ==> order == drained
  {
    order, appended := drained, false;
    if |order| < m {
      for c := 0 to m
        invariant Distinct(order) && forall i :: 0 <= i < |order| ==> order[i] < m
        invariant forall d: nat :: d < c ==> d in order
        invariant forall d: nat :: d in order ==> d in drained || d < c
        invariant appended <==> exists d: nat :: d < c && d !in drained
        invariant !appended ==> order == drained
      {
        if c !in order {
          order := order + [c];
          appended := true;
        }
      }
      FullCover(order, m);
    } else {
      Pigeonhole(order, m);
    }
  }

  /** Kahn's order of the components. When the cross edges descend, as Tarjan's numbering guarantees, the
      queue alone covers every component (the fallback loop appends nothing) and every cross edge leads forward. */
  method TopoOrder(comps: seq<seq<nat>>, compOf: seq<int>, g: Graph) returns (order: seq<nat>, appended: bool)
    requires WellFormed(g) && |compOf| == |g| && forall v :: 0 <= v < |g| ==> 0 <= compOf[v] < |comps|
    ensures Permutation(order, |comps|)
    ensures Tarjan.Condensation(g, compOf, comps) ==> !appended && Forward(g, compOf, order)
  {
    var m := |comps|;
    var dag, indeg, edges := BuildDag(g, compOf, m);
    var queue: seq<nat> := [];
    for c := 0 to m
      invariant forall i :: 0 <= i < |queue| ==> queue[i] < c
      invariant Distinct(queue)
      invariant forall d :: 0 <= d < c ==> (d in queue <==> indeg[d] == 0)
    {
      if indeg[c] == 0 { queue := queue + [c]; }
    }
    forall j | 0 <= j < |queue| ensures forall x: nat :: x < m ==> (x, queue[j]) !in edges {
      NoPreds(edges, m, queue[j], {});
    }
    var drained := Drain(dag, indeg, queue, edges);
    order, appended := AppendRest(drained, m);
    if Tarjan.Condensation(g, compOf, comps) {
      forall c: nat, d: nat | (c, d) in edges ensures d < c {
        CrossDescends(g, compOf, comps, c, d);
      }
      QueueCovers(edges, indeg[..], drained);
    }
  }

  lemma CrossDescends(g: Graph, compOf: seq<int>, comps: seq<seq<nat>>, c: nat, d: nat)
    requires WellFormed(g) && Tarjan.Condensation(g, compOf, comps) && Crosses(g, compOf, c, d)
    ensures d < c
  {
  }

  lemma Pigeonhole(s: seq<nat>, m: nat)
    requires Distinct(s) && (forall i :: 0 <= i < |s| ==> s[i] < m) && |s| >= m
    ensures |s| == m && forall c: nat :: c < m ==> c in s
  {
    DistinctBelow(s, m);
    BelowSize(m);
    var below := Below(m);
    assert below == Elements(s) + (below - Elements(s));
    assert |below - Elements(s)| == 0;
    forall c: nat | c < m ensures c in s {
      assert c in below && c !in below - Elements(s);
    }
  }
}
