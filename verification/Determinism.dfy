/**
 The solver is a function of its input. The depth-first preorder of a graph is unique, so the order inside each
 component is fixed; and the topological order chosen between the components does not matter to any range.
 */
module Determinism {
  import opened Ranges
  import opened Terms
  import opened Problems
  import opened Components
  import opened Graphs
  import opened Solver
  import opened Solve
  import opened Tarjan

  // ----- the preorder is unique -----

  lemma LeastBy(order: seq<int>, from: set<nat>) returns (v: nat)
    requires from != {} && forall x :: x in from ==> x < |order|
    ensures v in from && forall x :: x in from ==> order[v] <= order[x]
    decreases |from|
  {
    var u :| u in from;
    v := u;
    if from != {u} {
      var w := LeastBy(order, from - {u});
      v := if order[w] < order[u] then w else u;
    }
  }

  // A root is met once all successors of what came before it are numbered ...
  lemma NumberedBeforeRoot(g: Graph, order: seq<int>, u: nat, k: nat, w: nat)
    requires WellFormed(g) && |order| == |g| && w < |g| && MetAsRoot(g, order, w)
    requires u < |g| && Before(order, u, w) && k < |g[u]|
    ensures Before(order, g[u][k], w)
  {
    assert Spent(g, order, u, w);
  }

  lemma LowerBeforeRoot(g: Graph, order: seq<int>, x: nat, w: nat)
    requires WellFormed(g) && |order| == |g| && w < |g| && MetAsRoot(g, order, w) && x < w
    ensures Before(order, x, w)
  {
  }

  // ... and a child once all successors of what came after its parent are.
  lemma NumberedBeforeChild(g: Graph, order: seq<int>, t: nat, i: nat, u: nat, k: nat, w: nat)
    requires WellFormed(g) && |order| == |g| && w < |g| && MetFrom(g, order, t, i, w)
    requires u < |g| && Before(order, t, u) && Before(order, u, w) && k < |g[u]|
    ensures Before(order, g[u][k], w)
  {
    assert Spent(g, order, u, w);
  }

  // Two searches that have made the same discoveries in the same order discover the same vertex next.
  lemma SameNext(g: Graph, a: seq<int>, b: seq<int>, w: nat, v: nat)
    requires Preorder(g, a) && Preorder(g, b) && w < |g| && v < |g|
    requires forall x :: 0 <= x < |g| ==> (Before(a, x, w) <==> Before(b, x, v))
    requires forall x, y :: 0 <= x < |g| && 0 <= y < |g| && Before(a, y, w) ==> (Before(a, x, y) <==> Before(b, x, y))
    requires !Before(a, v, w) && !Before(b, w, v)
    ensures w == v
  {
    assert Met(g, a, w) && Met(g, b, v);
    if MetAsRoot(g, a, w) && MetAsRoot(g, b, v) {
      if v < w { LowerBeforeRoot(g, a, v, w); }
      if w < v { LowerBeforeRoot(g, b, w, v); }
    } else if MetAsRoot(g, b, v) {
      var u: nat, k: nat :| MetFrom(g, a, u, k, w);
      NumberedBeforeRoot(g, b, u, k, v);
    } else if MetAsRoot(g, a, w) {
      var u: nat, k: nat :| MetFrom(g, b, u, k, v);
      NumberedBeforeRoot(g, a, u, k, w);
    } else {
      SameChild(g, a, b, w, v);
    }
  }

  lemma SameChild(g: Graph, a: seq<int>, b: seq<int>, w: nat, v: nat)
    requires Preorder(g, a) && Preorder(g, b) && w < |g| && v < |g|
    requires forall x :: 0 <= x < |g| ==> (Before(a, x, w) <==> Before(b, x, v))
    requires forall x, y :: 0 <= x < |g| && 0 <= y < |g| && Before(a, y, w) ==> (Before(a, x, y) <==> Before(b, x, y))
    requires !Before(a, v, w) && !Before(b, w, v)
    requires (exists u, k :: MetFrom(g, a, u, k, w)) && exists u, k :: MetFrom(g, b, u, k, v)
    ensures w == v
  {
    var u: nat, k: nat :| MetFrom(g, a, u, k, w);
    var t: nat, i: nat :| MetFrom(g, b, t, i, v);
    assert Before(a, t, w) && Before(b, u, v);
    if Before(a, u, t) {
      NumberedBeforeChild(g, a, u, k, t, i, w);
    } else if u != t {
      assert Before(b, t, u);
      NumberedBeforeChild(g, b, t, i, u, k, v);
    }
  }

  lemma {:induction false} PreorderIsUnique(g: Graph, a: seq<int>, b: seq<int>, w: nat)
    requires Preorder(g, a) && Preorder(g, b) && w < |g|
    ensures forall x :: 0 <= x < |g| ==> (Before(a, x, w) <==> Before(b, x, w))
    decreases a[w]
  {
    var seen := set x: nat | x < |g| && Before(a, x, w);
    forall x, y | 0 <= x < |g| && 0 <= y < |g| && Before(a, y, w) ensures Before(a, x, y) <==> Before(b, x, y) {
      PreorderIsUnique(g, a, b, y);
    }
    var rest := set x: nat | x < |g| && x !in seen;
    assert w in rest;
    var v := LeastBy(b, rest);
    forall x | 0 <= x < |g| ensures Before(a, x, w) <==> Before(b, x, v) {
      if x in seen {
        assert !Before(a, v, x) && b[x] != b[v];
      } else {
        assert x in rest;
      }
    }
    SameNext(g, a, b, w, v);
  }

  lemma {:induction false} FallingIsUnique(order: seq<int>, c: seq<nat>, d: seq<nat>)
    requires FallsIn(order, c) && FallsIn(order, d) && forall x: nat :: x in c <==> x in d
    ensures c == d
  {
    assert |d| > 0 ==> d[0] in d;
    if c != [] {
      assert c[0] in d;
      var i :| 0 <= i < |d| && d[i] == c[0];
      assert d[0] in c;
      var j :| 0 <= j < |c| && c[j] == d[0];
      assert i == 0 && j == 0;
      forall x: nat ensures x in c[1..] <==> x in d[1..] {
        assert x in c[1..] ==> x in d && x != d[0];
        assert x in d[1..] ==> x in c && x != c[0];
      }
      FallingIsUnique(order, c[1..], d[1..]);
      assert c == [c[0]] + c[1..] && d == [d[0]] + d[1..];
    }
  }

  // ----- the components are unique -----

  lemma ReachAscends(p: Problem, g: Graph, cs: seq<seq<VarId>>, rank: seq<nat>, u: VarId, v: VarId)
    requires p.Valid() && Influence(p, |p.constraints|, g) && Layers(p, cs, rank) && u < p.Size() && Reach(g, u, v)
    ensures v < p.Size() && rank[u] <= rank[v]
  {
    var fall := seq(|rank|, x requires 0 <= x < |rank| => -(rank[x] as int));
    forall x: nat, k | x < |g| && 0 <= k < |g[x]| ensures fall[g[x][k]] <= fall[x] {
      assert Edge(g, x, g[x][k]) && FeedsBy(p, |p.constraints|, x, g[x][k]);
      assert Feeds(p, x, g[x][k]);
    }
    ReachDescends(g, fall, u, v);
  }

  // Two layerings of one problem list the component of a variable alike.
  lemma SameComponent(p: Problem, g: Graph, cs: seq<seq<VarId>>, rank: seq<nat>, cs': seq<seq<VarId>>, rank': seq<nat>,
                      v: VarId)
    requires p.Valid() && Influence(p, |p.constraints|, g) && v < p.Size()
    requires Layers(p, cs, rank) && Emission(g, cs) && Layers(p, cs', rank') && Emission(g, cs')
    ensures cs[rank[v]] == cs'[rank'[v]]
  {
    var c, d := cs[rank[v]], cs'[rank'[v]];
    assert v in c && v in d;
    forall x: nat ensures x in c <==> x in d {
      if x in c {
        assert Vars(p, c) && Reach(g, x, v) && Reach(g, v, x);
        ReachAscends(p, g, cs', rank', x, v);
        ReachAscends(p, g, cs', rank', v, x);
      }
      if x in d {
        assert Vars(p, d) && Reach(g, x, v) && Reach(g, v, x);
        ReachAscends(p, g, cs, rank, x, v);
        ReachAscends(p, g, cs, rank, v, x);
      }
    }
    var a :| Preorder(g, a) && Falling(a, cs);
    var b :| Preorder(g, b) && Falling(b, cs');
    assert FallsIn(a, c) && FallsIn(b, d);
    forall i, j | 0 <= i < j < |d| ensures a[d[i]] > a[d[j]] {
      PreorderIsUnique(g, a, b, d[i]);
      assert Before(b, d[j], d[i]);
    }
    FallingIsUnique(a, c, d);
  }

  // ----- the order of the components does not matter -----

  // `u` is in the component, or feeds a member of it.
  ghost predicate Near(p: Problem, comp: seq<VarId>, u: VarId)
    requires p.Valid() && Vars(p, comp)
  {
    u in comp || exists i :: 0 <= i < |comp| && Feeds(p, u, comp[i])
  }

  ghost predicate Agree(p: Problem, comp: seq<VarId>, r: seq<Range>, s: seq<Range>)
    requires p.Valid() && Vars(p, comp) && |r| == |s| == p.Size()
  {
    forall u {:trigger Near(p, comp, u)} :: 0 <= u < p.Size() && Near(p, comp, u) ==> r[u] == s[u]
  }

  lemma {:induction false} PassAgrees(p: Problem, comp: seq<VarId>, k: nat, wide: bool, r: seq<Range>, s: seq<Range>)
    requires p.Valid() && Vars(p, comp) && |r| == |s| == p.Size() && k <= |comp| && Agree(p, comp, r, s)
    ensures Agree(p, comp, PassTo(p, comp, k, wide, r), PassTo(p, comp, k, wide, s))
  {
    if k > 0 {
      PassAgrees(p, comp, k - 1, wide, r, s);
      var v, r', s' := comp[k - 1], PassTo(p, comp, k - 1, wide, r), PassTo(p, comp, k - 1, wide, s);
      assert Near(p, comp, v);
      forall u | 0 <= u < p.Size() && Feeds(p, u, v) ensures r'[u] == s'[u] {
        assert Near(p, comp, u);
      }
      ApplySameOn(p, v, r', s');
    }
  }

  lemma {:induction false} RoundsAgree(p: Problem, comp: seq<VarId>, k: nat, r: seq<Range>, s: seq<Range>)
    requires p.Valid() && Vars(p, comp) && |r| == |s| == p.Size() && Agree(p, comp, r, s)
    ensures Agree(p, comp, Rounds(p, comp, k, r), Rounds(p, comp, k, s))
  {
    if k > 0 {
      RoundsAgree(p, comp, k - 1, r, s);
      PassAgrees(p, comp, |comp|, k > 1, Rounds(p, comp, k - 1, r), Rounds(p, comp, k - 1, s));
    }
  }

  // Until its turn a component starts from nothing, and what feeds it from outside is final.
  lemma StartOfLayer(p: Problem, cs: seq<seq<VarId>>, rank: seq<nat>, j: nat, u: VarId)
    requires p.Valid() && Layers(p, cs, rank) && j < |cs| && u < p.Size() && Near(p, cs[j], u)
    ensures if u in cs[j] then RunTo(p, cs, j)[u] == Start(p)[u]
            else rank[u] < j && RunTo(p, cs, j)[u] == Final(p, cs)[u]
  {
    if u in cs[j] {
      UntouchedBefore(p, cs, rank, j, u);
    } else {
      var i :| 0 <= i < |cs[j]| && Feeds(p, u, cs[j][i]);
      assert cs[j][i] in cs[j] && cs[j][i] < p.Size();
      assert rank[u] <= rank[cs[j][i]];
      UndisturbedAfter(p, cs, rank, j, u);
    }
  }

  // Whatever topological order the components are solved in, every variable ends with the same range.
  lemma {:induction false} RunIsDetermined(p: Problem, g: Graph, cs: seq<seq<VarId>>, rank: seq<nat>,
                                           cs': seq<seq<VarId>>, rank': seq<nat>, v: VarId)
    requires p.Valid() && Influence(p, |p.constraints|, g) && v < p.Size()
    requires Layers(p, cs, rank) && Emission(g, cs) && Layers(p, cs', rank') && Emission(g, cs')
    ensures Final(p, cs)[v] == Final(p, cs')[v]
    decreases rank[v]
  {
    var j, i := rank[v], rank'[v];
    var comp := cs[j];
    SameComponent(p, g, cs, rank, cs', rank', v);
    assert v in comp && Vars(p, comp) && comp == cs'[i];
    forall u | 0 <= u < p.Size() && Near(p, comp, u) ensures RunTo(p, cs, j)[u] == RunTo(p, cs', i)[u] {
      StartOfLayer(p, cs, rank, j, u);
      StartOfLayer(p, cs', rank', i, u);
      if u !in comp { RunIsDetermined(p, g, cs, rank, cs', rank', u); }
    }
    RoundsAgree(p, comp, MAX_ITERS, RunTo(p, cs, j), RunTo(p, cs', i));
    assert Near(p, comp, v);
    UndisturbedAfter(p, cs, rank, j + 1, v);
    UndisturbedAfter(p, cs', rank', i + 1, v);
  }

  // The influence graph is a function of the problem, so two runs of the solver on it end with the same ranges.
  lemma SolvingIsDetermined(p: Problem, g: Graph, cs: seq<seq<VarId>>, rank: seq<nat>,
                            g': Graph, cs': seq<seq<VarId>>, rank': seq<nat>)
    requires p.Valid() && Influence(p, |p.constraints|, g) && Layers(p, cs, rank) && Emission(g, cs)
    requires Influence(p, |p.constraints|, g') && Layers(p, cs', rank') && Emission(g', cs')
    ensures g == g' && Final(p, cs) == Final(p, cs')
  {
    assert g == g';
    forall v | 0 <= v < p.Size() ensures Final(p, cs)[v] == Final(p, cs')[v] {
      RunIsDetermined(p, g, cs, rank, cs', rank', v);
    }
  }
}
