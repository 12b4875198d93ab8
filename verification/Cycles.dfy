/**
 Where the component loop falls short on cycles: it replaces ranges instead of accumulating them, and visits a
 component against the depth-first preorder. Each family of systems below is solved in the order that preorder
 leaves, for every choice of its constants, and comes with the exact condition under which the loop succeeds.
 */
module Cycles {
  import opened Ranges
  import opened Terms
  import opened Problems
  import opened Components
  import opened Graphs
  import opened Solver
  import opened Solve
  import opened Verdicts
  import Feedback
  import Tarjan

  function Unnamed(n: nat, constraints: seq<Constraint>): Problem {
    Problem(seq(n, _ => None), seq(n, v => v), constraints, [], [], [])
  }

  // What `x` flows into another variable as: the empty range in its one normal form.
  function Copied(x: Range): Range { if x.IsEmpty() then EMPTY else x }

  lemma CopyFlows(p: Problem, v: VarId, r: seq<Range>)
    requires p.Valid() && |r| == p.Size() && v < p.Size() && AllBounded(r)
    ensures EvalTerm(p, VarTerm(v), r) == Copied(r[p.canon[v]])
  {
    VarTermEvaluates(p, v, r);
    EvalTermBounded(p, VarTerm(v), r);
  }

  // Constraint `i` is an edge of the influence graph.
  lemma CopyFeeds(p: Problem, i: nat, u: VarId)
    requires p.Valid() && i < |p.constraints| && u < p.Size() && p.canon[u] == u
    requires p.constraints[i].Subset? && p.constraints[i].lhs == VarTerm(u)
    ensures Feeds(p, u, p.canon[p.constraints[i].target])
  {
    ReadsSlot(p, p.constraints[i], 0);
  }

  lemma CopyRanks(p: Problem, cs: seq<seq<VarId>>, rank: seq<nat>, i: nat, u: VarId)
    requires p.Valid() && Layers(p, cs, rank) && i < |p.constraints| && u < p.Size() && p.canon[u] == u
    requires p.constraints[i].Subset? && p.constraints[i].lhs == VarTerm(u)
    ensures rank[u] <= rank[p.canon[p.constraints[i].target]]
  {
    CopyFeeds(p, i, u);
  }

  // If all variables feed one another in a circle, they form the one component.
  lemma OneComponent(p: Problem, cs: seq<seq<VarId>>, rank: seq<nat>)
    requires p.Valid() && p.Size() > 0 && Layers(p, cs, rank) && forall j :: 0 <= j < |cs| ==> cs[j] != []
    requires forall v :: 0 <= v < p.Size() ==> rank[v] == rank[0]
    ensures |cs| == 1 && forall v :: 0 <= v < p.Size() ==> v in cs[0]
  {
    assert rank[0] < |cs|;
    RankOfFirst(p, cs, rank, 0);
    RankOfFirst(p, cs, rank, |cs| - 1);
    forall v | 0 <= v < p.Size() ensures v in cs[0] {
      assert rank[v] == 0;
    }
  }

  lemma RankOfFirst(p: Problem, cs: seq<seq<VarId>>, rank: seq<nat>, j: nat)
    requires p.Valid() && Layers(p, cs, rank) && j < |cs| && cs[j] != []
    ensures cs[j][0] < p.Size() && rank[cs[j][0]] == j
  {
    assert Vars(p, cs[j]) && cs[j][0] in cs[j];
  }

  lemma LoneComponentRuns(p: Problem, comp: seq<VarId>)
    requires p.Valid() && Vars(p, comp)
    ensures Final(p, [comp]) == Rounds(p, comp, MAX_ITERS, Start(p))
    ensures AllConverge(p, [comp]) <==> Converges(p, comp, Start(p))
  {
    assert RunTo(p, [comp], 0) == Start(p);
    assert RunTo(p, [comp], 1) == Rounds(p, comp, MAX_ITERS, Start(p));
  }

  // The ranges move in round `k + 1`.
  ghost predicate MovesAfter(p: Problem, comp: seq<VarId>, r: seq<Range>, k: nat)
    requires p.Valid() && Vars(p, comp) && |r| == p.Size()
  {
    Rounds(p, comp, k + 1, r) != Rounds(p, comp, k, r)
  }

  // A loop that moves for ever from some round on never rests.
  lemma MovingNeverConverges(p: Problem, comp: seq<VarId>, r: seq<Range>, from: nat)
    requires p.Valid() && Vars(p, comp) && |r| == p.Size()
    requires forall k :: k >= from ==> MovesAfter(p, comp, r, k)
    ensures !Converges(p, comp, r)
  {
    if k :| 0 <= k < MAX_ITERS && Rounds(p, comp, k + 1, r) == Rounds(p, comp, k, r) {
      assert MovesAfter(p, comp, r, k + from);
      StaysStill(p, comp, k, k + from, r);
      StaysStill(p, comp, k, k + from + 1, r);
    }
  }

  // ----- two variables: always converged, rarely least -----

  // a ⊆ x0, b ⊆ x1, x0 ⊆ x1, x1 ⊆ x0.
  function Pair(a: int, b: int): Problem {
    Unnamed(2, [Subset(Constant(a), 0), Subset(Constant(b), 1), Subset(VarTerm(0), 1), Subset(VarTerm(1), 0)])
  }

  lemma PairFlow(a: int, b: int, r: seq<Range>)
    requires |r| == 2 && AllBounded(r)
    ensures var p := Pair(a, b);
            && p.Valid() && Apply(p, 0, r) == Hull(Singleton(a), Copied(r[1]))
            && Apply(p, 1, r) == Hull(Singleton(b), Copied(r[0]))
  {
    var p := Pair(a, b);
    CopyFlows(p, 0, r);
    CopyFlows(p, 1, r);
    assert Inflow(p, 0, 0, r) == EMPTY == Inflow(p, 0, 1, r);
    assert Inflow(p, 1, 0, r) == Inflow(p, 2, 0, r) == Inflow(p, 3, 0, r) == Singleton(a);
    assert Inflow(p, 1, 1, r) == EMPTY && Inflow(p, 2, 1, r) == Singleton(b);
    assert Inflow(p, 3, 1, r) == Hull(Singleton(b), Copied(r[0]));
  }

  // The order that starts with `u`, and the seed of a variable.
  function PairOrder(u: VarId): seq<VarId> requires u < 2 { [u, 1 - u] }

  function PairSeed(a: int, b: int, u: VarId): int { if u == 0 then a else b }

  lemma PairRound(a: int, b: int, u: VarId, wide: bool, r: seq<Range>)
    requires |r| == 2 && AllBounded(r) && u < 2
    ensures var p := Pair(a, b); p.Valid() && Vars(p, PairOrder(u))
    ensures var y := Hull(Singleton(PairSeed(a, b, u)), Copied(r[1 - u]));
            var x1 := if wide then Widen(y, r[u]) else y;
            var x := Hull(Singleton(PairSeed(a, b, 1 - u)), Copied(x1));
            Round(Pair(a, b), PairOrder(u), wide, r) == r[u := x1][1 - u := if wide then Widen(x, r[1 - u]) else x]
  {
    var p, comp := Pair(a, b), PairOrder(u);
    PairFlow(a, b, r);
    var y := Hull(Singleton(PairSeed(a, b, u)), Copied(r[1 - u]));
    var s := r[u := if wide then Widen(y, r[u]) else y];
    assert PassTo(p, comp, 0, wide, r) == r;
    assert PassTo(p, comp, 1, wide, r) == s;
    PassBounded(p, comp, 1, wide, r);
    PairFlow(a, b, s);
  }

  // Where the loop leaves the pair: the side on which the other seed exceeds the first has run off to infinity.
  function PairResult(first: int, other: int): Range {
    if first == other then Range(first, first)
    else if other > first then Range(first, INF)
    else Range(NEGINF, first)
  }

  lemma PairRuns(a: int, b: int, u: VarId)
    requires Finite(a) && Finite(b) && u < 2
    ensures var p, x := Pair(a, b), PairResult(PairSeed(a, b, u), PairSeed(a, b, 1 - u));
            && p.Valid() && Vars(p, PairOrder(u)) && Converges(p, PairOrder(u), Start(p))
            && Rounds(p, PairOrder(u), MAX_ITERS, Start(p)) == [x, x]
  {
    var p, comp, f, o := Pair(a, b), PairOrder(u), PairSeed(a, b, u), PairSeed(a, b, 1 - u);
    var x := PairResult(f, o);
    PairStarts(a, b, u);
    PairRound(a, b, u, true, Rounds(p, comp, 1, Start(p)));
    PairRound(a, b, u, true, [x, x]);
    assert Rounds(p, comp, 2, Start(p)) == [x, x] && Rounds(p, comp, 2 + 1, Start(p)) == [x, x];
    StaysStill(p, comp, 2, MAX_ITERS, Start(p));
  }

  lemma PairStarts(a: int, b: int, u: VarId)
    requires Finite(a) && Finite(b) && u < 2
    ensures var p, f, o := Pair(a, b), PairSeed(a, b, u), PairSeed(a, b, 1 - u);
            && p.Valid() && Vars(p, PairOrder(u))
            && Rounds(p, PairOrder(u), 1, Start(p)) == Start(p)[u := Range(f, f)][1 - u := Range(Min(f, o), Max(f, o))]
  {
    var p, r0 := Pair(a, b), [EMPTY, EMPTY];
    assert Start(p) == r0 && Rounds(p, PairOrder(u), 0, r0) == r0;
    PairRound(a, b, u, false, r0);
  }

  lemma PairLayers(a: int, b: int, cs: seq<seq<VarId>>, rank: seq<nat>)
    requires var p := Pair(a, b); p.Valid() && Layers(p, cs, rank) && forall j :: 0 <= j < |cs| ==> cs[j] != []
    ensures cs == [PairOrder(0)] || cs == [PairOrder(1)]
  {
    var p := Pair(a, b);
    CopyRanks(p, cs, rank, 2, 0);
    CopyRanks(p, cs, rank, 3, 1);
    OneComponent(p, cs, rank);
    var comp := cs[0];
    assert |comp| >= 2;
    assert comp[0] < 2 && comp[1] < 2 && comp[|comp| - 1] < 2;
    assert comp == PairOrder(comp[0]);
  }

  // In whatever order the two are visited, the loop converges, and returns the least solution exactly when the two
  // seeds are equal.
  lemma TwoCycleIsLeastOnlyOnEqualSeeds(a: int, b: int, cs: seq<seq<VarId>>, rank: seq<nat>)
    requires Finite(a) && Finite(b)
    requires var p := Pair(a, b); p.Valid() && Layers(p, cs, rank) && forall j :: 0 <= j < |cs| ==> cs[j] != []
    ensures var p, least := Pair(a, b), Range(Min(a, b), Max(a, b));
            && AllConverge(p, cs) && Solution(p, [least, least])
              && (forall s :: Solution(p, s) ==> Below([least, least], s))
            && (Final(p, cs) == [least, least] <==> a == b)
  {
    var p, least := Pair(a, b), Range(Min(a, b), Max(a, b));
    PairLayers(a, b, cs, rank);
    PairRuns(a, b, cs[0][0]);
    LoneComponentRuns(p, cs[0]);
    PairFlow(a, b, [least, least]);
    forall s | Solution(p, s) ensures Below([least, least], s) {
      PairLeast(a, b, s);
    }
  }

  lemma PairLeast(a: int, b: int, s: seq<Range>)
    requires Finite(a) && Finite(b) && Pair(a, b).Valid() && Solution(Pair(a, b), s)
    ensures |s| == 2 && Leq(Range(Min(a, b), Max(a, b)), s[0]) && Leq(Range(Min(a, b), Max(a, b)), s[1])
  {
    PairFlow(a, b, s);
    assert Pin(Pair(a, b), 0).None? && Pin(Pair(a, b), 1).None?;
  }

  // ----- three variables in a ring -----

  function Next(u: VarId): VarId { if u == 2 then 0 else u + 1 }

  // Each of three variables feeds the next one, and nothing else.
  ghost predicate Ring(p: Problem)
    requires p.Valid()
  {
    && p.Size() == 3 && (forall v :: 0 <= v < 3 ==> p.canon[v] == v)
    && (forall u: VarId, w: VarId :: u < 3 && w < 3 ==> (Feeds(p, u, w) <==> w == Next(u)))
  }

  // The constraint reads only the predecessor of its target.
  ghost predicate Steps(p: Problem, i: nat)
    requires p.Valid() && i < |p.constraints|
  {
    forall u: VarId :: u < 3 && Reads(p, p.constraints[i], u) ==> p.constraints[i].target == Next(u)
  }

  lemma NoEdge(p: Problem, i: nat)
    requires p.Valid() && i < |p.constraints| && p.constraints[i].Subset? && p.constraints[i].lhs.terms == []
    ensures Steps(p, i)
  {
    assert LhsVars(p.constraints[i]) == [];
  }

  lemma RingEdge(p: Problem, i: nat, v: VarId, k: int)
    requires p.Valid() && i < |p.constraints| && v < p.Size() && p.canon[v] == v
    requires p.constraints[i].Subset? && p.constraints[i].lhs == Term([Slot(1, v)], k)
    requires p.constraints[i].target == Next(v) < p.Size() && p.canon[Next(v)] == Next(v)
    ensures Feeds(p, v, Next(v)) && Steps(p, i)
  {
    ReadsSlot(p, p.constraints[i], 0);
    assert LhsVars(p.constraints[i]) == [v];
  }

  lemma StepsMakeRing(p: Problem)
    requires p.Valid() && p.Size() == 3 && (forall v :: 0 <= v < 3 ==> p.canon[v] == v)
    requires Feeds(p, 0, 1) && Feeds(p, 1, 2) && Feeds(p, 2, 0)
    requires forall i :: 0 <= i < |p.constraints| ==> Steps(p, i)
    ensures Ring(p)
  {
    forall u: VarId, w: VarId | u < 3 && w < 3 && Feeds(p, u, w) ensures w == Next(u) {
      var i :| 0 <= i < |p.constraints| && p.canon[p.constraints[i].target] == w && Reads(p, p.constraints[i], u);
      assert Steps(p, i);
    }
  }

  lemma ConstantsStep(p: Problem, n: nat)
    requires p.Valid() && n <= |p.constraints|
    requires forall i :: 0 <= i < n ==> p.constraints[i].Subset? && p.constraints[i].lhs.terms == []
    ensures forall i :: 0 <= i < n ==> Steps(p, i)
  {
    forall i | 0 <= i < n ensures Steps(p, i) { NoEdge(p, i); }
  }

  lemma OneMoreSteps(p: Problem, n: nat)
    requires p.Valid() && n < |p.constraints| && Steps(p, n) && forall i :: 0 <= i < n ==> Steps(p, i)
    ensures forall i :: 0 <= i < n + 1 ==> Steps(p, i)
  {
  }

  // Constants, and then the three steps.
  lemma RingOf(p: Problem, n: nat, k: int)
    requires p.Valid() && p.Size() == 3 && (forall v :: 0 <= v < 3 ==> p.canon[v] == v) && |p.constraints| == n + 3
    requires forall i :: 0 <= i < n ==> p.constraints[i].Subset? && p.constraints[i].lhs.terms == []
    requires p.constraints[n] == Subset(Term([Slot(1, 0)], k), 1)
    requires p.constraints[n + 1] == Subset(VarTerm(1), 2) && p.constraints[n + 2] == Subset(VarTerm(2), 0)
    ensures Ring(p)
  {
    RingEdges(p, n, k);
    ConstantsStep(p, n);
    OneMoreSteps(p, n);
    OneMoreSteps(p, n + 1);
    OneMoreSteps(p, n + 2);
    StepsMakeRing(p);
  }

  lemma RingEdges(p: Problem, n: nat, k: int)
    requires p.Valid() && p.Size() == 3 && (forall v :: 0 <= v < 3 ==> p.canon[v] == v) && |p.constraints| == n + 3
    requires p.constraints[n] == Subset(Term([Slot(1, 0)], k), 1)
    requires p.constraints[n + 1] == Subset(VarTerm(1), 2) && p.constraints[n + 2] == Subset(VarTerm(2), 0)
    ensures Steps(p, n) && Steps(p, n + 1) && Steps(p, n + 2)
    ensures Feeds(p, 0, 1) && Feeds(p, 1, 2) && Feeds(p, 2, 0)
  {
    RingEdge(p, n, 0, k);
    RingEdge(p, n + 1, 1, 0);
    RingEdge(p, n + 2, 2, 0);
  }

  lemma RingIsOneComponent(p: Problem, cs: seq<seq<VarId>>, rank: seq<nat>)
    requires p.Valid() && Ring(p) && Layers(p, cs, rank) && forall j :: 0 <= j < |cs| ==> cs[j] != []
    ensures |cs| == 1 && forall v :: 0 <= v < 3 ==> v in cs[0]
  {
    assert Feeds(p, 0, 1) && Feeds(p, 1, 2) && Feeds(p, 2, 0);
    assert forall v :: 0 <= v < 3 ==> rank[v] == rank[0];
    OneComponent(p, cs, rank);
  }

  // The search discovers the three in ascending order, and so emits them in descending order.
  lemma RingIsEmittedBackwards(p: Problem, g: Graph, cs: seq<seq<VarId>>, rank: seq<nat>)
    requires p.Valid() && Ring(p) && Influence(p, |p.constraints|, g) && Layers(p, cs, rank) && Emission(g, cs)
    ensures cs == [[2, 1, 0]]
  {
    RingIsOneComponent(p, cs, rank);
    var order :| Tarjan.Preorder(g, order) && Tarjan.Falling(order, cs);
    RingMeets(p, g, order, 1);
    RingMeets(p, g, order, 2);
    var comp := cs[0];
    assert Tarjan.FallsIn(order, comp);
    ThreeFalling(order, comp);
  }

  lemma RingMeets(p: Problem, g: Graph, order: seq<int>, w: VarId)
    requires p.Valid() && Ring(p) && Influence(p, |p.constraints|, g)
    requires Tarjan.Preorder(g, order) && 0 < w < 3
    ensures order[w - 1] < order[w]
  {
    assert Tarjan.Met(g, order, w);
    if Tarjan.MetAsRoot(g, order, w) {
      assert Tarjan.Before(order, w - 1, w);
    } else {
      var u, k :| Tarjan.MetFrom(g, order, u, k, w);
      assert Edge(g, u, w);
      assert Feeds(p, u, w);
    }
  }

  lemma {:induction false} FallsBy(order: seq<int>, comp: seq<VarId>, i: nat)
    requires |order| == 3 && order[0] < order[1] < order[2] && Tarjan.FallsIn(order, comp) && i < |comp|
    ensures comp[i] <= 2 - i
  {
    if i > 0 { FallsBy(order, comp, i - 1); }
  }

  lemma ThreeFalling(order: seq<int>, comp: seq<VarId>)
    requires |order| == 3 && order[0] < order[1] < order[2] && Tarjan.FallsIn(order, comp)
    requires 0 in comp && 1 in comp && 2 in comp
    ensures comp == [2, 1, 0]
  {
    if |comp| > 3 { FallsBy(order, comp, 3); }
    var i :| 0 <= i < |comp| && comp[i] == 0;
    var j :| 0 <= j < |comp| && comp[j] == 1;
    var k :| 0 <= k < |comp| && comp[k] == 2;
    assert k < j < i;
  }

  // ----- three variables: converged only on equal seeds -----

  // s0 ⊆ x0, s1 ⊆ x1, s2 ⊆ x2, x0 ⊆ x1, x1 ⊆ x2, x2 ⊆ x0.
  function Triple(s0: int, s1: int, s2: int): Problem {
    Unnamed(3, [Subset(Constant(s0), 0), Subset(Constant(s1), 1), Subset(Constant(s2), 2),
                Subset(VarTerm(0), 1), Subset(VarTerm(1), 2), Subset(VarTerm(2), 0)])
  }

  lemma TripleFlow(s0: int, s1: int, s2: int, r: seq<Range>)
    requires |r| == 3 && AllBounded(r)
    ensures var p := Triple(s0, s1, s2);
            && p.Valid() && Apply(p, 0, r) == Hull(Singleton(s0), Copied(r[2]))
            && Apply(p, 1, r) == Hull(Singleton(s1), Copied(r[0]))
              && Apply(p, 2, r) == Hull(Singleton(s2), Copied(r[1]))
  {
    TripleFlow0(s0, s1, s2, r);
    TripleFlow1(s0, s1, s2, r);
    TripleFlow2(s0, s1, s2, r);
  }

  lemma TripleFlow0(s0: int, s1: int, s2: int, r: seq<Range>)
    requires |r| == 3 && AllBounded(r)
    ensures Triple(s0, s1, s2).Valid() && Apply(Triple(s0, s1, s2), 0, r) == Hull(Singleton(s0), Copied(r[2]))
  {
    var p := Triple(s0, s1, s2);
    CopyFlows(p, 2, r);
    assert Inflow(p, 0, 0, r) == EMPTY;
    assert Inflow(p, 1, 0, r) == Inflow(p, 2, 0, r) == Inflow(p, 3, 0, r) == Inflow(p, 4, 0, r) == Singleton(s0);
    assert Inflow(p, 5, 0, r) == Singleton(s0);
  }

  lemma TripleFlow1(s0: int, s1: int, s2: int, r: seq<Range>)
    requires |r| == 3 && AllBounded(r)
    ensures Triple(s0, s1, s2).Valid() && Apply(Triple(s0, s1, s2), 1, r) == Hull(Singleton(s1), Copied(r[0]))
  {
    var p := Triple(s0, s1, s2);
    CopyFlows(p, 0, r);
    assert Inflow(p, 0, 1, r) == EMPTY == Inflow(p, 1, 1, r);
    assert Inflow(p, 2, 1, r) == Inflow(p, 3, 1, r) == Singleton(s1);
    assert Inflow(p, 4, 1, r) == Inflow(p, 5, 1, r) == Hull(Singleton(s1), Copied(r[0]));
  }

  lemma TripleFlow2(s0: int, s1: int, s2: int, r: seq<Range>)
    requires |r| == 3 && AllBounded(r)
    ensures Triple(s0, s1, s2).Valid() && Apply(Triple(s0, s1, s2), 2, r) == Hull(Singleton(s2), Copied(r[1]))
  {
    var p := Triple(s0, s1, s2);
    CopyFlows(p, 1, r);
    assert Inflow(p, 0, 2, r) == EMPTY == Inflow(p, 1, 2, r) == Inflow(p, 2, 2, r);
    assert Inflow(p, 3, 2, r) == Inflow(p, 4, 2, r) == Singleton(s2);
    assert Inflow(p, 5, 2, r) == Hull(Singleton(s2), Copied(r[1]));
  }

  lemma TripleIsRing(s0: int, s1: int, s2: int)
    ensures Triple(s0, s1, s2).Valid() && Ring(Triple(s0, s1, s2))
  {
    RingOf(Triple(s0, s1, s2), 3, 0);
  }

  lemma TripleRound(s0: int, s1: int, s2: int, wide: bool, r: seq<Range>)
    requires |r| == 3 && AllBounded(r)
    ensures var p := Triple(s0, s1, s2); p.Valid() && Vars(p, [2, 1, 0])
    ensures var z := Hull(Singleton(s2), Copied(r[1]));
            var x2 := if wide then Widen(z, r[2]) else z;
            var y := Hull(Singleton(s1), Copied(r[0]));
            var x1 := if wide then Widen(y, r[1]) else y;
            var x := Hull(Singleton(s0), Copied(x2));
            Round(Triple(s0, s1, s2), [2, 1, 0], wide, r) == [if wide then Widen(x, r[0]) else x, x1, x2]
  {
    var p, comp := Triple(s0, s1, s2), [2, 1, 0];
    TripleFlow(s0, s1, s2, r);
    var z := Hull(Singleton(s2), Copied(r[1]));
    var s := r[2 := if wide then Widen(z, r[2]) else z];
    assert PassTo(p, comp, 0, wide, r) == r;
    assert PassTo(p, comp, 1, wide, r) == s;
    PassBounded(p, comp, 1, wide, r);
    TripleFlow(s0, s1, s2, s);
    var y := Hull(Singleton(s1), Copied(r[0]));
    var t := s[1 := if wide then Widen(y, r[1]) else y];
    assert PassTo(p, comp, 2, wide, r) == t;
    PassBounded(p, comp, 2, wide, r);
    TripleFlow(s0, s1, s2, t);
  }

  // ----- the upper ends alone -----

  // The upper end of a variable with a seed, fed from `from`, that was at `was`.
  function Rise(seed: int, from: int, was: int): int {
    var e := Max(seed, from);
    if e > was then INF else e
  }

  // One round on the three upper ends.
  function NextTops(s0: int, s1: int, s2: int, h: (int, int, int)): (int, int, int) {
    var n2 := Rise(s2, h.1, h.2);
    (Rise(s0, n2, h.0), Rise(s1, h.0, h.1), n2)
  }

  // The three upper ends after `k` rounds. Negated, the lower ends behave likewise for the negated seeds.
  function Tops(s0: int, s1: int, s2: int, k: nat): (t: (int, int, int))
    requires k >= 1 && Finite(s0) && Finite(s1) && Finite(s2)
    ensures s0 <= t.0 <= INF && s1 <= t.1 <= INF && s2 <= t.2 <= INF
  {
    if k == 1 then (Max(s0, s2), s1, s2) else NextTops(s0, s1, s2, Tops(s0, s1, s2, k - 1))
  }

  function Spread(lo: (int, int, int), hi: (int, int, int)): seq<Range> {
    [Range(-lo.0, hi.0), Range(-lo.1, hi.1), Range(-lo.2, hi.2)]
  }

  // Widening a seed joined with a copy acts on each end by itself.
  lemma WidenIsRise(seed: int, from: Range, was: Range)
    requires Finite(seed) && from.Bounded() && !from.IsEmpty() && !was.IsEmpty()
    ensures Widen(Hull(Singleton(seed), Copied(from)), was) ==
            Range(-Rise(-seed, -from.lo, -was.lo), Rise(seed, from.hi, was.hi))
  {
  }

  predicate Around(s0: int, s1: int, s2: int, t: (int, int, int)) {
    s0 <= t.0 <= INF && s1 <= t.1 <= INF && s2 <= t.2 <= INF
  }

  lemma TripleStep(s0: int, s1: int, s2: int, lo: (int, int, int), hi: (int, int, int))
    requires Finite(s0) && Finite(s1) && Finite(s2) && Around(-s0, -s1, -s2, lo) && Around(s0, s1, s2, hi)
    ensures var p := Triple(s0, s1, s2);
            && p.Valid() && Vars(p, [2, 1, 0])
            && Round(p, [2, 1, 0], true, Spread(lo, hi)) ==
              Spread(NextTops(-s0, -s1, -s2, lo), NextTops(s0, s1, s2, hi))
  {
    var r := Spread(lo, hi);
    TripleRound(s0, s1, s2, true, r);
    WidenIsRise(s2, r[1], r[2]);
    WidenIsRise(s1, r[0], r[1]);
    WidenIsRise(s0, Widen(Hull(Singleton(s2), Copied(r[1])), r[2]), r[0]);
  }

  lemma TripleStarts(s0: int, s1: int, s2: int)
    requires Finite(s0) && Finite(s1) && Finite(s2)
    ensures var p := Triple(s0, s1, s2);
            && p.Valid() && Vars(p, [2, 1, 0])
            && Rounds(p, [2, 1, 0], 1, Start(p)) == [Range(Min(s0, s2), Max(s0, s2)), Range(s1, s1), Range(s2, s2)]
  {
    var p, comp, r0 := Triple(s0, s1, s2), [2, 1, 0], [EMPTY, EMPTY, EMPTY];
    assert Start(p) == r0;
    assert Rounds(p, comp, 0, r0) == r0;
    TripleRound(s0, s1, s2, false, r0);
  }

  lemma {:induction false} TripleEnds(s0: int, s1: int, s2: int, k: nat)
    requires k >= 1 && Finite(s0) && Finite(s1) && Finite(s2)
    ensures var p := Triple(s0, s1, s2); p.Valid() && Vars(p, [2, 1, 0])
    ensures Rounds(Triple(s0, s1, s2), [2, 1, 0], k, Start(Triple(s0, s1, s2))) ==
            Spread(Tops(-s0, -s1, -s2, k), Tops(s0, s1, s2, k))
  {
    if k == 1 {
      TripleStarts(s0, s1, s2);
    } else {
      TripleEnds(s0, s1, s2, k - 1);
      TripleStep(s0, s1, s2, Tops(-s0, -s1, -s2, k - 1), Tops(s0, s1, s2, k - 1));
    }
  }

  // The upper ends come to rest: at infinity in the first case, at the greatest seed in the second.
  predicate Steadies(s0: int, s1: int, s2: int) { s0 > s1 > s2 || s0 <= s1 == s2 }

  // Otherwise they alternate for ever.
  lemma {:induction false} TopsSwing(s0: int, s1: int, s2: int, k: nat)
    requires k >= 3 && Finite(s0) && Finite(s1) && Finite(s2) && !Steadies(s0, s1, s2)
    ensures var m := Max(Max(s0, s1), s2);
            Tops(s0, s1, s2, k) == if (k % 2 == 1) == (s1 <= s2) then (INF, m, INF) else (m, INF, m)
  {
    if k == 3 {
      assert Tops(s0, s1, s2, 1) == (Max(s0, s2), s1, s2);
      assert Tops(s0, s1, s2, 2) == if s1 > s2 then (INF, s1, INF) else (Max(s0, s2), INF, s2);
    } else {
      TopsSwing(s0, s1, s2, k - 1);
    }
  }

  // One end unequal over the three: some copy is not contained in its target.
  lemma UnequalIsNoSolution(s0: int, s1: int, s2: int, lo: (int, int, int), hi: (int, int, int))
    requires Finite(s0) && Finite(s1) && Finite(s2) && Around(-s0, -s1, -s2, lo) && Around(s0, s1, s2, hi)
    requires hi.0 != hi.1 || lo.0 != lo.1
    ensures Triple(s0, s1, s2).Valid() && !Solution(Triple(s0, s1, s2), Spread(lo, hi))
  {
    TripleFlow(s0, s1, s2, Spread(lo, hi));
    assert Pin(Triple(s0, s1, s2), 0).None? && Pin(Triple(s0, s1, s2), 1).None? && Pin(Triple(s0, s1, s2), 2).None?;
  }

  lemma TripleSwings(s0: int, s1: int, s2: int, k: nat)
    requires k >= 3 && Finite(s0) && Finite(s1) && Finite(s2) && !(s0 == s1 == s2)
    ensures var p := Triple(s0, s1, s2); p.Valid() && Vars(p, [2, 1, 0])
    ensures var p := Triple(s0, s1, s2);
            Rounds(p, [2, 1, 0], k, Start(p)) != Rounds(p, [2, 1, 0], k + 1, Start(p))
  {
    TripleEnds(s0, s1, s2, k);
    TripleEnds(s0, s1, s2, k + 1);
    var lo, hi := Tops(-s0, -s1, -s2, k), Tops(s0, s1, s2, k);
    var lo', hi' := Tops(-s0, -s1, -s2, k + 1), Tops(s0, s1, s2, k + 1);
    EndsMove(s0, s1, s2, k);
    assert Spread(lo, hi)[1] != Spread(lo', hi')[1];
  }

  lemma TripleStaysOutside(s0: int, s1: int, s2: int, k: nat)
    requires k >= 3 && Finite(s0) && Finite(s1) && Finite(s2) && !(s0 == s1 == s2)
    ensures var p := Triple(s0, s1, s2);
            p.Valid() && Vars(p, [2, 1, 0]) && !Solution(p, Rounds(p, [2, 1, 0], k, Start(p)))
  {
    TripleEnds(s0, s1, s2, k);
    EndsMove(s0, s1, s2, k);
    UnequalIsNoSolution(s0, s1, s2, Tops(-s0, -s1, -s2, k), Tops(s0, s1, s2, k));
  }

  lemma TopsMove(s0: int, s1: int, s2: int, k: nat)
    requires k >= 3 && Finite(s0) && Finite(s1) && Finite(s2) && !Steadies(s0, s1, s2)
    ensures var hi, hi' := Tops(s0, s1, s2, k), Tops(s0, s1, s2, k + 1);
            hi.1 != hi'.1 && hi.0 != hi.1
  {
    TopsSwing(s0, s1, s2, k);
    TopsSwing(s0, s1, s2, k + 1);
  }

  lemma EndsMove(s0: int, s1: int, s2: int, k: nat)
    requires k >= 3 && Finite(s0) && Finite(s1) && Finite(s2) && !(s0 == s1 == s2)
    ensures var lo, hi := Tops(-s0, -s1, -s2, k), Tops(s0, s1, s2, k);
            var lo', hi' := Tops(-s0, -s1, -s2, k + 1), Tops(s0, s1, s2, k + 1);
            (hi.1 != hi'.1 && hi.0 != hi.1) || (lo.1 != lo'.1 && lo.0 != lo.1)
  {
    if !Steadies(s0, s1, s2) {
      TopsMove(s0, s1, s2, k);
    } else {
      TopsMove(-s0, -s1, -s2, k);
    }
  }

  lemma EqualSeedsRest(s: int)
    requires Finite(s)
    ensures var p := Triple(s, s, s); p.Valid() && Vars(p, [2, 1, 0]) && Converges(p, [2, 1, 0], Start(p))
  {
    var p, comp := Triple(s, s, s), [2, 1, 0];
    TripleEnds(s, s, s, 1);
    TripleEnds(s, s, s, 2);
    assert Tops(s, s, s, 2) == Tops(s, s, s, 1) && Tops(-s, -s, -s, 2) == Tops(-s, -s, -s, 1);
    assert Rounds(p, comp, 1 + 1, Start(p)) == Rounds(p, comp, 1, Start(p));
  }

  // In the order the search emits, the loop converges exactly when the three seeds are equal. Otherwise it runs
  // into the cap, and what it leaves behind is not even a solution, though the hull of the seeds is one.
  lemma ThreeCycleConvergesOnlyOnEqualSeeds(s0: int, s1: int, s2: int, g: Graph, cs: seq<seq<VarId>>, rank: seq<nat>)
    requires Finite(s0) && Finite(s1) && Finite(s2)
    requires var p := Triple(s0, s1, s2);
             p.Valid() && Influence(p, |p.constraints|, g) && Layers(p, cs, rank) && Emission(g, cs)
    ensures var p, x := Triple(s0, s1, s2), Range(Min(Min(s0, s1), s2), Max(Max(s0, s1), s2));
            && (AllConverge(p, cs) <==> s0 == s1 == s2)
            && (Solution(p, Final(p, cs)) <==> s0 == s1 == s2) && Solution(p, [x, x, x])
  {
    var p, x := Triple(s0, s1, s2), Range(Min(Min(s0, s1), s2), Max(Max(s0, s1), s2));
    TripleIsRing(s0, s1, s2);
    RingIsEmittedBackwards(p, g, cs, rank);
    var comp := [2, 1, 0];
    LoneComponentRuns(p, comp);
    TripleFlow(s0, s1, s2, [x, x, x]);
    if s0 == s1 == s2 {
      EqualSeedsRest(s0);
      ConvergedRunIsFixpoint(p, cs, rank);
      FixpointIsSolution(p, Final(p, cs));
    } else {
      TripleStaysOutside(s0, s1, s2, MAX_ITERS);
      forall k: nat | k >= 3 ensures MovesAfter(p, comp, Start(p), k) { TripleSwings(s0, s1, s2, k); }
      MovingNeverConverges(p, comp, Start(p), 3);
    }
  }

  // ----- three variables: a climb that ends short of the least solution -----

  // s ⊆ x2, x0 + 1 ⊆ x1, x1 ⊆ x2, x2 ⊆ x0.
  function Climb(s: int): Problem {
    Unnamed(3, [Subset(Constant(s), 2), Subset(Term([Slot(1, 0)], 1), 1), Subset(VarTerm(1), 2), Subset(VarTerm(2), 0)])
  }

  // `x + 1`.
  function Raised(x: Range): Range { Add(Singleton(1), Copied(x)) }

  lemma RaisedFlows(p: Problem, v: VarId, r: seq<Range>)
    requires p.Valid() && |r| == p.Size() && v < p.Size() && AllBounded(r)
    ensures EvalTerm(p, Term([Slot(1, v)], 1), r) == Raised(r[p.canon[v]])
  {
    var slots, x := [Slot(1, v)], r[p.canon[v]];
    assert slots[..0] == [];
    assert EvalSlots(p, slots, 1, r) == Add(EvalSlots(p, [], 1, r), Mul(1, x));
    if !x.IsEmpty() { Feedback.ScaledOnce(x); }
  }

  lemma ClimbFlow(s: int, r: seq<Range>)
    requires |r| == 3 && AllBounded(r)
    ensures var p := Climb(s);
            && p.Valid() && Apply(p, 0, r) == Copied(r[2]) && Apply(p, 1, r) == Raised(r[0])
            && Apply(p, 2, r) == Hull(Singleton(s), Copied(r[1]))
  {
    ClimbFlow0(s, r);
    ClimbFlow1(s, r);
    ClimbFlow2(s, r);
  }

  lemma ClimbFlow0(s: int, r: seq<Range>)
    requires |r| == 3 && AllBounded(r)
    ensures Climb(s).Valid() && Apply(Climb(s), 0, r) == Copied(r[2])
  {
    var p := Climb(s);
    CopyFlows(p, 2, r);
    assert Inflow(p, 0, 0, r) == Inflow(p, 1, 0, r) == Inflow(p, 2, 0, r) == Inflow(p, 3, 0, r) == EMPTY;
  }

  lemma ClimbFlow1(s: int, r: seq<Range>)
    requires |r| == 3 && AllBounded(r)
    ensures Climb(s).Valid() && Apply(Climb(s), 1, r) == Raised(r[0])
  {
    var p := Climb(s);
    RaisedFlows(p, 0, r);
    assert Inflow(p, 0, 1, r) == Inflow(p, 1, 1, r) == EMPTY;
    assert Inflow(p, 2, 1, r) == Inflow(p, 3, 1, r) == Raised(r[0]);
  }

  lemma ClimbFlow2(s: int, r: seq<Range>)
    requires |r| == 3 && AllBounded(r)
    ensures Climb(s).Valid() && Apply(Climb(s), 2, r) == Hull(Singleton(s), Copied(r[1]))
  {
    var p := Climb(s);
    CopyFlows(p, 1, r);
    assert Inflow(p, 0, 2, r) == EMPTY && Inflow(p, 1, 2, r) == Inflow(p, 2, 2, r) == Singleton(s);
    assert Inflow(p, 3, 2, r) == Hull(Singleton(s), Copied(r[1]));
  }

  lemma ClimbIsRing(s: int)
    ensures Climb(s).Valid() && Ring(Climb(s))
  {
    RingOf(Climb(s), 1, 1);
  }

  lemma ClimbRound(s: int, wide: bool, r: seq<Range>)
    requires |r| == 3 && AllBounded(r)
    ensures var p := Climb(s); p.Valid() && Vars(p, [2, 1, 0])
    ensures var z := Hull(Singleton(s), Copied(r[1]));
            var x2 := if wide then Widen(z, r[2]) else z;
            var y := Raised(r[0]);
            var x1 := if wide then Widen(y, r[1]) else y;
            var x := Copied(x2);
            Round(Climb(s), [2, 1, 0], wide, r) == [if wide then Widen(x, r[0]) else x, x1, x2]
  {
    var p, comp := Climb(s), [2, 1, 0];
    ClimbFlow(s, r);
    var z := Hull(Singleton(s), Copied(r[1]));
    var s1 := r[2 := if wide then Widen(z, r[2]) else z];
    assert PassTo(p, comp, 0, wide, r) == r;
    assert PassTo(p, comp, 1, wide, r) == s1;
    PassBounded(p, comp, 1, wide, r);
    ClimbFlow(s, s1);
    var y := Raised(r[0]);
    var s2 := s1[1 := if wide then Widen(y, r[1]) else y];
    assert PassTo(p, comp, 2, wide, r) == s2;
    PassBounded(p, comp, 2, wide, r);
    ClimbFlow(s, s2);
  }

  // The ranges after `k` rounds: what one half has run up to infinity the next one takes back, one step higher.
  function ClimbAt(s: int, k: nat): seq<Range>
    requires k >= 3
  {
    var x := if k % 2 == 0 then Range(s, Clamp(s + k / 2 - 1)) else Range(s, INF);
    [x, Range(Clamp(s + 1), if k % 2 == 0 then INF else Clamp(s + k / 2)), x]
  }

  lemma ClimbStarts(s: int)
    requires Finite(s)
    ensures var p := Climb(s); p.Valid() && Vars(p, [2, 1, 0])
    ensures var p, x := Climb(s), Range(s, s);
            && Rounds(p, [2, 1, 0], 1, Start(p)) == [x, EMPTY, x]
            && Rounds(p, [2, 1, 0], 2, Start(p)) == [x, Range(Clamp(s + 1), Clamp(s + 1)), x]
            && Rounds(p, [2, 1, 0], 3, Start(p)) == ClimbAt(s, 3)
  {
    var p, comp, r0, x := Climb(s), [2, 1, 0], [EMPTY, EMPTY, EMPTY], Range(s, s);
    assert Start(p) == r0;
    assert Rounds(p, comp, 0, r0) == r0;
    ClimbRound(s, false, r0);
    ClimbRound(s, true, [x, EMPTY, x]);
    ClimbRound(s, true, [x, Range(Clamp(s + 1), Clamp(s + 1)), x]);
  }

  lemma ClimbStep(s: int, k: nat)
    requires Finite(s) && k >= 3
    ensures var p := Climb(s);
            p.Valid() && Vars(p, [2, 1, 0]) && Round(p, [2, 1, 0], true, ClimbAt(s, k)) == ClimbAt(s, k + 1)
  {
    ClimbRound(s, true, ClimbAt(s, k));
  }

  lemma {:induction false} ClimbRuns(s: int, k: nat)
    requires Finite(s) && k >= 3
    ensures var p := Climb(s);
            p.Valid() && Vars(p, [2, 1, 0]) && Rounds(p, [2, 1, 0], k, Start(p)) == ClimbAt(s, k)
  {
    if k == 3 {
      ClimbStarts(s);
    } else {
      ClimbRuns(s, k - 1);
      ClimbStep(s, k - 1);
    }
  }

  // Two rounds leave the same ranges only once the seed has climbed to infinity.
  lemma ClimbRests(s: int, k: nat)
    requires Finite(s)
    ensures var p := Climb(s);
            && p.Valid() && Vars(p, [2, 1, 0])
            && (Rounds(p, [2, 1, 0], k + 1, Start(p)) == Rounds(p, [2, 1, 0], k, Start(p)) <==>
                k >= 3 && s + (k - 1) / 2 >= INF)
  {
    var p := Climb(s);
    ClimbStarts(s);
    if k >= 3 {
      ClimbRuns(s, k);
      ClimbRuns(s, k + 1);
      assert ClimbAt(s, k + 1)[0] == ClimbAt(s, k)[0] <==> s + (k - 1) / 2 >= INF;
    } else {
      assert Start(p)[0] == EMPTY;
      assert [Range(s, s), EMPTY, Range(s, s)][1] == EMPTY;
    }
  }

  // How far the cap of the loop lets the seed climb.
  const CLIMBED: int := (MAX_ITERS - 1) / 2

  lemma ClimbConverges(s: int)
    requires Finite(s)
    ensures var p := Climb(s);
            p.Valid() && Vars(p, [2, 1, 0]) && (Converges(p, [2, 1, 0], Start(p)) <==> s + CLIMBED >= INF)
  {
    var p, comp := Climb(s), [2, 1, 0];
    ClimbRests(s, MAX_ITERS - 1);
    if k :| 0 <= k < MAX_ITERS && Rounds(p, comp, k + 1, Start(p)) == Rounds(p, comp, k, Start(p)) {
      ClimbRests(s, k);
    }
  }

  lemma ClimbLeast(s: int)
    requires Finite(s)
    ensures var p, l := Climb(s), [Range(s, INF), Range(Clamp(s + 1), INF), Range(s, INF)];
            p.Valid() && Solution(p, l) && forall r :: Solution(p, r) ==> Below(l, r)
  {
    var p, l := Climb(s), [Range(s, INF), Range(Clamp(s + 1), INF), Range(s, INF)];
    ClimbFlow(s, l);
    forall r | Solution(p, r) ensures Below(l, r) { ClimbBelow(s, r); }
  }

  lemma ClimbBelow(s: int, r: seq<Range>)
    requires Finite(s) && Climb(s).Valid() && Solution(Climb(s), r)
    ensures Below([Range(s, INF), Range(Clamp(s + 1), INF), Range(s, INF)], r)
  {
    ClimbFlow(s, r);
    assert Pin(Climb(s), 0).None? && Pin(Climb(s), 1).None? && Pin(Climb(s), 2).None?;
  }

  // The hypothesis of `SettledRunCoversLeast` is needed. In the least solution every variable of the climb is unbounded
  // above. The loop settles, and covers that solution, exactly when the seed reaches infinity within the cap. From any
  // lower seed it stops with `x0` at s..s + 499, and a query of any finite size at least that large passes, though
  // the least solution violates it.
  lemma CappedClimbMissesLeast(s: int, size: int, kind: QueryKind, g: Graph, cs: seq<seq<VarId>>, rank: seq<nat>)
    requires Finite(s) && Finite(size)
    requires var p := Climb(s); p.Valid() && Influence(p, |p.constraints|, g) && Layers(p, cs, rank) && Emission(g, cs)
    ensures var p := Climb(s);
            && (AllSettle(p, cs) <==> s + CLIMBED >= INF) && (AllConverge(p, cs) <==> s + CLIMBED >= INF)
            && (Below(LeastSolution(p), Final(p, cs)) <==> s + CLIMBED >= INF)
            && Final(p, cs)[0] == Range(s, Clamp(s + CLIMBED))
    ensures var p, q := Climb(s), Query(Constant(size), VarTerm(0), kind);
            Fails(p, q, LeastSolution(p)) && (Fails(p, q, Final(p, cs)) <==> size < s + CLIMBED)
  {
    var p, comp, q := Climb(s), [2, 1, 0], Query(Constant(size), VarTerm(0), kind);
    ClimbIsRing(s);
    RingIsEmittedBackwards(p, g, cs, rank);
    LoneComponentRuns(p, comp);
    ClimbConverges(s);
    ClimbRuns(s, MAX_ITERS);
    ClimbLeast(s);
    LeastSolutionIsLeast(p);
    if AllSettle(p, cs) { SettledRunCoversLeast(p, cs, rank); }
    VarTermEvaluates(p, 0, Final(p, cs));
    VarTermEvaluates(p, 0, LeastSolution(p));
    assert Leq(Range(s, INF), LeastSolution(p)[0]);
  }

  // ----- one variable, negative feedback -----

  // a ⊆ x, -x ⊆ x.
  function Flip(a: int): Problem {
    Unnamed(1, [Subset(Constant(a), 0), Subset(Term([Slot(-1, 0)], 0), 0)])
  }

  lemma FlipRound(a: int, wide: bool, x: Range)
    requires x.Bounded()
    ensures var p, y := Flip(a), Hull(Singleton(a), Mul(-1, x));
            && p.Valid() && Vars(p, [0]) && Apply(p, 0, [x]) == y
            && Round(p, [0], wide, [x]) == [if wide then Widen(y, x) else y]
  {
    var p, r := Flip(a), [x];
    NegatedFlows(p, r);
    assert Inflow(p, 0, 0, r) == EMPTY && Inflow(p, 1, 0, r) == Singleton(a);
    assert PassTo(p, [0], 0, wide, r) == r;
    assert Round(p, [0], wide, r) == PassTo(p, [0], 1, wide, r);
  }

  lemma NegatedFlows(p: Problem, r: seq<Range>)
    requires p.Valid() && |r| == p.Size() > 0 && p.canon[0] == 0 && r[0].Bounded()
    ensures EvalSlots(p, [Slot(-1, 0)], 0, r) == Mul(-1, r[0])
  {
    var slots := [Slot(-1, 0)];
    assert slots[..0] == [];
    ResultsBounded(-1, r[0], r[0]);
    MulNonEmpty(-1, r[0]);
    assert EvalSlots(p, slots, 0, r) == Add(EvalSlots(p, [], 0, r), Mul(-1, r[0]));
  }

  function Magnitude(a: int): int { if a < 0 then -a else a }

  // From the second round on the range alternates between these two.
  function Side(a: int, up: bool): Range { if up then Range(-Magnitude(a), INF) else Range(NEGINF, Magnitude(a)) }

  lemma FlipTurns(a: int, up: bool)
    requires Finite(a) && a != 0
    ensures var p := Flip(a);
            && p.Valid() && Vars(p, [0]) && Round(p, [0], true, [Side(a, up)]) == [Side(a, !up)]
            && !Solution(p, [Side(a, up)])
  {
    FlipRound(a, true, Side(a, up));
    assert Pin(Flip(a), 0).None?;
  }

  lemma FlipStarts(a: int)
    requires Finite(a) && a != 0
    ensures var p := Flip(a); p.Valid() && Vars(p, [0]) && Rounds(p, [0], 2, Start(p)) == [Side(a, a < 0)]
  {
    var p, r0 := Flip(a), [EMPTY];
    FlipRound(a, false, EMPTY);
    FlipRound(a, true, Range(a, a));
    assert Start(p) == r0 && Rounds(p, [0], 0, r0) == r0 && Rounds(p, [0], 1, r0) == [Range(a, a)];
  }

  // The side the range is on after `k` rounds.
  predicate FlipsUp(a: int, k: nat) { (k % 2 == 0) == (a < 0) }

  lemma SidesAlternate(a: int, k: nat)
    requires Finite(a) && a != 0
    ensures FlipsUp(a, k + 1) == !FlipsUp(a, k) && [Side(a, FlipsUp(a, k))] != [Side(a, FlipsUp(a, k + 1))]
  {
    assert [Side(a, true)][0] != [Side(a, false)][0];
  }

  lemma FlipOnce(a: int, k: nat)
    requires Finite(a) && a != 0 && k >= 2
    requires var p := Flip(a); p.Valid() && Vars(p, [0]) && Rounds(p, [0], k, Start(p)) == [Side(a, FlipsUp(a, k))]
    ensures Rounds(Flip(a), [0], k + 1, Start(Flip(a))) == [Side(a, FlipsUp(a, k + 1))]
  {
    SidesAlternate(a, k);
    FlipTurns(a, FlipsUp(a, k));
  }

  lemma {:induction false} FlipSwings(a: int, k: nat)
    requires Finite(a) && a != 0 && k >= 2
    ensures var p := Flip(a); p.Valid() && Vars(p, [0]) && Rounds(p, [0], k, Start(p)) == [Side(a, FlipsUp(a, k))]
  {
    if k == 2 {
      FlipStarts(a);
    } else {
      FlipSwings(a, k - 1);
      FlipOnce(a, k - 1);
    }
  }

  lemma FlipMoves(a: int, k: nat)
    requires Finite(a) && a != 0 && k >= 2
    ensures var p := Flip(a); p.Valid() && Vars(p, [0]) && MovesAfter(p, [0], Start(p), k)
  {
    FlipSwings(a, k);
    FlipSwings(a, k + 1);
    SidesAlternate(a, k);
  }

  lemma ZeroRests()
    ensures var p := Flip(0); p.Valid() && Vars(p, [0]) && Converges(p, [0], Start(p))
  {
    var p, r0 := Flip(0), [EMPTY];
    FlipRound(0, false, EMPTY);
    FlipRound(0, true, Range(0, 0));
    assert Start(p) == r0 && Rounds(p, [0], 0, r0) == r0;
    assert Rounds(p, [0], 1 + 1, r0) == Rounds(p, [0], 1, r0);
  }

  lemma FlipLayers(a: int, cs: seq<seq<VarId>>, rank: seq<nat>)
    requires var p := Flip(a); p.Valid() && Layers(p, cs, rank) && forall j :: 0 <= j < |cs| ==> cs[j] != []
    ensures cs == [[0]]
  {
    OneComponent(Flip(a), cs, rank);
    assert Vars(Flip(a), cs[0]) && cs[0][0] == 0 && cs[0][|cs[0]| - 1] == 0;
    assert cs[0] == [0];
  }

  // A negative coefficient on itself defeats a lone variable, except when there is nothing to negate.
  lemma NegativeSelfLoopConvergesOnlyAtZero(a: int, cs: seq<seq<VarId>>, rank: seq<nat>)
    requires Finite(a)
    requires var p := Flip(a); p.Valid() && Layers(p, cs, rank) && forall j :: 0 <= j < |cs| ==> cs[j] != []
    ensures var p, m := Flip(a), Magnitude(a);
            && (AllConverge(p, cs) <==> a == 0)
            && (Solution(p, Final(p, cs)) <==> a == 0) && Solution(p, [Range(-m, m)])
  {
    var p := Flip(a);
    FlipLayers(a, cs, rank);
    LoneComponentRuns(p, [0]);
    FlipRound(a, false, Range(-Magnitude(a), Magnitude(a)));
    if a == 0 {
      ZeroRests();
      ConvergedRunIsFixpoint(p, cs, rank);
      FixpointIsSolution(p, Final(p, cs));
    } else {
      FlipSwings(a, MAX_ITERS);
      FlipTurns(a, FlipsUp(a, MAX_ITERS));
      forall k: nat | k >= 2 ensures MovesAfter(p, [0], Start(p), k) { FlipMoves(a, k); }
      MovingNeverConverges(p, [0], Start(p), 2);
    }
  }
}
