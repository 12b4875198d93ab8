/**
 The whole solver (src/solver.rs, `solve`): lookup tables, influence graph, condensation, component order, one
 component loop after another, and the deferred queries.

 `Layers` is what the two graph algorithms deliver: the components in an order along which nothing flows
 backwards. Everything proved about the final ranges is proved for every such layering.
 */
module Solver {
  import opened Ranges
  import opened Terms
  import opened Problems
  import opened Components

  // ----- layers -----

  // `rank[v]` is the position of the component of `v` in the order of solving.
  ghost predicate Layers(p: Problem, cs: seq<seq<VarId>>, rank: seq<nat>)
    requires p.Valid()
  {
    && |rank| == p.Size()
    && (forall j :: 0 <= j < |cs| ==> Vars(p, cs[j]))
    && (forall v :: 0 <= v < p.Size() ==> rank[v] < |cs|)
    && (forall j, v :: 0 <= j < |cs| && 0 <= v < p.Size() ==> (v in cs[j] <==> rank[v] == j))
    && (forall u, v {:trigger Feeds(p, u, v)} :: 0 <= u < p.Size() && 0 <= v < p.Size() && Feeds(p, u, v) ==>
      rank[u] <= rank[v])
  }

  // The ranges once the first `j` components have been solved.
  ghost function RunTo(p: Problem, cs: seq<seq<VarId>>, j: nat): (r: seq<Range>)
    requires p.Valid() && (forall j :: 0 <= j < |cs| ==> Vars(p, cs[j])) && j <= |cs|
    ensures |r| == p.Size()
  {
    if j == 0 then Start(p) else Rounds(p, cs[j - 1], MAX_ITERS, RunTo(p, cs, j - 1))
  }

  ghost function Final(p: Problem, cs: seq<seq<VarId>>): (r: seq<Range>)
    requires p.Valid() && (forall j :: 0 <= j < |cs| ==> Vars(p, cs[j]))
    ensures |r| == p.Size()
  {
    RunTo(p, cs, |cs|)
  }

  lemma {:induction false} RunBounded(p: Problem, cs: seq<seq<VarId>>, j: nat)
    requires p.Valid() && (forall j :: 0 <= j < |cs| ==> Vars(p, cs[j])) && j <= |cs|
    ensures AllBounded(RunTo(p, cs, j))
  {
    StartBounded(p);
    if j > 0 {
      RunBounded(p, cs, j - 1);
      RoundsBounded(p, cs[j - 1], MAX_ITERS, RunTo(p, cs, j - 1));
    }
  }

  // Until its component is solved, a variable keeps its starting range; a pinned one keeps it for good.
  lemma {:induction false} UntouchedBefore(p: Problem, cs: seq<seq<VarId>>, rank: seq<nat>, j: nat, v: VarId)
    requires p.Valid() && Layers(p, cs, rank) && v < p.Size() && j <= |cs|
    requires j <= rank[v] || Pin(p, v).Some?
    ensures RunTo(p, cs, j)[v] == Start(p)[v]
  {
    if j > 0 {
      UntouchedBefore(p, cs, rank, j - 1, v);
      RoundsFrame(p, cs[j - 1], MAX_ITERS, RunTo(p, cs, j - 1), v);
    }
  }

  // Whatever flows into it, a pinned class ends at the last pin listed for it, in every run and in every solution.
  lemma LastPinStays(p: Problem, cs: seq<seq<VarId>>, rank: seq<nat>, i: nat)
    requires p.Valid() && Layers(p, cs, rank) && i < |p.fixed| && LastOn(p, p.fixed, i)
    ensures Final(p, cs)[p.canon[p.fixed[i].0]] == p.fixed[i].1
    ensures forall r :: Solution(p, r) ==> r[p.canon[p.fixed[i].0]] == p.fixed[i].1
  {
    LastPinWins(p, p.fixed, i);
    UntouchedBefore(p, cs, rank, |cs|, p.canon[p.fixed[i].0]);
  }

  // No later component disturbs an earlier one.
  lemma {:induction false} UndisturbedAfter(p: Problem, cs: seq<seq<VarId>>, rank: seq<nat>, j: nat, v: VarId)
    requires p.Valid() && Layers(p, cs, rank) && v < p.Size() && rank[v] < j <= |cs|
    ensures RunTo(p, cs, j)[v] == RunTo(p, cs, rank[v] + 1)[v]
    ensures RunTo(p, cs, j)[v] == Final(p, cs)[v]
    decreases |cs| - j, 0
  {
    if j < |cs| {
      UndisturbedAfter(p, cs, rank, j + 1, v);
      RoundsFrame(p, cs[j], MAX_ITERS, RunTo(p, cs, j), v);
    }
    UndisturbedSince(p, cs, rank, j, v);
  }

  lemma {:induction false} UndisturbedSince(p: Problem, cs: seq<seq<VarId>>, rank: seq<nat>, j: nat, v: VarId)
    requires p.Valid() && Layers(p, cs, rank) && v < p.Size() && rank[v] < j <= |cs|
    ensures RunTo(p, cs, j)[v] == RunTo(p, cs, rank[v] + 1)[v]
    decreases j
  {
    if j > rank[v] + 1 {
      UndisturbedSince(p, cs, rank, j - 1, v);
      RoundsFrame(p, cs[j - 1], MAX_ITERS, RunTo(p, cs, j - 1), v);
    }
  }

  lemma FeederSettled(p: Problem, cs: seq<seq<VarId>>, rank: seq<nat>, u: VarId, v: VarId)
    requires p.Valid() && Layers(p, cs, rank) && u < p.Size() && v < p.Size() && Feeds(p, u, v)
    ensures rank[v] < |cs| && RunTo(p, cs, rank[v] + 1)[u] == Final(p, cs)[u]
  {
    var j := rank[v] + 1;
    assert rank[u] < j <= |cs|;
    UndisturbedAfter(p, cs, rank, j, u);
  }

  // What flows into a variable of layer `j` is settled once layer `j` is.
  lemma InflowSettled(p: Problem, cs: seq<seq<VarId>>, rank: seq<nat>, j: nat, v: VarId)
    requires p.Valid() && Layers(p, cs, rank) && v < p.Size() && rank[v] == j
    ensures j < |cs| && Apply(p, v, RunTo(p, cs, j + 1)) == Apply(p, v, Final(p, cs))
  {
    forall u | 0 <= u < p.Size() && Feeds(p, u, v) ensures RunTo(p, cs, j + 1)[u] == Final(p, cs)[u] {
      FeederSettled(p, cs, rank, u, v);
    }
    ApplySameOn(p, v, RunTo(p, cs, j + 1), Final(p, cs));
  }

  // ----- convergence -----

  ghost predicate AllConverge(p: Problem, cs: seq<seq<VarId>>)
    requires p.Valid() && (forall j :: 0 <= j < |cs| ==> Vars(p, cs[j]))
  {
    forall j :: 0 <= j < |cs| ==> Converges(p, cs[j], RunTo(p, cs, j))
  }

  // Each component loop leaves by `!changed`, or would stop moving by itself without widening.
  ghost predicate AllSettle(p: Problem, cs: seq<seq<VarId>>)
    requires p.Valid() && (forall j :: 0 <= j < |cs| ==> Vars(p, cs[j]))
  {
    forall j :: 0 <= j < |cs| ==> Converges(p, cs[j], RunTo(p, cs, j)) || PlainSettles(p, cs[j], RunTo(p, cs, j))
  }

  // When every loop leaves by `!changed`, the final ranges equal the join of all inflows, system-wide.
  lemma ConvergedRunIsFixpoint(p: Problem, cs: seq<seq<VarId>>, rank: seq<nat>)
    requires p.Valid() && Layers(p, cs, rank) && AllConverge(p, cs)
    ensures Fixpoint(p, Final(p, cs))
  {
    RunBounded(p, cs, |cs|);
    forall v | 0 <= v < p.Size()
      ensures match Pin(p, v)
              case Some(pin) => Final(p, cs)[v] == pin
              case None => Final(p, cs)[v] == Apply(p, v, Final(p, cs))
    {
      UntouchedOrSolved(p, cs, rank, v);
    }
  }

  lemma UntouchedOrSolved(p: Problem, cs: seq<seq<VarId>>, rank: seq<nat>, v: VarId)
    requires p.Valid() && Layers(p, cs, rank) && v < p.Size()
    requires Pin(p, v).None? ==> Converges(p, cs[rank[v]], RunTo(p, cs, rank[v]))
    ensures Pin(p, v).Some? ==> Final(p, cs)[v] == Pin(p, v).value
    ensures Pin(p, v).None? ==> Final(p, cs)[v] == Apply(p, v, Final(p, cs))
  {
    var j := rank[v];
    if Pin(p, v).Some? {
      UntouchedBefore(p, cs, rank, |cs|, v);
    } else {
      RunBounded(p, cs, j);
      ConvergedIsFixpoint(p, cs[j], RunTo(p, cs, j));
      InflowSettled(p, cs, rank, j, v);
      UndisturbedAfter(p, cs, rank, j + 1, v);
    }
  }

  // ----- the least solution is covered -----

  // A fixpoint of one component, over earlier ranges that cover the least solution, covers it too.
  lemma {:induction false} LayerCoversKleene(p: Problem, cs: seq<seq<VarId>>, rank: seq<nat>, j: nat, x: seq<Range>,
                                             i: nat, v: VarId)
    requires p.Valid() && Layers(p, cs, rank) && j < |cs| && |x| == p.Size() && v < p.Size() && rank[v] == j
    requires forall u :: 0 <= u < p.Size() && rank[u] < j ==> Leq(LeastSolution(p)[u], x[u])
    requires forall u :: 0 <= u < p.Size() && rank[u] == j ==>
               match Pin(p, u) case Some(pin) => x[u] == pin case None => x[u] == Apply(p, u, x)
    ensures Leq(Kleene(p, i)[v], x[v])
  {
    if i > 0 && Pin(p, v).None? {
      LeastSolutionIsLeast(p);
      KleeneBelowSolutions(p, i - 1, LeastSolution(p));
      forall u | 0 <= u < p.Size() && Feeds(p, u, v) ensures Leq(Kleene(p, i - 1)[u], x[u]) {
        if rank[u] == j {
          LayerCoversKleene(p, cs, rank, j, x, i - 1, u);
        } else {
          LeqTransitive(Kleene(p, i - 1)[u], LeastSolution(p)[u], x[u]);
        }
      }
      ApplyMonotone(p, v, Kleene(p, i - 1), x);
    }
  }

  lemma {:induction false} LayerCovered(p: Problem, cs: seq<seq<VarId>>, rank: seq<nat>, j: nat, v: VarId)
    requires p.Valid() && Layers(p, cs, rank) && AllSettle(p, cs) && v < p.Size() && rank[v] == j < |cs|
    ensures Leq(LeastSolution(p)[v], RunTo(p, cs, j + 1)[v])
    decreases j
  {
    var r, comp := RunTo(p, cs, j), cs[j];
    RunBounded(p, cs, j);
    var x := if Converges(p, comp, r) then Rounds(p, comp, MAX_ITERS, r) else Plain(p, comp, MAX_ITERS, r);
    if Converges(p, comp, r) {
      ConvergedIsFixpoint(p, comp, r);
    } else {
      PlainSettledIsFixpoint(p, comp, r);
    }
    forall u | 0 <= u < p.Size() && rank[u] < j ensures Leq(LeastSolution(p)[u], x[u]) {
      LayerCovered(p, cs, rank, rank[u], u);
      UndisturbedAfter(p, cs, rank, j, u);
      RoundsFrame(p, comp, MAX_ITERS, r, u);
    }
    forall u | 0 <= u < p.Size() && rank[u] == j
      ensures match Pin(p, u) case Some(pin) => x[u] == pin case None => x[u] == Apply(p, u, x)
    {
      if Pin(p, u).Some? {
        UntouchedBefore(p, cs, rank, j, u);
        RoundsFrame(p, comp, MAX_ITERS, r, u);
      }
    }
    LayerCoversKleene(p, cs, rank, j, x, Limit(p), v);
    KleeneSimulation(p, comp, MAX_ITERS, r, r);
  }

  // If every component loop leaves by `!changed` or settles without widening, the computed ranges contain the
  // least solution.
  lemma SettledRunCoversLeast(p: Problem, cs: seq<seq<VarId>>, rank: seq<nat>)
    requires p.Valid() && Layers(p, cs, rank) && AllSettle(p, cs)
    ensures Below(LeastSolution(p), Final(p, cs))
  {
    forall v | 0 <= v < p.Size() ensures Leq(LeastSolution(p)[v], Final(p, cs)[v]) {
      LayerCovered(p, cs, rank, rank[v], v);
      UndisturbedAfter(p, cs, rank, rank[v] + 1, v);
    }
  }

  // ----- acyclic systems -----

  // Every component is one variable that does not feed itself.
  ghost predicate Discrete(p: Problem, cs: seq<seq<VarId>>)
    requires p.Valid() && (forall j :: 0 <= j < |cs| ==> Vars(p, cs[j]))
  {
    forall j :: 0 <= j < |cs| ==> |cs[j]| == 1 && !Feeds(p, cs[j][0], cs[j][0])
  }

  // A lone variable settles in the first round: the second changes nothing.
  lemma LoneVariableSettles(p: Problem, comp: seq<VarId>, r: seq<Range>)
    requires p.Valid() && Vars(p, comp) && |r| == p.Size() && |comp| == 1 && !Feeds(p, comp[0], comp[0])
    ensures Rounds(p, comp, 2, r) == Rounds(p, comp, 1, r)
    ensures Converges(p, comp, r)
  {
    var v, s := comp[0], Rounds(p, comp, 1, r);
    assert Rounds(p, comp, 0, r) == r;
    assert s == PassTo(p, comp, 1, false, r) == r[v := Visit(p, v, false, r[v], r)] by {
      assert PassTo(p, comp, 0, false, r) == r;
    }
    assert Rounds(p, comp, 2, r) == PassTo(p, comp, 1, true, s) == s[v := Visit(p, v, true, s[v], s)] by {
      assert PassTo(p, comp, 0, true, s) == s;
    }
    if Pin(p, v).None? {
      ApplySameOn(p, v, r, s);
    }
    assert Rounds(p, comp, 1 + 1, r) == Rounds(p, comp, 1, r);
  }

  // On an acyclic system the solver returns exactly the least solution, without widening any range.
  lemma AcyclicIsExact(p: Problem, cs: seq<seq<VarId>>, rank: seq<nat>)
    requires p.Valid() && Layers(p, cs, rank) && Discrete(p, cs)
    ensures AllConverge(p, cs)
    ensures forall v :: 0 <= v < p.Size() ==> Same(Final(p, cs)[v], LeastSolution(p)[v])
    ensures forall j :: 0 <= j < |cs| ==>
            Rounds(p, cs[j], MAX_ITERS, RunTo(p, cs, j)) == Plain(p, cs[j], 1, RunTo(p, cs, j))
  {
    forall j | 0 <= j < |cs|
      ensures Converges(p, cs[j], RunTo(p, cs, j))
      ensures Rounds(p, cs[j], MAX_ITERS, RunTo(p, cs, j)) == Plain(p, cs[j], 1, RunTo(p, cs, j))
    {
      var r := RunTo(p, cs, j);
      LoneVariableSettles(p, cs[j], r);
      StaysStill(p, cs[j], 1, MAX_ITERS, r);
      assert Rounds(p, cs[j], 0, r) == r == Plain(p, cs[j], 0, r);
    }
    ConvergedRunIsFixpoint(p, cs, rank);
    forall v | 0 <= v < p.Size() ensures Same(Final(p, cs)[v], LeastSolution(p)[v]) {
      FixpointIsUnique(p, cs, rank, Final(p, cs), rank[v], v);
    }
  }

  lemma {:induction false} FixpointIsUnique(p: Problem, cs: seq<seq<VarId>>, rank: seq<nat>, r: seq<Range>, j: nat,
                                            v: VarId)
    requires p.Valid() && Layers(p, cs, rank) && Discrete(p, cs) && Fixpoint(p, r) && v < p.Size() && rank[v] == j
    ensures Same(r[v], LeastSolution(p)[v])
    decreases j
  {
    var l := LeastSolution(p);
    LeastSolutionIsLeast(p);
    if Pin(p, v).None? {
      forall u | 0 <= u < p.Size() && Feeds(p, u, v) ensures Same(r[u], l[u]) {
        if rank[u] == j {
          OnlyMember(cs[j], u, v);
        } else {
          FixpointIsUnique(p, cs, rank, r, rank[u], u);
        }
      }
      ApplyMonotone(p, v, r, l);
      ApplyMonotone(p, v, l, r);
      LeqTransitive(Apply(p, v, r), Apply(p, v, l), l[v]);
      LeqTransitive(l[v], Apply(p, v, l), Apply(p, v, r));
    }
  }

  lemma OnlyMember(comp: seq<VarId>, u: VarId, v: VarId)
    requires |comp| == 1 && u in comp && v in comp
    ensures u == v == comp[0]
  {
  }

  // ----- unbounded sources -----

  // `v` receives a constant above -Inf, and itself plus a positive constant: the pair `force_len_top` adds.
  ghost predicate Grows(p: Problem, v: VarId)
    requires p.Valid()
  {
    && (exists i :: 0 <= i < |p.constraints| && SeedsAt(p, v, i))
    && (exists i :: 0 <= i < |p.constraints| && StepsAt(p, v, i))
  }

  ghost predicate SeedsAt(p: Problem, v: VarId, i: nat)
    requires p.Valid() && i < |p.constraints|
  {
    var c := p.constraints[i];
    p.canon[c.target] == v && c.Subset? && c.lhs.IsConstant() && c.lhs.konst > NEGINF
  }

  ghost predicate StepsAt(p: Problem, v: VarId, i: nat)
    requires p.Valid() && i < |p.constraints|
  {
    var c := p.constraints[i];
    && p.canon[c.target] == v && c.Subset? && c.lhs.konst > 0
    && |c.lhs.terms| == 1 && c.lhs.terms[0].coeff == 1 && p.canon[c.lhs.terms[0].v] == v
  }

  // Every recomputation exceeds both the seed and the variable's current upper end.
  lemma GrowsAtVisit(p: Problem, v: VarId, r: seq<Range>)
    requires p.Valid() && |r| == p.Size() && AllBounded(r) && v < p.Size() && Grows(p, v) && Floor(p, v).None?
    ensures !Apply(p, v, r).IsEmpty() && Apply(p, v, r).hi > NEGINF
    ensures !r[v].IsEmpty() && r[v].hi > NEGINF ==> Apply(p, v, r).hi > r[v].hi || Apply(p, v, r).hi == INF
  {
    var i :| 0 <= i < |p.constraints| && SeedsAt(p, v, i);
    InflowCovers(p, |p.constraints|, i, v, r);
    var j :| 0 <= j < |p.constraints| && StepsAt(p, v, j);
    InflowCovers(p, |p.constraints|, j, v, r);
    var t := p.constraints[j].lhs;
    assert t.terms[..0] == [];
    assert EvalSlots(p, t.terms, t.konst, r) == Add(Singleton(t.konst), Mul(1, r[v])) by {
      assert EvalSlots(p, t.terms[..0], t.konst, r) == Singleton(t.konst);
    }
  }

  lemma {:induction false} GrowsToInfinity(p: Problem, comp: seq<VarId>, k: nat, start: seq<Range>, v: VarId)
    requires p.Valid() && Vars(p, comp) && |start| == p.Size() && AllBounded(start)
    requires v in comp && Pin(p, v).None? && Floor(p, v).None? && Grows(p, v)
    ensures k >= 1 ==> !Rounds(p, comp, k, start)[v].IsEmpty() && Rounds(p, comp, k, start)[v].hi > NEGINF
    ensures k >= 2 ==> Rounds(p, comp, k, start)[v].hi == INF
  {
    if k >= 1 {
      GrowsToInfinity(p, comp, k - 1, start, v);
      var r := Rounds(p, comp, k - 1, start);
      var i :| 0 <= i < |comp| && comp[i] == v;
      PassKeeps(p, comp, i, |comp|, k > 1, r);
      var s := PassTo(p, comp, i, k > 1, r);
      RoundsBounded(p, comp, k - 1, start);
      PassBounded(p, comp, i, k > 1, r);
      assert v !in comp[..i];
      PassFrame(p, comp, i, k > 1, r, v);
      GrowsAtVisit(p, v, s);
      ApplyBounded(p, v, s);
      WidenGrows(Apply(p, v, s), r[v]);
    }
  }

  // A variable that grows ends with upper end +Inf in every run, whatever its component, even at the cap.
  lemma UnboundedStaysUnbounded(p: Problem, cs: seq<seq<VarId>>, rank: seq<nat>, v: VarId)
    requires p.Valid() && Layers(p, cs, rank) && v < p.Size()
    requires Pin(p, v).None? && Floor(p, v).None? && Grows(p, v)
    ensures !Final(p, cs)[v].IsEmpty() && Final(p, cs)[v].hi == INF
  {
    var j := rank[v];
    RunBounded(p, cs, j);
    GrowsToInfinity(p, cs[j], MAX_ITERS, RunTo(p, cs, j), v);
    UndisturbedAfter(p, cs, rank, j + 1, v);
  }
}
