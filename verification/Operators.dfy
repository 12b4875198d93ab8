/**
 What the operators of the constraint system mean in the least solution (src/constraint.rs): a union variable is
 the hull of its operands and a `min` variable their `rmin`, exactly; and a term forced upwards ends at +Inf.
 */
module Operators {
  import opened Ranges
  import opened Terms
  import opened Problems
  import opened Components
  import opened Solver
  import opened Solve
  import opened Verdicts
  import opened Systems

  // Constraint `i` of the problem flows into the class of `v`.
  ghost predicate FlowsInto(p: Problem, i: nat, v: VarId)
    requires p.Valid() && i < |p.constraints|
  {
    p.canon[p.constraints[i].target] == v
  }

  // `v` stands for itself, is neither pinned nor floored, and only the constraints `i` and `j` flow into it.
  ghost predicate Private(p: Problem, v: VarId, i: nat, j: nat) {
    && p.Valid() && v < p.Size() && p.canon[v] == v && Pin(p, v).None? && Floor(p, v).None?
    && i <= j < |p.constraints|
    && forall k {:trigger FlowsInto(p, k, v)} :: 0 <= k < |p.constraints| ==> (FlowsInto(p, k, v) <==> k == i || k == j)
  }

  lemma {:induction false} PrivateInflow(p: Problem, k: nat, v: VarId, i: nat, j: nat, r: seq<Range>)
    requires Private(p, v, i, j) && |r| == p.Size() && k <= |p.constraints|
    ensures Inflow(p, k, v, r) ==
            if k <= i then EMPTY
            else if k <= j || i == j then Hull(EMPTY, EvalConstraint(p, p.constraints[i], r))
            else Hull(Hull(EMPTY, EvalConstraint(p, p.constraints[i], r)), EvalConstraint(p, p.constraints[j], r))
  {
    if k > 0 {
      PrivateInflow(p, k - 1, v, i, j, r);
      assert FlowsInto(p, k - 1, v) <==> k - 1 == i || k - 1 == j;
    }
  }

  // In the least solution a private variable holds exactly the join of its two sources.
  lemma PrivateIsJoin(p: Problem, v: VarId, i: nat, j: nat)
    requires Private(p, v, i, j)
    ensures var l := LeastSolution(p);
            Same(l[v], Hull(EvalConstraint(p, p.constraints[i], l), EvalConstraint(p, p.constraints[j], l)))
  {
    LeastSolutionIsLeast(p);
    PrivateInflow(p, |p.constraints|, v, i, j, LeastSolution(p));
  }

  lemma BareTarget(s: Sys, t: Term, v: VarId)
    ensures s.Include(t, VarTerm(v)).constraints == s.constraints + [Subset(t, v)]
  {
    var rhs := VarTerm(v);
    assert Term(rhs.terms[1..], rhs.konst) == Constant(0);
    PlusConstant(t, 0);
  }

  // The fresh variable of a union is the hull of its operands, as long as nothing else flows into it.
  lemma UnionIsHull(s: Sys, x: Term, y: Term, p: Problem)
    requires s.Valid() && x.VarsBelow(s.Size()) && y.VarsBelow(s.Size())
    requires var n := |s.constraints|; Private(p, s.Size(), n, n + 1) && s.UnionOf(x, y).0.constraints <= p.constraints
    ensures s.UnionOf(x, y).1 == VarTerm(s.Size()) && s.Size() <= p.Size()
    ensures var l := LeastSolution(p); Same(l[s.Size()], Hull(EvalTerm(p, x, l), EvalTerm(p, y, l)))
  {
    var n := |s.constraints|;
    var (s0, z) := s.Fresh(None);
    BareTarget(s0, x, s.Size());
    BareTarget(s0.Include(x, z), y, s.Size());
    var t := s.UnionOf(x, y).0;
    assert p.constraints[n] == t.constraints[n] == Subset(x, s.Size());
    assert p.constraints[n + 1] == t.constraints[n + 1] == Subset(y, s.Size());
    PrivateIsJoin(p, s.Size(), n, n + 1);
  }

  // ----- min -----

  // An item of a `min` evaluates to its term: a constant or a variable at once, anything else through the fresh
  // variable it was included into.
  lemma ItemIsTerm(s: Sys, t: Term, p: Problem)
    requires s.Valid() && t.VarsBelow(s.Size()) && s.Size() <= p.Size() && p.Valid()
    requires s.MinItemOf(t).0.constraints <= p.constraints
             && (s.MinItemOf(t).1.MinTerm? ==> s.MinItemOf(t).1.v < p.Size())
    requires !t.IsConstant() && t.SingleVar().None? ==> Private(p, s.Size(), |s.constraints|, |s.constraints|)
    ensures var l := LeastSolution(p); Same(EvalItem(p, s.MinItemOf(t).1, l), EvalTerm(p, t, l))
    ensures EvalItem(p, s.MinItemOf(t).1, LeastSolution(p)).Bounded()
  {
    var l := LeastSolution(p);
    LeastSolutionIsLeast(p);
    if t.IsConstant() {
    } else if t.SingleVar().Some? {
      var v := t.SingleVar().value;
      SingleVarIsVarTerm(t);
      VarTermEvaluates(p, v, l);
      ScaledByOne(l[p.canon[v]]);
    } else {
      BareTarget(s.Fresh(None).0, t, s.Size());
      var c := s.MinItemOf(t).0.constraints[|s.constraints|];
      assert p.constraints[|s.constraints|] == c == Subset(t, s.Size());
      PrivateIsJoin(p, s.Size(), |s.constraints|, |s.constraints|);
      ScaledByOne(l[s.Size()]);
    }
  }

  lemma ScaledByOne(x: Range)
    requires x.Bounded()
    ensures Same(Mul(1, x), x) && Mul(1, x).Bounded()
  {
    if !x.IsEmpty() {
      MulEpIsClampedProduct(1, x.lo);
      MulEpIsClampedProduct(1, x.hi);
    }
  }

  lemma ItemsAreMinimum(p: Problem, i: MinItem, j: MinItem, r: seq<Range>)
    requires p.Valid() && |r| == p.Size() && (i.MinTerm? ==> i.v < p.Size()) && (j.MinTerm? ==> j.v < p.Size())
    requires EvalItem(p, i, r).Bounded() && EvalItem(p, j, r).Bounded()
    ensures Same(EvalItems(p, [i, j], r), RMin(EvalItem(p, i, r), EvalItem(p, j, r)))
  {
    assert [i, j][..1] == [i] && [i][..0] == [];
    assert EvalItems(p, [i], r) == RMin(EvalItems(p, [], r), EvalItem(p, i, r));
  }

  // Where the constraints of `MinOf(x, y)` end up: those of the items, then the `min` itself.
  ghost predicate MinPrivate(s: Sys, x: Term, y: Term, p: Problem)
    requires s.Valid() && x.VarsBelow(s.Size()) && y.VarsBelow(s.Size())
  {
    var s0 := s.Fresh(None).0;
    var (s1, a) := s0.MinItemOf(x);
    var (s2, b) := s1.MinItemOf(y);
    && p.Valid() && s2.Size() <= p.Size() && s.MinOf(x, y).0.constraints <= p.constraints
    && Private(p, s.Size(), |s2.constraints|, |s2.constraints|)
    && (!x.IsConstant() && x.SingleVar().None? ==> Private(p, s0.Size(), |s0.constraints|, |s0.constraints|))
    && (!y.IsConstant() && y.SingleVar().None? ==> Private(p, s1.Size(), |s1.constraints|, |s1.constraints|))
  }

  // The fresh variable of a `min` is the `rmin` of its operands, as long as nothing else flows into the fresh
  // variables.
  lemma MinIsRMin(s: Sys, x: Term, y: Term, p: Problem)
    requires s.Valid() && x.VarsBelow(s.Size()) && y.VarsBelow(s.Size()) && MinPrivate(s, x, y, p)
    ensures s.MinOf(x, y).1 == VarTerm(s.Size()) && s.Size() < p.Size()
    ensures var l := LeastSolution(p); Same(l[s.Size()], RMin(EvalTerm(p, x, l), EvalTerm(p, y, l)))
  {
    var l := LeastSolution(p);
    var s0 := s.Fresh(None).0;
    FreshGrows(s, None);
    ItemGrows(s0, x);
    var (s1, a) := s0.MinItemOf(x);
    ItemGrows(s1, y);
    var (s2, b) := s1.MinItemOf(y);
    var t := s.MinOf(x, y).0;
    assert s2.constraints <= t.constraints && s1.constraints <= s2.constraints;
    ItemIsTerm(s0, x, p);
    ItemIsTerm(s1, y, p);
    var n := |s2.constraints|;
    assert p.constraints[n] == t.constraints[n] == MinSubset([a, b], s.Size());
    PrivateIsJoin(p, s.Size(), n, n);
    LeastSolutionIsLeast(p);
    ItemsAreMinimum(p, a, b, l);
  }

  // ----- unbounded terms -----

  // The problem holds the constraints of `ForceTop(1·v + k)`, and neither pins nor floors the class of `v`.
  ghost predicate Forced(s: Sys, v: VarId, k: int, p: Problem) {
    && p.Valid() && v < p.Size() && Pin(p, p.canon[v]).None? && Floor(p, p.canon[v]).None?
    && s.ForceTop(Term([Slot(1, v)], k)).constraints <= p.constraints
  }

  // They seed the class of `v` and make it step upwards, unless `k` swallows the seed.
  lemma ForcedTermGrows(s: Sys, v: VarId, k: int, p: Problem)
    requires Forced(s, v, k, p) && k < 1 - NEGINF
    ensures Grows(p, p.canon[v])
  {
    var t, n := Term([Slot(1, v)], k), |s.constraints|;
    var rest := Term(t.terms[1..], t.konst);
    assert rest == Constant(k);
    PlusConstant(Constant(1), k);
    PlusConstant(t, 1);
    PlusConstant(t.Plus(Constant(1)), k);
    var q := s.ForceTop(t).constraints;
    assert q[n] == Subset(SolvedFor(Constant(1), t), v) == Subset(Constant(1 - k), v) == p.constraints[n];
    assert q[n + 1] == Subset(SolvedFor(t.Plus(Constant(1)), t), v) == Subset(Term([Slot(1, v)], 1), v) ==
      p.constraints[n + 1];
    assert SeedsAt(p, p.canon[v], n) && StepsAt(p, p.canon[v], n + 1);
  }

  // So `gets` on a buffer whose size may be finite is reported by every run of the solver, converged or not.
  lemma ForcedLengthIsReported(s: Sys, siz: VarId, len: VarId, k: int, kind: QueryKind,
                               p: Problem, cs: seq<seq<VarId>>, rank: seq<nat>)
    requires Forced(s, len, k, p) && Layers(p, cs, rank) && siz < p.Size() && k < 1 - NEGINF
    requires var r := Final(p, cs)[p.canon[siz]]; !r.IsEmpty() && r.lo < INF
    ensures Fails(p, Query(VarTerm(siz), VarTerm(len), kind), Final(p, cs))
    ensures Final(p, cs)[p.canon[len]].hi == INF
  {
    ForcedTermGrows(s, len, k, p);
    UnboundedStaysUnbounded(p, cs, rank, p.canon[len]);
    UnboundedLengthIsReported(p, cs, rank, siz, len, kind);
  }

  // However the forced term is surrounded, every run leaves its variable with upper end +Inf.
  ghost predicate AlwaysUnbounded(k: int) {
    forall s: Sys, v: VarId, p: Problem, cs: seq<seq<VarId>>, rank: seq<nat>
      {:trigger Forced(s, v, k, p), Layers(p, cs, rank)} ::
      Forced(s, v, k, p) && Layers(p, cs, rank) ==> Final(p, cs)[p.canon[v]].hi == INF
  }

  // One variable, and nothing but the two constraints that force it.
  function ForcedAlone(k: int): Problem {
    Problem([None], [0], NEW.ForceTop(Term([Slot(1, 0)], k)).constraints, [], [], [])
  }

  lemma ForcedAloneFlows(k: int, r: seq<Range>)
    requires |r| == 1 && AllBounded(r)
    ensures var p := ForcedAlone(k);
            p.Valid() && Apply(p, 0, r) == Hull(Singleton(1 - k), Add(Singleton(1), Mul(1, r[0])))
  {
    var p, t := ForcedAlone(k), Term([Slot(1, 0)], k);
    assert Term(t.terms[1..], t.konst) == Constant(k);
    PlusConstant(Constant(1), k);
    PlusConstant(t, 1);
    PlusConstant(t.Plus(Constant(1)), k);
    assert p.constraints == [Subset(Constant(1 - k), 0), Subset(Term([Slot(1, 0)], 1), 0)];
    var slots := [Slot(1, 0)];
    assert slots[..0] == [];
    assert EvalSlots(p, slots, 1, r) == Add(EvalSlots(p, [], 1, r), Mul(1, r[0]));
    assert Inflow(p, 0, 0, r) == EMPTY && Inflow(p, 1, 0, r) == Singleton(1 - k);
    AddNonEmpty(Singleton(1), Mul(1, r[0]));
  }

  // With an offset of 32768 or more the seed saturates at -Inf, where stepping upwards leads nowhere.
  lemma ForcedStaysDown(k: int)
    requires k >= 1 - NEGINF
    ensures var p := ForcedAlone(k);
            && Forced(NEW, 0, k, p) && Layers(p, [[0]], [0]) && Final(p, [[0]]) == [Range(NEGINF, NEGINF)]
  {
    var p, r0, down := ForcedAlone(k), [EMPTY], [Range(NEGINF, NEGINF)];
    ForcedAloneFlows(k, r0);
    ForcedAloneFlows(k, down);
    assert Start(p) == r0;
    assert Rounds(p, [0], 0, r0) == r0 && PassTo(p, [0], 0, false, r0) == r0 && PassTo(p, [0], 0, true, down) == down;
    assert Rounds(p, [0], 1, r0) == PassTo(p, [0], 1, false, r0) == down;
    assert Rounds(p, [0], 1 + 1, r0) == PassTo(p, [0], 1, true, down) == down;
    StaysStill(p, [0], 1, MAX_ITERS, r0);
    assert RunTo(p, [[0]], 0) == r0 && RunTo(p, [[0]], 1) == Rounds(p, [0], MAX_ITERS, r0);
  }

  // Forcing reaches +Inf in every system exactly for offsets below 32768.
  lemma ForcedTermBoundary(k: int)
    ensures AlwaysUnbounded(k) <==> k < 1 - NEGINF
  {
    if k < 1 - NEGINF {
      forall s: Sys, v: VarId, p: Problem, cs: seq<seq<VarId>>, rank: seq<nat>
        | Forced(s, v, k, p) && Layers(p, cs, rank)
        ensures Final(p, cs)[p.canon[v]].hi == INF
      {
        ForcedTermGrows(s, v, k, p);
        UnboundedStaysUnbounded(p, cs, rank, p.canon[v]);
      }
    } else {
      ForcedStaysDown(k);
    }
  }
}
