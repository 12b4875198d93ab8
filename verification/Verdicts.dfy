/**
 What a verdict means: failed queries (src/solver.rs), their tiers (src/walk.rs, `chance`), and what the
 absence of a report promises.
 */
module Verdicts {
  import opened Ranges
  import opened Terms
  import opened Problems
  import opened Solver
  import opened Solve

  predicate Elt(a: int, b: int) {
    if a <= NEGINF then b > NEGINF
    else if a >= INF then false
    else if b >= INF then true
    else if b <= NEGINF then false
    else a < b
  }

  // The tier of an overflow report: 0 almost certain, 1 possible, 2 a slight chance.
  function Chance(siz: Range, len: Range): nat {
    if Elt(siz.hi, len.lo) then 0
    else if Elt(siz.hi, len.hi) then 1
    else 2
  }

  lemma EvalTermBounded(p: Problem, t: Term, r: seq<Range>)
    requires p.Valid() && |r| == p.Size() && t.VarsBelow(p.Size()) && AllBounded(r)
    ensures EvalTerm(p, t, r).Bounded()
    ensures EvalTerm(p, t, r).IsEmpty() ==> EvalTerm(p, t, r) == EMPTY
  {
    EvalSlotsBounded(p, t.terms, t.konst, r);
    EvalSlotsNormal(p, t.terms, t.konst, r);
  }

  lemma {:induction false} EvalSlotsNormal(p: Problem, slots: seq<Slot>, konst: int, r: seq<Range>)
    requires p.Valid() && |r| == p.Size() && forall k :: 0 <= k < |slots| ==> slots[k].v < p.Size()
    ensures EvalSlots(p, slots, konst, r).IsEmpty() ==> EvalSlots(p, slots, konst, r) == EMPTY
  {
    if slots != [] {
      var init, last := slots[..|slots| - 1], slots[|slots| - 1];
      EvalSlotsNormal(p, init, konst, r);
      AddNonEmpty(EvalSlots(p, init, konst, r), Mul(last.coeff, r[p.canon[last.v]]));
    }
  }

  lemma EvalTermMonotone(p: Problem, t: Term, r: seq<Range>, s: seq<Range>)
    requires p.Valid() && |r| == |s| == p.Size() && t.VarsBelow(p.Size()) && Below(r, s)
    ensures Leq(EvalTerm(p, t, r), EvalTerm(p, t, s))
  {
    EvalSlotsMonotone(p, t.terms, t.konst, r, s);
  }

  // A query is reported exactly when some pair of values of its sides violates it; never with an empty side.
  lemma FailsMeansViolated(p: Problem, q: Query, r: seq<Range>)
    requires p.Valid() && |r| == p.Size() && q.a.VarsBelow(p.Size()) && q.b.VarsBelow(p.Size()) && AllBounded(r)
    ensures Fails(p, q, r) <==>
              exists a, b :: InRange(EvalTerm(p, q.a, r), a) && InRange(EvalTerm(p, q.b, r), b) && a < b
    ensures Fails(p, q, r) ==> !EvalTerm(p, q.a, r).IsEmpty() && !EvalTerm(p, q.b, r).IsEmpty()
  {
    var x, y := EvalTerm(p, q.a, r), EvalTerm(p, q.b, r);
    EvalTermBounded(p, q.a, r);
    EvalTermBounded(p, q.b, r);
    EpGeIsOrder(x.lo, if y.IsEmpty() then NEGINF else y.hi);
    if Fails(p, q, r) {
      assert InRange(x, x.lo) && InRange(y, y.hi);
    }
  }

  // The tiers of a reported overflow: at 0 every pair violates; at 1 or below some length exceeds every size.
  lemma TiersMean(siz: Range, len: Range)
    requires siz.Bounded() && len.Bounded() && !siz.IsEmpty() && !len.IsEmpty()
    ensures Chance(siz, len) == 0 <==> forall a, b :: InRange(siz, a) && InRange(len, b) ==> a < b
    ensures Chance(siz, len) <= 1 <==> exists b :: InRange(len, b) && forall a :: InRange(siz, a) ==> a < b
  {
    if Chance(siz, len) != 0 {
      assert InRange(siz, siz.hi) && InRange(len, len.lo);
    }
    if Chance(siz, len) <= 1 {
      assert InRange(len, len.hi);
    }
    if b :| InRange(len, b) && forall a :: InRange(siz, a) ==> a < b {
      assert InRange(siz, siz.hi);
    }
  }

  lemma FailsMonotone(p: Problem, q: Query, r: seq<Range>, s: seq<Range>)
    requires p.Valid() && |r| == |s| == p.Size() && q.a.VarsBelow(p.Size()) && q.b.VarsBelow(p.Size())
    requires Below(r, s) && AllBounded(r) && AllBounded(s) && Fails(p, q, r)
    ensures Fails(p, q, s)
  {
    EvalTermMonotone(p, q.a, r, s);
    EvalTermMonotone(p, q.b, r, s);
    FailsMeansViolated(p, q, r);
    FailsMeansViolated(p, q, s);
    var a, b :| InRange(EvalTerm(p, q.a, r), a) && InRange(EvalTerm(p, q.b, r), b) && a < b;
    assert InRange(EvalTerm(p, q.a, s), a) && InRange(EvalTerm(p, q.b, s), b);
  }

  // A clean verdict: when every loop converges or settles, a query that is not reported holds for all pairs of
  // values its sides take in the least solution.
  lemma CleanVerdict(p: Problem, cs: seq<seq<VarId>>, rank: seq<nat>, q: Query, a: int, b: int)
    requires p.Valid() && Layers(p, cs, rank) && AllSettle(p, cs)
    requires q in p.queries && q.a.VarsBelow(p.Size()) && q.b.VarsBelow(p.Size()) && !Fails(p, q, Final(p, cs))
    requires InRange(EvalTerm(p, q.a, LeastSolution(p)), a) && InRange(EvalTerm(p, q.b, LeastSolution(p)), b)
    ensures a >= b
  {
    SettledRunCoversLeast(p, cs, rank);
    RunBounded(p, cs, |cs|);
    LeastSolutionIsLeast(p);
    if a < b {
      FailsMeansViolated(p, q, LeastSolution(p));
      FailsMonotone(p, q, LeastSolution(p), Final(p, cs));
    }
  }

  // The two endpoints a query compares sit at the same infinity, where the comparison cannot tell them apart.
  predicate Blind(siz: Range, len: Range) {
    (siz.lo >= INF && len.hi >= INF) || (siz.lo <= NEGINF && len.hi <= NEGINF)
  }

  // An unreported query bounds the unbounded integers of its sides as well, exactly when it is not blind.
  lemma PassedQueryBounds(p: Problem, q: Query, r: seq<Range>)
    requires p.Valid() && |r| == p.Size() && q.a.VarsBelow(p.Size()) && q.b.VarsBelow(p.Size()) && AllBounded(r)
    requires !Fails(p, q, r) && !EvalTerm(p, q.a, r).IsEmpty() && !EvalTerm(p, q.b, r).IsEmpty()
    ensures (forall a, b :: Holds(EvalTerm(p, q.a, r), a) && Holds(EvalTerm(p, q.b, r), b) ==> a >= b) <==>
            !Blind(EvalTerm(p, q.a, r), EvalTerm(p, q.b, r))
  {
    var x, y := EvalTerm(p, q.a, r), EvalTerm(p, q.b, r);
    EvalTermBounded(p, q.a, r);
    EvalTermBounded(p, q.b, r);
    if x.lo >= INF && y.hi >= INF {
      assert Holds(x, INF) && Holds(y, INF + 1);
    }
    if x.lo <= NEGINF && y.hi <= NEGINF {
      assert Holds(x, NEGINF - 1) && Holds(y, NEGINF);
    }
  }

  // ----- exactness and monotonicity of acyclic verdicts -----

  lemma AcyclicVerdict(p: Problem, cs: seq<seq<VarId>>, rank: seq<nat>, q: Query)
    requires p.Valid() && Layers(p, cs, rank) && Discrete(p, cs) && q.a.VarsBelow(p.Size()) && q.b.VarsBelow(p.Size())
    ensures Fails(p, q, Final(p, cs)) <==> Fails(p, q, LeastSolution(p))
  {
    AcyclicIsExact(p, cs, rank);
    RunBounded(p, cs, |cs|);
    LeastSolutionIsLeast(p);
    assert Below(Final(p, cs), LeastSolution(p)) && Below(LeastSolution(p), Final(p, cs));
    if Fails(p, q, Final(p, cs)) { FailsMonotone(p, q, Final(p, cs), LeastSolution(p)); }
    if Fails(p, q, LeastSolution(p)) { FailsMonotone(p, q, LeastSolution(p), Final(p, cs)); }
  }

  // On an acyclic system a query is reported exactly when the least solution violates it.
  lemma AcyclicVerdictIsExact(p: Problem, cs: seq<seq<VarId>>, rank: seq<nat>, q: Query)
    requires p.Valid() && Layers(p, cs, rank) && Discrete(p, cs) && q.a.VarsBelow(p.Size()) && q.b.VarsBelow(p.Size())
    ensures Fails(p, q, Final(p, cs)) <==>
              exists a, b :: InRange(EvalTerm(p, q.a, LeastSolution(p)), a)
                && InRange(EvalTerm(p, q.b, LeastSolution(p)), b) && a < b
  {
    AcyclicVerdict(p, cs, rank, q);
    LeastSolutionIsLeast(p);
    FailsMeansViolated(p, q, LeastSolution(p));
  }

  // `p'` has the variables, pins, floors and canon table of `p`, and at least its constraints.
  ghost predicate Extends(p: Problem, p': Problem) {
    && p'.names == p.names && p'.canon == p.canon && p'.fixed == p.fixed && p'.hardLo == p.hardLo
    && forall i :: 0 <= i < |p.constraints| ==> p.constraints[i] in p'.constraints
  }

  lemma {:induction false} SmallerInflow(p: Problem, p': Problem, k: nat, v: VarId, r: seq<Range>)
    requires p.Valid() && p'.Valid() && Extends(p, p') && |r| == p.Size() && k <= |p.constraints|
    ensures Leq(Inflow(p, k, v, r), Inflow(p', |p'.constraints|, v, r))
  {
    if k > 0 {
      SmallerInflow(p, p', k - 1, v, r);
      var c := p.constraints[k - 1];
      if p.canon[c.target] == v {
        var i :| 0 <= i < |p'.constraints| && p'.constraints[i] == c;
        InflowCovers(p', |p'.constraints|, i, v, r);
        SameEvaluation(p, p', c, r);
      }
    }
  }

  lemma {:induction false} SameEvaluation(p: Problem, p': Problem, c: Constraint, r: seq<Range>)
    requires p.Valid() && p'.Valid() && Extends(p, p') && |r| == p.Size() && ConstraintBelow(c, p.Size())
    ensures EvalConstraint(p, c, r) == EvalConstraint(p', c, r)
  {
    match c
    case Subset(lhs, _) => SameSlots(p, p', lhs.terms, lhs.konst, r);
    case MinSubset(items, _) => SameItems(p, p', items, r);
  }

  lemma {:induction false} SameSlots(p: Problem, p': Problem, slots: seq<Slot>, konst: int, r: seq<Range>)
    requires p.Valid() && p'.Valid() && Extends(p, p') && |r| == p.Size()
    requires forall k :: 0 <= k < |slots| ==> slots[k].v < p.Size()
    ensures EvalSlots(p, slots, konst, r) == EvalSlots(p', slots, konst, r)
  {
    if slots != [] { SameSlots(p, p', slots[..|slots| - 1], konst, r); }
  }

  lemma {:induction false} SameItems(p: Problem, p': Problem, items: seq<MinItem>, r: seq<Range>)
    requires p.Valid() && p'.Valid() && Extends(p, p') && |r| == p.Size()
    requires forall k :: 0 <= k < |items| && items[k].MinTerm? ==> items[k].v < p.Size()
    ensures EvalItems(p, items, r) == EvalItems(p', items, r)
  {
    if items != [] { SameItems(p, p', items[..|items| - 1], r); }
  }

  lemma {:induction false} SamePinsAmong(p: Problem, p': Problem, fixed: seq<(VarId, Range)>, v: VarId)
    requires p.Valid() && p'.Valid() && Extends(p, p') && forall i :: 0 <= i < |fixed| ==> fixed[i].0 < p.Size()
    ensures PinAmong(p, fixed, v) == PinAmong(p', fixed, v)
  {
    if fixed != [] { SamePinsAmong(p, p', fixed[..|fixed| - 1], v); }
  }

  lemma {:induction false} SameFloorsAmong(p: Problem, p': Problem, hardLo: seq<(VarId, int)>, v: VarId)
    requires p.Valid() && p'.Valid() && Extends(p, p') && forall i :: 0 <= i < |hardLo| ==> hardLo[i].0 < p.Size()
    ensures FloorAmong(p, hardLo, v) == FloorAmong(p', hardLo, v)
  {
    if hardLo != [] { SameFloorsAmong(p, p', hardLo[..|hardLo| - 1], v); }
  }

  // Adding constraints only grows the least solution.
  lemma LeastSolutionMonotone(p: Problem, p': Problem)
    requires p.Valid() && p'.Valid() && Extends(p, p')
    ensures Below(LeastSolution(p), LeastSolution(p'))
  {
    var l := LeastSolution(p');
    LeastSolutionIsLeast(p');
    forall v | 0 <= v < p.Size()
      ensures match Pin(p, v) case Some(pin) => l[v] == pin case None => Leq(Apply(p, v, l), l[v])
    {
      SamePinsAmong(p, p', p.fixed, v);
      SameFloorsAmong(p, p', p.hardLo, v);
      SmallerInflow(p, p', |p.constraints|, v, l);
      if Pin(p, v).None? { LeqTransitive(Apply(p, v, l), Apply(p', v, l), l[v]); }
    }
    LeastSolutionIsLeast(p);
  }

  // Between two acyclic systems, a reported violation never disappears when constraints are added.
  lemma ReportsMonotone(p: Problem, cs: seq<seq<VarId>>, rank: seq<nat>, p': Problem, cs': seq<seq<VarId>>,
                        rank': seq<nat>, q: Query)
    requires p.Valid() && Layers(p, cs, rank) && Discrete(p, cs)
    requires p'.Valid() && Layers(p', cs', rank') && Discrete(p', cs')
    requires Extends(p, p') && q.a.VarsBelow(p.Size()) && q.b.VarsBelow(p.Size()) && Fails(p, q, Final(p, cs))
    ensures Fails(p', q, Final(p', cs'))
  {
    AcyclicVerdict(p, cs, rank, q);
    AcyclicVerdict(p', cs', rank', q);
    LeastSolutionMonotone(p, p');
    KleeneBounded(p, Limit(p));
    KleeneBounded(p', Limit(p'));
    FailsMonotone(p, q, LeastSolution(p), LeastSolution(p'));
    SameSlots(p, p', q.a.terms, q.a.konst, LeastSolution(p'));
    SameSlots(p, p', q.b.terms, q.b.konst, LeastSolution(p'));
  }

  // ----- unbounded lengths -----

  // A buffer whose length grows without bound (`gets`) is reported in every run, converged or not, as soon as
  // its size may be finite.
  lemma UnboundedLengthIsReported(p: Problem, cs: seq<seq<VarId>>, rank: seq<nat>, siz: VarId, len: VarId,
                                  kind: QueryKind)
    requires p.Valid() && Layers(p, cs, rank) && siz < p.Size() && len < p.Size()
    requires var v := p.canon[len]; Pin(p, v).None? && Floor(p, v).None? && Grows(p, v)
    requires var s := Final(p, cs)[p.canon[siz]]; !s.IsEmpty() && s.lo < INF
    ensures Fails(p, Query(VarTerm(siz), VarTerm(len), kind), Final(p, cs))
  {
    var r := Final(p, cs);
    RunBounded(p, cs, |cs|);
    UnboundedStaysUnbounded(p, cs, rank, p.canon[len]);
    VarTermEvaluates(p, siz, r);
    VarTermEvaluates(p, len, r);
  }

  lemma VarTermEvaluates(p: Problem, v: VarId, r: seq<Range>)
    requires p.Valid() && |r| == p.Size() && v < p.Size() && AllBounded(r)
    ensures Same(EvalTerm(p, VarTerm(v), r), r[p.canon[v]])
    ensures !r[p.canon[v]].IsEmpty() ==> EvalTerm(p, VarTerm(v), r) == r[p.canon[v]]
  {
    var slots := [Slot(1, v)];
    assert slots[..0] == [];
    assert EvalSlots(p, slots, 0, r) == Add(EvalSlots(p, [], 0, r), Mul(1, r[p.canon[v]]));
    var x := r[p.canon[v]];
    if !x.IsEmpty() {
      MulEpIsClampedProduct(1, x.lo);
      MulEpIsClampedProduct(1, x.hi);
    }
  }
}
