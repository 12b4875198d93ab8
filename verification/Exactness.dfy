/**
 What a step of the walk adds, exactly: which solutions of the constraints so far extend to the new ones, and what the
 new terms must be under them. Soundness says that a solution leaves out nothing a run does; here it is shown to take in
 nothing more than the step asks for.
 */
module Exactness {
  import opened Ranges
  import opened Terms
  import opened Problems
  import opened Solve
  import opened Verdicts
  import opened Systems

  // ----- solutions of growing systems -----

  ghost predicate Solved(s: Sys, r: seq<Range>) { s.Valid() && s.hardLo == [] && Solution(s.Snapshot(), r) }

  // Nothing is asked of a class that is pinned.
  ghost predicate Meets(s: Sys, c: Constraint, r: seq<Range>)
    requires s.Valid() && |r| == s.Size() && ConstraintBelow(c, s.Size())
  {
    Pin(s.Snapshot(), s.root[c.target]).None? ==> Leq(EvalConstraint(s.Snapshot(), c, r), r[s.root[c.target]])
  }

  // One more constraint.
  function With(s: Sys, c: Constraint): Sys { s.(constraints := s.constraints + [c]) }

  lemma WithSolved(s: Sys, c: Constraint, r: seq<Range>)
    requires s.Valid() && s.hardLo == [] && |r| == s.Size() && ConstraintBelow(c, s.Size())
    ensures With(s, c).Valid() && (Solved(With(s, c), r) <==> Solved(s, r) && Meets(s, c, r))
  {
    var t := With(s, c);
    MoreConstraints(s.Snapshot(), t.Snapshot(), c);
    SolutionMeansSatisfied(s.Snapshot(), r);
    SolutionMeansSatisfied(t.Snapshot(), r);
    SamePins(s.Snapshot(), t.Snapshot());
    var n := |s.constraints|;
    assert t.constraints[n] == c;
    forall i | 0 <= i < n ensures t.constraints[i] == s.constraints[i]
      && EvalConstraint(t.Snapshot(), t.constraints[i], r) == EvalConstraint(s.Snapshot(), s.constraints[i], r)
    {
      SameEval(s.Snapshot(), t.Snapshot(), s.constraints[i], r, r);
    }
    SameEval(s.Snapshot(), t.Snapshot(), c, r, r);
  }

  // Pins depend on the classes and the pins listed.
  lemma SamePins(p: Problem, q: Problem)
    requires p.Valid() && q.Valid() && p.canon <= q.canon && p.fixed == q.fixed
    ensures forall v :: Pin(q, v) == Pin(p, v)
  {
    forall v ensures Pin(q, v) == Pin(p, v) { SamePinsAmong(p, q, p.fixed, v); }
  }

  lemma {:induction false} SamePinsAmong(p: Problem, q: Problem, fixed: seq<(VarId, Range)>, v: VarId)
    requires p.Valid() && q.Valid() && p.canon <= q.canon && forall i :: 0 <= i < |fixed| ==> fixed[i].0 < p.Size()
    ensures PinAmong(q, fixed, v) == PinAmong(p, fixed, v)
  {
    if fixed != [] { SamePinsAmong(p, q, fixed[..|fixed| - 1], v); }
  }

  // A constraint over old variables evaluates to the same in a wider problem.
  lemma SameEval(p: Problem, q: Problem, c: Constraint, r: seq<Range>, r': seq<Range>)
    requires p.Valid() && q.Valid() && p.canon <= q.canon && ConstraintBelow(c, p.Size())
    requires |r| == p.Size() && |r'| == q.Size() && r <= r' && ConstraintBelow(c, q.Size())
    ensures EvalConstraint(q, c, r') == EvalConstraint(p, c, r)
  {
    match c
    case Subset(lhs, _) => SameSlots(p, q, lhs.terms, lhs.konst, r, r');
    case MinSubset(items, _) => SameItems(p, q, items, r, r');
  }

  lemma {:induction false} SameSlots(p: Problem, q: Problem, slots: seq<Slot>, konst: int, r: seq<Range>,
                                     r': seq<Range>)
    requires p.Valid() && q.Valid() && p.canon <= q.canon && forall k :: 0 <= k < |slots| ==> slots[k].v < p.Size()
    requires |r| == p.Size() && |r'| == q.Size() && r <= r'
    ensures EvalSlots(q, slots, konst, r') == EvalSlots(p, slots, konst, r)
  {
    if slots != [] { SameSlots(p, q, slots[..|slots| - 1], konst, r, r'); }
  }

  lemma {:induction false} SameItems(p: Problem, q: Problem, items: seq<MinItem>, r: seq<Range>, r': seq<Range>)
    requires p.Valid() && q.Valid() && p.canon <= q.canon
    requires forall k :: 0 <= k < |items| && items[k].MinTerm? ==> items[k].v < p.Size()
    requires |r| == p.Size() && |r'| == q.Size() && r <= r'
    ensures EvalItems(q, items, r') == EvalItems(p, items, r)
  {
    if items != [] { SameItems(p, q, items[..|items| - 1], r, r'); }
  }

  // A term over old variables evaluates to the same in a grown system.
  lemma SameTerm(s: Sys, s': Sys, t: Term, r: seq<Range>, r': seq<Range>)
    requires s.Valid() && s'.Valid() && s.root <= s'.root && t.VarsBelow(s.Size()) && t.VarsBelow(s'.Size())
    requires |r| == s.Size() && |r'| == s'.Size() && r <= r'
    ensures EvalTerm(s'.Snapshot(), t, r') == EvalTerm(s.Snapshot(), t, r)
  {
    SameSlots(s.Snapshot(), s'.Snapshot(), t.terms, t.konst, r, r');
  }

  // A fresh variable may take any range.
  lemma FreshSolved(s: Sys, name: Option<string>, r: seq<Range>, x: Range)
    requires Solved(s, r) && x.Bounded()
    ensures Solved(s.Fresh(name).0, r + [x])
  {
    var t, r' := s.Fresh(name).0, r + [x];
    FreshGrows(s, name);
    var p, q := s.Snapshot(), t.Snapshot();
    SamePins(p, q);
    SolutionMeansSatisfied(p, r);
    SolutionMeansSatisfied(q, r');
    PinIsListed(p, p.fixed, s.Size());
    assert Pin(q, s.Size()).None?;
    forall v | 0 <= v < |r'| ensures r'[v].Bounded() {}
    forall i | 0 <= i < |q.constraints| && Pin(q, q.canon[q.constraints[i].target]).None?
      ensures Leq(EvalConstraint(q, q.constraints[i], r'), r'[q.canon[q.constraints[i].target]])
    {
      assert ConstraintBelow(p.constraints[i], p.Size());
      SameEval(p, q, p.constraints[i], r, r');
    }
  }

  // A system that has only grown, without new pins or merged classes.
  ghost predicate Prolongs(s: Sys, s': Sys) {
    && s.Valid() && s'.Valid() && s.hardLo == [] && s'.hardLo == []
    && s.names <= s'.names && s.root <= s'.root && s.constraints <= s'.constraints && s.fixed == s'.fixed
    && (forall v :: s.Size() <= v < s'.Size() ==> s'.root[v] == v)
  }

  lemma ProlongsTransitive(s: Sys, t: Sys, u: Sys)
    requires Prolongs(s, t) && Prolongs(t, u)
    ensures Prolongs(s, u)
  {
    forall v | s.Size() <= v < u.Size() ensures u.root[v] == v {
      if v < t.Size() { assert t.root[v] == v; }
    }
  }

  // Its solutions, cut down to the old variables, solve the old system.
  lemma CutSolved(s: Sys, s': Sys, r': seq<Range>)
    requires Prolongs(s, s') && Solved(s', r')
    ensures Solved(s, r'[..s.Size()])
  {
    var p, q, r := s.Snapshot(), s'.Snapshot(), r'[..s.Size()];
    SamePins(p, q);
    SolutionMeansSatisfied(p, r);
    SolutionMeansSatisfied(q, r');
    forall i | 0 <= i < |p.constraints| && Pin(p, p.canon[p.constraints[i].target]).None?
      ensures Leq(EvalConstraint(p, p.constraints[i], r), r[p.canon[p.constraints[i].target]])
    {
      assert q.constraints[i] == p.constraints[i] && ConstraintBelow(p.constraints[i], p.Size());
      SameEval(p, q, p.constraints[i], r, r');
    }
  }

  // ----- sums of non-negative parts -----

  predicate IsUp(x: Range) { 0 <= x.lo <= x.hi <= INF }

  // Positive multiples of variables whose ranges are non-negative.
  ghost predicate UpTerm(p: Problem, t: Term, r: seq<Range>)
    requires p.Valid() && |r| == p.Size()
  {
    t.konst >= 0 && forall i :: 0 <= i < |t.terms| ==> UpSlot(p, t.terms[i], r)
  }

  ghost predicate UpSlot(p: Problem, slot: Slot, r: seq<Range>)
    requires p.Valid() && |r| == p.Size()
  {
    slot.coeff > 0 && slot.v < p.Size() && IsUp(r[p.canon[slot.v]])
  }

  // Every variable at the lower, or the upper, end of its range.
  function Low(p: Problem, r: seq<Range>): VarId -> int {
    (v: VarId) => if v < |p.canon| && p.canon[v] < |r| then r[p.canon[v]].lo else 0
  }

  function High(p: Problem, r: seq<Range>): VarId -> int {
    (v: VarId) => if v < |p.canon| && p.canon[v] < |r| then r[p.canon[v]].hi else 0
  }

  // Such a term evaluates to its values at the ends, clamped once.
  lemma {:induction false} UpTermEvaluates(p: Problem, t: Term, r: seq<Range>)
    requires p.Valid() && |r| == p.Size() && UpTerm(p, t, r)
    ensures 0 <= Value(t, Low(p, r)) <= Value(t, High(p, r)) && t.VarsBelow(p.Size())
    ensures EvalTerm(p, t, r) == Range(Clamp(Value(t, Low(p, r))), Clamp(Value(t, High(p, r))))
    decreases |t.terms|
  {
    if t.terms != [] {
      var init, last := t.terms[..|t.terms| - 1], t.terms[|t.terms| - 1];
      assert UpSlot(p, last, r);
      assert forall i :: 0 <= i < |init| ==> init[i] == t.terms[i];
      UpTermEvaluates(p, Term(init, t.konst), r);
      assert t.terms == init + [last];
      SumSnoc(init, last, Low(p, r));
      SumSnoc(init, last, High(p, r));
      UpStep(last.coeff, r[p.canon[last.v]], Value(Term(init, t.konst), Low(p, r)),
             Value(Term(init, t.konst), High(p, r)));
    }
  }

  lemma UpStep(c: int, x: Range, lo: int, hi: int)
    requires c > 0 && IsUp(x) && 0 <= lo <= hi
    ensures Add(Range(Clamp(lo), Clamp(hi)), Mul(c, x)) == Range(Clamp(lo + c * x.lo), Clamp(hi + c * x.hi))
    ensures 0 <= c * x.lo <= c * x.hi
  {
    MulEpIsClampedProduct(c, x.lo);
    MulEpIsClampedProduct(c, x.hi);
    UpProduct(c, x.lo, x.hi);
    ClampsAdd(lo, c * x.lo, NEGINF);
    ClampsAdd(hi, c * x.hi, INF);
  }

  lemma UpProduct(c: int, a: int, b: int)
    requires c > 0 && 0 <= a <= b
    ensures 0 <= c * a <= c * b
  {
    assert c * b == c * a + c * (b - a);
  }

  lemma ClampsAdd(a: int, b: int, bad: int)
    requires a >= 0 && b >= 0
    ensures AddEp(Clamp(a), Clamp(b), bad) == Clamp(a + b)
  {
  }

  lemma {:induction false} AddSlotUp(p: Problem, slots: seq<Slot>, c: int, v: VarId, r: seq<Range>)
    requires p.Valid() && |r| == p.Size() && UpTerm(p, Term(slots, 0), r) && UpSlot(p, Slot(c, v), r)
    ensures UpTerm(p, Term(AddSlot(slots, c, v), 0), r)
  {
    if slots != [] {
      var rest := slots[1..];
      assert UpSlot(p, Term(slots, 0).terms[0], r);
      forall i | 0 <= i < |rest| ensures UpSlot(p, rest[i], r) { assert UpSlot(p, Term(slots, 0).terms[i + 1], r); }
      AddSlotUp(p, rest, c, v, r);
      forall i | 0 <= i < |AddSlot(slots, c, v)| ensures UpSlot(p, AddSlot(slots, c, v)[i], r) {
        if i > 0 {
          if slots[0].v == v && SameSign(slots[0].coeff, c) {
            assert UpSlot(p, Term(slots, 0).terms[i], r);
          } else {
            assert UpSlot(p, Term(AddSlot(rest, c, v), 0).terms[i - 1], r);
          }
        }
      }
    }
  }

  lemma {:induction false} AddSlotsUp(p: Problem, slots: seq<Slot>, more: seq<Slot>, r: seq<Range>)
    requires p.Valid() && |r| == p.Size() && UpTerm(p, Term(slots, 0), r) && UpTerm(p, Term(more, 0), r)
    ensures UpTerm(p, Term(AddSlots(slots, more), 0), r)
  {
    if more != [] {
      var init, last := more[..|more| - 1], more[|more| - 1];
      assert UpSlot(p, Term(more, 0).terms[|more| - 1], r);
      forall i | 0 <= i < |init| ensures UpSlot(p, init[i], r) { assert UpSlot(p, Term(more, 0).terms[i], r); }
      AddSlotsUp(p, slots, init, r);
      AddSlotUp(p, AddSlots(slots, init), last.coeff, last.v, r);
    }
  }

  // Sums of such terms are such terms, and their ends add up.
  lemma PlusUp(p: Problem, t: Term, u: Term, r: seq<Range>)
    requires p.Valid() && |r| == p.Size() && UpTerm(p, t, r) && UpTerm(p, u, r)
    ensures UpTerm(p, t.Plus(u), r)
    ensures Value(t.Plus(u), Low(p, r)) == Value(t, Low(p, r)) + Value(u, Low(p, r))
    ensures Value(t.Plus(u), High(p, r)) == Value(t, High(p, r)) + Value(u, High(p, r))
  {
    assert UpTerm(p, Term(t.terms, 0), r) && UpTerm(p, Term(u.terms, 0), r);
    AddSlotsUp(p, t.terms, u.terms, r);
    forall i | 0 <= i < |t.Plus(u).terms| ensures UpSlot(p, t.Plus(u).terms[i], r) {
      assert UpSlot(p, Term(AddSlots(t.terms, u.terms), 0).terms[i], r);
    }
    TermArithmetic(t, u, 0, Low(p, r));
    TermArithmetic(t, u, 0, High(p, r));
  }

  // ----- inclusion -----

  lemma IncludeIsWith(s: Sys, t: Term, v: VarId)
    ensures s.Include(t, VarTerm(v)) == With(s, Subset(t, v))
  {
    var rhs := VarTerm(v);
    assert Term(rhs.terms[1..], rhs.konst) == Constant(0);
    PlusConstant(t, 0);
  }

  // Including a term into a bare variable asks that its range be contained, and nothing else.
  lemma IncludeAsks(s: Sys, t: Term, v: VarId, r: seq<Range>)
    requires s.Valid() && s.hardLo == [] && |r| == s.Size() && t.VarsBelow(s.Size()) && v < s.Size()
    ensures var s' := s.Include(t, VarTerm(v));
            && s'.Valid() && s'.hardLo == [] && Prolongs(s, s')
            && (Solved(s', r) <==> Solved(s, r) && (Pin(s.Snapshot(), s.root[v]).None? ==>
                  Leq(EvalTerm(s.Snapshot(), t, r), r[s.root[v]])))
  {
    IncludeIsWith(s, t, v);
    WithSolved(s, Subset(t, v), r);
  }

  // The last variable, fresh and alone.
  lemma FreshIsFree(s: Sys, name: Option<string>)
    requires s.Valid() && s.hardLo == []
    ensures var s0 := s.Fresh(name).0;
            && s0.Valid() && Prolongs(s, s0) && s0.root[s.Size()] == s.Size() && Pin(s0.Snapshot(), s.Size()).None?
  {
    FreshGrows(s, name);
    var s0 := s.Fresh(name).0;
    SamePins(s.Snapshot(), s0.Snapshot());
    PinIsListed(s.Snapshot(), s.fixed, s.Size());
  }

  // ----- unions -----

  // A union may be the hull of its operands, and can be nothing less.
  lemma UnionReaches(s: Sys, x: Term, y: Term, r: seq<Range>)
    requires Solved(s, r) && x.VarsBelow(s.Size()) && y.VarsBelow(s.Size())
    ensures var p, s' := s.Snapshot(), s.UnionOf(x, y).0;
            Prolongs(s, s') && s'.Size() == s.Size() + 1 && Solved(s', r + [Hull(EvalTerm(p, x, r), EvalTerm(p, y, r))])
  {
    var h := Hull(EvalTerm(s.Snapshot(), x, r), EvalTerm(s.Snapshot(), y, r));
    var (s0, z) := s.Fresh(None);
    var r' := r + [h];
    EvalTermBounded(s.Snapshot(), x, r);
    EvalTermBounded(s.Snapshot(), y, r);
    FreshSolved(s, None, r, h);
    FreshIsFree(s, None);
    SameTerm(s, s0, x, r, r');
    SameTerm(s, s0, y, r, r');
    IncludeAsks(s0, x, s.Size(), r');
    var s1 := s0.Include(x, z);
    SamePins(s0.Snapshot(), s1.Snapshot());
    SameTerm(s0, s1, y, r', r');
    IncludeAsks(s1, y, s.Size(), r');
  }

  lemma UnionNeeds(s: Sys, x: Term, y: Term, r': seq<Range>)
    requires s.Valid() && s.hardLo == [] && x.VarsBelow(s.Size()) && y.VarsBelow(s.Size())
    requires Solved(s.UnionOf(x, y).0, r')
    ensures var s', r := s.UnionOf(x, y).0, r'[..s.Size()];
            && Prolongs(s, s') && Solved(s, r)
            && Leq(Hull(EvalTerm(s.Snapshot(), x, r), EvalTerm(s.Snapshot(), y, r)), r'[s.Size()])
  {
    var (s0, z) := s.Fresh(None);
    var r := r'[..s.Size()];
    FreshIsFree(s, None);
    IncludeAsks(s0, x, s.Size(), r');
    var s1 := s0.Include(x, z);
    SamePins(s0.Snapshot(), s1.Snapshot());
    IncludeAsks(s1, y, s.Size(), r');
    ProlongsTransitive(s, s0, s1);
    ProlongsTransitive(s, s1, s.UnionOf(x, y).0);
    CutSolved(s, s.UnionOf(x, y).0, r');
    SameTerm(s, s0, x, r, r');
    SameTerm(s, s1, y, r, r');
  }

  // ----- minima -----

  // An item of a `min` may evaluate to its term, and to nothing less.
  lemma ItemReaches(s: Sys, t: Term, r: seq<Range>) returns (r': seq<Range>)
    requires Solved(s, r) && t.VarsBelow(s.Size())
    ensures var (s', i) := s.MinItemOf(t);
            && Prolongs(s, s') && Solved(s', r') && r <= r' && (i.MinTerm? ==> i.v < s'.Size())
            && Same(EvalItem(s'.Snapshot(), i, r'), EvalTerm(s.Snapshot(), t, r))
            && EvalItem(s'.Snapshot(), i, r').Bounded()
  {
    var (s', i) := s.MinItemOf(t);
    r' := r;
    EvalTermBounded(s.Snapshot(), t, r);
    if t.IsConstant() {
    } else if t.SingleVar().Some? {
      var v := t.SingleVar().value;
      assert t.terms == [Slot(1, v)] && t.terms[0].v < s.Size();
      VarTermEvaluates(s.Snapshot(), v, r);
      TimesOne(r[s.root[v]]);
    } else {
      var x := EvalTerm(s.Snapshot(), t, r);
      var s0 := s.Fresh(None).0;
      r' := r + [x];
      FreshSolved(s, None, r, x);
      FreshIsFree(s, None);
      SameTerm(s, s0, t, r, r');
      IncludeAsks(s0, t, s.Size(), r');
      ProlongsTransitive(s, s0, s');
      TimesOne(x);
    }
  }

  lemma TimesOne(x: Range)
    requires x.Bounded()
    ensures Same(Mul(1, x), x) && Mul(1, x).Bounded()
  {
    if !x.IsEmpty() {
      MulEpIsClampedProduct(1, x.lo);
      MulEpIsClampedProduct(1, x.hi);
    }
  }

  lemma ItemNeeds(s: Sys, t: Term, r': seq<Range>)
    requires s.Valid() && s.hardLo == [] && t.VarsBelow(s.Size()) && Solved(s.MinItemOf(t).0, r')
    ensures var (s', i) := s.MinItemOf(t); var r := r'[..s.Size()];
            && Prolongs(s, s') && Solved(s, r) && (i.MinTerm? ==> i.v < s'.Size())
            && Leq(EvalTerm(s.Snapshot(), t, r), EvalItem(s'.Snapshot(), i, r'))
            && EvalItem(s'.Snapshot(), i, r').Bounded()
  {
    var (s', i) := s.MinItemOf(t);
    var r := r'[..s.Size()];
    if t.IsConstant() {
      assert r == r';
    } else if t.SingleVar().Some? {
      var v := t.SingleVar().value;
      assert r == r' && t.terms == [Slot(1, v)] && t.terms[0].v < s.Size();
      VarTermEvaluates(s.Snapshot(), v, r);
      TimesOne(r[s.root[v]]);
    } else {
      var s0 := s.Fresh(None).0;
      FreshIsFree(s, None);
      IncludeAsks(s0, t, s.Size(), r');
      ProlongsTransitive(s, s0, s');
      CutSolved(s, s', r');
      SameTerm(s, s0, t, r, r');
      TimesOne(r'[s.Size()]);
    }
  }

  lemma TwoItems(p: Problem, i: MinItem, j: MinItem, r: seq<Range>)
    requires p.Valid() && |r| == p.Size() && (i.MinTerm? ==> i.v < p.Size()) && (j.MinTerm? ==> j.v < p.Size())
    requires EvalItem(p, i, r).Bounded() && EvalItem(p, j, r).Bounded()
    ensures Same(EvalItems(p, [i, j], r), RMin(EvalItem(p, i, r), EvalItem(p, j, r)))
  {
    assert [i, j][..1] == [i] && [i][..0] == [];
    assert EvalItems(p, [i], r) == RMin(EvalItems(p, [], r), EvalItem(p, i, r));
  }

  // What `MinOf` adds once the items are in place.
  lemma MinIsWith(s: Sys, x: Term, y: Term)
    ensures var s0 := s.Fresh(None).0; var (s1, a) := s0.MinItemOf(x); var (s2, b) := s1.MinItemOf(y);
            s.MinOf(x, y) == (With(s2, MinSubset([a, b], s.Size())), VarTerm(s.Size()))
  {
  }

  lemma SameItem(s: Sys, s': Sys, i: MinItem, r: seq<Range>, r': seq<Range>)
    requires Prolongs(s, s') && |r| == s.Size() && |r'| == s'.Size() && r <= r' && (i.MinTerm? ==> i.v < s.Size())
    ensures EvalItem(s'.Snapshot(), i, r') == EvalItem(s.Snapshot(), i, r)
  {
  }

  lemma ItemProlongs(s: Sys, t: Term)
    requires s.Valid() && s.hardLo == [] && t.VarsBelow(s.Size())
    ensures var (s', i) := s.MinItemOf(t); Prolongs(s, s') && (i.MinTerm? ==> i.v < s'.Size())
  {
    ItemGrows(s, t);
    FreshIsFree(s, None);
  }

  // The constraint on two items asks that the smaller of them be contained, and nothing else.
  lemma MinAsks(s: Sys, a: MinItem, b: MinItem, v: VarId, r: seq<Range>)
    requires s.Valid() && s.hardLo == [] && |r| == s.Size() && v < s.Size()
    requires (a.MinTerm? ==> a.v < s.Size()) && (b.MinTerm? ==> b.v < s.Size())
    requires EvalItem(s.Snapshot(), a, r).Bounded() && EvalItem(s.Snapshot(), b, r).Bounded()
    ensures var s' := With(s, MinSubset([a, b], v));
            && Prolongs(s, s')
            && (Solved(s', r) <==> Solved(s, r) && (Pin(s.Snapshot(), s.root[v]).None? ==>
                  Leq(RMin(EvalItem(s.Snapshot(), a, r), EvalItem(s.Snapshot(), b, r)), r[s.root[v]])))
  {
    WithSolved(s, MinSubset([a, b], v), r);
    TwoItems(s.Snapshot(), a, b, r);
  }

  // Two items in a row.
  lemma ItemsReach(s: Sys, x: Term, y: Term, r: seq<Range>) returns (r': seq<Range>)
    requires Solved(s, r) && x.VarsBelow(s.Size()) && y.VarsBelow(s.Size())
    ensures var (s1, a) := s.MinItemOf(x); var (s2, b) := s1.MinItemOf(y); var p := s.Snapshot();
            && Prolongs(s, s2) && Solved(s2, r') && r <= r'
            && (a.MinTerm? ==> a.v < s2.Size()) && (b.MinTerm? ==> b.v < s2.Size())
            && Same(EvalItem(s2.Snapshot(), a, r'), EvalTerm(p, x, r))
            && Same(EvalItem(s2.Snapshot(), b, r'), EvalTerm(p, y, r))
            && EvalItem(s2.Snapshot(), a, r').Bounded() && EvalItem(s2.Snapshot(), b, r').Bounded()
  {
    var r1 := ItemReaches(s, x, r);
    var (s1, a) := s.MinItemOf(x);
    SameTerm(s, s1, y, r, r1);
    r' := ItemReaches(s1, y, r1);
    var (s2, b) := s1.MinItemOf(y);
    SameItem(s1, s2, a, r1, r');
    ProlongsTransitive(s, s1, s2);
  }

  lemma ItemsNeed(s: Sys, x: Term, y: Term, r': seq<Range>)
    requires s.Valid() && s.hardLo == [] && x.VarsBelow(s.Size()) && y.VarsBelow(s.Size())
    requires var s1 := s.MinItemOf(x).0; Solved(s1.MinItemOf(y).0, r')
    ensures var (s1, a) := s.MinItemOf(x); var (s2, b) := s1.MinItemOf(y); var p, r := s.Snapshot(), r'[..s.Size()];
            && Prolongs(s, s2) && Solved(s, r)
            && (a.MinTerm? ==> a.v < s2.Size()) && (b.MinTerm? ==> b.v < s2.Size())
            && Leq(EvalTerm(p, x, r), EvalItem(s2.Snapshot(), a, r'))
            && Leq(EvalTerm(p, y, r), EvalItem(s2.Snapshot(), b, r'))
            && EvalItem(s2.Snapshot(), a, r').Bounded() && EvalItem(s2.Snapshot(), b, r').Bounded()
  {
    var (s1, a) := s.MinItemOf(x);
    ItemProlongs(s, x);
    var (s2, b) := s1.MinItemOf(y);
    ItemProlongs(s1, y);
    ProlongsTransitive(s, s1, s2);
    CutSolved(s1, s2, r');
    var r1 := r'[..s1.Size()];
    ItemNeeds(s, x, r1);
    ItemNeeds(s1, y, r');
    SameItem(s1, s2, a, r1, r');
    assert r1[..s.Size()] == r'[..s.Size()];
    SameTerm(s, s1, y, r'[..s.Size()], r1);
  }

  // The systems a minimum goes through.
  lemma MinLayout(s: Sys, x: Term, y: Term) returns (s2: Sys, a: MinItem, b: MinItem)
    requires s.Valid() && s.hardLo == [] && x.VarsBelow(s.Size()) && y.VarsBelow(s.Size())
    ensures var s0 := s.Fresh(None).0;
            && Prolongs(s, s0) && Prolongs(s0, s2) && Prolongs(s, s2)
            && s2 == s0.MinItemOf(x).0.MinItemOf(y).0 && a == s0.MinItemOf(x).1 && b == s0.MinItemOf(x).0.MinItemOf(y).1
    ensures s.MinOf(x, y).0 == With(s2, MinSubset([a, b], s.Size()))
    ensures s.Size() < s2.Size() && s2.root[s.Size()] == s.Size() && Pin(s2.Snapshot(), s.Size()).None?
    ensures (a.MinTerm? ==> a.v < s2.Size()) && (b.MinTerm? ==> b.v < s2.Size())
  {
    var s0 := s.Fresh(None).0;
    FreshIsFree(s, None);
    var s1: Sys;
    s1, a := s0.MinItemOf(x).0, s0.MinItemOf(x).1;
    ItemProlongs(s0, x);
    s2, b := s1.MinItemOf(y).0, s1.MinItemOf(y).1;
    ItemProlongs(s1, y);
    ProlongsTransitive(s0, s1, s2);
    ProlongsTransitive(s, s0, s2);
    MinIsWith(s, x, y);
    SamePins(s0.Snapshot(), s2.Snapshot());
    assert s2.root[s.Size()] == s0.root[s.Size()];
  }

  lemma SameRMin(x: Range, y: Range, a: Range, b: Range)
    requires x.Bounded() && y.Bounded() && a.Bounded() && b.Bounded()
    ensures Same(a, x) && Same(b, y) ==> Same(RMin(a, b), RMin(x, y))
    ensures Leq(x, a) && Leq(y, b) ==> Leq(RMin(x, y), RMin(a, b))
  {
  }

  // A minimum may be the `rmin` of its operands, and can be nothing less.
  lemma MinReaches(s: Sys, x: Term, y: Term, r: seq<Range>) returns (r': seq<Range>)
    requires Solved(s, r) && x.VarsBelow(s.Size()) && y.VarsBelow(s.Size())
    ensures var p, s' := s.Snapshot(), s.MinOf(x, y).0;
            && Prolongs(s, s') && s.Size() < s'.Size() && Solved(s', r') && r <= r'
            && r'[s.Size()] == RMin(EvalTerm(p, x, r), EvalTerm(p, y, r))
  {
    var ex, ey := EvalTerm(s.Snapshot(), x, r), EvalTerm(s.Snapshot(), y, r);
    var s0, r0 := s.Fresh(None).0, r + [RMin(ex, ey)];
    var s2, a, b := MinLayout(s, x, y);
    EvalTermBounded(s.Snapshot(), x, r);
    EvalTermBounded(s.Snapshot(), y, r);
    FreshSolved(s, None, r, RMin(ex, ey));
    SameTerm(s, s0, x, r, r0);
    SameTerm(s, s0, y, r, r0);
    r' := ItemsReach(s0, x, y, r0);
    assert r'[s.Size()] == r0[s.Size()];
    SameRMin(ex, ey, EvalItem(s2.Snapshot(), a, r'), EvalItem(s2.Snapshot(), b, r'));
    MinAsks(s2, a, b, s.Size(), r');
    ProlongsTransitive(s, s2, s.MinOf(x, y).0);
  }

  lemma MinNeeds(s: Sys, x: Term, y: Term, r': seq<Range>)
    requires s.Valid() && s.hardLo == [] && x.VarsBelow(s.Size()) && y.VarsBelow(s.Size())
    requires Solved(s.MinOf(x, y).0, r')
    ensures var p, s', r := s.Snapshot(), s.MinOf(x, y).0, r'[..s.Size()];
            && Prolongs(s, s') && s.Size() < s'.Size() && Solved(s, r)
            && Leq(RMin(EvalTerm(p, x, r), EvalTerm(p, y, r)), r'[s.Size()])
  {
    var s2, a, b := MinLayout(s, x, y);
    WithSolved(s2, MinSubset([a, b], s.Size()), r');
    MinItemsNeed(s, x, y, s2, a, b, r');
    MinAsks(s2, a, b, s.Size(), r');
    ProlongsTransitive(s, s2, s.MinOf(x, y).0);
  }

  lemma MinItemsNeed(s: Sys, x: Term, y: Term, s2: Sys, a: MinItem, b: MinItem, r': seq<Range>)
    requires s.Valid() && s.hardLo == [] && x.VarsBelow(s.Size()) && y.VarsBelow(s.Size()) && Solved(s2, r')
    requires var s0 := s.Fresh(None).0;
             && Prolongs(s, s0) && Prolongs(s0, s2) && Prolongs(s, s2)
             && s2 == s0.MinItemOf(x).0.MinItemOf(y).0
             && a == s0.MinItemOf(x).1 && b == s0.MinItemOf(x).0.MinItemOf(y).1
    requires (a.MinTerm? ==> a.v < s2.Size()) && (b.MinTerm? ==> b.v < s2.Size())
    ensures var p, r := s.Snapshot(), r'[..s.Size()];
            && Solved(s, r) && EvalItem(s2.Snapshot(), a, r').Bounded() && EvalItem(s2.Snapshot(), b, r').Bounded()
            && Leq(RMin(EvalTerm(p, x, r), EvalTerm(p, y, r)),
                   RMin(EvalItem(s2.Snapshot(), a, r'), EvalItem(s2.Snapshot(), b, r')))
  {
    var s0, r := s.Fresh(None).0, r'[..s.Size()];
    ItemsNeed(s0, x, y, r');
    CutSolved(s, s2, r');
    var r0 := r'[..s0.Size()];
    assert r0[..s.Size()] == r;
    SameTerm(s, s0, x, r, r0);
    SameTerm(s, s0, y, r, r0);
    EvalTermBounded(s.Snapshot(), x, r);
    EvalTermBounded(s.Snapshot(), y, r);
    SameRMin(EvalTerm(s.Snapshot(), x, r), EvalTerm(s.Snapshot(), y, r), EvalItem(s2.Snapshot(), a, r'),
             EvalItem(s2.Snapshot(), b, r'));
  }

  // ----- unbounded terms -----

  // A fresh variable forced upwards may be 1..+Inf, and can be nothing less.
  lemma ForceReaches(s: Sys, name: Option<string>, r: seq<Range>)
    requires Solved(s, r)
    ensures var (s0, t) := s.Fresh(name); var s' := s0.ForceTop(t);
            Prolongs(s, s') && s'.Size() == s.Size() + 1 && Solved(s', r + [Range(1, INF)])
  {
    var (s0, t) := s.Fresh(name);
    FreshSolved(s, name, r, Range(1, INF));
    FreshIsFree(s, name);
    ForceAsks(s0, s.Size(), r + [Range(1, INF)]);
    ProlongsTransitive(s, s0, s0.ForceTop(t));
  }

  lemma ForceNeeds(s: Sys, name: Option<string>, r': seq<Range>)
    requires s.Valid() && s.hardLo == []
    requires var (s0, t) := s.Fresh(name); Solved(s0.ForceTop(t), r')
    ensures var (s0, t) := s.Fresh(name); var s' := s0.ForceTop(t);
            Prolongs(s, s') && Solved(s, r'[..s.Size()]) && Leq(Range(1, INF), r'[s.Size()])
  {
    var (s0, t) := s.Fresh(name);
    FreshIsFree(s, name);
    ForceAsks(s0, s.Size(), r');
    ProlongsTransitive(s, s0, s0.ForceTop(t));
    CutSolved(s, s0.ForceTop(t), r');
  }

  // Forcing a bare variable asks that it hold 1 and be unbounded above, and nothing else.
  lemma ForceAsks(s: Sys, v: VarId, r: seq<Range>)
    requires s.Valid() && s.hardLo == [] && |r| == s.Size() && v < s.Size()
    ensures var s' := s.ForceTop(VarTerm(v));
            && Prolongs(s, s')
            && (Solved(s', r) <==>
                  Solved(s, r) && (Pin(s.Snapshot(), s.root[v]).None? ==> Leq(Range(1, INF), r[s.root[v]])))
  {
    var t := VarTerm(v);
    var next := t.Plus(Constant(1));
    PlusConstant(t, 1);
    assert next == Term([Slot(1, v)], 1);
    IncludeAsks(s, Constant(1), v, r);
    var s1 := s.Include(Constant(1), t);
    SamePins(s.Snapshot(), s1.Snapshot());
    IncludeAsks(s1, next, v, r);
    ProlongsTransitive(s, s1, s1.Include(next, t));
    if Solved(s1, r) { NextEvaluates(s1, v, r); }
  }

  lemma NextEvaluates(s: Sys, v: VarId, r: seq<Range>)
    requires Solved(s, r) && v < s.Size()
    ensures EvalTerm(s.Snapshot(), Term([Slot(1, v)], 1), r) == Add(Singleton(1), Mul(1, r[s.root[v]]))
    ensures Leq(Singleton(1), r[s.root[v]]) ==>
              (Leq(EvalTerm(s.Snapshot(), Term([Slot(1, v)], 1), r), r[s.root[v]]) <==>
                 Leq(Range(1, INF), r[s.root[v]]))
  {
    var slots, x := [Slot(1, v)], r[s.root[v]];
    assert slots[..0] == [];
    assert EvalSlots(s.Snapshot(), slots, 1, r) == Add(EvalSlots(s.Snapshot(), [], 1, r), Mul(1, x));
    TimesOne(x);
  }
}
