/**
 Components of one variable that feeds itself (`i = i + 1`, `force_len_top`, `strncat` onto itself).

 A variable feeds itself tamely when every linear constraint through which it does so has strictly positive
 coefficients on it, and every `min` reads it with coefficient 1, the only coefficient `push_min_item` emits. Then
 the loop settles by the third pass. The upper end is that of the least solution: one that grows once would
 have grown for ever, at least as fast each time. The lower end is the least solution's or infinite, since a `min`
 may pull it down once; without a `min` it is least as well.
 */
module Feedback {
  import opened Ranges
  import opened Terms
  import opened Problems
  import opened Components
  import opened Graphs
  import opened Solver
  import opened Solve
  import opened Verdicts

  ghost predicate SlotsRead(p: Problem, slots: seq<Slot>, v: VarId)
    requires p.Valid() && forall k :: 0 <= k < |slots| ==> slots[k].v < p.Size()
  {
    exists k :: 0 <= k < |slots| && p.canon[slots[k].v] == v
  }

  ghost predicate PositiveOn(p: Problem, slots: seq<Slot>, v: VarId)
    requires p.Valid() && forall k :: 0 <= k < |slots| ==> slots[k].v < p.Size()
  {
    forall k :: 0 <= k < |slots| && p.canon[slots[k].v] == v ==> slots[k].coeff > 0
  }

  ghost predicate ItemsRead(p: Problem, items: seq<MinItem>, v: VarId)
    requires p.Valid() && forall k :: 0 <= k < |items| && items[k].MinTerm? ==> items[k].v < p.Size()
  {
    exists k :: 0 <= k < |items| && items[k].MinTerm? && p.canon[items[k].v] == v
  }

  // The items read `v` with coefficient 1 or `c`.
  ghost predicate ScaledOn(p: Problem, items: seq<MinItem>, v: VarId, c: int)
    requires p.Valid() && forall k :: 0 <= k < |items| && items[k].MinTerm? ==> items[k].v < p.Size()
  {
    forall k :: 0 <= k < |items| && items[k].MinTerm? && p.canon[items[k].v] == v ==> items[k].coeff in {1, c}
  }

  // Every linear constraint through which `v` feeds itself is positive in `v`, and every `min` scales it by 1 or `c`.
  ghost predicate TameSelf(p: Problem, v: VarId, c: int)
    requires p.Valid()
  {
    forall i :: 0 <= i < |p.constraints| && p.canon[p.constraints[i].target] == v && Reads(p, p.constraints[i], v) ==>
      match p.constraints[i]
      case Subset(lhs, _) => PositiveOn(p, lhs.terms, v)
      case MinSubset(items, _) => ScaledOn(p, items, v, c)
  }

  // `v` feeds itself through no `min`.
  ghost predicate LinearSelf(p: Problem, v: VarId)
    requires p.Valid()
  {
    forall i :: 0 <= i < |p.constraints| && p.canon[p.constraints[i].target] == v && Reads(p, p.constraints[i], v) ==>
      p.constraints[i].Subset?
  }

  // ----- endpoints of a positive sum -----

  // `b` relates to `a` as values at a range `y` relate to values at `x`, in something positive in the range.
  ghost predicate Responds(a: Range, b: Range, x: Range, y: Range) {
    && (a.IsEmpty() <==> b.IsEmpty())
    && (!a.IsEmpty() ==>
          && (x.hi == y.hi ==> a.hi == b.hi)
          && (x.lo == y.lo ==> a.lo == b.lo)
          && (x.hi <= y.hi && a.hi > NEGINF ==> b.hi >= Min(INF, a.hi + (y.hi - x.hi)))
          && (x.lo >= y.lo && a.lo < INF ==> b.lo <= Max(NEGINF, a.lo - (x.lo - y.lo)))
          && (y.hi == INF ==> b.hi == INF)
          && (y.lo == NEGINF ==> b.lo == NEGINF))
  }

  lemma ScaledResponds(c: int, x: Range, y: Range)
    requires c > 0 && x.Bounded() && y.Bounded() && !x.IsEmpty() && !y.IsEmpty()
    ensures Responds(Mul(c, x), Mul(c, y), x, y) && Mul(c, x).Bounded() && !Mul(c, x).IsEmpty()
  {
    MulNonEmpty(c, x);
    MulNonEmpty(c, y);
    ScaledEndpoint(c, x.lo, y.lo);
    ScaledEndpoint(c, x.hi, y.hi);
    ResultsBounded(c, x, x);
  }

  lemma ScaledEndpoint(c: int, x: int, y: int)
    requires c > 0 && NEGINF <= x <= INF && NEGINF <= y <= INF
    ensures x <= y && MulEp(c, x) > NEGINF ==> MulEp(c, y) >= Min(INF, MulEp(c, x) + (y - x))
    ensures x >= y && MulEp(c, x) < INF ==> MulEp(c, y) <= Max(NEGINF, MulEp(c, x) - (x - y))
    ensures MulEp(c, INF) == INF && MulEp(c, NEGINF) == NEGINF
  {
    MulEpIsClampedProduct(c, x);
    MulEpIsClampedProduct(c, y);
    Steeper(c, x, y);
  }

  lemma Steeper(c: int, x: int, y: int)
    requires c > 0
    ensures x <= y ==> c * y >= c * x + (y - x)
    ensures x >= y ==> c * y <= c * x - (x - y)
  {
    var d := y - x;
    assert c * y == c * x + c * d;
    if d >= 0 { assert c * d >= d; } else { assert c * d <= d; }
  }

  // Adding something that responds, or stays the same, keeps the response.
  lemma SumResponds(a: Range, b: Range, s: Range, t: Range, x: Range, y: Range)
    requires a.Bounded() && b.Bounded() && s.Bounded() && t.Bounded()
    requires (Responds(a, b, x, y) && (Responds(s, t, x, y) || s == t)) || (a == b && Responds(s, t, x, y))
    ensures Responds(Add(a, s), Add(b, t), x, y)
  {
    AddNonEmpty(a, s);
    AddNonEmpty(b, t);
  }

  // A positive sum responds to the variable if it reads it, ignores it otherwise, and vanishes with it.
  lemma {:induction false} SlotsRespond(p: Problem, slots: seq<Slot>, konst: int, v: VarId, r: seq<Range>, x: Range,
                                        y: Range)
    requires p.Valid() && |r| == p.Size() && v < p.Size() && AllBounded(r)
    requires forall k :: 0 <= k < |slots| ==> slots[k].v < p.Size()
    requires PositiveOn(p, slots, v) && x.Bounded() && y.Bounded() && !x.IsEmpty() && !y.IsEmpty()
    ensures var a, b, e := EvalSlots(p, slots, konst, r[v := x]), EvalSlots(p, slots, konst, r[v := y]),
            EvalSlots(p, slots, konst, r[v := EMPTY]);
            && a.Bounded() && b.Bounded()
            && (if SlotsRead(p, slots, v) then Responds(a, b, x, y) && e == EMPTY else a == b == e)
  {
    EvalSlotsBounded(p, slots, konst, r[v := x]);
    EvalSlotsBounded(p, slots, konst, r[v := y]);
    if slots != [] {
      var init, last := slots[..|slots| - 1], slots[|slots| - 1];
      SlotsRespond(p, init, konst, v, r, x, y);
      assert SlotsRead(p, slots, v) <==> SlotsRead(p, init, v) || p.canon[last.v] == v by {
        if SlotsRead(p, init, v) {
          var k :| 0 <= k < |init| && p.canon[init[k].v] == v;
          assert p.canon[slots[k].v] == v;
        }
        if p.canon[last.v] == v { assert p.canon[slots[|slots| - 1].v] == v; }
      }
      EvalSlotsBounded(p, init, konst, r[v := x]);
      EvalSlotsBounded(p, init, konst, r[v := y]);
      LastResponds(p, last, EvalSlots(p, init, konst, r[v := x]), EvalSlots(p, init, konst, r[v := y]), v, r, x, y,
        SlotsRead(p, init, v));
    }
  }

  lemma LastResponds(p: Problem, last: Slot, a: Range, b: Range, v: VarId, r: seq<Range>, x: Range, y: Range, fed: bool)
    requires p.Valid() && |r| == p.Size() && v < p.Size() && AllBounded(r) && last.v < p.Size()
    requires x.Bounded() && y.Bounded() && !x.IsEmpty() && !y.IsEmpty() && a.Bounded() && b.Bounded()
    requires p.canon[last.v] == v ==> last.coeff > 0
    requires if fed then Responds(a, b, x, y) else a == b
    ensures var s, t := Mul(last.coeff, r[v := x][p.canon[last.v]]), Mul(last.coeff, r[v := y][p.canon[last.v]]);
            if fed || p.canon[last.v] == v then Responds(Add(a, s), Add(b, t), x, y) else Add(a, s) == Add(b, t)
  {
    var u := p.canon[last.v];
    var s, t := Mul(last.coeff, r[v := x][u]), Mul(last.coeff, r[v := y][u]);
    if u == v {
      ScaledResponds(last.coeff, x, y);
      ScaledResponds(last.coeff, y, x);
      SumResponds(a, b, s, t, x, y);
    } else {
      ResultsBounded(last.coeff, r[u], r[u]);
      if fed { SumResponds(a, b, s, t, x, y); }
    }
  }

  // ----- endpoints of a minimum -----

  // `b` relates to `a` as values at `y` relate to values at `x` in a minimum of the range and other things: it never
  // exceeds the range.
  ghost predicate Yields(a: Range, b: Range, x: Range, y: Range) {
    && (a.IsEmpty() <==> b.IsEmpty())
    && (!a.IsEmpty() ==>
          && (x.hi == y.hi ==> a.hi == b.hi) && (x.lo == y.lo ==> a.lo == b.lo)
          && a.hi <= x.hi && (y.lo == NEGINF ==> b.lo == NEGINF))
  }

  lemma {:induction false} ItemsYield(p: Problem, items: seq<MinItem>, v: VarId, r: seq<Range>, x: Range, y: Range)
    requires p.Valid() && |r| == p.Size() && v < p.Size() && AllBounded(r)
    requires forall k :: 0 <= k < |items| && items[k].MinTerm? ==> items[k].v < p.Size()
    requires ScaledOn(p, items, v, 1) && x.Bounded() && y.Bounded() && !x.IsEmpty() && !y.IsEmpty()
    ensures var a, b := EvalItems(p, items, r[v := x]), EvalItems(p, items, r[v := y]);
            var e := EvalItems(p, items, r[v := EMPTY]);
            if ItemsRead(p, items, v) then Yields(a, b, x, y) && e == EMPTY else a == b == e
  {
    if items != [] {
      var init, last := items[..|items| - 1], items[|items| - 1];
      ItemsYield(p, init, v, r, x, y);
      EvalItemsBounded(p, init, r[v := x]);
      EvalItemsBounded(p, init, r[v := y]);
      ItemsReadLast(p, items, v);
      var a, b := EvalItems(p, init, r[v := x]), EvalItems(p, init, r[v := y]);
      if last.MinTerm? && p.canon[last.v] == v {
        ScaledOnce(x);
        ScaledOnce(y);
        MinWithItself(a, b, x, y);
      } else {
        var s := EvalItem(p, last, r[v := x]);
        if last.MinTerm? { ResultsBounded(last.coeff, r[p.canon[last.v]], r[p.canon[last.v]]); }
        if ItemsRead(p, init, v) { MinWithOther(a, b, s, x, y); }
      }
    }
  }

  lemma ItemsReadLast(p: Problem, items: seq<MinItem>, v: VarId)
    requires p.Valid() && items != [] && forall k :: 0 <= k < |items| && items[k].MinTerm? ==> items[k].v < p.Size()
    ensures var init, last := items[..|items| - 1], items[|items| - 1];
            ItemsRead(p, items, v) <==> ItemsRead(p, init, v) || (last.MinTerm? && p.canon[last.v] == v)
  {
    var init := items[..|items| - 1];
    if ItemsRead(p, init, v) {
      var k :| 0 <= k < |init| && init[k].MinTerm? && p.canon[init[k].v] == v;
      assert items[k] == init[k];
    }
  }

  lemma MinWithItself(a: Range, b: Range, x: Range, y: Range)
    requires a.Bounded() && b.Bounded() && x.Bounded() && y.Bounded() && !x.IsEmpty() && !y.IsEmpty()
    requires a == b || Yields(a, b, x, y)
    ensures Yields(RMin(a, x), RMin(b, y), x, y)
  {
  }

  lemma MinWithOther(a: Range, b: Range, s: Range, x: Range, y: Range)
    requires a.Bounded() && b.Bounded() && s.Bounded() && x.Bounded() && y.Bounded() && Yields(a, b, x, y)
    ensures Yields(RMin(a, s), RMin(b, s), x, y)
  {
  }

  lemma ScaledOnce(x: Range)
    requires x.Bounded() && !x.IsEmpty()
    ensures Mul(1, x) == x && Mul(1, EMPTY) == EMPTY
  {
    MulEpIsClampedProduct(1, x.lo);
    MulEpIsClampedProduct(1, x.hi);
  }

  // ----- the inflow -----

  // Either nothing that reads the variable contributes, or the inflow responds to it.
  ghost predicate Answers(a: Range, b: Range, e: Range, x: Range, y: Range, linear: bool) {
    (a == e && b == e) || (!a.IsEmpty() && !b.IsEmpty() && Follows(a, b, e, x, y, linear))
  }

  // The join of a part `e` that ignores the variable and parts that respond or, unless `linear`, yield to it.
  ghost predicate Follows(a: Range, b: Range, e: Range, x: Range, y: Range, linear: bool) {
    && (x.hi == y.hi ==> a.hi == b.hi) && (x.lo == y.lo ==> a.lo == b.lo) && (y.lo == NEGINF ==> b.lo == NEGINF)
    && (x.hi <= y.hi && a.hi > x.hi && (e.IsEmpty() || a.hi > e.hi) ==> b.hi >= Min(INF, a.hi + (y.hi - x.hi)))
    && (linear && x.lo >= y.lo && a.lo < INF && (e.IsEmpty() || a.lo < e.lo) ==>
          b.lo <= Max(NEGINF, a.lo - (x.lo - y.lo)))
    && Leq(e, a) && Leq(e, b)
  }

  // What one constraint adds: something that ignores the variable, or something that vanishes with it.
  ghost predicate Adds(s: Range, t: Range, f: Range, x: Range, y: Range, linear: bool) {
    s == t == f || (f == EMPTY && (Responds(s, t, x, y) || (!linear && Yields(s, t, x, y))))
  }

  lemma HullAnswers(a: Range, b: Range, e: Range, s: Range, t: Range, f: Range, x: Range, y: Range, linear: bool)
    requires a.Bounded() && b.Bounded() && s.Bounded() && t.Bounded() && x.Bounded() && !x.IsEmpty()
    requires Answers(a, b, e, x, y, linear) && Adds(s, t, f, x, y, linear)
    requires (s.IsEmpty() ==> s == EMPTY) && (t.IsEmpty() ==> t == EMPTY) && (e.IsEmpty() ==> e == EMPTY)
    ensures Answers(Hull(a, s), Hull(b, t), Hull(e, f), x, y, linear)
  {
  }

  lemma {:induction false} EvalNormal(p: Problem, c: Constraint, r: seq<Range>)
    requires p.Valid() && |r| == p.Size() && ConstraintBelow(c, p.Size())
    ensures EvalConstraint(p, c, r).IsEmpty() ==> EvalConstraint(p, c, r) == EMPTY
  {
    match c
    case Subset(lhs, _) => EvalSlotsNormal(p, lhs.terms, lhs.konst, r);
    case MinSubset(items, _) => EvalItemsNormal(p, items, r);
  }

  lemma {:induction false} EvalItemsNormal(p: Problem, items: seq<MinItem>, r: seq<Range>)
    requires p.Valid() && |r| == p.Size()
    requires forall k :: 0 <= k < |items| && items[k].MinTerm? ==> items[k].v < p.Size()
    ensures EvalItems(p, items, r).IsEmpty() ==> EvalItems(p, items, r) == EMPTY
  {
    if items != [] { EvalItemsNormal(p, items[..|items| - 1], r); }
  }

  lemma {:induction false} InflowNormal(p: Problem, k: nat, v: VarId, r: seq<Range>)
    requires p.Valid() && |r| == p.Size() && k <= |p.constraints|
    ensures Inflow(p, k, v, r).IsEmpty() ==> Inflow(p, k, v, r) == EMPTY
  {
    if k > 0 {
      InflowNormal(p, k - 1, v, r);
      EvalNormal(p, p.constraints[k - 1], r);
    }
  }

  lemma ConstraintResponds(p: Problem, i: nat, v: VarId, r: seq<Range>, x: Range, y: Range)
    requires p.Valid() && |r| == p.Size() && v < p.Size() && AllBounded(r) && TameSelf(p, v, 1)
    requires i < |p.constraints| && p.canon[p.constraints[i].target] == v
    requires x.Bounded() && y.Bounded() && !x.IsEmpty() && !y.IsEmpty()
    ensures var c := p.constraints[i];
            Adds(EvalConstraint(p, c, r[v := x]), EvalConstraint(p, c, r[v := y]), EvalConstraint(p, c, r[v := EMPTY]),
                 x, y, LinearSelf(p, v))
  {
    var c := p.constraints[i];
    if Reads(p, c, v) {
      match c
      case Subset(lhs, _) => SlotsRespond(p, lhs.terms, lhs.konst, v, r, x, y);
      case MinSubset(items, _) => ItemsYield(p, items, v, r, x, y);
    } else {
      EvalSameOn(p, c, r[v := x], r[v := EMPTY]);
      EvalSameOn(p, c, r[v := y], r[v := EMPTY]);
    }
  }

  lemma {:induction false} InflowAnswers(p: Problem, k: nat, v: VarId, r: seq<Range>, x: Range, y: Range)
    requires p.Valid() && |r| == p.Size() && v < p.Size() && AllBounded(r) && TameSelf(p, v, 1) && k <= |p.constraints|
    requires x.Bounded() && y.Bounded() && !x.IsEmpty() && !y.IsEmpty()
    ensures Answers(Inflow(p, k, v, r[v := x]), Inflow(p, k, v, r[v := y]), Inflow(p, k, v, r[v := EMPTY]), x, y,
                    LinearSelf(p, v))
  {
    if k > 0 {
      InflowAnswers(p, k - 1, v, r, x, y);
      var c := p.constraints[k - 1];
      if p.canon[c.target] == v {
        ConstraintResponds(p, k - 1, v, r, x, y);
        InflowBounded(p, k - 1, v, r[v := x]);
        InflowBounded(p, k - 1, v, r[v := y]);
        EvalBounded(p, c, r[v := x]);
        EvalBounded(p, c, r[v := y]);
        EvalNormal(p, c, r[v := x]);
        EvalNormal(p, c, r[v := y]);
        InflowNormal(p, k - 1, v, r[v := EMPTY]);
        HullAnswers(Inflow(p, k - 1, v, r[v := x]), Inflow(p, k - 1, v, r[v := y]), Inflow(p, k - 1, v, r[v := EMPTY]),
                    EvalConstraint(p, c, r[v := x]), EvalConstraint(p, c, r[v := y]),
                    EvalConstraint(p, c, r[v := EMPTY]), x, y,
                    LinearSelf(p, v));
      }
    }
  }

  // ----- the loop on one variable -----

  // The range of `v` after `k` rounds.
  ghost function At(p: Problem, v: VarId, r: seq<Range>, k: nat): Range
    requires p.Valid() && |r| == p.Size() && v < p.Size()
  {
    Rounds(p, [v], k, r)[v]
  }

  lemma {:induction false} LoneRounds(p: Problem, v: VarId, r: seq<Range>, k: nat)
    requires p.Valid() && |r| == p.Size() && v < p.Size() && Pin(p, v).None?
    ensures Rounds(p, [v], k, r) == r[v := At(p, v, r, k)]
    ensures k > 0 ==>
              var s := r[v := At(p, v, r, k - 1)];
              At(p, v, r, k) == if k > 1 then Widen(Apply(p, v, s), s[v]) else Apply(p, v, s)
  {
    if k > 0 {
      LoneRounds(p, v, r, k - 1);
      var s := Rounds(p, [v], k - 1, r);
      assert PassTo(p, [v], 0, k > 1, s) == s;
      assert Rounds(p, [v], k, r) == PassTo(p, [v], 1, k > 1, s) == s[v := Visit(p, v, k > 1, s[v], s)];
    }
  }

  // A variable that starts empty, neither pinned nor floored.
  ghost predicate Lone(p: Problem, v: VarId, r: seq<Range>)
    requires p.Valid()
  {
    |r| == p.Size() && v < p.Size() && AllBounded(r) && r[v] == EMPTY && Pin(p, v).None? && Floor(p, v).None?
  }

  // Its inflow at a range, and the ranges its inflow keeps: the least of them is what the loop is after.
  ghost function FedBack(p: Problem, v: VarId, r: seq<Range>, x: Range): Range
    requires p.Valid() && |r| == p.Size() && v < p.Size()
  {
    Apply(p, v, r[v := x])
  }

  ghost predicate Closed(p: Problem, v: VarId, r: seq<Range>, x: Range)
    requires p.Valid() && |r| == p.Size() && v < p.Size()
  {
    x.Bounded() && Leq(FedBack(p, v, r, x), x)
  }

  lemma InflowAt(p: Problem, v: VarId, r: seq<Range>, x: Range, y: Range)
    requires p.Valid() && Lone(p, v, r) && TameSelf(p, v, 1)
    requires x.Bounded() && y.Bounded() && !x.IsEmpty() && !y.IsEmpty()
    ensures Answers(FedBack(p, v, r, x), FedBack(p, v, r, y), FedBack(p, v, r, EMPTY), x, y, LinearSelf(p, v))
    ensures FedBack(p, v, r, x).Bounded() && FedBack(p, v, r, EMPTY).Bounded()
    ensures FedBack(p, v, r, EMPTY).IsEmpty() ==> FedBack(p, v, r, EMPTY) == EMPTY
  {
    InflowAnswers(p, |p.constraints|, v, r, x, y);
    InflowNormal(p, |p.constraints|, v, r[v := EMPTY]);
    ApplyBounded(p, v, r[v := x]);
    ApplyBounded(p, v, r[v := EMPTY]);
  }

  // The three passes: seeds, growth pushed to infinity, confirmation.
  lemma ThirdPassConfirms(p: Problem, v: VarId, r: seq<Range>)
    requires p.Valid() && Lone(p, v, r) && TameSelf(p, v, 1)
    ensures var first := FedBack(p, v, r, EMPTY);
            if first.IsEmpty() then At(p, v, r, 1) == r[v]
            else At(p, v, r, 2) == Widen(FedBack(p, v, r, first), first) && At(p, v, r, 3) == At(p, v, r, 2)
  {
    LoneRounds(p, v, r, 1);
    LoneRounds(p, v, r, 2);
    LoneRounds(p, v, r, 3);
    assert r[v := EMPTY] == r;
    var first := FedBack(p, v, r, EMPTY);
    InflowAt(p, v, r, TOP, TOP);
    if !first.IsEmpty() {
      var second := Widen(FedBack(p, v, r, first), first);
      InflowAt(p, v, r, first, first);
      WidenGrows(FedBack(p, v, r, first), first);
      InflowAt(p, v, r, first, second);
    }
  }

  // Each end of the loop's result is the least closed range's, or infinite.
  ghost predicate EndwiseLeast(p: Problem, v: VarId, r: seq<Range>)
    requires p.Valid() && Lone(p, v, r)
  {
    && Converges(p, [v], r) && Closed(p, v, r, At(p, v, r, MAX_ITERS))
    && forall x: Range :: Closed(p, v, r, x) ==>
         var last := At(p, v, r, MAX_ITERS);
         last.IsEmpty() || ((last.hi == INF || last.hi <= x.hi) && (last.lo == NEGINF || x.lo <= last.lo))
  }

  // The loop converges by its third pass, and each end of the result is the first round's or infinite. The upper
  // end is least; without a `min` so is the lower, and the result lies in every closed range.
  lemma SelfFeedbackSettles(p: Problem, v: VarId, r: seq<Range>)
    requires p.Valid() && Lone(p, v, r) && TameSelf(p, v, 1)
    ensures Rounds(p, [v], 3, r) == Rounds(p, [v], 2, r) && Converges(p, [v], r)
    ensures Rounds(p, [v], MAX_ITERS, r) == r[v := At(p, v, r, MAX_ITERS)]
    ensures var last, first := At(p, v, r, MAX_ITERS), FedBack(p, v, r, EMPTY);
            if first.IsEmpty() then last == EMPTY else last.lo in {first.lo, NEGINF} && last.hi in {first.hi, INF}
    ensures EndwiseLeast(p, v, r)
    ensures forall x: Range :: Closed(p, v, r, x) ==>
              At(p, v, r, MAX_ITERS).IsEmpty() || At(p, v, r, MAX_ITERS).hi <= x.hi
    ensures LinearSelf(p, v) ==> forall x: Range :: Closed(p, v, r, x) ==> Leq(At(p, v, r, MAX_ITERS), x)
  {
    ThirdPassConfirms(p, v, r);
    LoneRounds(p, v, r, 1);
    LoneRounds(p, v, r, 2);
    LoneRounds(p, v, r, 3);
    LoneRounds(p, v, r, MAX_ITERS);
    var first := FedBack(p, v, r, EMPTY);
    assert r[v := EMPTY] == r && r[v := r[v]] == r;
    if first.IsEmpty() {
      assert Rounds(p, [v], 0 + 1, r) == Rounds(p, [v], 0, r);
      StaysStill(p, [v], 0, MAX_ITERS, r);
      StaysStill(p, [v], 0, 2, r);
      StaysStill(p, [v], 0, 3, r);
    } else {
      assert Rounds(p, [v], 2 + 1, r) == Rounds(p, [v], 2, r);
      StaysStill(p, [v], 2, MAX_ITERS, r);
      InflowAt(p, v, r, TOP, TOP);
      InflowAt(p, v, r, first, first);
    }
    LastIsClosed(p, v, r);
    forall x: Range | Closed(p, v, r, x)
      ensures var last := At(p, v, r, MAX_ITERS);
              last.IsEmpty() || (last.hi <= x.hi && (last.lo == NEGINF || x.lo <= last.lo))
      ensures LinearSelf(p, v) ==> Leq(At(p, v, r, MAX_ITERS), x)
    {
      if !first.IsEmpty() { WidenedInClosed(p, v, r, x); }
    }
  }

  lemma LastIsClosed(p: Problem, v: VarId, r: seq<Range>)
    requires p.Valid() && Lone(p, v, r) && Converges(p, [v], r)
    ensures Closed(p, v, r, At(p, v, r, MAX_ITERS))
  {
    ConvergedIsFixpoint(p, [v], r);
    RoundsBounded(p, [v], MAX_ITERS, r);
    LoneRounds(p, v, r, MAX_ITERS);
  }

  // Whatever the widening sends up to infinity is infinite in every closed range, and downwards too without a `min`.
  lemma WidenedInClosed(p: Problem, v: VarId, r: seq<Range>, x: Range)
    requires p.Valid() && Lone(p, v, r) && TameSelf(p, v, 1) && Closed(p, v, r, x)
    requires !FedBack(p, v, r, EMPTY).IsEmpty()
    ensures var first := FedBack(p, v, r, EMPTY);
            var second := Widen(FedBack(p, v, r, first), first);
            && Leq(first, x) && second.hi <= x.hi && second.lo in {first.lo, NEGINF}
            && (LinearSelf(p, v) ==> Leq(second, x))
  {
    var first := FedBack(p, v, r, EMPTY);
    InflowAt(p, v, r, TOP, TOP);
    ApplyMonotone(p, v, r[v := EMPTY], r[v := x]);
    LeqTransitive(first, FedBack(p, v, r, x), x);
    InflowAt(p, v, r, first, x);
  }

  // ----- systems without longer cycles -----

  // Every component is one variable without a floor, which feeds itself at most tamely.
  ghost predicate TameLooped(p: Problem, cs: seq<seq<VarId>>)
    requires p.Valid() && (forall j :: 0 <= j < |cs| ==> Vars(p, cs[j]))
  {
    Single(cs) && forall j :: 0 <= j < |cs| ==> TameSelf(p, cs[j][0], 1) && Floor(p, cs[j][0]).None?
  }

  // Every component is one variable without a floor, which feeds itself at most positively.
  ghost predicate SelfLooped(p: Problem, cs: seq<seq<VarId>>)
    requires p.Valid() && (forall j :: 0 <= j < |cs| ==> Vars(p, cs[j]))
  {
    TameLooped(p, cs) && forall j :: 0 <= j < |cs| ==> LinearSelf(p, cs[j][0])
  }

  // If the only cycles are tame self-loops, every loop converges, and the result is a fixpoint that contains the
  // least solution.
  lemma TameLoopsConverge(p: Problem, cs: seq<seq<VarId>>, rank: seq<nat>)
    requires p.Valid() && Layers(p, cs, rank) && TameLooped(p, cs)
    ensures AllConverge(p, cs) && Fixpoint(p, Final(p, cs)) && Below(LeastSolution(p), Final(p, cs))
  {
    forall j | 0 <= j < |cs| ensures Converges(p, cs[j], RunTo(p, cs, j)) {
      SelfLoopConverges(p, cs, rank, j);
    }
    ConvergedRunIsFixpoint(p, cs, rank);
    SettledRunCoversLeast(p, cs, rank);
  }

  // If the only cycles are positive linear self-loops, the solver returns exactly the least solution.
  lemma SelfLoopsAreExact(p: Problem, cs: seq<seq<VarId>>, rank: seq<nat>)
    requires p.Valid() && Layers(p, cs, rank) && SelfLooped(p, cs)
    ensures AllConverge(p, cs)
    ensures forall v :: 0 <= v < p.Size() ==> Same(Final(p, cs)[v], LeastSolution(p)[v])
  {
    TameLoopsConverge(p, cs, rank);
    forall v | 0 <= v < p.Size() ensures Same(Final(p, cs)[v], LeastSolution(p)[v]) {
      SelfLoopsBelowLeast(p, cs, rank, v);
    }
  }

  lemma SelfLoopConverges(p: Problem, cs: seq<seq<VarId>>, rank: seq<nat>, j: nat)
    requires p.Valid() && Layers(p, cs, rank) && TameLooped(p, cs) && j < |cs|
    ensures Converges(p, cs[j], RunTo(p, cs, j))
    ensures var v, r := cs[j][0], RunTo(p, cs, j); cs[j] == [v] && rank[v] == j && (Pin(p, v).None? ==> Lone(p, v, r))
  {
    var v, r := cs[j][0], RunTo(p, cs, j);
    assert v in cs[j] && cs[j] == [v];
    RunBounded(p, cs, j);
    UntouchedBefore(p, cs, rank, j, v);
    if Pin(p, v).None? {
      SelfFeedbackSettles(p, v, r);
    } else {
      assert PassTo(p, [v], 0, false, r) == r;
      assert Rounds(p, [v], 0, r) == r;
      assert Rounds(p, [v], 0 + 1, r) == r[v := r[v]] == r;
    }
  }

  lemma {:induction false} SelfLoopsBelowLeast(p: Problem, cs: seq<seq<VarId>>, rank: seq<nat>, v: VarId)
    requires p.Valid() && Layers(p, cs, rank) && SelfLooped(p, cs) && v < p.Size()
    ensures Leq(Final(p, cs)[v], LeastSolution(p)[v])
    decreases rank[v]
  {
    var j, l := rank[v], LeastSolution(p);
    LeastSolutionIsLeast(p);
    SelfLoopConverges(p, cs, rank, j);
    assert v in cs[j];
    UndisturbedAfter(p, cs, rank, j + 1, v);
    var r := RunTo(p, cs, j);
    if Pin(p, v).Some? {
      UntouchedBefore(p, cs, rank, |cs|, v);
    } else {
      forall u | 0 <= u < p.Size() && Feeds(p, u, v) ensures Leq(r[v := l[v]][u], l[u]) {
        if u != v {
          OnlyMemberElse(p, cs, rank, u, v);
          SelfLoopsBelowLeast(p, cs, rank, u);
          UndisturbedAfter(p, cs, rank, j, u);
        }
      }
      ApplyMonotone(p, v, r[v := l[v]], l);
      LeqTransitive(FedBack(p, v, r, l[v]), Apply(p, v, l), l[v]);
      SelfFeedbackSettles(p, v, r);
      assert Closed(p, v, r, l[v]);
    }
  }

  lemma OnlyMemberElse(p: Problem, cs: seq<seq<VarId>>, rank: seq<nat>, u: VarId, v: VarId)
    requires p.Valid() && Layers(p, cs, rank) && SelfLooped(p, cs) && u < p.Size() && v < p.Size() && u != v
             && Feeds(p, u, v)
    ensures rank[u] < rank[v]
  {
    assert u in cs[rank[u]] && v in cs[rank[v]];
    assert cs[rank[u]] == [u] && cs[rank[v]] == [v];
  }

  // On such a system a query is reported exactly when two values of its sides in the least solution violate it.
  lemma SelfLoopedVerdictIsExact(p: Problem, cs: seq<seq<VarId>>, rank: seq<nat>, q: Query)
    requires p.Valid() && Layers(p, cs, rank) && SelfLooped(p, cs) && q.a.VarsBelow(p.Size()) && q.b.VarsBelow(p.Size())
    ensures Fails(p, q, Final(p, cs)) <==>
              exists a, b :: InRange(EvalTerm(p, q.a, LeastSolution(p)), a)
                && InRange(EvalTerm(p, q.b, LeastSolution(p)), b) && a < b
  {
    SelfLoopsAreExact(p, cs, rank);
    RunBounded(p, cs, |cs|);
    LeastSolutionIsLeast(p);
    var f, l := Final(p, cs), LeastSolution(p);
    assert Below(f, l) && Below(l, f);
    if Fails(p, q, f) { FailsMonotone(p, q, f, l); }
    if Fails(p, q, l) { FailsMonotone(p, q, l, f); }
    FailsMeansViolated(p, q, l);
  }

  // All of it from what a caller can check before solving: the influence graph has no cycle but self-loops, and
  // each variable feeds itself at most tamely.
  lemma OnlySelfCyclesConverge(p: Problem, g: Graph, cs: seq<seq<VarId>>, rank: seq<nat>)
    requires p.Valid() && Influence(p, |p.constraints|, g) && Layers(p, cs, rank) && Emission(g, cs)
    requires OnlySelfCycles(g) && forall v :: 0 <= v < p.Size() ==> TameSelf(p, v, 1) && Floor(p, v).None?
    ensures TameLooped(p, cs) && AllConverge(p, cs) && Below(LeastSolution(p), Final(p, cs))
    ensures (forall v :: 0 <= v < p.Size() ==> LinearSelf(p, v)) ==>
              SelfLooped(p, cs) && forall v :: 0 <= v < p.Size() ==> Same(Final(p, cs)[v], LeastSolution(p)[v])
  {
    OnlySelfCyclesIsSingle(g, cs);
    forall j | 0 <= j < |cs| ensures cs[j][0] < p.Size() {}
    TameLoopsConverge(p, cs, rank);
    if forall v :: 0 <= v < p.Size() ==> LinearSelf(p, v) { SelfLoopsAreExact(p, cs, rank); }
  }
}
