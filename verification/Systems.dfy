/**
 The constraint system as a value (src/constraint.rs, `System`): what each operator adds to it, and what
 every solution then says about the operator's operands.

 A solution assigns a range to every variable. It is *straight* when no sum the evaluator forms on the way is
 skewed; saturated addition is sound exactly there.
 */
module Systems {
  import opened Ranges
  import opened Terms
  import opened Problems

  // `root[v]` is the union-find representative of `v`.
  datatype Sys = Sys(
    names: seq<Option<string>>,
    root: seq<VarId>,
    constraints: seq<Constraint>,
    queries: seq<Query>,
    fixed: seq<(VarId, Range)>,
    hardLo: seq<(VarId, int)>,
    topVar: Option<VarId>)
  {
    function Size(): nat { |names| }

    // The snapshot `solve` hands to the solver.
    function Snapshot(): Problem { Problem(names, root, constraints, queries, fixed, hardLo) }

    predicate Valid() {
      Snapshot().Valid() && (topVar.Some? ==> topVar.value < Size() && (topVar.value, TOP) in fixed)
    }

    function Fresh(name: Option<string>): (Sys, Term) {
      (this.(names := names + [name], root := root + [Size()]), VarTerm(Size()))
    }

    // The cached variable pinned to the full range.
    function Top(): (Sys, Term) {
      if topVar.Some? then (this, VarTerm(topVar.value))
      else
        var (s, t) := Fresh(Some("top"));
        (s.(fixed := s.fixed + [(Size(), TOP)], topVar := Some(Size())), t)
    }

    // `lhs ⊆ rhs`: the first variable of `rhs` is the target, everything else of `rhs` moves over to the left.
    function Include(lhs: Term, rhs: Term): Sys {
      if rhs.terms == [] then this
      else this.(constraints := constraints + [Subset(SolvedFor(lhs, rhs), rhs.terms[0].v)])
    }

    // A constant included into a bare variable needs no rewriting.
    function Seed(k: int, v: VarId): Sys { this.(constraints := constraints + [Subset(Constant(k), v)]) }

    // A constant or a bare variable is an item itself; any other term goes through a fresh variable.
    function MinItemOf(t: Term): (Sys, MinItem) {
      if t.IsConstant() then (this, MinConst(t.konst))
      else if t.SingleVar().Some? then (this, MinTerm(1, t.SingleVar().value))
      else
        var (s, w) := Fresh(None);
        (s.Include(t, w), MinTerm(1, Size()))
    }

    function MinOf(x: Term, y: Term): (Sys, Term) {
      var (s, z) := Fresh(None);
      var (s1, a) := s.MinItemOf(x);
      var (s2, b) := s1.MinItemOf(y);
      (s2.(constraints := s2.constraints + [MinSubset([a, b], Size())]), z)
    }

    function UnionOf(x: Term, y: Term): (Sys, Term) {
      var (s, z) := Fresh(None);
      (s.Include(x, z).Include(y, z), z)
    }

    // Merge the classes of two variables, keeping a named representative if there is one.
    function Unify(a: VarId, b: VarId): Sys {
      if a >= |root| || b >= |root| || root[a] == root[b] || root[a] >= |names| || root[b] >= |names| then this
      else
        var ra, rb := root[a], root[b];
        var (winner, loser) := if names[ra].Some? || names[rb].None? then (ra, rb) else (rb, ra);
        this.(root := Relabel(root, loser, winner))
    }

    function Equate(a: Term, b: Term): Sys {
      if b.IsConstant() && a.SingleVarAny().Some? then
        var (k, v) := a.SingleVarAny().value;
        this.(fixed := fixed + [(v, Singleton(b.konst - k))])
      else if a.IsConstant() && b.SingleVarAny().Some? then
        var (k, v) := b.SingleVarAny().value;
        this.(fixed := fixed + [(v, Singleton(a.konst - k))])
      else if a.SingleVar().Some? && b.SingleVar().Some? then
        Unify(a.SingleVar().value, b.SingleVar().value)
      else Include(a, b).Include(b, a)
    }

    function Times(x: Term, y: Term): (Sys, Term) {
      if x.IsConstant() then (this, y.Scale(x.konst))
      else if y.IsConstant() then (this, x.Scale(y.konst))
      else Top()
    }

    function HardGe(a: Term, c: int): Sys {
      if a.SingleVar().Some? then this.(hardLo := hardLo + [(a.SingleVar().value, c)]) else this
    }

    function Ask(a: Term, b: Term, kind: QueryKind): Sys {
      this.(queries := queries + [Query(a, b, kind)])
    }

    // `1 ⊆ t` and `t + 1 ⊆ t`.
    function ForceTop(t: Term): Sys {
      Include(Constant(1), t).Include(t.Plus(Constant(1)), t)
    }
  }

  function Relabel(root: seq<VarId>, loser: VarId, winner: VarId): (r: seq<VarId>)
    ensures |r| == |root|
    ensures forall v :: 0 <= v < |root| ==> r[v] == if root[v] == loser then winner else root[v]
  {
    seq(|root|, v requires 0 <= v < |root| => if root[v] == loser then winner else root[v])
  }

  const NEW: Sys := Sys([], [], [], [], [], [], None)

  // What `lhs ⊆ rhs` becomes once solved for the first variable of `rhs`.
  function SolvedFor(lhs: Term, rhs: Term): Term
    requires rhs.terms != []
  {
    var c := rhs.terms[0].coeff;
    var moved := lhs.Minus(Term(rhs.terms[1..], rhs.konst));
    if c != 1 && c != 0 then moved.Scale(c) else moved
  }

  // With a leading coefficient of 1 or -1, the rewritten equation is equivalent to the original one.
  lemma SolvedForIsEquivalent(lhs: Term, rhs: Term, sigma: VarId -> int)
    requires rhs.terms != [] && (rhs.terms[0].coeff == 1 || rhs.terms[0].coeff == -1)
    ensures Value(lhs, sigma) == Value(rhs, sigma) <==> Value(SolvedFor(lhs, rhs), sigma) == sigma(rhs.terms[0].v)
  {
    var rest := Term(rhs.terms[1..], rhs.konst);
    MovedValue(lhs, rest, sigma);
    FirstSlotValue(rhs, sigma);
  }

  lemma MovedValue(lhs: Term, rest: Term, sigma: VarId -> int)
    ensures Value(lhs.Minus(rest), sigma) == Value(lhs, sigma) - Value(rest, sigma)
    ensures Value(lhs.Minus(rest).Scale(-1), sigma) == Value(rest, sigma) - Value(lhs, sigma)
  {
    TermArithmetic(lhs, rest, 0, sigma);
    TermArithmetic(lhs.Minus(rest), rest, -1, sigma);
  }

  // A term is its first slot and the rest.
  lemma FirstSlotValue(t: Term, sigma: VarId -> int)
    requires t.terms != []
    ensures Value(t, sigma) == t.terms[0].coeff * sigma(t.terms[0].v) + Value(Term(t.terms[1..], t.konst), sigma)
  {
  }

  lemma SingleSlotValue(c: int, v: VarId, sigma: VarId -> int)
    ensures Value(Term([Slot(c, v)], 0), sigma) == c * sigma(v)
  {
    SumSnoc([], Slot(c, v), sigma);
    assert [] + [Slot(c, v)] == [Slot(c, v)];
  }

  // The equation and its rewriting hold under the same valuations.
  ghost predicate Equivalent(lhs: Term, rhs: Term, sigma: VarId -> int)
    requires rhs.terms != []
  {
    Value(lhs, sigma) == Value(rhs, sigma) <==> Value(SolvedFor(lhs, rhs), sigma) == sigma(rhs.terms[0].v)
  }

  // The rewriting keeps the solutions of every equation whose right side leads with the coefficient `c`.
  ghost predicate KeepsSolutions(c: int) {
    forall lhs: Term, rhs: Term, sigma: VarId -> int :: rhs.terms != [] && rhs.terms[0].coeff == c ==>
      Equivalent(lhs, rhs, sigma)
  }

  // The equation c = c·v has the solution 1; its rewriting says c² where it should say 1, or 0 where `c` is 0.
  lemma SquaredCoefficient(c: int, v: VarId, sigma: VarId -> int)
    requires c != 1 && sigma(v) == 1
    ensures Value(Constant(c), sigma) == Value(Term([Slot(c, v)], 0), sigma)
    ensures Value(SolvedFor(Constant(c), Term([Slot(c, v)], 0)), sigma) == c * c
  {
    SingleSlotValue(c, v, sigma);
    var rhs := Term([Slot(c, v)], 0);
    assert Term(rhs.terms[1..], rhs.konst) == Constant(0);
    ScaledConstant(0, -1);
    ScaledConstant(c, c);
    assert Constant(c).Minus(Constant(0)) == Constant(c);
    assert SolvedFor(Constant(c), rhs) == Constant(c * c);
  }

  lemma ScaledConstant(n: int, k: int)
    ensures Constant(n).Scale(k) == Constant(n * k)
  {
    assert ScaleSlots([], k) == [];
  }

  // The coefficients 1 and -1 are the only ones under which solving for the leading variable keeps the solutions.
  lemma SolvedForNeedsUnitCoefficient(c: int)
    ensures KeepsSolutions(c) <==> c == 1 || c == -1
  {
    if c == 1 || c == -1 {
      forall lhs: Term, rhs: Term, sigma: VarId -> int | rhs.terms != [] && rhs.terms[0].coeff == c
        ensures Equivalent(lhs, rhs, sigma)
      {
        SolvedForIsEquivalent(lhs, rhs, sigma);
      }
    } else {
      var sigma: VarId -> int := (v: VarId) => 1;
      SquaredCoefficient(c, 0, sigma);
      OnlyUnitsSquareToOne(c);
      assert !Equivalent(Constant(c), Term([Slot(c, 0)], 0), sigma);
    }
  }

  lemma OnlyUnitsSquareToOne(c: int)
    ensures c * c == 1 <==> c == 1 || c == -1
  {
    if c >= 2 { assert c * c >= 2 * c; }
    if c <= -2 { assert c * c == (-c) * (-c) >= 2 * (-c); }
  }

  // ----- products and equations -----

  // A product with a constant operand is exact and leaves the system alone; any other is the variable pinned to the
  // full range.
  lemma TimesMeans(s: Sys, x: Term, y: Term, sigma: VarId -> int)
    requires s.Valid()
    ensures x.IsConstant() || y.IsConstant() ==>
              s.Times(x, y).0 == s && Value(s.Times(x, y).1, sigma) == Value(x, sigma) * Value(y, sigma)
    ensures !x.IsConstant() && !y.IsConstant() ==>
              exists v: VarId :: s.Times(x, y).1 == VarTerm(v) && (v, TOP) in s.Times(x, y).0.fixed
  {
    if x.IsConstant() {
      TermArithmetic(y, y, x.konst, sigma);
    } else if y.IsConstant() {
      TermArithmetic(x, x, y.konst, sigma);
    } else if s.topVar.Some? {
      assert s.Times(x, y).1 == VarTerm(s.topVar.value);
    } else {
      var t := s.Times(x, y).0;
      assert t.fixed[|s.fixed|] == (s.Size(), TOP) && s.Times(x, y).1 == VarTerm(s.Size());
    }
  }

  // A valuation that keeps to the pins `fixed`.
  ghost predicate Keeps(fixed: seq<(VarId, Range)>, sigma: VarId -> int) {
    forall i :: 0 <= i < |fixed| ==> InRange(fixed[i].1, sigma(fixed[i].0))
  }

  // Equating a variable, or a variable and an offset, with a constant pins it to the one value that makes the two
  // sides equal, as long as that value is finite.
  lemma EquateMeans(s: Sys, a: Term, b: Term, sigma: VarId -> int)
    requires a.IsConstant() != b.IsConstant() && (if a.IsConstant() then b else a).SingleVarAny().Some?
    requires Finite(if a.IsConstant() then a.konst - b.konst else b.konst - a.konst)
    ensures Keeps(s.Equate(a, b).fixed, sigma) <==> Keeps(s.fixed, sigma) && Value(a, sigma) == Value(b, sigma)
    ensures s.Equate(a, b) == s.(fixed := s.Equate(a, b).fixed)
  {
    var (c, t) := if a.IsConstant() then (a, b) else (b, a);
    var (k, v) := t.SingleVarAny().value;
    var pin := (v, Singleton(c.konst - k));
    assert s.Equate(a, b).fixed == s.fixed + [pin];
    SingleSlotValue(1, v, sigma);
    assert t == Term([Slot(1, v)], k) && Value(t, sigma) == k + sigma(v) && Value(c, sigma) == c.konst;
    if Keeps(s.fixed + [pin], sigma) {
      assert InRange((s.fixed + [pin])[|s.fixed|].1, sigma(v));
      forall i | 0 <= i < |s.fixed| ensures InRange(s.fixed[i].1, sigma(s.fixed[i].0)) {
        assert (s.fixed + [pin])[i] == s.fixed[i];
      }
    }
  }

  // Any two other terms that are not both bare variables are included into each other: each of the two constraints is
  // the equation, solved for the leading variable of the other side.
  lemma EquationMeans(s: Sys, a: Term, b: Term, sigma: VarId -> int)
    requires !a.IsConstant() && !b.IsConstant() && (a.SingleVar().None? || b.SingleVar().None?)
    requires a.terms[0].coeff in {1, -1} && b.terms[0].coeff in {1, -1}
    ensures var t := s.Equate(a, b);
            && t == s.(constraints := t.constraints) && |t.constraints| == |s.constraints| + 2
            && forall i :: 0 <= i < |t.constraints| ==>
                 if i < |s.constraints| then t.constraints[i] == s.constraints[i]
                 else t.constraints[i].Subset? && AsEquation(t.constraints[i], a, b, sigma)
    ensures var cs, n := s.Equate(a, b).constraints, |s.constraints|;
            cs[n].target == b.terms[0].v && cs[n + 1].target == a.terms[0].v
  {
    SolvedForIsEquivalent(a, b, sigma);
    SolvedForIsEquivalent(b, a, sigma);
  }

  // Read as an equation, the constraint says that the two terms are equal.
  ghost predicate AsEquation(c: Constraint, a: Term, b: Term, sigma: VarId -> int)
    requires c.Subset?
  {
    Value(c.lhs, sigma) == sigma(c.target) <==> Value(a, sigma) == Value(b, sigma)
  }

  // A hard lower bound on a variable raises the floor of its class to that bound; on any other term it is dropped.
  lemma HardGeMeans(s: Sys, v: VarId, c: int)
    requires s.Valid() && v < s.Size()
    ensures var p, q := s.Snapshot(), s.HardGe(VarTerm(v), c).Snapshot();
            && q.Valid()
            && (var was := Floor(p, s.root[v]);
                Floor(q, s.root[v]) == Some(Max(if was.Some? then was.value else NEGINF, c)))
            && forall u :: u != s.root[v] ==> Floor(q, u) == Floor(p, u)
    ensures forall t: Term :: t.SingleVar().None? ==> s.HardGe(t, c) == s
  {
    var p, q := s.Snapshot(), s.HardGe(VarTerm(v), c).Snapshot();
    assert q.hardLo[..|p.hardLo|] == p.hardLo && q.hardLo[|p.hardLo|] == (v, c);
    forall u ensures FloorAmong(q, p.hardLo, u) == FloorAmong(p, p.hardLo, u) { SameFloors(p, q, p.hardLo, u); }
  }

  lemma {:induction false} SameFloors(p: Problem, q: Problem, hardLo: seq<(VarId, int)>, v: VarId)
    requires |p.canon| == p.Size() == q.Size() && p.canon == q.canon
    requires forall i :: 0 <= i < |hardLo| ==> hardLo[i].0 < p.Size()
    ensures FloorAmong(q, hardLo, v) == FloorAmong(p, hardLo, v)
  {
    if hardLo != [] { SameFloors(p, q, hardLo[..|hardLo| - 1], v); }
  }

  // ----- growth -----

  // `t` has everything `s` has, in the same places; the classes and the pins of `s` are kept.
  ghost predicate Grown(s: Sys, t: Sys) {
    && s.names <= t.names && s.constraints <= t.constraints && s.queries <= t.queries
    && s.fixed <= t.fixed && s.hardLo == t.hardLo
  }

  lemma GrownTransitive(s: Sys, t: Sys, u: Sys)
    requires Grown(s, t) && Grown(t, u)
    ensures Grown(s, u)
  {
  }

  lemma FreshGrows(s: Sys, name: Option<string>)
    requires s.Valid()
    ensures Grown(s, s.Fresh(name).0) && s.Fresh(name).0.Valid()
    ensures s.Fresh(name).1.VarsBelow(s.Fresh(name).0.Size()) && s.Fresh(name).0.Size() == s.Size() + 1
  {
    var t := s.Fresh(name).0;
    WiderProblem(s.Snapshot(), t.Snapshot());
  }

  // One more variable, alone in its class, keeps a problem valid.
  lemma WiderProblem(p: Problem, q: Problem)
    requires p.Valid() && |q.names| == |p.names| + 1 && q.canon == p.canon + [|p.names|]
    requires q.constraints == p.constraints && q.queries == p.queries && q.fixed == p.fixed && q.hardLo == p.hardLo
    ensures q.Valid()
  {
    forall i | 0 <= i < |q.constraints| ensures ConstraintBelow(q.constraints[i], q.Size()) {
      assert ConstraintBelow(p.constraints[i], p.Size());
    }
    forall v | 0 <= v < q.Size() ensures q.canon[q.canon[v]] == q.canon[v] {
      if v < p.Size() { assert p.canon[p.canon[v]] == p.canon[v]; }
    }
  }

  lemma IncludeGrows(s: Sys, lhs: Term, rhs: Term)
    requires s.Valid() && lhs.VarsBelow(s.Size()) && rhs.VarsBelow(s.Size())
    ensures Grown(s, s.Include(lhs, rhs)) && s.Include(lhs, rhs).Valid() && s.Include(lhs, rhs).Size() == s.Size()
  {
    if rhs.terms != [] {
      var rest, n := Term(rhs.terms[1..], rhs.konst), s.Size();
      assert rest.VarsBelow(n) by {
        forall i | 0 <= i < |rest.terms| ensures rest.terms[i].v < n { assert rhs.terms[i + 1].v < n; }
      }
      ArithmeticVarsBelow(lhs, rest, 0, n);
      ArithmeticVarsBelow(lhs.Minus(rest), rest, rhs.terms[0].coeff, n);
      var c := Subset(SolvedFor(lhs, rhs), rhs.terms[0].v);
      assert ConstraintBelow(c, n);
      MoreConstraints(s.Snapshot(), s.Include(lhs, rhs).Snapshot(), c);
    }
  }

  lemma SeedIsInclude(s: Sys, k: int, v: VarId)
    ensures s.Seed(k, v) == s.Include(Constant(k), VarTerm(v))
  {
    var rhs := VarTerm(v);
    assert Term(rhs.terms[1..], rhs.konst) == Constant(0);
    PlusConstant(Constant(k), 0);
  }

  lemma SeedGrows(s: Sys, k: int, v: VarId)
    requires s.Valid() && v < s.Size()
    ensures Grown(s, s.Seed(k, v)) && s.Seed(k, v).Valid() && s.Seed(k, v).Size() == s.Size()
  {
    MoreConstraints(s.Snapshot(), s.Seed(k, v).Snapshot(), Subset(Constant(k), v));
  }

  lemma MoreConstraints(p: Problem, q: Problem, c: Constraint)
    requires p.Valid() && ConstraintBelow(c, p.Size()) && q == p.(constraints := p.constraints + [c])
    ensures q.Valid()
  {
  }

  lemma TopGrows(s: Sys)
    requires s.Valid()
    ensures Grown(s, s.Top().0) && s.Top().0.Valid() && s.Top().1.VarsBelow(s.Top().0.Size())
  {
    if s.topVar.None? {
      FreshGrows(s, Some("top"));
    }
  }

  lemma ItemGrows(s: Sys, t: Term)
    requires s.Valid() && t.VarsBelow(s.Size())
    ensures var (s', item) := s.MinItemOf(t);
            Grown(s, s') && s'.Valid() && s.Size() <= s'.Size() && (item.MinTerm? ==> item.v < s'.Size())
  {
    if !t.IsConstant() && t.SingleVar().None? {
      FreshGrows(s, None);
      IncludeGrows(s.Fresh(None).0, t, s.Fresh(None).1);
    }
  }

  lemma MinGrows(s: Sys, x: Term, y: Term)
    requires s.Valid() && x.VarsBelow(s.Size()) && y.VarsBelow(s.Size())
    ensures Grown(s, s.MinOf(x, y).0) && s.MinOf(x, y).0.Valid() && s.Size() <= s.MinOf(x, y).0.Size()
    ensures s.MinOf(x, y).1.VarsBelow(s.MinOf(x, y).0.Size())
  {
    FreshGrows(s, None);
    var s0 := s.Fresh(None).0;
    ItemGrows(s0, x);
    var (s1, a) := s0.MinItemOf(x);
    ItemGrows(s1, y);
    var (s2, b) := s1.MinItemOf(y);
    var c := MinSubset([a, b], s.Size());
    assert ConstraintBelow(c, s2.Size());
    MoreConstraints(s2.Snapshot(), s.MinOf(x, y).0.Snapshot(), c);
  }

  lemma UnionGrows(s: Sys, x: Term, y: Term)
    requires s.Valid() && x.VarsBelow(s.Size()) && y.VarsBelow(s.Size())
    ensures Grown(s, s.UnionOf(x, y).0) && s.UnionOf(x, y).0.Valid() && s.Size() <= s.UnionOf(x, y).0.Size()
    ensures s.UnionOf(x, y).1.VarsBelow(s.UnionOf(x, y).0.Size())
  {
    FreshGrows(s, None);
    var (s0, z) := s.Fresh(None);
    IncludeGrows(s0, x, z);
    IncludeGrows(s0.Include(x, z), y, z);
  }

  lemma TimesGrows(s: Sys, x: Term, y: Term)
    requires s.Valid() && x.VarsBelow(s.Size()) && y.VarsBelow(s.Size())
    ensures Grown(s, s.Times(x, y).0) && s.Times(x, y).0.Valid() && s.Size() <= s.Times(x, y).0.Size()
    ensures s.Times(x, y).1.VarsBelow(s.Times(x, y).0.Size())
  {
    TopGrows(s);
  }

  lemma ForceTopGrows(s: Sys, t: Term)
    requires s.Valid() && t.VarsBelow(s.Size())
    ensures Grown(s, s.ForceTop(t)) && s.ForceTop(t).Valid() && s.ForceTop(t).Size() == s.Size()
  {
    IncludeGrows(s, Constant(1), t);
    ArithmeticVarsBelow(t, Constant(1), 0, s.Size());
    IncludeGrows(s.Include(Constant(1), t), t.Plus(Constant(1)), t);
  }

  // ----- solutions as functions of the variables -----

  type Assignment = VarId -> Range

  ghost function EvalAt(slots: seq<Slot>, konst: int, rho: Assignment): Range {
    if slots == [] then Singleton(konst)
    else
      var init, last := slots[..|slots| - 1], slots[|slots| - 1];
      Add(EvalAt(init, konst, rho), Mul(last.coeff, rho(last.v)))
  }

  // Every sum formed while evaluating the term adds operands that do not skew each other.
  ghost predicate StraightSums(slots: seq<Slot>, konst: int, rho: Assignment) {
    slots != [] ==>
      var init, last := slots[..|slots| - 1], slots[|slots| - 1];
      && StraightSums(init, konst, rho)
      && Aligned(EvalAt(init, konst, rho), Mul(last.coeff, rho(last.v)))
  }

  ghost function ItemAt(item: MinItem, rho: Assignment): Range {
    match item
    case MinConst(k) => Singleton(k)
    case MinTerm(c, v) => Mul(c, rho(v))
  }

  ghost function ItemsAt(items: seq<MinItem>, rho: Assignment): Range {
    if items == [] then Singleton(INF)
    else RMin(ItemsAt(items[..|items| - 1], rho), ItemAt(items[|items| - 1], rho))
  }

  ghost predicate Satisfied(c: Constraint, rho: Assignment) {
    match c
    case Subset(lhs, v) => Leq(EvalAt(lhs.terms, lhs.konst, rho), rho(v)) && StraightSums(lhs.terms, lhs.konst, rho)
    case MinSubset(items, v) => Leq(ItemsAt(items, rho), rho(v))
  }

  // A straight solution: every constraint and every pin holds under `rho`.
  ghost predicate Solves(rho: Assignment, s: Sys) {
    && (forall v :: rho(v).Bounded())
    && (forall i :: 0 <= i < |s.constraints| ==> Satisfied(s.constraints[i], rho))
    && (forall i :: 0 <= i < |s.fixed| ==> Leq(s.fixed[i].1, rho(s.fixed[i].0)))
  }

  lemma SolvesSmaller(rho: Assignment, s: Sys, t: Sys)
    requires Grown(s, t) && Solves(rho, t)
    ensures Solves(rho, s)
  {
    assert forall i :: 0 <= i < |s.constraints| ==> s.constraints[i] == t.constraints[i];
    assert forall i :: 0 <= i < |s.fixed| ==> s.fixed[i] == t.fixed[i];
  }

  // Contributions between scaled endpoints lie in the scaled range.
  lemma BetweenHolds(c: int, r: Range, y: int)
    requires r.Bounded() && Between(c, r, y)
    ensures Holds(Mul(c, r), y)
  {
    MulNonEmpty(c, r);
    if c != 0 {
      MulEpIsClampedProduct(c, r.lo);
      MulEpIsClampedProduct(c, r.hi);
      ProductOutgrows(c, r.lo);
      ProductOutgrows(c, r.hi);
    }
  }

  // Saturated evaluation contains every value a term denotes, as long as no sum is skewed.
  lemma {:induction false} EvaluationSound(slots: seq<Slot>, konst: int, rho: Assignment, parts: seq<int>, total: int)
    requires Splits(slots, rho, parts, total) && StraightSums(slots, konst, rho) && forall v :: rho(v).Bounded()
    ensures Holds(EvalAt(slots, konst, rho), konst + total)
  {
    if slots != [] {
      var init, last, y := slots[..|slots| - 1], slots[|slots| - 1], parts[|parts| - 1];
      SplitsInit(slots, rho, parts, total);
      EvaluationSound(init, konst, rho, parts[..|parts| - 1], total - y);
      BetweenHolds(last.coeff, rho(last.v), y);
      AddSound(EvalAt(init, konst, rho), Mul(last.coeff, rho(last.v)), konst + (total - y), y);
    }
  }

  lemma DenotedIsEvaluated(t: Term, rho: Assignment, n: int)
    requires Denotes(t, rho, n) && StraightSums(t.terms, t.konst, rho) && forall v :: rho(v).Bounded()
    ensures Holds(EvalAt(t.terms, t.konst, rho), n)
  {
    var parts := PartsOf(t.terms, rho, n - t.konst);
    EvaluationSound(t.terms, t.konst, rho, parts, n - t.konst);
  }

  // ----- what the operators promise -----

  // The left-hand side minus the rest of the right-hand side, scaled by the coefficient of the target, flows into
  // the target: for a coefficient of 1 or -1 the value the target must have, by `SolvedForIsEquivalent`.
  lemma IncludeFlows(s: Sys, lhs: Term, rhs: Term, v: VarId, rho: Assignment, n: int, m: int)
    requires rhs.terms != [] && rhs.terms[0].v == v
    requires Solves(rho, s.Include(lhs, rhs))
    requires Denotes(lhs, rho, n) && Denotes(Term(rhs.terms[1..], rhs.konst), rho, m)
    ensures var c := rhs.terms[0].coeff; Holds(rho(v), if c in {0, 1} then n - m else c * (n - m))
  {
    var rest, k := Term(rhs.terms[1..], rhs.konst), rhs.terms[0].coeff;
    var c, value := Subset(SolvedFor(lhs, rhs), v), if k in {0, 1} then n - m else k * (n - m);
    assert s.Include(lhs, rhs).constraints[|s.constraints|] == c;
    assert Satisfied(c, rho);
    ArithmeticDenotes(lhs, rest, 0, rho, n, m);
    ArithmeticDenotes(lhs.Minus(rest), rest, k, rho, n - m, m);
    DenotedIsEvaluated(c.lhs, rho, value);
    HoldsMonotone(EvalAt(c.lhs.terms, c.lhs.konst, rho), rho(v), value);
  }

  lemma IncludeFlowsTo(s: Sys, lhs: Term, v: VarId, rho: Assignment, n: int)
    requires Solves(rho, s.Include(lhs, VarTerm(v))) && Denotes(lhs, rho, n)
    ensures Holds(rho(v), n)
  {
    assert Term(VarTerm(v).terms[1..], VarTerm(v).konst) == Constant(0);
    ConstantDenotes(0, rho);
    IncludeFlows(s, lhs, VarTerm(v), v, rho, n, 0);
  }

  lemma BareVarDenotes(v: VarId, rho: Assignment, n: int)
    requires Denotes(VarTerm(v), rho, n)
    ensures Holds(rho(v), n)
  {
    var slots := [Slot(1, v)];
    var parts := PartsOf(slots, rho, n);
    assert Splits(slots[1..], rho, parts[1..], n - parts[0]);
  }

  lemma SingleVarIsVarTerm(t: Term)
    requires t.SingleVar().Some?
    ensures t == VarTerm(t.SingleVar().value)
  {
    assert t.terms == [t.terms[0]];
  }

  lemma ItemFlows(s: Sys, t: Term, rho: Assignment, n: int)
    requires Solves(rho, s.MinItemOf(t).0) && Denotes(t, rho, n)
    ensures Holds(ItemAt(s.MinItemOf(t).1, rho), n)
  {
    if t.IsConstant() {
      var parts := PartsOf(t.terms, rho, n - t.konst);
    } else if t.SingleVar().Some? {
      var v := t.SingleVar().value;
      SingleVarIsVarTerm(t);
      BareVarDenotes(v, rho, n);
      MulSound(1, rho(v), n);
    } else {
      IncludeFlowsTo(s.Fresh(None).0, t, s.Size(), rho, n);
      MulSound(1, rho(s.Size()), n);
    }
  }

  // The fresh variable of a `min` holds the minimum of any two values of the operands.
  lemma MinFlows(s: Sys, x: Term, y: Term, rho: Assignment, a: int, b: int)
    requires Solves(rho, s.MinOf(x, y).0) && Denotes(x, rho, a) && Denotes(y, rho, b)
    ensures Denotes(s.MinOf(x, y).1, rho, Min(a, b)) && Holds(rho(s.Size()), Min(a, b))
  {
    var s0 := s.Fresh(None).0;
    var (s1, i) := s0.MinItemOf(x);
    var (s2, j) := s1.MinItemOf(y);
    var s3 := s.MinOf(x, y).0;
    assert Solves(rho, s2) by {
      assert forall k :: 0 <= k < |s2.constraints| ==> s2.constraints[k] == s3.constraints[k];
    }
    assert Solves(rho, s1) by {
      assert forall k :: 0 <= k < |s1.constraints| ==> s1.constraints[k] == s2.constraints[k];
    }
    ItemFlows(s0, x, rho, a);
    ItemFlows(s1, y, rho, b);
    assert Satisfied(s3.constraints[|s2.constraints|], rho);
    TwoItems(i, j, rho);
    RMinSound(ItemAt(i, rho), ItemAt(j, rho), a, b);
    HoldsMonotone(ItemsAt([i, j], rho), rho(s.Size()), Min(a, b));
    VarDenotes(s.Size(), rho, Min(a, b));
  }

  // Seeding with +Inf is neutral: two items evaluate to their minimum.
  lemma TwoItems(i: MinItem, j: MinItem, rho: Assignment)
    requires forall v :: rho(v).Bounded()
    requires !ItemAt(i, rho).IsEmpty() && !ItemAt(j, rho).IsEmpty()
    ensures ItemsAt([i, j], rho) == RMin(ItemAt(i, rho), ItemAt(j, rho))
  {
    assert [i, j][..1] == [i] && [i][..0] == [];
    assert ItemsAt([i], rho) == RMin(ItemsAt([], rho), ItemAt(i, rho));
  }

  // The fresh variable of a union holds everything between the operands' values.
  lemma UnionFlows(s: Sys, x: Term, y: Term, rho: Assignment, a: int, b: int, n: int)
    requires Solves(rho, s.UnionOf(x, y).0) && Denotes(x, rho, a) && Denotes(y, rho, b)
    requires a <= n <= b || b <= n <= a
    ensures Denotes(s.UnionOf(x, y).1, rho, n) && Holds(rho(s.Size()), n)
  {
    var (s0, z) := s.Fresh(None);
    var s1 := s0.Include(x, z);
    assert Solves(rho, s1) by {
      var s2 := s1.Include(y, z);
      assert forall k :: 0 <= k < |s1.constraints| ==> s1.constraints[k] == s2.constraints[k];
    }
    IncludeFlowsTo(s0, x, s.Size(), rho, a);
    IncludeFlowsTo(s1, y, s.Size(), rho, b);
    VarDenotes(s.Size(), rho, n);
  }

  lemma SeedHolds(rho: Assignment, k: int, v: VarId)
    requires Satisfied(Subset(Constant(k), v), rho) && forall u :: rho(u).Bounded()
    ensures Holds(rho(v), k)
  {
    ConstantDenotes(k, rho);
    DenotedIsEvaluated(Constant(k), rho, k);
    HoldsMonotone(EvalAt([], k, rho), rho(v), k);
  }

  lemma ConstantsFlow(s: Sys, a: int, b: int, rho: Assignment, n: int)
    requires Solves(rho, s.UnionOf(Constant(a), Constant(b)).0) && a <= n <= b
    ensures Denotes(s.UnionOf(Constant(a), Constant(b)).1, rho, n)
  {
    ConstantDenotes(a, rho);
    ConstantDenotes(b, rho);
    UnionFlows(s, Constant(a), Constant(b), rho, a, b, n);
  }

  lemma TimesFlows(s: Sys, x: Term, y: Term, rho: Assignment, a: int, b: int)
    requires s.Valid() && Solves(rho, s.Times(x, y).0) && Denotes(x, rho, a) && Denotes(y, rho, b)
    ensures Denotes(s.Times(x, y).1, rho, a * b)
  {
    if x.IsConstant() {
      var parts := PartsOf(x.terms, rho, a - x.konst);
      ArithmeticDenotes(y, y, x.konst, rho, b, b);
    } else if y.IsConstant() {
      var parts := PartsOf(y.terms, rho, b - y.konst);
      ArithmeticDenotes(x, x, y.konst, rho, a, a);
    } else {
      TopHolds(s, rho, a * b);
    }
  }

  lemma TopHolds(s: Sys, rho: Assignment, n: int)
    requires s.Valid() && Solves(rho, s.Top().0)
    ensures Denotes(s.Top().1, rho, n)
  {
    var v := if s.topVar.Some? then s.topVar.value else s.Size();
    var t := s.Top().0;
    assert (v, TOP) in t.fixed by {
      if s.topVar.None? { assert t.fixed[|s.fixed|] == (v, TOP); }
    }
    var i :| 0 <= i < |t.fixed| && t.fixed[i] == (v, TOP);
    assert Leq(t.fixed[i].1, rho(v));
    VarDenotes(v, rho, n);
  }

  // A variable and the rest of a term make up the term.
  lemma FirstSlotDenotes(t: Term, rho: Assignment, a: int, m: int)
    requires t.terms != [] && t.terms[0].coeff == 1
    requires Holds(rho(t.terms[0].v), a) && Denotes(Term(t.terms[1..], t.konst), rho, m)
    ensures Denotes(t, rho, a + m)
  {
    var parts := PartsOf(t.terms[1..], rho, m - t.konst);
    var all := [a] + parts;
    assert all[1..] == parts;
    assert Splits(t.terms, rho, all, a + m - t.konst);
    SplitsDenote(t.terms, rho, all, a + m - t.konst);
  }

  // A forced term takes every value from 1 upwards: against any value `m` of the rest, its first variable holds
  // every number from `1 - m` on.
  lemma {:induction false} ForceTopFlows(s: Sys, t: Term, rho: Assignment, m: int, n: int)
    requires t.terms != [] && t.terms[0].coeff == 1 && Denotes(Term(t.terms[1..], t.konst), rho, m)
    requires Solves(rho, s.ForceTop(t)) && n >= 1
    ensures Holds(rho(t.terms[0].v), n - m)
    decreases n
  {
    var v, s1 := t.terms[0].v, s.Include(Constant(1), t);
    assert Solves(rho, s1) by {
      assert forall k :: 0 <= k < |s1.constraints| ==> s1.constraints[k] == s.ForceTop(t).constraints[k];
    }
    ConstantDenotes(1, rho);
    if n == 1 {
      IncludeFlows(s, Constant(1), t, v, rho, 1, m);
    } else {
      ForceTopFlows(s, t, rho, m, n - 1);
      FirstSlotDenotes(t, rho, n - 1 - m, m);
      ArithmeticDenotes(t, Constant(1), 0, rho, n - 1, 1);
      IncludeFlows(s1, t.Plus(Constant(1)), t, v, rho, n, m);
    }
  }

  lemma ForceVarFlows(s: Sys, v: VarId, rho: Assignment, n: int)
    requires Solves(rho, s.ForceTop(VarTerm(v))) && n >= 1
    ensures Holds(rho(v), n)
  {
    assert Term(VarTerm(v).terms[1..], VarTerm(v).konst) == Constant(0);
    ConstantDenotes(0, rho);
    ForceTopFlows(s, VarTerm(v), rho, 0, n);
  }

  lemma PlusConstant(t: Term, k: int)
    ensures t.Plus(Constant(k)) == Term(t.terms, t.konst + k)
    ensures t.Minus(Constant(k)) == Term(t.terms, t.konst - k)
  {
    assert ScaleSlots([], -1) == [];
  }
}
