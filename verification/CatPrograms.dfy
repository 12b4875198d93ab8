/**
 A program that appends under a bound and copies the result on:
 `char d[size] = a; char e[room]; strncat(d, s, n); strcpy(e, d);` with literals `a` and `s`,
 the bound being any constant expression.

 The bound is unsigned in C, so a negative `int` lets the whole source through, while the analyser takes it for a
 minimum and lets the length of `d` shrink to -Inf. Both arrays then go unreported, and the copy may overrun `e`, as it
 does for `char d[8] = "abc"; char e[4]; strncat(d, "xyz", -1); strcpy(e, d);`. For every other bound silence is right.
 */
module CatPrograms {
  import opened Buffers
  import opened Ranges
  import opened Terms
  import opened Problems
  import opened Components
  import opened Graphs
  import opened Solver
  import opened Solve
  import opened Verdicts
  import opened Feedback
  import opened Systems
  import opened Syntax
  import opened Generator
  import opened Soundness
  import opened EndToEnd
  import opened Programs
  import Cycles
  import Runs

  function CatArgs(s: string, b: Expr): seq<Expr> { [Var("d"), StrConst(s), b] }

  function Filled(size: int, a: string): Stmt { Decl("d", CharArray(Some(size)), Some(StrConst(a))) }

  function Unfilled(room: int): Stmt { Decl("e", CharArray(Some(room)), None) }

  function Cat(s: string, b: Expr): Stmt { Simple(Call("strncat", CatArgs(s, b))) }

  function Copy(): Stmt { Simple(Call("strcpy", [Var("e"), Var("d")])) }

  function CatProgram(size: int, a: string, room: int, s: string, b: Expr): seq<Stmt> {
    [Filled(size, a), Unfilled(room), Cat(s, b), Copy()]
  }

  function Sum(k: VarId, v: VarId): Term { Term([Slot(1, k), Slot(1, v)], 0) }

  // With the lengths `a` of `d` and `len` of the source, the latter without its terminator: size ⊆ x0, room ⊆ x2,
  // a ⊆ x1, min(len, n) ⊆ x4, x4 + x1 ⊆ x1, x1 ⊆ x3, with x0 ≥ x1 and x2 ≥ x3 asked.
  function CatProblem(size: int, a: int, room: int, len: int, n: int): Problem {
    Problem([Some("siz(d)"), Some("len(d)"), Some("siz(e)"), Some("len(e)"), None], [0, 1, 2, 3, 4],
            [Subset(Constant(size), 0), Subset(Constant(room), 2), Subset(Constant(a), 1),
             MinSubset([MinConst(len), MinConst(n)], 4), Subset(Sum(4, 1), 1), Subset(VarTerm(1), 3)],
            [Query(VarTerm(0), VarTerm(1), Overflow("d")), Query(VarTerm(2), VarTerm(3), Overflow("e"))], [], [])
  }

  // ----- the walk -----

  function ArraysWalk(size: int, room: int): Walk {
    var w := NewVar(Walk(NEW, map[], map[], 0), "d", CharArray(Some(size))).0;
    NewVar(w, "e", CharArray(Some(room))).0
  }

  lemma ArraysWalked(size: int, room: int)
    ensures var w := ArraysWalk(size, room);
            && w.vars == map["d" := CStr(VarTerm(0), VarTerm(1)), "e" := CStr(VarTerm(2), VarTerm(3))]
            && w.types == map["d" := CharArray(Some(size)), "e" := CharArray(Some(room))]
            && w.sys == Sys([Some("siz(d)"), Some("len(d)"), Some("siz(e)"), Some("len(e)")], [0, 1, 2, 3],
                            [Subset(Constant(size), 0), Subset(Constant(room), 2)],
                            [Query(VarTerm(0), VarTerm(1), Overflow("d")),
                             Query(VarTerm(2), VarTerm(3), Overflow("e"))], [], [], None)
  {
    var w0 := Walk(NEW, map[], map[], 0);
    ArrayWalked(w0, "d", size);
    ArrayWalked(NewVar(w0, "d", CharArray(Some(size))).0, "e", room);
    assert "siz(" + "d" + ")" == "siz(d)" && "len(" + "d" + ")" == "len(d)";
    assert "siz(" + "e" + ")" == "siz(e)" && "len(" + "e" + ")" == "len(e)";
  }

  lemma LocalsDeclared(size: int, a: string, room: int, s: string, b: Expr)
    ensures DeclareLocals(Walk(NEW, map[], map[], 0), BlockLocals(CatProgram(size, a, room, s, b))) ==
            ArraysWalk(size, room)
  {
    var w, d, e := Walk(NEW, map[], map[], 0), ("d", CharArray(Some(size))), ("e", CharArray(Some(room)));
    FourWalked(w, Filled(size, a), Unfilled(room), Cat(s, b), Copy());
    assert [d] + [e] + [] + [] == [d, e];
    TwoDeclared(w, "d", d.1, "e", e.1);
  }

  lemma FilledWalked(w: Walk, siz: VarId, v: VarId, size: int, a: string)
    requires "d" in w.vars && w.vars["d"] == CStr(VarTerm(siz), VarTerm(v)) && |a| + 1 <= size
    ensures GenStmt(w, Filled(size, a)) ==
            w.With(w.sys.(constraints := w.sys.constraints + [Subset(Constant(|a| + 1), v)]))
  {
    assert Gen(w, StrConst(a)) == (w, CStr(Constant(|a| + 1), Constant(|a| + 1)));
    IncludeBare(w.sys, Constant(|a| + 1), v);
  }

  lemma Summed(k: VarId, v: VarId)
    requires k != v
    ensures VarTerm(k).Plus(VarTerm(v)) == Sum(k, v)
  {
    var one := [Slot(1, v)];
    assert one[..0] == [];
    assert AddSlots([Slot(1, k)], one) == AddSlot(AddSlots([Slot(1, k)], []), 1, v);
    assert [Slot(1, k)][1..] == [] && AddSlot([], 1, v) == one;
  }

  // What `strncat` of constants into the length `v` adds to a system.
  function WithCat(y: Sys, len: int, n: int, v: VarId): Sys {
    var k := y.Size();
    y.(names := y.names + [None], root := y.root + [k],
       constraints := y.constraints + [MinSubset([MinConst(len), MinConst(n)], k), Subset(Sum(k, v), v)])
  }

  lemma CatAdds(w: Walk, siz: VarId, v: VarId, len: int, n: int)
    requires v < w.sys.Size()
    ensures CheckStrOp(w, Strncat,
            [CStr(VarTerm(siz), VarTerm(v)), CStr(Constant(len + 1), Constant(len + 1)), CInt(Constant(n))]).0
            == w.With(WithCat(w.sys, len, n, v))
  {
    PlusConstant(Constant(len + 1), 1);
    MinOfConstants(w.sys, len, n);
    var (s1, m) := w.sys.MinOf(Constant(len), Constant(n));
    Summed(w.sys.Size(), v);
    IncludeBare(s1, Sum(w.sys.Size(), v), v);
    assert s1.constraints + [Subset(Sum(w.sys.Size(), v), v)] == WithCat(w.sys, len, n, v).constraints;
  }

  lemma CatWalked(w: Walk, f: string, siz: VarId, v: VarId, s: string, b: Expr, n: int)
    requires ConstantValue(b) == Some(n) && RoutineOf(f) == Strncat && f !in w.vars && v < w.sys.Size()
    requires "d" in w.vars && w.vars["d"] == CStr(VarTerm(siz), VarTerm(v)) && f != "d"
    ensures Gen(w, Call(f, CatArgs(s, b))).0 == NewVar(w, f, OtherType).0.With(WithCat(w.sys, |s|, n, v))
  {
    var w0 := NewVar(w, f, OtherType).0;
    assert w0.sys == w.sys && w0.vars["d"] == w.vars["d"];
    ConstantWalked(w0, b);
    ThreeWalked(w0, Var("d"), StrConst(s), b);
    CatAdds(w0, siz, v, |s|, n);
  }

  lemma CopyWalked(w: Walk, f: string, to: Ctx, siz: VarId, v: VarId, u: VarId)
    requires RoutineOf(f) == Strcpy && f !in w.vars && f != "d" && f != "e"
    requires "d" in w.vars && w.vars["d"] == CStr(VarTerm(siz), VarTerm(v))
    requires "e" in w.vars && w.vars["e"] == to && to.CStr? && to.len == VarTerm(u)
    ensures Gen(w, Call(f, [Var("e"), Var("d")])).0 ==
            NewVar(w, f, OtherType).0.With(w.sys.(constraints := w.sys.constraints + [Subset(VarTerm(v), u)]))
  {
    var w0 := NewVar(w, f, OtherType).0;
    assert w0.sys == w.sys && w0.vars["d"] == w.vars["d"] && w0.vars["e"] == w.vars["e"];
    TwoWalked(w0, Var("e"), Var("d"));
    IncludeBare(w0.sys, VarTerm(v), u);
  }

  // What the four statements add, `v` and `u` being the lengths of `d` and `e`.
  function WithAll(y: Sys, a: int, len: int, n: int, v: VarId, u: VarId): Sys {
    var y1 := WithCat(y.(constraints := y.constraints + [Subset(Constant(a), v)]), len, n, v);
    y1.(constraints := y1.constraints + [Subset(VarTerm(v), u)])
  }

  lemma StatementsWalked(w: Walk, from: (VarId, VarId), to: (VarId, VarId), size: int, a: string, room: int, s: string,
                         b: Expr, n: int)
    requires "d" in w.vars && w.vars["d"] == CStr(VarTerm(from.0), VarTerm(from.1)) && from.1 < w.sys.Size()
    requires "e" in w.vars && w.vars["e"] == CStr(VarTerm(to.0), VarTerm(to.1))
    requires ConstantValue(b) == Some(n) && |a| + 1 <= size && "strncat" !in w.vars && "strcpy" !in w.vars
    ensures var w' := GenBlock(w, CatProgram(size, a, room, s, b));
            && w'.types == w.types["strncat" := OtherType]["strcpy" := OtherType]
            && w'.sys == WithAll(w.sys, |a| + 1, |s|, n, from.1, to.1)
  {
    FourWalked(w, Filled(size, a), Unfilled(room), Cat(s, b), Copy());
    FilledWalked(w, from.0, from.1, size, a);
    var w1 := GenStmt(w, Filled(size, a));
    assert GenStmt(w1, Unfilled(room)) == w1;
    StrncatNamed();
    StrcpyNamed();
    CatWalked(w1, "strncat", from.0, from.1, s, b, n);
    CopyWalked(Gen(w1, Cat(s, b).e).0, "strcpy", w.vars["e"], from.0, from.1, to.1);
  }

  lemma ProgramWalked(size: int, a: string, room: int, s: string, b: Expr, n: int)
    requires ConstantValue(b) == Some(n) && |a| + 1 <= size
    ensures ProblemOf(CatProgram(size, a, room, s, b)) == CatProblem(size, |a| + 1, room, |s|, n)
    ensures var env := GenBody(CatProgram(size, a, room, s, b)).types;
            TypeOf(env, "d") == CharArray(Some(size)) && TypeOf(env, "e") == CharArray(Some(room))
  {
    var w := ArraysWalk(size, room);
    ArraysWalked(size, room);
    LocalsDeclared(size, a, room, s, b);
    StatementsWalked(w, (0, 1), (2, 3), size, a, room, s, b, n);
    assert WithAll(w.sys, |a| + 1, |s|, n, 1, 3).constraints == CatProblem(size, |a| + 1, room, |s|, n).constraints;
  }

  // ----- the solution -----

  lemma SumEvaluates(p: Problem, k: VarId, v: VarId, r: seq<Range>)
    requires p.Valid() && |r| == p.Size() && AllBounded(r) && k < p.Size() && v < p.Size()
    ensures EvalTerm(p, Sum(k, v), r) == Ranges.Add(Cycles.Copied(r[p.canon[k]]), Cycles.Copied(r[p.canon[v]]))
  {
    var x, y, slots := r[p.canon[k]], r[p.canon[v]], Sum(k, v).terms;
    if !x.IsEmpty() { ScaledOnce(x); }
    if !y.IsEmpty() { ScaledOnce(y); }
    assert slots[..1] == [Slot(1, k)] && slots[..1][..0] == [];
    assert EvalSlots(p, slots[..1], 0, r) == Ranges.Add(Singleton(0), Ranges.Mul(1, x));
  }

  lemma CatFlowIs(size: int, a: int, room: int, len: int, n: int, r: seq<Range>)
    requires |r| == 5 && AllBounded(r)
    ensures var p := CatProblem(size, a, room, len, n);
            && p.Valid() && Apply(p, 0, r) == Singleton(size) && Apply(p, 2, r) == Singleton(room)
            && Apply(p, 1, r) == Hull(Singleton(a), Ranges.Add(Cycles.Copied(r[4]), Cycles.Copied(r[1])))
            && Apply(p, 3, r) == Cycles.Copied(r[1])
            && Apply(p, 4, r) == RMin(RMin(Singleton(INF), Singleton(len)), Singleton(n))
  {
    var p := CatProblem(size, a, room, len, n);
    Cycles.CopyFlows(p, 1, r);
    SumEvaluates(p, 4, 1, r);
    ConstantItems(p, len, n, r);
    FlowUpTo(p, 0, r);
    FlowUpTo(p, 1, r);
    FlowUpTo(p, 2, r);
    FlowUpTo(p, 3, r);
    FlowUpTo(p, 4, r);
  }

  // The inflow of a problem of six constraints, constraint by constraint.
  lemma FlowUpTo(p: Problem, v: VarId, r: seq<Range>)
    requires p.Valid() && |r| == p.Size() && |p.constraints| == 6 && v < p.Size() && p.hardLo == []
    ensures Apply(p, v, r) ==
            Joined(p, 5, v, r, Joined(p, 4, v, r, Joined(p, 3, v, r, Joined(p, 2, v, r,
                   Joined(p, 1, v, r, Joined(p, 0, v, r, EMPTY))))))
  {
    assert Inflow(p, 0, v, r) == EMPTY;
    assert Inflow(p, 1, v, r) == Joined(p, 0, v, r, EMPTY);
    assert Inflow(p, 2, v, r) == Joined(p, 1, v, r, Inflow(p, 1, v, r));
    assert Inflow(p, 3, v, r) == Joined(p, 2, v, r, Inflow(p, 2, v, r));
    assert Inflow(p, 4, v, r) == Joined(p, 3, v, r, Inflow(p, 3, v, r));
    assert Inflow(p, 5, v, r) == Joined(p, 4, v, r, Inflow(p, 4, v, r));
    assert Inflow(p, 6, v, r) == Joined(p, 5, v, r, Inflow(p, 5, v, r));
  }

  function Joined(p: Problem, i: nat, v: VarId, r: seq<Range>, x: Range): Range
    requires p.Valid() && |r| == p.Size() && i < |p.constraints|
  {
    if p.canon[p.constraints[i].target] == v then Hull(x, EvalConstraint(p, p.constraints[i], r)) else x
  }

  // The length of `d`: its literal, again and again `q` further on.
  function Lengthened(a: int, q: int): Range {
    if q > 0 then Range(a, INF) else if q == 0 then Range(a, a) else Range(NEGINF, a)
  }

  function CatResult(size: int, a: int, room: int, len: int, n: int): seq<Range> {
    var q := Min(len, n);
    [Singleton(size), Lengthened(a, q), Singleton(room), Lengthened(a, q), Singleton(q)]
  }

  ghost predicate Sensible(size: int, a: int, room: int, len: int, n: int) {
    0 < a <= size < INF && 0 < room < INF && 0 <= len < INF && n < INF
  }

  lemma CatResultSolves(size: int, a: int, room: int, len: int, n: int)
    requires Sensible(size, a, room, len, n)
    ensures var p := CatProblem(size, a, room, len, n); p.Valid() && Solution(p, CatResult(size, a, room, len, n))
  {
    var p, r := CatProblem(size, a, room, len, n), CatResult(size, a, room, len, n);
    CatFlowIs(size, a, room, len, n, r);
    assert forall v :: Pin(p, v).None?;
  }

  lemma CatResultIsLeast(size: int, a: int, room: int, len: int, n: int, s: seq<Range>)
    requires Sensible(size, a, room, len, n)
    requires var p := CatProblem(size, a, room, len, n); p.Valid() && Solution(p, s)
    ensures Below(CatResult(size, a, room, len, n), s)
  {
    var p := CatProblem(size, a, room, len, n);
    CatFlowIs(size, a, room, len, n, s);
    assert forall v :: Pin(p, v).None?;
    LengthenedIsLeast(a, Min(len, n), s[4], s[1]);
  }

  lemma LengthenedIsLeast(a: int, q: int, step: Range, x: Range)
    requires 0 < a < INF && q < INF && step.Bounded() && x.Bounded() && Leq(Singleton(q), step)
    requires Leq(Hull(Singleton(a), Ranges.Add(Cycles.Copied(step), Cycles.Copied(x))), x)
    ensures Leq(Lengthened(a, q), x)
  {
  }

  lemma CatLhs(size: int, a: int, room: int, len: int, n: int, i: nat, u: VarId)
    requires i < 6
    requires var p := CatProblem(size, a, room, len, n); p.Valid() && Reads(p, p.constraints[i], u)
    ensures (i == 4 && (u == 4 || u == 1)) || (i == 5 && u == 1)
  {
    var p := CatProblem(size, a, room, len, n);
    if i == 3 { ConstantsReadNothing(p, p.constraints[3], u); }
    assert i != 3 ==> LhsVars(p.constraints[i]) == if i == 4 then [4, 1] else if i == 5 then [1] else [];
  }

  lemma CatLoops(size: int, a: int, room: int, len: int, n: int, g: Graph)
    requires var p := CatProblem(size, a, room, len, n); p.Valid() && Influence(p, |p.constraints|, g)
    ensures OnlySelfCycles(g)
  {
    var p := CatProblem(size, a, room, len, n);
    forall i: nat, u: VarId | i < 6 && Reads(p, p.constraints[i], u)
      ensures (i == 4 && (u == 4 || u == 1)) || (i == 5 && u == 1)
    {
      CatLhs(size, a, room, len, n, i, u);
    }
    forall u: nat, v: nat | Edge(g, u, v) ensures (v == 1 && (u == 4 || u == 1)) || (v == 3 && u == 1) {
      assert FeedsBy(p, |p.constraints|, u, v);
    }
    assert Graphs.Closed(g, {1, 3}) && Graphs.Closed(g, {3});
    assert !Reach(g, 1, 4) && !Reach(g, 3, 1);
  }

  lemma CatIsTame(size: int, a: int, room: int, len: int, n: int, v: VarId)
    requires v < 5 && CatProblem(size, a, room, len, n).Valid()
    ensures var p := CatProblem(size, a, room, len, n);
            TameSelf(p, v, 1) && LinearSelf(p, v) && Floor(p, v).None?
  {
    var p := CatProblem(size, a, room, len, n);
    forall i: nat | i < 6 && p.canon[p.constraints[i].target] == v && Reads(p, p.constraints[i], v)
      ensures i == 4
    {
      CatLhs(size, a, room, len, n, i, v);
    }
    assert p.constraints[4] == Subset(Sum(4, 1), 1);
  }

  lemma CatSolved(size: int, a: int, room: int, len: int, n: int, g: Graph, cs: seq<seq<VarId>>, rank: seq<nat>)
    requires Sensible(size, a, room, len, n)
    requires var p := CatProblem(size, a, room, len, n);
             p.Valid() && Layers(p, cs, rank) && Influence(p, |p.constraints|, g) && Emission(g, cs)
    ensures var p := CatProblem(size, a, room, len, n);
            AllConverge(p, cs) && Final(p, cs) == CatResult(size, a, room, len, n)
  {
    var p, r := CatProblem(size, a, room, len, n), CatResult(size, a, room, len, n);
    CatLoops(size, a, room, len, n, g);
    forall v | 0 <= v < p.Size() ensures TameSelf(p, v, 1) && LinearSelf(p, v) && Floor(p, v).None? {
      CatIsTame(size, a, room, len, n, v);
    }
    OnlySelfCyclesConverge(p, g, cs, rank);
    CatResultSolves(size, a, room, len, n);
    LeastSolutionIsLeast(p);
    CatResultIsLeast(size, a, room, len, n, LeastSolution(p));
    forall v | 0 <= v < 5 ensures Final(p, cs)[v] == r[v] {
      assert Same(Final(p, cs)[v], LeastSolution(p)[v]);
      assert Leq(LeastSolution(p)[v], r[v]) && Leq(r[v], LeastSolution(p)[v]);
      assert !r[v].IsEmpty();
    }
  }

  // The one sum stays straight unless the bound is infinite.
  lemma SumIsStraight(p: Problem, k: VarId, v: VarId, r: seq<Range>)
    requires p.Valid() && |r| == p.Size() && AllBounded(r) && k < p.Size() && v < p.Size()
    requires !r[p.canon[k]].IsEmpty() && !r[p.canon[v]].IsEmpty()
    ensures StraightSums(Sum(k, v).terms, 0, Assigning(p, r)) <==> Aligned(r[p.canon[k]], r[p.canon[v]])
  {
    var slots, rho := Sum(k, v).terms, Assigning(p, r);
    ScaledOnce(r[p.canon[k]]);
    ScaledOnce(r[p.canon[v]]);
    assert slots[..1] == [Slot(1, k)] && slots[..1][..0] == [];
    assert EvalAt([], 0, rho) == Singleton(0) && StraightSums([], 0, rho);
    assert EvalAt(slots[..1], 0, rho) == r[p.canon[k]] && StraightSums(slots[..1], 0, rho);
  }

  lemma CopyIsStraight(p: Problem, v: VarId, r: seq<Range>)
    requires p.Valid() && |r| == p.Size() && v < p.Size()
    ensures StraightSums(VarTerm(v).terms, 0, Assigning(p, r))
  {
    var slots := VarTerm(v).terms;
    assert slots[..0] == [] && StraightSums([], 0, Assigning(p, r));
    assert EvalAt([], 0, Assigning(p, r)) == Singleton(0);
  }

  // A query between a finite size and a length.
  lemma SizeAsked(p: Problem, q: Query, u: VarId, v: VarId, size: int, r: seq<Range>)
    requires p.Valid() && |r| == p.Size() && AllBounded(r) && u < p.Size() && v < p.Size()
    requires q.a == VarTerm(u) && q.b == VarTerm(v)
    requires Finite(size) && r[p.canon[u]] == Singleton(size) && !r[p.canon[v]].IsEmpty()
    ensures Discerns(p, q, r) && (Fails(p, q, r) <==> r[p.canon[v]].hi > size)
  {
    VarTermEvaluates(p, u, r);
    VarTermEvaluates(p, v, r);
  }

  lemma StepsAlign(a: int, q: int)
    requires 0 < a < INF && q < INF
    ensures Aligned(Singleton(q), Lengthened(a, q)) <==> NEGINF < q
  {
  }

  // The conditions of the safety theorem, and what becomes of the two queries.
  lemma CatAsked(size: int, a: int, room: int, len: int, n: int)
    requires Sensible(size, a, room, len, n)
    ensures var p, r, q := CatProblem(size, a, room, len, n), CatResult(size, a, room, len, n), Min(len, n);
            && p.Valid() && PinsAbsorb(p, r) && (StraightResult(p, r) <==> NEGINF < n)
            && (Fails(p, p.queries[0], r) <==> q > 0) && (Fails(p, p.queries[1], r) <==> q > 0 || a > room)
  {
    var p, r := CatProblem(size, a, room, len, n), CatResult(size, a, room, len, n);
    SizeAsked(p, p.queries[0], 0, 1, size, r);
    SizeAsked(p, p.queries[1], 2, 3, room, r);
    CatStraight(p, r);
    StepsAlign(a, Min(len, n));
    assert forall v :: Pin(p, v).None?;
  }

  lemma CatStraight(p: Problem, r: seq<Range>)
    requires p.Valid() && |r| == p.Size() && AllBounded(r) && |p.constraints| == 6 && p.canon == [0, 1, 2, 3, 4]
    requires !r[4].IsEmpty() && !r[1].IsEmpty() && |p.queries| == 2
    requires Discerns(p, p.queries[0], r) && Discerns(p, p.queries[1], r)
    requires forall i :: 0 <= i < 6 && p.constraints[i].Subset? ==>
               p.constraints[i].lhs.terms ==
                 (if i == 4 then Sum(4, 1).terms else if i == 5 then VarTerm(1).terms else [])
               && (i >= 4 ==> p.constraints[i].lhs.konst == 0)
    requires p.constraints[4].Subset?
    ensures StraightResult(p, r) <==> Aligned(r[4], r[1])
  {
    SumIsStraight(p, 4, 1, r);
    CopyIsStraight(p, 1, r);
    if Aligned(r[4], r[1]) {
      forall i | 0 <= i < |p.constraints| && p.constraints[i].Subset?
        ensures StraightSums(p.constraints[i].lhs.terms, p.constraints[i].lhs.konst, Assigning(p, r))
      {
      }
    } else {
      assert !StraightSums(p.constraints[4].lhs.terms, p.constraints[4].lhs.konst, Assigning(p, r));
    }
  }

  // ----- the run -----

  function First(size: int, a: string): Buf { Runs.Initialised(size, |a| + 1) }

  function Second(size: int, a: string, s: string, n: int): Buf
    requires |a| + 1 <= size
  {
    FirstLength(size, a);
    Appended(First(size, a), |s| + 1, n)
  }

  lemma FirstLength(size: int, a: string)
    requires |a| + 1 <= size
    ensures First(size, a).Len() == First(size, a).reach == Some(|a| + 1)
  {
    TextThenEnds(|a| + 1, Buffers.Fill(Nul, size - (|a| + 1)));
  }

  lemma CatCallRuns(env: Env, s: string, b: Expr, n: int, st: State)
    requires ConstantValue(b) == Some(n) && Runs.Plain(s) && TypeOf(env, "d") != OtherType && "d" !in st.store.ints
    requires "d" in st.store.strs && st.store.strs["d"].Len().Some?
    ensures var r := Runs.Eval(env, Call("strncat", CatArgs(s, b)), st);
            r.0 == Runs.AppendText(st, "d", |s| + 1, n) && r.1.Some?
  {
    var len := |s| + 1;
    ConstantRuns(env, b, st);
    LoadRuns(env, "d", st);
    var vals := [Runs.At(st.store, "d", 0), StrV(len, Some(len), Own), IntV(n)];
    ThreeRun(env, Var("d"), StrConst(s), b, st, vals[0], vals[1], vals[2]);
    CallApplied(env, "strncat", CatArgs(s, b), st, vals);
    StrncatNamed();
  }

  lemma CopyCallRuns(env: Env, len: int, st: State)
    requires TypeOf(env, "d") != OtherType && TypeOf(env, "e") != OtherType
    requires "d" !in st.store.ints && "e" !in st.store.ints && "d" in st.store.strs && "e" in st.store.strs
    requires st.store.strs["d"].Len() == Some(len)
    ensures var r := Runs.Eval(env, Call("strcpy", [Var("e"), Var("d")]), st);
            r.0 == Runs.WriteText(st, "e", 0, len) && r.1.Some?
  {
    LoadRuns(env, "d", st);
    LoadRuns(env, "e", st);
    var vals := [Runs.At(st.store, "e", 0), Runs.At(st.store, "d", 0)];
    TwoRun(env, Var("e"), Var("d"), st, vals[0], vals[1]);
    CallApplied(env, "strcpy", [Var("e"), Var("d")], st, vals);
    StrcpyNamed();
  }

  // How far both strings reach: as much of the source as the bound, taken as a size, lets through.
  function Reached(a: string, s: string, n: int): int { |a| + 1 + Min(|s|, ToSize(n)) }

  lemma ArraysRun(env: Env, size: int, a: string, room: int, st: State, fuel: nat)
    requires Runs.Plain(a) && TypeOf(env, "d") == CharArray(Some(size)) && TypeOf(env, "e") == CharArray(Some(room))
    ensures var st1 := st.SetStr("d", First(size, a));
            && Does(env, Filled(size, a), st, st1, fuel)
            && Does(env, Unfilled(room), st1, st1.SetStr("e", Buf(room, [], None)), fuel)
  {
  }

  lemma CatRuns(size: int, a: string, room: int, s: string, b: Expr, n: int, input: seq<int>, fuel: nat)
    requires ConstantValue(b) == Some(n) && Runs.Plain(a) && Runs.Plain(s) && |a| + 1 <= size
    ensures var st, k := RunBody(CatProgram(size, a, room, s, b), input, fuel), Reached(a, s, n);
            && "d" in st.store.strs && st.store.strs["d"] == Second(size, a, s, n)
            && "e" in st.store.strs && st.store.strs["e"] == Buf(room, [], None).Write(0, TextOf(k))
            && (st.loose <==> !AppendFits(|s| + 1, n))
  {
    var env, st0 := GenBody(CatProgram(size, a, room, s, b)).types, State(Store(map[], map[]), input, [], false, []);
    ProgramWalked(size, a, room, s, b, n);
    StatementsRun(env, size, a, room, s, b, n, st0, fuel);
  }

  lemma StatementsRun(env: Env, size: int, a: string, room: int, s: string, b: Expr, n: int, st: State, fuel: nat)
    requires ConstantValue(b) == Some(n) && Runs.Plain(a) && Runs.Plain(s) && |a| + 1 <= size
    requires "d" !in st.store.ints && "e" !in st.store.ints
    requires TypeOf(env, "d") == CharArray(Some(size)) && TypeOf(env, "e") == CharArray(Some(room)) && !st.loose
    ensures var st', k := Runs.ExecBlock(env, CatProgram(size, a, room, s, b), st, fuel).0, Reached(a, s, n);
            && "d" in st'.store.strs && st'.store.strs["d"] == Second(size, a, s, n)
            && "e" in st'.store.strs && st'.store.strs["e"] == Buf(room, [], None).Write(0, TextOf(k))
            && (st'.loose <==> !AppendFits(|s| + 1, n))
  {
    var k, st1 := Reached(a, s, n), st.SetStr("d", First(size, a));
    var st2 := st1.SetStr("e", Buf(room, [], None));
    ArraysRun(env, size, a, room, st, fuel);
    FirstLength(size, a);
    CatCallRuns(env, s, b, n, st2);
    var st3 := Runs.AppendText(st2, "d", |s| + 1, n);
    AppendedLength(First(size, a), |s| + 1, n);
    CopyCallRuns(env, k, st3);
    FourRun(env, Filled(size, a), Unfilled(room), Cat(s, b), Copy(), st, st1, st2, st3, Runs.WriteText(st3, "e", 0, k),
            fuel);
  }

  // ----- the comparison -----

  // The analyser is silent about `e` exactly when the smaller of source and bound is not positive and the literal
  // fits; the program overruns `e` exactly when what the bound, as a size, lets through does not fit. Silence is wrong
  // exactly for negative bounds under which the literal fits and the whole does not, and the run has then left the
  // guard of `strncat`. The conditions of the safety theorem hold for every bound above -Inf, and its claim with them.
  lemma CatVerdict(size: int, a: string, room: int, s: string, b: Expr, n: int, input: seq<int>, fuel: nat,
                   results: seq<QueryResult>, g: Graph, cs: seq<seq<VarId>>, rank: seq<nat>)
    requires ConstantValue(b) == Some(n) && |a| + 1 <= size < INF && 0 < room < INF && |s| < INF && n < INF
    requires Runs.Plain(a) && Runs.Plain(s)
    requires var p := ProblemOf(CatProgram(size, a, room, s, b));
             Layers(p, cs, rank) && Influence(p, |p.constraints|, g) && Emission(g, cs)
               && Reports(p, Final(p, cs), results)
    ensures var p := ProblemOf(CatProgram(size, a, room, s, b));
            AllConverge(p, cs) && PinsAbsorb(p, Final(p, cs)) && (StraightResult(p, Final(p, cs)) <==> NEGINF < n)
    ensures (Silent(results, "d") <==> Min(|s|, n) <= 0)
            && (Silent(results, "e") <==> Min(|s|, n) <= 0 && |a| + 1 <= room)
    ensures var st, k := RunBody(CatProgram(size, a, room, s, b), input, fuel), Reached(a, s, n);
            && "d" in st.store.strs && (st.store.strs["d"].Fits() <==> k <= size)
            && "e" in st.store.strs && (st.store.strs["e"].Fits() <==> k <= room)
            && (Silent(results, "e") && !st.store.strs["e"].Fits() <==> n < 0 && |a| + 1 <= room < k)
            && (Silent(results, "e") && !st.store.strs["e"].Fits() ==> st.loose)
    ensures NEGINF < n && Silent(results, "e") ==> NeverOverrun(CatProgram(size, a, room, s, b), "e")
  {
    CatReported(size, a, room, s, b, n, results, g, cs, rank);
    CatOutcome(size, a, room, s, b, n, input, fuel);
  }

  lemma CatReported(size: int, a: string, room: int, s: string, b: Expr, n: int, results: seq<QueryResult>, g: Graph,
                    cs: seq<seq<VarId>>, rank: seq<nat>)
    requires ConstantValue(b) == Some(n) && |a| + 1 <= size < INF && 0 < room < INF && |s| < INF && n < INF
    requires var p := ProblemOf(CatProgram(size, a, room, s, b));
             Layers(p, cs, rank) && Influence(p, |p.constraints|, g) && Emission(g, cs)
               && Reports(p, Final(p, cs), results)
    ensures var p := ProblemOf(CatProgram(size, a, room, s, b));
            AllConverge(p, cs) && PinsAbsorb(p, Final(p, cs)) && (StraightResult(p, Final(p, cs)) <==> NEGINF < n)
    ensures (Silent(results, "d") <==> Min(|s|, n) <= 0)
            && (Silent(results, "e") <==> Min(|s|, n) <= 0 && |a| + 1 <= room)
    ensures NEGINF < n && Silent(results, "e") ==> NeverOverrun(CatProgram(size, a, room, s, b), "e")
  {
    var body, p := CatProgram(size, a, room, s, b), CatProblem(size, |a| + 1, room, |s|, n);
    ProgramWalked(size, a, room, s, b, n);
    CatSilence(size, |a| + 1, room, |s|, n, results, g, cs, rank);
    if NEGINF < n && Silent(results, "e") { SilenceIsSafe(body, cs, rank, results, "e"); }
  }

  lemma CatSilence(size: int, a: int, room: int, len: int, n: int, results: seq<QueryResult>, g: Graph,
                   cs: seq<seq<VarId>>, rank: seq<nat>)
    requires Sensible(size, a, room, len, n)
    requires var p := CatProblem(size, a, room, len, n);
             p.Valid() && Layers(p, cs, rank) && Influence(p, |p.constraints|, g) && Emission(g, cs)
               && Reports(p, Final(p, cs), results)
    ensures var p := CatProblem(size, a, room, len, n);
            AllConverge(p, cs) && PinsAbsorb(p, Final(p, cs)) && (StraightResult(p, Final(p, cs)) <==> NEGINF < n)
    ensures (Silent(results, "d") <==> Min(len, n) <= 0) && (Silent(results, "e") <==> Min(len, n) <= 0 && a <= room)
  {
    var p := CatProblem(size, a, room, len, n);
    CatSolved(size, a, room, len, n, g, cs, rank);
    CatAsked(size, a, room, len, n);
    SilentMeansPassed(p, 0, "d", Final(p, cs), results);
    SilentMeansPassed(p, 1, "e", Final(p, cs), results);
  }

  lemma CatOutcome(size: int, a: string, room: int, s: string, b: Expr, n: int, input: seq<int>, fuel: nat)
    requires ConstantValue(b) == Some(n) && Runs.Plain(a) && Runs.Plain(s) && |a| + 1 <= size
    ensures var st, k := RunBody(CatProgram(size, a, room, s, b), input, fuel), Reached(a, s, n);
            && "d" in st.store.strs && (st.store.strs["d"].Fits() <==> k <= size)
            && "e" in st.store.strs && (st.store.strs["e"].Fits() <==> k <= room)
            && (k > |a| + 1 && n < 0 ==> st.loose)
  {
    CatRuns(size, a, room, s, b, n, input, fuel);
    FirstLength(size, a);
    AppendedLength(First(size, a), |s| + 1, n);
    WriteStringLength(Buf(room, [], None), 0, Reached(a, s, n));
  }
}
