/**
 A program analysed from end to end: `char b[size]; strncpy(b, s, n);` with a literal `s`, the bound
 being any constant expression. Every condition of the
 safety theorem holds of it, and what the analyser then says can be compared with what C does, for every size,
 literal and bound.
 */
module CopyPrograms {
  import opened Buffers
  import opened Ranges
  import opened Terms
  import opened Problems
  import opened Components
  import opened Graphs
  import opened Solver
  import opened Solve
  import opened Verdicts
  import opened Systems
  import opened Syntax
  import opened Generator
  import opened Soundness
  import opened EndToEnd
  import opened Cycles
  import opened Programs
  import Runs

  function CopyArgList(s: string, e: Expr): seq<Expr> { [Var("b"), StrConst(s), e] }

  function CopyProgram(size: int, s: string, e: Expr): seq<Stmt> {
    [Decl("b", CharArray(Some(size)), None), Simple(Call("strncpy", CopyArgList(s, e)))]
  }

  // size ⊆ x0, min(len, n) ⊆ x2, x2 ⊆ x1, with x0 ≥ x1 asked.
  function CopyProblem(size: int, len: int, n: int): Problem {
    Problem([Some("siz(b)"), Some("len(b)"), None], [0, 1, 2],
            [Subset(Constant(size), 0), MinSubset([MinConst(len), MinConst(n)], 2), Subset(VarTerm(2), 1)],
            [Query(VarTerm(0), VarTerm(1), Overflow("b"))], [], [])
  }

  // ----- the walk -----

  // What the walk gives the three arguments.
  function CopyCtxs(s: string, n: int): seq<Ctx> {
    [CStr(VarTerm(0), VarTerm(1)), CStr(Constant(|s| + 1), Constant(|s| + 1)), CInt(Constant(n))]
  }

  lemma ArgumentsWalked(w: Walk, s: string, e: Expr, n: int)
    requires ConstantValue(e) == Some(n)
    requires "b" in w.vars && w.vars["b"] == CStr(VarTerm(0), VarTerm(1))
    ensures GenArgs(w, CopyArgList(s, e)) == (w, CopyCtxs(s, n))
  {
    ConstantWalked(w, e);
    ThreeWalked(w, Var("b"), StrConst(s), e);
  }

  // What a bounded copy of constants into the length `v` adds to a system.
  function WithCopy(y: Sys, len: int, n: int, v: VarId): Sys {
    y.(names := y.names + [None], root := y.root + [y.Size()],
       constraints := y.constraints + [MinSubset([MinConst(len), MinConst(n)], y.Size()), Subset(VarTerm(y.Size()), v)])
  }

  lemma CopyAdds(w: Walk, siz: VarId, v: VarId, len: int, n: int)
    ensures CheckStrOp(w, Strncpy,
            [CStr(VarTerm(siz), VarTerm(v)), CStr(Constant(len), Constant(len)), CInt(Constant(n))]).0
            == w.With(WithCopy(w.sys, len, n, v))
  {
    MinOfConstants(w.sys, len, n);
    var (s1, m) := w.sys.MinOf(Constant(len), Constant(n));
    IncludeBare(s1, m, v);
    assert s1.constraints + [Subset(m, v)] == WithCopy(w.sys, len, n, v).constraints;
  }

  lemma CopyWalked(w: Walk, f: string, s: string, e: Expr, n: int)
    requires ConstantValue(e) == Some(n) && RoutineOf(f) == Strncpy && f !in w.vars
    requires "b" in w.vars && w.vars["b"] == CStr(VarTerm(0), VarTerm(1)) && f != "b"
    ensures Gen(w, Call(f, CopyArgList(s, e))).0 == NewVar(w, f, OtherType).0.With(WithCopy(w.sys, |s| + 1, n, 1))
  {
    var w0 := NewVar(w, f, OtherType).0;
    assert w0.sys == w.sys && w0.vars["b"] == w.vars["b"];
    ArgumentsWalked(w0, s, e, n);
    CopyAdds(w0, 0, 1, |s| + 1, n);
  }

  lemma ProgramWalked(size: int, s: string, e: Expr, n: int)
    requires ConstantValue(e) == Some(n)
    ensures ProblemOf(CopyProgram(size, s, e)) == CopyProblem(size, |s| + 1, n)
    ensures TypeOf(GenBody(CopyProgram(size, s, e)).types, "b") == CharArray(Some(size))
  {
    var w, call := BufferWalk(size), Simple(Call("strncpy", CopyArgList(s, e)));
    BufferWalked(size);
    ArrayThenWalked("b", size, call);
    StrncpyNamed();
    CopyWalked(w, "strncpy", s, e, n);
    assert GenBody(CopyProgram(size, s, e)) == Gen(w, call.e).0;
  }

  // ----- the solution -----

  lemma CopyFlowIs(size: int, len: int, n: int, r: seq<Range>)
    requires |r| == 3 && AllBounded(r)
    ensures var p := CopyProblem(size, len, n);
            && p.Valid() && Apply(p, 0, r) == Singleton(size) && Apply(p, 1, r) == Cycles.Copied(r[2])
            && Apply(p, 2, r) == RMin(RMin(Singleton(INF), Singleton(len)), Singleton(n))
  {
    CopyFlow0(size, len, n, r);
    CopyFlow1(size, len, n, r);
    CopyFlow2(size, len, n, r);
  }

  lemma CopyFlow0(size: int, len: int, n: int, r: seq<Range>)
    requires |r| == 3
    ensures CopyProblem(size, len, n).Valid() && Apply(CopyProblem(size, len, n), 0, r) == Singleton(size)
  {
    var p := CopyProblem(size, len, n);
    assert Inflow(p, 0, 0, r) == EMPTY && Inflow(p, 1, 0, r) == Inflow(p, 2, 0, r) == Singleton(size);
  }

  lemma CopyFlow1(size: int, len: int, n: int, r: seq<Range>)
    requires |r| == 3 && AllBounded(r)
    ensures CopyProblem(size, len, n).Valid() && Apply(CopyProblem(size, len, n), 1, r) == Cycles.Copied(r[2])
  {
    var p := CopyProblem(size, len, n);
    CopyFlows(p, 2, r);
    assert Inflow(p, 0, 1, r) == Inflow(p, 1, 1, r) == Inflow(p, 2, 1, r) == EMPTY;
  }

  lemma CopyFlow2(size: int, len: int, n: int, r: seq<Range>)
    requires |r| == 3
    ensures CopyProblem(size, len, n).Valid()
    ensures Apply(CopyProblem(size, len, n), 2, r) == RMin(RMin(Singleton(INF), Singleton(len)), Singleton(n))
  {
    var p := CopyProblem(size, len, n);
    ConstantItems(p, len, n, r);
    assert Inflow(p, 0, 2, r) == Inflow(p, 1, 2, r) == EMPTY;
    assert Inflow(p, 2, 2, r) == EvalItems(p, [MinConst(len), MinConst(n)], r);
  }

  lemma CopyIsAcyclic(size: int, len: int, n: int, g: Graph)
    requires var p := CopyProblem(size, len, n); p.Valid() && Influence(p, |p.constraints|, g)
    ensures Acyclic(g)
  {
    var p := CopyProblem(size, len, n);
    forall u: nat, v: nat | Edge(g, u, v) ensures u == 2 && v == 1 {
      assert FeedsBy(p, |p.constraints|, u, v);
      var i :| 0 <= i < |p.constraints| && p.canon[p.constraints[i].target] == v && Reads(p, p.constraints[i], u);
      if i == 1 { ConstantsReadNothing(p, p.constraints[1], u); }
      assert i != 1 ==> LhsVars(p.constraints[i]) == if i == 2 then [2] else [];
    }
    assert Graphs.Closed(g, {1});
    assert !Reach(g, 1, 2);
  }

  // The solver's ranges: the size, and the smaller of source length and bound.
  lemma CopySolved(size: int, len: int, n: int, g: Graph, cs: seq<seq<VarId>>, rank: seq<nat>)
    requires Finite(size) && Finite(len) && n < INF
    requires var p := CopyProblem(size, len, n);
             p.Valid() && Layers(p, cs, rank) && Influence(p, |p.constraints|, g) && Emission(g, cs)
    ensures var p, m := CopyProblem(size, len, n), Singleton(Min(len, n));
            AllConverge(p, cs) && Final(p, cs) == [Singleton(size), m, m]
  {
    var p := CopyProblem(size, len, n);
    CopyIsAcyclic(size, len, n, g);
    AcyclicIsDiscrete(p, g, cs);
    AcyclicIsExact(p, cs, rank);
    ConvergedRunIsFixpoint(p, cs, rank);
    RunBounded(p, cs, |cs|);
    CopyFlowIs(size, len, n, Final(p, cs));
    assert Pin(p, 0).None? && Pin(p, 1).None? && Pin(p, 2).None?;
  }

  // The conditions of the safety theorem.
  lemma CopyMeetsConditions(size: int, len: int, n: int)
    requires Finite(size) && 0 < len < INF && n < INF
    ensures var p, m := CopyProblem(size, len, n), Singleton(Min(len, n));
            p.Valid() && StraightResult(p, [Singleton(size), m, m]) && PinsAbsorb(p, [Singleton(size), m, m])
  {
    var p, m := CopyProblem(size, len, n), Singleton(Min(len, n));
    var r := [Singleton(size), m, m];
    VarTermEvaluates(p, 0, r);
    VarTermEvaluates(p, 1, r);
    assert forall v :: Pin(p, v).None?;
    var slots := [Slot(1, 2)];
    assert slots[..0] == [] && StraightSums([], 0, Assigning(p, r));
    assert EvalAt([], 0, Assigning(p, r)) == Singleton(0);
    assert StraightSums(slots, 0, Assigning(p, r));
  }

  // ----- the run -----

  lemma CopyRuns(size: int, s: string, e: Expr, n: int, input: seq<int>, fuel: nat)
    requires ConstantValue(e) == Some(n) && Runs.Plain(s)
    ensures var st := RunBody(CopyProgram(size, s, e), input, fuel);
            && "b" in st.store.strs
            && st.store.strs["b"] == Buf(size, [], None).Write(0, Buffers.Copied(|s| + 1, ToSize(n)))
            && (st.loose <==> !CopyFits(Buf(size, [], None), 0, |s| + 1, n))
  {
    var body, env := CopyProgram(size, s, e), GenBody(CopyProgram(size, s, e)).types;
    ProgramWalked(size, s, e, n);
    var st := Declared("b", size, input);
    CallRuns(env, size, s, e, n, st);
    ArrayThenRuns(env, "b", size, body[1], input, fuel, Runs.CopyText(st, "b", 0, |s| + 1, n));
  }

  lemma CallRuns(env: Env, size: int, s: string, e: Expr, n: int, st: State)
    requires ConstantValue(e) == Some(n) && Runs.Plain(s) && TypeOf(env, "b") != OtherType && "b" !in st.store.ints
    requires "b" in st.store.strs && st.store.strs["b"] == Buf(size, [], None)
    ensures var r := Runs.Eval(env, Call("strncpy", CopyArgList(s, e)), st);
            r.0 == Runs.CopyText(st, "b", 0, |s| + 1, n) && r.1.Some?
  {
    var args, len := CopyArgList(s, e), |s| + 1;
    ConstantRuns(env, e, st);
    LoadRuns(env, "b", st);
    var vals := [Runs.At(st.store, "b", 0), StrV(len, Some(len), Own), IntV(n)];
    ThreeRun(env, Var("b"), StrConst(s), e, st, vals[0], vals[1], vals[2]);
    CallApplied(env, "strncpy", args, st, vals);
    StrncpyNamed();
  }

  // ----- the comparison -----

  // The analyser is silent exactly when the smaller of source length and bound fits, the program overruns exactly
  // when the bound, as a size, does not: it stays silent about an overrun exactly when the first holds and the second
  // does not, which takes in every negative `int`. All conditions of the safety theorem hold throughout, and the
  // theorem's own claim with them.
  lemma CopyVerdict(size: int, s: string, e: Expr, n: int, input: seq<int>, fuel: nat, results: seq<QueryResult>,
                    g: Graph, cs: seq<seq<VarId>>, rank: seq<nat>)
    requires ConstantValue(e) == Some(n) && 0 < size < INF && n < INF && |s| + 1 < INF && Runs.Plain(s)
    requires var p := ProblemOf(CopyProgram(size, s, e));
             Layers(p, cs, rank) && Influence(p, |p.constraints|, g) && Emission(g, cs)
               && Reports(p, Final(p, cs), results)
    ensures var p := ProblemOf(CopyProgram(size, s, e));
            AllConverge(p, cs) && StraightResult(p, Final(p, cs)) && PinsAbsorb(p, Final(p, cs))
    ensures var st, len := RunBody(CopyProgram(size, s, e), input, fuel), |s| + 1;
            && (Silent(results, "b") <==> Min(len, n) <= size)
            && "b" in st.store.strs && (st.store.strs["b"].Fits() <==> ToSize(n) <= size)
            && (Silent(results, "b") && !st.store.strs["b"].Fits() <==> Min(len, n) <= size < ToSize(n))
            && (Silent(results, "b") && !st.store.strs["b"].Fits() ==> st.loose)
    ensures Min(|s| + 1, n) <= size ==> NeverOverrun(CopyProgram(size, s, e), "b")
  {
    var body, len, p := CopyProgram(size, s, e), |s| + 1, CopyProblem(size, |s| + 1, n);
    ProgramWalked(size, s, e, n);
    CopySolved(size, len, n, g, cs, rank);
    CopyMeetsConditions(size, len, n);
    CopyReport(size, len, n, cs, results);
    CopyOutcome(size, s, e, n, input, fuel);
    if Min(len, n) <= size {
      SilenceIsSafe(body, cs, rank, results, "b");
    }
  }

  lemma CopyOutcome(size: int, s: string, e: Expr, n: int, input: seq<int>, fuel: nat)
    requires ConstantValue(e) == Some(n) && Runs.Plain(s)
    ensures var st, len := RunBody(CopyProgram(size, s, e), input, fuel), |s| + 1;
            && "b" in st.store.strs && (st.store.strs["b"].Fits() <==> ToSize(n) <= size)
            && (Min(len, n) <= size < ToSize(n) ==> st.loose)
  {
    CopyRuns(size, s, e, n, input, fuel);
    CopiedLength(Buf(size, [], None), 0, |s| + 1, ToSize(n));
  }

  lemma CopyReport(size: int, len: int, n: int, cs: seq<seq<VarId>>, results: seq<QueryResult>)
    requires 0 < size < INF && n < INF && 0 < len < INF
    requires var p, m := CopyProblem(size, len, n), Singleton(Min(len, n));
             && p.Valid() && (forall j :: 0 <= j < |cs| ==> Vars(p, cs[j])) && Final(p, cs) == [Singleton(size), m, m]
             && Reports(p, Final(p, cs), results)
    ensures Silent(results, "b") <==> Min(len, n) <= size
  {
    var p := CopyProblem(size, len, n);
    var r := Final(p, cs);
    VarTermEvaluates(p, 0, r);
    VarTermEvaluates(p, 1, r);
    SilentMeansPassed(p, 0, "b", r, results);
  }
}
