/**
 A program that reads: `char b[size]; fgets(b, n, stdin);`, the bound being any constant expression. Its run goes on
 through the call for every line that C may read, and the analyser reports it exactly when some line overruns the
 array.
 */
module ReadPrograms {
  import opened Buffers
  import opened Ranges
  import opened Terms
  import opened Problems
  import opened Graphs
  import opened Solver
  import opened Solve
  import opened Verdicts
  import opened Systems
  import opened Syntax
  import opened Generator
  import opened Soundness
  import opened EndToEnd
  import opened Programs
  import Runs

  function ReadArgs(e: Expr): seq<Expr> { [Var("b"), e, Var("stdin")] }

  function ReadProgram(size: int, e: Expr): seq<Stmt> {
    [Decl("b", CharArray(Some(size)), None), Simple(Call("fgets", ReadArgs(e)))]
  }

  // size ⊆ x0, 1 ⊆ x1, n ⊆ x1, with x0 ≥ x1 asked.
  function ReadProblem(size: int, n: int): Problem {
    Problem([Some("siz(b)"), Some("len(b)")], [0, 1],
            [Subset(Constant(size), 0), Subset(Constant(1), 1), Subset(Constant(n), 1)],
            [Query(VarTerm(0), VarTerm(1), Overflow("b"))], [], [])
  }

  // ----- the walk -----

  lemma ReadArgsWalked(w: Walk, x: string, e: Expr, n: int, stream: string)
    requires ConstantValue(e) == Some(n) && x in w.vars && stream !in w.vars
    ensures GenArgs(w, [Var(x), e, Var(stream)]) ==
            (NewVar(w, stream, OtherType).0, [w.vars[x], CInt(Constant(n)), CNone])
  {
    ConstantWalked(w, e);
    ThreeWalked(w, Var(x), e, Var(stream));
  }

  lemma ReadAdds(w: Walk, siz: Term, v: VarId, n: int, c: Ctx)
    ensures CheckStrOp(w, Fgets, [CStr(siz, VarTerm(v)), CInt(Constant(n)), c]).0 ==
            w.With(w.sys.(constraints := w.sys.constraints + [Subset(Constant(1), v), Subset(Constant(n), v)]))
  {
    IncludeBare(w.sys, Constant(1), v);
    IncludeBare(w.sys.Include(Constant(1), VarTerm(v)), Constant(n), v);
    var cs := w.sys.constraints;
    assert cs + [Subset(Constant(1), v)] + [Subset(Constant(n), v)] ==
           cs + [Subset(Constant(1), v), Subset(Constant(n), v)];
  }

  lemma CallWalked(w: Walk, f: string, x: string, v: VarId, e: Expr, n: int, stream: string)
    requires ConstantValue(e) == Some(n) && RoutineOf(f) == Fgets && f !in w.vars && stream !in w.vars && stream != f
    requires x in w.vars && w.vars[x].CStr? && w.vars[x].len == VarTerm(v)
    ensures var w' := Gen(w, Call(f, [Var(x), e, Var(stream)])).0;
            && w'.types == w.types[f := OtherType][stream := OtherType]
            && w'.sys == w.sys.(constraints := w.sys.constraints + [Subset(Constant(1), v), Subset(Constant(n), v)])
  {
    var w0 := NewVar(w, f, OtherType).0;
    ReadArgsWalked(w0, x, e, n, stream);
    ReadAdds(NewVar(w0, stream, OtherType).0, w.vars[x].siz, v, n, CNone);
  }

  lemma ReadWalked(w: Walk, e: Expr, n: int)
    requires ConstantValue(e) == Some(n)
    requires "b" in w.vars && w.vars["b"] == CStr(VarTerm(0), VarTerm(1)) && "fgets" !in w.vars && "stdin" !in w.vars
    ensures var w' := Gen(w, Call("fgets", ReadArgs(e))).0;
            && w'.types == w.types["fgets" := OtherType]["stdin" := OtherType]
            && w'.sys == w.sys.(constraints := w.sys.constraints + [Subset(Constant(1), 1), Subset(Constant(n), 1)])
  {
    FgetsNamed();
    CallWalked(w, "fgets", "b", 1, e, n, "stdin");
  }

  lemma ProgramWalked(size: int, e: Expr, n: int)
    requires ConstantValue(e) == Some(n)
    ensures ProblemOf(ReadProgram(size, e)) == ReadProblem(size, n)
    ensures var env := GenBody(ReadProgram(size, e)).types;
            TypeOf(env, "b") == CharArray(Some(size)) && TypeOf(env, "stdin") == OtherType
  {
    var w0, call := Walk(NEW, map[], map[], 0), Simple(Call("fgets", ReadArgs(e)));
    var w := NewVar(w0, "b", CharArray(Some(size))).0;
    ArrayWalked(w0, "b", size);
    assert "siz(" + "b" + ")" == "siz(b)" && "len(" + "b" + ")" == "len(b)";
    ArrayThenWalked("b", size, call);
    ReadWalked(w, e, n);
    assert GenBody(ReadProgram(size, e)) == Gen(w, call.e).0;
    assert w.sys.constraints + [Subset(Constant(1), 1), Subset(Constant(n), 1)] == ReadProblem(size, n).constraints;
  }

  // ----- the solution -----

  lemma ReadFlowIs(size: int, n: int, r: seq<Range>)
    requires |r| == 2
    ensures var p := ReadProblem(size, n);
            p.Valid() && Apply(p, 0, r) == Singleton(size) && Apply(p, 1, r) == Hull(Singleton(1), Singleton(n))
  {
    ReadFlow0(size, n, r);
    ReadFlow1(size, n, r);
  }

  lemma ReadFlow0(size: int, n: int, r: seq<Range>)
    requires |r| == 2
    ensures ReadProblem(size, n).Valid() && Apply(ReadProblem(size, n), 0, r) == Singleton(size)
  {
    var p := ReadProblem(size, n);
    assert Inflow(p, 0, 0, r) == EMPTY && Inflow(p, 1, 0, r) == Inflow(p, 2, 0, r) == Singleton(size);
  }

  lemma ReadFlow1(size: int, n: int, r: seq<Range>)
    requires |r| == 2
    ensures ReadProblem(size, n).Valid()
    ensures Apply(ReadProblem(size, n), 1, r) == Hull(Singleton(1), Singleton(n))
  {
    var p := ReadProblem(size, n);
    assert Inflow(p, 0, 1, r) == Inflow(p, 1, 1, r) == EMPTY && Inflow(p, 2, 1, r) == Singleton(1);
  }

  lemma ReadIsAcyclic(size: int, n: int, g: Graph)
    requires var p := ReadProblem(size, n); p.Valid() && Influence(p, |p.constraints|, g)
    ensures Acyclic(g)
  {
    var p := ReadProblem(size, n);
    forall i, u: VarId | 0 <= i < |p.constraints| ensures !Reads(p, p.constraints[i], u) {
      assert LhsVars(p.constraints[i]) == [];
    }
    assert forall u: nat, v: nat :: !Edge(g, u, v);
  }

  function ReadResult(size: int, n: int): seq<Range> { [Singleton(size), Hull(Singleton(1), Singleton(n))] }

  lemma ReadSolved(size: int, n: int, g: Graph, cs: seq<seq<VarId>>, rank: seq<nat>)
    requires var p := ReadProblem(size, n);
             p.Valid() && Layers(p, cs, rank) && Influence(p, |p.constraints|, g) && Emission(g, cs)
    ensures var p := ReadProblem(size, n); AllConverge(p, cs) && Final(p, cs) == ReadResult(size, n)
  {
    var p := ReadProblem(size, n);
    ReadIsAcyclic(size, n, g);
    AcyclicIsDiscrete(p, g, cs);
    AcyclicIsExact(p, cs, rank);
    ConvergedRunIsFixpoint(p, cs, rank);
    ReadFlowIs(size, n, Final(p, cs));
    assert Pin(p, 0).None? && Pin(p, 1).None?;
  }

  // The one query compares two endpoints.
  lemma ReadAsked(size: int, n: int)
    requires 0 < size < INF && n < INF
    ensures var p, r := ReadProblem(size, n), ReadResult(size, n);
            && p.Valid() && StraightResult(p, r) && PinsAbsorb(p, r)
            && (Fails(p, p.queries[0], r) <==> Max(1, n) > size)
  {
    var p, r := ReadProblem(size, n), ReadResult(size, n);
    VarTermEvaluates(p, 0, r);
    VarTermEvaluates(p, 1, r);
    assert forall v :: Pin(p, v).None?;
  }

  // ----- the run -----

  lemma CallRuns(env: Env, e: Expr, n: int, k: int, rest: seq<int>, st: State)
    requires ConstantValue(e) == Some(n) && 1 <= k <= n && st.input == [k] + rest
    requires TypeOf(env, "b") != OtherType && TypeOf(env, "stdin") == OtherType
    requires "b" !in st.store.ints && "b" in st.store.strs
    ensures var r := Runs.Eval(env, Call("fgets", ReadArgs(e)), st);
            r.0 == Runs.WriteText(st.(input := rest), "b", 0, k) && r.1.Some?
  {
    ConstantRuns(env, e, st);
    LoadRuns(env, "b", st);
    var vals := [Runs.At(st.store, "b", 0), IntV(n), OtherV];
    ThreeRun(env, Var("b"), e, Var("stdin"), st, vals[0], vals[1], vals[2]);
    CallApplied(env, "fgets", ReadArgs(e), st, vals);
    FgetsNamed();
    assert ([k] + rest)[1..] == rest;
  }

  // A line of `k` bytes, terminator included, ends up in the array, and the run goes on.
  lemma ReadRuns(size: int, e: Expr, n: int, k: int, rest: seq<int>, fuel: nat)
    requires ConstantValue(e) == Some(n) && 1 <= k <= n
    ensures var st, b := RunBody(ReadProgram(size, e), [k] + rest, fuel), Buf(size, [], None).Write(0, TextOf(k));
            && !st.loose && st.input == rest && "b" in st.store.strs && st.store.strs["b"] == b
            && st.trail != [] && st.trail[|st.trail| - 1] == st.store && b.Len() == b.reach == Some(k)
  {
    var body := ReadProgram(size, e);
    var env, st := GenBody(body).types, Declared("b", size, [k] + rest);
    ProgramWalked(size, e, n);
    CallRuns(env, e, n, k, rest, st);
    ArrayThenRuns(env, "b", size, body[1], [k] + rest, fuel,
                  Runs.WriteText(st.(input := rest), "b", 0, k));
    WriteStringLength(Buf(size, [], None), 0, k);
  }

  // ----- the comparison -----

  // The array is reported exactly when some input overruns it.
  lemma ReadVerdict(size: int, e: Expr, n: int, results: seq<QueryResult>, g: Graph, cs: seq<seq<VarId>>,
                    rank: seq<nat>)
    requires ConstantValue(e) == Some(n) && 0 < size < INF && n < INF
    requires var p := ProblemOf(ReadProgram(size, e));
             Layers(p, cs, rank) && Influence(p, |p.constraints|, g) && Emission(g, cs)
               && Reports(p, Final(p, cs), results)
    ensures Silent(results, "b") <==> Max(1, n) <= size
    ensures Silent(results, "b") <==> NeverOverrun(ReadProgram(size, e), "b")
  {
    var p := ReadProblem(size, n);
    ProgramWalked(size, e, n);
    ReadSolved(size, n, g, cs, rank);
    ReadAsked(size, n);
    SilentMeansPassed(p, 0, "b", Final(p, cs), results);
    if Max(1, n) <= size {
      SilenceIsSafe(ReadProgram(size, e), cs, rank, results, "b");
    } else {
      LongestLineOverruns(size, e, n);
    }
  }

  lemma LongestLineOverruns(size: int, e: Expr, n: int)
    requires ConstantValue(e) == Some(n) && 0 < size < n
    ensures !NeverOverrun(ReadProgram(size, e), "b")
  {
    var input: seq<int>, fuel: nat := [n] + [], 0;
    ReadRuns(size, e, n, n, [], fuel);
    var st := RunBody(ReadProgram(size, e), input, fuel);
    var i: nat := |st.trail| - 1;
    assert "b" in st.trail[i].strs && !st.trail[i].strs["b"].Fits();
  }
}
