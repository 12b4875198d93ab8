/**
 Programs that initialise arrays with literals. `char d[size] = a;` is never reported, however long the literal: the
 analyser counts the bytes that C stores. `{ char a[] = s; } { char a[] = t; }`, where both declarations go by one name,
 is judged by the size of the second array alone.
 */
module InitPrograms {
  import opened Buffers
  import opened Ranges
  import opened Terms
  import opened Problems
  import opened Graphs
  import opened Solver
  import opened Solve
  import opened Verdicts
  import opened Systems
  import opened Syntax
  import opened Generator
  import opened Soundness
  import opened EndToEnd
  import opened Programs
  import Runs

  // ----- an array of a given size -----

  function Sized(size: int, a: string): Stmt { Decl("d", CharArray(Some(size)), Some(StrConst(a))) }

  // size ⊆ x0, stored ⊆ x1, with x0 ≥ x1 asked.
  function SizedProblem(size: int, stored: int): Problem {
    Problem([Some("siz(d)"), Some("len(d)")], [0, 1], [Subset(Constant(size), 0), Subset(Constant(stored), 1)],
            [Query(VarTerm(0), VarTerm(1), Overflow("d"))], [], [])
  }

  lemma SizedWalked(w: Walk, siz: VarId, v: VarId, size: int, a: string)
    requires "d" in w.vars && w.vars["d"] == CStr(VarTerm(siz), VarTerm(v))
    ensures GenStmt(w, Sized(size, a)) ==
            w.With(w.sys.(constraints := w.sys.constraints + [Subset(Constant(Min(|a| + 1, size)), v)]))
  {
    assert Gen(w, StrConst(a)) == (w, CStr(Constant(|a| + 1), Constant(|a| + 1)));
    IncludeBare(w.sys, Constant(Min(|a| + 1, size)), v);
  }

  lemma SizedProgramWalked(size: int, a: string)
    ensures ProblemOf([Sized(size, a)]) == SizedProblem(size, Min(|a| + 1, size))
    ensures TypeOf(GenBody([Sized(size, a)]).types, "d") == CharArray(Some(size))
  {
    var w0, ty, body := Walk(NEW, map[], map[], 0), CharArray(Some(size)), [Sized(size, a)] + [];
    var w := NewVar(w0, "d", ty).0;
    ArrayWalked(w0, "d", size);
    assert "siz(" + "d" + ")" == "siz(d)" && "len(" + "d" + ")" == "len(d)";
    BlockWalked(w, Sized(size, a), []);
    assert BlockLocals(body) == [("d", ty)] && [("d", ty)][1..] == [];
    assert DeclareLocals(w0, BlockLocals(body)) == w;
    SizedWalked(w, 0, 1, size, a);
    assert GenBody(body) == GenStmt(w, Sized(size, a));
    assert [Sized(size, a)] == body;
  }

  lemma ConstantsAreAcyclic(p: Problem, g: Graph)
    requires p.Valid() && Influence(p, |p.constraints|, g)
    requires forall i :: 0 <= i < |p.constraints| ==> p.constraints[i].Subset? && p.constraints[i].lhs.terms == []
    ensures Acyclic(g)
  {
    forall i, u: VarId | 0 <= i < |p.constraints| ensures !Reads(p, p.constraints[i], u) {
      assert LhsVars(p.constraints[i]) == [];
    }
    assert forall u: nat, v: nat :: !Edge(g, u, v);
  }

  lemma SizedSolved(size: int, stored: int, g: Graph, cs: seq<seq<VarId>>, rank: seq<nat>)
    requires var p := SizedProblem(size, stored);
             p.Valid() && Layers(p, cs, rank) && Influence(p, |p.constraints|, g) && Emission(g, cs)
    ensures Final(SizedProblem(size, stored), cs) == [Singleton(size), Singleton(stored)]
  {
    var p := SizedProblem(size, stored);
    ConstantsAreAcyclic(p, g);
    AcyclicIsDiscrete(p, g, cs);
    AcyclicIsExact(p, cs, rank);
    ConvergedRunIsFixpoint(p, cs, rank);
    var r := Final(p, cs);
    assert Pin(p, 0).None? && Pin(p, 1).None?;
    assert Inflow(p, 0, 0, r) == EMPTY && Inflow(p, 1, 0, r) == Inflow(p, 2, 0, r) == Singleton(size);
    assert Inflow(p, 0, 1, r) == Inflow(p, 1, 1, r) == EMPTY && Inflow(p, 2, 1, r) == Singleton(stored);
  }

  // Every run stores the literal, cut off at the array's size, and nothing else.
  lemma SizedNeverOverrun(size: int, a: string)
    requires size > 0
    ensures NeverOverrun([Sized(size, a)], "d")
  {
    SizedProgramWalked(size, a);
    forall input: seq<int>, fuel: nat, i: nat
      | i < |RunBody([Sized(size, a)], input, fuel).trail|
        && "d" in RunBody([Sized(size, a)], input, fuel).trail[i].strs
      ensures RunBody([Sized(size, a)], input, fuel).trail[i].strs["d"].Fits()
    {
      SizedRuns(size, a, input, fuel);
    }
  }

  lemma SizedRuns(size: int, a: string, input: seq<int>, fuel: nat)
    requires size > 0 && TypeOf(GenBody([Sized(size, a)]).types, "d") == CharArray(Some(size))
    ensures var st := RunBody([Sized(size, a)], input, fuel);
            forall i :: 0 <= i < |st.trail| && "d" in st.trail[i].strs ==> st.trail[i].strs["d"].Fits()
    ensures Runs.Plain(a) ==> RunBody([Sized(size, a)], input, fuel).trail != []
  {
    var env, st := GenBody([Sized(size, a)]).types, State(Store(map[], map[]), input, [], false, []);
    var body := [Sized(size, a)];
    assert body[1..] == [];
    if Runs.Plain(a) {
      var b := Runs.Initialised(size, |a| + 1);
      InitialisedFits(size, |a| + 1);
      assert Runs.Exec(env, body[0], st, fuel) == (st.SetStr("d", b), Runs.Normal);
      assert Runs.ExecBlock(env, [], st.SetStr("d", b), fuel).0 == st.SetStr("d", b);
    } else {
      assert Runs.Exec(env, body[0], st, fuel) == (st, Runs.Halted);
    }
  }

  lemma InitialisedFits(size: int, len: int)
    requires size > 0 && len >= 1
    ensures Runs.Initialised(size, len).Fits() && Runs.Initialised(size, len).reach == Some(Min(len, size))
    ensures Runs.Initialised(size, len).Len() == if len <= size then Some(len) else None
  {
    if len <= size { TextThenEnds(len, Fill(Nul, size - len)); } else { AllText(Fill(Text, size)); }
  }

  // The size is exact, the length is what C stores: the literal with its terminator, or as much of it as fits. The
  // array is never reported, and no run overruns it.
  lemma SizedVerdict(size: int, a: string, results: seq<QueryResult>, g: Graph, cs: seq<seq<VarId>>, rank: seq<nat>)
    requires size > 0
    requires var p := ProblemOf([Sized(size, a)]);
             Layers(p, cs, rank) && Influence(p, |p.constraints|, g) && Emission(g, cs)
               && Reports(p, Final(p, cs), results)
    ensures Final(ProblemOf([Sized(size, a)]), cs) == [Singleton(size), Singleton(Min(|a| + 1, size))]
    ensures Silent(results, "d") && NeverOverrun([Sized(size, a)], "d")
  {
    var stored := Min(|a| + 1, size);
    var p := SizedProblem(size, stored);
    SizedProgramWalked(size, a);
    SizedSolved(size, stored, g, cs, rank);
    SizedNeverOverrun(size, a);
    VarTermEvaluates(p, 0, Final(p, cs));
    VarTermEvaluates(p, 1, Final(p, cs));
    SilentMeansPassed(p, 0, "d", Final(p, cs), results);
  }

  // ----- two arrays of one name -----

  function Sizing(s: string): Stmt { Block([Decl("a", CharArray(None), Some(StrConst(s)))]) }

  function TwiceProgram(s: string, t: string): seq<Stmt> { [Sizing(s), Sizing(t)] }

  // m ⊆ x1, n ⊆ x1, with x0 pinned to m and then to n, and x0 ≥ x1 asked.
  function TwiceProblem(m: int, n: int): Problem {
    Problem([Some("siz(a)"), Some("len(a)")], [0, 1], [Subset(Constant(m), 1), Subset(Constant(n), 1)],
            [Query(VarTerm(0), VarTerm(1), Overflow("a"))], [(0, Singleton(m)), (0, Singleton(n))], [])
  }

  lemma SizingWalked(w: Walk, siz: VarId, v: VarId, s: string)
    requires "a" in w.vars && w.vars["a"] == CStr(VarTerm(siz), VarTerm(v))
    ensures GenStmt(w, Sizing(s)) ==
            w.With(w.sys.(fixed := w.sys.fixed + [(siz, Singleton(|s| + 1))],
                          constraints := w.sys.constraints + [Subset(Constant(|s| + 1), v)]))
  {
    var d, n := Decl("a", CharArray(None), Some(StrConst(s))), |s| + 1;
    assert Gen(w, StrConst(s)) == (w, CStr(Constant(n), Constant(n)));
    assert VarTerm(siz).SingleVarAny() == Some((0, siz)) && n - 0 == n;
    var y := w.sys.Equate(VarTerm(siz), Constant(n));
    IncludeBare(y, Constant(n), v);
    assert GenStmt(w, d) == w.With(y.Include(Constant(n), VarTerm(v)));
    assert [d][1..] == [];
    assert GenBlock(w, [d]) == GenBlock(GenStmt(w, d), [d][1..]);
  }

  lemma TwiceWalked(s: string, t: string)
    ensures ProblemOf(TwiceProgram(s, t)) == TwiceProblem(|s| + 1, |t| + 1)
    ensures TypeOf(GenBody(TwiceProgram(s, t)).types, "a") == CharArray(None)
  {
    var w0, ty := Walk(NEW, map[], map[], 0), CharArray(None);
    var w := NewVar(w0, "a", ty).0;
    assert "siz(" + "a" + ")" == "siz(a)" && "len(" + "a" + ")" == "len(a)";
    assert w.vars == map["a" := CStr(VarTerm(0), VarTerm(1))] && w.types == map["a" := ty];
    assert w.sys == Sys([Some("siz(a)"), Some("len(a)")], [0, 1], [],
                        [Query(VarTerm(0), VarTerm(1), Overflow("a"))], [], [], None);
    SizingLocals(s);
    SizingLocals(t);
    assert TwiceProgram(s, t) == [Sizing(s)] + ([Sizing(t)] + []);
    BlockWalked(w, Sizing(s), [Sizing(t)] + []);
    SizingWalked(w, 0, 1, s);
    var w1 := GenStmt(w, Sizing(s));
    BlockWalked(w1, Sizing(t), []);
    SizingWalked(w1, 0, 1, t);
    assert [("a", ty)] + ([("a", ty)] + []) == [("a", ty), ("a", ty)];
    TwoDeclared(w0, "a", ty, "a", ty);
    assert DeclareLocals(w0, BlockLocals(TwiceProgram(s, t))) == w;
    assert [Subset(Constant(|s| + 1), 1)] + [Subset(Constant(|t| + 1), 1)] ==
           TwiceProblem(|s| + 1, |t| + 1).constraints;
  }

  lemma SizingLocals(s: string)
    ensures Locals(Sizing(s)) == [("a", CharArray(None))]
  {
    var d := Decl("a", CharArray(None), Some(StrConst(s)));
    assert [d][1..] == [];
    assert BlockLocals([d]) == Locals(d) + BlockLocals([d][1..]);
  }

  lemma TwiceSolved(m: int, n: int, g: Graph, cs: seq<seq<VarId>>, rank: seq<nat>)
    requires var p := TwiceProblem(m, n);
             p.Valid() && Layers(p, cs, rank) && Influence(p, |p.constraints|, g) && Emission(g, cs)
    ensures Final(TwiceProblem(m, n), cs) == [Singleton(n), Hull(Singleton(m), Singleton(n))]
  {
    var p := TwiceProblem(m, n);
    ConstantsAreAcyclic(p, g);
    AcyclicIsDiscrete(p, g, cs);
    AcyclicIsExact(p, cs, rank);
    ConvergedRunIsFixpoint(p, cs, rank);
    LastPinStays(p, cs, rank, 1);
    var r := Final(p, cs);
    PinIsListed(p, p.fixed, 1);
    assert Pin(p, 1).None?;
    assert Inflow(p, 0, 1, r) == EMPTY && Inflow(p, 1, 1, r) == Singleton(m);
    assert Inflow(p, 2, 1, r) == Hull(Singleton(m), Singleton(n));
  }

  // Every run stores each literal in an array of its own size.
  lemma TwiceNeverOverrun(s: string, t: string)
    ensures NeverOverrun(TwiceProgram(s, t), "a")
  {
    TwiceWalked(s, t);
    forall input: seq<int>, fuel: nat, i: nat
      | i < |RunBody(TwiceProgram(s, t), input, fuel).trail|
        && "a" in RunBody(TwiceProgram(s, t), input, fuel).trail[i].strs
      ensures RunBody(TwiceProgram(s, t), input, fuel).trail[i].strs["a"].Fits()
    {
      TwiceRuns(s, t, input, fuel);
    }
  }

  lemma TwiceRuns(s: string, t: string, input: seq<int>, fuel: nat)
    requires TypeOf(GenBody(TwiceProgram(s, t)).types, "a") == CharArray(None)
    ensures StaysFit(RunBody(TwiceProgram(s, t), input, fuel), "a")
  {
    var env, st := GenBody(TwiceProgram(s, t)).types, State(Store(map[], map[]), input, [], false, []);
    SizingRuns(env, s, st, fuel);
    var (st1, how) := Runs.Exec(env, Sizing(s), st, fuel);
    SizingRuns(env, t, st1, fuel);
    assert TwiceProgram(s, t)[1..] == [Sizing(t)] && [Sizing(t)][1..] == [];
    var (st2, how2) := Runs.Exec(env, Sizing(t), st1, fuel);
    assert Runs.ExecBlock(env, [], st2, fuel).0 == st2;
    assert Runs.ExecBlock(env, [Sizing(t)], st1, fuel).0 == st2;
    assert Runs.ExecBlock(env, TwiceProgram(s, t), st, fuel).0 == if how == Runs.Normal then st2 else st1;
  }

  // Every store of the trail keeps the array inside its size.
  ghost predicate StaysFit(st: State, x: string) {
    forall i :: 0 <= i < |st.trail| && x in st.trail[i].strs ==> st.trail[i].strs[x].Fits()
  }

  lemma SetStaysFit(st: State, x: string, b: Buf)
    requires StaysFit(st, x) && b.Fits()
    ensures StaysFit(st.SetStr(x, b), x)
  {
    var st' := st.SetStr(x, b);
    forall i | 0 <= i < |st'.trail| && x in st'.trail[i].strs ensures st'.trail[i].strs[x].Fits() {
      if i < |st.trail| { assert st'.trail[i] == st.trail[i]; }
    }
  }

  lemma SizingRuns(env: Env, s: string, st: State, fuel: nat)
    requires TypeOf(env, "a") == CharArray(None) && StaysFit(st, "a")
    ensures StaysFit(Runs.Exec(env, Sizing(s), st, fuel).0, "a")
    ensures Runs.Exec(env, Sizing(s), st, fuel).1 in {Runs.Normal, Runs.Halted}
  {
    var d, b := Decl("a", CharArray(None), Some(StrConst(s))), Runs.Initialised(|s| + 1, |s| + 1);
    assert [d][1..] == [];
    InitialisedFits(|s| + 1, |s| + 1);
    SetStaysFit(st, "a", b);
    if Runs.Plain(s) {
      assert Runs.Exec(env, d, st, fuel) == (st.SetStr("a", b), Runs.Normal);
      assert Runs.ExecBlock(env, [], st.SetStr("a", b), fuel).0 == st.SetStr("a", b);
    } else {
      assert Runs.Exec(env, d, st, fuel) == (st, Runs.Halted);
    }
  }

  // The size is that of the second array, the length that of either: the name is reported exactly if the first literal
  // is the longer one.
  lemma TwiceVerdict(s: string, t: string, results: seq<QueryResult>, g: Graph, cs: seq<seq<VarId>>, rank: seq<nat>)
    requires |s| + 1 < INF && |t| + 1 < INF
    requires var p := ProblemOf(TwiceProgram(s, t));
             Layers(p, cs, rank) && Influence(p, |p.constraints|, g) && Emission(g, cs)
               && Reports(p, Final(p, cs), results)
    ensures var m, n := |s| + 1, |t| + 1;
            Final(ProblemOf(TwiceProgram(s, t)), cs) == [Range(n, n), Range(Min(m, n), Max(m, n))]
    ensures Silent(results, "a") <==> |s| <= |t|
    ensures NeverOverrun(TwiceProgram(s, t), "a")
  {
    TwiceNeverOverrun(s, t);
    var p := TwiceProblem(|s| + 1, |t| + 1);
    TwiceWalked(s, t);
    TwiceSolved(|s| + 1, |t| + 1, g, cs, rank);
    VarTermEvaluates(p, 0, Final(p, cs));
    VarTermEvaluates(p, 1, Final(p, cs));
    SilentMeansPassed(p, 0, "a", Final(p, cs), results);
  }
}
