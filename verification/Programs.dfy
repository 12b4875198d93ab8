/** How small programs are walked and run: arrays, calls on variables, literals and numbers. */
module Programs {
  import opened Buffers
  import opened Terms
  import opened Problems
  import opened Systems
  import opened Syntax
  import opened Generator
  import opened Solve
  import opened Solver
  import opened Ranges
  import opened EndToEnd
  import Runs

  // ----- expressions -----

  // The value of an expression of integer constants, unary and binary minus, sums and products.
  function ConstantValue(e: Expr): Option<int> {
    match e
    case IntConst(n) => Some(n)
    case Unary(op, a) =>
      if op == Neg && ConstantValue(a).Some? then Some(-ConstantValue(a).value) else None
    case Binary(op, a, b) =>
      var x, y := ConstantValue(a), ConstantValue(b);
      if x.None? || y.None? then None
      else if op == Add then Some(x.value + y.value)
      else if op == Sub then Some(x.value - y.value)
      else if op == Mul then Some(x.value * y.value)
      else None
    case _ => None
  }

  // Walking such an expression adds nothing and gives its value as a constant; so does running it.
  lemma {:induction false} ConstantWalked(w: Walk, e: Expr)
    requires ConstantValue(e).Some?
    ensures Gen(w, e) == (w, CInt(Constant(ConstantValue(e).value)))
  {
    match e
    case IntConst(_) =>
    case Unary(_, a) =>
      ConstantWalked(w, a);
      ScaledConstant(ConstantValue(a).value, -1);
    case Binary(op, a, b) =>
      ConstantWalked(w, a);
      ConstantWalked(w, b);
      ConstantsCombine(w, op, ConstantValue(a).value, ConstantValue(b).value);
  }

  lemma ConstantsCombine(w: Walk, op: BinOp, x: int, y: int)
    requires op in {Add, Sub, Mul}
    ensures Combine(w, op, CInt(Constant(x)), CInt(Constant(y))) ==
            (w, CInt(Constant(if op == Add then x + y else if op == Sub then x - y else x * y)))
  {
    PlusConstant(Constant(x), y);
    ScaledConstant(y, x);
  }

  lemma {:induction false} ConstantRuns(env: Env, e: Expr, st: State)
    requires ConstantValue(e).Some?
    ensures Yields(env, e, st, IntV(ConstantValue(e).value))
  {
    match e
    case IntConst(_) =>
    case Unary(_, a) => ConstantRuns(env, a, st);
    case Binary(_, a, b) =>
      ConstantRuns(env, a, st);
      ConstantRuns(env, b, st);
  }

  lemma ArgumentWalked(w: Walk, e: Expr, rest: seq<Expr>)
    ensures GenArgs(w, [e] + rest) == (GenArgs(Gen(w, e).0, rest).0, [Gen(w, e).1] + GenArgs(Gen(w, e).0, rest).1)
  {
    assert ([e] + rest)[1..] == rest;
  }

  lemma TwoWalked(w: Walk, a: Expr, b: Expr)
    ensures GenArgs(w, [a, b]) == (Gen(Gen(w, a).0, b).0, [Gen(w, a).1, Gen(Gen(w, a).0, b).1])
  {
    var w1 := Gen(w, a).0;
    ArgumentWalked(w1, b, []);
    ArgumentWalked(w, a, [b] + []);
    assert [a, b] == [a] + ([b] + []);
    assert [Gen(w, a).1] + ([Gen(w1, b).1] + []) == [Gen(w, a).1, Gen(w1, b).1];
  }

  lemma ThreeWalked(w: Walk, a: Expr, b: Expr, c: Expr)
    ensures var w1 := Gen(w, a).0; var w2 := Gen(w1, b).0;
            GenArgs(w, [a, b, c]) == (Gen(w2, c).0, [Gen(w, a).1, Gen(w1, b).1, Gen(w2, c).1])
  {
    var w1 := Gen(w, a).0;
    var w2 := Gen(w1, b).0;
    TwoWalked(w1, b, c);
    ArgumentWalked(w, a, [b, c]);
    assert [a, b, c] == [a] + [b, c];
    assert [Gen(w, a).1] + [Gen(w1, b).1, Gen(w2, c).1] == [Gen(w, a).1, Gen(w1, b).1, Gen(w2, c).1];
  }

  // An argument that changes nothing, before others that change nothing.
  lemma ArgumentRuns(env: Env, e: Expr, rest: seq<Expr>, st: State, vals: seq<Value>)
    requires Runs.Eval(env, e, st).0 == st && Runs.Eval(env, e, st).1.Some?
    requires Runs.EvalArgs(env, rest, st) == (st, Some(vals))
    ensures Runs.EvalArgs(env, [e] + rest, st) == (st, Some([Runs.Eval(env, e, st).1.value] + vals))
  {
    assert ([e] + rest)[1..] == rest;
  }

  // Arguments that change nothing.
  ghost predicate Yields(env: Env, e: Expr, st: State, v: Value) { Runs.Eval(env, e, st) == (st, Some(v)) }

  lemma TwoRun(env: Env, a: Expr, b: Expr, st: State, x: Value, y: Value)
    requires Yields(env, a, st, x) && Yields(env, b, st, y)
    ensures Runs.EvalArgs(env, [a, b], st) == (st, Some([x, y]))
  {
    ArgumentRuns(env, b, [], st, []);
    ArgumentRuns(env, a, [b] + [], st, [y] + []);
    assert [a, b] == [a] + ([b] + []) && [x, y] == [x] + ([y] + []);
  }

  lemma ThreeRun(env: Env, a: Expr, b: Expr, c: Expr, st: State, x: Value, y: Value, z: Value)
    requires Yields(env, a, st, x) && Yields(env, b, st, y) && Yields(env, c, st, z)
    ensures Runs.EvalArgs(env, [a, b, c], st) == (st, Some([x, y, z]))
  {
    TwoRun(env, b, c, st, y, z);
    ArgumentRuns(env, a, [b, c], st, [y, z]);
    assert [a, b, c] == [a] + [b, c] && [x, y, z] == [x] + [y, z];
  }

  lemma LoadRuns(env: Env, x: string, st: State)
    requires TypeOf(env, x) != OtherType && x !in st.store.ints && x in st.store.strs
    ensures Yields(env, Var(x), st, Runs.At(st.store, x, 0))
  {
  }

  // A call on arguments that change nothing.
  lemma CallApplied(env: Env, f: string, args: seq<Expr>, st: State, vals: seq<Value>)
    requires Runs.EvalArgs(env, args, st) == (st, Some(vals))
    ensures |vals| == |args| && Runs.Eval(env, Call(f, args), st) == Runs.RunCall(RoutineOf(f), args, vals, st)
  {
  }

  // The routines of the programs, by name.
  lemma StrncpyNamed()
    ensures RoutineOf("strncpy") == Strncpy
  {
  }

  lemma StrncatNamed()
    ensures RoutineOf("strncat") == Strncat
  {
  }

  lemma StrcpyNamed()
    ensures RoutineOf("strcpy") == Strcpy
  {
  }

  lemma FgetsNamed()
    ensures RoutineOf("fgets") == Fgets
  {
  }

  lemma SprintfNamed()
    ensures RoutineOf("sprintf") == Sprintf
  {
  }

  // ----- statements -----

  lemma BlockWalked(w: Walk, s: Stmt, rest: seq<Stmt>)
    ensures GenBlock(w, [s] + rest) == GenBlock(GenStmt(w, s), rest)
    ensures BlockLocals([s] + rest) == Locals(s) + BlockLocals(rest)
  {
    assert ([s] + rest)[1..] == rest;
  }

  // A statement that runs to its end.
  ghost predicate Does(env: Env, s: Stmt, st: State, st': State, fuel: nat) {
    Runs.Exec(env, s, st, fuel) == (st', Runs.Normal)
  }

  lemma BlockRuns(env: Env, s: Stmt, rest: seq<Stmt>, st: State, st': State, fuel: nat)
    requires Does(env, s, st, st', fuel)
    ensures Runs.ExecBlock(env, [s] + rest, st, fuel) == Runs.ExecBlock(env, rest, st', fuel)
  {
    assert ([s] + rest)[1..] == rest;
  }

  lemma FourWalked(w: Walk, a: Stmt, b: Stmt, c: Stmt, d: Stmt)
    ensures GenBlock(w, [a, b, c, d]) == GenStmt(GenStmt(GenStmt(GenStmt(w, a), b), c), d)
    ensures BlockLocals([a, b, c, d]) == Locals(a) + Locals(b) + Locals(c) + Locals(d)
  {
    var w1 := GenStmt(w, a);
    var w2 := GenStmt(w1, b);
    TwoInBlock(w2, c, d);
    BlockWalked(w1, b, [c, d]);
    BlockWalked(w, a, [b] + [c, d]);
    assert [a, b, c, d] == [a] + ([b] + [c, d]);
    FourInARow(Locals(a), Locals(b), Locals(c), Locals(d));
  }

  lemma FourInARow<T>(a: seq<T>, b: seq<T>, c: seq<T>, d: seq<T>)
    ensures a + (b + (c + d)) == a + b + c + d
  {
  }

  lemma TwoInBlock(w: Walk, c: Stmt, d: Stmt)
    ensures GenBlock(w, [c, d]) == GenStmt(GenStmt(w, c), d)
    ensures BlockLocals([c, d]) == Locals(c) + Locals(d)
  {
    BlockWalked(GenStmt(w, c), d, []);
    BlockWalked(w, c, [d] + []);
    assert [c, d] == [c] + ([d] + []);
    assert BlockLocals([]) == [];
  }

  lemma FourRun(env: Env, a: Stmt, b: Stmt, c: Stmt, d: Stmt, s0: State, s1: State, s2: State, s3: State, s4: State,
                fuel: nat)
    requires Does(env, a, s0, s1, fuel) && Does(env, b, s1, s2, fuel) && Does(env, c, s2, s3, fuel)
    requires Does(env, d, s3, s4, fuel)
    ensures Runs.ExecBlock(env, [a, b, c, d], s0, fuel) == (s4, Runs.Normal)
  {
    BlockRuns(env, d, [], s3, s4, fuel);
    BlockRuns(env, c, [d] + [], s2, s3, fuel);
    BlockRuns(env, b, [c] + ([d] + []), s1, s2, fuel);
    BlockRuns(env, a, [b] + ([c] + ([d] + [])), s0, s1, fuel);
    assert [a, b, c, d] == [a] + ([b] + ([c] + ([d] + [])));
  }

  lemma TwoDeclared(w: Walk, x: string, tx: VarType, y: string, ty: VarType)
    ensures DeclareLocals(w, [(x, tx), (y, ty)]) == NewVar(NewVar(w, x, tx).0, y, ty).0
  {
    var w1 := NewVar(w, x, tx).0;
    assert [(x, tx), (y, ty)][1..] == [(y, ty)];
    assert [(y, ty)][1..] == [];
    assert DeclareLocals(w1, [(y, ty)]) == DeclareLocals(NewVar(w1, y, ty).0, []);
  }

  // The walk and the run of a body of a sized array and one statement more.
  lemma ArrayThenWalked(x: string, size: int, s: Stmt)
    requires Locals(s) == []
    ensures GenBody([Decl(x, CharArray(Some(size)), None), s]) ==
            GenStmt(NewVar(Walk(NEW, map[], map[], 0), x, CharArray(Some(size))).0, s)
  {
    var d, ty := Decl(x, CharArray(Some(size)), None), CharArray(Some(size));
    var w := NewVar(Walk(NEW, map[], map[], 0), x, ty).0;
    ArrayWalked(Walk(NEW, map[], map[], 0), x, size);
    assert [d, s] == [d] + ([s] + []);
    BlockWalked(w, d, [s] + []);
    BlockWalked(w, s, []);
    assert BlockLocals([d, s]) == [(x, ty)];
    assert BlockLocals([d, s])[1..] == [];
    assert DeclareLocals(Walk(NEW, map[], map[], 0), BlockLocals([d, s])) == w;
  }

  lemma ArrayThenRuns(env: Env, x: string, size: int, s: Stmt, input: seq<int>, fuel: nat, st': State)
    requires TypeOf(env, x) == CharArray(Some(size))
    requires Does(env, s, Declared(x, size, input), st', fuel)
    ensures var st := State(Store(map[], map[]), input, [], false, []);
            Runs.ExecBlock(env, [Decl(x, CharArray(Some(size)), None), s], st, fuel) == (st', Runs.Normal)
  {
    var d, st := Decl(x, CharArray(Some(size)), None), State(Store(map[], map[]), input, [], false, []);
    assert [d, s] == [d] + ([s] + []);
    BlockRuns(env, d, [s] + [], st, Declared(x, size, input), fuel);
    BlockRuns(env, s, [], Declared(x, size, input), st', fuel);
  }

  // A run that has declared one array.
  function Declared(x: string, size: int, input: seq<int>): State {
    State(Store(map[], map[]), input, [], false, []).SetStr(x, Buf(size, [], None))
  }

  // ----- systems -----

  lemma IncludeBare(s: Sys, t: Term, v: VarId)
    ensures s.Include(t, VarTerm(v)) == s.(constraints := s.constraints + [Subset(t, v)])
  {
    var rhs := VarTerm(v);
    assert Term(rhs.terms[1..], rhs.konst) == Constant(0);
    PlusConstant(t, 0);
  }

  lemma MinOfConstants(y: Sys, a: int, b: int)
    ensures y.MinOf(Constant(a), Constant(b)) ==
            (y.(names := y.names + [None], root := y.root + [y.Size()],
                constraints := y.constraints + [MinSubset([MinConst(a), MinConst(b)], y.Size())]), VarTerm(y.Size()))
  {
  }

  // What a sized array adds: two variables, its size, and the query between them.
  function WithArray(y: Sys, x: string, size: int): Sys {
    var v := y.Size();
    y.(names := y.names + [Some("siz(" + x + ")"), Some("len(" + x + ")")], root := y.root + [v, v + 1],
       constraints := y.constraints + [Subset(Constant(size), v)],
       queries := y.queries + [Query(VarTerm(v), VarTerm(v + 1), Overflow(x))])
  }

  lemma ArrayWalked(w: Walk, x: string, size: int)
    requires x !in w.vars
    ensures var v, ty := w.sys.Size(), CharArray(Some(size));
            NewVar(w, x, ty).0 == Walk(WithArray(w.sys, x, size), w.vars[x := CStr(VarTerm(v), VarTerm(v + 1))],
                                       w.types[x := ty], w.allocs)
  {
    var v, s1 := w.sys.Size(), FreshStr(w.sys, Some(x)).0;
    IncludeBare(s1, Constant(size), v);
    assert s1.names == w.sys.names + [Some("siz(" + x + ")"), Some("len(" + x + ")")];
    assert s1.root == w.sys.root + [v, v + 1];
  }

  // The walk of a body that starts with `char b[size];`.
  function BufferWalk(size: int): Walk {
    NewVar(Walk(NEW, map[], map[], 0), "b", CharArray(Some(size))).0
  }

  lemma BufferWalked(size: int)
    ensures var w := BufferWalk(size);
            && w.vars == map["b" := CStr(VarTerm(0), VarTerm(1))] && w.types == map["b" := CharArray(Some(size))]
            && w.sys == Sys([Some("siz(b)"), Some("len(b)")], [0, 1], [Subset(Constant(size), 0)],
                            [Query(VarTerm(0), VarTerm(1), Overflow("b"))], [], [], None)
  {
    ArrayWalked(Walk(NEW, map[], map[], 0), "b", size);
    assert "siz(" + "b" + ")" == "siz(b)" && "len(" + "b" + ")" == "len(b)";
  }

  // ----- reports -----

  // A minimum of two constants.
  lemma ConstantItems(p: Problem, a: int, b: int, r: seq<Range>)
    requires p.Valid() && |r| == p.Size()
    ensures EvalItems(p, [MinConst(a), MinConst(b)], r) == RMin(RMin(Singleton(INF), Singleton(a)), Singleton(b))
  {
    var items := [MinConst(a), MinConst(b)];
    assert items[..1] == [MinConst(a)] && items[..1][..0] == [];
    assert EvalItems(p, items[..1], r) == RMin(EvalItems(p, [], r), Singleton(a));
  }

  lemma ConstantsReadNothing(p: Problem, c: Constraint, u: VarId)
    requires p.Valid() && ConstraintBelow(c, p.Size()) && c.MinSubset?
    requires forall k :: 0 <= k < |c.items| ==> c.items[k].MinConst?
    ensures !Reads(p, c, u)
  {
    assert forall v :: v !in LhsVars(c);
    assert forall k :: 0 <= k < |LhsVars(c)| ==> LhsVars(c)[k] in LhsVars(c);
  }

  // Silence about a name is that its query, asked once, does not fail.
  lemma SilentMeansPassed(p: Problem, k: nat, x: string, r: seq<Range>, results: seq<QueryResult>)
    requires p.Valid() && |r| == p.Size() && Reports(p, r, results)
    requires k < |p.queries| && p.queries[k].kind == Overflow(x)
    requires forall j :: 0 <= j < |p.queries| && p.queries[j].kind == Overflow(x) ==> j == k
    ensures Silent(results, x) <==> !Fails(p, p.queries[k], r)
  {
    if Fails(p, p.queries[k], r) {
      FailingQueryIsReported(p, |p.queries|, k, r);
      var i :| 0 <= i < |Failures(p, |p.queries|, r)| && Failures(p, |p.queries|, r)[i] == p.queries[k];
      assert ReportsOn(p, Failures(p, |p.queries|, r)[i], r, results[i]);
    } else {
      forall i | 0 <= i < |results| ensures results[i].kind != Overflow(x) {
        assert ReportsOn(p, Failures(p, |p.queries|, r)[i], r, results[i]);
        FailureIsQuery(p, |p.queries|, i, r);
      }
    }
  }

  // The safety theorem, from what the reports say.
  lemma SilenceIsSafe(body: seq<Stmt>, cs: seq<seq<VarId>>, rank: seq<nat>, results: seq<QueryResult>, x: string)
    requires var p := ProblemOf(body);
             && Layers(p, cs, rank) && AllConverge(p, cs) && StraightResult(p, Final(p, cs))
             && Absorbs(body, Final(p, cs)) && Reports(p, Final(p, cs), results) && Silent(results, x)
    ensures NeverOverrun(body, x)
  {
    SilentMeansUnreported(ProblemOf(body), Final(ProblemOf(body), cs), results, x);
    ConvergedCleanVerdictIsSafe(body, cs, rank, x);
  }

  lemma {:induction false} FailureIsQuery(p: Problem, k: nat, i: nat, r: seq<Range>)
    requires p.Valid() && |r| == p.Size() && k <= |p.queries| && i < |Failures(p, k, r)|
    ensures exists j :: 0 <= j < k && p.queries[j] == Failures(p, k, r)[i] && Fails(p, p.queries[j], r)
  {
    if i < |Failures(p, k - 1, r)| {
      FailureIsQuery(p, k - 1, i, r);
    } else {
      assert p.queries[k - 1] == Failures(p, k, r)[i];
    }
  }
}
