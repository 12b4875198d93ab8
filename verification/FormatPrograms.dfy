/**
 Programs that format: `char b[size]; sprintf(b, f, a1, ...);` with a literal format whose arguments are constants,
 literals and names of types the analyser does not follow. The solver's range for the length of `b` is exactly the
 table's bounds added up along the format (`Spans`), so the array is reported exactly when the longest text does not
 fit. With a format that is not a literal the array is always reported, and some run overruns it.
 */
module FormatPrograms {
  import opened Buffers
  import opened Ranges
  import opened Terms
  import opened Problems
  import opened Graphs
  import opened Solver
  import opened Solve
  import opened Verdicts
  import opened Systems
  import opened Syntax
  import opened Formats
  import opened Generator
  import opened Feedback
  import opened Soundness
  import opened EndToEnd
  import opened Programs
  import opened Exactness
  import opened Spans
  import Runs

  // ----- the walk -----

  // A constant, a literal, or something the analyser does not follow; not the array itself.
  predicate Followed(e: Expr) {
    ConstantValue(e).Some? || e.StrConst? || e.CharConst? || e.OtherConst? || (e.Var? && e.name != "b")
  }

  predicate AllFollowed(args: seq<Expr>) { forall i :: 0 <= i < |args| ==> Followed(args[i]) }

  function CtxOf(e: Expr): Ctx {
    if ConstantValue(e).Some? then CInt(Constant(ConstantValue(e).value))
    else if e.StrConst? then CStr(Constant(|e.s| + 1), Constant(|e.s| + 1))
    else CNone
  }

  function CtxsOf(args: seq<Expr>): (r: seq<Ctx>)
    ensures |r| == |args| && forall i :: 0 <= i < |args| ==> r[i] == CtxOf(args[i])
  {
    if args == [] then [] else [CtxOf(args[0])] + CtxsOf(args[1..])
  }

  // The array `b` is the only variable the analyser follows.
  ghost predicate OnlyArray(w: Walk) {
    && "b" in w.vars && w.vars["b"] == CStr(VarTerm(0), VarTerm(1))
    && forall x :: x in w.vars && x != "b" ==> w.vars[x] == CNone
  }

  lemma ArgWalked(w: Walk, e: Expr)
    requires OnlyArray(w) && Followed(e)
    ensures Gen(w, e).0.sys == w.sys && OnlyArray(Gen(w, e).0) && Gen(w, e).1 == CtxOf(e)
  {
    if ConstantValue(e).Some? { ConstantWalked(w, e); }
  }

  lemma {:induction false} ArgsWalked(w: Walk, args: seq<Expr>)
    requires OnlyArray(w) && AllFollowed(args)
    ensures GenArgs(w, args).0.sys == w.sys && OnlyArray(GenArgs(w, args).0) && GenArgs(w, args).1 == CtxsOf(args)
    decreases |args|
  {
    if args != [] {
      ArgWalked(w, args[0]);
      ArgsWalked(Gen(w, args[0]).0, args[1..]);
    }
  }

  lemma CtxsAreKnown(args: seq<Expr>)
    ensures AllKnown(CtxsOf(args))
  {
  }

  function FormatArgs(f: string, args: seq<Expr>): seq<Expr> { [Var("b"), StrConst(f)] + args }

  function FormatProgram(size: int, f: string, args: seq<Expr>): seq<Stmt> {
    [Decl("b", CharArray(Some(size)), None), Simple(Call("sprintf", FormatArgs(f, args)))]
  }

  // size ⊆ x0, with x0 ≥ x1 asked.
  function ArraySystem(size: int): Sys {
    Sys([Some("siz(b)"), Some("len(b)")], [0, 1], [Subset(Constant(size), 0)],
        [Query(VarTerm(0), VarTerm(1), Overflow("b"))], [], [], None)
  }

  // The scan of the format, its term included into x1.
  function Formatted(size: int, f: string, pl: seq<Ctx>): Sys {
    var (s, t) := FmtScan(ArraySystem(size), f, 0, pl, 0);
    s.Include(t, VarTerm(1))
  }

  lemma FormatArgsWalked(w: Walk, f: string, args: seq<Expr>)
    requires OnlyArray(w) && AllFollowed(args)
    ensures var (w', ctxs) := GenArgs(w, FormatArgs(f, args));
            && w'.sys == w.sys && |ctxs| == |args| + 2 && ctxs[0] == CStr(VarTerm(0), VarTerm(1))
            && Drop(ctxs, 2) == CtxsOf(args)
  {
    var text := [StrConst(f)] + args;
    ArgsWalked(w, args);
    ArgumentWalked(w, StrConst(f), args);
    TwoDropped(w.vars["b"], Gen(w, StrConst(f)).1, CtxsOf(args));
    VariableFirst(w, "b", text);
    assert FormatArgs(f, args) == [Var("b")] + text;
  }

  lemma VariableFirst(w: Walk, x: string, rest: seq<Expr>)
    requires x in w.vars
    ensures GenArgs(w, [Var(x)] + rest) == (GenArgs(w, rest).0, [w.vars[x]] + GenArgs(w, rest).1)
  {
    ArgumentWalked(w, Var(x), rest);
  }

  lemma TwoDropped(c: Ctx, d: Ctx, rest: seq<Ctx>)
    ensures Drop([c] + ([d] + rest), 2) == rest
  {
    assert ([c] + ([d] + rest))[2..] == rest;
  }

  lemma BufferDeclared(size: int)
    ensures var w := BufferWalk(size);
            && w.sys == ArraySystem(size) && OnlyArray(w)
            && w.vars.Keys == {"b"} && TypeOf(w.types, "b") == CharArray(Some(size))
  {
    BufferWalked(size);
  }

  lemma LiteralModelled(w: Walk, args: seq<Expr>, ctxs: seq<Ctx>, f: string, len: Term, pl: seq<Ctx>)
    requires |args| == |ctxs| >= 2 && args[1] == StrConst(f) && ctxs[0].CStr? && ctxs[0].len == len
    requires Drop(ctxs, 2) == pl
    ensures var (s, t) := FmtScan(w.sys, f, 0, pl, 0); ModelSprintf(w, args, ctxs).0.sys == s.Include(t, len)
  {
  }

  lemma CallWalked(w: Walk, callee: string, args: seq<Expr>)
    requires RoutineOf(callee) == Sprintf
    ensures var (w1, ctxs) := GenArgs(NewVar(w, callee, OtherType).0, args);
            GenStmt(w, Simple(Call(callee, args))) == ModelSprintf(w1, args, ctxs).0
  {
  }

  lemma SprintfWalked(w: Walk, callee: string, f: string, args: seq<Expr>)
    requires OnlyArray(w) && AllFollowed(args) && RoutineOf(callee) == Sprintf && callee != "b"
    ensures var (s, t) := FmtScan(w.sys, f, 0, CtxsOf(args), 0);
            GenStmt(w, Simple(Call(callee, FormatArgs(f, args)))).sys == s.Include(t, VarTerm(1))
  {
    var w0 := NewVar(w, callee, OtherType).0;
    FormatArgsWalked(w0, f, args);
    var (w1, ctxs) := GenArgs(w0, FormatArgs(f, args));
    CallWalked(w, callee, FormatArgs(f, args));
    LiteralModelled(w1, FormatArgs(f, args), ctxs, f, VarTerm(1), CtxsOf(args));
  }

  lemma FormatWalked(size: int, f: string, args: seq<Expr>)
    requires AllFollowed(args)
    ensures GenBody(FormatProgram(size, f, args)).sys == Formatted(size, f, CtxsOf(args))
  {
    var call := Simple(Call("sprintf", FormatArgs(f, args)));
    BufferDeclared(size);
    ArrayThenWalked("b", size, call);
    SprintfNamed();
    SprintfWalked(BufferWalk(size), "sprintf", f, args);
    FormattedIs(ArraySystem(size), size, f, CtxsOf(args));
  }

  lemma FormattedIs(s: Sys, size: int, f: string, pl: seq<Ctx>)
    requires s == ArraySystem(size)
    ensures Formatted(size, f, pl) == FmtScan(s, f, 0, pl, 0).0.Include(FmtScan(s, f, 0, pl, 0).1, VarTerm(1))
  {
  }

  // ----- the shape of the constraints -----

  // A positive sum of variables from `n` on.
  predicate Above(t: Term, n: nat) { forall k :: 0 <= k < |t.terms| ==> n <= t.terms[k].v && t.terms[k].coeff > 0 }

  // The constraint reads variables between `n` and its target; its target only in a positive sum.
  predicate Climbs(c: Constraint, n: nat) {
    match c
    case Subset(lhs, v) => n <= v && Above(lhs, n) && forall k :: 0 <= k < |lhs.terms| ==> lhs.terms[k].v <= v
    case MinSubset(items, v) => n <= v && forall k :: 0 <= k < |items| && items[k].MinTerm? ==> n <= items[k].v < v
  }

  // What `s'` has in addition to `s` climbs.
  ghost predicate Climbing(s: Sys, s': Sys, n: nat) {
    && s.constraints <= s'.constraints && s.Size() <= s'.Size() && s'.queries == s.queries
    && forall i :: |s.constraints| <= i < |s'.constraints| ==> Climbs(s'.constraints[i], n)
  }

  lemma AddSlotAbove(slots: seq<Slot>, c: int, v: VarId, n: nat)
    requires Above(Term(slots, 0), n) && n <= v && c > 0
    ensures Above(Term(AddSlot(slots, c, v), 0), n)
  {
    if slots != [] {
      var rest := slots[1..];
      forall k | 0 <= k < |rest| ensures n <= rest[k].v && rest[k].coeff > 0 { assert rest[k] == slots[k + 1]; }
      AddSlotAbove(rest, c, v, n);
    }
  }

  lemma {:induction false} AddSlotsAbove(slots: seq<Slot>, more: seq<Slot>, n: nat)
    requires Above(Term(slots, 0), n) && Above(Term(more, 0), n)
    ensures Above(Term(AddSlots(slots, more), 0), n)
  {
    if more != [] {
      var init, last := more[..|more| - 1], more[|more| - 1];
      assert forall k :: 0 <= k < |init| ==> init[k] == more[k];
      AddSlotsAbove(slots, init, n);
      AddSlotAbove(AddSlots(slots, init), last.coeff, last.v, n);
    }
  }

  lemma PlusAbove(t: Term, u: Term, n: nat)
    requires Above(t, n) && Above(u, n)
    ensures Above(t.Plus(u), n)
  {
    AddSlotsAbove(t.terms, u.terms, n);
  }

  lemma TextClimbs(s: Sys, pl: seq<Ctx>, k: nat, n: nat)
    requires n <= s.Size() && AllKnown(pl)
    ensures var (s', t) := StringArg(s, pl, k);
            Climbing(s, s', n) && Above(t, n) && (t.IsConstant() || t.SingleVar().Some?) && t.VarsBelow(s'.Size())
  {
    if k < |pl| && pl[k].CStr? {
      PlusConstant(pl[k].len, 1);
    } else {
      var s0 := s.Fresh(None).0;
      ForcedIs(s0, s.Size());
      ForcedClimbs(s, s0, s0.ForceTop(VarTerm(s.Size())), s.Size(), n);
    }
  }

  // 1 ⊆ v and v + 1 ⊆ v.
  lemma ForcedIs(s: Sys, v: VarId)
    ensures s.ForceTop(VarTerm(v)) == With(With(s, Subset(Constant(1), v)), Subset(Term([Slot(1, v)], 1), v))
  {
    PlusConstant(VarTerm(v), 1);
    IncludeIsWith(s, Constant(1), v);
    IncludeIsWith(With(s, Subset(Constant(1), v)), Term([Slot(1, v)], 1), v);
  }

  lemma ForcedClimbs(s: Sys, s0: Sys, s': Sys, v: VarId, n: nat)
    requires n <= v && s0.constraints == s.constraints && s0.queries == s.queries && s.Size() <= s0.Size()
    requires s' == With(With(s0, Subset(Constant(1), v)), Subset(Term([Slot(1, v)], 1), v))
    ensures Climbing(s, s', n)
  {
  }

  lemma CutClimbs(s: Sys, prec: Option<int>, t: Term, n: nat)
    requires n <= s.Size() && Above(t, n) && (t.IsConstant() || t.SingleVar().Some?) && t.VarsBelow(s.Size())
    ensures var (s', m) := Cut(s, prec, t); Climbing(s, s', n) && Above(m, n) && m.VarsBelow(s'.Size())
  {
    if prec.Some? {
      MinIsWith(s, Constant(prec.value), t);
      if t.SingleVar().Some? { assert t.terms[0].v < s.Size(); }
    }
  }

  lemma UnionClimbs(s: Sys, x: Term, y: Term, n: nat)
    requires n <= s.Size() && Above(x, n) && Above(y, n) && x.VarsBelow(s.Size()) && y.VarsBelow(s.Size())
    ensures var (s', m) := s.UnionOf(x, y); Climbing(s, s', n) && Above(m, n) && m.VarsBelow(s'.Size())
  {
    var (s0, z) := s.Fresh(None);
    IncludeIsWith(s0, x, s.Size());
    IncludeIsWith(s0.Include(x, z), y, s.Size());
  }

  lemma ClimbingTransitive(s: Sys, t: Sys, u: Sys, n: nat)
    requires Climbing(s, t, n) && Climbing(t, u, n)
    ensures Climbing(s, u, n)
  {
    forall i | |s.constraints| <= i < |u.constraints| ensures Climbs(u.constraints[i], n) {
      if i < |t.constraints| { assert u.constraints[i] == t.constraints[i]; }
    }
  }

  lemma ConvClimbs(s: Sys, c: char, width: Option<int>, prec: Option<int>, pl: seq<Ctx>, k: nat, n: nat)
    requires n <= s.Size() && AllKnown(pl)
    ensures var (s', m, takes) := ConvTerm(s, c, Constants(width), Constants(prec), pl, k);
            Climbing(s, s', n) && Above(m, n) && takes == TakesArgument(c)
  {
    if c == 's' {
      FieldIsStages(s, width, prec, pl, k);
      var (s1, t) := StringArg(s, pl, k);
      TextClimbs(s, pl, k, n);
      CutClimbs(s1, prec, t, n);
      var s2 := Cut(s1, prec, t).0;
      ClimbingTransitive(s, s1, s2, n);
      if width.Some? {
        UnionClimbs(s2, Constant(width.value), t, n);
        ClimbingTransitive(s, s2, s2.UnionOf(Constant(width.value), t).0, n);
      }
    } else if Counted(c) {
      CountTerm(s, c, Constants(width), Constants(prec), pl, k);
      CountEnds(c, width, prec, Ends(0, 0));
      UnionClimbs(s, Constant(1), Constant(MostOf(c)), n);
    } else {
      OtherTerm(s, c, Constants(width), Constants(prec), pl, k);
    }
  }

  ghost predicate ScanAbove(s: Sys, f: string, i: nat, pl: seq<Ctx>, k: nat, n: nat)
    requires i <= |f|
  {
    var (s', t) := FmtScan(s, f, i, pl, k); Climbing(s, s', n) && Above(t, n)
  }

  lemma {:induction false} ScanClimbs(s: Sys, f: string, i: nat, pl: seq<Ctx>, k: nat, n: nat)
    requires i <= |f| && AllKnown(pl) && Span(f, i, pl, k).Some? && n <= s.Size()
    ensures ScanAbove(s, f, i, pl, k, n)
    decreases |f| - i, 0
  {
    if i == |f| {
    } else if f[i] != '%' {
      ScanClimbs(s, f, i + 1, pl, k, n);
      PlusAbove(Constant(1), FmtScan(s, f, i + 1, pl, k).1, n);
    } else if i + 1 == |f| {
    } else if f[i + 1] == '%' {
      ScanClimbs(s, f, i + 2, pl, k, n);
      PlusAbove(Constant(1), FmtScan(s, f, i + 2, pl, k).1, n);
    } else {
      PercentClimbs(s, f, i, pl, k, n);
    }
  }

  lemma {:induction false} PercentClimbs(s: Sys, f: string, i: nat, pl: seq<Ctx>, k: nat, n: nat)
    requires i + 1 < |f| && f[i] == '%' && f[i + 1] != '%' && AllKnown(pl) && Span(f, i, pl, k).Some? && n <= s.Size()
    ensures ScanAbove(s, f, i, pl, k, n)
    decreases |f| - i - 1, 1
  {
    var q := PieceIsRead(f, i, pl, k);
    PieceScanned(s, f, i, pl, k, q);
    PieceSpans(f, i, pl, k, q);
    if q.at < |f| {
      ConversionClimbs(s, f[q.at], q.width, q.prec, f, q.at + 1, pl, q.used, n);
    }
  }

  lemma {:induction false} ConversionClimbs(s: Sys, c: char, width: Option<int>, prec: Option<int>, f: string,
                                            next: nat, pl: seq<Ctx>, k: nat, n: nat)
    requires next <= |f| && AllKnown(pl) && n <= s.Size()
    requires Span(f, next, pl, if TakesArgument(c) then k + 1 else k).Some?
    ensures var (s', t) := ExpandConv(s, c, Constants(width), Constants(prec), f, next, pl, k);
            Climbing(s, s', n) && Above(t, n)
    decreases |f| - next, 1
  {
    var used := if TakesArgument(c) then k + 1 else k;
    ConvClimbs(s, c, width, prec, pl, k, n);
    var (s1, m, takes) := ConvTerm(s, c, Constants(width), Constants(prec), pl, k);
    ScanClimbs(s1, f, next, pl, used, n);
    var (s2, rest) := FmtScan(s1, f, next, pl, used);
    ClimbingTransitive(s, s1, s2, n);
    PlusAbove(m, rest, n);
  }

  // ----- the influence graph -----

  // The length of `b` comes last, the other variables in order.
  function Place(p: Problem, v: VarId): nat { if v == 1 then p.Size() else v }

  // Edges to other vertices lead up.
  ghost predicate Rising(p: Problem, g: Graph) {
    && |g| == p.Size()
    && forall u: nat, v: nat {:trigger Edge(g, u, v)} :: Edge(g, u, v) && u != v ==> Place(p, u) < Place(p, v)
  }

  lemma RisingHasOnlySelfCycles(p: Problem, g: Graph)
    requires WellFormed(g) && Rising(p, g)
    ensures OnlySelfCycles(g)
  {
    forall u: nat, v: nat | Edge(g, u, v) && u != v ensures !Reach(g, v, u) {
      var up := set w: nat | w < |g| && Place(p, w) >= Place(p, v);
      assert Graphs.Closed(g, up);
      assert v in up && u !in up;
    }
  }

  // A constraint of the program: the size, one that climbs, or one into the length.
  predicate Shaped(c: Constraint) {
    || (c.Subset? && c.target == 0 && c.lhs.terms == [])
    || Climbs(c, 2)
    || (c.Subset? && c.target == 1 && (Above(c.lhs, 2) || c.lhs.terms == [Slot(1, 1)]))
  }

  // All variables stand for themselves, nothing is pinned or floored, and every constraint has its shape.
  ghost predicate WellShaped(p: Problem) {
    && p.Valid() && p.Size() >= 2 && p.fixed == [] && p.hardLo == []
    && (forall v :: 0 <= v < p.Size() ==> p.canon[v] == v)
    && forall i :: 0 <= i < |p.constraints| ==> Shaped(p.constraints[i])
  }

  lemma ShapedReads(p: Problem, c: Constraint, u: VarId)
    requires WellShaped(p) && ConstraintBelow(c, p.Size()) && Shaped(c) && Reads(p, c, u)
    ensures u == c.target || Place(p, u) < Place(p, c.target)
    ensures u == c.target ==> c.Subset? && PositiveOn(p, c.lhs.terms, u)
  {
    LhsBelow(c, p.Size());
    var k :| 0 <= k < |LhsVars(c)| && p.canon[LhsVars(c)[k]] == u;
    match c
    case Subset(lhs, _) => assert lhs.terms[k].v == u;
    case MinSubset(items, _) =>
      assert LhsVars(c)[k] in LhsVars(c);
      var j :| 0 <= j < |items| && items[j].MinTerm? && items[j].v == LhsVars(c)[k];
  }

  lemma ShapedConverges(p: Problem, g: Graph, cs: seq<seq<VarId>>, rank: seq<nat>)
    requires WellShaped(p) && Influence(p, |p.constraints|, g) && Layers(p, cs, rank) && Emission(g, cs)
    ensures forall v :: 0 <= v < p.Size() ==> Same(Final(p, cs)[v], LeastSolution(p)[v])
  {
    forall u: nat, v: nat | Edge(g, u, v) && u != v ensures Place(p, u) < Place(p, v) {
      assert FeedsBy(p, |p.constraints|, u, v);
      var i :| 0 <= i < |p.constraints| && p.canon[p.constraints[i].target] == v && Reads(p, p.constraints[i], u);
      ShapedReads(p, p.constraints[i], u);
    }
    RisingHasOnlySelfCycles(p, g);
    forall v | 0 <= v < p.Size() ensures TameSelf(p, v, 1) && LinearSelf(p, v) && Floor(p, v).None? {
      forall i | 0 <= i < |p.constraints| && p.canon[p.constraints[i].target] == v && Reads(p, p.constraints[i], v)
        ensures p.constraints[i].Subset? && PositiveOn(p, p.constraints[i].lhs.terms, v)
      {
        ShapedReads(p, p.constraints[i], v);
      }
    }
    OnlySelfCyclesConverge(p, g, cs, rank);
  }

  lemma ScanIsShaped(s: Sys, s1: Sys, t: Term)
    requires s.Valid() && |s.constraints| == 1 && s.fixed == [] && s.hardLo == [] && s.Size() == 2
    requires s.root == [0, 1] && Shaped(s.constraints[0])
    requires Prolongs(s, s1) && Climbing(s, s1, 2) && Above(t, 2) && t.VarsBelow(s1.Size())
    ensures WellShaped(With(s1, Subset(t, 1)).Snapshot())
  {
    var s2 := With(s1, Subset(t, 1));
    MoreConstraints(s1.Snapshot(), s2.Snapshot(), Subset(t, 1));
    forall v | 0 <= v < s2.Size() ensures s2.root[v] == v {
      if v < 2 { assert s1.root[v] == s.root[v]; }
    }
    forall i | 0 <= i < |s2.constraints| ensures Shaped(s2.constraints[i]) {
      if i < |s1.constraints| { assert s2.constraints[i] == s1.constraints[i]; }
      if i == 0 { assert s1.constraints[0] == s.constraints[0]; }
    }
  }

  // ----- the solution -----

  lemma ArrayIsSolved(size: int, e: Ends)
    requires InOrder(e)
    ensures var s := ArraySystem(size); Solved(s, [Singleton(size), RangeOf(e)])
    ensures ArraySystem(size).Valid()
  {
    var s, r := ArraySystem(size), [Singleton(size), RangeOf(e)];
    var p := s.Snapshot();
    assert Pin(p, 0).None? && Pin(p, 1).None?;
    assert Inflow(p, 0, 0, r) == EMPTY && Inflow(p, 1, 0, r) == Singleton(size);
    assert Inflow(p, 0, 1, r) == Inflow(p, 1, 1, r) == EMPTY;
  }

  lemma {:induction false} SpanInOrder(f: string, i: nat, pl: seq<Ctx>, k: nat)
    requires i <= |f| && AllKnown(pl) && Span(f, i, pl, k).Some?
    ensures InOrder(Span(f, i, pl, k).value)
  {
    var s := NEW;
    var r: seq<Range> := [];
    assert Solved(s, r);
    var r' := ScanReaches(s, f, i, pl, k, r);
  }

  // The system of the program, the scan being done.
  ghost predicate Scanned(size: int, f: string, pl: seq<Ctx>, s: Sys, s1: Sys, t: Term, s2: Sys) {
    && s == ArraySystem(size) && (s1, t) == FmtScan(s, f, 0, pl, 0) && s2 == With(s1, Subset(t, 1))
    && s1.Valid() && s2.Valid() && t.VarsBelow(s1.Size()) && Prolongs(s, s1) && WellShaped(s2.Snapshot())
  }

  lemma FormatIsScanned(size: int, f: string, pl: seq<Ctx>) returns (s: Sys, s1: Sys, t: Term, r: seq<Range>)
    requires AllKnown(pl) && Span(f, 0, pl, 0).Some?
    ensures Scanned(size, f, pl, s, s1, t, Formatted(size, f, pl)) && Formatted(size, f, pl).queries == s.queries
    ensures var e := Span(f, 0, pl, 0).value;
            Spanning(s1, t, r, e) && [Singleton(size), RangeOf(e)] <= r && FreshUp(r, 2)
  {
    s := ArraySystem(size);
    s1, t := FmtScan(s, f, 0, pl, 0).0, FmtScan(s, f, 0, pl, 0).1;
    var e := Span(f, 0, pl, 0).value;
    SpanInOrder(f, 0, pl, 0);
    ArrayIsSolved(size, e);
    r := ScanReaches(s, f, 0, pl, 0, [Singleton(size), RangeOf(e)]);
    ScanClimbs(s, f, 0, pl, 0, 2);
    IncludeIsWith(s1, t, 1);
    ScanIsShaped(s, s1, t);
  }

  lemma ScanSolved(s1: Sys, t: Term, r: seq<Range>, x: Range)
    requires s1.Valid() && s1.hardLo == [] && s1.Size() >= 2 && s1.root[1] == 1 && Pin(s1.Snapshot(), 1).None?
    requires t.VarsBelow(s1.Size()) && |r| == s1.Size()
    ensures Solved(With(s1, Subset(t, 1)), r) <==> Solved(s1, r) && Leq(EvalTerm(s1.Snapshot(), t, r), r[1])
  {
    WithSolved(s1, Subset(t, 1), r);
  }

  // The least solution gives the length exactly the bounds of the format.
  lemma FormatSolved(size: int, f: string, pl: seq<Ctx>)
    requires AllKnown(pl) && Span(f, 0, pl, 0).Some?
    ensures var p := Formatted(size, f, pl).Snapshot();
            && WellShaped(p) && p.queries == [Query(VarTerm(0), VarTerm(1), Overflow("b"))]
            && Same(LeastSolution(p)[0], Singleton(size))
            && Same(LeastSolution(p)[1], RangeOf(Span(f, 0, pl, 0).value))
  {
    var e := Span(f, 0, pl, 0).value;
    var s, s1, t, r := FormatIsScanned(size, f, pl);
    var s2 := Formatted(size, f, pl);
    var p := s2.Snapshot();
    var least := LeastSolution(p);
    assert Pin(s1.Snapshot(), 1).None?;
    ScanSolved(s1, t, r, r[1]);
    LeastSolutionIsLeast(p);
    assert Below(least, r);
    ScanSolved(s1, t, least, r[1]);
    ScanNeeds(s, f, 0, pl, 0, least);
    CutSolved(s, s1, least);
    ArrayNeeds(size, least[..2]);
  }

  lemma ArrayNeeds(size: int, r: seq<Range>)
    requires Solved(ArraySystem(size), r)
    ensures Leq(Singleton(size), r[0])
  {
    var p := ArraySystem(size).Snapshot();
    assert Pin(p, 0).None?;
    assert Inflow(p, 0, 0, r) == EMPTY && Inflow(p, 1, 0, r) == Singleton(size);
  }

  // ----- the verdict -----

  // The size is exact, and so is the length: the bounds of the format. The array is reported exactly if the upper one
  // exceeds its size.
  lemma FormatVerdict(size: int, f: string, args: seq<Expr>, results: seq<QueryResult>, g: Graph, cs: seq<seq<VarId>>,
                      rank: seq<nat>)
    requires size < INF && AllFollowed(args) && Span(f, 0, CtxsOf(args), 0).Some?
    requires var p := ProblemOf(FormatProgram(size, f, args));
             Layers(p, cs, rank) && Influence(p, |p.constraints|, g) && Emission(g, cs)
               && Reports(p, Final(p, cs), results)
    ensures var p, e := ProblemOf(FormatProgram(size, f, args)), Span(f, 0, CtxsOf(args), 0).value;
            && p.Size() >= 2 && 0 <= e.lo <= e.hi
            && Final(p, cs)[0] == Singleton(size) && Final(p, cs)[1] == Range(Clamp(e.lo), Clamp(e.hi))
            && (Silent(results, "b") <==> e.hi <= size)
  {
    var pl := CtxsOf(args);
    FormatWalked(size, f, args);
    FormatSolved(size, f, pl);
    SpanInOrder(f, 0, pl, 0);
    ShapedReported(Formatted(size, f, pl).Snapshot(), size, Span(f, 0, pl, 0).value, results, g, cs, rank);
  }

  // What the solver and the report make of a least solution.
  lemma ShapedReported(p: Problem, size: int, e: Ends, results: seq<QueryResult>, g: Graph, cs: seq<seq<VarId>>,
                       rank: seq<nat>)
    requires size < INF && WellShaped(p) && p.queries == [Query(VarTerm(0), VarTerm(1), Overflow("b"))] && InOrder(e)
    requires Same(LeastSolution(p)[0], Singleton(size)) && Same(LeastSolution(p)[1], RangeOf(e))
    requires Layers(p, cs, rank) && Influence(p, |p.constraints|, g) && Emission(g, cs)
    requires Reports(p, Final(p, cs), results)
    ensures Final(p, cs)[0] == Singleton(size) && Final(p, cs)[1] == RangeOf(e)
    ensures p.Size() == 2 ==> Final(p, cs) == [Singleton(size), RangeOf(e)]
    ensures Silent(results, "b") <==> e.hi <= size
  {
    ShapedConverges(p, g, cs, rank);
    RunBounded(p, cs, |cs|);
    LengthReported(p, 0, 1, "b", Final(p, cs), results);
  }

  // A program's one query compares the least size with the greatest length.
  lemma LengthReported(p: Problem, siz: VarId, len: VarId, x: string, r: seq<Range>, results: seq<QueryResult>)
    requires p.Valid() && p.queries == [Query(VarTerm(siz), VarTerm(len), Overflow(x))] && |r| == p.Size()
    requires siz < p.Size() && len < p.Size() && p.canon[siz] == siz && p.canon[len] == len && Reports(p, r, results)
    requires AllBounded(r) && !r[siz].IsEmpty() && !r[len].IsEmpty()
    ensures Silent(results, x) <==> EpGe(r[siz].lo, r[len].hi)
  {
    VarTermEvaluates(p, siz, r);
    VarTermEvaluates(p, len, r);
    SilentMeansPassed(p, 0, x, r, results);
  }

  // ----- single conversions -----

  predicate IsConversion(c: char) {
    c in {'d', 'i', 'u', 'U', 'x', 'X', 'p', 'o', 'e', 'E', 'f', 'g', 'G', 'c', 's'}
  }

  lemma ConversionSpans(c: char, pl: seq<Ctx>)
    requires IsConversion(c)
    ensures Span(['%', c], 0, pl, 0) == Some(Plus(ConvEnds(c, None, None, TextEnds(pl, 0)), Ends(1, 1)))
  {
    var f := ['%', c];
    assert ReadNum(f, 1, pl, 0) == NumTerm(None, 1, 0);
    assert forall k :: Span(f, 2, pl, k) == Some(Ends(1, 1));
  }

  // `sprintf(b, "%c", e)` for every conversion: what the analyser takes the result to hold, terminator included.
  lemma ConversionVerdict(size: int, c: char, e: Expr, results: seq<QueryResult>, g: Graph, cs: seq<seq<VarId>>,
                          rank: seq<nat>)
    requires size < INF && IsConversion(c) && Followed(e)
    requires var p := ProblemOf(FormatProgram(size, ['%', c], [e]));
             Layers(p, cs, rank) && Influence(p, |p.constraints|, g) && Emission(g, cs)
               && Reports(p, Final(p, cs), results)
    ensures ProblemOf(FormatProgram(size, ['%', c], [e])).Size() >= 2
    ensures var len := Final(ProblemOf(FormatProgram(size, ['%', c], [e])), cs)[1];
            && (c in {'d', 'i', 'u', 'U', 'x', 'X', 'p'} ==>
                  len == Range(2, 21) && (Silent(results, "b") <==> 21 <= size))
            && (c == 'o' ==> len == Range(2, 23) && (Silent(results, "b") <==> 23 <= size))
            && (c in {'e', 'E', 'f', 'g', 'G'} ==> len == Range(2, 33) && (Silent(results, "b") <==> 33 <= size))
            && (c == 'c' ==> len == Range(2, 2) && (Silent(results, "b") <==> 2 <= size))
            && (c == 's' && e.StrConst? ==>
                  len == Singleton(|e.s| + 1) && (Silent(results, "b") <==> |e.s| + 1 <= size))
            && (c == 's' && !e.StrConst? ==> len == Range(2, INF) && !Silent(results, "b"))
  {
    var f, args := ['%', c], [e];
    assert CtxsOf(args) == [CtxOf(e)];
    ConversionSpans(c, CtxsOf(args));
    FormatVerdict(size, f, args, results, g, cs, rank);
  }

  // ----- widths and precisions -----

  // The contexts of a number and a literal of `len` bytes.
  function NumberAndText(n: int, len: nat): seq<Ctx> {
    [CInt(Constant(n)), CStr(Constant(len + 1), Constant(len + 1))]
  }

  lemma WidthArgSpans(f: string, n: int, len: nat)
    requires n >= 0 && f == "%*s"
    ensures Span(f, 0, NumberAndText(n, len), 0) == Some(Ends(Min(n, len) + 1, Max(n, len) + 1))
  {
    var pl := NumberAndText(n, len);
    assert ReadNum(f, 1, pl, 0) == NumTerm(Some(Constant(n)), 2, 1);
    assert Span(f, 3, pl, 2) == Some(Ends(1, 1));
  }

  lemma PrecisionArgSpans(f: string, n: int, len: nat)
    requires n >= 0 && f == "%.*s"
    ensures Span(f, 0, NumberAndText(n, len), 0) == Some(Ends(Min(n, len) + 1, Min(n, len) + 1))
  {
    var pl := NumberAndText(n, len);
    assert ReadNum(f, 1, pl, 0) == NumTerm(None, 1, 0);
    assert ReadNum(f, 2, pl, 0) == NumTerm(Some(Constant(n)), 3, 1);
    assert Span(f, 4, pl, 2) == Some(Ends(1, 1));
  }

  lemma NumberAndTextVerdict(size: int, f: string, e: Expr, n: int, s: string, ends: Ends, results: seq<QueryResult>,
                             g: Graph, cs: seq<seq<VarId>>, rank: seq<nat>)
    requires size < INF && ConstantValue(e) == Some(n) && Span(f, 0, NumberAndText(n, |s|), 0) == Some(ends)
    requires var p := ProblemOf(FormatProgram(size, f, [e, StrConst(s)]));
             Layers(p, cs, rank) && Influence(p, |p.constraints|, g) && Emission(g, cs)
               && Reports(p, Final(p, cs), results)
    ensures var p := ProblemOf(FormatProgram(size, f, [e, StrConst(s)]));
            p.Size() >= 2 && Final(p, cs)[1] == RangeOf(ends)
    ensures Silent(results, "b") <==> ends.hi <= size
  {
    var args := [e, StrConst(s)];
    assert CtxsOf(args) == NumberAndText(n, |s|);
    FormatVerdict(size, f, args, results, g, cs, rank);
  }

  // A width given by an argument bounds a literal's text from one side.
  lemma WidthArgVerdict(size: int, f: string, e: Expr, n: int, s: string, results: seq<QueryResult>, g: Graph,
                        cs: seq<seq<VarId>>, rank: seq<nat>)
    requires size < INF && f == "%*s" && ConstantValue(e) == Some(n) && n >= 0
    requires var p := ProblemOf(FormatProgram(size, f, [e, StrConst(s)]));
             Layers(p, cs, rank) && Influence(p, |p.constraints|, g) && Emission(g, cs)
               && Reports(p, Final(p, cs), results)
    ensures var p := ProblemOf(FormatProgram(size, f, [e, StrConst(s)]));
            p.Size() >= 2 && Final(p, cs)[1] == Range(Clamp(Min(n, |s|) + 1), Clamp(Max(n, |s|) + 1))
    ensures Silent(results, "b") <==> Max(n, |s|) < size
  {
    WidthArgSpans(f, n, |s|);
    NumberAndTextVerdict(size, f, e, n, s, Ends(Min(n, |s|) + 1, Max(n, |s|) + 1), results, g, cs, rank);
  }

  // A precision given by an argument cuts it off.
  lemma PrecisionArgVerdict(size: int, f: string, e: Expr, n: int, s: string, results: seq<QueryResult>, g: Graph,
                            cs: seq<seq<VarId>>, rank: seq<nat>)
    requires size < INF && f == "%.*s" && ConstantValue(e) == Some(n) && n >= 0
    requires var p := ProblemOf(FormatProgram(size, f, [e, StrConst(s)]));
             Layers(p, cs, rank) && Influence(p, |p.constraints|, g) && Emission(g, cs)
               && Reports(p, Final(p, cs), results)
    ensures var p := ProblemOf(FormatProgram(size, f, [e, StrConst(s)]));
            p.Size() >= 2 && Final(p, cs)[1] == Singleton(Min(n, |s|) + 1)
    ensures Silent(results, "b") <==> Min(n, |s|) < size
  {
    PrecisionArgSpans(f, n, |s|);
    NumberAndTextVerdict(size, f, e, n, s, Ends(Min(n, |s|) + 1, Min(n, |s|) + 1), results, g, cs, rank);
  }

  // ----- numbers in the format -----

  predicate IsDecimal(f: string) { f != [] && forall k :: 0 <= k < |f| ==> IsDigit(f[k]) }

  lemma DigitOf(d: nat, digits: string)
    requires d < 10 && digits == "0123456789"
    ensures digits[d] as int == '0' as int + d && IsDigit(digits[d]) && (d > 0 ==> digits[d] != '0')
  {
  }

  lemma {:induction false} DecimalIsDecimal(n: nat)
    ensures IsDecimal(Decimal(n)) && |Decimal(n)| == Digits(n, 10) && (n > 0 ==> Decimal(n)[0] != '0')
  {
    DigitOf(n % 10, "0123456789");
    if n >= 10 { DecimalIsDecimal(n / 10); }
  }

  lemma {:induction false} ValueOfPrefix(f: string, g: string, j: nat)
    requires j <= |f| && forall k :: 0 <= k < j ==> IsDigit(f[k])
    ensures forall k :: 0 <= k < j ==> IsDigit((f + g)[k])
    ensures DigitsValue(f + g, 0, j) == DigitsValue(f, 0, j)
  {
    if j > 0 { ValueOfPrefix(f, g, j - 1); }
  }

  lemma {:induction false} DecimalValue(n: nat)
    ensures IsDecimal(Decimal(n)) && DigitsValue(Decimal(n), 0, |Decimal(n)|) == n
  {
    DecimalIsDecimal(n);
    DigitOf(n % 10, "0123456789");
    if n >= 10 {
      var f, g := Decimal(n / 10), ["0123456789"[n % 10]];
      DecimalValue(n / 10);
      DecimalIsDecimal(n / 10);
      ValueOfPrefix(f, g, |f|);
      assert Decimal(n) == f + g;
    } else {
      assert DigitsValue(Decimal(n), 0, 0) == 0;
    }
  }

  // A decimal number in a format is read back, unless it exceeds the largest 64-bit integer: then it counts as 0.
  lemma NumberIsRead(n: nat, pre: string, rest: string, pl: seq<Ctx>, k: nat)
    requires rest == [] || !IsDigit(rest[0])
    ensures ReadNum(pre + Decimal(n) + rest, |pre|, pl, k) ==
            NumTerm(Some(Constant(if n <= 9223372036854775807 then n else 0)), |pre| + |Decimal(n)|, k)
  {
    var f, g := pre + Decimal(n) + rest, Decimal(n);
    DecimalIsDecimal(n);
    DecimalValue(n);
    forall j | 0 <= j < |g| ensures f[|pre| + j] == g[j] {}
    var e := DigitsEnd(f, |pre|);
    assert rest != [] ==> f[|pre| + |g|] == rest[0];
    SameDigits(f, g, |pre|, |g|);
  }

  lemma {:induction false} SameDigits(f: string, g: string, at: nat, j: nat)
    requires at + j <= |f| && j <= |g| && forall k :: 0 <= k < j ==> IsDigit(g[k]) && f[at + k] == g[k]
    ensures forall k :: at <= k < at + j ==> IsDigit(f[k])
    ensures DigitsValue(f, at, at + j) == DigitsValue(g, 0, j)
  {
    forall k | at <= k < at + j ensures IsDigit(f[k]) { assert IsDigit(g[k - at]) && f[at + (k - at)] == g[k - at]; }
    if j > 0 { SameDigits(f, g, at, j - 1); }
  }

  // `%ns` with a number in decimal.
  function WidthFormat(n: nat): string { "%" + Decimal(n) + "s" }

  lemma WidthSpans(n: nat, s: string)
    requires n > 0
    ensures var pl, w := [CStr(Constant(|s| + 1), Constant(|s| + 1))], if n <= 9223372036854775807 then n else 0;
            Span(WidthFormat(n), 0, pl, 0) == Some(Ends(Min(w, |s|) + 1, Max(w, |s|) + 1))
  {
    var f, pl := WidthFormat(n), [CStr(Constant(|s| + 1), Constant(|s| + 1))];
    var at := 1 + |Decimal(n)|;
    DecimalIsDecimal(n);
    NumberIsRead(n, "%", "s", pl, 0);
    assert f[1] == Decimal(n)[0] && IsDigit(Decimal(n)[0]) && !IsSkipped(f[1]);
    assert SkipModifiers(f, 1) == 1 && f[at] == 's' && |f| == at + 1;
    assert Span(f, at + 1, pl, 1) == Some(Ends(1, 1));
  }

  // The width counts as written, up to 64 bits.
  lemma WidthVerdict(size: int, n: nat, s: string, results: seq<QueryResult>, g: Graph, cs: seq<seq<VarId>>,
                     rank: seq<nat>)
    requires size < INF && n > 0
    requires var p := ProblemOf(FormatProgram(size, WidthFormat(n), [StrConst(s)]));
             Layers(p, cs, rank) && Influence(p, |p.constraints|, g) && Emission(g, cs)
               && Reports(p, Final(p, cs), results)
    ensures Silent(results, "b") <==> (if n <= 9223372036854775807 then Max(n, |s|) else |s|) < size
  {
    var args := [StrConst(s)];
    assert CtxsOf(args) == [CStr(Constant(|s| + 1), Constant(|s| + 1))];
    WidthSpans(n, s);
    FormatVerdict(size, WidthFormat(n), args, results, g, cs, rank);
  }

  // ----- a format that is not a literal -----

  function OpenProgram(size: int, x: string): seq<Stmt> {
    [Decl("b", CharArray(Some(size)), None), Simple(Call("sprintf", [Var("b"), Var(x)]))]
  }

  lemma OpenModelled(w: Walk, args: seq<Expr>, ctxs: seq<Ctx>, len: Term)
    requires |args| == |ctxs| == 2 && !args[1].StrConst? && ctxs[0].CStr? && ctxs[0].len == len
    ensures ModelSprintf(w, args, ctxs).0.sys == w.sys.ForceTop(len)
  {
  }

  lemma OpenCallWalked(w: Walk, callee: string, x: string)
    requires OnlyArray(w) && w.vars.Keys == {"b"} && callee != "b" && x != "b" && RoutineOf(callee) == Sprintf
    ensures var w' := GenStmt(w, Simple(Call(callee, [Var("b"), Var(x)])));
            && w'.sys == w.sys.ForceTop(VarTerm(1))
            && TypeOf(w'.types, x) == OtherType && TypeOf(w'.types, "b") == TypeOf(w.types, "b")
  {
    var args := [Var("b"), Var(x)];
    var w0 := NewVar(w, callee, OtherType).0;
    TwoWalked(w0, Var("b"), Var(x));
    var (w1, ctxs) := GenArgs(w0, args);
    CallWalked(w, callee, args);
    OpenModelled(w1, args, ctxs, VarTerm(1));
  }

  lemma OpenWalked(size: int, x: string)
    requires x != "b"
    ensures var w := GenBody(OpenProgram(size, x));
            && w.sys == ArraySystem(size).ForceTop(VarTerm(1))
            && TypeOf(w.types, x) == OtherType && TypeOf(w.types, "b") == CharArray(Some(size))
  {
    var call := Simple(Call("sprintf", [Var("b"), Var(x)]));
    BufferDeclared(size);
    ArrayThenWalked("b", size, call);
    SprintfNamed();
    OpenCallWalked(BufferWalk(size), "sprintf", x);
  }

  // A system of one array whose length is forced upwards.
  ghost predicate Forced(size: int, s: Sys, v: VarId, p: Problem) {
    && s == ArraySystem(size) && v == 1 && p == s.ForceTop(VarTerm(v)).Snapshot() && WellShaped(p) && p.Size() == 2
    && p.queries == s.queries
  }

  lemma ForcedIsShaped(size: int, s: Sys, v: VarId)
    requires s == ArraySystem(size) && v == 1
    ensures Forced(size, s, v, s.ForceTop(VarTerm(v)).Snapshot())
  {
    ForcedIs(s, v);
  }

  lemma ForcedSolved(size: int, s: Sys, v: VarId, p: Problem) returns (least: seq<Range>)
    requires Forced(size, s, v, p)
    ensures p.Valid() && least == LeastSolution(p) && |least| == 2
    ensures Same(least[0], Singleton(size)) && Same(least[1], Range(1, INF))
  {
    var e := Ends(1, INF);
    var r := [Singleton(size), RangeOf(e)];
    assert RangeOf(e) == Range(1, INF);
    ArrayIsSolved(size, e);
    assert Pin(s.Snapshot(), v).None?;
    ForceAsks(s, v, r);
    least := LeastSolution(p);
    LeastSolutionIsLeast(p);
    ForceAsks(s, v, least);
    ArrayNeeds(size, least);
  }

  // The run writes any number of bytes from 1 on.
  lemma OpenRuns(size: int, x: string, k: nat, rest: seq<int>, fuel: nat)
    requires x != "b"
    ensures var st, b := RunBody(OpenProgram(size, x), [k] + rest, fuel), Buf(size, [], None).Write(0, TextOf(k + 1));
            && !st.loose && st.input == rest && st.trail != [] && st.trail[|st.trail| - 1] == st.store
            && "b" in st.store.strs && st.store.strs["b"] == b && b.Len() == b.reach == Some(k + 1)
  {
    var body := OpenProgram(size, x);
    var env, st := GenBody(body).types, Declared("b", size, [k] + rest);
    OpenWalked(size, x);
    OpenCallRuns(env, x, k, rest, st);
    ArrayThenRuns(env, "b", size, body[1], [k] + rest, fuel, Runs.WriteText(st.(input := rest), "b", 0, k + 1));
    WriteStringLength(Buf(size, [], None), 0, k + 1);
  }

  lemma OpenCallRuns(env: Env, x: string, k: nat, rest: seq<int>, st: State)
    requires st.input == [k] + rest && TypeOf(env, "b") != OtherType && TypeOf(env, x) == OtherType && !st.loose
    requires "b" !in st.store.ints && "b" in st.store.strs
    ensures var r := Runs.Eval(env, Call("sprintf", [Var("b"), Var(x)]), st);
            r.0 == Runs.WriteText(st.(input := rest), "b", 0, k + 1) && r.1.Some?
  {
    LoadRuns(env, "b", st);
    var vals := [Runs.At(st.store, "b", 0), OtherV];
    TwoRun(env, Var("b"), Var(x), st, vals[0], vals[1]);
    CallApplied(env, "sprintf", [Var("b"), Var(x)], st, vals);
    SprintfNamed();
    assert ([k] + rest)[1..] == rest;
  }

  // A format the analyser cannot read leaves nothing but 1 and no upper bound: the array is always reported, and
  // rightly so.
  lemma OpenVerdict(size: int, x: string, results: seq<QueryResult>, g: Graph, cs: seq<seq<VarId>>, rank: seq<nat>)
    requires 0 <= size < INF && x != "b"
    requires var p := ProblemOf(OpenProgram(size, x));
             Layers(p, cs, rank) && Influence(p, |p.constraints|, g) && Emission(g, cs)
               && Reports(p, Final(p, cs), results)
    ensures Final(ProblemOf(OpenProgram(size, x)), cs) == [Singleton(size), Range(1, INF)]
    ensures !Silent(results, "b") && !NeverOverrun(OpenProgram(size, x), "b")
  {
    OpenSolved(size, x);
    ShapedReported(ProblemOf(OpenProgram(size, x)), size, Ends(1, INF), results, g, cs, rank);
    OpenOverruns(size, x);
  }

  lemma OpenSolved(size: int, x: string)
    requires x != "b"
    ensures var p := ProblemOf(OpenProgram(size, x));
            && WellShaped(p) && p.Size() == 2 && p.queries == [Query(VarTerm(0), VarTerm(1), Overflow("b"))]
            && Same(LeastSolution(p)[0], Singleton(size)) && Same(LeastSolution(p)[1], RangeOf(Ends(1, INF)))
  {
    var s := ArraySystem(size);
    OpenWalked(size, x);
    ForcedIsShaped(size, s, 1);
    var least := ForcedSolved(size, s, 1, s.ForceTop(VarTerm(1)).Snapshot());
  }

  lemma OpenOverruns(size: nat, x: string)
    requires x != "b"
    ensures !NeverOverrun(OpenProgram(size, x), "b")
  {
    var input: seq<int>, fuel: nat := [size] + [], 0;
    OpenRuns(size, x, size, [], fuel);
    var st := RunBody(OpenProgram(size, x), input, fuel);
    var i: nat := |st.trail| - 1;
    assert "b" in st.trail[i].strs && !st.trail[i].strs["b"].Fits();
  }
}
