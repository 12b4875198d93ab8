/**
 What walking keeps: the constraint system stays well formed and only grows, a variable's context never
 changes once created, and every term mentions existing variables only.
 */
module Walks {
  import opened Terms
  import opened Systems
  import opened Syntax
  import opened Formats
  import opened Generator
  import opened Ranges
  import opened Problems

  predicate IsVar(t: Term) { |t.terms| == 1 && t == VarTerm(t.terms[0].v) }

  predicate CtxBelow(c: Ctx, n: nat) {
    match c
    case CInt(t) => t.VarsBelow(n)
    case CStr(siz, len) => siz.VarsBelow(n) && len.VarsBelow(n)
    case CNone => true
  }

  // A variable's context is made of bare variables, in the shape its type calls for.
  predicate CtxFits(ty: VarType, c: Ctx) {
    match KindOfType(ty)
    case KInt => c.CInt? && IsVar(c.t)
    case KStr => c.CStr? && IsVar(c.siz) && IsVar(c.len)
    case KNone => c.CNone?
  }

  // The size of a sized array flows into its size variable.
  predicate SizeSeeded(s: Sys, ty: VarType, c: Ctx) {
    ty.CharArray? && ty.size.Some? && c.CStr? && c.siz.terms != [] ==>
      Subset(Constant(ty.size.value), c.siz.terms[0].v) in s.constraints
  }

  // The overrun question of a string variable has been asked.
  predicate Asked(s: Sys, x: string, c: Ctx) {
    c.CStr? ==> Query(c.siz, c.len, Overflow(x)) in s.queries
  }

  ghost predicate VarFits(w: Walk, x: string) {
    && (x in w.vars <==> x in w.types)
    && (x in w.vars ==>
          && CtxBelow(w.vars[x], w.sys.Size()) && CtxFits(w.types[x], w.vars[x])
          && SizeSeeded(w.sys, w.types[x], w.vars[x]) && Asked(w.sys, x, w.vars[x]))
  }

  ghost predicate Ready(w: Walk) {
    w.sys.Valid() && forall x {:trigger VarFits(w, x)} :: VarFits(w, x)
  }

  predicate VarKept(w: Walk, w': Walk, x: string) {
    && (x in w.vars ==> x in w'.vars && w'.vars[x] == w.vars[x])
    && (x in w.types ==> x in w'.types && w'.types[x] == w.types[x])
  }

  ghost predicate Later(w: Walk, w': Walk) {
    Grown(w.sys, w'.sys) && forall x {:trigger VarKept(w, w', x)} :: VarKept(w, w', x)
  }

  lemma LaterTransitive(w: Walk, w1: Walk, w2: Walk)
    requires Later(w, w1) && Later(w1, w2)
    ensures Later(w, w2)
  {
    GrownTransitive(w.sys, w1.sys, w2.sys);
    forall x ensures VarKept(w, w2, x) { assert VarKept(w, w1, x) && VarKept(w1, w2, x); }
  }

  lemma BelowMore(c: Ctx, n: nat, m: nat)
    requires CtxBelow(c, n) && n <= m
    ensures CtxBelow(c, m)
  {
  }

  // Replacing the system by a grown one keeps the walk in order.
  lemma GrownWalk(w: Walk, w': Walk)
    requires Ready(w) && Grown(w.sys, w'.sys) && w'.sys.Valid() && w'.vars == w.vars && w'.types == w.types
    ensures Ready(w') && Later(w, w')
  {
    forall x ensures VarFits(w', x) && VarKept(w, w', x) {
      assert VarFits(w, x);
      if x in w.vars { BelowMore(w.vars[x], w.sys.Size(), w'.sys.Size()); }
    }
  }

  lemma GrownSystem(w: Walk, s: Sys)
    requires Ready(w) && Grown(w.sys, s) && s.Valid()
    ensures Ready(w.With(s)) && Later(w, w.With(s))
  {
    GrownWalk(w, w.With(s));
  }

  lemma FreshStrGrows(s: Sys, name: Option<string>)
    requires s.Valid()
    ensures var (s', c) := FreshStr(s, name);
            && Grown(s, s') && s'.Valid() && s'.Size() == s.Size() + 2
            && c == CStr(VarTerm(s.Size()), VarTerm(s.Size() + 1)) && CtxBelow(c, s'.Size())
            && Query(c.siz, c.len, Overflow(if name.Some? then name.value else "(unnamed)")) in s'.queries
  {
    var n1 := if name.Some? then Some("siz(" + name.value + ")") else None;
    FreshGrows(s, n1);
    var s1 := s.Fresh(n1).0;
    var n2 := if name.Some? then Some("len(" + name.value + ")") else None;
    FreshGrows(s1, n2);
  }

  lemma FreshVarCtxGrows(s: Sys, ty: VarType, name: string)
    requires s.Valid()
    ensures var (s', c) := FreshVarCtx(s, ty, name);
            && Grown(s, s') && s'.Valid() && s.Size() <= s'.Size() && CtxBelow(c, s'.Size()) && CtxFits(ty, c)
            && SizeSeeded(s', ty, c) && Asked(s', name, c)
  {
    FreshStrGrows(s, Some(name));
    FreshGrows(s, Some(name));
    if ty.CharArray? && ty.size.Some? {
      var (s1, c) := FreshStr(s, Some(name));
      IncludeGrows(s1, Constant(ty.size.value), c.siz);
      SeedIsInclude(s1, ty.size.value, c.siz.terms[0].v);
      assert s1.Seed(ty.size.value, c.siz.terms[0].v).constraints[|s1.constraints|] ==
        Subset(Constant(ty.size.value), c.siz.terms[0].v);
    }
  }

  lemma NewVarKeeps(w: Walk, x: string, ty: VarType)
    requires Ready(w)
    ensures var (w', c) := NewVar(w, x, ty);
            && Ready(w') && Later(w, w') && CtxBelow(c, w'.sys.Size()) && x in w'.vars && w'.vars[x] == c
  {
    assert VarFits(w, x);
    if x in w.vars {
      LaterReflexive(w);
    } else {
      FreshVarCtxGrows(w.sys, ty, x);
      var s := FreshVarCtx(w.sys, ty, x).0;
      GrownSystem(w, s);
      var w1, w2 := w.With(s), NewVar(w, x, ty).0;
      forall y ensures VarFits(w2, y) && VarKept(w, w2, y) {
        assert VarFits(w1, y) && VarKept(w, w1, y);
      }
    }
  }

  lemma FlowGrows(s: Sys, dst: Ctx, src: Ctx)
    requires s.Valid() && CtxBelow(dst, s.Size()) && CtxBelow(src, s.Size())
    ensures Grown(s, Flow(s, dst, src)) && Flow(s, dst, src).Valid()
    ensures Grown(s, FlowInit(s, dst, src)) && FlowInit(s, dst, src).Valid()
  {
    match (dst, src)
    case (CInt(d), CInt(t)) => IncludeGrows(s, t, d);
    case (CStr(ds, dl), CStr(ss, sl)) =>
      IncludeGrows(s, sl, dl);
      IncludeGrows(s.Include(sl, dl), ss, ds);
    case _ =>
  }

  lemma AdvanceBelow(c: Ctx, i: Term, n: nat)
    requires CtxBelow(c, n) && i.VarsBelow(n)
    ensures CtxBelow(Advance(c, i), n)
  {
    if c.CStr? {
      ArithmeticVarsBelow(c.siz, i, 0, n);
      ArithmeticVarsBelow(c.len, i, 0, n);
    }
  }

  ghost predicate AllBelow(cs: seq<Ctx>, n: nat) {
    forall i :: 0 <= i < |cs| ==> CtxBelow(cs[i], n)
  }

  lemma AllocKeeps(w: Walk)
    requires Ready(w)
    ensures var (w1, c) := FreshAllocStr(w);
            && Ready(w1) && Later(w, w1) && w1.sys.Size() == w.sys.Size() + 2
            && c == CStr(VarTerm(w.sys.Size()), VarTerm(w.sys.Size() + 1)) && CtxBelow(c, w1.sys.Size())
  {
    var name := Some("alloc@" + Decimal(w.allocs));
    FreshStrGrows(w.sys, name);
    GrownWalk(w, FreshAllocStr(w).0);
  }

  lemma BelowMoreTerm(t: Term, n: nat, m: nat)
    requires t.VarsBelow(n) && n <= m
    ensures t.VarsBelow(m)
  {
  }

  // What a library model adds leaves the system valid and grown; its result mentions existing variables.
  lemma CheckStrOpKeeps(w: Walk, f: Routine, args: seq<Ctx>)
    requires Ready(w) && AllBelow(args, w.sys.Size())
    ensures var (w', c) := CheckStrOp(w, f, args);
            Ready(w') && Later(w, w') && (c.Some? ==> CtxBelow(c.value, w'.sys.Size()))
  {
    LaterReflexive(w);
    match f
    case Getenv => GetenvKeeps(w);
    case Syserror => StatusKeeps(w, "@syserror_return", 48);
    case Syssignal => StatusKeeps(w, "@syssignal_return", 25);
    case Malloc => if |args| == 1 && args[0].CInt? { MallocKeeps(w, args[0].t); }
    case _ =>
      if |args| >= 1 && args[0].CStr? {
        if f in {Strlen, Strspn, Strdup, Strchr} { StringOpKeeps(w, f, args); } else { BufferOpKeeps(w, f, args); }
      }
  }

  lemma MallocKeeps(w: Walk, t: Term)
    requires Ready(w) && t.VarsBelow(w.sys.Size())
    ensures var (w1, c) := FreshAllocStr(w);
            var w2 := w1.With(w1.sys.Include(t, c.siz)); Ready(w2) && Later(w, w2) && CtxBelow(c, w2.sys.Size())
  {
    AllocKeeps(w);
    var (w1, c) := FreshAllocStr(w);
    BelowMoreTerm(t, w.sys.Size(), w1.sys.Size());
    IncludeGrows(w1.sys, t, c.siz);
    GrownSystem(w1, w1.sys.Include(t, c.siz));
    LaterTransitive(w, w1, w1.With(w1.sys.Include(t, c.siz)));
  }

  // Routines that read their string and return something new.
  lemma StringOpKeeps(w: Walk, f: Routine, args: seq<Ctx>)
    requires Ready(w) && AllBelow(args, w.sys.Size()) && |args| >= 1 && args[0].CStr?
             && f in {Strlen, Strspn, Strdup, Strchr}
    ensures var (w', c) := CheckStrOp(w, f, args);
            Ready(w') && Later(w, w') && (c.Some? ==> CtxBelow(c.value, w'.sys.Size()))
  {
    LaterReflexive(w);
    var s, n, len := w.sys, |args|, args[0].len;
    ArithmeticVarsBelow(len, Constant(1), 0, s.Size());
    match f
    case Strspn =>
      UnionGrows(s, Constant(0), len.Minus(Constant(1)));
      GrownSystem(w, s.UnionOf(Constant(0), len.Minus(Constant(1))).0);
    case Strdup => if n == 1 { DupKeeps(w, len); }
    case Strchr => if n == 2 { SearchKeeps(w, args[0], 1); }
    case _ =>
  }

  // Routines that write into their first argument.
  lemma BufferOpKeeps(w: Walk, f: Routine, args: seq<Ctx>)
    requires Ready(w) && AllBelow(args, w.sys.Size()) && |args| >= 1 && args[0].CStr?
    requires f !in {Strlen, Strspn, Strdup, Strchr, Getenv, Syserror, Syssignal, Malloc}
    ensures var (w', c) := CheckStrOp(w, f, args);
            Ready(w') && Later(w, w') && (c.Some? ==> CtxBelow(c.value, w'.sys.Size()))
  {
    LaterReflexive(w);
    var n, dst := |args|, args[0];
    if f == Gethostname {
      if n == 2 && args[1].CInt? { HostKeeps(w, dst, args[1].t); }
    } else if f == Gets {
      IncludesKeep(w, dst.len, Constant(0), dst);
    } else if f == Fgets {
      if n == 3 && args[1].CInt? { IncludesKeep(w, args[1].t, Constant(1), dst); }
    } else if n >= 2 && args[1].CStr? {
      CopyKeeps(w, f, args);
    }
  }

  lemma CopyKeeps(w: Walk, f: Routine, args: seq<Ctx>)
    requires Ready(w) && AllBelow(args, w.sys.Size()) && |args| >= 2 && args[0].CStr? && args[1].CStr?
    requires f in {Strcpy, Strcat, Strncpy, Strncat, Printf, Sprintf, Snprintf, Unmodelled}
    ensures var (w', c) := CheckStrOp(w, f, args);
            Ready(w') && Later(w, w') && (c.Some? ==> CtxBelow(c.value, w'.sys.Size()))
  {
    LaterReflexive(w);
    var s := w.sys;
    ArithmeticVarsBelow(args[1].len, Constant(1), 0, s.Size());
    if f == Strcpy || f == Strcat {
      IncludeGrows(s, args[1].len, args[0].len);
      GrownSystem(w, s.Include(args[1].len, args[0].len));
    } else if |args| == 3 && args[2].CInt? {
      if f == Strncpy { MinIntoKeeps(w, args[1].len, args[2].t, args[0]); }
      if f == Strncat { ConcatKeeps(w, args[1].len.Minus(Constant(1)), args[2].t, args[0]); }
    }
  }

  lemma DupKeeps(w: Walk, len: Term)
    requires Ready(w) && len.VarsBelow(w.sys.Size())
    ensures var (w1, c) := FreshAllocStr(w);
            var w2 := w1.With(w1.sys.Include(len, c.siz).Include(len, c.len));
            Ready(w2) && Later(w, w2) && CtxBelow(c, w2.sys.Size())
  {
    AllocKeeps(w);
    var (w1, c) := FreshAllocStr(w);
    BelowMoreTerm(len, w.sys.Size(), w1.sys.Size());
    IncludeGrows(w1.sys, len, c.siz);
    var s2 := w1.sys.Include(len, c.siz);
    IncludeGrows(s2, len, c.len);
    GrownSystem(w1, s2.Include(len, c.len));
    LaterTransitive(w, w1, w1.With(s2.Include(len, c.len)));
  }

  lemma IncludesKeep(w: Walk, x: Term, k: Term, dst: Ctx)
    requires Ready(w) && x.VarsBelow(w.sys.Size()) && k.IsConstant() && dst.CStr? && CtxBelow(dst, w.sys.Size())
    ensures var s := w.sys.Include(k, dst.len).Include(x, dst.len);
            Ready(w.With(s)) && Later(w, w.With(s)) && CtxBelow(dst, s.Size())
    ensures var s := w.sys.ForceTop(dst.len);
            Ready(w.With(s)) && Later(w, w.With(s)) && CtxBelow(dst, s.Size())
  {
    IncludeGrows(w.sys, k, dst.len);
    var s1 := w.sys.Include(k, dst.len);
    IncludeGrows(s1, x, dst.len);
    GrownSystem(w, s1.Include(x, dst.len));
    ForceTopGrows(w.sys, dst.len);
    GrownSystem(w, w.sys.ForceTop(dst.len));
  }

  lemma SearchKeeps(w: Walk, c: Ctx, k: int)
    requires Ready(w) && CtxBelow(c, w.sys.Size())
    ensures var (s, m) := Merge(w.sys, CStr(Constant(k), Constant(k)), c);
            Ready(w.With(s)) && Later(w, w.With(s)) && CtxBelow(m, s.Size())
  {
    MergeGrows(w.sys, CStr(Constant(k), Constant(k)), c);
    GrownSystem(w, Merge(w.sys, CStr(Constant(k), Constant(k)), c).0);
  }

  lemma HostKeeps(w: Walk, dst: Ctx, n: Term)
    requires Ready(w) && dst.CStr? && CtxBelow(dst, w.sys.Size()) && n.VarsBelow(w.sys.Size())
    ensures var s := w.sys.Include(n, dst.len); Ready(w.With(s)) && Later(w, w.With(s))
  {
    IncludeGrows(w.sys, n, dst.len);
    GrownSystem(w, w.sys.Include(n, dst.len));
  }

  lemma StatusKeeps(w: Walk, name: string, most: int)
    requires Ready(w)
    ensures var (w', c) := Status(w, name, most);
            Ready(w') && Later(w, w') && c.Some? && CtxBelow(c.value, w'.sys.Size())
  {
    var v := w.sys.Size();
    FreshGrows(w.sys, Some(name));
    var s := w.sys.Fresh(Some(name)).0;
    SeedGrows(s, 0, v);
    SeedGrows(s.Seed(0, v), most, v);
    GrownSystem(w, s.Seed(0, v).Seed(most, v));
  }

  lemma GetenvKeeps(w: Walk)
    requires Ready(w)
    ensures var (s1, t) := w.sys.Fresh(Some("@getenv_return"));
            var w' := w.With(s1.ForceTop(t));
            Ready(w') && Later(w, w') && CtxBelow(CStr(t, t), w'.sys.Size())
  {
    FreshGrows(w.sys, Some("@getenv_return"));
    var (s1, t) := w.sys.Fresh(Some("@getenv_return"));
    ForceTopGrows(s1, t);
    GrownSystem(w, s1.ForceTop(t));
  }

  lemma MinIntoKeeps(w: Walk, x: Term, y: Term, dst: Ctx)
    requires Ready(w) && x.VarsBelow(w.sys.Size()) && y.VarsBelow(w.sys.Size()) && dst.CStr?
             && CtxBelow(dst, w.sys.Size())
    ensures var (s1, m) := w.sys.MinOf(x, y);
            var w' := w.With(s1.Include(m, dst.len));
            Ready(w') && Later(w, w') && w.sys.Size() <= w'.sys.Size() && CtxBelow(dst, w'.sys.Size())
  {
    MinGrows(w.sys, x, y);
    var (s1, m) := w.sys.MinOf(x, y);
    BelowMore(dst, w.sys.Size(), s1.Size());
    IncludeGrows(s1, m, dst.len);
    GrownSystem(w, s1.Include(m, dst.len));
  }

  lemma ConcatKeeps(w: Walk, x: Term, y: Term, dst: Ctx)
    requires Ready(w) && x.VarsBelow(w.sys.Size()) && y.VarsBelow(w.sys.Size()) && dst.CStr?
             && CtxBelow(dst, w.sys.Size())
    ensures var (s1, m) := w.sys.MinOf(x, y);
            var w' := w.With(s1.Include(m.Plus(dst.len), dst.len));
            Ready(w') && Later(w, w') && CtxBelow(dst, w'.sys.Size())
  {
    MinGrows(w.sys, x, y);
    var (s1, m) := w.sys.MinOf(x, y);
    BelowMore(dst, w.sys.Size(), s1.Size());
    ArithmeticVarsBelow(m, dst.len, 0, s1.Size());
    IncludeGrows(s1, m.Plus(dst.len), dst.len);
    GrownSystem(w, s1.Include(m.Plus(dst.len), dst.len));
  }

  // ----- printf -----

  lemma ReadNumBelow(f: string, i: nat, pl: seq<Ctx>, k: nat, n: nat)
    requires i <= |f| && AllBelow(pl, n)
    ensures var r := ReadNum(f, i, pl, k); r.value.Some? ==> r.value.value.VarsBelow(n)
  {
  }

  lemma AllBelowMore(cs: seq<Ctx>, n: nat, m: nat)
    requires AllBelow(cs, n) && n <= m
    ensures AllBelow(cs, m)
  {
    forall i | 0 <= i < |cs| ensures CtxBelow(cs[i], m) { BelowMore(cs[i], n, m); }
  }

  lemma ConvTermGrows(s: Sys, c: char, width: Option<Term>, prec: Option<Term>, pl: seq<Ctx>, k: nat)
    requires s.Valid() && AllBelow(pl, s.Size())
    requires (width.Some? ==> width.value.VarsBelow(s.Size())) && (prec.Some? ==> prec.value.VarsBelow(s.Size()))
    ensures var (s', body, _) := ConvTerm(s, c, width, prec, pl, k);
            Grown(s, s') && s'.Valid() && s.Size() <= s'.Size() && body.VarsBelow(s'.Size())
  {
    UnionGrows(s, Constant(1), Constant(20));
    UnionGrows(s, Constant(1), Constant(22));
    UnionGrows(s, Constant(1), Constant(32));
    if c == 's' {
      StringTermGrows(s, width, prec, pl, k);
    }
  }

  lemma StringArgGrows(s: Sys, pl: seq<Ctx>, k: nat)
    requires s.Valid() && AllBelow(pl, s.Size())
    ensures var (s1, n) := StringArg(s, pl, k);
            Grown(s, s1) && s1.Valid() && s.Size() <= s1.Size() && n.VarsBelow(s1.Size())
  {
    if k < |pl| && pl[k].CStr? {
      ArithmeticVarsBelow(pl[k].len, Constant(1), 0, s.Size());
    } else {
      FreshGrows(s, None);
      ForceTopGrows(s.Fresh(None).0, s.Fresh(None).1);
    }
  }

  lemma StringTermGrows(s: Sys, width: Option<Term>, prec: Option<Term>, pl: seq<Ctx>, k: nat)
    requires s.Valid() && AllBelow(pl, s.Size())
    requires (width.Some? ==> width.value.VarsBelow(s.Size())) && (prec.Some? ==> prec.value.VarsBelow(s.Size()))
    ensures var (s', body, _) := ConvTerm(s, 's', width, prec, pl, k);
            Grown(s, s') && s'.Valid() && s.Size() <= s'.Size() && body.VarsBelow(s'.Size())
  {
    StringArgGrows(s, pl, k);
    var (s1, n) := StringArg(s, pl, k);
    if prec.Some? {
      BelowMoreTerm(prec.value, s.Size(), s1.Size());
      MinGrows(s1, prec.value, n);
    }
    var (s2, n1) := if prec.Some? then s1.MinOf(prec.value, n) else (s1, n);
    if width.Some? {
      BelowMoreTerm(width.value, s.Size(), s2.Size());
      BelowMoreTerm(n, s1.Size(), s2.Size());
      UnionGrows(s2, width.value, n);
    }
  }

  lemma {:induction false} FmtScanGrows(s: Sys, f: string, i: nat, pl: seq<Ctx>, k: nat)
    requires s.Valid() && AllBelow(pl, s.Size()) && i <= |f|
    ensures var (s', t) := FmtScan(s, f, i, pl, k);
            Grown(s, s') && s'.Valid() && s.Size() <= s'.Size() && t.VarsBelow(s'.Size())
    decreases |f| - i, 0
  {
    if i < |f| {
      if f[i] != '%' {
        FmtScanGrows(s, f, i + 1, pl, k);
        var (s1, rest) := FmtScan(s, f, i + 1, pl, k);
        ArithmeticVarsBelow(Constant(1), rest, 0, s1.Size());
      } else if i + 1 < |f| {
        if f[i + 1] == '%' {
          FmtScanGrows(s, f, i + 2, pl, k);
          var (s1, rest) := FmtScan(s, f, i + 2, pl, k);
          ArithmeticVarsBelow(Constant(1), rest, 0, s1.Size());
        } else {
          ExpandPercentGrows(s, f, i + 1, pl, k);
        }
      }
    }
  }

  lemma {:induction false} ExpandPercentGrows(s: Sys, f: string, i: nat, pl: seq<Ctx>, k: nat)
    requires s.Valid() && AllBelow(pl, s.Size()) && i <= |f|
    ensures var (s', t) := ExpandPercent(s, f, i, pl, k);
            Grown(s, s') && s'.Valid() && s.Size() <= s'.Size() && t.VarsBelow(s'.Size())
    decreases |f| - i, 2
  {
    var at := SkipModifiers(f, i);
    ReadNumBelow(f, at, pl, k, s.Size());
    var width := ReadNum(f, at, pl, k);
    var dot := width.next < |f| && f[width.next] == '.';
    if dot { ReadNumBelow(f, width.next + 1, pl, width.used, s.Size()); }
    var prec := if dot then ReadNum(f, width.next + 1, pl, width.used) else NumTerm(None, width.next, width.used);
    if prec.next < |f| {
      ExpandConvGrows(s, f[prec.next], width.value, prec.value, f, prec.next + 1, pl, prec.used);
    }
  }

  lemma {:induction false} ExpandConvGrows(s: Sys, c: char, width: Option<Term>, prec: Option<Term>, f: string,
                                           next: nat,
                                           pl: seq<Ctx>, k: nat)
    requires s.Valid() && AllBelow(pl, s.Size()) && next <= |f|
    requires (width.Some? ==> width.value.VarsBelow(s.Size())) && (prec.Some? ==> prec.value.VarsBelow(s.Size()))
    ensures var (s', t) := ExpandConv(s, c, width, prec, f, next, pl, k);
            Grown(s, s') && s'.Valid() && s.Size() <= s'.Size() && t.VarsBelow(s'.Size())
    decreases |f| - next, 1
  {
    ConvTermGrows(s, c, width, prec, pl, k);
    var (s1, body, takes) := ConvTerm(s, c, width, prec, pl, k);
    AllBelowMore(pl, s.Size(), s1.Size());
    var k' := if takes then k + 1 else k;
    FmtScanGrows(s1, f, next, pl, k');
    var (s2, rest) := FmtScan(s1, f, next, pl, k');
    BelowMoreTerm(body, s1.Size(), s2.Size());
    ArithmeticVarsBelow(body, rest, 0, s2.Size());
  }

  lemma DropBelow(cs: seq<Ctx>, k: nat, n: nat)
    requires AllBelow(cs, n)
    ensures AllBelow(Drop(cs, k), n)
  {
  }

  lemma SprintfKeeps(w: Walk, args: seq<Expr>, ctxs: seq<Ctx>)
    requires Ready(w) && |ctxs| == |args| && AllBelow(ctxs, w.sys.Size())
    ensures var (w', c) := ModelSprintf(w, args, ctxs); Ready(w') && Later(w, w') && CtxBelow(c, w'.sys.Size())
  {
    if |args| >= 2 && args[1].StrConst? && ctxs[0].CStr? {
      DropBelow(ctxs, 2, w.sys.Size());
      FmtScanGrows(w.sys, args[1].s, 0, Drop(ctxs, 2), 0);
      var (s1, parsed) := ParseFmt(w.sys, args[1].s, Drop(ctxs, 2));
      BelowMore(ctxs[0], w.sys.Size(), s1.Size());
      IncludeGrows(s1, parsed, ctxs[0].len);
      GrownSystem(w, s1.Include(parsed, ctxs[0].len));
    } else if |ctxs| >= 1 && ctxs[0].CStr? {
      ForceTopGrows(w.sys, ctxs[0].len);
      GrownSystem(w, w.sys.ForceTop(ctxs[0].len));
    }
  }

  lemma SnprintfKeeps(w: Walk, args: seq<Expr>, ctxs: seq<Ctx>)
    requires Ready(w) && |ctxs| == |args| && AllBelow(ctxs, w.sys.Size())
    ensures var (w', c) := ModelSnprintf(w, args, ctxs); Ready(w') && Later(w, w') && CtxBelow(c, w'.sys.Size())
  {
    if |args| >= 3 && args[2].StrConst? && ctxs[0].CStr? {
      DropBelow(ctxs, 3, w.sys.Size());
      FmtScanGrows(w.sys, args[2].s, 0, Drop(ctxs, 3), 0);
      var (s1, parsed) := ParseFmt(w.sys, args[2].s, Drop(ctxs, 3));
      BelowMore(ctxs[0], w.sys.Size(), s1.Size());
      if ctxs[1].CInt? {
        BelowMoreTerm(ctxs[1].t, w.sys.Size(), s1.Size());
        GrownSystem(w, s1);
        MinIntoKeeps(w.With(s1), parsed, ctxs[1].t, ctxs[0]);
        var (s2, m) := s1.MinOf(parsed, ctxs[1].t);
        LaterTransitive(w, w.With(s1), w.With(s2.Include(m, ctxs[0].len)));
      } else {
        IncludeGrows(s1, parsed, ctxs[0].len);
        GrownSystem(w, s1.Include(parsed, ctxs[0].len));
      }
    }
  }

  // ----- expressions and statements -----

  lemma CombineKeeps(w: Walk, op: BinOp, a: Ctx, b: Ctx)
    requires Ready(w) && CtxBelow(a, w.sys.Size()) && CtxBelow(b, w.sys.Size())
    ensures var (w', c) := Combine(w, op, a, b); Ready(w') && Later(w, w') && CtxBelow(c, w'.sys.Size())
  {
    if a.CInt? && b.CInt? {
      ArithmeticVarsBelow(a.t, b.t, 0, w.sys.Size());
      match op
      case Add =>
      case Sub =>
      case Mul =>
        TimesGrows(w.sys, a.t, b.t);
        GrownSystem(w, w.sys.Times(a.t, b.t).0);
      case Div =>
        TopGrows(w.sys);
        GrownSystem(w, w.sys.Top().0);
      case _ =>
        BoolGrows(w);
    } else if op == Add && a.CStr? && b.CInt? {
      AdvanceBelow(a, b.t, w.sys.Size());
    }
  }

  lemma BoolGrows(w: Walk)
    requires Ready(w)
    ensures var (s, t) := BoolTerm(w.sys); Ready(w.With(s)) && Later(w, w.With(s)) && t.VarsBelow(s.Size())
  {
    var v := w.sys.Size();
    FreshGrows(w.sys, None);
    var s0 := w.sys.Fresh(None).0;
    SeedGrows(s0, 0, v);
    SeedGrows(s0.Seed(0, v), 1, v);
    GrownSystem(w, BoolTerm(w.sys).0);
  }

  lemma MergeGrows(s: Sys, a: Ctx, b: Ctx)
    requires s.Valid() && CtxBelow(a, s.Size()) && CtxBelow(b, s.Size())
    ensures var (s', c) := Merge(s, a, b); Grown(s, s') && s'.Valid() && CtxBelow(c, s'.Size())
  {
    match (a, b)
    case (CInt(i), CInt(j)) => UnionGrows(s, i, j);
    case (CStr(s2, l2), CStr(s3, l3)) =>
      FreshStrGrows(s, None);
      var (s1, c) := FreshStr(s, None);
      BelowMore(a, s.Size(), s1.Size());
      BelowMore(b, s.Size(), s1.Size());
      IncludeGrows(s1, s2, c.siz);
      var t1 := s1.Include(s2, c.siz);
      IncludeGrows(t1, s3, c.siz);
      var t2 := t1.Include(s3, c.siz);
      IncludeGrows(t2, l2, c.len);
      var t3 := t2.Include(l2, c.len);
      IncludeGrows(t3, l3, c.len);
    case _ =>
  }

  lemma FlowKeeps(w: Walk, dst: Ctx, src: Ctx)
    requires Ready(w) && CtxBelow(dst, w.sys.Size()) && CtxBelow(src, w.sys.Size())
    ensures Ready(w.With(Flow(w.sys, dst, src))) && Later(w, w.With(Flow(w.sys, dst, src)))
    ensures Ready(w.With(FlowInit(w.sys, dst, src))) && Later(w, w.With(FlowInit(w.sys, dst, src)))
  {
    FlowGrows(w.sys, dst, src);
    GrownSystem(w, Flow(w.sys, dst, src));
    GrownSystem(w, FlowInit(w.sys, dst, src));
  }

  ghost predicate Kept(w: Walk, r: (Walk, Ctx)) {
    Ready(r.0) && Later(w, r.0) && CtxBelow(r.1, r.0.sys.Size())
  }

  lemma LaterReflexive(w: Walk)
    ensures Later(w, w)
  {
  }

  lemma CarryBelow(w: Walk, w': Walk, c: Ctx)
    requires CtxBelow(c, w.sys.Size()) && Later(w, w')
    ensures CtxBelow(c, w'.sys.Size())
  {
    BelowMore(c, w.sys.Size(), w'.sys.Size());
  }

  // Two steps in a row; what the first one returned is still in range after the second.
  lemma ThenKept(w: Walk, r1: (Walk, Ctx), r2: (Walk, Ctx))
    requires Kept(w, r1) && Kept(r1.0, r2)
    ensures Kept(w, r2) && CtxBelow(r1.1, r2.0.sys.Size())
  {
    LaterTransitive(w, r1.0, r2.0);
    CarryBelow(r1.0, r2.0, r1.1);
  }

  lemma CombinedKept(w: Walk, op: BinOp, x: (Walk, Ctx), y: (Walk, Ctx))
    requires Kept(w, x) && Kept(x.0, y)
    ensures Kept(w, Combine(y.0, op, x.1, y.1))
  {
    ThenKept(w, x, y);
    CombineKeeps(y.0, op, x.1, y.1);
    LaterTransitive(w, y.0, Combine(y.0, op, x.1, y.1).0);
  }

  lemma FlownKept(w: Walk, dst: (Walk, Ctx), src: (Walk, Ctx))
    requires Kept(w, dst) && Kept(dst.0, src)
    ensures Kept(w, (src.0.With(Flow(src.0.sys, dst.1, src.1)), src.1))
    ensures Kept(w, (src.0.With(FlowInit(src.0.sys, dst.1, src.1)), src.1))
  {
    ThenKept(w, dst, src);
    FlowKeeps(src.0, dst.1, src.1);
    var w1, w2 := src.0.With(Flow(src.0.sys, dst.1, src.1)), src.0.With(FlowInit(src.0.sys, dst.1, src.1));
    LaterTransitive(w, src.0, w1);
    LaterTransitive(w, src.0, w2);
    CarryBelow(src.0, w1, src.1);
    CarryBelow(src.0, w2, src.1);
  }

  lemma MergedKept(w: Walk, x: (Walk, Ctx), y: (Walk, Ctx))
    requires Kept(w, x) && Kept(x.0, y)
    ensures var (s, m) := Merge(y.0.sys, x.1, y.1); Kept(w, (y.0.With(s), m))
  {
    ThenKept(w, x, y);
    MergeGrows(y.0.sys, x.1, y.1);
    GrownSystem(y.0, Merge(y.0.sys, x.1, y.1).0);
    LaterTransitive(w, y.0, y.0.With(Merge(y.0.sys, x.1, y.1).0));
  }

  lemma CallKept(w: Walk, f: string, args: seq<Expr>, ctxs: seq<Ctx>)
    requires Ready(w) && |ctxs| == |args| && AllBelow(ctxs, w.sys.Size())
    ensures Kept(w, GenCall(w, f, args, ctxs))
  {
    match RoutineOf(f)
    case Sprintf => SprintfKeeps(w, args, ctxs);
    case Snprintf => SnprintfKeeps(w, args, ctxs);
    case r => CheckStrOpKeeps(w, r, ctxs);
  }

  // Walking an expression keeps the walk in order.
  lemma {:induction false} GenKeeps(w: Walk, e: Expr)
    requires Ready(w)
    ensures Kept(w, Gen(w, e))
    decreases e, 1
  {
    match e
    case Var(x) => NewVarKeeps(w, x, OtherType);
    case IntConst(_) =>
    case CharConst =>
    case StrConst(_) =>
    case OtherConst =>
    case Conditional(_, _, _) => GenConditionalKeeps(w, e);
    case Call(f, args) =>
      NewVarKeeps(w, f, OtherType);
      var r := NewVar(w, f, OtherType);
      GenArgsKeep(r.0, args);
      AppliedKept(w, r.0, f, args, GenArgs(r.0, args));
    case Unary(op, a) =>
      GenKeeps(w, a);
      var x := Gen(w, a);
      GenKeeps(x.0, a);
      UnaryKept(w, op, a, x);
    case Binary(op, a, b) =>
      GenKeeps(w, a);
      var x := Gen(w, a);
      GenKeeps(x.0, b);
      CombinedKept(w, op, x, Gen(x.0, b));
    case Assign(_, _, _) => GenAssignKeeps(w, e);
    case Comma(a, b) =>
      GenKeeps(w, a);
      var x := Gen(w, a);
      GenKeeps(x.0, b);
      ThenKept(w, x, Gen(x.0, b));
  }

  lemma ConditionalKept(w: Walk, r: (Walk, Ctx), x: (Walk, Ctx), y: (Walk, Ctx))
    requires Kept(w, r) && Kept(r.0, x) && Kept(x.0, y)
    ensures var (s, m) := Merge(y.0.sys, x.1, y.1); Kept(w, (y.0.With(s), m))
  {
    MergedKept(r.0, x, y);
    var (s, m) := Merge(y.0.sys, x.1, y.1);
    ThenKept(w, r, (y.0.With(s), m));
  }

  lemma AppliedKept(w: Walk, w0: Walk, f: string, args: seq<Expr>, r: (Walk, seq<Ctx>))
    requires Later(w, w0) && Later(w0, r.0) && Ready(r.0) && |r.1| == |args| && AllBelow(r.1, r.0.sys.Size())
    ensures Kept(w, GenCall(r.0, f, args, r.1))
  {
    CallKept(r.0, f, args, r.1);
    LaterTransitive(w, w0, r.0);
    LaterTransitive(w, r.0, GenCall(r.0, f, args, r.1).0);
  }

  lemma {:induction false} GenConditionalKeeps(w: Walk, e: Expr)
    requires Ready(w) && e.Conditional?
    ensures Kept(w, Gen(w, e))
    decreases e, 0
  {
    GenKeeps(w, e.cond);
    var r := Gen(w, e.cond);
    GenKeeps(r.0, e.thn);
    var x := Gen(r.0, e.thn);
    GenKeeps(x.0, e.els);
    ConditionalKept(w, r, x, Gen(x.0, e.els));
  }

  lemma {:induction false} GenAssignKeeps(w: Walk, e: Expr)
    requires Ready(w) && e.Assign?
    ensures Kept(w, Gen(w, e))
    decreases e, 0
  {
    GenKeeps(w, e.lhs);
    var dst := Gen(w, e.lhs);
    if e.aop.None? {
      GenKeeps(dst.0, e.rhs);
      FlownKept(w, dst, Gen(dst.0, e.rhs));
    } else {
      GenKeeps(dst.0, e.lhs);
      var x := Gen(dst.0, e.lhs);
      GenKeeps(x.0, e.rhs);
      AssignKept(w, dst, e.aop.value, x, Gen(x.0, e.rhs));
    }
  }

  lemma AssignKept(w: Walk, dst: (Walk, Ctx), op: BinOp, x: (Walk, Ctx), y: (Walk, Ctx))
    requires Kept(w, dst) && Kept(dst.0, x) && Kept(x.0, y)
    ensures var src := Combine(y.0, op, x.1, y.1); Kept(w, (src.0.With(Flow(src.0.sys, dst.1, src.1)), src.1))
  {
    CombinedKept(dst.0, op, x, y);
    FlownKept(w, dst, Combine(y.0, op, x.1, y.1));
  }

  lemma UnaryKept(w: Walk, op: UnOp, a: Expr, x: (Walk, Ctx))
    requires x == Gen(w, a) && Kept(w, x) && Kept(x.0, Gen(x.0, a))
    ensures Kept(w, Gen(w, Unary(op, a)))
  {
    if op == Neg {
      if x.1.CInt? { ArithmeticVarsBelow(x.1.t, x.1.t, -1, x.0.sys.Size()); }
    } else if op == Not {
      NotKept(w, x);
    } else if op != BitNot {
      UpdateKept(w, a, if op == PreInc || op == PostInc then Add else Sub, x);
    }
  }

  lemma NotKept(w: Walk, x: (Walk, Ctx))
    requires Kept(w, x)
    ensures var (s, t) := BoolTerm(x.0.sys); Kept(w, (x.0.With(s), CInt(t)))
  {
    BoolGrows(x.0);
    LaterTransitive(w, x.0, x.0.With(BoolTerm(x.0.sys).0));
  }

  lemma UpdateKept(w: Walk, a: Expr, op: BinOp, x: (Walk, Ctx))
    requires x == Gen(w, a) && Kept(w, x) && Kept(x.0, Gen(x.0, a))
    ensures Kept(w, Update(w, a, op))
  {
    var y := Gen(x.0, a);
    StaysKept(y.0, CInt(Constant(1)));
    CombinedKept(x.0, op, y, (y.0, CInt(Constant(1))));
    FlownKept(w, x, Combine(y.0, op, y.1, CInt(Constant(1))));
  }

  lemma StaysKept(w: Walk, c: Ctx)
    requires Ready(w) && CtxBelow(c, w.sys.Size())
    ensures Kept(w, (w, c))
  {
  }

  lemma {:induction false} GenArgsKeep(w: Walk, args: seq<Expr>)
    requires Ready(w)
    ensures var (w', cs) := GenArgs(w, args); Ready(w') && Later(w, w') && AllBelow(cs, w'.sys.Size())
    decreases args, 0
  {
    if args != [] {
      GenKeeps(w, args[0]);
      var (w1, c) := Gen(w, args[0]);
      GenArgsKeep(w1, args[1..]);
      var (w2, cs) := GenArgs(w1, args[1..]);
      LaterTransitive(w, w1, w2);
      CarryBelow(w1, w2, c);
    }
  }

  lemma GenOptionKeeps(w: Walk, e: Option<Expr>)
    requires Ready(w)
    ensures Ready(GenOption(w, e)) && Later(w, GenOption(w, e))
  {
    if e.Some? { GenKeeps(w, e.value); }
  }

  lemma PinKeeps(w: Walk, c: Ctx, k: int)
    requires Ready(w) && c.CStr? && IsVar(c.siz) && CtxBelow(c, w.sys.Size())
    ensures var s := w.sys.Equate(c.siz, Constant(k));
            && Grown(w.sys, s) && s.Valid() && s.Size() == w.sys.Size()
            && s.fixed == w.sys.fixed + [(c.siz.terms[0].v, Singleton(k))]
  {
    assert c.siz.SingleVarAny() == Some((0, c.siz.terms[0].v));
    assert k - 0 == k;
  }

  lemma DoInitKeeps(w: Walk, ty: VarType, c: Ctx, e: Expr, src: Ctx)
    requires Ready(w) && CtxBelow(c, w.sys.Size()) && CtxBelow(src, w.sys.Size())
             && (c.CStr? ==> IsVar(c.siz) && IsVar(c.len))
    requires e.StrConst? ==> src == CStr(Constant(|e.s| + 1), Constant(|e.s| + 1))
    ensures Ready(DoInit(w, ty, c, e, src)) && Later(w, DoInit(w, ty, c, e, src))
  {
    FlowKeeps(w, c, src);
    if ty.CharArray? && c.CStr? && e.StrConst? {
      if ty.size.Some? {
        var written := if |e.s| + 1 < ty.size.value then |e.s| + 1 else ty.size.value;
        IncludeGrows(w.sys, Constant(written), c.len);
        GrownSystem(w, w.sys.Include(Constant(written), c.len));
      } else {
        PinKeeps(w, c, |e.s| + 1);
        var w1 := w.With(w.sys.Equate(c.siz, src.siz));
        GrownSystem(w, w1.sys);
        FlowKeeps(w1, c, src);
        LaterTransitive(w, w1, DoInit(w, ty, c, e, src));
      }
    }
  }

  lemma GenDeclKeeps(w: Walk, x: string, ty: VarType, ini: Option<Expr>)
    requires Ready(w)
    ensures Ready(GenDecl(w, x, ty, ini)) && Later(w, GenDecl(w, x, ty, ini))
    ensures x in GenDecl(w, x, ty, ini).vars
  {
    NewVarKeeps(w, x, ty);
    if ini.Some? {
      var (w1, c) := NewVar(w, x, ty);
      GenKeeps(w1, ini.value);
      var (w2, src) := Gen(w1, ini.value);
      CarryBelow(w1, w2, c);
      assert VarFits(w1, x);
      DoInitKeeps(w2, ty, c, ini.value, src);
      LaterTransitive(w, w1, w2);
      LaterTransitive(w, w2, GenDecl(w, x, ty, ini));
      LaterTransitive(w1, w2, GenDecl(w, x, ty, ini));
      assert VarKept(w1, GenDecl(w, x, ty, ini), x);
    }
  }

  lemma {:induction false} GenStmtKeeps(w: Walk, s: Stmt)
    requires Ready(w)
    ensures Ready(GenStmt(w, s)) && Later(w, GenStmt(w, s))
    decreases s, 0
  {
    LaterReflexive(w);
    match s
    case Simple(e) => GenKeeps(w, e);
    case If(c, t, f) =>
      GenKeeps(w, c);
      var w0 := Gen(w, c).0;
      GenStmtKeeps(w0, t);
      var w1 := GenStmt(w0, t);
      LaterTransitive(w, w0, w1);
      if f.Some? {
        GenStmtKeeps(w1, f.value);
        LaterTransitive(w, w1, GenStmt(w1, f.value));
      }
    case While(c, body) =>
      GenKeeps(w, c);
      GenStmtKeeps(Gen(w, c).0, body);
      LaterTransitive(w, Gen(w, c).0, GenStmt(w, s));
    case DoWhile(body, c) =>
      GenKeeps(w, c);
      GenStmtKeeps(Gen(w, c).0, body);
      LaterTransitive(w, Gen(w, c).0, GenStmt(w, s));
    case For(ini, test, step, body) =>
      GenOptionKeeps(w, ini);
      var w1 := GenOption(w, ini);
      GenOptionKeeps(w1, test);
      var w2 := GenOption(w1, test);
      GenOptionKeeps(w2, step);
      var w3 := GenOption(w2, step);
      GenStmtKeeps(w3, body);
      LaterTransitive(w, w1, w2);
      LaterTransitive(w, w2, w3);
      LaterTransitive(w, w3, GenStmt(w, s));
    case Block(items) => GenBlockKeeps(w, items);
    case Decl(x, ty, ini) => GenDeclKeeps(w, x, ty, ini);
    case Break =>
    case Continue =>
  }

  lemma {:induction false} GenBlockKeeps(w: Walk, items: seq<Stmt>)
    requires Ready(w)
    ensures Ready(GenBlock(w, items)) && Later(w, GenBlock(w, items))
    decreases items, 0
  {
    if items != [] {
      GenStmtKeeps(w, items[0]);
      var w1 := GenStmt(w, items[0]);
      GenBlockKeeps(w1, items[1..]);
      LaterTransitive(w, w1, GenBlock(w1, items[1..]));
    }
  }

  lemma {:induction false} DeclareLocalsKeeps(w: Walk, locals: seq<(string, VarType)>)
    requires Ready(w)
    ensures Ready(DeclareLocals(w, locals)) && Later(w, DeclareLocals(w, locals))
    decreases |locals|
  {
    if locals != [] {
      NewVarKeeps(w, locals[0].0, locals[0].1);
      var w1 := NewVar(w, locals[0].0, locals[0].1).0;
      DeclareLocalsKeeps(w1, locals[1..]);
      LaterTransitive(w, w1, DeclareLocals(w1, locals[1..]));
    }
  }

  // The walk of a whole body ends with a valid system.
  lemma GenBodyIsReady(body: seq<Stmt>)
    ensures Ready(GenBody(body))
  {
    var w := Walk(NEW, map[], map[], 0);
    DeclareLocalsKeeps(w, BlockLocals(body));
    GenBlockKeeps(DeclareLocals(w, BlockLocals(body)), body);
  }
}
