/**
 What a walk pins: the full range, and the size of an array declared without one. The full range absorbs whatever
 flows into it. Nothing flows into the size of an unsized array that is declared once, with its literal, and never
 assigned to, as C demands. So the pins of such a body absorb in every solution.
 */
module Pins {
  import opened Ranges
  import opened Terms
  import opened Problems
  import opened Solve
  import opened Systems
  import opened Syntax
  import opened Formats
  import opened Generator
  import opened Walks

  // The unsized arrays of a body, with the sizes their literals give them.
  type Unsized = map<string, int>

  // ----- bodies whose unsized arrays keep their size -----

  // Only variables are assigned to, and no unsized array is.
  predicate Assigns(e: Expr, names: Unsized)
    decreases e
  {
    match e
    case Conditional(c, a, b) => Assigns(c, names) && Assigns(a, names) && Assigns(b, names)
    case Call(_, args) => AllAssign(args, names)
    case Unary(op, a) => Assigns(a, names) && (op in {Neg, Not, BitNot} || (a.Var? && a.name !in names))
    case Binary(_, a, b) => Assigns(a, names) && Assigns(b, names)
    case Assign(l, _, r) => l.Var? && l.name !in names && Assigns(r, names)
    case Comma(a, b) => Assigns(a, names) && Assigns(b, names)
    case _ => true
  }

  predicate AllAssign(args: seq<Expr>, names: Unsized)
    decreases args
  {
    args == [] || (Assigns(args[0], names) && AllAssign(args[1..], names))
  }

  predicate OptionAssigns(e: Option<Expr>, names: Unsized) { e.Some? ==> Assigns(e.value, names) }

  // An unsized array is declared with its one literal, or without any; every other declaration has another type.
  predicate Declares(x: string, ty: VarType, ini: Option<Expr>, names: Unsized) {
    if x in names then
      ty == CharArray(None) && (ini.Some? ==> ini.value.StrConst? && |ini.value.s| + 1 == names[x])
    else ty == CharArray(None) ==> ini.None?
  }

  predicate KeepsSizes(s: Stmt, names: Unsized)
    decreases s
  {
    match s
    case Simple(e) => Assigns(e, names)
    case If(c, t, f) => Assigns(c, names) && KeepsSizes(t, names) && (f.Some? ==> KeepsSizes(f.value, names))
    case While(c, body) => Assigns(c, names) && KeepsSizes(body, names)
    case DoWhile(body, c) => Assigns(c, names) && KeepsSizes(body, names)
    case For(ini, test, step, body) =>
      OptionAssigns(ini, names) && OptionAssigns(test, names) && OptionAssigns(step, names) && KeepsSizes(body, names)
    case Block(items) => BlockKeepsSizes(items, names)
    case Decl(x, ty, ini) => Declares(x, ty, ini, names) && OptionAssigns(ini, names)
    case _ => true
  }

  predicate BlockKeepsSizes(items: seq<Stmt>, names: Unsized)
    decreases items
  {
    items == [] || (KeepsSizes(items[0], names) && BlockKeepsSizes(items[1..], names))
  }

  // ----- pinned sizes -----

  // The variables that stand for the sizes of unsized arrays, with their values.
  type Sizes = map<VarId, int>

  ghost predicate TermClear(t: Term, sizes: Sizes) { forall i :: 0 <= i < |t.terms| ==> t.terms[i].v !in sizes }

  // Of a string, only the size may mention a pinned size.
  ghost predicate CtxClear(c: Ctx, sizes: Sizes) {
    (c.CInt? ==> TermClear(c.t, sizes)) && (c.CStr? ==> TermClear(c.len, sizes))
  }

  ghost predicate AllClear(cs: seq<Ctx>, sizes: Sizes) { forall i :: 0 <= i < |cs| ==> CtxClear(cs[i], sizes) }

  // A pin is the full range or the value of a pinned size, and nothing flows into a pinned size.
  ghost predicate SysClear(s: Sys, sizes: Sizes) {
    && (forall v :: v in sizes ==> v < s.Size())
    && (forall i :: 0 <= i < |s.fixed| ==> PinClear(s.fixed[i], sizes))
    && (forall i :: 0 <= i < |s.constraints| ==> s.constraints[i].target !in sizes)
    && (s.topVar.Some? ==> s.topVar.value !in sizes) && s.root == Identity(s.Size())
  }

  predicate PinClear(pin: (VarId, Range), sizes: Sizes) {
    pin.1 == if pin.0 in sizes then Singleton(sizes[pin.0]) else TOP
  }

  function Identity(n: nat): (r: seq<VarId>)
    ensures |r| == n && forall v :: 0 <= v < n ==> r[v] == v
  {
    seq(n, v => v)
  }

  // The size of an unsized array is a pinned one; nothing else of a variable is.
  ghost predicate VarClear(w: Walk, names: Unsized, sizes: Sizes, x: string) {
    x in w.vars ==>
      var c := w.vars[x];
      CtxClear(c, sizes) && (c.CStr? ==> if x in names then PinsTo(c.siz, sizes, names[x]) else TermClear(c.siz, sizes))
  }

  predicate PinsTo(t: Term, sizes: Sizes, n: int) {
    |t.terms| == 1 && t == VarTerm(t.terms[0].v) && t.terms[0].v in sizes && sizes[t.terms[0].v] == n
  }

  ghost predicate Clear(w: Walk, names: Unsized, sizes: Sizes) {
    SysClear(w.sys, sizes) && forall x {:trigger VarClear(w, names, sizes, x)} :: VarClear(w, names, sizes, x)
  }

  // ----- terms -----

  lemma {:induction false} AddSlotClear(slots: seq<Slot>, c: int, v: VarId, sizes: Sizes)
    requires TermClear(Term(slots, 0), sizes) && v !in sizes
    ensures TermClear(Term(AddSlot(slots, c, v), 0), sizes)
  {
    if slots != [] {
      assert Term(slots, 0).terms[0].v !in sizes;
      forall i | 0 <= i < |slots[1..]| ensures slots[1..][i].v !in sizes {
        assert Term(slots, 0).terms[i + 1].v !in sizes;
      }
      AddSlotClear(slots[1..], c, v, sizes);
      forall i | 0 <= i < |AddSlot(slots, c, v)| ensures AddSlot(slots, c, v)[i].v !in sizes {
        if i > 0 {
          if slots[0].v == v && SameSign(slots[0].coeff, c) {
            assert Term(slots, 0).terms[i].v !in sizes;
          } else {
            assert Term(AddSlot(slots[1..], c, v), 0).terms[i - 1].v !in sizes;
          }
        }
      }
    }
  }

  lemma {:induction false} AddSlotsClear(slots: seq<Slot>, more: seq<Slot>, sizes: Sizes)
    requires TermClear(Term(slots, 0), sizes) && TermClear(Term(more, 0), sizes)
    ensures TermClear(Term(AddSlots(slots, more), 0), sizes)
  {
    if more != [] {
      var init, last := more[..|more| - 1], more[|more| - 1];
      assert Term(more, 0).terms[|more| - 1].v !in sizes;
      forall i | 0 <= i < |init| ensures init[i].v !in sizes { assert Term(more, 0).terms[i].v !in sizes; }
      AddSlotsClear(slots, init, sizes);
      AddSlotClear(AddSlots(slots, init), last.coeff, last.v, sizes);
    }
  }

  lemma ScaleClear(t: Term, c: int, sizes: Sizes)
    requires TermClear(t, sizes)
    ensures TermClear(t.Scale(c), sizes)
  {
    forall i | 0 <= i < |t.terms| ensures t.Scale(c).terms[i].v !in sizes { assert t.terms[i].v !in sizes; }
  }

  lemma PlusClear(t: Term, u: Term, sizes: Sizes)
    requires TermClear(t, sizes) && TermClear(u, sizes)
    ensures TermClear(t.Plus(u), sizes)
  {
    var r := AddSlots(t.terms, u.terms);
    forall i | 0 <= i < |t.terms| ensures t.terms[i].v !in sizes {}
    AddSlotsClear(t.terms, u.terms, sizes);
    forall i | 0 <= i < |r| ensures r[i].v !in sizes { assert Term(r, 0).terms[i].v !in sizes; }
  }

  lemma MinusClear(t: Term, u: Term, sizes: Sizes)
    requires TermClear(t, sizes) && TermClear(u, sizes)
    ensures TermClear(t.Minus(u), sizes) && TermClear(u.Negate(), sizes)
  {
    ScaleClear(u, -1, sizes);
    PlusClear(t, u.Negate(), sizes);
  }

  // ----- systems -----

  lemma FreshClear(s: Sys, name: Option<string>, sizes: Sizes)
    requires SysClear(s, sizes)
    ensures SysClear(s.Fresh(name).0, sizes) && TermClear(s.Fresh(name).1, sizes)
  {
    assert Identity(s.Size()) + [s.Size()] == Identity(s.Size() + 1);
    assert s.Size() !in sizes;
  }

  lemma IncludeClear(s: Sys, lhs: Term, rhs: Term, sizes: Sizes)
    requires SysClear(s, sizes) && TermClear(rhs, sizes)
    ensures SysClear(s.Include(lhs, rhs), sizes)
  {
    if rhs.terms != [] { assert rhs.terms[0].v !in sizes; }
  }

  lemma SeedClear(s: Sys, k: int, v: VarId, sizes: Sizes)
    requires SysClear(s, sizes) && v !in sizes
    ensures SysClear(s.Seed(k, v), sizes)
  {
  }

  lemma ItemClear(s: Sys, t: Term, sizes: Sizes)
    requires SysClear(s, sizes)
    ensures SysClear(s.MinItemOf(t).0, sizes)
  {
    FreshClear(s, None, sizes);
    IncludeClear(s.Fresh(None).0, t, s.Fresh(None).1, sizes);
  }

  lemma MinClear(s: Sys, x: Term, y: Term, sizes: Sizes)
    requires SysClear(s, sizes)
    ensures SysClear(s.MinOf(x, y).0, sizes) && TermClear(s.MinOf(x, y).1, sizes)
  {
    FreshClear(s, None, sizes);
    var s0 := s.Fresh(None).0;
    ItemClear(s0, x, sizes);
    ItemClear(s0.MinItemOf(x).0, y, sizes);
    assert s.Size() !in sizes;
  }

  lemma UnionClear(s: Sys, x: Term, y: Term, sizes: Sizes)
    requires SysClear(s, sizes)
    ensures SysClear(s.UnionOf(x, y).0, sizes) && TermClear(s.UnionOf(x, y).1, sizes)
  {
    FreshClear(s, None, sizes);
    var (s0, z) := s.Fresh(None);
    IncludeClear(s0, x, z, sizes);
    IncludeClear(s0.Include(x, z), y, z, sizes);
  }

  lemma ForceTopClear(s: Sys, t: Term, sizes: Sizes)
    requires SysClear(s, sizes) && TermClear(t, sizes)
    ensures SysClear(s.ForceTop(t), sizes)
  {
    IncludeClear(s, Constant(1), t, sizes);
    IncludeClear(s.Include(Constant(1), t), t.Plus(Constant(1)), t, sizes);
  }

  lemma TimesClear(s: Sys, x: Term, y: Term, sizes: Sizes)
    requires SysClear(s, sizes) && TermClear(x, sizes) && TermClear(y, sizes)
    ensures SysClear(s.Times(x, y).0, sizes) && TermClear(s.Times(x, y).1, sizes)
    ensures SysClear(s.Top().0, sizes) && TermClear(s.Top().1, sizes)
  {
    FreshClear(s, Some("top"), sizes);
    assert s.Size() !in sizes;
    ScaleClear(y, x.konst, sizes);
    ScaleClear(x, y.konst, sizes);
  }

  lemma FreshStrClear(s: Sys, name: Option<string>, sizes: Sizes)
    requires SysClear(s, sizes)
    ensures var (s', c) := FreshStr(s, name);
            SysClear(s', sizes) && c.CStr? && TermClear(c.siz, sizes) && TermClear(c.len, sizes)
  {
    var n1 := if name.Some? then Some("siz(" + name.value + ")") else None;
    FreshClear(s, n1, sizes);
    FreshClear(s.Fresh(n1).0, if name.Some? then Some("len(" + name.value + ")") else None, sizes);
  }

  lemma FlowClear(s: Sys, dst: Ctx, src: Ctx, sizes: Sizes)
    requires SysClear(s, sizes) && CtxClear(dst, sizes)
    ensures SysClear(FlowInit(s, dst, src), sizes)
    ensures (dst.CStr? ==> TermClear(dst.siz, sizes)) ==> SysClear(Flow(s, dst, src), sizes)
  {
    if dst.CStr? && src.CStr? {
      IncludeClear(s, src.len, dst.len, sizes);
      if TermClear(dst.siz, sizes) { IncludeClear(s.Include(src.len, dst.len), src.siz, dst.siz, sizes); }
    } else if dst.CInt? && src.CInt? {
      IncludeClear(s, src.t, dst.t, sizes);
    }
  }

  lemma MergeClear(s: Sys, a: Ctx, b: Ctx, sizes: Sizes)
    requires SysClear(s, sizes)
    ensures SysClear(Merge(s, a, b).0, sizes) && CtxClear(Merge(s, a, b).1, sizes)
  {
    if a.CInt? && b.CInt? {
      UnionClear(s, a.t, b.t, sizes);
    } else if a.CStr? && b.CStr? {
      FreshStrClear(s, None, sizes);
      var (s1, c) := FreshStr(s, None);
      IncludeClear(s1, a.siz, c.siz, sizes);
      var s2 := s1.Include(a.siz, c.siz);
      IncludeClear(s2, b.siz, c.siz, sizes);
      var s3 := s2.Include(b.siz, c.siz);
      IncludeClear(s3, a.len, c.len, sizes);
      IncludeClear(s3.Include(a.len, c.len), b.len, c.len, sizes);
    }
  }

  // ----- calls -----

  ghost predicate OptionClear(s: Sys, c: Option<Ctx>, sizes: Sizes) {
    SysClear(s, sizes) && (c.Some? ==> CtxClear(c.value, sizes))
  }

  lemma AllocClear(w: Walk, sizes: Sizes)
    requires SysClear(w.sys, sizes)
    ensures var (w1, c) := FreshAllocStr(w);
            SysClear(w1.sys, sizes) && c.CStr? && TermClear(c.siz, sizes) && TermClear(c.len, sizes)
  {
    FreshStrClear(w.sys, Some("alloc@" + Decimal(w.allocs)), sizes);
  }

  lemma StatusClear(w: Walk, name: string, most: int, sizes: Sizes)
    requires SysClear(w.sys, sizes)
    ensures var (w', c) := Status(w, name, most); OptionClear(w'.sys, c, sizes)
  {
    var s, v := w.sys.Fresh(Some(name)).0, w.sys.Size();
    FreshClear(w.sys, Some(name), sizes);
    assert v !in sizes;
    SeedClear(s, 0, v, sizes);
    SeedClear(s.Seed(0, v), most, v, sizes);
  }

  lemma CheckStrOpClear(w: Walk, f: Routine, args: seq<Ctx>, sizes: Sizes)
    requires SysClear(w.sys, sizes) && AllClear(args, sizes)
    ensures var (w', c) := CheckStrOp(w, f, args); OptionClear(w'.sys, c, sizes)
    ensures CheckStrOp(w, f, args).0.vars == w.vars
  {
    var s, n := w.sys, |args|;
    match f
    case Strncpy =>
      if n == 3 && args[0].CStr? && args[1].CStr? && args[2].CInt? {
        MinClear(s, args[1].len, args[2].t, sizes);
        var (s1, m) := s.MinOf(args[1].len, args[2].t);
        IncludeClear(s1, m, args[0].len, sizes);
      }
    case Strncat =>
      if n == 3 && args[0].CStr? && args[1].CStr? && args[2].CInt? {
        var x := args[1].len.Minus(Constant(1));
        MinClear(s, x, args[2].t, sizes);
        var (s1, m) := s.MinOf(x, args[2].t);
        IncludeClear(s1, m.Plus(args[0].len), args[0].len, sizes);
      }
    case Getenv =>
      FreshClear(s, Some("@getenv_return"), sizes);
      var (s1, t) := s.Fresh(Some("@getenv_return"));
      ForceTopClear(s1, t, sizes);
    case Gets => if n == 1 && args[0].CStr? { ForceTopClear(s, args[0].len, sizes); }
    case Syserror => StatusClear(w, "@syserror_return", 48, sizes);
    case Syssignal => StatusClear(w, "@syssignal_return", 25, sizes);
    case Strchr => MergeClear(s, CStr(Constant(1), Constant(1)), if n == 2 then args[0] else CNone, sizes);
    case _ => OtherOpClear(w, f, args, sizes);
  }

  lemma OtherOpClear(w: Walk, f: Routine, args: seq<Ctx>, sizes: Sizes)
    requires SysClear(w.sys, sizes) && AllClear(args, sizes)
    requires f !in {Strncpy, Strncat, Getenv, Gets, Syserror, Syssignal, Strchr}
    ensures var (w', c) := CheckStrOp(w, f, args); OptionClear(w'.sys, c, sizes) && w'.vars == w.vars
  {
    var s, n := w.sys, |args|;
    match f
    case Strcpy => if n == 2 && args[0].CStr? && args[1].CStr? { IncludeClear(s, args[1].len, args[0].len, sizes); }
    case Strcat => if n == 2 && args[0].CStr? && args[1].CStr? { IncludeClear(s, args[1].len, args[0].len, sizes); }
    case Strlen => if n == 1 && args[0].CStr? { MinusClear(args[0].len, Constant(1), sizes); }
    case Strspn =>
      if n == 1 && args[0].CStr? { UnionClear(s, Constant(0), args[0].len.Minus(Constant(1)), sizes); }
    case Strdup =>
      AllocClear(w, sizes);
      if n == 1 && args[0].CStr? {
        var (w1, c) := FreshAllocStr(w);
        IncludeClear(w1.sys, args[0].len, c.siz, sizes);
        IncludeClear(w1.sys.Include(args[0].len, c.siz), args[0].len, c.len, sizes);
      }
    case Malloc =>
      AllocClear(w, sizes);
      if n == 1 && args[0].CInt? {
        var (w1, c) := FreshAllocStr(w);
        IncludeClear(w1.sys, args[0].t, c.siz, sizes);
      }
    case Fgets =>
      if n == 3 && args[0].CStr? && args[1].CInt? {
        IncludeClear(s, Constant(1), args[0].len, sizes);
        IncludeClear(s.Include(Constant(1), args[0].len), args[1].t, args[0].len, sizes);
      }
    case Gethostname => if n == 2 && args[0].CStr? && args[1].CInt? { IncludeClear(s, args[1].t, args[0].len, sizes); }
    case _ =>
  }

  lemma ConvTermClear(s: Sys, c: char, width: Option<Term>, prec: Option<Term>, pl: seq<Ctx>, k: nat, sizes: Sizes)
    requires SysClear(s, sizes)
    ensures SysClear(ConvTerm(s, c, width, prec, pl, k).0, sizes)
  {
    FreshClear(s, None, sizes);
    ForceTopClear(s.Fresh(None).0, s.Fresh(None).1, sizes);
    var (s1, n) := StringArg(s, pl, k);
    assert SysClear(s1, sizes);
    if prec.Some? { MinClear(s1, prec.value, n, sizes); }
    var s2 := if prec.Some? then s1.MinOf(prec.value, n).0 else s1;
    if width.Some? { UnionClear(s2, width.value, n, sizes); }
    UnionClear(s, Constant(1), Constant(20), sizes);
    UnionClear(s, Constant(1), Constant(22), sizes);
    UnionClear(s, Constant(1), Constant(32), sizes);
  }

  lemma {:induction false} FmtScanClear(s: Sys, f: string, i: nat, pl: seq<Ctx>, k: nat, sizes: Sizes)
    requires i <= |f| && SysClear(s, sizes)
    ensures SysClear(FmtScan(s, f, i, pl, k).0, sizes)
    decreases |f| - i, 0
  {
    if i < |f| {
      if f[i] != '%' {
        FmtScanClear(s, f, i + 1, pl, k, sizes);
      } else if i + 1 < |f| {
        if f[i + 1] == '%' {
          FmtScanClear(s, f, i + 2, pl, k, sizes);
        } else {
          ExpandPercentClear(s, f, i + 1, pl, k, sizes);
        }
      }
    }
  }

  lemma {:induction false} ExpandPercentClear(s: Sys, f: string, i: nat, pl: seq<Ctx>, k: nat, sizes: Sizes)
    requires i <= |f| && SysClear(s, sizes)
    ensures SysClear(ExpandPercent(s, f, i, pl, k).0, sizes)
    decreases |f| - i, 1
  {
    var width := ReadNum(f, SkipModifiers(f, i), pl, k);
    var dot := width.next < |f| && f[width.next] == '.';
    var prec := if dot then ReadNum(f, width.next + 1, pl, width.used) else NumTerm(None, width.next, width.used);
    if prec.next < |f| {
      var c, next := f[prec.next], prec.next + 1;
      ConvTermClear(s, c, width.value, prec.value, pl, prec.used, sizes);
      var (s1, body, takes) := ConvTerm(s, c, width.value, prec.value, pl, prec.used);
      FmtScanClear(s1, f, next, pl, if takes then prec.used + 1 else prec.used, sizes);
    }
  }

  lemma SprintfClear(w: Walk, args: seq<Expr>, ctxs: seq<Ctx>, sizes: Sizes)
    requires |ctxs| == |args| && SysClear(w.sys, sizes) && AllClear(ctxs, sizes)
    ensures var (w', c) := ModelSprintf(w, args, ctxs);
            SysClear(w'.sys, sizes) && CtxClear(c, sizes) && w'.vars == w.vars
  {
    if |args| >= 2 && args[1].StrConst? && ctxs[0].CStr? {
      FmtScanClear(w.sys, args[1].s, 0, Drop(ctxs, 2), 0, sizes);
      var (s1, parsed) := ParseFmt(w.sys, args[1].s, Drop(ctxs, 2));
      IncludeClear(s1, parsed, ctxs[0].len, sizes);
    } else if |ctxs| >= 1 && ctxs[0].CStr? {
      ForceTopClear(w.sys, ctxs[0].len, sizes);
    }
  }

  lemma SnprintfClear(w: Walk, args: seq<Expr>, ctxs: seq<Ctx>, sizes: Sizes)
    requires |ctxs| == |args| && SysClear(w.sys, sizes) && AllClear(ctxs, sizes)
    ensures var (w', c) := ModelSnprintf(w, args, ctxs);
            SysClear(w'.sys, sizes) && CtxClear(c, sizes) && w'.vars == w.vars
  {
    if |args| >= 3 && args[2].StrConst? && ctxs[0].CStr? {
      FmtScanClear(w.sys, args[2].s, 0, Drop(ctxs, 3), 0, sizes);
      var (s1, parsed) := ParseFmt(w.sys, args[2].s, Drop(ctxs, 3));
      if ctxs[1].CInt? {
        MinClear(s1, parsed, ctxs[1].t, sizes);
        var (s2, m) := s1.MinOf(parsed, ctxs[1].t);
        IncludeClear(s2, m, ctxs[0].len, sizes);
      } else {
        IncludeClear(s1, parsed, ctxs[0].len, sizes);
      }
    }
  }

  lemma CallClear(w: Walk, f: string, args: seq<Expr>, ctxs: seq<Ctx>, sizes: Sizes)
    requires |ctxs| == |args| && SysClear(w.sys, sizes) && AllClear(ctxs, sizes)
    ensures var (w', c) := GenCall(w, f, args, ctxs);
            SysClear(w'.sys, sizes) && CtxClear(c, sizes) && w'.vars == w.vars
  {
    match RoutineOf(f)
    case Sprintf => SprintfClear(w, args, ctxs, sizes);
    case Snprintf => SnprintfClear(w, args, ctxs, sizes);
    case r => CheckStrOpClear(w, r, ctxs, sizes);
  }

  // ----- expressions -----

  lemma SameVarsClear(w: Walk, w': Walk, names: Unsized, sizes: Sizes)
    requires Clear(w, names, sizes) && w'.vars == w.vars && SysClear(w'.sys, sizes)
    ensures Clear(w', names, sizes)
  {
    forall x ensures VarClear(w', names, sizes, x) { assert VarClear(w, names, sizes, x); }
  }

  ghost predicate PairClear(r: (Walk, Ctx), names: Unsized, sizes: Sizes) {
    Clear(r.0, names, sizes) && CtxClear(r.1, sizes)
  }

  // Looking a name up pins nothing; what may be assigned to has no pinned size.
  lemma NameClear(w: Walk, x: string, names: Unsized, sizes: Sizes)
    requires Clear(w, names, sizes)
    ensures var r := NewVar(w, x, OtherType);
            PairClear(r, names, sizes) && (x !in names && r.1.CStr? ==> TermClear(r.1.siz, sizes))
  {
    var w' := NewVar(w, x, OtherType).0;
    assert VarClear(w, names, sizes, x);
    forall y ensures VarClear(w', names, sizes, y) { assert VarClear(w, names, sizes, y); }
  }

  lemma CombineClear(w: Walk, op: BinOp, a: Ctx, b: Ctx, names: Unsized, sizes: Sizes)
    requires Clear(w, names, sizes) && CtxClear(a, sizes) && CtxClear(b, sizes)
    ensures PairClear(Combine(w, op, a, b), names, sizes)
  {
    var w' := Combine(w, op, a, b).0;
    if a.CInt? && b.CInt? {
      PlusClear(a.t, b.t, sizes);
      MinusClear(a.t, b.t, sizes);
      TimesClear(w.sys, a.t, b.t, sizes);
      BoolClear(w.sys, sizes);
    } else if a.CStr? && b.CInt? {
      MinusClear(a.len, b.t, sizes);
    }
    SameVarsClear(w, w', names, sizes);
  }

  lemma BoolClear(s: Sys, sizes: Sizes)
    requires SysClear(s, sizes)
    ensures SysClear(BoolTerm(s).0, sizes) && TermClear(BoolTerm(s).1, sizes)
  {
    FreshClear(s, None, sizes);
    assert s.Size() !in sizes;
    SeedClear(s.Fresh(None).0, 0, s.Size(), sizes);
    SeedClear(s.Fresh(None).0.Seed(0, s.Size()), 1, s.Size(), sizes);
  }

  lemma FlownClear(w: Walk, dst: Ctx, src: Ctx, names: Unsized, sizes: Sizes)
    requires Clear(w, names, sizes) && CtxClear(dst, sizes) && (dst.CStr? ==> TermClear(dst.siz, sizes))
    ensures Clear(w.With(Flow(w.sys, dst, src)), names, sizes)
  {
    FlowClear(w.sys, dst, src, sizes);
    SameVarsClear(w, w.With(Flow(w.sys, dst, src)), names, sizes);
  }

  // Walking an expression lets nothing flow into a pinned size, and pins nothing but the full range.
  lemma {:induction false} GenClear(w: Walk, e: Expr, names: Unsized, sizes: Sizes)
    requires Clear(w, names, sizes) && Assigns(e, names)
    ensures PairClear(Gen(w, e), names, sizes)
    decreases e, 1
  {
    match e
    case Var(x) => NameClear(w, x, names, sizes);
    case IntConst(_) =>
    case CharConst =>
    case StrConst(_) =>
    case OtherConst =>
    case Conditional(c, a, b) =>
      GenClear(w, c, names, sizes);
      var w1 := Gen(w, c).0;
      GenClear(w1, a, names, sizes);
      var (w2, x) := Gen(w1, a);
      GenClear(w2, b, names, sizes);
      var (w3, y) := Gen(w2, b);
      MergeClear(w3.sys, x, y, sizes);
      SameVarsClear(w3, w3.With(Merge(w3.sys, x, y).0), names, sizes);
    case Call(f, args) =>
      NameClear(w, f, names, sizes);
      var w0 := NewVar(w, f, OtherType).0;
      GenArgsClear(w0, args, names, sizes);
      var (w1, ctxs) := GenArgs(w0, args);
      CallClear(w1, f, args, ctxs, sizes);
      SameVarsClear(w1, GenCall(w1, f, args, ctxs).0, names, sizes);
    case Unary(op, a) => GenUnaryClear(w, e, names, sizes);
    case Binary(op, a, b) =>
      GenClear(w, a, names, sizes);
      var (w1, x) := Gen(w, a);
      GenClear(w1, b, names, sizes);
      var (w2, y) := Gen(w1, b);
      CombineClear(w2, op, x, y, names, sizes);
    case Assign(_, _, _) => GenAssignClear(w, e, names, sizes);
    case Comma(a, b) =>
      GenClear(w, a, names, sizes);
      GenClear(Gen(w, a).0, b, names, sizes);
  }

  lemma {:induction false} GenUnaryClear(w: Walk, e: Expr, names: Unsized, sizes: Sizes)
    requires Clear(w, names, sizes) && e.Unary? && Assigns(e, names)
    ensures PairClear(Gen(w, e), names, sizes)
    decreases e, 0
  {
    GenClear(w, e.arg, names, sizes);
    var (w1, c) := Gen(w, e.arg);
    if e.uop == Neg {
      if c.CInt? { MinusClear(Constant(0), c.t, sizes); }
    } else if e.uop == Not {
      BoolClear(w1.sys, sizes);
      SameVarsClear(w1, w1.With(BoolTerm(w1.sys).0), names, sizes);
    } else if e.uop != BitNot {
      UpdateClear(w, e.arg, if e.uop == PreInc || e.uop == PostInc then Add else Sub, names, sizes);
    }
  }

  lemma UpdateClear(w: Walk, a: Expr, op: BinOp, names: Unsized, sizes: Sizes)
    requires Clear(w, names, sizes) && a.Var? && a.name !in names
    ensures PairClear(Update(w, a, op), names, sizes)
  {
    NameClear(w, a.name, names, sizes);
    var (w1, dst) := Gen(w, a);
    NameClear(w1, a.name, names, sizes);
    var (w2, x) := Gen(w1, a);
    CombineClear(w2, op, x, CInt(Constant(1)), names, sizes);
    var (w3, src) := Combine(w2, op, x, CInt(Constant(1)));
    FlownClear(w3, dst, src, names, sizes);
  }

  lemma {:induction false} GenAssignClear(w: Walk, e: Expr, names: Unsized, sizes: Sizes)
    requires Clear(w, names, sizes) && e.Assign? && Assigns(e, names)
    ensures PairClear(Gen(w, e), names, sizes)
    decreases e, 0
  {
    NameClear(w, e.lhs.name, names, sizes);
    var (w1, dst) := Gen(w, e.lhs);
    if e.aop.None? {
      GenClear(w1, e.rhs, names, sizes);
      var (w2, src) := Gen(w1, e.rhs);
      FlownClear(w2, dst, src, names, sizes);
    } else {
      NameClear(w1, e.lhs.name, names, sizes);
      var (v1, x) := Gen(w1, e.lhs);
      GenClear(v1, e.rhs, names, sizes);
      var (v2, y) := Gen(v1, e.rhs);
      CombineClear(v2, e.aop.value, x, y, names, sizes);
      var (w2, src) := Combine(v2, e.aop.value, x, y);
      FlownClear(w2, dst, src, names, sizes);
    }
  }

  lemma {:induction false} GenArgsClear(w: Walk, args: seq<Expr>, names: Unsized, sizes: Sizes)
    requires Clear(w, names, sizes) && AllAssign(args, names)
    ensures Clear(GenArgs(w, args).0, names, sizes) && AllClear(GenArgs(w, args).1, sizes)
    decreases args, 0
  {
    if args != [] {
      GenClear(w, args[0], names, sizes);
      GenArgsClear(Gen(w, args[0]).0, args[1..], names, sizes);
    }
  }

  lemma GenOptionClear(w: Walk, e: Option<Expr>, names: Unsized, sizes: Sizes)
    requires Clear(w, names, sizes) && OptionAssigns(e, names)
    ensures Clear(GenOption(w, e), names, sizes)
  {
    if e.Some? { GenClear(w, e.value, names, sizes); }
  }

  // ----- statements -----

  // A variable that does not exist yet may join the pinned sizes: nothing mentions it.
  lemma TermStaysClear(t: Term, n: nat, sizes: Sizes, k: int)
    requires TermClear(t, sizes) && t.VarsBelow(n)
    ensures TermClear(t, sizes[n := k])
  {
    forall i | 0 <= i < |t.terms| ensures t.terms[i].v !in sizes[n := k] { assert t.terms[i].v < n; }
  }

  lemma VarStaysClear(w: Walk, names: Unsized, sizes: Sizes, k: int, x: string)
    requires VarClear(w, names, sizes, x) && VarFits(w, x) && forall v :: v in sizes ==> v < w.sys.Size()
    ensures VarClear(w, names, sizes[w.sys.Size() := k], x)
  {
    if x in w.vars {
      var c, n := w.vars[x], w.sys.Size();
      if c.CInt? { TermStaysClear(c.t, n, sizes, k); }
      if c.CStr? {
        TermStaysClear(c.len, n, sizes, k);
        if x !in names { TermStaysClear(c.siz, n, sizes, k); }
      }
    }
  }

  // A string with a pinned size.
  lemma FreshSizeClear(s: Sys, x: string, k: int, sizes: Sizes)
    requires s.Valid() && SysClear(s, sizes)
    ensures var (s', c) := FreshStr(s, Some(x));
            var more := sizes[s.Size() := k];
            SysClear(s', more) && c.CStr? && TermClear(c.len, more) && PinsTo(c.siz, more, k)
  {
    var s', more := FreshStr(s, Some(x)).0, sizes[s.Size() := k];
    assert Identity(s.Size()) + [s.Size()] == Identity(s.Size() + 1);
    assert Identity(s.Size() + 1) + [s.Size() + 1] == Identity(s.Size() + 2);
    forall i | 0 <= i < |s'.fixed| ensures PinClear(s'.fixed[i], more) {
      assert PinClear(s.fixed[i], sizes) && s.fixed[i].0 < s.Size();
    }
    forall i | 0 <= i < |s'.constraints| ensures s'.constraints[i].target !in more {
      assert ConstraintBelow(s.Snapshot().constraints[i], s.Size());
    }
  }

  lemma FreshVarClear(s: Sys, ty: VarType, x: string, sizes: Sizes)
    requires SysClear(s, sizes)
    ensures var (s', c) := FreshVarCtx(s, ty, x);
            SysClear(s', sizes) && CtxClear(c, sizes) && (c.CStr? ==> TermClear(c.siz, sizes))
  {
    FreshStrClear(s, Some(x), sizes);
    FreshClear(s, Some(x), sizes);
    if ty.CharArray? && ty.size.Some? {
      var (s1, c) := FreshStr(s, Some(x));
      IncludeClear(s1, Constant(ty.size.value), c.siz, sizes);
    }
  }

  lemma NewVarClear(w: Walk, x: string, ty: VarType, names: Unsized, sizes: Sizes) returns (more: Sizes)
    requires Ready(w) && Clear(w, names, sizes) && (x in names ==> ty == CharArray(None))
    ensures Clear(NewVar(w, x, ty).0, names, more)
  {
    var w' := NewVar(w, x, ty).0;
    if x in w.vars {
      more := sizes;
    } else if x in names {
      more := sizes[w.sys.Size() := names[x]];
      FreshSizeClear(w.sys, x, names[x], sizes);
      forall y ensures VarClear(w', names, more, y) {
        assert VarClear(w, names, sizes, y) && VarFits(w, y);
        VarStaysClear(w, names, sizes, names[x], y);
      }
    } else {
      more := sizes;
      FreshVarClear(w.sys, ty, x, sizes);
      forall y ensures VarClear(w', names, more, y) { assert VarClear(w, names, sizes, y); }
    }
  }

  // An initializer pins the size of an unsized array to the literal's, and flows into no pinned size.
  lemma DoInitClear(w: Walk, x: string, ty: VarType, c: Ctx, ini: Expr, names: Unsized, sizes: Sizes)
    requires Clear(w, names, sizes) && x in w.vars && w.vars[x] == c && Declares(x, ty, Some(ini), names)
    requires Assigns(ini, names)
    ensures Clear(DoInit(Gen(w, ini).0, ty, c, ini, Gen(w, ini).1), names, sizes)
  {
    assert VarClear(w, names, sizes, x);
    GenClear(w, ini, names, sizes);
    var (w1, src) := Gen(w, ini);
    FlowClear(w1.sys, c, src, sizes);
    if ty.CharArray? && c.CStr? && ini.StrConst? {
      if ty.size.Some? {
        var written := if |ini.s| + 1 < ty.size.value then |ini.s| + 1 else ty.size.value;
        IncludeClear(w1.sys, Constant(written), c.len, sizes);
      } else {
        var s := w1.sys.Equate(c.siz, src.siz);
        PinClearly(w1.sys, c.siz, names[x], sizes);
        FlowClear(s, c, src, sizes);
      }
    }
    SameVarsClear(w1, DoInit(w1, ty, c, ini, src), names, sizes);
  }

  lemma PinClearly(s: Sys, t: Term, n: int, sizes: Sizes)
    requires SysClear(s, sizes) && PinsTo(t, sizes, n)
    ensures SysClear(s.Equate(t, Constant(n)), sizes)
  {
    assert t.SingleVarAny() == Some((0, t.terms[0].v)) && n - 0 == n;
  }

  lemma GenDeclClear(w: Walk, x: string, ty: VarType, ini: Option<Expr>, names: Unsized, sizes: Sizes)
    returns (more: Sizes)
    requires Ready(w) && Clear(w, names, sizes) && Declares(x, ty, ini, names) && OptionAssigns(ini, names)
    ensures Clear(GenDecl(w, x, ty, ini), names, more)
  {
    more := NewVarClear(w, x, ty, names, sizes);
    if ini.Some? {
      var (w1, c) := NewVar(w, x, ty);
      DoInitClear(w1, x, ty, c, ini.value, names, more);
    }
  }

  lemma {:induction false} GenStmtClear(w: Walk, s: Stmt, names: Unsized, sizes: Sizes) returns (more: Sizes)
    requires Ready(w) && Clear(w, names, sizes) && KeepsSizes(s, names)
    ensures Clear(GenStmt(w, s), names, more)
    decreases s, 0
  {
    more := sizes;
    match s
    case Simple(e) => GenClear(w, e, names, sizes);
    case If(c, t, f) =>
      GenClear(w, c, names, sizes);
      GenKeeps(w, c);
      var w1 := Gen(w, c).0;
      more := GenStmtClear(w1, t, names, sizes);
      GenStmtKeeps(w1, t);
      if f.Some? { more := GenStmtClear(GenStmt(w1, t), f.value, names, more); }
    case While(c, body) =>
      GenClear(w, c, names, sizes);
      GenKeeps(w, c);
      more := GenStmtClear(Gen(w, c).0, body, names, sizes);
    case DoWhile(body, c) =>
      GenClear(w, c, names, sizes);
      GenKeeps(w, c);
      more := GenStmtClear(Gen(w, c).0, body, names, sizes);
    case For(ini, test, step, body) =>
      GenOptionClear(w, ini, names, sizes);
      GenOptionKeeps(w, ini);
      var w1 := GenOption(w, ini);
      GenOptionClear(w1, test, names, sizes);
      GenOptionKeeps(w1, test);
      var w2 := GenOption(w1, test);
      GenOptionClear(w2, step, names, sizes);
      GenOptionKeeps(w2, step);
      more := GenStmtClear(GenOption(w2, step), body, names, sizes);
    case Block(items) => more := GenBlockClear(w, items, names, sizes);
    case Decl(x, ty, ini) => more := GenDeclClear(w, x, ty, ini, names, sizes);
    case Break =>
    case Continue =>
  }

  lemma {:induction false} GenBlockClear(w: Walk, items: seq<Stmt>, names: Unsized, sizes: Sizes) returns (more: Sizes)
    requires Ready(w) && Clear(w, names, sizes) && BlockKeepsSizes(items, names)
    ensures Clear(GenBlock(w, items), names, more)
    decreases items, 0
  {
    more := sizes;
    if items != [] {
      more := GenStmtClear(w, items[0], names, sizes);
      GenStmtKeeps(w, items[0]);
      more := GenBlockClear(GenStmt(w, items[0]), items[1..], names, more);
    }
  }

  // ----- locals -----

  ghost predicate LocalFits(names: Unsized, d: (string, VarType)) { d.0 in names ==> d.1 == CharArray(None) }

  ghost predicate LocalsFit(names: Unsized, locals: seq<(string, VarType)>) {
    forall i :: 0 <= i < |locals| ==> LocalFits(names, locals[i])
  }

  lemma {:induction false} StmtLocalsFit(s: Stmt, names: Unsized)
    requires KeepsSizes(s, names)
    ensures LocalsFit(names, Locals(s))
    decreases s, 0
  {
    match s
    case Block(items) => BlockLocalsFit(items, names);
    case If(_, t, f) =>
      StmtLocalsFit(t, names);
      if f.Some? { StmtLocalsFit(f.value, names); }
    case While(_, body) => StmtLocalsFit(body, names);
    case DoWhile(body, _) => StmtLocalsFit(body, names);
    case For(_, _, _, body) => StmtLocalsFit(body, names);
    case _ =>
  }

  lemma {:induction false} BlockLocalsFit(items: seq<Stmt>, names: Unsized)
    requires BlockKeepsSizes(items, names)
    ensures LocalsFit(names, BlockLocals(items))
    decreases items, 0
  {
    if items != [] {
      StmtLocalsFit(items[0], names);
      BlockLocalsFit(items[1..], names);
    }
  }

  lemma {:induction false} DeclareLocalsClear(w: Walk, locals: seq<(string, VarType)>, names: Unsized, sizes: Sizes)
    returns (more: Sizes)
    requires Ready(w) && Clear(w, names, sizes) && LocalsFit(names, locals)
    ensures Clear(DeclareLocals(w, locals), names, more)
    decreases |locals|
  {
    more := sizes;
    if locals != [] {
      assert LocalFits(names, locals[0]);
      more := NewVarClear(w, locals[0].0, locals[0].1, names, sizes);
      NewVarKeeps(w, locals[0].0, locals[0].1);
      forall i | 0 <= i < |locals[1..]| ensures LocalFits(names, locals[1..][i]) {
        assert LocalFits(names, locals[i + 1]);
      }
      more := DeclareLocalsClear(NewVar(w, locals[0].0, locals[0].1).0, locals[1..], names, more);
    }
  }

  lemma GenBodyClear(body: seq<Stmt>, names: Unsized) returns (sizes: Sizes)
    requires BlockKeepsSizes(body, names)
    ensures SysClear(GenBody(body).sys, sizes)
  {
    var w, locals := Walk(NEW, map[], map[], 0), BlockLocals(body);
    assert Identity(0) == [];
    BlockLocalsFit(body, names);
    sizes := DeclareLocalsClear(w, locals, names, map[]);
    DeclareLocalsKeeps(w, locals);
    sizes := GenBlockClear(DeclareLocals(w, locals), body, names, sizes);
  }

  lemma PinOfClass(s: Sys, sizes: Sizes, v: VarId)
    requires s.Valid() && SysClear(s, sizes) && Pin(s.Snapshot(), v).Some?
    ensures Pin(s.Snapshot(), v).value == if v in sizes then Singleton(sizes[v]) else TOP
  {
    var p := s.Snapshot();
    PinIsListed(p, p.fixed, v);
    var i :| 0 <= i < |p.fixed| && p.canon[p.fixed[i].0] == v && p.fixed[i].1 == Pin(p, v).value;
    assert PinClear(s.fixed[i], sizes);
  }
}
