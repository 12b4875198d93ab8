/**
 The walker itself (src/walk.rs): an object that owns the constraint system and the table of variable contexts and
 updates both as it visits a program. Every method is proved to change its state, and to return, exactly what the
 generating functions say.
 */
module Walker {
  import opened Terms
  import opened Systems
  import opened Syntax
  import opened Formats
  import opened Generator
  import opened Walks
  import ConstraintSystem

  class Walker {
    const sys: ConstraintSystem.System
    var vars: map<string, Ctx>
    var types: map<string, VarType>
    var allocs: nat

    ghost function View(): Walk
      reads this, sys
    {
      Walk(sys.View(), vars, types, allocs)
    }

    ghost predicate Valid()
      reads this, sys
    {
      sys.Valid() && Ready(View())
    }

    constructor ()
      ensures Valid() && fresh(sys) && View() == Walk(NEW, map[], map[], 0)
    {
      sys := new ConstraintSystem.System();
      vars, types, allocs := map[], map[], 0;
    }

    // ----- contexts -----

    method FreshStr(name: Option<string>) returns (c: Ctx)
      requires sys.Valid()
      modifies sys
      ensures sys.Valid() && (sys.View(), c) == Generator.FreshStr(old(sys.View()), name)
    {
      FreshStrGrows(sys.View(), name);
      var siz := sys.Fresh(if name.Some? then Some("siz(" + name.value + ")") else None);
      var len := sys.Fresh(if name.Some? then Some("len(" + name.value + ")") else None);
      sys.QueryGe(siz, len, Overflow(if name.Some? then name.value else "(unnamed)"));
      c := CStr(siz, len);
    }

    /** String lengths grow without bound: `1 ⊆ t` and `t + 1 ⊆ t`. */
    method ForceLenTop(t: Term)
      requires sys.Valid() && t.VarsBelow(sys.View().Size())
      modifies sys
      ensures sys.Valid() && sys.View() == old(sys.View()).ForceTop(t)
    {
      ArithmeticVarsBelow(t, Constant(1), 0, sys.View().Size());
      sys.Subset(Constant(1), t);
      var t1 := t.Add(Constant(1));
      sys.Subset(t1, t);
    }

    method FreshVarCtx(ty: VarType, name: string) returns (c: Ctx)
      requires sys.Valid()
      modifies sys
      ensures sys.Valid() && (sys.View(), c) == Generator.FreshVarCtx(old(sys.View()), ty, name)
    {
      FreshStrGrows(sys.View(), Some(name));
      match ty
      case CharArray(size) =>
        c := FreshStr(Some(name));
        if size.Some? { sys.Subset(Constant(size.value), c.siz); }
      case CharPointer => c := FreshStr(Some(name));
      case IntType =>
        var t := sys.Fresh(Some(name));
        c := CInt(t);
      case OtherType => c := CNone;
    }

    /** The context of a variable, created when it is first seen. */
    method NewVar(x: string, ty: VarType) returns (c: Ctx)
      requires Valid()
      modifies this, sys
      ensures Valid() && (View(), c) == Generator.NewVar(old(View()), x, ty) && CtxBelow(c, sys.View().Size())
    {
      NewVarKeeps(View(), x, ty);
      if x in vars { return vars[x]; }
      c := FreshVarCtx(ty, x);
      vars, types := vars[x := c], types[x := ty];
    }

    method FreshAllocStr() returns (c: Ctx)
      requires Valid()
      modifies this`allocs, sys
      ensures Valid() && (View(), c) == Generator.FreshAllocStr(old(View())) && CtxBelow(c, sys.View().Size())
    {
      AllocKeeps(View());
      var id := allocs;
      allocs := allocs + 1;
      c := FreshStr(Some("alloc@" + Decimal(id)));
    }

    // ----- assignment -----

    /** The effect of `dst = src`. */
    method Assign(dst: Ctx, src: Ctx)
      requires Valid() && CtxBelow(dst, sys.View().Size()) && CtxBelow(src, sys.View().Size())
      modifies sys
      ensures Valid() && View() == old(View()).With(Flow(old(sys.View()), dst, src))
    {
      FlowKeeps(View(), dst, src);
      match (dst, src)
      case (CInt(d), CInt(t)) => sys.Subset(t, d);
      case (CStr(ds, dl), CStr(ss, sl)) =>
        sys.Subset(sl, dl);
        sys.Subset(ss, ds);
      case _ =>
    }

    /** Assignment in an initializer: the size of a string is fixed by its declaration. */
    method AssignInit(dst: Ctx, src: Ctx)
      requires Valid() && CtxBelow(dst, sys.View().Size()) && CtxBelow(src, sys.View().Size())
      modifies sys
      ensures Valid() && View() == old(View()).With(FlowInit(old(sys.View()), dst, src))
    {
      FlowKeeps(View(), dst, src);
      if dst.CStr? && src.CStr? {
        sys.Subset(src.len, dst.len);
      } else {
        Assign(dst, src);
      }
    }

    // ----- library calls -----

    // `fgets`: the length runs from 1 to the bound.
    method ReadBounded(dst: Ctx, bound: Term) returns (c: Option<Ctx>)
      requires Valid() && dst.CStr? && CtxBelow(dst, sys.View().Size()) && bound.VarsBelow(sys.View().Size())
      modifies this`allocs, sys
      ensures sys.Valid() && c == Some(dst) && vars == old(vars) && types == old(types)
      ensures View() == old(View()).With(old(sys.View()).Include(Constant(1), dst.len).Include(bound, dst.len))
    {
      IncludeGrows(sys.View(), Constant(1), dst.len);
      IncludeGrows(sys.View().Include(Constant(1), dst.len), bound, dst.len);
      sys.Subset(Constant(1), dst.len);
      sys.Subset(bound, dst.len);
      c := Some(dst);
    }

    // `getenv`: size and length are one variable, unbounded above.
    method LookUp() returns (c: Option<Ctx>)
      requires Valid()
      modifies this`allocs, sys
      ensures Valid() && (View(), c) == Generator.CheckStrOp(old(View()), Getenv, [])
    {
      CheckStrOpKeeps(View(), Getenv, []);
      FreshGrows(sys.View(), Some("@getenv_return"));
      var t := sys.Fresh(Some("@getenv_return"));
      ForceLenTop(t);
      c := Some(CStr(t, t));
    }

    // The routines that copy one string into another.
    method CheckCopy(f: Routine, args: seq<Ctx>) returns (c: Option<Ctx>)
      requires Valid() && AllBelow(args, sys.View().Size()) && f in {Strcpy, Strcat, Strncpy, Strncat}
      modifies this`allocs, sys
      ensures Valid() && (View(), c) == Generator.CheckStrOp(old(View()), f, args)
    {
      CheckStrOpKeeps(View(), f, args);
      var n := |args|;
      c := None;
      if f == Strcpy {
        if n == 2 && args[0].CStr? && args[1].CStr? { c := CopyAll(args[0], args[1], args[1]); }
      } else if f == Strcat {
        if n == 2 && args[0].CStr? && args[1].CStr? { c := CopyAll(args[0], args[1], args[0]); }
      } else if f == Strncpy {
        if n == 3 && args[0].CStr? && args[1].CStr? && args[2].CInt? { c := CopyBounded(args[0], args[1], args[2].t); }
      } else {
        if n == 3 && args[0].CStr? && args[1].CStr? && args[2].CInt? { c := Concatenate(args[0], args[1], args[2].t); }
      }
    }

    // The routines that read a string from outside the program.
    method CheckRead(f: Routine, args: seq<Ctx>) returns (c: Option<Ctx>)
      requires Valid() && AllBelow(args, sys.View().Size()) && f in {Fgets, Gets, Getenv, Gethostname}
      modifies this`allocs, sys
      ensures Valid() && (View(), c) == Generator.CheckStrOp(old(View()), f, args)
    {
      CheckStrOpKeeps(View(), f, args);
      var n := |args|;
      c := None;
      if f == Fgets {
        if n == 3 && args[0].CStr? && args[1].CInt? { c := ReadBounded(args[0], args[1].t); }
      } else if f == Gets {
        if n == 1 && args[0].CStr? {
          ForceLenTop(args[0].len);
          c := Some(args[0]);
        }
      } else if f == Getenv {
        c := LookUp();
      } else {
        if n == 2 && args[0].CStr? && args[1].CInt? {
          sys.Subset(args[1].t, args[0].len);
          c := Some(CNone);
        }
      }
    }

    method CheckStrOp(f: Routine, args: seq<Ctx>) returns (c: Option<Ctx>)
      requires Valid() && AllBelow(args, sys.View().Size())
      modifies this`allocs, sys
      ensures Valid() && (View(), c) == Generator.CheckStrOp(old(View()), f, args)
    {
      if f in {Strcpy, Strcat, Strncpy, Strncat} {
        c := CheckCopy(f, args);
      } else if f in {Fgets, Gets, Getenv, Gethostname} {
        c := CheckRead(f, args);
      } else {
        c := CheckOther(f, args);
      }
    }

    method CheckOther(f: Routine, args: seq<Ctx>) returns (c: Option<Ctx>)
      requires Valid() && AllBelow(args, sys.View().Size())
      requires f !in {Strcpy, Strcat, Strncpy, Strncat, Fgets, Gets, Getenv, Gethostname}
      modifies this`allocs, sys
      ensures Valid() && (View(), c) == Generator.CheckStrOp(old(View()), f, args)
    {
      CheckStrOpKeeps(View(), f, args);
      var n := |args|;
      c := None;
      match f
      case Strlen =>
        if n == 1 && args[0].CStr? {
          var t := args[0].len.Sub(Constant(1));
          c := Some(CInt(t));
        }
      case Strspn => if n == 1 && args[0].CStr? { c := Span(args[0]); }
      case Strdup => if n == 1 && args[0].CStr? { c := Duplicate(args[0]); }
      case Malloc => if n == 1 && args[0].CInt? { c := Allocate(args[0].t); }
      case Strchr =>
        if n == 2 && args[0].CStr? {
          var found := Merge(CStr(Constant(1), Constant(1)), args[0]);
          c := Some(found);
        }
      case Syserror => c := StatusOf("@syserror_return", 48);
      case Syssignal => c := StatusOf("@syssignal_return", 25);
      case Printf => c := Some(CNone);
      case _ =>
    }

    // A fresh integer that may be 0 or the largest status.
    method StatusOf(name: string, most: int) returns (c: Option<Ctx>)
      requires Valid()
      modifies sys
      ensures sys.Valid() && (View(), c) == Status(old(View()), name, most)
    {
      ghost var v := sys.View().Size();
      FreshGrows(sys.View(), Some(name));
      var t := sys.Fresh(Some(name));
      SeedIsInclude(sys.View(), 0, v);
      sys.Subset(Constant(0), t);
      SeedIsInclude(sys.View(), most, v);
      sys.Subset(Constant(most), t);
      c := Some(CInt(t));
    }

    method CopyAll(dst: Ctx, src: Ctx, result: Ctx) returns (c: Option<Ctx>)
      requires Valid() && dst.CStr? && src.CStr? && CtxBelow(dst, sys.View().Size()) && CtxBelow(src, sys.View().Size())
      modifies sys
      ensures sys.Valid() && sys.View() == old(sys.View()).Include(src.len, dst.len) && c == Some(result)
    {
      sys.Subset(src.len, dst.len);
      c := Some(result);
    }

    method CopyBounded(dst: Ctx, src: Ctx, n: Term) returns (c: Option<Ctx>)
      requires Valid() && dst.CStr? && src.CStr? && CtxBelow(dst, sys.View().Size()) && CtxBelow(src, sys.View().Size())
      requires n.VarsBelow(sys.View().Size())
      modifies sys
      ensures var (s1, m) := old(sys.View()).MinOf(src.len, n);
              sys.Valid() && sys.View() == s1.Include(m, dst.len) && c == Some(dst)
    {
      MinGrows(sys.View(), src.len, n);
      BelowMore(dst, sys.View().Size(), sys.View().MinOf(src.len, n).0.Size());
      var m := sys.Min(src.len, n);
      sys.Subset(m, dst.len);
      c := Some(dst);
    }

    method Concatenate(dst: Ctx, src: Ctx, n: Term) returns (c: Option<Ctx>)
      requires Valid() && dst.CStr? && src.CStr? && CtxBelow(dst, sys.View().Size()) && CtxBelow(src, sys.View().Size())
      requires n.VarsBelow(sys.View().Size())
      modifies sys
      ensures var (s1, m) := old(sys.View()).MinOf(src.len.Minus(Constant(1)), n);
              sys.Valid() && sys.View() == s1.Include(m.Plus(dst.len), dst.len) && c == Some(dst)
    {
      ArithmeticVarsBelow(src.len, Constant(1), 0, sys.View().Size());
      var shown := src.len.Sub(Constant(1));
      MinGrows(sys.View(), shown, n);
      BelowMore(dst, sys.View().Size(), sys.View().MinOf(shown, n).0.Size());
      var m := sys.Min(shown, n);
      ArithmeticVarsBelow(m, dst.len, 0, sys.View().Size());
      var total := m.Add(dst.len);
      sys.Subset(total, dst.len);
      c := Some(dst);
    }

    method Span(s: Ctx) returns (c: Option<Ctx>)
      requires Valid() && s.CStr? && CtxBelow(s, sys.View().Size())
      modifies sys
      ensures var (s1, t) := old(sys.View()).UnionOf(Constant(0), s.len.Minus(Constant(1)));
              sys.Valid() && sys.View() == s1 && c == Some(CInt(t))
    {
      ArithmeticVarsBelow(s.len, Constant(1), 0, sys.View().Size());
      var lm1 := s.len.Sub(Constant(1));
      var t := sys.UnionTerm(Constant(0), lm1);
      c := Some(CInt(t));
    }

    method Duplicate(src: Ctx) returns (c: Option<Ctx>)
      requires Valid() && src.CStr? && CtxBelow(src, sys.View().Size())
      modifies this`allocs, sys
      ensures sys.Valid() && c.Some? && vars == old(vars) && types == old(types)
      ensures var (w1, d) := Generator.FreshAllocStr(old(View()));
              View() == w1.With(w1.sys.Include(src.len, d.siz).Include(src.len, d.len)) && c == Some(d)
    {
      BelowMore(src, sys.View().Size(), Generator.FreshAllocStr(View()).0.sys.Size()) by { AllocKeeps(View()); }
      var d := FreshAllocStr();
      AllocKeeps(old(View()));
      sys.Subset(src.len, d.siz);
      sys.Subset(src.len, d.len);
      c := Some(d);
    }

    method Allocate(n: Term) returns (c: Option<Ctx>)
      requires Valid() && n.VarsBelow(sys.View().Size())
      modifies this`allocs, sys
      ensures sys.Valid() && c.Some? && vars == old(vars) && types == old(types)
      ensures var (w1, d) := Generator.FreshAllocStr(old(View()));
              View() == w1.With(w1.sys.Include(n, d.siz)) && c == Some(d)
    {
      BelowMoreTerm(n, sys.View().Size(), Generator.FreshAllocStr(View()).0.sys.Size()) by { AllocKeeps(View()); }
      var d := FreshAllocStr();
      AllocKeeps(old(View()));
      sys.Subset(n, d.siz);
      c := Some(d);
    }

    // ----- printf lengths -----

    method SkipFlagsAndModifiers(f: string, i: nat) returns (j: nat)
      requires i <= |f|
      ensures j == SkipModifiers(f, i)
    {
      j := i;
      while j < |f| && IsSkipped(f[j])
        invariant i <= j <= |f| && SkipModifiers(f, i) == SkipModifiers(f, j)
      {
        j := j + 1;
      }
    }

    /** Read an optional width or precision; `*` consumes an integer argument. */
    method ReadNum(f: string, i: nat, pl: seq<Ctx>, k: nat) returns (r: NumTerm)
      requires i <= |f|
      ensures r == Generator.ReadNum(f, i, pl, k)
    {
      if i < |f| && f[i] == '*' {
        return NumTerm(if k < |pl| && pl[k].CInt? then Some(pl[k].t) else None, i + 1, k + 1);
      }
      var j: nat, n: nat := i, 0;
      while j < |f| && IsDigit(f[j])
        invariant i <= j <= |f| && DigitsEnd(f, i) == DigitsEnd(f, j)
        invariant (forall d :: i <= d < j ==> IsDigit(f[d])) && n == DigitsValue(f, i, j)
      {
        n := 10 * n + (f[j] as int - '0' as int);
        j := j + 1;
      }
      r := if j > i then NumTerm(Some(Constant(if n <= I64_MAX then n else 0)), j, k) else NumTerm(None, i, k);
    }

    // A precision, where a dot announces one.
    method ReadPrecision(f: string, i: nat, pl: seq<Ctx>, k: nat) returns (r: NumTerm)
      requires i <= |f| && AllBelow(pl, sys.View().Size())
      ensures r == if i < |f| && f[i] == '.' then Generator.ReadNum(f, i + 1, pl, k) else NumTerm(None, i, k)
      ensures r.next <= |f| && (r.value.Some? ==> r.value.value.VarsBelow(sys.View().Size()))
    {
      r := NumTerm(None, i, k);
      if i < |f| && f[i] == '.' {
        r := ReadNum(f, i + 1, pl, k);
        ReadNumBelow(f, i + 1, pl, k, sys.View().Size());
      }
    }

    method FmtScan(f: string, i: nat, pl: seq<Ctx>, k: nat) returns (t: Term)
      requires sys.Valid() && AllBelow(pl, sys.View().Size()) && i <= |f|
      modifies sys
      ensures sys.Valid() && (sys.View(), t) == Generator.FmtScan(old(sys.View()), f, i, pl, k)
      decreases |f| - i, 0
    {
      if i >= |f| { return Constant(1); }
      if f[i] == '%' {
        if i + 1 >= |f| { return Constant(2); }
        if f[i + 1] == '%' {
          var rest := FmtScan(f, i + 2, pl, k);
          t := Constant(1).Add(rest);
        } else {
          t := ExpandPercent(f, i + 1, pl, k);
        }
      } else {
        var rest := FmtScan(f, i + 1, pl, k);
        t := Constant(1).Add(rest);
      }
    }

    method ExpandPercent(f: string, i: nat, pl: seq<Ctx>, k: nat) returns (t: Term)
      requires sys.Valid() && AllBelow(pl, sys.View().Size()) && i <= |f|
      modifies sys
      ensures sys.Valid() && (sys.View(), t) == Generator.ExpandPercent(old(sys.View()), f, i, pl, k)
      decreases |f| - i, 2
    {
      var at := SkipFlagsAndModifiers(f, i);
      var width := ReadNum(f, at, pl, k);
      ReadNumBelow(f, at, pl, k, sys.View().Size());
      var prec := ReadPrecision(f, width.next, pl, width.used);
      if prec.next >= |f| { return Constant(1); }
      t := ExpandConv(f[prec.next], width.value, prec.value, f, prec.next + 1, pl, prec.used);
    }

    method ExpandConv(c: char, width: Option<Term>, prec: Option<Term>, f: string, next: nat, pl: seq<Ctx>, k: nat)
      returns (t: Term)
      requires sys.Valid() && AllBelow(pl, sys.View().Size()) && next <= |f|
      requires (width.Some? ==> width.value.VarsBelow(sys.View().Size()))
               && (prec.Some? ==> prec.value.VarsBelow(sys.View().Size()))
      modifies sys
      ensures sys.Valid() && (sys.View(), t) == Generator.ExpandConv(old(sys.View()), c, width, prec, f, next, pl, k)
      decreases |f| - next, 1
    {
      ConvTermGrows(sys.View(), c, width, prec, pl, k);
      AllBelowMore(pl, sys.View().Size(), Generator.ConvTerm(sys.View(), c, width, prec, pl, k).0.Size());
      var body, takes := Conversion(c, width, prec, pl, k);
      var rest := FmtScan(f, next, pl, if takes then k + 1 else k);
      t := body.Add(rest);
    }

    // The term of one conversion, and whether it takes an argument.
    method Conversion(c: char, width: Option<Term>, prec: Option<Term>, pl: seq<Ctx>, k: nat)
      returns (body: Term, takes: bool)
      requires sys.Valid() && AllBelow(pl, sys.View().Size())
      requires (width.Some? ==> width.value.VarsBelow(sys.View().Size()))
               && (prec.Some? ==> prec.value.VarsBelow(sys.View().Size()))
      modifies sys
      ensures sys.Valid() && (sys.View(), body, takes) == ConvTerm(old(sys.View()), c, width, prec, pl, k)
    {
      if c == 's' {
        body := StringConversion(width, prec, pl, k);
        takes := true;
      } else if c in {'d', 'i', 'x', 'X', 'u', 'U'} || c == 'p' {
        body := sys.UnionTerm(Constant(1), Constant(20));
        takes := true;
      } else if c == 'o' {
        body := sys.UnionTerm(Constant(1), Constant(22));
        takes := true;
      } else if c == 'c' {
        body, takes := Constant(1), true;
      } else if c in {'e', 'E', 'f', 'g', 'G'} {
        body := sys.UnionTerm(Constant(1), Constant(32));
        takes := true;
      } else {
        body, takes := Constant(1), false;
      }
    }

    method StringLength(pl: seq<Ctx>, k: nat) returns (n: Term)
      requires sys.Valid() && AllBelow(pl, sys.View().Size())
      modifies sys
      ensures sys.Valid() && (sys.View(), n) == StringArg(old(sys.View()), pl, k)
      ensures old(sys.View()).Size() <= sys.View().Size() && n.VarsBelow(sys.View().Size())
    {
      StringArgGrows(sys.View(), pl, k);
      if k < |pl| && pl[k].CStr? {
        n := pl[k].len.Sub(Constant(1));
      } else {
        n := sys.Fresh(None);
        ForceLenTop(n);
      }
    }

    method StringConversion(width: Option<Term>, prec: Option<Term>, pl: seq<Ctx>, k: nat) returns (body: Term)
      requires sys.Valid() && AllBelow(pl, sys.View().Size())
      requires (width.Some? ==> width.value.VarsBelow(sys.View().Size()))
               && (prec.Some? ==> prec.value.VarsBelow(sys.View().Size()))
      modifies sys
      ensures sys.Valid() && (sys.View(), body, true) == ConvTerm(old(sys.View()), 's', width, prec, pl, k)
    {
      ghost var size := sys.View().Size();
      var n := StringLength(pl, k);
      var n1 := n;
      ghost var s1 := sys.View();
      if prec.Some? {
        BelowMoreTerm(prec.value, size, s1.Size());
        MinGrows(s1, prec.value, n);
        n1 := sys.Min(prec.value, n);
      }
      body := n1;
      if width.Some? {
        BelowMoreTerm(width.value, size, sys.View().Size());
        BelowMoreTerm(n, s1.Size(), sys.View().Size());
        body := sys.UnionTerm(width.value, n);
      }
    }

    method DoSprintf(args: seq<Expr>, ctxs: seq<Ctx>) returns (c: Ctx)
      requires Valid() && |ctxs| == |args| && AllBelow(ctxs, sys.View().Size())
      modifies sys
      ensures Valid() && (View(), c) == ModelSprintf(old(View()), args, ctxs)
    {
      SprintfKeeps(View(), args, ctxs);
      if |args| >= 2 && args[1].StrConst? && ctxs[0].CStr? {
        DropBelow(ctxs, 2, sys.View().Size());
        FmtScanGrows(sys.View(), args[1].s, 0, Drop(ctxs, 2), 0);
        BelowMore(ctxs[0], sys.View().Size(), ParseFmt(sys.View(), args[1].s, Drop(ctxs, 2)).0.Size());
        var parsed := FmtScan(args[1].s, 0, Drop(ctxs, 2), 0);
        sys.Subset(parsed, ctxs[0].len);
        c := ctxs[0];
      } else if |ctxs| >= 1 && ctxs[0].CStr? {
        ForceLenTop(ctxs[0].len);
        c := ctxs[0];
      } else {
        c := CNone;
      }
    }

    method DoSnprintf(args: seq<Expr>, ctxs: seq<Ctx>) returns (c: Ctx)
      requires Valid() && |ctxs| == |args| && AllBelow(ctxs, sys.View().Size())
      modifies sys
      ensures Valid() && (View(), c) == ModelSnprintf(old(View()), args, ctxs)
    {
      SnprintfKeeps(View(), args, ctxs);
      if |args| >= 3 && args[2].StrConst? && ctxs[0].CStr? {
        DropBelow(ctxs, 3, sys.View().Size());
        FmtScanGrows(sys.View(), args[2].s, 0, Drop(ctxs, 3), 0);
        ghost var s1 := ParseFmt(sys.View(), args[2].s, Drop(ctxs, 3)).0;
        BelowMore(ctxs[0], sys.View().Size(), s1.Size());
        BelowMore(ctxs[1], sys.View().Size(), s1.Size());
        var parsed := FmtScan(args[2].s, 0, Drop(ctxs, 3), 0);
        if ctxs[1].CInt? {
          MinGrows(s1, parsed, ctxs[1].t);
          BelowMore(ctxs[0], s1.Size(), s1.MinOf(parsed, ctxs[1].t).0.Size());
          var m := sys.Min(parsed, ctxs[1].t);
          sys.Subset(m, ctxs[0].len);
        } else {
          sys.Subset(parsed, ctxs[0].len);
        }
        c := ctxs[0];
      } else {
        c := CNone;
      }
    }

    // ----- expressions -----

    /** A fresh integer in 0..1. */
    method BoolTerm() returns (t: Term)
      requires Valid()
      modifies sys
      ensures Valid() && View() == old(View()).With(Generator.BoolTerm(old(sys.View())).0)
      ensures t == Generator.BoolTerm(old(sys.View())).1 && t.VarsBelow(sys.View().Size())
    {
      BoolGrows(View());
      ghost var v := sys.View().Size();
      t := sys.Fresh(None);
      SeedIsInclude(sys.View(), 0, v);
      sys.Subset(Constant(0), t);
      SeedIsInclude(sys.View(), 1, v);
      sys.Subset(Constant(1), t);
    }

    method Combine(op: BinOp, a: Ctx, b: Ctx) returns (c: Ctx)
      requires Valid() && CtxBelow(a, sys.View().Size()) && CtxBelow(b, sys.View().Size())
      modifies sys
      ensures Valid() && (View(), c) == Generator.Combine(old(View()), op, a, b) && CtxBelow(c, sys.View().Size())
    {
      CombineKeeps(View(), op, a, b);
      if a.CInt? && b.CInt? {
        var t: Term;
        match op {
          case Add => t := a.t.Add(b.t);
          case Sub => t := a.t.Sub(b.t);
          case Mul => t := sys.Mul(a.t, b.t);
          case Div => t := sys.Top();
          case _ => t := BoolTerm();
        }
        c := CInt(t);
      } else if op == Add && a.CStr? && b.CInt? {
        c := Advance(a, b.t);
      } else {
        c := CNone;
      }
    }

    method Merge(a: Ctx, b: Ctx) returns (c: Ctx)
      requires Valid() && CtxBelow(a, sys.View().Size()) && CtxBelow(b, sys.View().Size())
      modifies sys
      ensures Valid() && View() == old(View()).With(Generator.Merge(old(sys.View()), a, b).0)
      ensures c == Generator.Merge(old(sys.View()), a, b).1 && CtxBelow(c, sys.View().Size())
    {
      MergeGrows(sys.View(), a, b);
      GrownSystem(View(), Generator.Merge(sys.View(), a, b).0);
      if a.CInt? && b.CInt? {
        var t := sys.UnionTerm(a.t, b.t);
        c := CInt(t);
      } else if a.CStr? && b.CStr? {
        c := MergeStrings(a, b);
      } else {
        c := CNone;
      }
    }

    // Two strings flow into a fresh one.
    method MergeStrings(a: Ctx, b: Ctx) returns (c: Ctx)
      requires sys.Valid() && a.CStr? && b.CStr? && CtxBelow(a, sys.View().Size()) && CtxBelow(b, sys.View().Size())
      modifies sys
      ensures sys.Valid() && (sys.View(), c) == Generator.Merge(old(sys.View()), a, b)
    {
      FreshStrGrows(sys.View(), None);
      BelowMore(a, sys.View().Size(), Generator.FreshStr(sys.View(), None).0.Size());
      BelowMore(b, sys.View().Size(), Generator.FreshStr(sys.View(), None).0.Size());
      c := FreshStr(None);
      sys.Subset(a.siz, c.siz);
      sys.Subset(b.siz, c.siz);
      sys.Subset(a.len, c.len);
      sys.Subset(b.len, c.len);
    }

    method WalkExpr(e: Expr) returns (c: Ctx)
      requires Valid()
      modifies this, sys
      ensures Valid() && (View(), c) == Gen(old(View()), e) && CtxBelow(c, sys.View().Size())
      decreases e, 1
    {
      match e
      case Var(x) => c := NewVar(x, OtherType);
      case IntConst(n) => c := CInt(Constant(n));
      case CharConst => c := CNone;
      case StrConst(s) => c := CStr(Constant(|s| + 1), Constant(|s| + 1));
      case OtherConst => c := CNone;
      case Conditional(cond, a, b) =>
        var _ := WalkExpr(cond);
        var x := WalkExpr(a);
        GenKeeps(View(), b);
        CarryBelow(View(), Gen(View(), b).0, x);
        var y := WalkExpr(b);
        c := Merge(x, y);
      case Call(f, args) => c := WalkCall(e);
      case Unary(op, a) => c := WalkUnary(e);
      case Binary(op, a, b) =>
        var x := WalkExpr(a);
        GenKeeps(View(), b);
        CarryBelow(View(), Gen(View(), b).0, x);
        var y := WalkExpr(b);
        c := Combine(op, x, y);
      case Assign(l, op, r) => c := WalkAssignment(e);
      case Comma(a, b) =>
        var _ := WalkExpr(a);
        c := WalkExpr(b);
    }

    method WalkCall(e: Expr) returns (c: Ctx)
      requires Valid() && e.Call?
      modifies this, sys
      ensures Valid() && (View(), c) == Gen(old(View()), e) && CtxBelow(c, sys.View().Size())
      decreases e, 0
    {
      var _ := NewVar(e.callee, OtherType);
      var ctxs := WalkArgs(e.args);
      CallKept(View(), e.callee, e.args, ctxs);
      match RoutineOf(e.callee)
      case Sprintf => c := DoSprintf(e.args, ctxs);
      case Snprintf => c := DoSnprintf(e.args, ctxs);
      case r =>
        var known := CheckStrOp(r, ctxs);
        c := OrNone(known);
    }

    method WalkArgs(args: seq<Expr>) returns (cs: seq<Ctx>)
      requires Valid()
      modifies this, sys
      ensures Valid() && (View(), cs) == GenArgs(old(View()), args) && |cs| == |args| && AllBelow(cs, sys.View().Size())
      decreases args, 0
    {
      GenArgsKeep(View(), args);
      if args == [] { return []; }
      var c := WalkExpr(args[0]);
      var rest := WalkArgs(args[1..]);
      cs := [c] + rest;
    }

    method WalkUnary(e: Expr) returns (c: Ctx)
      requires Valid() && e.Unary?
      modifies this, sys
      ensures Valid() && (View(), c) == Gen(old(View()), e) && CtxBelow(c, sys.View().Size())
      decreases e, 0
    {
      GenKeeps(View(), e);
      match e.uop
      case Neg =>
        c := WalkExpr(e.arg);
        c := if c.CInt? then CInt(c.t.Negate()) else CNone;
      case Not =>
        var _ := WalkExpr(e.arg);
        var t := BoolTerm();
        c := CInt(t);
      case BitNot => c := WalkExpr(e.arg);
      case PreInc => c := Update(e.arg, Add);
      case PostInc => c := Update(e.arg, Add);
      case PreDec => c := Update(e.arg, Sub);
      case PostDec => c := Update(e.arg, Sub);
    }

    // `a op= 1`
    method Update(a: Expr, op: BinOp) returns (c: Ctx)
      requires Valid()
      modifies this, sys
      ensures Valid() && (View(), c) == Generator.Update(old(View()), a, op)
      decreases a, 2
    {
      var dst := WalkExpr(a);
      GenKeeps(View(), a);
      CarryBelow(View(), Gen(View(), a).0, dst);
      var x := WalkExpr(a);
      CombineKeeps(View(), op, x, CInt(Constant(1)));
      CarryBelow(View(), Generator.Combine(View(), op, x, CInt(Constant(1))).0, dst);
      c := Combine(op, x, CInt(Constant(1)));
      Assign(dst, c);
    }

    method WalkAssignment(e: Expr) returns (c: Ctx)
      requires Valid() && e.Assign?
      modifies this, sys
      ensures Valid() && (View(), c) == Gen(old(View()), e) && CtxBelow(c, sys.View().Size())
      decreases e, 0
    {
      GenKeeps(View(), e);
      var dst := WalkExpr(e.lhs);
      ghost var w1 := View();
      c := WalkSource(e);
      CarryBelow(w1, View(), dst) by { SourceLater(w1, e); }
      Assign(dst, c);
    }

    // The right-hand side, combined with the left-hand side if there is an operator.
    method WalkSource(e: Expr) returns (c: Ctx)
      requires Valid() && e.Assign?
      modifies this, sys
      ensures Valid() && (View(), c) == Source(old(View()), e) && CtxBelow(c, sys.View().Size())
      decreases e, 0, 0
    {
      if e.aop.None? {
        c := WalkExpr(e.rhs);
      } else {
        var x := WalkExpr(e.lhs);
        GenKeeps(View(), e.rhs);
        CarryBelow(View(), Gen(View(), e.rhs).0, x);
        var y := WalkExpr(e.rhs);
        c := Combine(e.aop.value, x, y);
      }
    }

    static function Source(w: Walk, e: Expr): (Walk, Ctx)
      requires e.Assign?
    {
      if e.aop.None? then Gen(w, e.rhs)
      else
        var (v1, x) := Gen(w, e.lhs);
        var (v2, y) := Gen(v1, e.rhs);
        Generator.Combine(v2, e.aop.value, x, y)
    }

    static lemma SourceLater(w: Walk, e: Expr)
      requires Ready(w) && e.Assign?
      ensures Later(w, Source(w, e).0)
    {
      if e.aop.None? {
        GenKeeps(w, e.rhs);
      } else {
        GenKeeps(w, e.lhs);
        var x := Gen(w, e.lhs);
        GenKeeps(x.0, e.rhs);
        CombinedKept(w, e.aop.value, x, Gen(x.0, e.rhs));
      }
    }

    // ----- statements -----

    method WalkOption(e: Option<Expr>)
      requires Valid()
      modifies this, sys
      ensures Valid() && View() == GenOption(old(View()), e)
    {
      if e.Some? { var _ := WalkExpr(e.value); }
    }

    method WalkStmt(s: Stmt)
      requires Valid()
      modifies this, sys
      ensures Valid() && View() == GenStmt(old(View()), s)
      decreases s, 0
    {
      match s
      case Simple(e) => var _ := WalkExpr(e);
      case If(c, t, f) =>
        var _ := WalkExpr(c);
        WalkStmt(t);
        if f.Some? { WalkStmt(f.value); }
      case While(c, body) =>
        var _ := WalkExpr(c);
        WalkStmt(body);
      case DoWhile(body, c) =>
        var _ := WalkExpr(c);
        WalkStmt(body);
      case For(ini, test, step, body) =>
        WalkOption(ini);
        WalkOption(test);
        WalkOption(step);
        WalkStmt(body);
      case Block(items) => WalkBlock(items);
      case Decl(x, ty, ini) => DeclTwo(x, ty, ini);
      case Break =>
      case Continue =>
    }

    method WalkBlock(items: seq<Stmt>)
      requires Valid()
      modifies this, sys
      ensures Valid() && View() == GenBlock(old(View()), items)
      decreases items, 0
    {
      ghost var w := View();
      for i := 0 to |items|
        invariant Valid() && GenBlock(w, items) == GenBlock(View(), items[i..])
      {
        assert items[i..][1..] == items[i + 1..];
        WalkStmt(items[i]);
      }
    }

    /** A variable declaration's initializer. */
    method DeclTwo(x: string, ty: VarType, ini: Option<Expr>)
      requires Valid()
      modifies this, sys
      ensures Valid() && View() == GenDecl(old(View()), x, ty, ini)
    {
      GenDeclKeeps(View(), x, ty, ini);
      var c := NewVar(x, ty);
      if ini.Some? {
        assert VarFits(View(), x);
        GenKeeps(View(), ini.value);
        CarryBelow(View(), Gen(View(), ini.value).0, c);
        var src := WalkExpr(ini.value);
        DoInit(ty, c, ini.value, src);
      }
    }

    method DoInit(ty: VarType, c: Ctx, e: Expr, src: Ctx)
      requires Valid() && CtxBelow(c, sys.View().Size()) && CtxBelow(src, sys.View().Size())
      requires c.CStr? ==> IsVar(c.siz) && IsVar(c.len)
      requires e.StrConst? ==> src == CStr(Constant(|e.s| + 1), Constant(|e.s| + 1))
      modifies sys
      ensures Valid() && View() == Generator.DoInit(old(View()), ty, c, e, src)
    {
      DoInitKeeps(View(), ty, c, e, src);
      if ty.CharArray? && ty.size.Some? {
        if c.CStr? && e.StrConst? {
          var written := if |e.s| + 1 < ty.size.value then |e.s| + 1 else ty.size.value;
          sys.Subset(Constant(written), c.len);
        } else {
          AssignInit(c, src);
        }
      } else if ty.CharArray? && c.CStr? && e.StrConst? && src.CStr? {
        PinKeeps(View(), c, |e.s| + 1);
        GrownSystem(View(), sys.View().Equate(c.siz, src.siz));
        sys.Eq(c.siz, src.siz);
        AssignInit(c, src);
      } else {
        Assign(c, src);
      }
    }

    /** A function body: create its locals, then walk its declarations and statements. */
    method WalkBody(body: seq<Stmt>)
      requires Valid() && View() == Walk(NEW, map[], map[], 0)
      modifies this, sys
      ensures Valid() && View() == GenBody(body)
    {
      ghost var w := View();
      var locals := BlockLocals(body);
      for i := 0 to |locals|
        invariant Valid() && DeclareLocals(w, locals) == DeclareLocals(View(), locals[i..])
      {
        assert locals[i..][1..] == locals[i + 1..];
        var _ := NewVar(locals[i].0, locals[i].1);
      }
      WalkBlock(body);
    }
  }
}
