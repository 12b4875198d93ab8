/**
 Soundness of the generated constraints: every store a run reaches before its first routine outside its guard
 stays inside every straight solution of the constraints generated for the program, whatever order its statements
 run in and however often.
 */
module Soundness {
  import opened Buffers
  import opened Ranges
  import opened Terms
  import opened Systems
  import opened Syntax
  import opened Generator
  import opened Walks
  import opened Printf
  import Runs

  // ----- stores and values inside a solution -----

  ghost predicate IntIn(x: string, n: int, f: Walk, rho: Assignment) {
    x in f.vars && x in f.types && f.types[x] == IntType && f.vars[x].CInt? && Denotes(f.vars[x].t, rho, n)
  }

  ghost predicate BufIn(x: string, b: Buf, f: Walk, rho: Assignment) {
    && x in f.vars && x in f.types && KindOfType(f.types[x]) == KStr && f.vars[x].CStr?
    && Denotes(f.vars[x].siz, rho, b.siz)
    && (b.Len().Some? ==> Denotes(f.vars[x].len, rho, b.Len().value))
    && (b.reach.Some? && b.reach.value > b.siz ==> Denotes(f.vars[x].len, rho, b.reach.value))
  }

  ghost predicate StoreIn(s: Store, f: Walk, rho: Assignment) {
    && (forall x :: x in s.ints ==> IntIn(x, s.ints[x], f, rho))
    && (forall x :: x in s.strs ==> BufIn(x, s.strs[x], f, rho))
  }

  // Every store of the trail and, unless the run is loose, the current one.
  ghost predicate StateIn(st: State, f: Walk, rho: Assignment) {
    (st.loose || StoreIn(st.store, f, rho)) && forall i :: 0 <= i < |st.trail| ==> StoreIn(st.trail[i], f, rho)
  }

  // Term `t` is variable `v` and further slots that come to `-off`.
  ghost predicate MovedBack(t: Term, v: VarId, off: int, rho: Assignment) {
    t.terms != [] && t.terms[0] == Slot(1, v) && Denotes(Term(t.terms[1..], t.konst), rho, -off)
  }

  // A value at an offset of a buffer has the buffer's context, moved by the offset.
  ghost predicate HomeIn(h: Home, c: Ctx, f: Walk, rho: Assignment) {
    h.At? ==>
      && h.x in f.vars && f.vars[h.x].CStr? && IsVar(f.vars[h.x].siz) && IsVar(f.vars[h.x].len) && c.CStr?
      && MovedBack(c.siz, f.vars[h.x].siz.terms[0].v, h.off, rho)
      && MovedBack(c.len, f.vars[h.x].len.terms[0].v, h.off, rho)
  }

  ghost predicate InCtx(v: Value, c: Ctx, f: Walk, rho: Assignment) {
    ArgIn(v, c, rho) && (v.StrV? ==> Denotes(c.siz, rho, v.siz) && HomeIn(v.home, c, f, rho))
  }

  ghost predicate AllInCtx(vs: seq<Value>, cs: seq<Ctx>, f: Walk, rho: Assignment) {
    |vs| == |cs| && forall i :: 0 <= i < |vs| ==> InCtx(vs[i], cs[i], f, rho)
  }

  ghost predicate Good(o: Runs.Outcome, c: Ctx, f: Walk, rho: Assignment) {
    StateIn(o.0, f, rho) && (!o.0.loose && o.1.Some? ==> InCtx(o.1.value, c, f, rho))
  }

  // Nothing that happens to a loose run matters.
  lemma LooseIsGood(st: State, o: Runs.Outcome, c: Ctx, f: Walk, rho: Assignment)
    requires st.loose && StateIn(st, f, rho) && Runs.Onward(st, o.0)
    ensures Good(o, c, f, rho)
  {
  }

  // The walk `f` has everything `w` has, and `rho` solves its constraints.
  ghost predicate Within(w: Walk, f: Walk, rho: Assignment) {
    Later(w, f) && Ready(f) && Solves(rho, f.sys)
  }

  lemma WithinEarlier(v: Walk, w: Walk, f: Walk, rho: Assignment)
    requires Later(v, w) && Within(w, f, rho)
    ensures Within(v, f, rho)
  {
    LaterTransitive(v, w, f);
  }

  lemma SolvedWithin(w: Walk, f: Walk, rho: Assignment)
    requires Within(w, f, rho)
    ensures Solves(rho, w.sys)
  {
    SolvesSmaller(rho, w.sys, f.sys);
  }

  // ----- changing the state -----

  lemma PutIn(st: State, s: Store, f: Walk, rho: Assignment)
    requires StateIn(st, f, rho) && (st.loose || StoreIn(s, f, rho))
    ensures StateIn(st.Put(s), f, rho)
  {
  }

  lemma SetIntIn(st: State, x: string, n: int, f: Walk, rho: Assignment)
    requires StateIn(st, f, rho) && IntIn(x, n, f, rho)
    ensures StateIn(st.SetInt(x, n), f, rho)
  {
    PutIn(st, st.store.(ints := st.store.ints[x := n]), f, rho);
  }

  lemma SetStrIn(st: State, x: string, b: Buf, f: Walk, rho: Assignment)
    requires StateIn(st, f, rho) && BufIn(x, b, f, rho)
    ensures StateIn(st.SetStr(x, b), f, rho)
  {
    PutIn(st, st.store.(strs := st.store.strs[x := b]), f, rho);
  }

  lemma ForgetIn(st: State, x: string, f: Walk, rho: Assignment)
    requires StateIn(st, f, rho)
    ensures StateIn(st.Forget(x), f, rho)
  {
    PutIn(st, Store(st.store.ints - {x}, st.store.strs - {x}), f, rho);
  }

  lemma MovedDenotes(t: Term, v: VarId, off: int, rho: Assignment, n: int)
    requires MovedBack(t, v, off, rho) && Holds(rho(v), n)
    ensures Denotes(t, rho, n - off)
  {
    FirstSlotDenotes(t, rho, n, -off);
  }

  // A variable is itself, moved by nothing.
  lemma BareHome(x: string, off: int, f: Walk, rho: Assignment)
    requires x in f.vars && f.vars[x].CStr? && IsVar(f.vars[x].siz) && IsVar(f.vars[x].len) && off == 0
    ensures HomeIn(Home.At(x, off), f.vars[x], f, rho)
  {
    ConstantDenotes(-off, rho);
    assert f.vars[x].siz.terms[1..] == [] && f.vars[x].len.terms[1..] == [];
  }

  // The string at an offset of a buffer, under the moved context.
  lemma AtIn(s: Store, x: string, off: int, c: Ctx, f: Walk, rho: Assignment)
    requires StoreIn(s, f, rho) && x in s.strs && HomeIn(Home.At(x, off), c, f, rho)
    ensures InCtx(Runs.At(s, x, off), c, f, rho)
  {
    var b, siz, len := s.strs[x], f.vars[x].siz.terms[0].v, f.vars[x].len.terms[0].v;
    assert BufIn(x, b, f, rho);
    BareVarDenotes(siz, rho, b.siz);
    MovedDenotes(c.siz, siz, off, rho, b.siz);
    if b.Len().Some? {
      BareVarDenotes(len, rho, b.Len().value);
      MovedDenotes(c.len, len, off, rho, b.Len().value);
    }
  }

  function LenVar(f: Walk, x: string): VarId
    requires x in f.vars && f.vars[x].CStr? && IsVar(f.vars[x].len)
  {
    f.vars[x].len.terms[0].v
  }

  // What is included into a moved length reaches the buffer's length, moved back.
  lemma FlowsToTarget(s: Sys, lhs: Term, h: Home, c: Ctx, f: Walk, rho: Assignment, n: int)
    requires h.At? && HomeIn(h, c, f, rho) && Solves(rho, s.Include(lhs, c.len)) && Denotes(lhs, rho, n)
    ensures Holds(rho(LenVar(f, h.x)), n + h.off)
  {
    IncludeFlows(s, lhs, c.len, LenVar(f, h.x), rho, n, -h.off);
  }

  // The buffer a value lives in, as it is now, lies inside the range of its length.
  lemma CurrentInside(st: State, dst: Value, c: Ctx, f: Walk, rho: Assignment)
    requires StateIn(st, f, rho) && !st.loose && InCtx(dst, c, f, rho) && Runs.IsAt(dst) && dst.home.x in st.store.strs
    ensures Inside(st.store.strs[dst.home.x], rho(LenVar(f, dst.home.x)))
  {
    var x, b := dst.home.x, st.store.strs[dst.home.x];
    assert BufIn(x, b, f, rho);
    if b.Len().Some? { BareVarDenotes(LenVar(f, x), rho, b.Len().value); }
    if b.reach.Some? && b.reach.value > b.siz { BareVarDenotes(LenVar(f, x), rho, b.reach.value); }
  }

  // The current length of a buffer under the context of a value living in it.
  lemma CurrentLength(st: State, dst: Value, c: Ctx, f: Walk, rho: Assignment)
    requires StateIn(st, f, rho) && !st.loose && InCtx(dst, c, f, rho) && Runs.IsAt(dst) && dst.home.x in st.store.strs
    requires st.store.strs[dst.home.x].Len().Some?
    ensures var was := st.store.strs[dst.home.x].Len().value;
            Holds(rho(LenVar(f, dst.home.x)), was) && Denotes(c.len, rho, was - dst.home.off)
  {
    CurrentInside(st, dst, c, f, rho);
    MovedDenotes(c.len, LenVar(f, dst.home.x), dst.home.off, rho, st.store.strs[dst.home.x].Len().value);
  }

  // Replacing a buffer by one that its length variable covers.
  lemma WriteIn(st: State, dst: Value, b: Buf, c: Ctx, f: Walk, rho: Assignment)
    requires StateIn(st, f, rho) && !st.loose && InCtx(dst, c, f, rho) && Runs.IsAt(dst) && dst.home.x in st.store.strs
    requires b.siz == st.store.strs[dst.home.x].siz && Inside(b, rho(LenVar(f, dst.home.x)))
    ensures StateIn(st.SetStr(dst.home.x, b), f, rho)
    ensures Good(Runs.Again(st.SetStr(dst.home.x, b), dst), c, f, rho)
  {
    var x := dst.home.x;
    assert BufIn(x, st.store.strs[x], f, rho);
    if b.Len().Some? { VarDenotes(LenVar(f, x), rho, b.Len().value); }
    if b.reach.Some? && b.reach.value > b.siz { VarDenotes(LenVar(f, x), rho, b.reach.value); }
    SetStrIn(st, x, b, f, rho);
    AtIn(st.SetStr(x, b).store, x, dst.home.off, c, f, rho);
  }

  // Writing a string whose end the length variable covers.
  lemma WriteTextIn(st: State, dst: Value, at: nat, len: int, c: Ctx, f: Walk, rho: Assignment)
    requires StateIn(st, f, rho) && !st.loose && InCtx(dst, c, f, rho) && Runs.IsAt(dst) && dst.home.x in st.store.strs
    requires len >= 1 && Holds(rho(LenVar(f, dst.home.x)), at + len)
    ensures StateIn(Runs.WriteText(st, dst.home.x, at, len), f, rho)
    ensures Good(Runs.Again(Runs.WriteText(st, dst.home.x, at, len), dst), c, f, rho)
  {
    var b := st.store.strs[dst.home.x];
    CurrentInside(st, dst, c, f, rho);
    WriteStringLength(b, at, len);
    WriteIn(st, dst, b.Write(at, TextOf(len)), c, f, rho);
  }

  // A bounded routine keeps the run inside if its guard does, and makes the run loose otherwise.
  lemma GuardedIn(st: State, dst: Value, b: Buf, fits: bool, c: Ctx, f: Walk, rho: Assignment)
    requires StateIn(st, f, rho) && !st.loose && InCtx(dst, c, f, rho) && Runs.IsAt(dst) && dst.home.x in st.store.strs
    requires b.siz == st.store.strs[dst.home.x].siz && (fits ==> Inside(b, rho(LenVar(f, dst.home.x))))
    ensures StateIn(Runs.Guarded(st, dst.home.x, b, fits), f, rho)
    ensures Good(Runs.Again(Runs.Guarded(st, dst.home.x, b, fits), dst), c, f, rho)
  {
    if fits { WriteIn(st, dst, b, c, f, rho); }
  }

  // ----- library calls -----

  lemma CopyCallSound(f: Routine, args: seq<Expr>, vals: seq<Value>, cs: seq<Ctx>, st: State, w: Walk, fin: Walk,
                      rho: Assignment)
    requires f in {Strcpy, Strcat, Strncpy, Strncat} && |vals| == |args| == |cs| && AllInCtx(vals, cs, fin, rho)
    requires StateIn(st, fin, rho) && !st.loose && Solves(rho, CheckStrOp(w, f, cs).0.sys)
    requires Runs.RunCall(f, args, vals, st).1.Some?
    ensures CheckStrOp(w, f, cs).1.Some?
            && Good(Runs.RunCall(f, args, vals, st), CheckStrOp(w, f, cs).1.value, fin, rho)
  {
    assert InCtx(vals[0], cs[0], fin, rho) && InCtx(vals[1], cs[1], fin, rho);
    if f == Strcpy {
      StrcpySound(vals, cs, st, w, fin, rho);
    } else if f == Strcat {
      StrcatSound(vals, cs, st, w, fin, rho);
    } else {
      assert InCtx(vals[2], cs[2], fin, rho);
      if f == Strncpy {
        StrncpyCallSound(args, vals, cs, st, w, fin, rho);
      } else {
        StrncatCallSound(args, vals, cs, st, w, fin, rho);
      }
    }
  }

  lemma StrncpyCallSound(args: seq<Expr>, vals: seq<Value>, cs: seq<Ctx>, st: State, w: Walk, fin: Walk,
                         rho: Assignment)
    requires |args| == 3 && CopyArgs(vals, cs, st, fin, rho)
    requires Solves(rho, CheckStrOp(w, Strncpy, cs).0.sys) && Runs.RunCall(Strncpy, args, vals, st).1.Some?
    ensures CheckStrOp(w, Strncpy, cs).1 == Some(cs[0]) && Good(Runs.RunCall(Strncpy, args, vals, st), cs[0], fin, rho)
  {
    StrncpySound(vals, cs, st, w, fin, rho);
  }

  lemma StrncatCallSound(args: seq<Expr>, vals: seq<Value>, cs: seq<Ctx>, st: State, w: Walk, fin: Walk,
                         rho: Assignment)
    requires |args| == 3 && CopyArgs(vals, cs, st, fin, rho)
    requires Solves(rho, CheckStrOp(w, Strncat, cs).0.sys) && Runs.RunCall(Strncat, args, vals, st).1.Some?
    ensures CheckStrOp(w, Strncat, cs).1 == Some(cs[0]) && Good(Runs.RunCall(Strncat, args, vals, st), cs[0], fin, rho)
  {
    StrncatSound(vals, cs, st, w, fin, rho);
  }

  lemma StrcpySound(vals: seq<Value>, cs: seq<Ctx>, st: State, w: Walk, fin: Walk, rho: Assignment)
    requires |vals| == |cs| == 2 && StateIn(st, fin, rho) && !st.loose
    requires InCtx(vals[0], cs[0], fin, rho) && InCtx(vals[1], cs[1], fin, rho)
    requires Runs.Writable(st, vals[0]) && Runs.HasText(vals[1])
    requires Solves(rho, CheckStrOp(w, Strcpy, cs).0.sys)
    ensures StateIn(Runs.WriteText(st, vals[0].home.x, vals[0].home.off, vals[1].len.value), fin, rho)
  {
    var home, n := vals[0].home, vals[1].len.value;
    FlowsToTarget(w.sys, cs[1].len, home, cs[0], fin, rho, n);
    WriteTextIn(st, vals[0], home.off, n, cs[0], fin, rho);
  }

  // `strcat` is covered only where it starts or leaves the string as it is.
  lemma StrcatSound(vals: seq<Value>, cs: seq<Ctx>, st: State, w: Walk, fin: Walk, rho: Assignment)
    requires |vals| == |cs| == 2 && StateIn(st, fin, rho) && !st.loose
    requires InCtx(vals[0], cs[0], fin, rho) && InCtx(vals[1], cs[1], fin, rho)
    requires Runs.Writable(st, vals[0]) && Runs.HasText(vals[1])
    requires st.store.strs[vals[0].home.x].Spans(vals[0].home.off + 1)
    requires Solves(rho, CheckStrOp(w, Strcat, cs).0.sys)
    ensures var (x, off) := (vals[0].home.x, vals[0].home.off);
            Good(Runs.Again(Runs.JoinText(st, x, off, vals[1].len.value), vals[0]), cs[0], fin, rho)
  {
    var home, len := vals[0].home, vals[1].len.value;
    var b := st.store.strs[home.x];
    CurrentInside(st, vals[0], cs[0], fin, rho);
    FlowsToTarget(w.sys, cs[1].len, home, cs[0], fin, rho, len);
    if CatFits(b, home.off, len) { CatStaysInside(b, home.off, len, rho(LenVar(fin, home.x))); }
    GuardedIn(st, vals[0], Appended(b, len, len), CatFits(b, home.off, len), cs[0], fin, rho);
  }

  ghost predicate CopyArgs(vals: seq<Value>, cs: seq<Ctx>, st: State, fin: Walk, rho: Assignment) {
    && |vals| == |cs| == 3 && StateIn(st, fin, rho) && !st.loose
    && InCtx(vals[0], cs[0], fin, rho) && InCtx(vals[1], cs[1], fin, rho) && InCtx(vals[2], cs[2], fin, rho)
    && Runs.Writable(st, vals[0]) && Runs.HasText(vals[1]) && vals[2].IntV?
  }

  // Within its guard, what `strncpy` leaves behind is covered; outside it, the run is loose.
  lemma StrncpySound(vals: seq<Value>, cs: seq<Ctx>, st: State, w: Walk, fin: Walk, rho: Assignment)
    requires CopyArgs(vals, cs, st, fin, rho) && Solves(rho, CheckStrOp(w, Strncpy, cs).0.sys)
    ensures var (x, off) := (vals[0].home.x, vals[0].home.off);
            Good(Runs.Again(Runs.CopyText(st, x, off, vals[1].len.value, vals[2].n), vals[0]), cs[0], fin, rho)
  {
    var x, off, len, n := vals[0].home.x, vals[0].home.off, vals[1].len.value, vals[2].n;
    var b, r := st.store.strs[x], rho(LenVar(fin, x));
    CurrentInside(st, vals[0], cs[0], fin, rho);
    var (s1, m) := w.sys.MinOf(cs[1].len, cs[2].t);
    IncludePrefix(s1, m, cs[0].len);
    SolvesSmaller(rho, s1, s1.Include(m, cs[0].len));
    MinFlows(w.sys, cs[1].len, cs[2].t, rho, len, n);
    FlowsToTarget(s1, m, vals[0].home, cs[0], fin, rho, Min(len, n));
    if CopyFits(b, off, len, n) { CopyStaysInside(b, off, len, n, r); }
    GuardedIn(st, vals[0], b.Write(off, Copied(len, ToSize(n))), CopyFits(b, off, len, n), cs[0], fin, rho);
  }

  // Likewise for `strncat`.
  lemma StrncatSound(vals: seq<Value>, cs: seq<Ctx>, st: State, w: Walk, fin: Walk, rho: Assignment)
    requires CopyArgs(vals, cs, st, fin, rho) && Solves(rho, CheckStrOp(w, Strncat, cs).0.sys)
    requires st.store.strs[vals[0].home.x].Len().Some?
    ensures var (x, len, n) := (vals[0].home.x, vals[1].len.value, vals[2].n);
            Good(Runs.Again(Runs.AppendText(st, x, len, n), vals[0]), cs[0], fin, rho)
  {
    var b, len, n := st.store.strs[vals[0].home.x], vals[1].len.value, vals[2].n;
    var was := b.Len().value;
    CurrentLength(st, vals[0], cs[0], fin, rho);
    StrncatFlows(cs, vals[0].home, was, len - 1, n, w, fin, rho);
    if AppendFits(len, n) { AppendStaysInside(b, len, n, rho(LenVar(fin, vals[0].home.x))); }
    GuardedIn(st, vals[0], Appended(b, len, n), AppendFits(len, n), cs[0], fin, rho);
  }

  lemma StrncatFlows(cs: seq<Ctx>, home: Home, was: int, a: int, b: int, w: Walk, fin: Walk, rho: Assignment)
    requires |cs| == 3 && cs[0].CStr? && cs[1].CStr? && cs[2].CInt? && home.At? && HomeIn(home, cs[0], fin, rho)
    requires Denotes(cs[0].len, rho, was - home.off) && Denotes(cs[1].len, rho, a + 1) && Denotes(cs[2].t, rho, b)
    requires Solves(rho, CheckStrOp(w, Strncat, cs).0.sys)
    ensures Holds(rho(LenVar(fin, home.x)), was + Min(a, b))
  {
    MinusOneDenotes(cs[1].len, rho, a + 1);
    var src := cs[1].len.Minus(Constant(1));
    var (s1, m) := w.sys.MinOf(src, cs[2].t);
    var lhs := m.Plus(cs[0].len);
    IncludePrefix(s1, lhs, cs[0].len);
    SolvesSmaller(rho, s1, s1.Include(lhs, cs[0].len));
    MinFlows(w.sys, src, cs[2].t, rho, a, b);
    ArithmeticDenotes(m, cs[0].len, 0, rho, Min(a, b), was - home.off);
    FlowsToTarget(s1, lhs, home, cs[0], fin, rho, Min(a, b) + was - home.off);
  }

  lemma HoldsBetween(r: Range, a: int, b: int, n: int)
    requires Holds(r, a) && Holds(r, b) && a <= n <= b
    ensures Holds(r, n)
  {
  }

  lemma InputCallSound(f: Routine, args: seq<Expr>, vals: seq<Value>, cs: seq<Ctx>, st: State, w: Walk, fin: Walk,
                       rho: Assignment)
    requires f in {Fgets, Gets} && |vals| == |args| == |cs| && AllInCtx(vals, cs, fin, rho) && StateIn(st, fin, rho)
             && !st.loose
    requires Solves(rho, CheckStrOp(w, f, cs).0.sys)
    requires Runs.RunCall(f, args, vals, st).1.Some?
    ensures CheckStrOp(w, f, cs).1.Some?
            && Good(Runs.RunCall(f, args, vals, st), CheckStrOp(w, f, cs).1.value, fin, rho)
  {
    assert InCtx(vals[0], cs[0], fin, rho);
    var k, st', home := st.input[0], st.(input := st.input[1..]), vals[0].home;
    if k >= 1 {
      if f == Fgets {
        assert InCtx(vals[1], cs[1], fin, rho);
        FgetsFlows(w, cs, home, vals[1].n, fin, rho);
        HoldsBetween(rho(LenVar(fin, home.x)), 1 + home.off, vals[1].n + home.off, home.off + k);
      } else {
        ForceTopFlows(w.sys, cs[0].len, rho, -home.off, k);
      }
      WriteTextIn(st', vals[0], home.off, k, cs[0], fin, rho);
    }
  }

  lemma FgetsFlows(w: Walk, cs: seq<Ctx>, home: Home, n: int, fin: Walk, rho: Assignment)
    requires |cs| == 3 && cs[0].CStr? && cs[1].CInt? && home.At?
    requires HomeIn(home, cs[0], fin, rho) && Denotes(cs[1].t, rho, n)
    requires Solves(rho, CheckStrOp(w, Fgets, cs).0.sys)
    ensures Holds(rho(LenVar(fin, home.x)), 1 + home.off) && Holds(rho(LenVar(fin, home.x)), n + home.off)
  {
    var s1 := w.sys.Include(Constant(1), cs[0].len);
    IncludePrefix(s1, cs[1].t, cs[0].len);
    SolvesSmaller(rho, s1, s1.Include(cs[1].t, cs[0].len));
    ConstantDenotes(1, rho);
    FlowsToTarget(w.sys, Constant(1), home, cs[0], fin, rho, 1);
    FlowsToTarget(s1, cs[1].t, home, cs[0], fin, rho, n);
  }

  lemma FreshCallSound(f: Routine, args: seq<Expr>, vals: seq<Value>, cs: seq<Ctx>, st: State, w: Walk, fin: Walk,
                       rho: Assignment)
    requires f in {Strlen, Strdup, Malloc} && |vals| == |args| == |cs| && AllInCtx(vals, cs, fin, rho)
             && StateIn(st, fin, rho) && !st.loose
    requires Ready(w) && Solves(rho, CheckStrOp(w, f, cs).0.sys)
    requires Runs.RunCall(f, args, vals, st).1.Some?
    ensures CheckStrOp(w, f, cs).1.Some?
            && Good(Runs.RunCall(f, args, vals, st), CheckStrOp(w, f, cs).1.value, fin, rho)
  {
    assert InCtx(vals[0], cs[0], fin, rho);
    if f == Strlen {
      MinusOneDenotes(cs[0].len, rho, vals[0].len.value);
    } else {
      AllocKeeps(w);
      var (w1, c) := FreshAllocStr(w);
      if f == Strdup {
        var n, len := vals[0].len.value, cs[0].len;
        var s1 := w1.sys.Include(len, c.siz);
        IncludePrefix(s1, len, c.len);
        SolvesSmaller(rho, s1, s1.Include(len, c.len));
        IncludeFlowsTo(w1.sys, len, w.sys.Size(), rho, n);
        IncludeFlowsTo(s1, len, w.sys.Size() + 1, rho, n);
        VarDenotes(w.sys.Size(), rho, n);
        VarDenotes(w.sys.Size() + 1, rho, n);
      } else {
        IncludeFlowsTo(w1.sys, cs[0].t, w.sys.Size(), rho, vals[0].n);
        VarDenotes(w.sys.Size(), rho, vals[0].n);
      }
    }
  }

  lemma DroppedArgs(vals: seq<Value>, cs: seq<Ctx>, k: nat, f: Walk, rho: Assignment)
    requires AllInCtx(vals, cs, f, rho) && k <= |vals|
    ensures ArgsIn(vals[k..], Drop(cs, k), rho)
  {
    forall i | 0 <= i < |vals| - k ensures ArgIn(vals[k..][i], Drop(cs, k)[i], rho) {
      assert InCtx(vals[k + i], cs[k + i], f, rho);
    }
  }

  // The formatted bytes of a literal, and of any other format, reach the length of the target.
  lemma SprintfSound(args: seq<Expr>, vals: seq<Value>, cs: seq<Ctx>, st: State, w: Walk, fin: Walk, rho: Assignment)
    requires |vals| == |args| == |cs| && AllInCtx(vals, cs, fin, rho) && StateIn(st, fin, rho) && !st.loose
    requires Solves(rho, ModelSprintf(w, args, cs).0.sys)
    ensures Good(Runs.RunCall(Sprintf, args, vals, st), ModelSprintf(w, args, cs).1, fin, rho)
  {
    if Runs.RunCall(Sprintf, args, vals, st).1.Some? {
      assert InCtx(vals[0], cs[0], fin, rho);
      var m, x, off := Runs.Formatting(st, args[1], vals[2..]).value, vals[0].home.x, vals[0].home.off;
      var b := st.store.strs[x].Write(off, TextOf(m.len + 1));
      var st' := st.(input := m.input);
      if m.fits {
        SprintfFlows(args, vals, cs, st, m, w, fin, rho);
        CurrentInside(st, vals[0], cs[0], fin, rho);
        WriteStringLength(st.store.strs[x], off, m.len + 1);
      }
      GuardedIn(st', vals[0], b, m.fits, cs[0], fin, rho);
    }
  }

  lemma SprintfFlows(args: seq<Expr>, vals: seq<Value>, cs: seq<Ctx>, st: State, m: Runs.Printed, w: Walk, fin: Walk,
                     rho: Assignment)
    requires |vals| == |args| == |cs| >= 2 && AllInCtx(vals, cs, fin, rho) && Runs.IsAt(vals[0])
    requires Runs.Formatting(st, args[1], vals[2..]) == Some(m) && m.fits
    requires Solves(rho, ModelSprintf(w, args, cs).0.sys)
    ensures InCtx(vals[0], cs[0], fin, rho)
    ensures Holds(rho(LenVar(fin, vals[0].home.x)), vals[0].home.off + m.len + 1)
  {
    assert InCtx(vals[0], cs[0], fin, rho);
    var home := vals[0].home;
    if args[1].StrConst? {
      var (s1, parsed) := ParseFmt(w.sys, args[1].s, Drop(cs, 2));
      DroppedArgs(vals, cs, 2, fin, rho);
      IncludePrefix(s1, parsed, cs[0].len);
      SolvesSmaller(rho, s1, s1.Include(parsed, cs[0].len));
      FormatSound(w.sys, args[1].s, 0, Drop(cs, 2), vals[2..], 0, st.input, rho);
      FlowsToTarget(s1, parsed, home, cs[0], fin, rho, m.len + 1);
    } else {
      ForceTopFlows(w.sys, cs[0].len, rho, -home.off, m.len + 1);
    }
  }

  lemma BoundedFormatFlows(s: Sys, fmt: string, pl: seq<Ctx>, vals: seq<Value>, input: seq<int>, bound: Term, n: int,
                           home: Home, c: Ctx, fin: Walk, rho: Assignment)
    requires ArgsIn(vals, pl, rho) && Allowed(Runs.Render(fmt, 0, vals, 0, input)) && Denotes(bound, rho, n)
    requires c.CStr? && home.At? && HomeIn(home, c, fin, rho)
    requires var (s1, parsed) := ParseFmt(s, fmt, pl); var (s2, least) := s1.MinOf(parsed, bound);
             Solves(rho, s2.Include(least, c.len))
    ensures Holds(rho(LenVar(fin, home.x)), home.off + Min(Runs.Render(fmt, 0, vals, 0, input).value.len + 1, n))
  {
    var m := Runs.Render(fmt, 0, vals, 0, input).value.len;
    var (s1, parsed) := ParseFmt(s, fmt, pl);
    var (s2, least) := s1.MinOf(parsed, bound);
    IncludePrefix(s2, least, c.len);
    SolvesSmaller(rho, s2, s2.Include(least, c.len));
    MinPrefix(s1, parsed, bound);
    SolvesSmaller(rho, s1, s2);
    FormatSound(s, fmt, 0, pl, vals, 0, input, rho);
    MinFlows(s1, parsed, bound, rho, m + 1, n);
    FlowsToTarget(s2, least, home, c, fin, rho, Min(m + 1, n));
  }

  // Without a bound of known kind the whole formatted length is included.
  lemma UnboundedFormatFlows(s: Sys, fmt: string, pl: seq<Ctx>, vals: seq<Value>, input: seq<int>, home: Home, c: Ctx,
                             fin: Walk, rho: Assignment)
    requires ArgsIn(vals, pl, rho) && Allowed(Runs.Render(fmt, 0, vals, 0, input))
    requires c.CStr? && home.At? && HomeIn(home, c, fin, rho)
    requires var (s1, parsed) := ParseFmt(s, fmt, pl); Solves(rho, s1.Include(parsed, c.len))
    ensures Holds(rho(LenVar(fin, home.x)), home.off + Runs.Render(fmt, 0, vals, 0, input).value.len + 1)
  {
    var (s1, parsed) := ParseFmt(s, fmt, pl);
    IncludePrefix(s1, parsed, c.len);
    SolvesSmaller(rho, s1, s1.Include(parsed, c.len));
    FormatSound(s, fmt, 0, pl, vals, 0, input, rho);
    FlowsToTarget(s1, parsed, home, c, fin, rho, Runs.Render(fmt, 0, vals, 0, input).value.len + 1);
  }

  // What `snprintf` is expected to leave: the smaller of bound and formatted length, or the whole formatted length.
  lemma SnprintfFlows(args: seq<Expr>, vals: seq<Value>, cs: seq<Ctx>, st: State, m: Runs.Printed, w: Walk, fin: Walk,
                      rho: Assignment)
    requires |vals| == |args| == |cs| >= 3 && AllInCtx(vals, cs, fin, rho) && Runs.IsAt(vals[0])
    requires args[2].StrConst? && (vals[1].IntV? || vals[1].OtherV?)
    requires Runs.Formatting(st, args[2], vals[3..]) == Some(m) && m.fits
    requires Solves(rho, ModelSnprintf(w, args, cs).0.sys)
    ensures Holds(rho(LenVar(fin, vals[0].home.x)),
                  vals[0].home.off + if vals[1].IntV? then Min(m.len + 1, vals[1].n) else m.len + 1)
  {
    assert InCtx(vals[0], cs[0], fin, rho) && InCtx(vals[1], cs[1], fin, rho);
    var fmt, home := args[2].s, vals[0].home;
    DroppedArgs(vals, cs, 3, fin, rho);
    if vals[1].IntV? {
      BoundedFormatFlows(w.sys, fmt, Drop(cs, 3), vals[3..], st.input, cs[1].t, vals[1].n, home, cs[0], fin, rho);
    } else {
      UnboundedFormatFlows(w.sys, fmt, Drop(cs, 3), vals[3..], st.input, home, cs[0], fin, rho);
    }
  }

  // What one range for the length must hold for `snprintf` to keep to its guard.
  lemma SnprintfInside(b: Buf, at: nat, len: int, n: int, bound: Value, literal: bool, r: Range)
    requires len >= 1 && Inside(b, r)
    requires literal ==> Holds(r, at + if bound.IntV? then Min(len, n) else len)
    ensures (if !literal then IdleFits(b, at, len, n)
             else if bound.IntV? then FormatFits(b, at, len, n)
             else CutFits(b, at, len, n)) ==> Inside(Formatted(b, at, len, n), r)
  {
    if !literal {
      IdleRuleIsExact(b, at, len, n);
    } else if bound.IntV? {
      if FormatFits(b, at, len, n) { FormatStaysInside(b, at, len, n, r); }
    } else {
      CutRuleIsExact(b, at, len, n);
    }
  }

  lemma SnprintfSound(args: seq<Expr>, vals: seq<Value>, cs: seq<Ctx>, st: State, w: Walk, fin: Walk, rho: Assignment)
    requires |vals| == |args| == |cs| && AllInCtx(vals, cs, fin, rho) && StateIn(st, fin, rho) && !st.loose
    requires Solves(rho, ModelSnprintf(w, args, cs).0.sys)
    ensures Good(Runs.RunCall(Snprintf, args, vals, st), ModelSnprintf(w, args, cs).1, fin, rho)
  {
    if Runs.RunCall(Snprintf, args, vals, st).1.Some? {
      assert InCtx(vals[0], cs[0], fin, rho);
      var m, x, off := Runs.Formatting(st, args[2], vals[3..]).value, vals[0].home.x, vals[0].home.off;
      var b, len, literal := st.store.strs[x], m.len + 1, args[2].StrConst?;
      var (n, rest) := if vals[1].IntV? then (vals[1].n, m.input) else (m.input[0], m.input[1..]);
      var fits := if !literal then IdleFits(b, off, len, n)
        else m.fits && (if vals[1].IntV? then FormatFits(b, off, len, n) else CutFits(b, off, len, n));
      if fits { SnprintfKept(args, vals, cs, st, m, n, w, fin, rho); }
      GuardedIn(st.(input := rest), vals[0], Formatted(b, off, len, n), fits, cs[0], fin, rho);
    }
  }

  lemma SnprintfKept(args: seq<Expr>, vals: seq<Value>, cs: seq<Ctx>, st: State, m: Runs.Printed, n: int, w: Walk,
                     fin: Walk, rho: Assignment)
    requires |vals| == |args| == |cs| >= 3 && AllInCtx(vals, cs, fin, rho) && StateIn(st, fin, rho) && !st.loose
    requires Solves(rho, ModelSnprintf(w, args, cs).0.sys) && Runs.Writable(st, vals[0])
    requires Runs.Formatting(st, args[2], vals[3..]) == Some(m)
    requires if vals[1].IntV? then n == vals[1].n else vals[1].OtherV?
    requires var b, at, len := st.store.strs[vals[0].home.x], vals[0].home.off, m.len + 1;
             if !args[2].StrConst? then IdleFits(b, at, len, n)
             else m.fits && if vals[1].IntV? then FormatFits(b, at, len, n) else CutFits(b, at, len, n)
    ensures var x := vals[0].home.x;
            Inside(Formatted(st.store.strs[x], vals[0].home.off, m.len + 1, n), rho(LenVar(fin, x)))
  {
    assert InCtx(vals[0], cs[0], fin, rho);
    CurrentInside(st, vals[0], cs[0], fin, rho);
    if args[2].StrConst? { SnprintfFlows(args, vals, cs, st, m, w, fin, rho); }
    var x := vals[0].home.x;
    SnprintfInside(st.store.strs[x], vals[0].home.off, m.len + 1, n, vals[1], args[2].StrConst?, rho(LenVar(fin, x)));
  }

  // A host name ends where its bound says, or within what the string and the bound span.
  lemma HostSound(vals: seq<Value>, cs: seq<Ctx>, st: State, w: Walk, fin: Walk, rho: Assignment)
    requires |vals| == |cs| == 2 && AllInCtx(vals, cs, fin, rho) && StateIn(st, fin, rho) && !st.loose
    requires Solves(rho, CheckStrOp(w, Gethostname, cs).0.sys) && Runs.Writable(st, vals[0]) && vals[1].IntV?
    ensures Good(Runs.NameHost(st, vals[0], vals[1].n), CNone, fin, rho)
  {
    HostFlows(vals, cs, w, fin, rho);
    if Runs.NameHost(st, vals[0], vals[1].n).1.Some? {
      var k, x, off, n := st.input[0], vals[0].home.x, vals[0].home.off, vals[1].n;
      var b, st' := st.store.strs[x], st.(input := st.input[1..]);
      CurrentInside(st, vals[0], cs[0], fin, rho);
      TextRuleIsExact(b, off, k, off + n);
      GuardedIn(st', vals[0], b.Write(off, TextOf(k)), TextFits(b, off, k, off + n), cs[0], fin, rho);
    }
  }

  lemma HostFlows(vals: seq<Value>, cs: seq<Ctx>, w: Walk, fin: Walk, rho: Assignment)
    requires |vals| == |cs| == 2 && AllInCtx(vals, cs, fin, rho) && Runs.IsAt(vals[0]) && vals[1].IntV?
    requires Solves(rho, CheckStrOp(w, Gethostname, cs).0.sys)
    ensures InCtx(vals[0], cs[0], fin, rho) && Holds(rho(LenVar(fin, vals[0].home.x)), vals[0].home.off + vals[1].n)
  {
    assert InCtx(vals[0], cs[0], fin, rho) && InCtx(vals[1], cs[1], fin, rho);
    FlowsToTarget(w.sys, cs[1].t, vals[0].home, cs[0], fin, rho, vals[1].n);
  }

  // A status is one of the values between the two that flow into it.
  lemma StatusSound(st: State, name: string, most: int, w: Walk, fin: Walk, rho: Assignment)
    requires StateIn(st, fin, rho) && most >= 0 && Solves(rho, Status(w, name, most).0.sys)
    ensures Status(w, name, most).1.Some?
            && Good(Runs.AnyStatus(st, most), Status(w, name, most).1.value, fin, rho)
  {
    var v, t := w.sys.Size(), Status(w, name, most).0.sys;
    var m := |w.sys.constraints|;
    assert t.constraints[m] == Subset(Constant(0), v) && t.constraints[m + 1] == Subset(Constant(most), v);
    assert Satisfied(t.constraints[m], rho) && Satisfied(t.constraints[m + 1], rho);
    SeedHolds(rho, 0, v);
    SeedHolds(rho, most, v);
    if st.input != [] && 0 <= st.input[0] <= most { VarDenotes(v, rho, st.input[0]); }
  }

  // A search returns a place in the string: its size and length lie between 1 and those of the whole.
  lemma SearchSound(args: seq<Expr>, vals: seq<Value>, cs: seq<Ctx>, st: State, w: Walk, fin: Walk, rho: Assignment)
    requires |vals| == |args| == |cs| == 2 && AllInCtx(vals, cs, fin, rho) && StateIn(st, fin, rho) && !st.loose
    requires Ready(w) && Solves(rho, CheckStrOp(w, Strchr, cs).0.sys) && Runs.HasText(vals[0])
    ensures CheckStrOp(w, Strchr, cs).1.Some?
            && Good(Runs.FindIn(st, vals[0]), CheckStrOp(w, Strchr, cs).1.value, fin, rho)
  {
    assert InCtx(vals[0], cs[0], fin, rho);
    var siz, len, v := vals[0].siz, vals[0].len.value, w.sys.Size();
    FreshStrGrows(w.sys, None);
    SpansFrom(w.sys, cs[0], 1, siz, len, rho);
    if st.input != [] && 0 <= st.input[0] < len && st.input[0] < siz {
      HoldsBetween(rho(v), 1, siz, siz - st.input[0]);
      HoldsBetween(rho(v + 1), 1, len, len - st.input[0]);
      VarDenotes(v, rho, siz - st.input[0]);
      VarDenotes(v + 1, rho, len - st.input[0]);
    }
  }

  // A context merged with a constant holds both the constant and the context's values.
  lemma SpansFrom(s: Sys, b: Ctx, k: int, siz: int, len: int, rho: Assignment)
    requires s.Valid() && b.CStr? && Denotes(b.siz, rho, siz) && Denotes(b.len, rho, len)
    requires Solves(rho, Merge(s, CStr(Constant(k), Constant(k)), b).0)
    ensures var v := s.Size(); Holds(rho(v), k) && Holds(rho(v), siz) && Holds(rho(v + 1), k) && Holds(rho(v + 1), len)
  {
    FreshStrGrows(s, None);
    var v, s1 := s.Size(), FreshStr(s, None).0;
    ConstantDenotes(k, rho);
    FourFlows(s1, v, CStr(Constant(k), Constant(k)), b, k, Some(k), rho);
    FourFlows(s1, v, CStr(Constant(k), Constant(k)), b, siz, Some(len), rho);
    BareVarDenotes(v, rho, k);
    BareVarDenotes(v, rho, siz);
    BareVarDenotes(v + 1, rho, k);
    BareVarDenotes(v + 1, rho, len);
  }

  lemma LookUpSound(st: State, w: Walk, fin: Walk, rho: Assignment)
    requires StateIn(st, fin, rho) && !st.loose
    requires Solves(rho, CheckStrOp(w, Getenv, []).0.sys)
    ensures Good(Runs.LookUp(st), CheckStrOp(w, Getenv, []).1.value, fin, rho)
  {
    if st.input != [] && st.input[0] >= 1 {
      var (s1, t) := w.sys.Fresh(Some("@getenv_return"));
      ForceVarFlows(s1, w.sys.Size(), rho, st.input[0]);
      VarDenotes(w.sys.Size(), rho, st.input[0]);
    }
  }

  // Every modelled call.
  lemma CallSound(name: string, args: seq<Expr>, vals: seq<Value>, cs: seq<Ctx>, st: State, w: Walk, fin: Walk,
                  rho: Assignment)
    requires |vals| == |args| == |cs| && StateIn(st, fin, rho) && (st.loose || AllInCtx(vals, cs, fin, rho))
    requires Ready(w) && Solves(rho, GenCall(w, name, args, cs).0.sys)
    ensures Good(Runs.RunCall(RoutineOf(name), args, vals, st), GenCall(w, name, args, cs).1, fin, rho)
  {
    var f := RoutineOf(name);
    if st.loose {
      LooseIsGood(st, Runs.RunCall(f, args, vals, st), GenCall(w, name, args, cs).1, fin, rho);
    } else if Runs.RunCall(f, args, vals, st).1.Some? {
      match f
      case Sprintf => SprintfSound(args, vals, cs, st, w, fin, rho);
      case Snprintf => SnprintfSound(args, vals, cs, st, w, fin, rho);
      case Printf =>
      case Strspn =>
      case Strchr => SearchSound(args, vals, cs, st, w, fin, rho);
      case Getenv => LookUpSound(st, w, fin, rho);
      case Gethostname => HostSound(vals, cs, st, w, fin, rho);
      case Syserror => StatusSound(st, "@syserror_return", 48, w, fin, rho);
      case Syssignal => StatusSound(st, "@syssignal_return", 25, w, fin, rho);
      case _ =>
        if f in {Strcpy, Strcat, Strncpy, Strncat} { CopyCallSound(f, args, vals, cs, st, w, fin, rho); }
        else if f == Fgets || f == Gets { InputCallSound(f, args, vals, cs, st, w, fin, rho); }
        else { FreshCallSound(f, args, vals, cs, st, w, fin, rho); }
    } else {
      StuckKeepsState(f, args, vals, st, fin, rho);
    }
  }

  // A call the run does not get past leaves the store alone.
  lemma StuckKeepsState(f: Routine, args: seq<Expr>, vals: seq<Value>, st: State, fin: Walk, rho: Assignment)
    requires |vals| == |args| && StateIn(st, fin, rho)
    ensures Runs.RunCall(f, args, vals, st).1.None? ==> StateIn(Runs.RunCall(f, args, vals, st).0, fin, rho)
  {
  }

  // ----- operators -----

  lemma TruthFlows(s: Sys, rho: Assignment, n: int)
    requires Solves(rho, BoolTerm(s).0) && 0 <= n <= 1
    ensures Denotes(BoolTerm(s).1, rho, n)
  {
    var v, t := s.Size(), BoolTerm(s).0;
    var m := |s.constraints|;
    assert t.constraints[m] == Subset(Constant(0), v) && t.constraints[m + 1] == Subset(Constant(1), v);
    assert Satisfied(t.constraints[m], rho) && Satisfied(t.constraints[m + 1], rho);
    SeedHolds(rho, 0, v);
    SeedHolds(rho, 1, v);
    VarDenotes(v, rho, n);
  }

  lemma OperateSound(w: Walk, op: BinOp, a: Ctx, b: Ctx, x: Value, y: Value, forward: bool, f: Walk, rho: Assignment)
    requires Ready(w) && Solves(rho, Combine(w, op, a, b).0.sys) && InCtx(x, a, f, rho) && InCtx(y, b, f, rho)
    requires forward && b.CInt? ==> Positive(b.t)
    ensures var r := Runs.Operate(op, x, y, forward); r.Some? ==> InCtx(r.value, Combine(w, op, a, b).1, f, rho)
  {
    if x.IntV? && y.IntV? {
      IntOperateSound(w, op, a, b, x, y, forward, f, rho);
    } else if op == Add && x.StrV? && y.IntV? && y.n >= 0 {
      StepSound(a, b.t, x, y.n, forward, f, rho);
    }
  }

  lemma IntOperateSound(w: Walk, op: BinOp, a: Ctx, b: Ctx, x: Value, y: Value, forward: bool, f: Walk,
                        rho: Assignment)
    requires w.sys.Valid() && Solves(rho, Combine(w, op, a, b).0.sys)
    requires x.IntV? && y.IntV? && a.CInt? && b.CInt? && Denotes(a.t, rho, x.n) && Denotes(b.t, rho, y.n)
    ensures var r := Runs.Operate(op, x, y, forward); r.Some? ==> InCtx(r.value, Combine(w, op, a, b).1, f, rho)
  {
    match op
    case Add => ArithmeticDenotes(a.t, b.t, 0, rho, x.n, y.n);
    case Sub => ArithmeticDenotes(a.t, b.t, 0, rho, x.n, y.n);
    case Mul => TimesFlows(w.sys, a.t, b.t, rho, x.n, y.n);
    case Div => if y.n != 0 { TopHolds(w.sys, rho, Runs.Quotient(x.n, y.n)); }
    case _ => ComparisonSound(w, op, a, b, x, y, forward, f, rho);
  }

  lemma ComparisonSound(w: Walk, op: BinOp, a: Ctx, b: Ctx, x: Value, y: Value, forward: bool, f: Walk,
                        rho: Assignment)
    requires op !in {Add, Sub, Mul, Div} && x.IntV? && y.IntV? && a.CInt? && b.CInt?
    requires Solves(rho, Combine(w, op, a, b).0.sys)
    ensures var r := Runs.Operate(op, x, y, forward); r.Some? ==> InCtx(r.value, Combine(w, op, a, b).1, f, rho)
  {
    TruthFlows(w.sys, rho, 0);
    TruthFlows(w.sys, rho, 1);
  }

  lemma SkippedSound(w: Walk, op: BinOp, a: Ctx, b: Ctx, x: Value, right: Kind, f: Walk, rho: Assignment)
    requires Runs.Skips(op, x) && InCtx(x, a, f, rho) && HasKind(right, b) && Solves(rho, Combine(w, op, a, b).0.sys)
    ensures InCtx(Runs.Skipped(op, right), Combine(w, op, a, b).1, f, rho)
  {
    if b.CInt? { TruthFlows(w.sys, rho, Runs.Bit(op == Or)); }
  }

  lemma StepSound(a: Ctx, i: Term, x: Value, k: nat, forward: bool, f: Walk, rho: Assignment)
    requires x.StrV? && InCtx(x, a, f, rho) && Denotes(i, rho, k) && (forward ==> Positive(i))
    ensures InCtx(Runs.Step(x, k, forward), Advance(a, i), f, rho)
  {
    StepDenotes(a, i, x, k, rho);
    if forward && x.home.At? { StepHome(a, i, x.home, k, f, rho); }
  }

  lemma StepDenotes(a: Ctx, i: Term, x: Value, k: nat, rho: Assignment)
    requires x.StrV? && ArgIn(x, a, rho) && Denotes(a.siz, rho, x.siz) && Denotes(i, rho, k)
    ensures Denotes(a.siz.Minus(i), rho, x.siz - k) && (x.len.Some? ==> Denotes(a.len.Minus(i), rho, x.len.value - k))
  {
    ArithmeticDenotes(a.siz, i, 0, rho, x.siz, k);
    if x.len.Some? { ArithmeticDenotes(a.len, i, 0, rho, x.len.value, k); }
  }

  lemma StepHome(a: Ctx, i: Term, h: Home, k: nat, f: Walk, rho: Assignment)
    requires h.At? && HomeIn(h, a, f, rho) && Positive(i) && Denotes(i, rho, k)
    ensures HomeIn(Home.At(h.x, h.off + k), Advance(a, i), f, rho)
  {
    StepBack(a.siz, f.vars[h.x].siz.terms[0].v, i, h.off, k, rho);
    StepBack(a.len, f.vars[h.x].len.terms[0].v, i, h.off, k, rho);
  }

  // Taking away a positive term leaves the leading variable alone.
  lemma StepBack(t: Term, v: VarId, i: Term, off: int, k: int, rho: Assignment)
    requires MovedBack(t, v, off, rho) && Positive(i) && Denotes(i, rho, k)
    ensures MovedBack(t.Minus(i), v, off + k, rho)
  {
    var rest := Term(t.terms[1..], t.konst);
    NegatedIsNegative(i.terms);
    AddSlotsKeepsFirst(t.terms, ScaleSlots(i.terms, -1));
    assert Term(t.Minus(i).terms[1..], t.Minus(i).konst) == rest.Minus(i);
    ArithmeticDenotes(rest, i, 0, rho, -off, k);
  }

  // ----- forward offsets -----

  predicate Positive(t: Term) { forall j :: 0 <= j < |t.terms| ==> t.terms[j].coeff > 0 }

  lemma {:induction false} NegatedIsNegative(slots: seq<Slot>)
    requires forall j :: 0 <= j < |slots| ==> slots[j].coeff > 0
    ensures forall j :: 0 <= j < |ScaleSlots(slots, -1)| ==> ScaleSlots(slots, -1)[j].coeff < 0
  {
    if slots != [] { NegatedIsNegative(slots[1..]); }
  }

  lemma {:induction false} AddSlotsKeepsFirst(slots: seq<Slot>, more: seq<Slot>)
    requires slots != [] && slots[0].coeff > 0 && forall j :: 0 <= j < |more| ==> more[j].coeff < 0
    ensures AddSlots(slots, more) == [slots[0]] + AddSlots(slots[1..], more)
  {
    if more == [] {
      assert slots == [slots[0]] + slots[1..];
    } else {
      var init, last := more[..|more| - 1], more[|more| - 1];
      AddSlotsKeepsFirst(slots, init);
      var tail := AddSlots(slots[1..], init);
      assert ([slots[0]] + tail)[1..] == tail;
      assert AddSlot([slots[0]] + tail, last.coeff, last.v) == [slots[0]] + AddSlot(tail, last.coeff, last.v);
    }
  }

  lemma {:induction false} AddSlotPositive(slots: seq<Slot>, c: int, v: VarId)
    requires c > 0 && forall j :: 0 <= j < |slots| ==> slots[j].coeff > 0
    ensures forall j :: 0 <= j < |AddSlot(slots, c, v)| ==> AddSlot(slots, c, v)[j].coeff > 0
  {
    if slots != [] { AddSlotPositive(slots[1..], c, v); }
  }

  lemma {:induction false} AddSlotsPositive(slots: seq<Slot>, more: seq<Slot>)
    requires forall j :: 0 <= j < |slots| ==> slots[j].coeff > 0
    requires forall j :: 0 <= j < |more| ==> more[j].coeff > 0
    ensures forall j :: 0 <= j < |AddSlots(slots, more)| ==> AddSlots(slots, more)[j].coeff > 0
  {
    if more != [] {
      var init, last := more[..|more| - 1], more[|more| - 1];
      AddSlotsPositive(slots, init);
      AddSlotPositive(AddSlots(slots, init), last.coeff, last.v);
    }
  }

  // The walk gives a forward offset a term whose coefficients are all positive.
  lemma {:induction false} ForwardIsPositive(w: Walk, e: Expr, f: Walk, rho: Assignment)
    requires Ready(w) && Within(Gen(w, e).0, f, rho) && Runs.Forward(e)
    ensures Gen(w, e).1.CInt? ==> Positive(Gen(w, e).1.t)
    decreases e
  {
    match e
    case Var(x) => NewVarPlaced(w, x, OtherType, f, rho);
    case Binary(op, a, b) =>
      BinaryParts(w, e, f, rho);
      var x := Gen(w, a);
      var y := Gen(x.0, b);
      ForwardIsPositive(w, a, f, rho);
      ForwardIsPositive(x.0, b, f, rho);
      if x.1.CInt? && y.1.CInt? { AddSlotsPositive(x.1.t.terms, y.1.t.terms); }
    case Call(callee, args) => LengthIsPositive(w, e, f, rho);
    case _ =>
  }

  lemma LengthIsPositive(w: Walk, e: Expr, f: Walk, rho: Assignment)
    requires Ready(w) && e.Call? && Within(Gen(w, e).0, f, rho) && Runs.Forward(e)
    ensures Gen(w, e).1.CInt? ==> Positive(Gen(w, e).1.t)
  {
    CallParts(w, e, f, rho);
    var w0 := NewVar(w, e.callee, OtherType).0;
    OneArgument(w0, e.args);
    NewVarPlaced(w0, e.args[0].name, OtherType, f, rho);
    var c := Gen(w0, e.args[0]).1;
    if c.CStr? { PlusConstant(c.len, 1); }
  }

  // A stored value flows into the variable's context.
  lemma StoreSound(x: string, v: Value, st: State, src: Ctx, w: Walk, f: Walk, rho: Assignment)
    requires StateIn(st, f, rho) && Ready(f) && (st.loose || InCtx(v, src, f, rho))
    requires x in f.vars && Solves(rho, Flow(w.sys, f.vars[x], src))
    ensures Good(Runs.SetVariable(f.types, x, v, st), src, f, rho)
  {
    if !st.loose && Runs.SetVariable(f.types, x, v, st).1.Some? && TypeOf(f.types, x) != OtherType {
      var dst, s := f.vars[x], w.sys;
      assert VarFits(f, x);
      if v.IntV? {
        IncludeFlowsTo(s, src.t, dst.t.terms[0].v, rho, v.n);
        VarDenotes(dst.t.terms[0].v, rho, v.n);
        SetIntIn(st, x, v.n, f, rho);
      } else {
        StringFlows(s, dst, src, v, f, rho);
        OwnBufferIn(x, v.siz, v.len, f, rho);
        SetStrIn(st, x, Runs.BufOf(v.siz, v.len), f, rho);
      }
    }
  }

  lemma OwnBufferIn(x: string, siz: int, len: Option<int>, f: Walk, rho: Assignment)
    requires x in f.vars && x in f.types && KindOfType(f.types[x]) == KStr && f.vars[x].CStr?
    requires Denotes(f.vars[x].siz, rho, siz) && (len.Some? ==> Denotes(f.vars[x].len, rho, len.value))
    ensures BufIn(x, Runs.BufOf(siz, len), f, rho)
  {
    if len.Some? && len.value >= 1 {
      var empty := Buf(siz, [], None);
      WriteStringLength(empty, 0, len.value);
      assert empty.Write(0, TextOf(len.value)).cells == TextOf(len.value);
    }
  }

  lemma StringFlows(s: Sys, dst: Ctx, src: Ctx, v: Value, f: Walk, rho: Assignment)
    requires v.StrV? && InCtx(v, src, f, rho) && dst.CStr? && IsVar(dst.siz) && IsVar(dst.len)
             && Solves(rho, Flow(s, dst, src))
    ensures Denotes(dst.siz, rho, v.siz) && (v.len.Some? ==> Denotes(dst.len, rho, v.len.value))
  {
    var s1 := s.Include(src.len, dst.len);
    IncludePrefix(s1, src.siz, dst.siz);
    SolvesSmaller(rho, s1, s1.Include(src.siz, dst.siz));
    IncludeFlowsTo(s1, src.siz, dst.siz.terms[0].v, rho, v.siz);
    VarDenotes(dst.siz.terms[0].v, rho, v.siz);
    if v.len.Some? {
      IncludeFlowsTo(s, src.len, dst.len.terms[0].v, rho, v.len.value);
      VarDenotes(dst.len.terms[0].v, rho, v.len.value);
    }
  }

  // Either branch of `?:` flows into the merged context.
  lemma MergeSound(s: Sys, a: Ctx, b: Ctx, v: Value, f: Walk, rho: Assignment)
    requires s.Valid() && Solves(rho, Merge(s, a, b).0) && (InCtx(v, a, f, rho) || InCtx(v, b, f, rho))
    requires (a.CInt? && b.CInt?) || (a.CStr? && b.CStr?)
    ensures InCtx(Runs.Unhomed(v), Merge(s, a, b).1, f, rho)
  {
    if a.CInt? {
      if v.IntV? { UnionFlowsOne(s, a.t, b.t, rho, v.n); }
    } else if v.StrV? {
      FreshStrGrows(s, None);
      var (s1, c) := FreshStr(s, None);
      FourFlows(s1, s.Size(), a, b, v.siz, v.len, rho);
    }
  }

  // A value of either operand is a value of the union.
  lemma UnionFlowsOne(s: Sys, x: Term, y: Term, rho: Assignment, n: int)
    requires Solves(rho, s.UnionOf(x, y).0) && (Denotes(x, rho, n) || Denotes(y, rho, n))
    ensures Denotes(s.UnionOf(x, y).1, rho, n)
  {
    var (s0, z) := s.Fresh(None);
    var s1 := s0.Include(x, z);
    IncludePrefix(s1, y, z);
    SolvesSmaller(rho, s1, s1.Include(y, z));
    if Denotes(x, rho, n) { IncludeFlowsTo(s0, x, s.Size(), rho, n); } else { IncludeFlowsTo(s1, y, s.Size(), rho, n); }
    VarDenotes(s.Size(), rho, n);
  }

  lemma FourFlows(s: Sys, v: VarId, a: Ctx, b: Ctx, siz: int, len: Option<int>, rho: Assignment)
    requires a.CStr? && b.CStr?
    requires var x, y := VarTerm(v), VarTerm(v + 1);
             Solves(rho, s.Include(a.siz, x).Include(b.siz, x).Include(a.len, y).Include(b.len, y))
    requires (Denotes(a.siz, rho, siz) && (len.Some? ==> Denotes(a.len, rho, len.value)))
             || (Denotes(b.siz, rho, siz) && (len.Some? ==> Denotes(b.len, rho, len.value)))
    ensures Denotes(VarTerm(v), rho, siz) && (len.Some? ==> Denotes(VarTerm(v + 1), rho, len.value))
  {
    var t1 := s.Include(a.siz, VarTerm(v));
    var t2 := t1.Include(b.siz, VarTerm(v));
    var t3 := t2.Include(a.len, VarTerm(v + 1));
    var t4 := t3.Include(b.len, VarTerm(v + 1));
    SolvesSmaller(rho, t3, t4);
    SolvesSmaller(rho, t2, t4);
    SolvesSmaller(rho, t1, t4);
    if Denotes(a.siz, rho, siz) && (len.Some? ==> Denotes(a.len, rho, len.value)) {
      IncludeFlowsTo(s, a.siz, v, rho, siz);
      if len.Some? { IncludeFlowsTo(t2, a.len, v + 1, rho, len.value); }
    } else {
      IncludeFlowsTo(t1, b.siz, v, rho, siz);
      if len.Some? { IncludeFlowsTo(t3, b.len, v + 1, rho, len.value); }
    }
    VarDenotes(v, rho, siz);
    if len.Some? { VarDenotes(v + 1, rho, len.value); }
  }

  // ----- the steps of a walk -----

  ghost predicate Placed(w: Walk, f: Walk, rho: Assignment) { Ready(w) && Within(w, f, rho) }

  lemma KeptEarlier(w: Walk, r: (Walk, Ctx), f: Walk, rho: Assignment)
    requires Ready(w) && Kept(w, r) && Within(r.0, f, rho)
    ensures Placed(w, f, rho) && Placed(r.0, f, rho) && Solves(rho, r.0.sys)
  {
    WithinEarlier(w, r.0, f, rho);
    SolvedWithin(r.0, f, rho);
  }

  lemma NewVarPlaced(w: Walk, x: string, ty: VarType, f: Walk, rho: Assignment)
    requires Ready(w) && Within(NewVar(w, x, ty).0, f, rho)
    ensures Placed(NewVar(w, x, ty).0, f, rho)
    ensures x in f.vars && x in f.types && f.vars[x] == NewVar(w, x, ty).1 && CtxFits(f.types[x], f.vars[x])
    ensures forall ty' :: NewVar(NewVar(w, x, ty).0, x, ty') == NewVar(w, x, ty)
  {
    NewVarKeeps(w, x, ty);
    var w1 := NewVar(w, x, ty).0;
    assert VarKept(w1, f, x) && VarFits(f, x);
  }

  lemma ConditionalParts(w: Walk, e: Expr, f: Walk, rho: Assignment)
    requires Ready(w) && e.Conditional? && Within(Gen(w, e).0, f, rho)
    ensures var w1 := Gen(w, e.cond).0; var x := Gen(w1, e.thn); var y := Gen(x.0, e.els);
            Placed(w1, f, rho) && Placed(x.0, f, rho) && Placed(y.0, f, rho) && Solves(rho, Merge(y.0.sys, x.1, y.1).0)
  {
    GenKeeps(w, e.cond);
    var w1 := Gen(w, e.cond).0;
    GenKeeps(w1, e.thn);
    var x := Gen(w1, e.thn);
    GenKeeps(x.0, e.els);
    var y := Gen(x.0, e.els);
    ThenKept(w1, x, y);
    MergeGrows(y.0.sys, x.1, y.1);
    GrownSystem(y.0, Merge(y.0.sys, x.1, y.1).0);
    KeptEarlier(y.0, Gen(w, e), f, rho) by { StaysKeptAfter(y.0, Gen(w, e), w, e); }
    KeptEarlier(x.0, y, f, rho);
    KeptEarlier(w1, x, f, rho);
  }

  // The result of a walk, seen from an intermediate walk.
  lemma StaysKeptAfter(v: Walk, r: (Walk, Ctx), w: Walk, e: Expr)
    requires Ready(w) && r == Gen(w, e) && Later(v, r.0)
    ensures Kept(v, r)
  {
    GenKeeps(w, e);
  }

  lemma BinaryParts(w: Walk, e: Expr, f: Walk, rho: Assignment)
    requires Ready(w) && e.Binary? && Within(Gen(w, e).0, f, rho)
    ensures var x := Gen(w, e.left); var y := Gen(x.0, e.right);
            Placed(x.0, f, rho) && Placed(y.0, f, rho) && Solves(rho, Combine(y.0, e.op, x.1, y.1).0.sys)
  {
    GenKeeps(w, e.left);
    var x := Gen(w, e.left);
    GenKeeps(x.0, e.right);
    var y := Gen(x.0, e.right);
    ThenKept(w, x, y);
    CombineKeeps(y.0, e.op, x.1, y.1);
    KeptEarlier(y.0, Combine(y.0, e.op, x.1, y.1), f, rho);
    KeptEarlier(x.0, y, f, rho);
  }

  lemma CallParts(w: Walk, e: Expr, f: Walk, rho: Assignment)
    requires Ready(w) && e.Call? && Within(Gen(w, e).0, f, rho)
    ensures var w0 := NewVar(w, e.callee, OtherType).0; var (w1, cs) := GenArgs(w0, e.args);
            Ready(w0) && Placed(w1, f, rho) && Solves(rho, GenCall(w1, e.callee, e.args, cs).0.sys)
  {
    NewVarKeeps(w, e.callee, OtherType);
    var w0 := NewVar(w, e.callee, OtherType).0;
    GenArgsKeep(w0, e.args);
    var (w1, cs) := GenArgs(w0, e.args);
    CallKept(w1, e.callee, e.args, cs);
    KeptEarlier(w1, GenCall(w1, e.callee, e.args, cs), f, rho);
  }

  // What an assigned expression adds: its own constraints, the operator's, then the flow into the variable.
  function Assigned(w1: Walk, y: (Walk, Ctx), dst: Ctx, op: Option<BinOp>): (Walk, Ctx) {
    if op.None? then y else Combine(y.0, op.value, dst, y.1)
  }

  lemma AssignParts(w: Walk, e: Expr, f: Walk, rho: Assignment)
    requires Ready(w) && e.Assign? && e.lhs.Var? && Within(Gen(w, e).0, f, rho)
    ensures var w1 := NewVar(w, e.lhs.name, OtherType).0; var y := Gen(w1, e.rhs);
            && e.lhs.name in f.vars && Placed(w1, f, rho) && Placed(y.0, f, rho)
            && AssignedInto(w1, y, f.vars[e.lhs.name], e.aop, Gen(w, e), rho)
  {
    var x := e.lhs.name;
    NewVarKeeps(w, x, OtherType);
    var (w1, dst) := NewVar(w, x, OtherType);
    GenKeeps(w1, e.rhs);
    var y := Gen(w1, e.rhs);
    StaysKept(w1, dst);
    ThenKept(w1, (w1, dst), y);
    assert Gen(w1, e.lhs) == (w1, dst) && Gen(w, e.lhs) == (w1, dst);
    AssignedParts(w1, y, dst, e.aop, Gen(w, e), f, rho);
    KeptEarlier(w1, y, f, rho);
    NewVarPlaced(w, x, OtherType, f, rho);
  }

  ghost predicate AssignedInto(w1: Walk, y: (Walk, Ctx), dst: Ctx, op: Option<BinOp>, r: (Walk, Ctx), rho: Assignment) {
    var (w2, src) := Assigned(w1, y, dst, op);
    && r.1 == src && Ready(w2) && Solves(rho, w2.sys) && Solves(rho, Flow(w2.sys, dst, src))
  }

  lemma AssignedParts(w1: Walk, y: (Walk, Ctx), dst: Ctx, op: Option<BinOp>, r: (Walk, Ctx), f: Walk, rho: Assignment)
    requires Ready(w1) && Kept(w1, y) && CtxBelow(dst, y.0.sys.Size())
    requires var (w2, src) := Assigned(w1, y, dst, op); r == (w2.With(Flow(w2.sys, dst, src)), src)
    requires Within(r.0, f, rho)
    ensures AssignedInto(w1, y, dst, op, r, rho) && Within(y.0, f, rho)
  {
    if op.Some? { CombineKeeps(y.0, op.value, dst, y.1); } else { LaterReflexive(y.0); }
    var (w2, src) := Assigned(w1, y, dst, op);
    CarryBelow(y.0, w2, dst);
    FlowKeeps(w2, dst, src);
    CarryBelow(w2, r.0, src);
    KeptEarlier(w2, r, f, rho);
    KeptEarlier(y.0, (w2, src), f, rho);
  }

  // ----- kinds -----

  // The kind of an expression is the kind of its context.
  ghost predicate HasKind(k: Kind, c: Ctx) { (k == KInt ==> c.CInt?) && (k == KStr ==> c.CStr?) }

  lemma {:induction false} KindSound(w: Walk, e: Expr, f: Walk, rho: Assignment)
    requires Ready(w) && Within(Gen(w, e).0, f, rho)
    ensures HasKind(KindOf(f.types, e), Gen(w, e).1)
    decreases e, 1
  {
    match e
    case Var(x) => NewVarPlaced(w, x, OtherType, f, rho);
    case Conditional(_, _, _) => ConditionalKind(w, e, f, rho);
    case Call(_, args) => if |args| == 1 { CallKind(w, e, f, rho); }
    case Unary(op, a) => if op == Neg { KindSound(w, a, f, rho); }
    case Binary(op, a, b) =>
      BinaryParts(w, e, f, rho);
      KindSound(w, a, f, rho);
      KindSound(Gen(w, a).0, b, f, rho);
    case Assign(_, op, _) => if op.None? { AssignKind(w, e, f, rho); }
    case Comma(a, b) =>
      GenKeeps(w, a);
      KindSound(Gen(w, a).0, b, f, rho);
    case _ =>
  }

  lemma {:induction false} ConditionalKind(w: Walk, e: Expr, f: Walk, rho: Assignment)
    requires Ready(w) && e.Conditional? && Within(Gen(w, e).0, f, rho)
    ensures HasKind(KindOf(f.types, e), Gen(w, e).1)
    decreases e, 0
  {
    ConditionalParts(w, e, f, rho);
    var w1 := Gen(w, e.cond).0;
    KindSound(w1, e.thn, f, rho);
    KindSound(Gen(w1, e.thn).0, e.els, f, rho);
  }

  lemma {:induction false} AssignKind(w: Walk, e: Expr, f: Walk, rho: Assignment)
    requires Ready(w) && e.Assign? && e.aop.None? && Within(Gen(w, e).0, f, rho)
    ensures HasKind(KindOf(f.types, e), Gen(w, e).1)
    decreases e, 0
  {
    GenKeeps(w, e.lhs);
    var dst := Gen(w, e.lhs);
    GenKeeps(dst.0, e.rhs);
    var src := Gen(dst.0, e.rhs);
    ThenKept(w, dst, src);
    AssignedParts(dst.0, src, dst.1, None, Gen(w, e), f, rho);
    KindSound(dst.0, e.rhs, f, rho);
  }

  lemma {:induction false} CallKind(w: Walk, e: Expr, f: Walk, rho: Assignment)
    requires Ready(w) && e.Call? && |e.args| == 1 && Within(Gen(w, e).0, f, rho)
    ensures HasKind(KindOf(f.types, e), Gen(w, e).1)
    decreases e, 0
  {
    CallParts(w, e, f, rho);
    var w0 := NewVar(w, e.callee, OtherType).0;
    OneArgument(w0, e.args);
    KindSound(w0, e.args[0], f, rho);
  }

  lemma OneArgument(w: Walk, args: seq<Expr>)
    requires |args| == 1
    ensures GenArgs(w, args) == (Gen(w, args[0]).0, [Gen(w, args[0]).1])
  {
    var w1 := Gen(w, args[0]).0;
    assert args[1..] == [] && GenArgs(w1, args[1..]) == (w1, []);
    assert [Gen(w, args[0]).1] + [] == [Gen(w, args[0]).1];
  }

  // ----- expressions -----

  lemma VarSound(w: Walk, x: string, st: State, f: Walk, rho: Assignment)
    requires Ready(w) && Within(NewVar(w, x, OtherType).0, f, rho) && StateIn(st, f, rho)
    ensures !st.loose && Runs.Load(x, st).Some? ==> InCtx(Runs.Load(x, st).value, NewVar(w, x, OtherType).1, f, rho)
    ensures TypeOf(f.types, x) == OtherType ==> NewVar(w, x, OtherType).1 == CNone
  {
    NewVarPlaced(w, x, OtherType, f, rho);
    if st.loose {
    } else if x in st.store.ints {
      assert IntIn(x, st.store.ints[x], f, rho);
    } else if x in st.store.strs {
      assert BufIn(x, st.store.strs[x], f, rho);
      BareHome(x, 0, f, rho);
      AtIn(st.store, x, 0, f.vars[x], f, rho);
    }
  }

  lemma DecideKeeps(v: Value, st: State, f: Walk, rho: Assignment)
    requires StateIn(st, f, rho)
    ensures Runs.Decide(v, st).Some? ==> StateIn(Runs.Decide(v, st).value.1, f, rho)
  {
  }

  // Whatever a run evaluates an expression to lies in the context the walk gave it.
  lemma {:induction false} EvalSound(e: Expr, st: State, w: Walk, f: Walk, rho: Assignment)
    requires Ready(w) && Within(Gen(w, e).0, f, rho) && StateIn(st, f, rho)
    ensures Good(Runs.Eval(f.types, e, st), Gen(w, e).1, f, rho)
    decreases e, 1
  {
    match e
    case Var(x) => VarSound(w, x, st, f, rho);
    case IntConst(n) => ConstantDenotes(n, rho);
    case CharConst =>
    case StrConst(s) => ConstantDenotes(|s| + 1, rho);
    case OtherConst =>
    case Conditional(_, _, _) => ConditionalSound(e, st, w, f, rho);
    case Call(_, _) => CallExprSound(e, st, w, f, rho);
    case Unary(op, a) =>
      if op in {Neg, Not, BitNot} { UnarySound(e, st, w, f, rho); } else { UpdateSound(e, st, w, f, rho); }
    case Binary(_, _, _) => BinarySound(e, st, w, f, rho);
    case Assign(_, _, _) => AssignSound(e, st, w, f, rho);
    case Comma(a, b) =>
      GenKeeps(w, a);
      var w1 := Gen(w, a).0;
      GenKeeps(w1, b);
      KeptEarlier(w1, Gen(w1, b), f, rho);
      EvalSound(a, st, w, f, rho);
      EvalSound(b, Runs.Eval(f.types, a, st).0, w1, f, rho);
  }

  lemma {:induction false} ConditionalSound(e: Expr, st: State, w: Walk, f: Walk, rho: Assignment)
    requires Ready(w) && e.Conditional? && Within(Gen(w, e).0, f, rho) && StateIn(st, f, rho)
    ensures Good(Runs.Eval(f.types, e, st), Gen(w, e).1, f, rho)
    decreases e, 0
  {
    ConditionalParts(w, e, f, rho);
    EvalSound(e.cond, st, w, f, rho);
    var (st1, v) := Runs.Eval(f.types, e.cond, st);
    if v.Some? && Runs.Decide(v.value, st1).Some? {
      DecideKeeps(v.value, st1, f, rho);
      var (first, st2) := Runs.Decide(v.value, st1).value;
      BranchSound(e, first, st2, w, f, rho);
    }
  }

  lemma {:induction false} BranchSound(e: Expr, first: bool, st: State, w: Walk, f: Walk, rho: Assignment)
    requires Ready(w) && e.Conditional? && Within(Gen(w, e).0, f, rho) && StateIn(st, f, rho)
    ensures var r := if first then Runs.Eval(f.types, e.thn, st) else Runs.Eval(f.types, e.els, st);
            Good(Runs.Chosen(KindOf(f.types, e.thn), KindOf(f.types, e.els), r), Gen(w, e).1, f, rho)
    decreases e, 0, 0
  {
    ConditionalParts(w, e, f, rho);
    var w1 := Gen(w, e.cond).0;
    var x := Gen(w1, e.thn);
    var y := Gen(x.0, e.els);
    if first { EvalSound(e.thn, st, w1, f, rho); } else { EvalSound(e.els, st, x.0, f, rho); }
    KindSound(w1, e.thn, f, rho);
    KindSound(x.0, e.els, f, rho);
    var r := if first then Runs.Eval(f.types, e.thn, st) else Runs.Eval(f.types, e.els, st);
    ChosenSound(y.0.sys, x.1, y.1, KindOf(f.types, e.thn), KindOf(f.types, e.els), r, f, rho);
  }

  lemma ChosenSound(s: Sys, a: Ctx, b: Ctx, j: Kind, k: Kind, r: Runs.Outcome, f: Walk, rho: Assignment)
    requires s.Valid() && Solves(rho, Merge(s, a, b).0) && HasKind(j, a) && HasKind(k, b)
    requires Good(r, a, f, rho) || Good(r, b, f, rho)
    ensures Good(Runs.Chosen(j, k, r), Merge(s, a, b).1, f, rho)
  {
    if !r.0.loose && r.1.Some? && j == k != KNone { MergeSound(s, a, b, r.1.value, f, rho); }
  }

  lemma {:induction false} CallExprSound(e: Expr, st: State, w: Walk, f: Walk, rho: Assignment)
    requires Ready(w) && e.Call? && Within(Gen(w, e).0, f, rho) && StateIn(st, f, rho)
    ensures Good(Runs.Eval(f.types, e, st), Gen(w, e).1, f, rho)
    decreases e, 0
  {
    CallParts(w, e, f, rho);
    var w0 := NewVar(w, e.callee, OtherType).0;
    var (w1, cs) := GenArgs(w0, e.args);
    ArgsSound(e.args, st, w0, f, rho);
    var (st1, vals) := Runs.EvalArgs(f.types, e.args, st);
    if vals.Some? { CallSound(e.callee, e.args, vals.value, cs, st1, w1, f, rho); }
  }

  lemma {:induction false} ArgsSound(args: seq<Expr>, st: State, w: Walk, f: Walk, rho: Assignment)
    requires Ready(w) && Within(GenArgs(w, args).0, f, rho) && StateIn(st, f, rho)
    ensures StateIn(Runs.EvalArgs(f.types, args, st).0, f, rho)
    ensures var (st', vals) := Runs.EvalArgs(f.types, args, st);
            !st'.loose && vals.Some? ==> AllInCtx(vals.value, GenArgs(w, args).1, f, rho)
    decreases args, 1
  {
    if args != [] {
      ArgsParts(w, args, f, rho);
      EvalSound(args[0], st, w, f, rho);
      ArgsSound(args[1..], Runs.Eval(f.types, args[0], st).0, Gen(w, args[0]).0, f, rho);
    }
  }

  lemma ArgsParts(w: Walk, args: seq<Expr>, f: Walk, rho: Assignment)
    requires Ready(w) && args != [] && Within(GenArgs(w, args).0, f, rho)
    ensures Placed(Gen(w, args[0]).0, f, rho) && Within(GenArgs(Gen(w, args[0]).0, args[1..]).0, f, rho)
  {
    GenKeeps(w, args[0]);
    var w1 := Gen(w, args[0]).0;
    GenArgsKeep(w1, args[1..]);
    WithinEarlier(w1, GenArgs(w1, args[1..]).0, f, rho);
  }

  lemma {:induction false} UnarySound(e: Expr, st: State, w: Walk, f: Walk, rho: Assignment)
    requires e.Unary? && (e.uop == Neg || e.uop == Not || e.uop == BitNot)
    requires Ready(w) && Within(Gen(w, e).0, f, rho) && StateIn(st, f, rho)
    ensures Good(Runs.Eval(f.types, e, st), Gen(w, e).1, f, rho)
    decreases e, 0
  {
    GenKeeps(w, e.arg);
    var (w1, c) := Gen(w, e.arg);
    if e.uop == Not { BoolGrows(w1); } else { LaterReflexive(w1); }
    WithinEarlier(w1, Gen(w, e).0, f, rho);
    EvalSound(e.arg, st, w, f, rho);
    var (st1, v) := Runs.Eval(f.types, e.arg, st);
    if !st1.loose && v.Some? {
      if e.uop == Neg {
        if v.value.IntV? { NegateDenotes(c.t, rho, v.value.n); }
      } else if e.uop == Not {
        SolvedWithin(w1.With(BoolTerm(w1.sys).0), f, rho);
        NotSound(v.value, st1, w1, f, rho);
      }
    }
  }

  lemma NotSound(v: Value, st: State, w: Walk, f: Walk, rho: Assignment)
    requires StateIn(st, f, rho) && !st.loose && Solves(rho, BoolTerm(w.sys).0)
    ensures var d := Runs.Decide(v, st);
            d.Some? ==> StateIn(d.value.1, f, rho) && Denotes(BoolTerm(w.sys).1, rho, Runs.Bit(!d.value.0))
  {
    DecideKeeps(v, st, f, rho);
    var d := Runs.Decide(v, st);
    if d.Some? { TruthFlows(w.sys, rho, Runs.Bit(!d.value.0)); }
  }

  lemma {:induction false} BinarySound(e: Expr, st: State, w: Walk, f: Walk, rho: Assignment)
    requires Ready(w) && e.Binary? && Within(Gen(w, e).0, f, rho) && StateIn(st, f, rho)
    ensures Good(Runs.Eval(f.types, e, st), Gen(w, e).1, f, rho)
    decreases e, 0
  {
    BinaryParts(w, e, f, rho);
    var x := Gen(w, e.left);
    var y := Gen(x.0, e.right);
    EvalSound(e.left, st, w, f, rho);
    var (st1, v) := Runs.Eval(f.types, e.left, st);
    if v.Some? {
      if Runs.Skips(e.op, v.value) {
        KindSound(x.0, e.right, f, rho);
        if !st1.loose { SkippedSound(y.0, e.op, x.1, y.1, v.value, KindOf(f.types, e.right), f, rho); }
      } else {
        EvalSound(e.right, st1, x.0, f, rho);
        var (st2, u) := Runs.Eval(f.types, e.right, st1);
        if Runs.Forward(e.right) { ForwardIsPositive(x.0, e.right, f, rho); }
        if !st2.loose && u.Some? {
          OperateSound(y.0, e.op, x.1, y.1, v.value, u.value, Runs.Forward(e.right), f, rho);
        }
      }
    }
  }

  lemma {:induction false} AssignSound(e: Expr, st: State, w: Walk, f: Walk, rho: Assignment)
    requires Ready(w) && e.Assign? && Within(Gen(w, e).0, f, rho) && StateIn(st, f, rho)
    ensures Good(Runs.Eval(f.types, e, st), Gen(w, e).1, f, rho)
    decreases e, 0
  {
    if e.lhs.Var? {
      AssignParts(w, e, f, rho);
      var x := e.lhs.name;
      var w1 := NewVar(w, x, OtherType).0;
      VarSound(w, x, st, f, rho);
      EvalSound(e.rhs, st, w1, f, rho);
      NewVarPlaced(w, x, OtherType, f, rho);
      var was, v := Runs.Load(x, st), Runs.Eval(f.types, e.rhs, st);
      if v.1.Some? && (e.aop.Some? ==> was.Some?) {
        ForwardIfClaimed(w1, e.rhs, f, rho);
        AssignedSound(x, e.aop, was, v.1.value, v.0, Runs.Forward(e.rhs), w1, Gen(w1, e.rhs), Gen(w, e), f, rho);
      }
    }
  }

  lemma ForwardIfClaimed(w: Walk, e: Expr, f: Walk, rho: Assignment)
    requires Ready(w) && Within(Gen(w, e).0, f, rho)
    ensures Runs.Forward(e) && Gen(w, e).1.CInt? ==> Positive(Gen(w, e).1.t)
  {
    if Runs.Forward(e) { ForwardIsPositive(w, e, f, rho); }
  }

  // Combining with the old value if there is an operator, then storing.
  lemma AssignedSound(x: string, op: Option<BinOp>, was: Option<Value>, v: Value, st: State, forward: bool,
                      w1: Walk, y: (Walk, Ctx), r: (Walk, Ctx), f: Walk, rho: Assignment)
    requires Ready(f) && x in f.vars && StateIn(st, f, rho) && Ready(y.0)
    requires op.Some? ==> was.Some?
    requires st.loose || (InCtx(v, y.1, f, rho) && (op.Some? ==> InCtx(was.value, f.vars[x], f, rho)))
    requires forward && y.1.CInt? ==> Positive(y.1.t)
    requires AssignedInto(w1, y, f.vars[x], op, r, rho)
    ensures var stored := if op.None? then Some(v) else Runs.Operate(op.value, was.value, v, forward);
            stored.Some? ==> Good(Runs.SetVariable(f.types, x, stored.value, st), r.1, f, rho)
  {
    var stored := if op.None? then Some(v) else Runs.Operate(op.value, was.value, v, forward);
    var w2 := Assigned(w1, y, f.vars[x], op).0;
    if op.Some? && !st.loose { OperateSound(y.0, op.value, f.vars[x], y.1, was.value, v, forward, f, rho); }
    if stored.Some? { StoreSound(x, stored.value, st, r.1, w2, f, rho); }
  }

  // `++` and `--` on a variable.
  lemma UpdateSound(e: Expr, st: State, w: Walk, f: Walk, rho: Assignment)
    requires e.Unary? && e.uop in {PreInc, PreDec, PostInc, PostDec}
    requires Ready(w) && Within(Gen(w, e).0, f, rho) && StateIn(st, f, rho)
    ensures Good(Runs.Eval(f.types, e, st), Gen(w, e).1, f, rho)
  {
    if e.arg.Var? { BumpSound(e.uop, e.arg.name, st, w, Gen(w, e), f, rho); }
  }

  lemma BumpSound(uop: UnOp, x: string, st: State, w: Walk, r: (Walk, Ctx), f: Walk, rho: Assignment)
    requires var op := if uop == PreInc || uop == PostInc then Add else Sub; r == Update(w, Var(x), op)
    requires Ready(w) && Within(r.0, f, rho) && StateIn(st, f, rho)
    ensures Good(Runs.Bump(f.types, uop, x, st), r.1, f, rho)
  {
    var op := if uop == PreInc || uop == PostInc then Add else Sub;
    UpdateParts(w, x, op, r, f, rho);
    var w1 := NewVar(w, x, OtherType).0;
    VarSound(w, x, st, f, rho);
    NewVarPlaced(w, x, OtherType, f, rho);
    BumpStores(uop, x, st, w1, r, f, rho);
  }

  lemma BumpStores(uop: UnOp, x: string, st: State, w1: Walk, r: (Walk, Ctx), f: Walk, rho: Assignment)
    requires Ready(f) && x in f.vars && StateIn(st, f, rho) && Ready(w1)
    requires !st.loose && Runs.Load(x, st).Some? ==> InCtx(Runs.Load(x, st).value, f.vars[x], f, rho)
    requires var op := if uop == PreInc || uop == PostInc then Add else Sub;
             AssignedInto(w1, (w1, CInt(Constant(1))), f.vars[x], Some(op), r, rho)
    ensures Good(Runs.Bump(f.types, uop, x, st), r.1, f, rho)
  {
    var op := if uop == PreInc || uop == PostInc then Add else Sub;
    ConstantDenotes(1, rho);
    var was := Runs.Load(x, st);
    if was.Some? { AssignedSound(x, Some(op), was, IntV(1), st, true, w1, (w1, CInt(Constant(1))), r, f, rho); }
  }

  lemma UpdateParts(w: Walk, x: string, op: BinOp, r: (Walk, Ctx), f: Walk, rho: Assignment)
    requires Ready(w) && r == Update(w, Var(x), op) && Within(r.0, f, rho)
    ensures var w1 := NewVar(w, x, OtherType).0;
            x in f.vars && Placed(w1, f, rho) && AssignedInto(w1, (w1, CInt(Constant(1))), f.vars[x], Some(op), r, rho)
  {
    NewVarKeeps(w, x, OtherType);
    var (w1, dst) := NewVar(w, x, OtherType);
    assert Gen(w1, Var(x)) == (w1, dst);
    StaysKept(w1, CInt(Constant(1)));
    AssignedParts(w1, (w1, CInt(Constant(1))), dst, Some(op), r, f, rho);
    NewVarPlaced(w, x, OtherType, f, rho);
  }

  // ----- declarations -----

  lemma SeededSizeHolds(x: string, f: Walk, rho: Assignment)
    requires Ready(f) && Solves(rho, f.sys) && x in f.vars && x in f.types && f.types[x].CharArray?
             && f.types[x].size.Some?
    ensures f.vars[x].CStr? && IsVar(f.vars[x].siz) && IsVar(f.vars[x].len)
    ensures Denotes(f.vars[x].siz, rho, f.types[x].size.value)
  {
    assert VarFits(f, x);
    var n, v := f.types[x].size.value, f.vars[x].siz.terms[0].v;
    var i :| 0 <= i < |f.sys.constraints| && f.sys.constraints[i] == Subset(Constant(n), v);
    assert Satisfied(f.sys.constraints[i], rho);
    SeedHolds(rho, n, v);
    VarDenotes(v, rho, n);
  }

  lemma DeclParts(w: Walk, x: string, ty: VarType, e: Expr, f: Walk, rho: Assignment)
    requires Ready(w) && Within(GenDecl(w, x, ty, Some(e)), f, rho)
    ensures var w1 := NewVar(w, x, ty).0; var (w2, src) := Gen(w1, e);
            && Ready(w1) && Placed(w2, f, rho)
            && x in f.vars && x in f.types && CtxFits(f.types[x], f.vars[x])
            && Solves(rho, DoInit(w2, ty, f.vars[x], e, src).sys)
  {
    NewVarKeeps(w, x, ty);
    var (w1, c) := NewVar(w, x, ty);
    GenKeeps(w1, e);
    var (w2, src) := Gen(w1, e);
    CarryBelow(w1, w2, c);
    assert VarFits(w1, x);
    DoInitKeeps(w2, ty, c, e, src);
    var w3 := DoInit(w2, ty, c, e, src);
    WithinEarlier(w2, w3, f, rho);
    WithinEarlier(w1, w2, f, rho);
    SolvedWithin(w3, f, rho);
    NewVarPlaced(w, x, ty, f, rho);
  }

  // A literal copied into an array.
  lemma ArrayInitSound(w: Walk, x: string, e: Expr, st: State, f: Walk, rho: Assignment)
    requires StateIn(st, f, rho) && Ready(f) && Solves(rho, f.sys) && e.StrConst?
    requires x in f.vars && x in f.types && f.types[x].CharArray? && CtxFits(f.types[x], f.vars[x])
    requires Solves(rho, DoInit(w, f.types[x], f.vars[x], e, CStr(Constant(|e.s| + 1), Constant(|e.s| + 1))).sys)
    ensures StateIn(Runs.Declare(f.types, x, f.types[x], Some(e), st).0, f, rho)
  {
    var n, ty, c := |e.s| + 1, f.types[x], f.vars[x];
    var len := c.len.terms[0].v;
    if ty.size.Some? {
      SeededSizeHolds(x, f, rho);
      var m := Min(n, ty.size.value);
      ConstantDenotes(m, rho);
      IncludeFlowsTo(w.sys, Constant(m), len, rho, m);
      VarDenotes(len, rho, m);
      InitialisedLength(ty.size.value, n);
      SetStrIn(st, x, Runs.Initialised(ty.size.value, n), f, rho);
    } else {
      PinnedInit(w.sys, c, n, rho);
      InitialisedLength(n, n);
      SetStrIn(st, x, Runs.Initialised(n, n), f, rho);
    }
  }

  lemma InitialisedLength(size: int, n: int)
    requires n >= 1
    ensures Runs.Initialised(size, n).Len() == if n <= size then Some(n) else None
  {
    if n <= size {
      var empty := Buf(size, [], None);
      WriteTextLength(empty, 0, n, Fill(Nul, size - n));
      assert empty.Write(0, TextOf(n) + Fill(Nul, size - n)).cells == TextOf(n) + Fill(Nul, size - n);
    } else {
      AllText(Fill(Text, size));
    }
  }

  // An unsized array takes the size of its literal by a pin, its length by a flow.
  lemma PinnedInit(s: Sys, c: Ctx, n: int, rho: Assignment)
    requires c.CStr? && IsVar(c.siz) && IsVar(c.len)
    requires Solves(rho, FlowInit(s.Equate(c.siz, Constant(n)), c, CStr(Constant(n), Constant(n))))
    ensures Denotes(c.siz, rho, n) && Denotes(c.len, rho, n)
  {
    var s1 := s.Equate(c.siz, Constant(n));
    var siz, len := c.siz.terms[0].v, c.len.terms[0].v;
    assert c.siz.SingleVarAny() == Some((0, siz));
    assert s1.fixed[|s.fixed|] == (siz, Singleton(n - 0));
    assert Leq(Singleton(n), rho(siz));
    VarDenotes(siz, rho, n);
    ConstantDenotes(n, rho);
    IncludeFlowsTo(s1, Constant(n), len, rho, n);
    VarDenotes(len, rho, n);
  }

  lemma DeclSound(w: Walk, x: string, ty: VarType, ini: Option<Expr>, st: State, f: Walk, rho: Assignment)
    requires Ready(w) && Within(GenDecl(w, x, ty, ini), f, rho) && StateIn(st, f, rho)
    ensures StateIn(Runs.Declare(f.types, x, ty, ini, st).0, f, rho)
  {
    if TypeOf(f.types, x) == ty {
      if ini.None? {
        NewVarPlaced(w, x, ty, f, rho);
        if ty.CharArray? && ty.size.Some? {
          SeededSizeHolds(x, f, rho);
          SetStrIn(st, x, Buf(ty.size.value, [], None), f, rho);
        } else {
          ForgetIn(st, x, f, rho);
        }
      } else {
        DeclParts(w, x, ty, ini.value, f, rho);
        InitSound(w, x, ty, ini.value, st, f, rho);
      }
    }
  }

  lemma InitSound(w: Walk, x: string, ty: VarType, e: Expr, st: State, f: Walk, rho: Assignment)
    requires var w1 := NewVar(w, x, ty).0; var (w2, src) := Gen(w1, e);
             Ready(w1) && Placed(w2, f, rho) && x in f.vars && x in f.types && f.types[x] == ty
               && CtxFits(ty, f.vars[x])
             && Solves(rho, DoInit(w2, ty, f.vars[x], e, src).sys)
    requires StateIn(st, f, rho)
    ensures StateIn(Runs.Declare(f.types, x, ty, Some(e), st).0, f, rho)
  {
    var w1 := NewVar(w, x, ty).0;
    var (w2, src) := Gen(w1, e);
    if ty.CharArray? {
      if e.StrConst? { ArrayInitSound(w2, x, e, st, f, rho); }
    } else {
      EvalSound(e, st, w1, f, rho);
      var (st1, v) := Runs.Eval(f.types, e, st);
      if v.Some? { StoreSound(x, v.value, st1, src, w2, f, rho); }
    }
  }

  // ----- statements -----

  lemma TestSound(c: Expr, st: State, w: Walk, f: Walk, rho: Assignment)
    requires Ready(w) && Within(Gen(w, c).0, f, rho) && StateIn(st, f, rho)
    ensures StateIn(Runs.Test(f.types, c, st).0, f, rho)
  {
    EvalSound(c, st, w, f, rho);
    var (st1, v) := Runs.Eval(f.types, c, st);
    if v.Some? { DecideKeeps(v.value, st1, f, rho); }
  }

  lemma OptionSound(e: Option<Expr>, st: State, w: Walk, f: Walk, rho: Assignment)
    requires Ready(w) && Within(GenOption(w, e), f, rho) && StateIn(st, f, rho)
    ensures StateIn(Runs.EvalOption(f.types, e, st).0, f, rho)
  {
    if e.Some? { EvalSound(e.value, st, w, f, rho); }
  }

  // Whatever statement is run, from any state inside the solution, for however long.
  lemma {:induction false} ExecSound(s: Stmt, st: State, w: Walk, f: Walk, rho: Assignment, fuel: nat)
    requires Ready(w) && Within(GenStmt(w, s), f, rho) && StateIn(st, f, rho)
    ensures StateIn(Runs.Exec(f.types, s, st, fuel).0, f, rho)
    decreases fuel, s, 1
  {
    match s
    case Simple(e) => EvalSound(e, st, w, f, rho);
    case If(_, _, _) => IfSound(s, st, w, f, rho, fuel);
    case While(_, _) => if fuel > 0 { WhileSound(s, st, w, f, rho, fuel); }
    case DoWhile(_, _) => if fuel > 0 { DoWhileSound(s, st, w, f, rho, fuel); }
    case For(ini, _, _, _) =>
      ForParts(s, w, f, rho);
      OptionSound(ini, st, w, f, rho);
      ForSound(s, Runs.EvalOption(f.types, ini, st).0, w, f, rho, fuel);
    case Block(items) => BlockSound(items, st, w, f, rho, fuel);
    case Decl(x, ty, ini) => DeclSound(w, x, ty, ini, st, f, rho);
    case Break =>
    case Continue =>
  }

  // A condition and the statement walked after it.
  lemma GuardedParts(c: Expr, s: Stmt, w: Walk, f: Walk, rho: Assignment)
    requires Ready(w) && Within(GenStmt(Gen(w, c).0, s), f, rho)
    ensures Placed(Gen(w, c).0, f, rho)
  {
    GenKeeps(w, c);
    GenStmtKeeps(Gen(w, c).0, s);
    WithinEarlier(Gen(w, c).0, GenStmt(Gen(w, c).0, s), f, rho);
  }

  lemma {:induction false} IfSound(s: Stmt, st: State, w: Walk, f: Walk, rho: Assignment, fuel: nat)
    requires Ready(w) && s.If? && Within(GenStmt(w, s), f, rho) && StateIn(st, f, rho)
    ensures StateIn(Runs.Exec(f.types, s, st, fuel).0, f, rho)
    decreases fuel, s, 0
  {
    GenKeeps(w, s.c);
    var w0 := Gen(w, s.c).0;
    GenStmtKeeps(w0, s.t);
    var w1 := GenStmt(w0, s.t);
    if s.f.Some? {
      GenStmtKeeps(w1, s.f.value);
      WithinEarlier(w1, GenStmt(w1, s.f.value), f, rho);
    }
    GuardedParts(s.c, s.t, w, f, rho);
    TestSound(s.c, st, w, f, rho);
    var (st1, b) := Runs.Test(f.types, s.c, st);
    if b.Some? {
      if b.value { ExecSound(s.t, st1, w0, f, rho, fuel); }
      else if s.f.Some? { ExecSound(s.f.value, st1, w1, f, rho, fuel); }
    }
  }

  lemma {:induction false} WhileSound(s: Stmt, st: State, w: Walk, f: Walk, rho: Assignment, fuel: nat)
    requires Ready(w) && s.While? && Within(GenStmt(w, s), f, rho) && StateIn(st, f, rho) && fuel > 0
    ensures StateIn(Runs.Exec(f.types, s, st, fuel).0, f, rho)
    decreases fuel, s, 0
  {
    GuardedParts(s.c, s.body, w, f, rho);
    TestSound(s.c, st, w, f, rho);
    var (st1, b) := Runs.Test(f.types, s.c, st);
    if b == Some(true) {
      ExecSound(s.body, st1, Gen(w, s.c).0, f, rho, fuel - 1);
      ExecSound(s, Runs.Exec(f.types, s.body, st1, fuel - 1).0, w, f, rho, fuel - 1);
    }
  }

  lemma {:induction false} DoWhileSound(s: Stmt, st: State, w: Walk, f: Walk, rho: Assignment, fuel: nat)
    requires Ready(w) && s.DoWhile? && Within(GenStmt(w, s), f, rho) && StateIn(st, f, rho) && fuel > 0
    ensures StateIn(Runs.Exec(f.types, s, st, fuel).0, f, rho)
    decreases fuel, s, 0
  {
    GuardedParts(s.c, s.body, w, f, rho);
    ExecSound(s.body, st, Gen(w, s.c).0, f, rho, fuel - 1);
    var (st1, r) := Runs.Exec(f.types, s.body, st, fuel - 1);
    TestSound(s.c, st1, w, f, rho);
    ExecSound(s, Runs.Test(f.types, s.c, st1).0, w, f, rho, fuel - 1);
  }

  lemma ForParts(s: Stmt, w: Walk, f: Walk, rho: Assignment)
    requires Ready(w) && s.For? && Within(GenStmt(w, s), f, rho)
    ensures var w1 := GenOption(w, s.ini); var w2 := GenOption(w1, s.test); var w3 := GenOption(w2, s.step);
            Placed(w1, f, rho) && Placed(w2, f, rho) && Placed(w3, f, rho)
  {
    GenOptionKeeps(w, s.ini);
    var w1 := GenOption(w, s.ini);
    GenOptionKeeps(w1, s.test);
    var w2 := GenOption(w1, s.test);
    GenOptionKeeps(w2, s.step);
    var w3 := GenOption(w2, s.step);
    GenStmtKeeps(w3, s.body);
    WithinEarlier(w3, GenStmt(w3, s.body), f, rho);
    WithinEarlier(w2, w3, f, rho);
    WithinEarlier(w1, w2, f, rho);
  }

  lemma ForTestSound(s: Stmt, st: State, w: Walk, f: Walk, rho: Assignment)
    requires Ready(w) && s.For? && Within(GenStmt(w, s), f, rho) && StateIn(st, f, rho)
    ensures StateIn(Runs.TestOption(f.types, s.test, st).0, f, rho)
  {
    ForParts(s, w, f, rho);
    if s.test.Some? { TestSound(s.test.value, st, GenOption(w, s.ini), f, rho); }
  }

  lemma {:induction false} ForSound(s: Stmt, st: State, w: Walk, f: Walk, rho: Assignment, fuel: nat)
    requires Ready(w) && s.For? && Within(GenStmt(w, s), f, rho) && StateIn(st, f, rho)
    ensures StateIn(Runs.ExecFor(f.types, s.test, s.step, s.body, st, fuel).0, f, rho)
    decreases fuel, s, 0
  {
    if fuel > 0 {
      ForTestSound(s, st, w, f, rho);
      var (st1, b) := Runs.TestOption(f.types, s.test, st);
      if b == Some(true) { ForRoundSound(s, st1, w, f, rho, fuel - 1); }
    }
  }

  // The body, the step, and the rest of the loop.
  lemma {:induction false} ForRoundSound(s: Stmt, st: State, w: Walk, f: Walk, rho: Assignment, fuel: nat)
    requires Ready(w) && s.For? && Within(GenStmt(w, s), f, rho) && StateIn(st, f, rho)
    ensures var st2 := Runs.Exec(f.types, s.body, st, fuel).0; var st3 := Runs.EvalOption(f.types, s.step, st2).0;
            && StateIn(st2, f, rho) && StateIn(st3, f, rho)
            && StateIn(Runs.ExecFor(f.types, s.test, s.step, s.body, st3, fuel).0, f, rho)
    decreases fuel, s, 2
  {
    ForParts(s, w, f, rho);
    var w2 := GenOption(GenOption(w, s.ini), s.test);
    ExecSound(s.body, st, GenOption(w2, s.step), f, rho, fuel);
    var st2 := Runs.Exec(f.types, s.body, st, fuel).0;
    OptionSound(s.step, st2, w2, f, rho);
    ForSound(s, Runs.EvalOption(f.types, s.step, st2).0, w, f, rho, fuel);
  }

  lemma {:induction false} BlockSound(items: seq<Stmt>, st: State, w: Walk, f: Walk, rho: Assignment, fuel: nat)
    requires Ready(w) && Within(GenBlock(w, items), f, rho) && StateIn(st, f, rho)
    ensures StateIn(Runs.ExecBlock(f.types, items, st, fuel).0, f, rho)
    decreases fuel, items, 1
  {
    if items != [] {
      GenStmtKeeps(w, items[0]);
      var w1 := GenStmt(w, items[0]);
      GenBlockKeeps(w1, items[1..]);
      WithinEarlier(w1, GenBlock(w1, items[1..]), f, rho);
      ExecSound(items[0], st, w, f, rho, fuel);
      var (st1, r) := Runs.Exec(f.types, items[0], st, fuel);
      if r == Runs.Normal { BlockSound(items[1..], st1, w1, f, rho, fuel); }
    }
  }

  // The values a solution allows in a store.
  ghost predicate Contains(rho: Assignment, f: Walk, s: Store) {
    && (forall x :: x in s.ints ==>
          && x in f.vars && f.vars[x].CInt? && IsVar(f.vars[x].t) && Holds(rho(f.vars[x].t.terms[0].v), s.ints[x]))
    && (forall x :: x in s.strs ==>
          && x in f.vars && f.vars[x].CStr? && IsVar(f.vars[x].siz) && IsVar(f.vars[x].len)
          && Holds(rho(f.vars[x].siz.terms[0].v), s.strs[x].siz)
          && Inside(s.strs[x], rho(f.vars[x].len.terms[0].v)))
  }

  lemma StoreContained(s: Store, f: Walk, rho: Assignment)
    requires StoreIn(s, f, rho) && Ready(f)
    ensures Contains(rho, f, s)
  {
    forall x | x in s.ints
      ensures x in f.vars && f.vars[x].CInt? && IsVar(f.vars[x].t) && Holds(rho(f.vars[x].t.terms[0].v), s.ints[x])
    {
      assert IntIn(x, s.ints[x], f, rho) && VarFits(f, x);
      BareVarDenotes(f.vars[x].t.terms[0].v, rho, s.ints[x]);
    }
    forall x | x in s.strs
      ensures x in f.vars && f.vars[x].CStr? && IsVar(f.vars[x].siz) && IsVar(f.vars[x].len)
      ensures Holds(rho(f.vars[x].siz.terms[0].v), s.strs[x].siz)
      ensures Inside(s.strs[x], rho(f.vars[x].len.terms[0].v))
    {
      var b := s.strs[x];
      assert BufIn(x, b, f, rho) && VarFits(f, x);
      BareVarDenotes(f.vars[x].siz.terms[0].v, rho, b.siz);
      if b.Len().Some? { BareVarDenotes(f.vars[x].len.terms[0].v, rho, b.Len().value); }
      if b.reach.Some? && b.reach.value > b.siz { BareVarDenotes(f.vars[x].len.terms[0].v, rho, b.reach.value); }
    }
  }

  // A run of a function body from its entry, with the given input.
  function RunBody(body: seq<Stmt>, input: seq<int>, fuel: nat): State {
    Runs.ExecBlock(GenBody(body).types, body, State(Store(map[], map[]), input, [], false, []), fuel).0
  }

  // Every store of every run of a body, up to its first routine outside its guard, stays inside every straight
  // solution of the constraints.
  lemma EveryRunStaysInside(body: seq<Stmt>, input: seq<int>, fuel: nat, rho: Assignment, i: nat)
    requires Solves(rho, GenBody(body).sys) && i < |RunBody(body, input, fuel).trail|
    ensures Contains(rho, GenBody(body), RunBody(body, input, fuel).trail[i])
  {
    var f, w := GenBody(body), DeclareLocals(Walk(NEW, map[], map[], 0), BlockLocals(body));
    GenBodyIsReady(body);
    DeclareLocalsKeeps(Walk(NEW, map[], map[], 0), BlockLocals(body));
    LaterReflexive(f);
    BlockSound(body, State(Store(map[], map[]), input, [], false, []), w, f, rho, fuel);
    StoreContained(RunBody(body, input, fuel).trail[i], f, rho);
  }
}
