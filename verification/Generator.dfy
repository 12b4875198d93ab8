/**
 Constraint generation as a function (src/walk.rs): what walking an expression or a statement adds to the
 constraint system, and the context it gives the expression. A string context is a pair of terms, the
 bytes allocated and the bytes used; an integer context is one term.
 */
module Generator {
  import opened Terms
  import opened Systems
  import opened Syntax
  import opened Formats

  datatype Ctx = CInt(t: Term) | CStr(siz: Term, len: Term) | CNone

  datatype Walk = Walk(sys: Sys, vars: map<string, Ctx>, types: map<string, VarType>, allocs: nat)
  {
    function With(s: Sys): Walk { this.(sys := s) }
  }

  // ----- contexts of variables -----

  function FreshStr(s: Sys, name: Option<string>): (Sys, Ctx) {
    var (s1, siz) := s.Fresh(if name.Some? then Some("siz(" + name.value + ")") else None);
    var (s2, len) := s1.Fresh(if name.Some? then Some("len(" + name.value + ")") else None);
    (s2.Ask(siz, len, Overflow(if name.Some? then name.value else "(unnamed)")), CStr(siz, len))
  }

  function FreshVarCtx(s: Sys, ty: VarType, name: string): (Sys, Ctx) {
    match ty
    case CharArray(size) =>
      var (s1, c) := FreshStr(s, Some(name));
      (if size.Some? then s1.Include(Constant(size.value), c.siz) else s1, c)
    case CharPointer => FreshStr(s, Some(name))
    case IntType =>
      var (s1, t) := s.Fresh(Some(name));
      (s1, CInt(t))
    case OtherType => (s, CNone)
  }

  // The context of a variable, created on first sight; a later declaration does not change it.
  function NewVar(w: Walk, x: string, ty: VarType): (Walk, Ctx) {
    if x in w.vars then (w, w.vars[x])
    else
      var (s, c) := FreshVarCtx(w.sys, ty, x);
      (Walk(s, w.vars[x := c], w.types[x := ty], w.allocs), c)
  }

  function Decimal(n: nat): string {
    if n < 10 then ["0123456789"[n]] else Decimal(n / 10) + ["0123456789"[n % 10]]
  }

  function FreshAllocStr(w: Walk): (Walk, Ctx) {
    var (s, c) := FreshStr(w.sys, Some("alloc@" + Decimal(w.allocs)));
    (w.(sys := s, allocs := w.allocs + 1), c)
  }

  // ----- assignment and pointer steps -----

  function Flow(s: Sys, dst: Ctx, src: Ctx): Sys {
    match (dst, src)
    case (CInt(d), CInt(t)) => s.Include(t, d)
    case (CStr(ds, dl), CStr(ss, sl)) => s.Include(sl, dl).Include(ss, ds)
    case _ => s
  }

  function FlowInit(s: Sys, dst: Ctx, src: Ctx): Sys {
    if dst.CStr? && src.CStr? then s.Include(src.len, dst.len) else Flow(s, dst, src)
  }

  function Advance(c: Ctx, i: Term): Ctx {
    if c.CStr? then CStr(c.siz.Minus(i), c.len.Minus(i)) else CNone
  }

  // ----- library calls -----

  // A fresh integer seeded with 0 and a largest status.
  function Status(w: Walk, name: string, most: int): (Walk, Option<Ctx>) {
    var (s, t) := w.sys.Fresh(Some(name));
    (w.With(s.Seed(0, w.sys.Size()).Seed(most, w.sys.Size())), Some(CInt(t)))
  }

  function CheckStrOp(w: Walk, f: Routine, args: seq<Ctx>): (Walk, Option<Ctx>) {
    var s, n := w.sys, |args|;
    match f
    case Strcpy =>
      if n == 2 && args[0].CStr? && args[1].CStr? then
        (w.With(s.Include(args[1].len, args[0].len)), Some(args[1]))
      else (w, None)
    case Strncpy =>
      if n == 3 && args[0].CStr? && args[1].CStr? && args[2].CInt? then
        var (s1, m) := s.MinOf(args[1].len, args[2].t);
        (w.With(s1.Include(m, args[0].len)), Some(args[0]))
      else (w, None)
    case Strlen =>
      if n == 1 && args[0].CStr? then (w, Some(CInt(args[0].len.Minus(Constant(1))))) else (w, None)
    case Strspn =>
      if n == 1 && args[0].CStr? then
        var (s1, t) := s.UnionOf(Constant(0), args[0].len.Minus(Constant(1)));
        (w.With(s1), Some(CInt(t)))
      else (w, None)
    case Strdup =>
      if n == 1 && args[0].CStr? then
        var (w1, c) := FreshAllocStr(w);
        (w1.With(w1.sys.Include(args[0].len, c.siz).Include(args[0].len, c.len)), Some(c))
      else (w, None)
    case Strcat =>
      if n == 2 && args[0].CStr? && args[1].CStr? then
        (w.With(s.Include(args[1].len, args[0].len)), Some(args[0]))
      else (w, None)
    case Strncat =>
      if n == 3 && args[0].CStr? && args[1].CStr? && args[2].CInt? then
        var (s1, m) := s.MinOf(args[1].len.Minus(Constant(1)), args[2].t);
        (w.With(s1.Include(m.Plus(args[0].len), args[0].len)), Some(args[0]))
      else (w, None)
    case Strchr =>
      if n == 2 && args[0].CStr? then
        var (s1, c) := Merge(s, CStr(Constant(1), Constant(1)), args[0]);
        (w.With(s1), Some(c))
      else (w, None)
    case Fgets =>
      if n == 3 && args[0].CStr? && args[1].CInt? then
        (w.With(s.Include(Constant(1), args[0].len).Include(args[1].t, args[0].len)), Some(args[0]))
      else (w, None)
    case Gets =>
      if n == 1 && args[0].CStr? then (w.With(s.ForceTop(args[0].len)), Some(args[0])) else (w, None)
    case Getenv =>
      var (s1, t) := s.Fresh(Some("@getenv_return"));
      (w.With(s1.ForceTop(t)), Some(CStr(t, t)))
    case Malloc =>
      if n == 1 && args[0].CInt? then
        var (w1, c) := FreshAllocStr(w);
        (w1.With(w1.sys.Include(args[0].t, c.siz)), Some(c))
      else (w, None)
    case Printf => (w, Some(CNone))
    case Gethostname =>
      if n == 2 && args[0].CStr? && args[1].CInt? then
        (w.With(s.Include(args[1].t, args[0].len)), Some(CNone))
      else (w, None)
    case Syserror => Status(w, "@syserror_return", 48)
    case Syssignal => Status(w, "@syssignal_return", 25)
    case _ => (w, None)
  }

  // ----- printf lengths -----

  // A width or precision: its term if it has one, and where the format and the arguments continue.
  datatype NumTerm = NumTerm(value: Option<Term>, next: nat, used: nat)

  function ReadNum(f: string, i: nat, pl: seq<Ctx>, k: nat): (r: NumTerm)
    requires i <= |f|
    ensures i <= r.next <= |f|
  {
    if i < |f| && f[i] == '*' then
      NumTerm(if k < |pl| && pl[k].CInt? then Some(pl[k].t) else None, i + 1, k + 1)
    else
      var j := DigitsEnd(f, i);
      if j == i then NumTerm(None, i, k)
      else
        var n := DigitsValue(f, i, j);
        NumTerm(Some(Constant(if n <= I64_MAX then n else 0)), j, k)
  }

  // The term for the bytes `f` prints from position `i` on, terminator included.
  function FmtScan(s: Sys, f: string, i: nat, pl: seq<Ctx>, k: nat): (Sys, Term)
    requires i <= |f|
    decreases |f| - i, 0
  {
    if i == |f| then (s, Constant(1))
    else if f[i] == '%' then
      if i + 1 == |f| then (s, Constant(2))
      else if f[i + 1] == '%' then
        var (s1, rest) := FmtScan(s, f, i + 2, pl, k);
        (s1, Constant(1).Plus(rest))
      else ExpandPercent(s, f, i + 1, pl, k)
    else
      var (s1, rest) := FmtScan(s, f, i + 1, pl, k);
      (s1, Constant(1).Plus(rest))
  }

  function ExpandPercent(s: Sys, f: string, i: nat, pl: seq<Ctx>, k: nat): (Sys, Term)
    requires i <= |f|
    decreases |f| - i, 2
  {
    var width := ReadNum(f, SkipModifiers(f, i), pl, k);
    var dot := width.next < |f| && f[width.next] == '.';
    var prec := if dot then ReadNum(f, width.next + 1, pl, width.used) else NumTerm(None, width.next, width.used);
    if prec.next == |f| then (s, Constant(1))
    else ExpandConv(s, f[prec.next], width.value, prec.value, f, prec.next + 1, pl, prec.used)
  }

  // The length of the string argument of `%s`, or an unbounded one.
  function StringArg(s: Sys, pl: seq<Ctx>, k: nat): (Sys, Term) {
    if k < |pl| && pl[k].CStr? then (s, pl[k].len.Minus(Constant(1)))
    else
      var (s0, t) := s.Fresh(None);
      (s0.ForceTop(t), t)
  }

  // The term of one conversion, and whether it takes an argument.
  function ConvTerm(s: Sys, c: char, width: Option<Term>, prec: Option<Term>, pl: seq<Ctx>, k: nat): (Sys, Term, bool) {
    if c == 's' then
      var (s1, n) := StringArg(s, pl, k);
      var (s2, n1) := if prec.Some? then s1.MinOf(prec.value, n) else (s1, n);
      var (s3, body) := if width.Some? then s2.UnionOf(width.value, n) else (s2, n1);
      (s3, body, true)
    else if c in {'d', 'i', 'x', 'X', 'u', 'U'} then
      var (s1, t) := s.UnionOf(Constant(1), Constant(20));
      (s1, t, true)
    else if c == 'o' then
      var (s1, t) := s.UnionOf(Constant(1), Constant(22));
      (s1, t, true)
    else if c == 'c' then (s, Constant(1), true)
    else if c in {'e', 'E', 'f', 'g', 'G'} then
      var (s1, t) := s.UnionOf(Constant(1), Constant(32));
      (s1, t, true)
    else if c == 'p' then
      var (s1, t) := s.UnionOf(Constant(1), Constant(20));
      (s1, t, true)
    else (s, Constant(1), false)
  }

  function ExpandConv(s: Sys, c: char, width: Option<Term>, prec: Option<Term>, f: string, next: nat, pl: seq<Ctx>,
                      k: nat): (Sys, Term)
    requires next <= |f|
    decreases |f| - next, 1
  {
    var (s1, body, takes) := ConvTerm(s, c, width, prec, pl, k);
    var (s2, rest) := FmtScan(s1, f, next, pl, if takes then k + 1 else k);
    (s2, body.Plus(rest))
  }

  function ParseFmt(s: Sys, f: string, pl: seq<Ctx>): (Sys, Term) {
    FmtScan(s, f, 0, pl, 0)
  }

  function Drop(args: seq<Ctx>, k: nat): seq<Ctx> {
    if k <= |args| then args[k..] else []
  }

  function ModelSprintf(w: Walk, args: seq<Expr>, ctxs: seq<Ctx>): (Walk, Ctx)
    requires |ctxs| == |args|
  {
    if |args| >= 2 && args[1].StrConst? && ctxs[0].CStr? then
      var (s1, parsed) := ParseFmt(w.sys, args[1].s, Drop(ctxs, 2));
      (w.With(s1.Include(parsed, ctxs[0].len)), ctxs[0])
    else if |ctxs| >= 1 && ctxs[0].CStr? then (w.With(w.sys.ForceTop(ctxs[0].len)), ctxs[0])
    else (w, CNone)
  }

  function ModelSnprintf(w: Walk, args: seq<Expr>, ctxs: seq<Ctx>): (Walk, Ctx)
    requires |ctxs| == |args|
  {
    if |args| >= 3 && args[2].StrConst? && ctxs[0].CStr? then
      var (s1, parsed) := ParseFmt(w.sys, args[2].s, Drop(ctxs, 3));
      if ctxs[1].CInt? then
        var (s2, m) := s1.MinOf(parsed, ctxs[1].t);
        (w.With(s2.Include(m, ctxs[0].len)), ctxs[0])
      else (w.With(s1.Include(parsed, ctxs[0].len)), ctxs[0])
    else (w, CNone)
  }

  // ----- expressions -----

  // A fresh integer in 0..1.
  function BoolTerm(s: Sys): (Sys, Term) {
    var (s1, t) := s.Fresh(None);
    (s1.Seed(0, s.Size()).Seed(1, s.Size()), t)
  }

  function Combine(w: Walk, op: BinOp, a: Ctx, b: Ctx): (Walk, Ctx) {
    if a.CInt? && b.CInt? then
      match op
      case Add => (w, CInt(a.t.Plus(b.t)))
      case Sub => (w, CInt(a.t.Minus(b.t)))
      case Mul =>
        var (s, t) := w.sys.Times(a.t, b.t);
        (w.With(s), CInt(t))
      case Div =>
        var (s, t) := w.sys.Top();
        (w.With(s), CInt(t))
      case _ =>
        var (s, t) := BoolTerm(w.sys);
        (w.With(s), CInt(t))
    else if op == Add && a.CStr? && b.CInt? then (w, Advance(a, b.t))
    else (w, CNone)
  }

  function Merge(s: Sys, a: Ctx, b: Ctx): (Sys, Ctx) {
    match (a, b)
    case (CInt(i), CInt(j)) =>
      var (s1, t) := s.UnionOf(i, j);
      (s1, CInt(t))
    case (CStr(s2, l2), CStr(s3, l3)) =>
      var (s1, c) := FreshStr(s, None);
      (s1.Include(s2, c.siz).Include(s3, c.siz).Include(l2, c.len).Include(l3, c.len), c)
    case _ => (s, CNone)
  }

  function Gen(w: Walk, e: Expr): (Walk, Ctx)
    decreases e, 0
  {
    match e
    case Var(x) => NewVar(w, x, OtherType)
    case IntConst(n) => (w, CInt(Constant(n)))
    case CharConst => (w, CNone)
    case StrConst(s) => (w, CStr(Constant(|s| + 1), Constant(|s| + 1)))
    case OtherConst => (w, CNone)
    case Conditional(c, a, b) =>
      var (w1, _) := Gen(w, c);
      var (w2, x) := Gen(w1, a);
      var (w3, y) := Gen(w2, b);
      var (s, m) := Merge(w3.sys, x, y);
      (w3.With(s), m)
    case Call(f, args) =>
      var w0 := NewVar(w, f, OtherType).0;
      var (w1, ctxs) := GenArgs(w0, args);
      GenCall(w1, f, args, ctxs)
    case Unary(op, a) =>
      (match op
       case Neg =>
         var (w1, c) := Gen(w, a);
         (w1, if c.CInt? then CInt(c.t.Negate()) else CNone)
       case Not =>
         var (w1, _) := Gen(w, a);
         var (s, t) := BoolTerm(w1.sys);
         (w1.With(s), CInt(t))
       case BitNot => Gen(w, a)
       case PreInc => Update(w, a, Add)
       case PostInc => Update(w, a, Add)
       case PreDec => Update(w, a, Sub)
       case PostDec => Update(w, a, Sub))
    case Binary(op, a, b) =>
      var (w1, x) := Gen(w, a);
      var (w2, y) := Gen(w1, b);
      Combine(w2, op, x, y)
    case Assign(l, op, r) =>
      var (w1, dst) := Gen(w, l);
      var (w2, src) :=
        if op.None? then Gen(w1, r)
        else
          var (v1, x) := Gen(w1, l);
          var (v2, y) := Gen(v1, r);
          Combine(v2, op.value, x, y);
      (w2.With(Flow(w2.sys, dst, src)), src)
    case Comma(a, b) =>
      var (w1, _) := Gen(w, a);
      Gen(w1, b)
  }

  // `a op= 1`, as the increments and decrements are modelled.
  function Update(w: Walk, a: Expr, op: BinOp): (Walk, Ctx)
    decreases a, 1
  {
    var (w1, dst) := Gen(w, a);
    var (w2, x) := Gen(w1, a);
    var (w3, src) := Combine(w2, op, x, CInt(Constant(1)));
    (w3.With(Flow(w3.sys, dst, src)), src)
  }

  function GenArgs(w: Walk, args: seq<Expr>): (r: (Walk, seq<Ctx>))
    ensures |r.1| == |args|
    decreases args
  {
    if args == [] then (w, [])
    else
      var (w1, c) := Gen(w, args[0]);
      var (w2, cs) := GenArgs(w1, args[1..]);
      (w2, [c] + cs)
  }

  function OrNone(c: Option<Ctx>): Ctx { if c.Some? then c.value else CNone }

  // A routine that is neither modelled nor declared contributes nothing.
  function GenCall(w: Walk, f: string, args: seq<Expr>, ctxs: seq<Ctx>): (Walk, Ctx)
    requires |ctxs| == |args|
  {
    match RoutineOf(f)
    case Sprintf => ModelSprintf(w, args, ctxs)
    case Snprintf => ModelSnprintf(w, args, ctxs)
    case r =>
      var (w1, c) := CheckStrOp(w, r, ctxs);
      (w1, OrNone(c))
  }

  // ----- statements -----

  function GenOption(w: Walk, e: Option<Expr>): Walk {
    if e.Some? then Gen(w, e.value).0 else w
  }

  function GenStmt(w: Walk, s: Stmt): Walk
    decreases s
  {
    match s
    case Simple(e) => Gen(w, e).0
    case If(c, t, f) =>
      var w1 := GenStmt(Gen(w, c).0, t);
      if f.Some? then GenStmt(w1, f.value) else w1
    case While(c, body) => GenStmt(Gen(w, c).0, body)
    case DoWhile(body, c) => GenStmt(Gen(w, c).0, body)
    case For(ini, test, step, body) => GenStmt(GenOption(GenOption(GenOption(w, ini), test), step), body)
    case Block(items) => GenBlock(w, items)
    case Decl(x, ty, ini) => GenDecl(w, x, ty, ini)
    case Break => w
    case Continue => w
  }

  function GenBlock(w: Walk, items: seq<Stmt>): Walk
    decreases items
  {
    if items == [] then w else GenBlock(GenStmt(w, items[0]), items[1..])
  }

  function GenDecl(w: Walk, x: string, ty: VarType, ini: Option<Expr>): Walk {
    var (w1, c) := NewVar(w, x, ty);
    if ini.None? then w1
    else
      var (w2, src) := Gen(w1, ini.value);
      DoInit(w2, ty, c, ini.value, src)
  }

  // A literal copied into a sized array writes at most the array's bytes; an unsized array takes the literal's size.
  function DoInit(w: Walk, ty: VarType, c: Ctx, e: Expr, src: Ctx): Walk {
    if ty.CharArray? && ty.size.Some? then
      if c.CStr? && e.StrConst? then
        var written := if |e.s| + 1 < ty.size.value then |e.s| + 1 else ty.size.value;
        w.With(w.sys.Include(Constant(written), c.len))
      else w.With(FlowInit(w.sys, c, src))
    else if ty.CharArray? && c.CStr? && e.StrConst? && src.CStr? then
      w.With(FlowInit(w.sys.Equate(c.siz, src.siz), c, src))
    else w.With(Flow(w.sys, c, src))
  }

  // Every variable of a function body is created before the body is walked.
  function DeclareLocals(w: Walk, locals: seq<(string, VarType)>): Walk
    decreases |locals|
  {
    if locals == [] then w else DeclareLocals(NewVar(w, locals[0].0, locals[0].1).0, locals[1..])
  }

  // The declarations anywhere in a statement, in source order.
  function Locals(s: Stmt): seq<(string, VarType)>
    decreases s
  {
    match s
    case Decl(x, ty, _) => [(x, ty)]
    case Block(items) => BlockLocals(items)
    case If(_, t, f) => Locals(t) + (if f.Some? then Locals(f.value) else [])
    case While(_, body) => Locals(body)
    case DoWhile(body, _) => Locals(body)
    case For(_, _, _, body) => Locals(body)
    case _ => []
  }

  function BlockLocals(items: seq<Stmt>): seq<(string, VarType)>
    decreases items
  {
    if items == [] then [] else Locals(items[0]) + BlockLocals(items[1..])
  }

  // Walking a function body from scratch.
  function GenBody(body: seq<Stmt>): Walk {
    GenBlock(DeclareLocals(Walk(NEW, map[], map[], 0), BlockLocals(body)), body)
  }
}
