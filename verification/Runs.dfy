/** The runs of the fragment: rendering, expressions, library calls, statements. */
module Runs {
  import opened Terms
  import opened Buffers
  import opened Syntax
  import opened Formats
  import Ranges

  // ----- printf rendering (section 7.21.6.1 of C11) -----

  // A width or precision: digits, or `*` taking a non-negative int argument. None where the fragment ends.
  datatype Number = Number(value: Option<int>, next: nat, used: nat)

  function ReadNumber(f: string, i: nat, vals: seq<Value>, k: nat): (r: Option<Number>)
    requires i <= |f|
    ensures r.Some? ==> i <= r.value.next <= |f| && k <= r.value.used
  {
    if i < |f| && f[i] == '*' then
      if k < |vals| && vals[k].IntV? && vals[k].n >= 0 then Some(Number(Some(vals[k].n), i + 1, k + 1)) else None
    else
      var j := DigitsEnd(f, i);
      if j == i then Some(Number(None, i, k))
      else if DigitsValue(f, i, j) <= I64_MAX then Some(Number(Some(DigitsValue(f, i, j)), j, k))
      else None
  }

  // The bytes printed, the input left over, and whether every conversion printed as much as the analyser allows for it.
  datatype Printed = Printed(len: nat, input: seq<int>, fits: bool)

  function Longer(b: nat, fits: bool, rest: Option<Printed>): Option<Printed> {
    if rest.Some? then Some(Printed(b + rest.value.len, rest.value.input, fits && rest.value.fits)) else None
  }

  // What is printed by `f` from position `i` on, the arguments from `k` on being unused. Where the number of bytes of a
  // conversion is not known, the input supplies it.
  function Render(f: string, i: nat, vals: seq<Value>, k: nat, input: seq<int>): (r: Option<Printed>)
    requires i <= |f|
    decreases |f| - i, 0
  {
    if i == |f| then Some(Printed(0, input, true))
    else if f[i] != '%' then Longer(1, true, Render(f, i + 1, vals, k, input))
    else if i + 1 == |f| then None
    else if f[i + 1] == '%' then Longer(1, true, Render(f, i + 2, vals, k, input))
    else RenderField(f, i + 1, vals, k, input)
  }

  // The pieces of a conversion: width, precision, conversion letter and the arguments used so far.
  datatype Field = Field(width: Option<int>, dotted: bool, precision: Option<int>, start: nat, at: nat, used: nat)

  // Flags, width, precision and length modifier of the conversion that starts at `i`.
  function ReadField(f: string, i: nat, vals: seq<Value>, k: nat): (r: Option<Field>)
    requires i <= |f|
    ensures r.Some? ==> i <= r.value.start <= r.value.at < |f|
  {
    var w := ReadNumber(f, SkipFlags(f, i), vals, k);
    if w.None? then None
    else
      var dot := w.value.next < |f| && f[w.value.next] == '.';
      var p := if dot then ReadNumber(f, w.value.next + 1, vals, w.value.used)
        else Some(Number(None, w.value.next, w.value.used));
      if p.None? || SkipLengths(f, p.value.next) == |f| then None
      else
        Some(Field(w.value.value, dot, p.value.value, p.value.next, SkipLengths(f, p.value.next), p.value.used))
  }

  // The analyser reads the conversion as C does: it takes `h`, `l` and `L` for flags.
  predicate ReadAlike(f: string, i: nat, r: Field)
    requires i <= r.start <= r.at <= |f|
  {
    r.at == r.start || (r.start == SkipFlags(f, i) && forall j :: r.start <= j < r.at ==> f[j] in {'h', 'l', 'L'})
  }

  function RenderField(f: string, i: nat, vals: seq<Value>, k: nat, input: seq<int>): Option<Printed>
    requires i < |f|
    decreases |f| - i, 1
  {
    var r := ReadField(f, i, vals, k);
    if r.None? || r.value.used >= |vals| then None
    else
      var at, v := r.value.at, vals[r.value.used];
      if f[at] == 's' && at == r.value.start then
        if HasText(v) then
          Longer(FieldLength(v.len.value - 1, r.value.width, Shortest(r.value)), TextAllowed(r.value, v.len.value - 1),
                 Render(f, at + 1, vals, r.value.used + 1, input))
        else if v.OtherV? && input != [] && input[0] >= 0 then
          Longer(FieldLength(input[0], r.value.width, Shortest(r.value)), UnknownAllowed(r.value, input[0]),
                 Render(f, at + 1, vals, r.value.used + 1, input[1..]))
        else None
      else if at == i && v.IntV? && Printable(f[at], v.n) then
        Longer(BareLength(f[at], v.n), true, Render(f, at + 1, vals, r.value.used + 1, input))
      else if Accepts(f[at], v) && input != [] && input[0] >= 0 then
        Longer(input[0], ReadAlike(f, i, r.value) && 1 <= input[0] <= MostBytes(f[at]),
               Render(f, at + 1, vals, r.value.used + 1, input[1..]))
      else None
  }

  predicate HasText(v: Value) { v.StrV? && v.len.Some? && v.len.value >= 1 }

  // A dot without a number is a precision of 0.
  function Shortest(r: Field): Option<int> { if r.dotted && r.precision.None? then Some(0) else r.precision }

  // The analyser takes no notice of such a dot, which matters unless a width hides it or there is nothing to cut off.
  predicate TextAllowed(r: Field, n: nat) { r.dotted && r.precision.None? ==> r.width.Some? || n == 0 }

  // An unknown string prints at least one byte in the analyser's eyes, unless a precision of 0 or a width decides.
  predicate UnknownAllowed(r: Field, n: nat) {
    r.width.Some? || (n >= 1 && !(r.dotted && r.precision.None?)) || r.precision == Some(0)
  }

  predicate IsInteger(c: char) { c in {'d', 'i', 'u', 'U', 'x', 'X', 'o'} }

  predicate IsFloating(c: char) { c in {'e', 'E', 'f', 'g', 'G'} }

  // Conversions of an argument whose value, flags, width or precision leave the number of bytes open.
  predicate Accepts(c: char, v: Value) {
    if c == 'c' then v.NoneV? || v.OtherV? || (v.IntV? && v.n % 256 != 0)
    else if IsInteger(c) then v.IntV? || v.NoneV? || v.OtherV?
    else if IsFloating(c) then v.NoneV? || v.OtherV?
    else c == 'p' && !v.IntV?
  }

  // As many bytes as the analyser allows for a conversion other than `%s`.
  function MostBytes(c: char): nat {
    if c == 'c' then 1 else if c == 'o' then 22 else if IsFloating(c) then 32 else 20
  }

  // 64-bit arguments of a conversion whose bytes can be counted; a character takes any integer that does not print as a
  // terminator.
  predicate Printable(c: char, n: int) {
    if c == 'c' then n % 256 != 0
    else if c in {'d', 'i'} then -I64_MAX - 1 <= n <= I64_MAX
    else if c in {'u', 'U'} then 0 <= n <= 2 * I64_MAX + 1
    else c in {'x', 'X', 'o'} && -I64_MAX - 1 <= n <= 2 * I64_MAX + 1
  }

  // What a conversion without flags, width or precision prints.
  function BareLength(c: char, n: int): nat {
    if c == 'c' then 1
    else if c == 'o' then Digits(n % SIZES, 8)
    else if c in {'x', 'X'} then Digits(n % SIZES, 16)
    else PrintedLength(n)
  }

  function PrintedLength(n: int): (k: nat)
    ensures k >= 1
  {
    if n < 0 then 1 + Digits(-n, 10) else Digits(n, 10)
  }

  function FieldLength(n: nat, width: Option<int>, precision: Option<int>): (m: nat)
    requires precision.Some? ==> precision.value >= 0
  {
    var shown := if precision.Some? then Ranges.Min(n, precision.value) else n;
    if width.Some? then Ranges.Max(shown, width.value) else shown
  }

  // ----- writing into buffers -----

  // A literal whose characters are its bytes.
  predicate Plain(s: string) { forall i :: 0 <= i < |s| ==> 0 < s[i] as int < 128 }

  // The string at offset `off` of buffer `x`; nothing is claimed of one that does not end there.
  function At(s: Store, x: string, off: int): Value
    requires x in s.strs
  {
    var b := s.strs[x];
    StrV(b.siz - off, if b.Len().Some? && off < b.Len().value then Some(b.Len().value - off) else None, Home.At(x, off))
  }

  // Write a string of length `len`, terminator included, at place `at` of buffer `x`.
  function WriteText(st: State, x: string, at: nat, len: int): State
    requires x in st.store.strs && len >= 1
  {
    st.SetStr(x, st.store.strs[x].Write(at, TextOf(len)))
  }

  // A buffer changed by a bounded routine: past the routine's guard, the run is no longer one the analysis speaks of.
  function Guarded(st: State, x: string, b: Buf, fits: bool): State {
    st.(loose := st.loose || !fits).SetStr(x, b)
  }

  // `strncpy`.
  function CopyText(st: State, x: string, at: nat, len: int, n: int): State
    requires x in st.store.strs && len >= 1
  {
    var b := st.store.strs[x];
    Guarded(st, x, b.Write(at, Copied(len, ToSize(n))), CopyFits(b, at, len, n))
  }

  // `strncat`.
  function AppendText(st: State, x: string, len: int, n: int): State
    requires x in st.store.strs && len >= 1 && st.store.strs[x].Len().Some?
  {
    Guarded(st, x, Appended(st.store.strs[x], len, n), AppendFits(len, n))
  }

  // `strcat`.
  function JoinText(st: State, x: string, at: nat, len: int): State
    requires x in st.store.strs && len >= 1 && st.store.strs[x].Len().Some?
  {
    var b := st.store.strs[x];
    Guarded(st, x, Appended(b, len, len), CatFits(b, at, len))
  }

  predicate IsAt(v: Value) { v.StrV? && v.home.At? }

  type Outcome = (State, Option<Value>)

  // Once loose, a run stays so, and adds nothing to its trail.
  predicate Onward(st: State, st': State) { st.loose ==> st'.loose && st'.trail == st.trail }

  // `dst` again, as it is now.
  function Again(st: State, dst: Value): Outcome
    requires IsAt(dst) && dst.home.x in st.store.strs
  {
    (st, Some(At(st.store, dst.home.x, dst.home.off)))
  }

  predicate Writable(st: State, dst: Value) {
    IsAt(dst) && dst.home.x in st.store.strs && dst.home.off >= 0
  }

  function RunCall(f: Routine, args: seq<Expr>, vals: seq<Value>, st: State): (r: Outcome)
    requires |vals| == |args|
    ensures Onward(st, r.0)
  {
    match f
    case Sprintf =>
      if |vals| >= 2 && Writable(st, vals[0]) then PrintInto(st, vals[0], args[1], vals[2..]) else (st, None)
    case Snprintf =>
      if |vals| >= 3 && Writable(st, vals[0]) then PrintWithin(st, vals[0], vals[1], args[2], vals[3..]) else (st, None)
    case Strcpy =>
      if |vals| == 2 && Writable(st, vals[0]) && HasText(vals[1]) then
        (WriteText(st, vals[0].home.x, vals[0].home.off, vals[1].len.value), Some(NoneV))
      else (st, None)
    case Strncpy =>
      if |vals| == 3 && Writable(st, vals[0]) && HasText(vals[1]) && vals[2].IntV? then
        Again(CopyText(st, vals[0].home.x, vals[0].home.off, vals[1].len.value, vals[2].n), vals[0])
      else (st, None)
    case Strncat =>
      if |vals| == 3 && Writable(st, vals[0]) && HasText(vals[1]) && vals[2].IntV?
         && st.store.strs[vals[0].home.x].Spans(vals[0].home.off + 1) then
        Again(AppendText(st, vals[0].home.x, vals[1].len.value, vals[2].n), vals[0])
      else (st, None)
    case Strcat =>
      if |vals| == 2 && Writable(st, vals[0]) && HasText(vals[1])
         && st.store.strs[vals[0].home.x].Spans(vals[0].home.off + 1) then
        Again(JoinText(st, vals[0].home.x, vals[0].home.off, vals[1].len.value), vals[0])
      else (st, None)
    case Strlen => (st, if |vals| == 1 && HasText(vals[0]) then Some(IntV(vals[0].len.value - 1)) else None)
    case Strdup =>
      (st, if |vals| == 1 && HasText(vals[0]) then Some(StrV(vals[0].len.value, vals[0].len, Own)) else None)
    case Malloc =>
      (st, if |vals| == 1 && vals[0].IntV? && vals[0].n >= 0 then Some(StrV(vals[0].n, None, Own)) else None)
    case Fgets =>
      if |vals| == 3 && Writable(st, vals[0]) && vals[1].IntV? then ReadLine(st, vals[0], Some(vals[1].n))
      else (st, None)
    case Gets => if |vals| == 1 && Writable(st, vals[0]) then ReadLine(st, vals[0], None) else (st, None)
    case Printf => (st, Some(NoneV))
    case Strspn => (st, Some(NoneV))
    case Strchr => if |vals| == 2 && HasText(vals[0]) then FindIn(st, vals[0]) else (st, None)
    case Getenv => LookUp(st)
    case Gethostname =>
      if |vals| == 2 && Writable(st, vals[0]) && vals[1].IntV? then NameHost(st, vals[0], vals[1].n) else (st, None)
    case Syserror => AnyStatus(st, 48)
    case Syssignal => AnyStatus(st, 25)
    case _ => (st, None)
  }

  // The formatted bytes of a literal format; of any other, as many as the input says.
  function Formatting(st: State, fmt: Expr, vals: seq<Value>): Option<Printed> {
    if fmt.StrConst? then Render(fmt.s, 0, vals, 0, st.input)
    else if st.input != [] && st.input[0] >= 0 then Some(Printed(st.input[0], st.input[1..], true))
    else None
  }

  // `sprintf`.
  function PrintInto(st: State, dst: Value, fmt: Expr, vals: seq<Value>): (r: Outcome)
    requires Writable(st, dst)
    ensures Onward(st, r.0)
  {
    var m, x, off := Formatting(st, fmt, vals), dst.home.x, dst.home.off;
    if m.None? then (st, None)
    else
      var b := st.store.strs[x].Write(off, TextOf(m.value.len + 1));
      (Guarded(st.(input := m.value.input), x, b, m.value.fits), Some(NoneV))
  }

  // `snprintf`. An unknown bound is supplied by the input.
  function PrintWithin(st: State, dst: Value, bound: Value, fmt: Expr, vals: seq<Value>): (r: Outcome)
    requires Writable(st, dst)
    ensures Onward(st, r.0)
  {
    var m, x, off := Formatting(st, fmt, vals), dst.home.x, dst.home.off;
    if m.None? || !(bound.IntV? || (bound.OtherV? && m.value.input != [])) then (st, None)
    else
      var b, len := st.store.strs[x], m.value.len + 1;
      var (n, rest) := if bound.IntV? then (bound.n, m.value.input) else (m.value.input[0], m.value.input[1..]);
      var fits := if !fmt.StrConst? then IdleFits(b, off, len, n)
        else m.value.fits && (if bound.IntV? then FormatFits(b, off, len, n) else CutFits(b, off, len, n));
      (Guarded(st.(input := rest), x, Formatted(b, off, len, n), fits), Some(NoneV))
  }

  // `gethostname` writes a name of at most `n` bytes, terminator included.
  function NameHost(st: State, dst: Value, n: int): (r: Outcome)
    requires Writable(st, dst)
    ensures Onward(st, r.0)
  {
    if st.input == [] then (st, None)
    else
      var k, x, off := st.input[0], dst.home.x, dst.home.off;
      if 1 <= k <= ToSize(n) then
        var b := st.store.strs[x];
        (Guarded(st.(input := st.input[1..]), x, b.Write(off, TextOf(k)), TextFits(b, off, k, off + n)), Some(NoneV))
      else (st, None)
  }

  // A status of 0 to `most`.
  function AnyStatus(st: State, most: int): Outcome {
    if st.input != [] && 0 <= st.input[0] <= most then (st.(input := st.input[1..]), Some(IntV(st.input[0])))
    else (st, None)
  }

  // A search finds nothing (negative input) or a place before the end of the string, which may only be read.
  function FindIn(st: State, v: Value): Outcome
    requires HasText(v)
  {
    if st.input == [] then (st, None)
    else
      var k, st' := st.input[0], st.(input := st.input[1..]);
      if k < 0 then (st', Some(NoneV))
      else if k < v.len.value && k < v.siz then (st', Some(StrV(v.siz - k, Some(v.len.value - k), Shared)))
      else (st', None)
  }

  // The environment holds no such string (0), or one of any length.
  function LookUp(st: State): Outcome {
    if st.input == [] then (st, None)
    else
      var k, st' := st.input[0], st.(input := st.input[1..]);
      if k == 0 then (st', Some(NoneV)) else if k >= 1 then (st', Some(StrV(k, Some(k), Shared))) else (st', None)
  }

  // Input fills between 1 and `limit` bytes, terminator included; 0 stands for end of file.
  function ReadLine(st: State, dst: Value, limit: Option<int>): (r: Outcome)
    requires Writable(st, dst)
    ensures Onward(st, r.0)
  {
    if st.input == [] then (st, None)
    else
      var k, st' := st.input[0], st.(input := st.input[1..]);
      if k == 0 then (st', Some(NoneV))
      else if 1 <= k && (limit.Some? ==> k <= limit.value) then Again(WriteText(st', dst.home.x, dst.home.off, k), dst)
      else (st', None)
  }

  // ----- operators -----

  // Division truncates toward zero.
  function Quotient(a: int, b: int): int
    requires b != 0
  {
    if (a >= 0) == (b > 0) then Abs(a) / Abs(b) else -(Abs(a) / Abs(b))
  }

  function Abs(a: int): nat { if a < 0 then -a else a }

  function Bit(b: bool): int { if b then 1 else 0 }

  predicate Compares(op: BinOp) { op in {Lt, Le, Gt, Ge, Eq, Ne, And, Or} }

  predicate TruthOf(op: BinOp, a: int, b: int)
    requires Compares(op)
  {
    match op
    case Lt => a < b
    case Le => a <= b
    case Gt => a > b
    case Ge => a >= b
    case Eq => a == b
    case Ne => a != b
    case And => a != 0 && b != 0
    case Or => a != 0 || b != 0
  }

  // Evaluating something else has changed a string that `v` denotes a place in: C leaves the order open.
  predicate Stale(v: Value, before: State, after: State) {
    v.StrV? && !v.home.Own? && before.store.strs != after.store.strs
  }

  // Offsets after which the analyser still knows the place in the buffer: sums of constants, variables and lengths.
  predicate Forward(e: Expr) {
    match e
    case IntConst(_) => true
    case Var(_) => true
    case Call(f, args) => RoutineOf(f) == Strlen && |args| == 1 && args[0].Var?
    case Binary(op, a, b) => op == Add && Forward(a) && Forward(b)
    case _ => false
  }

  // The value of a binary operator on evaluated operands; `forward` says that the right one is a forward offset.
  function Operate(op: BinOp, a: Value, b: Value, forward: bool): Option<Value> {
    if a.IntV? && b.IntV? then
      match op
      case Add => Some(IntV(a.n + b.n))
      case Sub => Some(IntV(a.n - b.n))
      case Mul => Some(IntV(a.n * b.n))
      case Div => if b.n == 0 then None else Some(IntV(Quotient(a.n, b.n)))
      case _ => Some(if Compares(op) then IntV(Bit(TruthOf(op, a.n, b.n))) else NoneV)
    else if op == Add && a.StrV? && b.IntV? then
      if b.n < 0 then None else Some(Step(a, b.n, forward))
    else Some(NoneV)
  }

  // The left operand alone decides `&&` or `||`.
  predicate Skips(op: BinOp, v: Value) { (op == And || op == Or) && v.IntV? && (v.n == 0) == (op == And) }

  // The result then, unless the analysis gives the right operand no integer context.
  function Skipped(op: BinOp, right: Kind): Value {
    if right == KInt then IntV(Bit(op == Or)) else NoneV
  }

  // A string `k` bytes further on. It stays writable only behind a forward offset.
  function Step(a: Value, k: nat, forward: bool): Value
    requires a.StrV?
  {
    StrV(a.siz - k,
         if a.len.Some? && k < a.len.value then Some(a.len.value - k) else None,
         if forward && a.home.At? then Home.At(a.home.x, a.home.off + k) else Shared)
  }

  // A string reached through `?:` may only be read, unless it lives nowhere else.
  function Unhomed(v: Value): Value {
    if v.StrV? && v.home.At? then StrV(v.siz, v.len, Shared) else v
  }

  // The value of `?:`: the chosen branch's, where both branches have one known kind.
  function Chosen(j: Kind, k: Kind, r: Outcome): Outcome {
    if r.1.None? then r else (r.0, Some(if j == k != KNone then Unhomed(r.1.value) else NoneV))
  }

  // Which way a condition goes; one of unknown value may go either way.
  function Decide(v: Value, st: State): Option<(bool, State)> {
    match v
    case IntV(n) => Some((n != 0, st))
    case StrV(_, _, _) => Some((true, st))
    case _ => if st.input == [] then None else Some((st.input[0] != 0, st.(input := st.input[1..])))
  }

  // A buffer of its own, holding a string of length `len`, or nothing known.
  function BufOf(siz: int, len: Option<int>): Buf {
    if len.Some? && len.value >= 1 then Buf(siz, TextOf(len.value), len) else Buf(siz, [], None)
  }

  // Store a value into a variable of its type; a string must not live elsewhere already. Of other types no values are
  // kept.
  function SetVariable(env: Env, x: string, v: Value, st: State): Outcome {
    if v.IntV? && TypeOf(env, x) == IntType then (st.SetInt(x, v.n), Some(v))
    else if v.StrV? && v.home.Own? && TypeOf(env, x) == CharPointer then
      (st.SetStr(x, BufOf(v.siz, v.len)), Some(StrV(v.siz, v.len, Shared)))
    else (st, if TypeOf(env, x) == OtherType then Some(NoneV) else None)
  }

  function Load(x: string, st: State): Option<Value> {
    if x in st.store.ints then Some(IntV(st.store.ints[x]))
    else if x in st.store.strs then Some(At(st.store, x, 0))
    else None
  }

  // `++` and `--` on a variable; the value of the postfix forms is left open.
  function Bump(env: Env, op: UnOp, x: string, st: State): Outcome {
    var was := Load(x, st);
    var step := if op == PreInc || op == PostInc then Add else Sub;
    var r := if was.Some? then Operate(step, was.value, IntV(1), true) else None;
    if r.None? then (st, None)
    else
      var (st1, v) := SetVariable(env, x, r.value, st);
      (st1, if v.Some? && (op == PostInc || op == PostDec) then Some(NoneV) else v)
  }

  // ----- expressions -----

  function Eval(env: Env, e: Expr, st: State): (r: Outcome)
    ensures Onward(st, r.0)
    decreases e
  {
    match e
    case Var(x) => (st, if TypeOf(env, x) == OtherType then Some(OtherV) else Load(x, st))
    case IntConst(n) => (st, Some(IntV(n)))
    case CharConst => (st, Some(OtherV))
    case StrConst(s) => (st, if Plain(s) then Some(StrV(|s| + 1, Some(|s| + 1), Own)) else None)
    case OtherConst => (st, Some(OtherV))
    case Conditional(c, a, b) =>
      var (st1, v) := Eval(env, c, st);
      if v.None? then (st1, None)
      else
        var d := Decide(v.value, st1);
        if d.None? then (st1, None)
        else
          Chosen(KindOf(env, a), KindOf(env, b), if d.value.0 then Eval(env, a, d.value.1) else Eval(env, b, d.value.1))
    case Call(f, args) =>
      var (st1, vals) := EvalArgs(env, args, st);
      if vals.None? then (st1, None) else RunCall(RoutineOf(f), args, vals.value, st1)
    case Unary(op, a) =>
      if op == Neg || op == Not || op == BitNot then
        var (st1, v) := Eval(env, a, st);
        if v.None? then (st1, None)
        else if op == Neg then (st1, if v.value.IntV? then Some(IntV(-v.value.n)) else Some(NoneV))
        else if op == Not then
          var d := Decide(v.value, st1);
          if d.None? then (st1, None) else (d.value.1, Some(IntV(Bit(!d.value.0))))
        else (st1, Some(NoneV))
      else
        if a.Var? then Bump(env, op, a.name, st) else (st, None)
    case Binary(op, a, b) =>
      var (st1, v) := Eval(env, a, st);
      if v.None? then (st1, None)
      else if Skips(op, v.value) then (st1, Some(Skipped(op, KindOf(env, b))))
      else
        var (st2, w) := Eval(env, b, st1);
        if w.None? || (op == Add && Stale(v.value, st1, st2)) then (st2, None)
        else (st2, Operate(op, v.value, w.value, Forward(b)))
    case Assign(l, op, r) =>
      if !l.Var? then (st, None)
      else
        var was := Load(l.name, st);
        var (st1, v) := Eval(env, r, st);
        if v.None? || (op.Some? && was.None?) then (st1, None)
        else
          var combined := if op.None? then v else Operate(op.value, was.value, v.value, Forward(r));
          if combined.None? then (st1, None) else SetVariable(env, l.name, combined.value, st1)
    case Comma(a, b) =>
      var (st1, v) := Eval(env, a, st);
      if v.None? then (st1, None) else Eval(env, b, st1)
  }

  function EvalArgs(env: Env, args: seq<Expr>, st: State): (r: (State, Option<seq<Value>>))
    ensures r.1.Some? ==> |r.1.value| == |args|
    ensures Onward(st, r.0)
    decreases args
  {
    if args == [] then (st, Some([]))
    else
      var (st1, v) := Eval(env, args[0], st);
      if v.None? then (st1, None)
      else
        var (st2, vs) := EvalArgs(env, args[1..], st1);
        if vs.None? || Stale(v.value, st1, st2) then (st2, None) else (st2, Some([v.value] + vs.value))
  }

  // ----- statements -----

  datatype Status = Normal | Broke | Continued | Halted

  // The value of a condition, decided; None where the run stops.
  function Test(env: Env, c: Expr, st: State): (r: (State, Option<bool>))
    ensures Onward(st, r.0)
  {
    var (st1, v) := Eval(env, c, st);
    if v.None? then (st1, None)
    else
      var d := Decide(v.value, st1);
      if d.None? then (st1, None) else (d.value.1, Some(d.value.0))
  }

  // An absent loop condition is true.
  function TestOption(env: Env, c: Option<Expr>, st: State): (r: (State, Option<bool>))
    ensures Onward(st, r.0)
  {
    if c.Some? then Test(env, c.value, st) else (st, Some(true))
  }

  function EvalOption(env: Env, e: Option<Expr>, st: State): (r: (State, bool))
    ensures Onward(st, r.0)
  {
    if e.None? then (st, true)
    else
      var (st1, v) := Eval(env, e.value, st);
      (st1, v.Some?)
  }

  // `fuel` bounds the rounds of loops, so that every finite part of a run is reached for some `fuel`.
  function Exec(env: Env, s: Stmt, st: State, fuel: nat): (o: (State, Status))
    ensures Onward(st, o.0)
    decreases fuel, s
  {
    match s
    case Simple(e) =>
      var (st1, v) := Eval(env, e, st);
      (st1, if v.Some? then Normal else Halted)
    case If(c, t, f) =>
      var (st1, b) := Test(env, c, st);
      if b.None? then (st1, Halted)
      else if b.value then Exec(env, t, st1, fuel)
      else if f.Some? then Exec(env, f.value, st1, fuel)
      else (st1, Normal)
    case While(c, body) =>
      if fuel == 0 then (st, Halted)
      else
        var (st1, b) := Test(env, c, st);
        if b.None? then (st1, Halted)
        else if !b.value then (st1, Normal)
        else
          var (st2, r) := Exec(env, body, st1, fuel - 1);
          if r == Halted then (st2, Halted)
          else if r == Broke then (st2, Normal)
          else Exec(env, s, st2, fuel - 1)
    case DoWhile(body, c) =>
      if fuel == 0 then (st, Halted)
      else
        var (st1, r) := Exec(env, body, st, fuel - 1);
        if r == Halted then (st1, Halted)
        else if r == Broke then (st1, Normal)
        else
          var (st2, b) := Test(env, c, st1);
          if b.None? then (st2, Halted)
          else if !b.value then (st2, Normal)
          else Exec(env, s, st2, fuel - 1)
    case For(ini, test, step, body) =>
      var (st1, ok) := EvalOption(env, ini, st);
      if !ok then (st1, Halted) else ExecFor(env, test, step, body, st1, fuel)
    case Block(items) => ExecBlock(env, items, st, fuel)
    case Decl(x, ty, ini) => Declare(env, x, ty, ini, st)
    case Break => (st, Broke)
    case Continue => (st, Continued)
  }

  function ExecFor(env: Env, test: Option<Expr>, step: Option<Expr>, body: Stmt, st: State, fuel: nat)
    : (o: (State, Status))
    ensures Onward(st, o.0)
    decreases fuel, body
  {
    if fuel == 0 then (st, Halted)
    else
      var (st1, b) := TestOption(env, test, st);
      if b.None? then (st1, Halted)
      else if !b.value then (st1, Normal)
      else
        var (st2, r) := Exec(env, body, st1, fuel - 1);
        if r == Halted then (st2, Halted)
        else if r == Broke then (st2, Normal)
        else
          var (st3, ok) := EvalOption(env, step, st2);
          if !ok then (st3, Halted) else ExecFor(env, test, step, body, st3, fuel - 1)
  }

  function ExecBlock(env: Env, items: seq<Stmt>, st: State, fuel: nat): (o: (State, Status))
    ensures Onward(st, o.0)
    decreases fuel, items
  {
    if items == [] then (st, Normal)
    else
      var (st1, r) := Exec(env, items[0], st, fuel);
      if r == Normal then ExecBlock(env, items[1..], st1, fuel) else (st1, r)
  }

  // An array initialised by a literal: zero-filled beyond it, and without a terminator if it does not fit.
  function Initialised(size: int, len: int): Buf
    requires len >= 1
  {
    var cells := if len <= size then TextOf(len) + Fill(Nul, size - len) else Fill(Text, size);
    Buf(size, cells, Some(Ranges.Min(len, size)))
  }

  // A declaration takes the variable's one declared type; an array gets its size, anything else is uninitialised.
  function Declare(env: Env, x: string, ty: VarType, ini: Option<Expr>, st: State): (o: (State, Status))
    ensures Onward(st, o.0)
  {
    if TypeOf(env, x) != ty then (st, Halted)
    else if ini.None? then
      (if ty.CharArray? && ty.size.Some? then st.SetStr(x, Buf(ty.size.value, [], None)) else st.Forget(x), Normal)
    else if ty.CharArray? then
      if ini.value.StrConst? && Plain(ini.value.s) then
        var n := |ini.value.s| + 1;
        (st.SetStr(x, Initialised(if ty.size.Some? then ty.size.value else n, n)), Normal)
      else (st, Halted)
    else
      var (st1, v) := Eval(env, ini.value, st);
      if v.None? then (st1, Halted)
      else
        var (st2, r) := SetVariable(env, x, v.value, st1);
        (st2, if r.Some? then Normal else Halted)
  }
}
