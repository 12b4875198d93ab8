/**
 Soundness of the printf length interpreter (section 7.21.6.1 of C11): the bytes a format prints, plus the
 terminator, are among the values of the generated term, under every straight solution of the constraints
 emitted on the way.
 */
module Printf {
  import opened Ranges
  import opened Terms
  import opened Systems
  import opened Syntax
  import opened Formats
  import opened Generator
  import Buffers
  import Runs

  // What a format argument needs of its context.
  ghost predicate ArgIn(v: Value, c: Ctx, rho: Assignment) {
    match v
    case IntV(n) => c.CInt? && Denotes(c.t, rho, n)
    case StrV(_, len, _) => c.CStr? && (len.Some? ==> Denotes(c.len, rho, len.value))
    case OtherV => c.CNone?
    case NoneV => true
  }

  ghost predicate ArgsIn(vs: seq<Value>, cs: seq<Ctx>, rho: Assignment) {
    |vs| == |cs| && forall i :: 0 <= i < |vs| ==> ArgIn(vs[i], cs[i], rho)
  }

  // ----- operators only append -----

  lemma IncludePrefix(s: Sys, lhs: Term, rhs: Term)
    ensures Grown(s, s.Include(lhs, rhs))
  {
  }

  lemma ItemPrefix(s: Sys, t: Term)
    ensures Grown(s, s.MinItemOf(t).0)
  {
    IncludePrefix(s.Fresh(None).0, t, s.Fresh(None).1);
  }

  lemma MinPrefix(s: Sys, x: Term, y: Term)
    ensures Grown(s, s.MinOf(x, y).0)
  {
    var s0 := s.Fresh(None).0;
    ItemPrefix(s0, x);
    ItemPrefix(s0.MinItemOf(x).0, y);
  }

  lemma UnionPrefix(s: Sys, x: Term, y: Term)
    ensures Grown(s, s.UnionOf(x, y).0)
  {
    var (s0, z) := s.Fresh(None);
    IncludePrefix(s0, x, z);
    IncludePrefix(s0.Include(x, z), y, z);
  }

  lemma ForcePrefix(s: Sys, t: Term)
    ensures Grown(s, s.ForceTop(t))
  {
    IncludePrefix(s, Constant(1), t);
    IncludePrefix(s.Include(Constant(1), t), t.Plus(Constant(1)), t);
  }

  lemma ConvPrefix(s: Sys, c: char, width: Option<Term>, prec: Option<Term>, pl: seq<Ctx>, k: nat)
    ensures Grown(s, ConvTerm(s, c, width, prec, pl, k).0)
  {
    UnionPrefix(s, Constant(1), Constant(20));
    UnionPrefix(s, Constant(1), Constant(22));
    UnionPrefix(s, Constant(1), Constant(32));
    if c == 's' {
      ForcePrefix(s.Fresh(None).0, s.Fresh(None).1);
      var (s1, n) := StringArg(s, pl, k);
      if prec.Some? { MinPrefix(s1, prec.value, n); }
      var s2 := if prec.Some? then s1.MinOf(prec.value, n).0 else s1;
      if width.Some? { UnionPrefix(s2, width.value, n); }
    }
  }

  lemma {:induction false} FmtScanPrefix(s: Sys, f: string, i: nat, pl: seq<Ctx>, k: nat)
    requires i <= |f|
    ensures Grown(s, FmtScan(s, f, i, pl, k).0)
    decreases |f| - i, 0
  {
    if i < |f| {
      if f[i] != '%' { FmtScanPrefix(s, f, i + 1, pl, k); }
      else if i + 1 < |f| {
        if f[i + 1] == '%' { FmtScanPrefix(s, f, i + 2, pl, k); } else { ExpandPercentPrefix(s, f, i + 1, pl, k); }
      }
    }
  }

  lemma {:induction false} ExpandPercentPrefix(s: Sys, f: string, i: nat, pl: seq<Ctx>, k: nat)
    requires i <= |f|
    ensures Grown(s, ExpandPercent(s, f, i, pl, k).0)
    decreases |f| - i, 2
  {
    var width := ReadNum(f, SkipModifiers(f, i), pl, k);
    var dot := width.next < |f| && f[width.next] == '.';
    var prec := if dot then ReadNum(f, width.next + 1, pl, width.used) else NumTerm(None, width.next, width.used);
    if prec.next < |f| {
      ExpandConvPrefix(s, f[prec.next], width.value, prec.value, f, prec.next + 1, pl, prec.used);
    }
  }

  lemma {:induction false} ExpandConvPrefix(s: Sys, c: char, width: Option<Term>, prec: Option<Term>, f: string,
                                            next: nat, pl: seq<Ctx>, k: nat)
    requires next <= |f|
    ensures Grown(s, ExpandConv(s, c, width, prec, f, next, pl, k).0)
    decreases |f| - next, 1
  {
    ConvPrefix(s, c, width, prec, pl, k);
    var (s1, body, takes) := ConvTerm(s, c, width, prec, pl, k);
    FmtScanPrefix(s1, f, next, pl, if takes then k + 1 else k);
  }

  // ----- one conversion -----

  // A printed 64-bit integer takes between 1 and 20 bytes, in octal up to 22, in hexadecimal up to 16.
  lemma PrintedBetween(c: char, n: int)
    requires c != 'c' && Runs.Printable(c, n)
    ensures 1 <= Runs.BareLength(c, n) <= Runs.MostBytes(c) && (c in {'x', 'X'} ==> Runs.BareLength(c, n) <= 16)
  {
    PowersOfTen();
    PowersOfTwo();
    if c in {'d', 'i', 'u', 'U'} {
      DigitsBound(if n < 0 then -n else n, 10, if n < 0 then 19 else 20);
    } else if c == 'o' {
      DigitsBound(n % Buffers.SIZES, 8, 22);
    } else {
      DigitsBound(n % Buffers.SIZES, 16, 16);
    }
  }

  lemma PowersOfTen()
    ensures Power(10, 19) == 10000000000000000000 && Power(10, 20) == 100000000000000000000
  {
    assert Power(10, 5) == 100000;
    assert Power(10, 10) == 10000000000;
    assert Power(10, 15) == 1000000000000000;
    assert Power(10, 19) == 10000000000000000000;
    assert Power(10, 20) == 100000000000000000000;
  }

  lemma PowersOfTwo()
    ensures Power(16, 16) == Buffers.SIZES && Power(8, 22) == 4 * Buffers.SIZES
  {
    assert Power(16, 4) == 65536;
    assert Power(16, 8) == 4294967296;
    assert Power(16, 12) == 281474976710656;
    assert Power(16, 16) == Buffers.SIZES;
    assert Power(8, 6) == 262144;
    assert Power(8, 12) == 68719476736;
    assert Power(8, 17) == 2251799813685248;
    assert Power(8, 22) == 4 * Buffers.SIZES;
  }

  // Width and precision are read alike on both sides, so their values are values of their terms.
  lemma NumbersAgree(f: string, i: nat, vals: seq<Value>, pl: seq<Ctx>, k: nat, rho: Assignment)
    requires i <= |f| && ArgsIn(vals, pl, rho)
    requires Runs.ReadNumber(f, i, vals, k).Some?
    ensures var r := Runs.ReadNumber(f, i, vals, k).value; var t := ReadNum(f, i, pl, k);
            && t.next == r.next && t.used == r.used
            && (t.value.Some? <==> r.value.Some?)
            && (r.value.Some? ==> r.value.value >= 0 && Denotes(t.value.value, rho, r.value.value))
  {
    if i < |f| && f[i] == '*' {
      assert ArgIn(vals[k], pl[k], rho);
    } else {
      var j := DigitsEnd(f, i);
      if j > i { ConstantDenotes(DigitsValue(f, i, j), rho); }
    }
  }

  lemma MinusOneDenotes(t: Term, rho: Assignment, n: int)
    requires Denotes(t, rho, n)
    ensures Denotes(t.Minus(Constant(1)), rho, n - 1)
  {
    ConstantDenotes(1, rho);
    ArithmeticDenotes(t, Constant(1), 0, rho, n, 1);
  }

  // The field a `%s` prints lies in the term of the conversion: the minimum with the precision, or, under a
  // width, anything between the width and the unshortened length.
  lemma StringFieldSound(s: Sys, width: Option<Term>, prec: Option<Term>, pl: seq<Ctx>, k: nat, rho: Assignment,
                         n: int, w: Option<int>, p: Option<int>)
    requires var (s1, t) := StringArg(s, pl, k); Denotes(t, rho, n) && n >= 0
    requires (width.Some? <==> w.Some?) && (w.Some? ==> Denotes(width.value, rho, w.value))
    requires (prec.Some? <==> p.Some?) && (p.Some? ==> p.value >= 0 && Denotes(prec.value, rho, p.value))
    requires Solves(rho, ConvTerm(s, 's', width, prec, pl, k).0)
    ensures Denotes(ConvTerm(s, 's', width, prec, pl, k).1, rho, Runs.FieldLength(n, w, p))
    ensures w.Some? ==> forall b :: Min(w.value, n) <= b <= Max(w.value, n) ==>
                          Denotes(ConvTerm(s, 's', width, prec, pl, k).1, rho, b)
  {
    var (s1, t) := StringArg(s, pl, k);
    var (s2, n1) := if prec.Some? then s1.MinOf(prec.value, t) else (s1, t);
    assert Solves(rho, s2) by {
      if width.Some? { UnionPrefix(s2, width.value, t); }
      SolvesSmaller(rho, s2, ConvTerm(s, 's', width, prec, pl, k).0);
    }
    if width.Some? {
      forall b | Min(w.value, n) <= b <= Max(w.value, n)
        ensures Denotes(ConvTerm(s, 's', width, prec, pl, k).1, rho, b)
      {
        UnionFlows(s2, width.value, t, rho, w.value, n, b);
      }
    } else if prec.Some? {
      MinFlows(s1, prec.value, t, rho, p.value, n);
    }
  }

  // The argument of a `%s`: the bytes of a known string, or any positive number of them.
  lemma StringArgSound(s: Sys, width: Option<Term>, prec: Option<Term>, pl: seq<Ctx>, k: nat, rho: Assignment, v: Value,
                       n: int)
    requires k < |pl| && ArgIn(v, pl[k], rho) && Solves(rho, ConvTerm(s, 's', width, prec, pl, k).0)
    requires if v.OtherV? then n >= 1 else Runs.HasText(v) && n == v.len.value - 1
    ensures Denotes(StringArg(s, pl, k).1, rho, n)
  {
    if v.OtherV? {
      var (s0, t) := s.Fresh(None);
      StringArgSolved(s, width, prec, pl, k, rho);
      ForceVarFlows(s0, s.Size(), rho, n);
      VarDenotes(s.Size(), rho, n);
    } else {
      MinusOneDenotes(pl[k].len, rho, v.len.value);
    }
  }

  lemma StringArgSolved(s: Sys, width: Option<Term>, prec: Option<Term>, pl: seq<Ctx>, k: nat, rho: Assignment)
    requires Solves(rho, ConvTerm(s, 's', width, prec, pl, k).0)
    ensures Solves(rho, StringArg(s, pl, k).0)
  {
    var (s1, t) := StringArg(s, pl, k);
    if prec.Some? { MinPrefix(s1, prec.value, t); }
    var s2 := if prec.Some? then s1.MinOf(prec.value, t).0 else s1;
    if width.Some? { UnionPrefix(s2, width.value, t); }
    SolvesSmaller(rho, s1, ConvTerm(s, 's', width, prec, pl, k).0);
  }

  predicate Counts(c: char) { Runs.IsInteger(c) || Runs.IsFloating(c) || c == 'p' || c == 'c' }

  // Any other conversion denotes everything from one byte to the most the analyser allows, and takes an argument.
  lemma NumberFieldSound(s: Sys, c: char, width: Option<Term>, prec: Option<Term>, pl: seq<Ctx>, k: nat,
                         rho: Assignment, b: int)
    requires Counts(c) && 1 <= b <= Runs.MostBytes(c) && Solves(rho, ConvTerm(s, c, width, prec, pl, k).0)
    ensures Denotes(ConvTerm(s, c, width, prec, pl, k).1, rho, b) && ConvTerm(s, c, width, prec, pl, k).2
  {
    if c == 'c' {
      ConstantDenotes(1, rho);
    } else if c == 'o' {
      ConstantsFlow(s, 1, 22, rho, b);
    } else if Runs.IsFloating(c) {
      ConstantsFlow(s, 1, 32, rho, b);
    } else {
      ConstantsFlow(s, 1, 20, rho, b);
    }
  }

  // ----- the whole format -----

  lemma Prepend(t: Term, b: int, rest: Term, m: int, rho: Assignment)
    requires Denotes(t, rho, b) && Denotes(rest, rho, m)
    ensures Denotes(t.Plus(rest), rho, b + m)
  {
    ArithmeticDenotes(t, rest, 0, rho, b, m);
  }

  // Skipping modifiers where no modifier follows is skipping flags.
  lemma {:induction false} SkipsAgree(f: string, i: nat)
    requires i <= |f| && (SkipFlags(f, i) < |f| ==> f[SkipFlags(f, i)] !in {'h', 'l', 'L'})
    ensures SkipModifiers(f, i) == SkipFlags(f, i)
    decreases |f| - i
  {
    if i < |f| && IsFlag(f[i]) { SkipsAgree(f, i + 1); }
  }

  // Rendered bytes plus the terminator are a value of the scanned term, as long as every conversion keeps to what the
  // analyser allows for it.
  lemma {:induction false} FormatSound(s: Sys, f: string, i: nat, pl: seq<Ctx>, vals: seq<Value>, k: nat,
                                       input: seq<int>, rho: Assignment)
    requires i <= |f| && ArgsIn(vals, pl, rho)
    requires Solves(rho, FmtScan(s, f, i, pl, k).0)
    requires Allowed(Runs.Render(f, i, vals, k, input))
    ensures Denotes(FmtScan(s, f, i, pl, k).1, rho, Runs.Render(f, i, vals, k, input).value.len + 1)
    decreases |f| - i, 0
  {
    ConstantDenotes(1, rho);
    if i < |f| {
      if f[i] != '%' {
        FormatSound(s, f, i + 1, pl, vals, k, input, rho);
        Prepend(Constant(1), 1, FmtScan(s, f, i + 1, pl, k).1, Runs.Render(f, i + 1, vals, k, input).value.len + 1,
                rho);
      } else if f[i + 1] == '%' {
        FormatSound(s, f, i + 2, pl, vals, k, input, rho);
        Prepend(Constant(1), 1, FmtScan(s, f, i + 2, pl, k).1, Runs.Render(f, i + 2, vals, k, input).value.len + 1,
                rho);
      } else {
        FieldSound(s, f, i + 1, pl, vals, k, input, rho);
      }
    }
  }

  ghost predicate Allowed(r: Option<Runs.Printed>) { r.Some? && r.value.fits }

  // A conversion that takes an argument, followed by the rest of the format.
  lemma {:induction false} ConversionSound(s: Sys, c: char, width: Option<Term>, prec: Option<Term>, f: string,
                                           next: nat, pl: seq<Ctx>, vals: seq<Value>, k: nat, input: seq<int>,
                                           rho: Assignment, b: int)
    requires next <= |f| && ArgsIn(vals, pl, rho) && ConvTerm(s, c, width, prec, pl, k).2
    requires Solves(rho, ExpandConv(s, c, width, prec, f, next, pl, k).0)
    requires Denotes(ConvTerm(s, c, width, prec, pl, k).1, rho, b)
    requires Allowed(Runs.Render(f, next, vals, k + 1, input))
    ensures Denotes(ExpandConv(s, c, width, prec, f, next, pl, k).1, rho,
                    b + Runs.Render(f, next, vals, k + 1, input).value.len + 1)
    decreases |f| - next, 1
  {
    var (s1, body, takes) := ConvTerm(s, c, width, prec, pl, k);
    FormatSound(s1, f, next, pl, vals, k + 1, input, rho);
    Prepend(body, b, FmtScan(s1, f, next, pl, k + 1).1, Runs.Render(f, next, vals, k + 1, input).value.len + 1, rho);
  }

  // A solution of the constraints of a conversion and of what follows it solves those of the conversion.
  lemma ConversionSolved(s: Sys, c: char, width: Option<Term>, prec: Option<Term>, f: string, next: nat,
                         pl: seq<Ctx>, k: nat, rho: Assignment)
    requires next <= |f| && Solves(rho, ExpandConv(s, c, width, prec, f, next, pl, k).0)
    ensures Solves(rho, ConvTerm(s, c, width, prec, pl, k).0)
  {
    var (s1, body, takes) := ConvTerm(s, c, width, prec, pl, k);
    var used := if takes then k + 1 else k;
    FmtScanPrefix(s1, f, next, pl, used);
    SolvesSmaller(rho, s1, FmtScan(s1, f, next, pl, used).0);
  }

  // What the analyser makes of the width and the precision of a conversion.
  datatype Layout = Layout(width: Option<Term>, prec: Option<Term>)

  ghost predicate LaidOut(s: Sys, f: string, i: nat, pl: seq<Ctx>, k: nat, r: Runs.Field, l: Layout, rho: Assignment)
    requires i <= |f| && r.at < |f|
  {
    && ExpandPercent(s, f, i, pl, k) == ExpandConv(s, f[r.at], l.width, l.prec, f, r.at + 1, pl, r.used)
    && (l.width.Some? <==> r.width.Some?) && (r.width.Some? ==> Denotes(l.width.value, rho, r.width.value))
    && (l.prec.Some? <==> r.precision.Some?)
    && (r.precision.Some? ==> r.precision.value >= 0 && Denotes(l.prec.value, rho, r.precision.value))
  }

  // Where the analyser reads a conversion as C does, it finds the same letter, width, precision and arguments.
  lemma FieldLayout(s: Sys, f: string, i: nat, pl: seq<Ctx>, vals: seq<Value>, k: nat, r: Runs.Field, rho: Assignment)
    returns (l: Layout)
    requires i <= |f| && ArgsIn(vals, pl, rho) && Runs.ReadField(f, i, vals, k) == Some(r)
    requires (Counts(f[r.at]) || f[r.at] == 's') && Runs.ReadAlike(f, i, r)
    ensures LaidOut(s, f, i, pl, k, r, l, rho)
  {
    if r.at == r.start {
      l := PlainLayout(s, f, i, pl, vals, k, r, rho);
    } else {
      ModifierLayout(s, f, i, pl, vals, k, r);
      l := Layout(None, None);
    }
  }

  lemma ScanLayout(s: Sys, f: string, i: nat, pl: seq<Ctx>, k: nat, w: NumTerm, p: NumTerm)
    requires i <= |f| && ReadNum(f, SkipModifiers(f, i), pl, k) == w && w.next <= |f|
    requires if w.next < |f| && f[w.next] == '.' then ReadNum(f, w.next + 1, pl, w.used) == p
             else p == NumTerm(None, w.next, w.used)
    requires p.next < |f|
    ensures ExpandPercent(s, f, i, pl, k) == ExpandConv(s, f[p.next], w.value, p.value, f, p.next + 1, pl, p.used)
  {
  }

  lemma RenderLayout(f: string, i: nat, vals: seq<Value>, k: nat, w: Runs.Number, p: Runs.Number, r: Runs.Field)
    requires i <= |f| && Runs.ReadField(f, i, vals, k) == Some(r)
    requires Runs.ReadNumber(f, SkipFlags(f, i), vals, k) == Some(w)
    requires if w.next < |f| && f[w.next] == '.' then Runs.ReadNumber(f, w.next + 1, vals, w.used) == Some(p)
             else p == Runs.Number(None, w.next, w.used)
    ensures r.width == w.value && r.precision == p.value && r.start == p.next && r.used == p.used
  {
  }

  ghost predicate SameNumber(w: Runs.Number, t: NumTerm, rho: Assignment) {
    && t.next == w.next && t.used == w.used && (t.value.Some? <==> w.value.Some?)
    && (w.value.Some? ==> w.value.value >= 0 && Denotes(t.value.value, rho, w.value.value))
  }

  // The numbers after the flags are read alike by rendering and scanning.
  lemma NumbersRead(f: string, i: nat, pl: seq<Ctx>, vals: seq<Value>, k: nat, r: Runs.Field, rho: Assignment)
    returns (w: Runs.Number, p: Runs.Number, w': NumTerm, p': NumTerm)
    requires i <= |f| && ArgsIn(vals, pl, rho) && Runs.ReadField(f, i, vals, k) == Some(r) && r.at == r.start
    ensures Runs.ReadNumber(f, SkipFlags(f, i), vals, k) == Some(w) && ReadNum(f, SkipModifiers(f, i), pl, k) == w'
    ensures if w.next < |f| && f[w.next] == '.' then Runs.ReadNumber(f, w.next + 1, vals, w.used) == Some(p)
            else p == Runs.Number(None, w.next, w.used)
    ensures w'.next <= |f|
    ensures if w'.next < |f| && f[w'.next] == '.' then ReadNum(f, w'.next + 1, pl, w'.used) == p'
            else p' == NumTerm(None, w'.next, w'.used)
    ensures SameNumber(w, w', rho) && SameNumber(p, p', rho)
  {
    var at := SkipFlags(f, i);
    PlainStart(f, i, vals, k, r);
    SkipsAgree(f, i);
    NumbersAgree(f, at, vals, pl, k, rho);
    w, w' := Runs.ReadNumber(f, at, vals, k).value, ReadNum(f, at, pl, k);
    if w.next < |f| && f[w.next] == '.' {
      NumbersAgree(f, w.next + 1, vals, pl, w.used, rho);
      p, p' := Runs.ReadNumber(f, w.next + 1, vals, w.used).value, ReadNum(f, w.next + 1, pl, w.used);
    } else {
      p, p' := Runs.Number(None, w.next, w.used), NumTerm(None, w.next, w.used);
    }
  }

  lemma PlainLayout(s: Sys, f: string, i: nat, pl: seq<Ctx>, vals: seq<Value>, k: nat, r: Runs.Field, rho: Assignment)
    returns (l: Layout)
    requires i <= |f| && ArgsIn(vals, pl, rho) && Runs.ReadField(f, i, vals, k) == Some(r) && r.at == r.start
    ensures LaidOut(s, f, i, pl, k, r, l, rho)
  {
    var w, p, w', p' := NumbersRead(f, i, pl, vals, k, r, rho);
    RenderLayout(f, i, vals, k, w, p, r);
    ScanLayout(s, f, i, pl, k, w', p');
    l := Layout(w'.value, p'.value);
  }

  // With a length modifier straight after the flags there is no width and no precision.
  lemma ModifierLayout(s: Sys, f: string, i: nat, pl: seq<Ctx>, vals: seq<Value>, k: nat, r: Runs.Field)
    requires i <= |f| && Runs.ReadField(f, i, vals, k) == Some(r) && r.at > r.start
    requires (Counts(f[r.at]) || f[r.at] == 's') && Runs.ReadAlike(f, i, r)
    ensures ExpandPercent(s, f, i, pl, k) == ExpandConv(s, f[r.at], None, None, f, r.at + 1, pl, r.used)
    ensures r.width.None? && r.precision.None?
  {
    ModifiersSkipped(f, i, r.at);
    NothingRead(f, i, vals, k, r);
    assert DigitsEnd(f, r.at) == r.at && ReadNum(f, r.at, pl, k) == NumTerm(None, r.at, k);
  }

  lemma NothingRead(f: string, i: nat, vals: seq<Value>, k: nat, r: Runs.Field)
    requires i <= |f| && Runs.ReadField(f, i, vals, k) == Some(r) && r.start == SkipFlags(f, i)
    ensures r.width.None? && !r.dotted && r.precision.None? && r.used == k
  {
    var w := Runs.ReadNumber(f, SkipFlags(f, i), vals, k);
    assert w.value.next <= r.start;
  }

  // Without a length modifier none follows the flags either.
  lemma PlainStart(f: string, i: nat, vals: seq<Value>, k: nat, r: Runs.Field)
    requires i <= |f| && Runs.ReadField(f, i, vals, k) == Some(r) && r.at == r.start
    ensures var at := SkipFlags(f, i); at < |f| ==> f[at] !in {'h', 'l', 'L'}
  {
    var at := SkipFlags(f, i);
    var j := DigitsEnd(f, at);
    assert at < |f| && f[at] in {'h', 'l', 'L'} ==> j == at;
  }

  lemma {:induction false} ModifiersSkipped(f: string, i: nat, at: nat)
    requires i <= |f| && SkipFlags(f, i) <= at < |f| && !IsSkipped(f[at])
    requires forall j :: SkipFlags(f, i) <= j < at ==> f[j] in {'h', 'l', 'L'}
    ensures SkipModifiers(f, i) == at
    decreases at - i
  {
    if i < at {
      if IsFlag(f[i]) {
        ModifiersSkipped(f, i + 1, at);
      } else {
        assert SkipFlags(f, i) == i;
        LengthsSkipped(f, i, at);
      }
    }
  }

  lemma {:induction false} LengthsSkipped(f: string, i: nat, at: nat)
    requires i <= at < |f| && !IsSkipped(f[at]) && forall j :: i <= j < at ==> f[j] in {'h', 'l', 'L'}
    ensures SkipModifiers(f, i) == at
    decreases at - i
  {
    if i < at { LengthsSkipped(f, i + 1, at); }
  }

  lemma {:induction false} FieldSound(s: Sys, f: string, i: nat, pl: seq<Ctx>, vals: seq<Value>, k: nat,
                                      input: seq<int>, rho: Assignment)
    requires i < |f| && ArgsIn(vals, pl, rho)
    requires Solves(rho, ExpandPercent(s, f, i, pl, k).0) && Allowed(Runs.RenderField(f, i, vals, k, input))
    ensures Denotes(ExpandPercent(s, f, i, pl, k).1, rho, Runs.RenderField(f, i, vals, k, input).value.len + 1)
    decreases |f| - i, 1
  {
    var r := Runs.ReadField(f, i, vals, k).value;
    var l := FieldLayout(s, f, i, pl, vals, k, r, rho);
    ConversionSolved(s, f[r.at], l.width, l.prec, f, r.at + 1, pl, r.used, rho);
    assert ArgIn(vals[r.used], pl[r.used], rho);
    if f[r.at] == 's' {
      TextSound(s, f, r, l, pl, vals, input, rho);
    } else {
      CountSound(s, f, i, r, l, pl, vals, input, rho);
    }
  }

  // `%s`, and what follows it.
  lemma {:induction false} TextSound(s: Sys, f: string, r: Runs.Field, l: Layout, pl: seq<Ctx>, vals: seq<Value>,
                                     input: seq<int>, rho: Assignment)
    requires r.at < |f| && f[r.at] == 's' && r.used < |vals| && ArgsIn(vals, pl, rho)
    requires (l.width.Some? <==> r.width.Some?) && (r.width.Some? ==> Denotes(l.width.value, rho, r.width.value))
    requires l.prec.Some? <==> r.precision.Some?
    requires r.precision.Some? ==> r.precision.value >= 0 && Denotes(l.prec.value, rho, r.precision.value)
    requires Solves(rho, ExpandConv(s, 's', l.width, l.prec, f, r.at + 1, pl, r.used).0)
    requires Allowed(TextAndRest(f, r, vals, input))
    ensures Denotes(ExpandConv(s, 's', l.width, l.prec, f, r.at + 1, pl, r.used).1, rho,
                    TextAndRest(f, r, vals, input).value.len + 1)
    decreases |f| - r.at, 0
  {
    var v, k := vals[r.used], r.used;
    assert ArgIn(v, pl[k], rho);
    ConversionSolved(s, 's', l.width, l.prec, f, r.at + 1, pl, k, rho);
    var n, rest := if Runs.HasText(v) then v.len.value - 1 else input[0], if Runs.HasText(v) then input else input[1..];
    TextFieldSound(s, r, l, pl, k, rho, v, n);
    var b := Runs.FieldLength(n, r.width, Runs.Shortest(r));
    ConversionSound(s, 's', l.width, l.prec, f, r.at + 1, pl, vals, k, rest, rho, b);
  }

  lemma TextFieldSound(s: Sys, r: Runs.Field, l: Layout, pl: seq<Ctx>, k: nat, rho: Assignment, v: Value, n: nat)
    requires k < |pl| && ArgIn(v, pl[k], rho) && Solves(rho, ConvTerm(s, 's', l.width, l.prec, pl, k).0)
    requires (l.width.Some? <==> r.width.Some?) && (r.width.Some? ==> Denotes(l.width.value, rho, r.width.value))
    requires l.prec.Some? <==> r.precision.Some?
    requires r.precision.Some? ==> r.precision.value >= 0 && Denotes(l.prec.value, rho, r.precision.value)
    requires if v.OtherV? then Runs.UnknownAllowed(r, n)
             else Runs.HasText(v) && n == v.len.value - 1 && Runs.TextAllowed(r, n)
    ensures Denotes(ConvTerm(s, 's', l.width, l.prec, pl, k).1, rho, Runs.FieldLength(n, r.width, Runs.Shortest(r)))
  {
    var m := if v.OtherV? then Max(n, 1) else n;
    StringArgSound(s, l.width, l.prec, pl, k, rho, v, m);
    StringFieldSound(s, l.width, l.prec, pl, k, rho, m, r.width, r.precision);
  }

  // What rendering makes of a `%s`.
  function TextAndRest(f: string, r: Runs.Field, vals: seq<Value>, input: seq<int>): Option<Runs.Printed>
    requires r.at < |f| && r.used < |vals| && (r.precision.Some? ==> r.precision.value >= 0)
  {
    var v := vals[r.used];
    if Runs.HasText(v) then
      Runs.Longer(Runs.FieldLength(v.len.value - 1, r.width, Runs.Shortest(r)), Runs.TextAllowed(r, v.len.value - 1),
                  Runs.Render(f, r.at + 1, vals, r.used + 1, input))
    else if v.OtherV? && input != [] && input[0] >= 0 then
      Runs.Longer(Runs.FieldLength(input[0], r.width, Runs.Shortest(r)), Runs.UnknownAllowed(r, input[0]),
                  Runs.Render(f, r.at + 1, vals, r.used + 1, input[1..]))
    else None
  }

  // Any other conversion, and what follows it.
  lemma {:induction false} CountSound(s: Sys, f: string, i: nat, r: Runs.Field, l: Layout, pl: seq<Ctx>,
                                      vals: seq<Value>, input: seq<int>, rho: Assignment)
    requires i <= r.at < |f| && Counts(f[r.at]) && r.used < |vals| && ArgsIn(vals, pl, rho)
    requires i <= r.start <= r.at
    requires Solves(rho, ExpandConv(s, f[r.at], l.width, l.prec, f, r.at + 1, pl, r.used).0)
    requires Allowed(CountAndRest(f, i, r, vals, input))
    ensures Denotes(ExpandConv(s, f[r.at], l.width, l.prec, f, r.at + 1, pl, r.used).1, rho,
                    CountAndRest(f, i, r, vals, input).value.len + 1)
    decreases |f| - r.at, 0
  {
    var c, v, k := f[r.at], vals[r.used], r.used;
    ConversionSolved(s, c, l.width, l.prec, f, r.at + 1, pl, k, rho);
    if r.at == i && v.IntV? && Runs.Printable(c, v.n) {
      if c != 'c' { PrintedBetween(c, v.n); }
      NumberFieldSound(s, c, l.width, l.prec, pl, k, rho, Runs.BareLength(c, v.n));
      ConversionSound(s, c, l.width, l.prec, f, r.at + 1, pl, vals, k, input, rho, Runs.BareLength(c, v.n));
    } else {
      NumberFieldSound(s, c, l.width, l.prec, pl, k, rho, input[0]);
      ConversionSound(s, c, l.width, l.prec, f, r.at + 1, pl, vals, k, input[1..], rho, input[0]);
    }
  }

  function CountAndRest(f: string, i: nat, r: Runs.Field, vals: seq<Value>, input: seq<int>): Option<Runs.Printed>
    requires i <= r.start <= r.at < |f| && r.used < |vals|
  {
    var v := vals[r.used];
    if r.at == i && v.IntV? && Runs.Printable(f[r.at], v.n) then
      Runs.Longer(Runs.BareLength(f[r.at], v.n), true, Runs.Render(f, r.at + 1, vals, r.used + 1, input))
    else if Runs.Accepts(f[r.at], v) && input != [] && input[0] >= 0 then
      Runs.Longer(input[0], Runs.ReadAlike(f, i, r) && 1 <= input[0] <= Runs.MostBytes(f[r.at]),
                  Runs.Render(f, r.at + 1, vals, r.used + 1, input[1..]))
    else None
  }
}
