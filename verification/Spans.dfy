/**
 How long a formatted string may get in the eyes of the analyser, exactly, for a literal format whose arguments have
 known contexts: a table of the conversions, added up along the format. The terms of the scan reach these bounds in some
 solution, and fall short of them in none.
 */
module Spans {
  import opened Ranges
  import opened Terms
  import opened Problems
  import opened Verdicts
  import opened Systems
  import opened Syntax
  import opened Formats
  import opened Generator
  import opened Exactness

  // ----- the table -----

  // The least and the greatest number of bytes.
  datatype Ends = Ends(lo: int, hi: int)

  function Plus(a: Ends, b: Ends): Ends { Ends(a.lo + b.lo, a.hi + b.hi) }

  // What the conversion `c` contributes, given the bytes of its argument if that is a string. A width sets one end, and
  // a precision beside it counts for nothing.
  function ConvEnds(c: char, width: Option<int>, prec: Option<int>, text: Ends): Ends {
    if c == 's' then
      if width.Some? then Ends(Min(width.value, text.lo), Max(width.value, text.hi))
      else if prec.Some? then Ends(Min(prec.value, text.lo), Min(prec.value, text.hi))
      else text
    else if c in {'d', 'i', 'x', 'X', 'u', 'U', 'p'} then Ends(1, 20)
    else if c == 'o' then Ends(1, 22)
    else if c in {'e', 'E', 'f', 'g', 'G'} then Ends(1, 32)
    else Ends(1, 1)
  }

  predicate TakesArgument(c: char) {
    c in {'s', 'd', 'i', 'x', 'X', 'u', 'U', 'p', 'o', 'e', 'E', 'f', 'g', 'G', 'c'}
  }

  // A known integer, a string of known length, or something else.
  predicate Known(c: Ctx) {
    match c
    case CInt(t) => t.IsConstant()
    case CStr(_, len) => len.IsConstant() && len.konst >= 1
    case CNone => true
  }

  predicate AllKnown(pl: seq<Ctx>) { forall i :: 0 <= i < |pl| ==> Known(pl[i]) }

  // The bytes of a known string; of anything else, one or more.
  function TextEnds(pl: seq<Ctx>, k: nat): Ends {
    if k < |pl| && pl[k].CStr? then Ends(pl[k].len.konst - 1, pl[k].len.konst - 1) else Ends(1, INF)
  }

  // A width or precision, unless a negative argument stands for it.
  predicate Sensible(n: NumTerm) { n.value.Some? ==> n.value.value.IsConstant() && n.value.value.konst >= 0 }

  function NumberOf(n: NumTerm): Option<int> { if n.value.Some? then Some(n.value.value.konst) else None }

  function Sum(a: Ends, b: Option<Ends>): Option<Ends> { if b.Some? then Some(Plus(a, b.value)) else None }

  // The bounds on the bytes of a format from position `i` on, terminator included; none if a width or precision is a
  // negative argument.
  function Span(f: string, i: nat, pl: seq<Ctx>, k: nat): Option<Ends>
    requires i <= |f|
    decreases |f| - i, 0
  {
    if i == |f| then Some(Ends(1, 1))
    else if f[i] != '%' then Sum(Ends(1, 1), Span(f, i + 1, pl, k))
    else if i + 1 == |f| then Some(Ends(2, 2))
    else if f[i + 1] == '%' then Sum(Ends(1, 1), Span(f, i + 2, pl, k))
    else
      var width := ReadNum(f, SkipModifiers(f, i + 1), pl, k);
      var dot := width.next < |f| && f[width.next] == '.';
      var prec := if dot then ReadNum(f, width.next + 1, pl, width.used) else NumTerm(None, width.next, width.used);
      if !Sensible(width) || !Sensible(prec) then None
      else if prec.next == |f| then Some(Ends(1, 1))
      else
        var c := f[prec.next];
        Sum(ConvEnds(c, NumberOf(width), NumberOf(prec), TextEnds(pl, prec.used)),
            Span(f, prec.next + 1, pl, if TakesArgument(c) then prec.used + 1 else prec.used))
  }

  // ----- terms with known ends -----

  ghost predicate InOrder(e: Ends) { 0 <= e.lo <= e.hi }

  function RangeOf(e: Ends): Range { Range(Clamp(e.lo), Clamp(e.hi)) }

  // The term adds up to exactly the range of `e` under `r`.
  ghost predicate Spanning(s: Sys, t: Term, r: seq<Range>, e: Ends) {
    && Solved(s, r) && t.VarsBelow(s.Size()) && UpTerm(s.Snapshot(), t, r) && InOrder(e)
    && EvalTerm(s.Snapshot(), t, r) == RangeOf(e)
  }

  // It adds up to that range or more.
  ghost predicate Covering(s: Sys, t: Term, r: seq<Range>, e: Ends) {
    && Solved(s, r) && t.VarsBelow(s.Size()) && UpTerm(s.Snapshot(), t, r) && InOrder(e)
    && Leq(RangeOf(e), EvalTerm(s.Snapshot(), t, r))
  }

  lemma ConstantSpans(s: Sys, n: int, r: seq<Range>)
    requires Solved(s, r) && n >= 0
    ensures Spanning(s, Constant(n), r, Ends(n, n))
  {
    UpTermEvaluates(s.Snapshot(), Constant(n), r);
  }

  lemma VariableSpans(s: Sys, v: VarId, r: seq<Range>)
    requires Solved(s, r) && v < s.Size() && s.root[v] == v && IsUp(r[v])
    ensures EvalTerm(s.Snapshot(), VarTerm(v), r) == r[v] && UpTerm(s.Snapshot(), VarTerm(v), r)
    ensures VarTerm(v).VarsBelow(s.Size())
  {
    VarTermEvaluates(s.Snapshot(), v, r);
    assert UpSlot(s.Snapshot(), Slot(1, v), r);
    UpTermEvaluates(s.Snapshot(), VarTerm(v), r);
  }

  lemma PlusSpans(s: Sys, t: Term, u: Term, r: seq<Range>, e: Ends, e': Ends)
    requires Spanning(s, t, r, e) && Spanning(s, u, r, e')
    ensures Spanning(s, t.Plus(u), r, Plus(e, e'))
  {
    SumsEvaluate(s, t, u, r);
    SameClamps(e.lo, Terms.Value(t, Low(s.Snapshot(), r)), e'.lo, Terms.Value(u, Low(s.Snapshot(), r)));
    SameClamps(e.hi, Terms.Value(t, High(s.Snapshot(), r)), e'.hi, Terms.Value(u, High(s.Snapshot(), r)));
  }

  lemma PlusCovers(s: Sys, t: Term, u: Term, r: seq<Range>, e: Ends, e': Ends)
    requires Covering(s, t, r, e) && Covering(s, u, r, e')
    ensures Covering(s, t.Plus(u), r, Plus(e, e'))
  {
    SumsEvaluate(s, t, u, r);
    LessClamps(Terms.Value(t, Low(s.Snapshot(), r)), e.lo, Terms.Value(u, Low(s.Snapshot(), r)), e'.lo);
    LessClamps(e.hi, Terms.Value(t, High(s.Snapshot(), r)), e'.hi, Terms.Value(u, High(s.Snapshot(), r)));
  }

  lemma SumsEvaluate(s: Sys, t: Term, u: Term, r: seq<Range>)
    requires Solved(s, r) && UpTerm(s.Snapshot(), t, r) && UpTerm(s.Snapshot(), u, r)
    ensures var p := s.Snapshot(); var lo, hi := Low(p, r), High(p, r);
            && UpTerm(p, t.Plus(u), r) && t.Plus(u).VarsBelow(s.Size())
            && 0 <= Terms.Value(t, lo) <= Terms.Value(t, hi) && 0 <= Terms.Value(u, lo) <= Terms.Value(u, hi)
            && EvalTerm(p, t, r) == Range(Clamp(Terms.Value(t, lo)), Clamp(Terms.Value(t, hi)))
            && EvalTerm(p, u, r) == Range(Clamp(Terms.Value(u, lo)), Clamp(Terms.Value(u, hi)))
            && EvalTerm(p, t.Plus(u), r) ==
              Range(Clamp(Terms.Value(t, lo) + Terms.Value(u, lo)), Clamp(Terms.Value(t, hi) + Terms.Value(u, hi)))
  {
    PlusUp(s.Snapshot(), t, u, r);
    UpTermEvaluates(s.Snapshot(), t, r);
    UpTermEvaluates(s.Snapshot(), u, r);
    UpTermEvaluates(s.Snapshot(), t.Plus(u), r);
  }

  lemma SameClamps(a: int, b: int, c: int, d: int)
    requires a >= 0 && b >= 0 && c >= 0 && d >= 0 && Clamp(a) == Clamp(b) && Clamp(c) == Clamp(d)
    ensures Clamp(a + c) == Clamp(b + d)
  {
  }

  lemma LessClamps(a: int, b: int, c: int, d: int)
    requires a >= 0 && b >= 0 && c >= 0 && d >= 0 && Clamp(a) <= Clamp(b) && Clamp(c) <= Clamp(d)
    ensures Clamp(a + c) <= Clamp(b + d)
  {
  }

  // Later variables change nothing.
  lemma SpansLater(s: Sys, s': Sys, t: Term, r: seq<Range>, r': seq<Range>, e: Ends)
    requires Spanning(s, t, r, e) && Prolongs(s, s') && Solved(s', r') && r <= r'
    ensures Spanning(s', t, r', e)
  {
    UpLater(s, s', t, r, r');
    SameTerm(s, s', t, r, r');
  }

  lemma UpLater(s: Sys, s': Sys, t: Term, r: seq<Range>, r': seq<Range>)
    requires s.Valid() && s'.Valid() && Prolongs(s, s') && |r| == s.Size() && |r'| == s'.Size() && r <= r'
    requires UpTerm(s.Snapshot(), t, r)
    ensures UpTerm(s'.Snapshot(), t, r') && t.VarsBelow(s'.Size()) && t.VarsBelow(s.Size())
  {
    forall i | 0 <= i < |t.terms| ensures UpSlot(s'.Snapshot(), t.terms[i], r') && t.terms[i].v < s.Size() {
      assert UpSlot(s.Snapshot(), t.terms[i], r);
    }
  }

  lemma CoversLater(s: Sys, s': Sys, t: Term, r': seq<Range>, e: Ends)
    requires Prolongs(s, s') && Solved(s', r') && Covering(s, t, r'[..s.Size()], e)
    ensures Covering(s', t, r', e)
  {
    UpLater(s, s', t, r'[..s.Size()], r');
    SameTerm(s, s', t, r'[..s.Size()], r');
  }

  // ----- the term of one conversion -----

  ghost predicate FreshUp(r: seq<Range>, n: nat) { forall v :: n <= v < |r| ==> IsUp(r[v]) }

  ghost predicate FreshLow(r: seq<Range>, n: nat) { forall v :: n <= v < |r| ==> r[v].IsEmpty() || IsUp(r[v]) }

  lemma TextReaches(s: Sys, pl: seq<Ctx>, k: nat, r: seq<Range>) returns (r': seq<Range>)
    requires Solved(s, r) && AllKnown(pl)
    ensures var (s', t) := StringArg(s, pl, k);
            Prolongs(s, s') && r <= r' && Spanning(s', t, r', TextEnds(pl, k)) && FreshUp(r', |r|)
  {
    if k < |pl| && pl[k].CStr? {
      r' := r;
      PlusConstant(pl[k].len, 1);
      ConstantSpans(s, pl[k].len.konst - 1, r);
    } else {
      r' := r + [Range(1, INF)];
      ForceReaches(s, None, r);
      FreshIsFree(s, None);
      VariableSpans(StringArg(s, pl, k).0, s.Size(), r');
    }
  }

  lemma TextNeeds(s: Sys, pl: seq<Ctx>, k: nat, r': seq<Range>)
    requires s.Valid() && s.hardLo == [] && AllKnown(pl) && Solved(StringArg(s, pl, k).0, r') && FreshLow(r', s.Size())
    ensures var (s', t) := StringArg(s, pl, k); Prolongs(s, s') && Covering(s', t, r', TextEnds(pl, k))
  {
    if k < |pl| && pl[k].CStr? {
      PlusConstant(pl[k].len, 1);
      ConstantSpans(s, pl[k].len.konst - 1, r');
    } else {
      ForceNeeds(s, None, r');
      FreshIsFree(s, None);
      VariableSpans(StringArg(s, pl, k).0, s.Size(), r');
    }
  }

  function Shortened(e: Ends, p: int): Ends { Ends(Min(p, e.lo), Min(p, e.hi)) }

  function Widened(e: Ends, w: int): Ends { Ends(Min(w, e.lo), Max(w, e.hi)) }

  lemma ShortenedReaches(s: Sys, p: int, t: Term, r: seq<Range>, e: Ends) returns (r': seq<Range>)
    requires Spanning(s, t, r, e) && p >= 0 && (t.IsConstant() || t.SingleVar().Some?)
    ensures var (s', m) := s.MinOf(Constant(p), t);
            Prolongs(s, s') && r <= r' && |r'| == |r| + 1 && Spanning(s', m, r', Shortened(e, p)) && IsUp(r'[|r|])
  {
    r' := MinReaches(s, Constant(p), t, r);
    var s' := s.MinOf(Constant(p), t).0;
    assert s'.root[s.Size()] == s.Size();
    VariableSpans(s', s.Size(), r');
  }

  lemma WidenedReaches(s: Sys, w: int, t: Term, r: seq<Range>, e: Ends) returns (r': seq<Range>)
    requires Spanning(s, t, r, e) && w >= 0
    ensures var (s', m) := s.UnionOf(Constant(w), t);
            Prolongs(s, s') && r <= r' && |r'| == |r| + 1 && Spanning(s', m, r', Widened(e, w)) && IsUp(r'[|r|])
  {
    UnionReaches(s, Constant(w), t, r);
    r' := r + [Hull(EvalTerm(s.Snapshot(), Constant(w), r), EvalTerm(s.Snapshot(), t, r))];
    var s' := s.UnionOf(Constant(w), t).0;
    assert s'.root[s.Size()] == s.Size();
    VariableSpans(s', s.Size(), r');
  }

  lemma ShortenedNeeds(s: Sys, p: int, t: Term, r': seq<Range>, e: Ends)
    requires s.Valid() && s.hardLo == [] && t.VarsBelow(s.Size()) && p >= 0 && Solved(s.MinOf(Constant(p), t).0, r')
    requires FreshLow(r', s.Size()) && s.Size() <= |r'| && Covering(s, t, r'[..s.Size()], e)
    ensures var (s', m) := s.MinOf(Constant(p), t); Prolongs(s, s') && Covering(s', m, r', Shortened(e, p))
  {
    MinNeeds(s, Constant(p), t, r');
    var s' := s.MinOf(Constant(p), t).0;
    assert s'.root[s.Size()] == s.Size();
    VariableSpans(s', s.Size(), r');
  }

  lemma WidenedNeeds(s: Sys, w: int, t: Term, r': seq<Range>, e: Ends)
    requires s.Valid() && s.hardLo == [] && t.VarsBelow(s.Size()) && w >= 0 && Solved(s.UnionOf(Constant(w), t).0, r')
    requires FreshLow(r', s.Size()) && s.Size() <= |r'| && Covering(s, t, r'[..s.Size()], e)
    ensures var (s', m) := s.UnionOf(Constant(w), t); Prolongs(s, s') && Covering(s', m, r', Widened(e, w))
  {
    UnionNeeds(s, Constant(w), t, r');
    var s' := s.UnionOf(Constant(w), t).0;
    assert s'.root[s.Size()] == s.Size();
    VariableSpans(s', s.Size(), r');
  }

  // Two constants.
  lemma ConstantsReach(s: Sys, a: int, b: int, r: seq<Range>) returns (r': seq<Range>)
    requires Solved(s, r) && 0 <= a <= b
    ensures var (s', m) := s.UnionOf(Constant(a), Constant(b));
            Prolongs(s, s') && r <= r' && Spanning(s', m, r', Ends(a, b)) && FreshUp(r', |r|)
  {
    ConstantSpans(s, b, r);
    r' := WidenedReaches(s, a, Constant(b), r, Ends(b, b));
  }

  lemma ConstantsNeed(s: Sys, a: int, b: int, r': seq<Range>)
    requires s.Valid() && s.hardLo == [] && 0 <= a <= b && Solved(s.UnionOf(Constant(a), Constant(b)).0, r')
    requires FreshLow(r', s.Size())
    ensures var (s', m) := s.UnionOf(Constant(a), Constant(b)); Prolongs(s, s') && Covering(s', m, r', Ends(a, b))
  {
    UnionNeeds(s, Constant(a), Constant(b), r');
    ConstantSpans(s, b, r'[..s.Size()]);
    WidenedNeeds(s, a, Constant(b), r', Ends(b, b));
  }

  // The text cut off by a precision, if there is one.
  function Cut(s: Sys, prec: Option<int>, n: Term): (Sys, Term) {
    if prec.Some? then s.MinOf(Constant(prec.value), n) else (s, n)
  }

  function CutEnds(prec: Option<int>, e: Ends): Ends { if prec.Some? then Shortened(e, prec.value) else e }

  // A `%s` is its text, cut off and then widened.
  lemma FieldIsStages(s: Sys, width: Option<int>, prec: Option<int>, pl: seq<Ctx>, k: nat)
    ensures var (s1, n) := StringArg(s, pl, k); var (s2, n1) := Cut(s1, prec, n);
            ConvTerm(s, 's', Constants(width), Constants(prec), pl, k) ==
            if width.Some? then (s2.UnionOf(Constant(width.value), n).0, s2.UnionOf(Constant(width.value), n).1, true)
            else (s2, n1, true)
  {
  }

  lemma CutReaches(s: Sys, prec: Option<int>, n: Term, r: seq<Range>, e: Ends) returns (r': seq<Range>)
    requires Spanning(s, n, r, e) && (n.IsConstant() || n.SingleVar().Some?) && (prec.Some? ==> prec.value >= 0)
    ensures var (s', m) := Cut(s, prec, n);
            && Prolongs(s, s') && r <= r' && FreshUp(r', |r|) && Spanning(s', m, r', CutEnds(prec, e))
            && Spanning(s', n, r', e)
  {
    r' := r;
    if prec.Some? {
      r' := ShortenedReaches(s, prec.value, n, r, e);
      SpansLater(s, s.MinOf(Constant(prec.value), n).0, n, r, r', e);
    }
  }

  lemma CutNeeds(s: Sys, prec: Option<int>, n: Term, r': seq<Range>, e: Ends)
    requires s.Valid() && s.hardLo == [] && n.VarsBelow(s.Size()) && (prec.Some? ==> prec.value >= 0)
    requires Solved(Cut(s, prec, n).0, r') && FreshLow(r', s.Size())
    requires s.Size() <= |r'| && Covering(s, n, r'[..s.Size()], e)
    ensures var (s', m) := Cut(s, prec, n);
            Prolongs(s, s') && Covering(s', m, r', CutEnds(prec, e)) && Covering(s', n, r', e)
  {
    if prec.Some? {
      ShortenedNeeds(s, prec.value, n, r', e);
      CoversLater(s, s.MinOf(Constant(prec.value), n).0, n, r', e);
    } else {
      assert r'[..s.Size()] == r';
    }
  }

  lemma CutProlongs(s: Sys, prec: Option<int>, n: Term)
    requires s.Valid() && s.hardLo == [] && n.VarsBelow(s.Size())
    ensures Prolongs(s, Cut(s, prec, n).0)
  {
    if prec.Some? {
      var s2, a, b := MinLayout(s, Constant(prec.value), n);
      WithProlongs(s, s2, MinSubset([a, b], s.Size()));
    }
  }

  lemma UnionProlongs(s: Sys, x: Term, y: Term)
    requires s.Valid() && s.hardLo == [] && x.VarsBelow(s.Size()) && y.VarsBelow(s.Size())
    ensures Prolongs(s, s.UnionOf(x, y).0)
  {
    var (s0, z) := s.Fresh(None);
    FreshIsFree(s, None);
    var r := seq(s0.Size(), _ => EMPTY);
    IncludeAsks(s0, x, s.Size(), r);
    IncludeAsks(s0.Include(x, z), y, s.Size(), r);
    ProlongsTransitive(s, s0, s0.Include(x, z));
    ProlongsTransitive(s, s0.Include(x, z), s.UnionOf(x, y).0);
  }

  // The text and its cut.
  lemma StagesReach(s: Sys, prec: Option<int>, pl: seq<Ctx>, k: nat, r: seq<Range>) returns (r': seq<Range>)
    requires Solved(s, r) && AllKnown(pl) && (prec.Some? ==> prec.value >= 0)
    ensures var (s1, n) := StringArg(s, pl, k); var (s2, m) := Cut(s1, prec, n);
            && Prolongs(s, s2) && r <= r' && FreshUp(r', |r|)
            && Spanning(s2, m, r', CutEnds(prec, TextEnds(pl, k))) && Spanning(s2, n, r', TextEnds(pl, k))
  {
    TextIsSimple(s, pl, k);
    var (s1, n) := StringArg(s, pl, k);
    var r1 := TextReaches(s, pl, k, r);
    r' := CutReaches(s1, prec, n, r1, TextEnds(pl, k));
    ProlongsTransitive(s, s1, Cut(s1, prec, n).0);
  }

  // Width, precision and text together.
  lemma FieldReaches(s: Sys, width: Option<int>, prec: Option<int>, pl: seq<Ctx>, k: nat, r: seq<Range>)
    returns (r': seq<Range>)
    requires Solved(s, r) && AllKnown(pl) && (width.Some? ==> width.value >= 0) && (prec.Some? ==> prec.value >= 0)
    ensures var (s', m, takes) := ConvTerm(s, 's', Constants(width), Constants(prec), pl, k);
            && Prolongs(s, s') && r <= r' && Spanning(s', m, r', ConvEnds('s', width, prec, TextEnds(pl, k)))
            && FreshUp(r', |r|) && takes
  {
    FieldIsStages(s, width, prec, pl, k);
    r' := StagesReach(s, prec, pl, k, r);
    if width.Some? {
      var (s1, n) := StringArg(s, pl, k);
      var s2, r2 := Cut(s1, prec, n).0, r';
      r' := WidenedReaches(s2, width.value, n, r2, TextEnds(pl, k));
      ProlongsTransitive(s, s2, s2.UnionOf(Constant(width.value), n).0);
    }
  }

  lemma TextIsSimple(s: Sys, pl: seq<Ctx>, k: nat)
    requires AllKnown(pl)
    ensures var n := StringArg(s, pl, k).1; n.IsConstant() || n.SingleVar().Some?
  {
    if k < |pl| && pl[k].CStr? { PlusConstant(pl[k].len, 1); }
  }

  function Constants(n: Option<int>): Option<Term> { if n.Some? then Some(Constant(n.value)) else None }

  lemma FieldNeeds(s: Sys, width: Option<int>, prec: Option<int>, pl: seq<Ctx>, k: nat, r': seq<Range>)
    requires s.Valid() && s.hardLo == [] && AllKnown(pl)
    requires (width.Some? ==> width.value >= 0) && (prec.Some? ==> prec.value >= 0)
    requires Solved(ConvTerm(s, 's', Constants(width), Constants(prec), pl, k).0, r') && FreshLow(r', s.Size())
    ensures var (s', m, takes) := ConvTerm(s, 's', Constants(width), Constants(prec), pl, k);
            Prolongs(s, s') && Covering(s', m, r', ConvEnds('s', width, prec, TextEnds(pl, k))) && takes
  {
    FieldIsStages(s, width, prec, pl, k);
    var (s1, n) := StringArg(s, pl, k);
    TextProlongs(s, pl, k);
    var s2 := Cut(s1, prec, n).0;
    CutProlongs(s1, prec, n);
    ProlongsTransitive(s, s1, s2);
    if width.Some? {
      var s3 := s2.UnionOf(Constant(width.value), n).0;
      UnionProlongs(s2, Constant(width.value), n);
      ProlongsTransitive(s, s2, s3);
      CutSolved(s2, s3, r');
      StagesNeed(s, prec, pl, k, r'[..s2.Size()]);
      WidenedNeeds(s2, width.value, n, r', TextEnds(pl, k));
    } else {
      StagesNeed(s, prec, pl, k, r');
    }
  }

  // The text and its cut.
  lemma StagesNeed(s: Sys, prec: Option<int>, pl: seq<Ctx>, k: nat, r': seq<Range>)
    requires s.Valid() && s.hardLo == [] && AllKnown(pl) && (prec.Some? ==> prec.value >= 0)
    requires var (s1, n) := StringArg(s, pl, k); Solved(Cut(s1, prec, n).0, r')
    requires FreshLow(r', s.Size())
    ensures var (s1, n) := StringArg(s, pl, k); var (s2, m) := Cut(s1, prec, n);
            Covering(s2, m, r', CutEnds(prec, TextEnds(pl, k))) && Covering(s2, n, r', TextEnds(pl, k))
  {
    var (s1, n) := StringArg(s, pl, k);
    TextProlongs(s, pl, k);
    CutProlongs(s1, prec, n);
    CutSolved(s1, Cut(s1, prec, n).0, r');
    TextNeeds(s, pl, k, r'[..s1.Size()]);
    CutNeeds(s1, prec, n, r', TextEnds(pl, k));
  }

  lemma TextProlongs(s: Sys, pl: seq<Ctx>, k: nat)
    requires s.Valid() && s.hardLo == [] && AllKnown(pl)
    ensures var (s', n) := StringArg(s, pl, k); Prolongs(s, s') && n.VarsBelow(s'.Size())
  {
    if k < |pl| && pl[k].CStr? {
      PlusConstant(pl[k].len, 1);
    } else {
      FreshIsFree(s, None);
      var s0 := s.Fresh(None).0;
      ForceAsks(s0, s.Size(), seq(s0.Size(), _ => EMPTY));
      ProlongsTransitive(s, s0, s0.ForceTop(VarTerm(s.Size())));
    }
  }

  lemma WithProlongs(s: Sys, s2: Sys, c: Constraint)
    requires Prolongs(s, s2) && ConstraintBelow(c, s2.Size())
    ensures Prolongs(s, With(s2, c))
  {
    MoreConstraints(s2.Snapshot(), With(s2, c).Snapshot(), c);
  }

  // The conversions that are neither strings nor single bytes.
  predicate Counted(c: char) { c in {'d', 'i', 'x', 'X', 'u', 'U', 'p', 'o', 'e', 'E', 'f', 'g', 'G'} }

  function MostOf(c: char): int { if c == 'o' then 22 else if c in {'e', 'E', 'f', 'g', 'G'} then 32 else 20 }

  lemma CountTerm(s: Sys, c: char, width: Option<Term>, prec: Option<Term>, pl: seq<Ctx>, k: nat)
    requires Counted(c)
    ensures var u := s.UnionOf(Constant(1), Constant(MostOf(c))); ConvTerm(s, c, width, prec, pl, k) == (u.0, u.1, true)
  {
  }

  lemma CountEnds(c: char, width: Option<int>, prec: Option<int>, e: Ends)
    requires Counted(c)
    ensures ConvEnds(c, width, prec, e) == Ends(1, MostOf(c)) && TakesArgument(c) && 1 <= MostOf(c)
  {
  }

  lemma OtherTerm(s: Sys, c: char, width: Option<Term>, prec: Option<Term>, pl: seq<Ctx>, k: nat)
    requires !Counted(c) && c != 's'
    ensures ConvTerm(s, c, width, prec, pl, k) == (s, Constant(1), TakesArgument(c))
  {
  }

  // A conversion in a system: its term reaches the bounds of the table, or it covers them.
  ghost predicate Reached(s: Sys, c: char, width: Option<int>, prec: Option<int>, pl: seq<Ctx>, k: nat, r: seq<Range>,
                          r': seq<Range>)
    requires AllKnown(pl)
  {
    var (s', m, takes) := ConvTerm(s, c, Constants(width), Constants(prec), pl, k);
    && Prolongs(s, s') && r <= r' && Spanning(s', m, r', ConvEnds(c, width, prec, TextEnds(pl, k)))
    && FreshUp(r', |r|) && takes == TakesArgument(c)
  }

  ghost predicate Needed(s: Sys, c: char, width: Option<int>, prec: Option<int>, pl: seq<Ctx>, k: nat, r': seq<Range>)
    requires AllKnown(pl)
  {
    var (s', m, takes) := ConvTerm(s, c, Constants(width), Constants(prec), pl, k);
    && Prolongs(s, s') && Covering(s', m, r', ConvEnds(c, width, prec, TextEnds(pl, k)))
    && takes == TakesArgument(c)
  }

  lemma CountReaches(s: Sys, c: char, width: Option<int>, prec: Option<int>, pl: seq<Ctx>, k: nat, r: seq<Range>)
    returns (r': seq<Range>)
    requires Solved(s, r) && AllKnown(pl) && Counted(c)
    ensures Reached(s, c, width, prec, pl, k, r, r')
  {
    CountTerm(s, c, Constants(width), Constants(prec), pl, k);
    CountEnds(c, width, prec, TextEnds(pl, k));
    r' := ConstantsReach(s, 1, MostOf(c), r);
  }

  lemma CountNeeds(s: Sys, c: char, width: Option<int>, prec: Option<int>, pl: seq<Ctx>, k: nat, r': seq<Range>)
    requires s.Valid() && s.hardLo == [] && AllKnown(pl) && Counted(c)
    requires Solved(ConvTerm(s, c, Constants(width), Constants(prec), pl, k).0, r') && FreshLow(r', s.Size())
    ensures Needed(s, c, width, prec, pl, k, r')
  {
    CountTerm(s, c, Constants(width), Constants(prec), pl, k);
    CountEnds(c, width, prec, TextEnds(pl, k));
    ConstantsNeed(s, 1, MostOf(c), r');
  }

  // Every conversion.
  lemma ConvReaches(s: Sys, c: char, width: Option<int>, prec: Option<int>, pl: seq<Ctx>, k: nat, r: seq<Range>)
    returns (r': seq<Range>)
    requires Solved(s, r) && AllKnown(pl) && (width.Some? ==> width.value >= 0) && (prec.Some? ==> prec.value >= 0)
    ensures Reached(s, c, width, prec, pl, k, r, r')
  {
    if c == 's' {
      r' := FieldReaches(s, width, prec, pl, k, r);
    } else if Counted(c) {
      r' := CountReaches(s, c, width, prec, pl, k, r);
    } else {
      r' := r;
      OtherTerm(s, c, Constants(width), Constants(prec), pl, k);
      ConstantSpans(s, 1, r);
    }
  }

  lemma ConvNeeds(s: Sys, c: char, width: Option<int>, prec: Option<int>, pl: seq<Ctx>, k: nat, r': seq<Range>)
    requires s.Valid() && s.hardLo == [] && AllKnown(pl)
    requires (width.Some? ==> width.value >= 0) && (prec.Some? ==> prec.value >= 0)
    requires Solved(ConvTerm(s, c, Constants(width), Constants(prec), pl, k).0, r') && FreshLow(r', s.Size())
    ensures Needed(s, c, width, prec, pl, k, r')
  {
    if c == 's' {
      FieldNeeds(s, width, prec, pl, k, r');
    } else if Counted(c) {
      CountNeeds(s, c, width, prec, pl, k, r');
    } else {
      OtherTerm(s, c, Constants(width), Constants(prec), pl, k);
      ConstantSpans(s, 1, r');
    }
  }

  // ----- the whole format -----

  lemma NumberIsConstant(f: string, i: nat, pl: seq<Ctx>, k: nat)
    requires i <= |f| && AllKnown(pl) && Sensible(ReadNum(f, i, pl, k))
    ensures var n := ReadNum(f, i, pl, k);
            n.value == Constants(NumberOf(n)) && (NumberOf(n).Some? ==> NumberOf(n).value >= 0)
  {
  }

  ghost predicate ScanReached(s: Sys, f: string, i: nat, pl: seq<Ctx>, k: nat, r: seq<Range>, r': seq<Range>)
    requires i <= |f| && AllKnown(pl) && Span(f, i, pl, k).Some?
  {
    var (s', t) := FmtScan(s, f, i, pl, k);
    Prolongs(s, s') && r <= r' && Spanning(s', t, r', Span(f, i, pl, k).value) && FreshUp(r', |r|)
  }

  ghost predicate ScanNeeded(s: Sys, f: string, i: nat, pl: seq<Ctx>, k: nat, r': seq<Range>)
    requires i <= |f| && AllKnown(pl) && Span(f, i, pl, k).Some?
  {
    var (s', t) := FmtScan(s, f, i, pl, k);
    Prolongs(s, s') && Covering(s', t, r', Span(f, i, pl, k).value)
  }

  // The scanned term reaches the bounds of the format in some extension of every solution.
  lemma {:induction false} ScanReaches(s: Sys, f: string, i: nat, pl: seq<Ctx>, k: nat, r: seq<Range>)
    returns (r': seq<Range>)
    requires i <= |f| && AllKnown(pl) && Span(f, i, pl, k).Some? && Solved(s, r)
    ensures ScanReached(s, f, i, pl, k, r, r')
    decreases |f| - i, 0
  {
    if i == |f| {
      r' := r;
      ConstantSpans(s, 1, r);
    } else if f[i] != '%' {
      r' := ScanReaches(s, f, i + 1, pl, k, r);
      ByteReaches(s, f, i + 1, pl, k, r, r');
    } else if i + 1 == |f| {
      r' := r;
      ConstantSpans(s, 2, r);
    } else if f[i + 1] == '%' {
      r' := ScanReaches(s, f, i + 2, pl, k, r);
      ByteReaches(s, f, i + 2, pl, k, r, r');
    } else {
      r' := PercentReaches(s, f, i, pl, k, r);
    }
  }

  lemma ByteReaches(s: Sys, f: string, i: nat, pl: seq<Ctx>, k: nat, r: seq<Range>, r': seq<Range>)
    requires i <= |f| && AllKnown(pl) && Span(f, i, pl, k).Some? && ScanReached(s, f, i, pl, k, r, r')
    ensures var (s', t) := FmtScan(s, f, i, pl, k);
            Spanning(s', Constant(1).Plus(t), r', Plus(Ends(1, 1), Span(f, i, pl, k).value))
  {
    var (s', t) := FmtScan(s, f, i, pl, k);
    ConstantSpans(s', 1, r');
    PlusSpans(s', Constant(1), t, r', Ends(1, 1), Span(f, i, pl, k).value);
  }

  // The pieces of a conversion, as the scan reads them.
  datatype Piece = Piece(width: Option<int>, prec: Option<int>, at: nat, used: nat)

  ghost predicate ReadsPiece(f: string, i: nat, pl: seq<Ctx>, k: nat, q: Piece)
    requires i + 1 < |f| && f[i] == '%' && f[i + 1] != '%'
  {
    var width := ReadNum(f, SkipModifiers(f, i + 1), pl, k);
    var dot := width.next < |f| && f[width.next] == '.';
    var prec := if dot then ReadNum(f, width.next + 1, pl, width.used) else NumTerm(None, width.next, width.used);
    && Sensible(width) && Sensible(prec) && i < prec.next
    && q == Piece(NumberOf(width), NumberOf(prec), prec.next, prec.used)
    && width.value == Constants(q.width) && prec.value == Constants(q.prec)
    && (q.width.Some? ==> q.width.value >= 0) && (q.prec.Some? ==> q.prec.value >= 0)
  }

  lemma PieceIsRead(f: string, i: nat, pl: seq<Ctx>, k: nat) returns (q: Piece)
    requires i + 1 < |f| && f[i] == '%' && f[i + 1] != '%' && AllKnown(pl) && Span(f, i, pl, k).Some?
    ensures ReadsPiece(f, i, pl, k, q)
  {
    var at := SkipModifiers(f, i + 1);
    var width := ReadNum(f, at, pl, k);
    var dot := width.next < |f| && f[width.next] == '.';
    var prec := if dot then ReadNum(f, width.next + 1, pl, width.used) else NumTerm(None, width.next, width.used);
    NumberIsConstant(f, at, pl, k);
    if dot { NumberIsConstant(f, width.next + 1, pl, width.used); }
    q := Piece(NumberOf(width), NumberOf(prec), prec.next, prec.used);
  }

  // The scan and the bounds from a conversion on.
  lemma PieceScanned(s: Sys, f: string, i: nat, pl: seq<Ctx>, k: nat, q: Piece)
    requires i + 1 < |f| && f[i] == '%' && f[i + 1] != '%' && ReadsPiece(f, i, pl, k, q)
    ensures q.at <= |f|
    ensures FmtScan(s, f, i, pl, k) ==
            if q.at == |f| then (s, Constant(1))
            else ExpandConv(s, f[q.at], Constants(q.width), Constants(q.prec), f, q.at + 1, pl, q.used)
  {
  }

  lemma PieceSpans(f: string, i: nat, pl: seq<Ctx>, k: nat, q: Piece)
    requires i + 1 < |f| && f[i] == '%' && f[i + 1] != '%' && ReadsPiece(f, i, pl, k, q) && q.at <= |f|
    ensures Span(f, i, pl, k) ==
            if q.at == |f| then Some(Ends(1, 1))
            else
              Sum(ConvEnds(f[q.at], q.width, q.prec, TextEnds(pl, q.used)),
                  Span(f, q.at + 1, pl, if TakesArgument(f[q.at]) then q.used + 1 else q.used))
  {
  }

  lemma {:induction false} PercentReaches(s: Sys, f: string, i: nat, pl: seq<Ctx>, k: nat, r: seq<Range>)
    returns (r': seq<Range>)
    requires i + 1 < |f| && f[i] == '%' && f[i + 1] != '%' && AllKnown(pl) && Span(f, i, pl, k).Some? && Solved(s, r)
    ensures ScanReached(s, f, i, pl, k, r, r')
    decreases |f| - i - 1, 1
  {
    var q := PieceIsRead(f, i, pl, k);
    PieceScanned(s, f, i, pl, k, q);
    PieceSpans(f, i, pl, k, q);
    if q.at == |f| {
      r' := r;
      ConstantSpans(s, 1, r);
    } else {
      r' := ConversionReaches(s, f[q.at], q.width, q.prec, f, q.at + 1, pl, q.used, r);
    }
  }

  lemma {:induction false} ConversionReaches(s: Sys, c: char, width: Option<int>, prec: Option<int>, f: string,
                                             next: nat, pl: seq<Ctx>, k: nat, r: seq<Range>)
    returns (r': seq<Range>)
    requires next <= |f| && AllKnown(pl) && Solved(s, r)
    requires (width.Some? ==> width.value >= 0) && (prec.Some? ==> prec.value >= 0)
    requires Span(f, next, pl, if TakesArgument(c) then k + 1 else k).Some?
    ensures var (s', t) := ExpandConv(s, c, Constants(width), Constants(prec), f, next, pl, k);
            var rest := Span(f, next, pl, if TakesArgument(c) then k + 1 else k).value;
            && Prolongs(s, s') && r <= r' && FreshUp(r', |r|)
            && Spanning(s', t, r', Plus(ConvEnds(c, width, prec, TextEnds(pl, k)), rest))
    decreases |f| - next, 1
  {
    var used := if TakesArgument(c) then k + 1 else k;
    var r1 := ConvReaches(s, c, width, prec, pl, k, r);
    var (s1, m, takes) := ConvTerm(s, c, Constants(width), Constants(prec), pl, k);
    r' := ScanReaches(s1, f, next, pl, used, r1);
    var (s2, rest) := FmtScan(s1, f, next, pl, used);
    ProlongsTransitive(s, s1, s2);
    SpansLater(s1, s2, m, r1, r', ConvEnds(c, width, prec, TextEnds(pl, k)));
    PlusSpans(s2, m, rest, r', ConvEnds(c, width, prec, TextEnds(pl, k)), Span(f, next, pl, used).value);
  }

  // And it falls short of them in no solution whose fresh variables are not negative.
  lemma {:induction false} ScanNeeds(s: Sys, f: string, i: nat, pl: seq<Ctx>, k: nat, r': seq<Range>)
    requires i <= |f| && AllKnown(pl) && Span(f, i, pl, k).Some? && s.Valid() && s.hardLo == []
    requires Solved(FmtScan(s, f, i, pl, k).0, r') && FreshLow(r', s.Size())
    ensures ScanNeeded(s, f, i, pl, k, r')
    decreases |f| - i, 0
  {
    if i == |f| {
      ConstantSpans(s, 1, r');
    } else if f[i] != '%' {
      ScanNeeds(s, f, i + 1, pl, k, r');
      ByteNeeds(s, f, i + 1, pl, k, r');
    } else if i + 1 == |f| {
      ConstantSpans(s, 2, r');
    } else if f[i + 1] == '%' {
      ScanNeeds(s, f, i + 2, pl, k, r');
      ByteNeeds(s, f, i + 2, pl, k, r');
    } else {
      var q := PieceIsRead(f, i, pl, k);
      PieceScanned(s, f, i, pl, k, q);
      PieceSpans(f, i, pl, k, q);
      if q.at == |f| {
        ConstantSpans(s, 1, r');
      } else {
        ConversionNeeds(s, f[q.at], q.width, q.prec, f, q.at + 1, pl, q.used, r');
      }
    }
  }

  lemma ByteNeeds(s: Sys, f: string, i: nat, pl: seq<Ctx>, k: nat, r': seq<Range>)
    requires i <= |f| && AllKnown(pl) && Span(f, i, pl, k).Some? && ScanNeeded(s, f, i, pl, k, r')
    ensures var (s', t) := FmtScan(s, f, i, pl, k);
            Covering(s', Constant(1).Plus(t), r', Plus(Ends(1, 1), Span(f, i, pl, k).value))
  {
    var (s', t) := FmtScan(s, f, i, pl, k);
    ConstantSpans(s', 1, r');
    PlusCovers(s', Constant(1), t, r', Ends(1, 1), Span(f, i, pl, k).value);
  }

  lemma {:induction false} ConversionNeeds(s: Sys, c: char, width: Option<int>, prec: Option<int>, f: string, next: nat,
                                           pl: seq<Ctx>, k: nat, r': seq<Range>)
    requires next <= |f| && AllKnown(pl) && s.Valid() && s.hardLo == []
    requires (width.Some? ==> width.value >= 0) && (prec.Some? ==> prec.value >= 0)
    requires Span(f, next, pl, if TakesArgument(c) then k + 1 else k).Some?
    requires Solved(ExpandConv(s, c, Constants(width), Constants(prec), f, next, pl, k).0, r') && FreshLow(r', s.Size())
    ensures var (s', t) := ExpandConv(s, c, Constants(width), Constants(prec), f, next, pl, k);
            var rest := Span(f, next, pl, if TakesArgument(c) then k + 1 else k).value;
            Prolongs(s, s') && Covering(s', t, r', Plus(ConvEnds(c, width, prec, TextEnds(pl, k)), rest))
    decreases |f| - next, 1
  {
    var used := if TakesArgument(c) then k + 1 else k;
    var (s1, m, takes) := ConvTerm(s, c, Constants(width), Constants(prec), pl, k);
    ConvProlongs(s, c, width, prec, pl, k);
    ScanNeeds(s1, f, next, pl, used, r');
    var (s2, rest) := FmtScan(s1, f, next, pl, used);
    ProlongsTransitive(s, s1, s2);
    CutSolved(s1, s2, r');
    ConvNeeds(s, c, width, prec, pl, k, r'[..s1.Size()]);
    CoversLater(s1, s2, m, r', ConvEnds(c, width, prec, TextEnds(pl, k)));
    PlusCovers(s2, m, rest, r', ConvEnds(c, width, prec, TextEnds(pl, k)), Span(f, next, pl, used).value);
  }

  lemma ConvProlongs(s: Sys, c: char, width: Option<int>, prec: Option<int>, pl: seq<Ctx>, k: nat)
    requires s.Valid() && s.hardLo == [] && AllKnown(pl)
    ensures var (s', m, takes) := ConvTerm(s, c, Constants(width), Constants(prec), pl, k);
            Prolongs(s, s') && takes == TakesArgument(c)
  {
    if c == 's' {
      FieldIsStages(s, width, prec, pl, k);
      var (s1, n) := StringArg(s, pl, k);
      TextProlongs(s, pl, k);
      CutProlongs(s1, prec, n);
      var s2 := Cut(s1, prec, n).0;
      ProlongsTransitive(s, s1, s2);
      if width.Some? {
        UnionProlongs(s2, Constant(width.value), n);
        ProlongsTransitive(s, s2, s2.UnionOf(Constant(width.value), n).0);
      }
    } else if Counted(c) {
      CountTerm(s, c, Constants(width), Constants(prec), pl, k);
      CountEnds(c, width, prec, Ends(0, 0));
      UnionProlongs(s, Constant(1), Constant(MostOf(c)));
    } else {
      OtherTerm(s, c, Constants(width), Constants(prec), pl, k);
    }
  }
}
