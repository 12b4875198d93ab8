/**
 What each step of the walk asks of the solution, exactly (src/walk.rs): which ranges the constraints of a library
 call, an operator, an assignment or a declaration allow, in both directions. The lengths written through are those of
 bare variables; a target with an offset is rewritten first (`Systems.SolvedForIsEquivalent`).
 */
module Demands {
  import opened Ranges
  import opened Terms
  import opened Problems
  import opened Verdicts
  import opened Systems
  import opened Syntax
  import opened Generator
  import opened Exactness
  import opened Spans

  // ----- inclusions one after the other -----

  // The class of the variable is not pinned.
  ghost predicate Free(s: Sys, v: VarId) {
    s.Valid() && s.hardLo == [] && v < s.Size() && Pin(s.Snapshot(), s.root[v]).None?
  }

  ghost function Of(s: Sys, t: Term, r: seq<Range>): Range
    requires s.Valid() && |r| == s.Size() && t.VarsBelow(s.Size())
  {
    EvalTerm(s.Snapshot(), t, r)
  }

  datatype Inclusion = Inclusion(t: Term, v: VarId)

  function Including(s: Sys, list: seq<Inclusion>): Sys
    decreases |list|
  {
    if list == [] then s else Including(s.Include(list[0].t, VarTerm(list[0].v)), list[1..])
  }

  ghost predicate Fit(s: Sys, list: seq<Inclusion>) {
    forall i :: 0 <= i < |list| ==> list[i].t.VarsBelow(s.Size()) && Free(s, list[i].v)
  }

  ghost predicate Granted(s: Sys, list: seq<Inclusion>, r: seq<Range>)
    requires s.Valid() && |r| == s.Size() && Fit(s, list)
  {
    forall i :: 0 <= i < |list| ==> Leq(Of(s, list[i].t, r), r[s.root[list[i].v]])
  }

  lemma OneIncluded(s: Sys, t: Term, v: VarId, r: seq<Range>)
    requires Free(s, v) && |r| == s.Size() && t.VarsBelow(s.Size())
    ensures var s' := s.Include(t, VarTerm(v));
            && Prolongs(s, s') && (forall u :: Free(s, u) ==> Free(s', u)) && s'.Size() == s.Size()
            && (Solved(s', r) <==> Solved(s, r) && Leq(Of(s, t, r), r[s.root[v]]))
  {
    IncludeAsks(s, t, v, r);
    SamePins(s.Snapshot(), s.Include(t, VarTerm(v)).Snapshot());
  }

  // Inclusions into free variables ask for themselves and for nothing else.
  lemma {:induction false} InclusionsAsk(s: Sys, list: seq<Inclusion>, r: seq<Range>)
    requires s.Valid() && s.hardLo == [] && |r| == s.Size() && Fit(s, list)
    ensures Prolongs(s, Including(s, list)) && Including(s, list).Size() == s.Size()
    ensures forall u :: Free(s, u) ==> Free(Including(s, list), u)
    ensures Solved(Including(s, list), r) <==> Solved(s, r) && Granted(s, list, r)
    decreases |list|
  {
    if list != [] {
      var t, v, rest := list[0].t, list[0].v, list[1..];
      var s1 := s.Include(t, VarTerm(v));
      OneIncluded(s, t, v, r);
      assert forall i :: 0 <= i < |rest| ==> rest[i] == list[i + 1];
      InclusionsAsk(s1, rest, r);
      ProlongsTransitive(s, s1, Including(s, list));
      GrantedRest(s, s1, list, r);
    }
  }

  lemma GrantedRest(s: Sys, s1: Sys, list: seq<Inclusion>, r: seq<Range>)
    requires list != [] && Prolongs(s, s1) && s1.Size() == s.Size() == |r| && Fit(s, list) && Fit(s1, list[1..])
    ensures Granted(s, list, r) <==> Leq(Of(s, list[0].t, r), r[s.root[list[0].v]]) && Granted(s1, list[1..], r)
  {
    var rest := list[1..];
    forall i | 0 <= i < |rest|
      ensures rest[i] == list[i + 1] && Of(s1, rest[i].t, r) == Of(s, list[i + 1].t, r)
        && s1.root[rest[i].v] == s.root[list[i + 1].v]
    {
      assert list[i + 1].t.VarsBelow(s.Size()) && Free(s, list[i + 1].v);
      SameTerm(s, s1, rest[i].t, r, r);
    }
    forall i | 0 <= i < |list|
      ensures i > 0 ==> (Leq(Of(s, list[i].t, r), r[s.root[list[i].v]]) <==>
                           Leq(Of(s1, rest[i - 1].t, r), r[s1.root[rest[i - 1].v]]))
    {
      if i > 0 { assert rest[i - 1] == list[i]; }
    }
    if Granted(s1, rest, r) && Leq(Of(s, list[0].t, r), r[s.root[list[0].v]]) {
      forall i | 0 <= i < |list| ensures Leq(Of(s, list[i].t, r), r[s.root[list[i].v]]) {
        if i > 0 { assert Leq(Of(s1, rest[i - 1].t, r), r[s1.root[rest[i - 1].v]]); }
      }
    }
    if Granted(s, list, r) {
      forall i | 0 <= i < |rest| ensures Leq(Of(s1, rest[i].t, r), r[s1.root[rest[i].v]]) {
        assert Leq(Of(s, list[i + 1].t, r), r[s.root[list[i + 1].v]]);
      }
    }
  }

  // ----- fresh variables -----

  // One more variable, which must take in `x` and may be anything that does.
  ghost predicate Holding(s: Sys, s': Sys, r: seq<Range>, x: Range) {
    && s'.Size() == s.Size() + 1
    && forall y: Range :: Solved(s', r + [y]) <==> Solved(s, r) && y.Bounded() && Leq(x, y)
  }

  // Two more variables.
  ghost predicate HoldingTwo(s: Sys, s': Sys, r: seq<Range>, x: Range, x': Range) {
    && s'.Size() == s.Size() + 2
    && forall y: Range, y': Range ::
         Solved(s', r + [y, y']) <==> Solved(s, r) && y.Bounded() && y'.Bounded() && Leq(x, y) && Leq(x', y')
  }

  lemma FreshAsks(s: Sys, name: Option<string>, r: seq<Range>, y: Range)
    requires s.Valid() && s.hardLo == [] && |r| == s.Size()
    ensures var s0 := s.Fresh(name).0;
            && Prolongs(s, s0) && Free(s0, s.Size()) && s0.root[s.Size()] == s.Size() && s0.Size() == s.Size() + 1
            && (Solved(s0, r + [y]) <==> Solved(s, r) && y.Bounded())
  {
    var s0, r' := s.Fresh(name).0, r + [y];
    FreshIsFree(s, name);
    if Solved(s, r) && y.Bounded() { FreshSolved(s, name, r, y); }
    if Solved(s0, r') {
      CutSolved(s, s0, r');
      assert r'[..s.Size()] == r && r'[s.Size()] == y;
    }
  }

  // Inclusions into one fresh variable.
  lemma {:induction false} FreshHolds(s: Sys, name: Option<string>, list: seq<Inclusion>, r: seq<Range>, y: Range)
    requires s.Valid() && s.hardLo == [] && |r| == s.Size()
    requires forall i :: 0 <= i < |list| ==> list[i].v == s.Size() && list[i].t.VarsBelow(s.Size())
    ensures var s' := Including(s.Fresh(name).0, list);
            && Prolongs(s, s') && s'.Size() == s.Size() + 1
            && (Solved(s', r + [y]) <==>
                  Solved(s, r) && y.Bounded() && forall i :: 0 <= i < |list| ==> Leq(Of(s, list[i].t, r), y))
  {
    var s0, r' := s.Fresh(name).0, r + [y];
    FreshAsks(s, name, r, y);
    forall i | 0 <= i < |list|
      ensures list[i].t.VarsBelow(s0.Size()) && Free(s0, list[i].v) && Of(s0, list[i].t, r') == Of(s, list[i].t, r)
        && r'[s0.root[list[i].v]] == y
    {
      SameTerm(s, s0, list[i].t, r, r');
    }
    InclusionsAsk(s0, list, r');
    ProlongsTransitive(s, s0, Including(s0, list));
  }

  // Ranges `y` and `y'` of two fresh variables take in what is included into them.
  ghost predicate Into(s: Sys, list: seq<Inclusion>, r: seq<Range>, y: Range, y': Range)
    requires s.Valid() && |r| == s.Size() && IntoFits(s, list)
  {
    forall i :: 0 <= i < |list| ==> Leq(Of(s, list[i].t, r), if list[i].v == s.Size() then y else y')
  }

  predicate IntoFits(s: Sys, list: seq<Inclusion>) {
    forall i :: 0 <= i < |list| ==> list[i].v in {s.Size(), s.Size() + 1} && list[i].t.VarsBelow(s.Size())
  }

  lemma IntoCons(s: Sys, list: seq<Inclusion>, r: seq<Range>, y: Range, y': Range)
    requires s.Valid() && |r| == s.Size() && IntoFits(s, list) && list != []
    ensures IntoFits(s, list[1..])
    ensures Into(s, list, r, y, y') <==>
              Leq(Of(s, list[0].t, r), if list[0].v == s.Size() then y else y') && Into(s, list[1..], r, y, y')
  {
    var rest := list[1..];
    assert forall i :: 0 <= i < |rest| ==> rest[i] == list[i + 1];
    if Leq(Of(s, list[0].t, r), if list[0].v == s.Size() then y else y') && Into(s, rest, r, y, y') {
      forall i | 0 <= i < |list| ensures Leq(Of(s, list[i].t, r), if list[i].v == s.Size() then y else y') {
        if i > 0 { assert list[i] == rest[i - 1]; }
      }
    }
  }

  // Inclusions into two fresh variables.
  lemma {:induction false} TwoFreshHold(s: Sys, a: Option<string>, b: Option<string>, list: seq<Inclusion>,
                                        r: seq<Range>, y: Range, y': Range)
    requires s.Valid() && s.hardLo == [] && |r| == s.Size()
    requires IntoFits(s, list)
    ensures var s' := Including(s.Fresh(a).0.Fresh(b).0, list);
            && Prolongs(s, s') && s'.Size() == s.Size() + 2
            && (Solved(s', r + [y, y']) <==> Solved(s, r) && y.Bounded() && y'.Bounded() && Into(s, list, r, y, y'))
  {
    var s0 := s.Fresh(a).0;
    var s1, r0, r1 := s0.Fresh(b).0, r + [y], r + [y, y'];
    FreshAsks(s, a, r, y);
    FreshAsks(s0, b, r0, y');
    assert r0 + [y'] == r1;
    SamePins(s0.Snapshot(), s1.Snapshot());
    ProlongsTransitive(s, s0, s1);
    forall i | 0 <= i < |list|
      ensures list[i].t.VarsBelow(s1.Size()) && Free(s1, list[i].v) && Of(s1, list[i].t, r1) == Of(s, list[i].t, r)
        && r1[s1.root[list[i].v]] == if list[i].v == s.Size() then y else y'
    {
      assert s1.root[s.Size()] == s0.root[s.Size()];
      SameTerm(s, s1, list[i].t, r, r1);
    }
    InclusionsAsk(s1, list, r1);
    ProlongsTransitive(s, s1, Including(s1, list));
  }

  // ----- copying into a buffer -----

  // `strcpy` and `strcat` ask that the length written to take in the length read.
  lemma CopyAsks(w: Walk, f: Routine, siz: Term, v: VarId, src: Ctx, r: seq<Range>)
    requires f in {Strcpy, Strcat} && Free(w.sys, v) && |r| == w.sys.Size()
    requires src.CStr? && src.len.VarsBelow(w.sys.Size())
    ensures var s' := CheckStrOp(w, f, [CStr(siz, VarTerm(v)), src]).0.sys;
            && s'.Size() == w.sys.Size()
            && (Solved(s', r) <==> Solved(w.sys, r) && Leq(Of(w.sys, src.len, r), r[w.sys.root[v]]))
  {
    OneIncluded(w.sys, src.len, v, r);
  }

  // `fgets` asks for 1 and for its bound, `gethostname` for its bound, `gets` for 1 and everything above.
  lemma FgetsAsks(w: Walk, siz: Term, v: VarId, n: Term, c: Ctx, r: seq<Range>)
    requires Free(w.sys, v) && |r| == w.sys.Size() && n.VarsBelow(w.sys.Size())
    ensures var s' := CheckStrOp(w, Fgets, [CStr(siz, VarTerm(v)), CInt(n), c]).0.sys;
            && s'.Size() == w.sys.Size()
            && (Solved(s', r) <==> Solved(w.sys, r) && Leq(Singleton(1), r[w.sys.root[v]])
                                     && Leq(Of(w.sys, n, r), r[w.sys.root[v]]))
  {
    var list := [Inclusion(Constant(1), v), Inclusion(n, v)];
    InclusionsAsk(w.sys, list, r);
    IncludingTwo(w.sys, list[0], list[1]);
    assert Of(w.sys, Constant(1), r) == Singleton(1);
    if Solved(w.sys, r) && Leq(Singleton(1), r[w.sys.root[v]]) && Leq(Of(w.sys, n, r), r[w.sys.root[v]]) {
      assert Granted(w.sys, list, r);
    }
    if Granted(w.sys, list, r) {
      assert Leq(Of(w.sys, list[0].t, r), r[w.sys.root[list[0].v]]);
      assert Leq(Of(w.sys, list[1].t, r), r[w.sys.root[list[1].v]]);
    }
  }

  lemma IncludingTwo(s: Sys, i: Inclusion, j: Inclusion)
    ensures Including(s, [i, j]) == s.Include(i.t, VarTerm(i.v)).Include(j.t, VarTerm(j.v))
  {
    assert [i, j][1..] == [j] && [j][1..] == [];
    var s1 := s.Include(i.t, VarTerm(i.v));
    assert Including(s1, [j]) == Including(s1.Include(j.t, VarTerm(j.v)), []);
  }

  lemma HostAsks(w: Walk, siz: Term, v: VarId, n: Term, r: seq<Range>)
    requires Free(w.sys, v) && |r| == w.sys.Size() && n.VarsBelow(w.sys.Size())
    ensures var s' := CheckStrOp(w, Gethostname, [CStr(siz, VarTerm(v)), CInt(n)]).0.sys;
            && s'.Size() == w.sys.Size()
            && (Solved(s', r) <==> Solved(w.sys, r) && Leq(Of(w.sys, n, r), r[w.sys.root[v]]))
  {
    OneIncluded(w.sys, n, v, r);
  }

  lemma GetsAsks(w: Walk, siz: Term, v: VarId, r: seq<Range>)
    requires Free(w.sys, v) && |r| == w.sys.Size()
    ensures var s' := CheckStrOp(w, Gets, [CStr(siz, VarTerm(v))]).0.sys;
            && s'.Size() == w.sys.Size()
            && (Solved(s', r) <==> Solved(w.sys, r) && Leq(Range(1, INF), r[w.sys.root[v]]))
  {
    ForceAsks(w.sys, v, r);
  }

  // ----- bounded copies -----

  // Some solution of the larger system goes on from `r`.
  ghost predicate Extends(s': Sys, r: seq<Range>) { exists r' :: r <= r' && Solved(s', r') }

  lemma MinFree(s: Sys, x: Term, y: Term, v: VarId)
    requires Free(s, v) && x.VarsBelow(s.Size()) && y.VarsBelow(s.Size())
    ensures var (s1, m) := s.MinOf(x, y);
            && Prolongs(s, s1) && Free(s1, v) && m == VarTerm(s.Size()) && s.Size() < s1.Size()
            && s1.root[s.Size()] == s.Size() && s1.root[v] == s.root[v]
  {
    var s1 := s.MinOf(x, y).0;
    var sx, a, b := MinLayout(s, x, y);
    WithProlongs(s, sx, MinSubset([a, b], s.Size()));
    SamePins(s.Snapshot(), s1.Snapshot());
  }

  lemma MinIntoReaches(s: Sys, x: Term, y: Term, v: VarId, r: seq<Range>)
    requires Free(s, v) && x.VarsBelow(s.Size()) && y.VarsBelow(s.Size()) && Solved(s, r)
    requires Leq(RMin(Of(s, x, r), Of(s, y, r)), r[s.root[v]])
    ensures var (s1, m) := s.MinOf(x, y); Extends(s1.Include(m, VarTerm(v)), r)
  {
    var (s1, m) := s.MinOf(x, y);
    MinFree(s, x, y, v);
    var r' := MinReaches(s, x, y, r);
    VarTermEvaluates(s1.Snapshot(), s.Size(), r');
    LeqTransitive(Of(s1, m, r'), r'[s.Size()], r'[s1.root[v]]);
    OneIncluded(s1, m, v, r');
  }

  lemma MinIntoNeeds(s: Sys, x: Term, y: Term, v: VarId, r': seq<Range>)
    requires Free(s, v) && x.VarsBelow(s.Size()) && y.VarsBelow(s.Size())
    requires var (s1, m) := s.MinOf(x, y); Solved(s1.Include(m, VarTerm(v)), r')
    ensures s.Size() <= |r'|
    ensures var r := r'[..s.Size()]; Solved(s, r) && Leq(RMin(Of(s, x, r), Of(s, y, r)), r[s.root[v]])
  {
    var (s1, m) := s.MinOf(x, y);
    MinFree(s, x, y, v);
    OneIncluded(s1, m, v, r');
    MinNeeds(s, x, y, r');
    VarTermEvaluates(s1.Snapshot(), s.Size(), r');
    var r := r'[..s.Size()];
    LeqTransitive(RMin(Of(s, x, r), Of(s, y, r)), r'[s.Size()], Of(s1, m, r'));
    LeqTransitive(RMin(Of(s, x, r), Of(s, y, r)), Of(s1, m, r'), r'[s1.root[v]]);
  }

  // A minimum included into a buffer's length asks that the length take in the smaller operand.
  lemma MinIntoAsks(s: Sys, x: Term, y: Term, v: VarId, r: seq<Range>)
    requires Free(s, v) && |r| == s.Size() && x.VarsBelow(s.Size()) && y.VarsBelow(s.Size())
    ensures var (s1, m) := s.MinOf(x, y);
            Extends(s1.Include(m, VarTerm(v)), r) <==>
              Solved(s, r) && Leq(RMin(Of(s, x, r), Of(s, y, r)), r[s.root[v]])
  {
    var (s1, m) := s.MinOf(x, y);
    var s2 := s1.Include(m, VarTerm(v));
    if Solved(s, r) && Leq(RMin(Of(s, x, r), Of(s, y, r)), r[s.root[v]]) {
      MinIntoReaches(s, x, y, v, r);
    }
    if Extends(s2, r) {
      var r' :| r <= r' && Solved(s2, r');
      MinIntoNeeds(s, x, y, v, r');
      assert r'[..s.Size()] == r;
    }
  }

  // `strncpy` asks for the smaller of source length and bound.
  lemma StrncpyAsks(w: Walk, siz: Term, v: VarId, src: Ctx, n: Term, r: seq<Range>)
    requires Free(w.sys, v) && |r| == w.sys.Size() && src.CStr? && src.len.VarsBelow(w.sys.Size())
    requires n.VarsBelow(w.sys.Size())
    ensures var s' := CheckStrOp(w, Strncpy, [CStr(siz, VarTerm(v)), src, CInt(n)]).0.sys;
            Extends(s', r) <==>
              Solved(w.sys, r) && Leq(RMin(Of(w.sys, src.len, r), Of(w.sys, n, r)), r[w.sys.root[v]])
  {
    MinIntoAsks(w.sys, src.len, n, v, r);
  }

  lemma SumOfTwo(s: Sys, u: VarId, v: VarId, r: seq<Range>)
    requires s.Valid() && |r| == s.Size() && AllBounded(r) && u < s.Size() && v < s.Size() && u != v
    ensures VarTerm(u).Plus(VarTerm(v)) == Term([Slot(1, u), Slot(1, v)], 0)
    ensures VarTerm(u).Plus(VarTerm(v)).VarsBelow(s.Size())
    ensures Same(Of(s, VarTerm(u).Plus(VarTerm(v)), r), Ranges.Add(r[s.root[u]], r[s.root[v]]))
  {
    var slots, x, y := [Slot(1, u), Slot(1, v)], r[s.root[u]], r[s.root[v]];
    assert AddSlots([Slot(1, u)], [Slot(1, v)]) == slots by {
      assert [Slot(1, v)][..0] == [];
      assert [Slot(1, u)][1..] == [];
      assert AddSlot([Slot(1, u)], 1, v) == [Slot(1, u)] + AddSlot([], 1, v);
    }
    var p := s.Snapshot();
    assert slots[..1] == [Slot(1, u)] && slots[..1][..0] == [];
    assert EvalSlots(p, slots[..1], 0, r) == Ranges.Add(EvalSlots(p, [], 0, r), Ranges.Mul(1, x));
    assert EvalSlots(p, slots, 0, r) == Ranges.Add(EvalSlots(p, slots[..1], 0, r), Ranges.Mul(1, y));
    TimesOne(x);
    TimesOne(y);
    var z := EvalSlots(p, slots[..1], 0, r);
    AddMonotone(z, x, Ranges.Mul(1, y), y);
    AddMonotone(x, z, y, Ranges.Mul(1, y));
  }

  lemma SumIntoReaches(s: Sys, x: Term, y: Term, v: VarId, r: seq<Range>)
    requires Free(s, v) && x.VarsBelow(s.Size()) && y.VarsBelow(s.Size()) && Solved(s, r)
    requires Leq(Ranges.Add(RMin(Of(s, x, r), Of(s, y, r)), r[s.root[v]]), r[s.root[v]])
    ensures var (s1, m) := s.MinOf(x, y); Extends(s1.Include(m.Plus(VarTerm(v)), VarTerm(v)), r)
  {
    var (s1, m) := s.MinOf(x, y);
    MinFree(s, x, y, v);
    var r' := MinReaches(s, x, y, r);
    SumOfTwo(s1, s.Size(), v, r');
    LeqTransitive(Of(s1, m.Plus(VarTerm(v)), r'), Ranges.Add(r'[s.Size()], r'[s1.root[v]]), r'[s1.root[v]]);
    OneIncluded(s1, m.Plus(VarTerm(v)), v, r');
  }

  lemma SumIntoNeeds(s: Sys, x: Term, y: Term, v: VarId, r': seq<Range>)
    requires Free(s, v) && x.VarsBelow(s.Size()) && y.VarsBelow(s.Size())
    requires var (s1, m) := s.MinOf(x, y); Solved(s1.Include(m.Plus(VarTerm(v)), VarTerm(v)), r')
    ensures s.Size() <= |r'|
    ensures var r := r'[..s.Size()];
            Solved(s, r) && Leq(Ranges.Add(RMin(Of(s, x, r), Of(s, y, r)), r[s.root[v]]), r[s.root[v]])
  {
    var (s1, m) := s.MinOf(x, y);
    var t, least := m.Plus(VarTerm(v)), r'[s1.root[v]];
    MinFree(s, x, y, v);
    OneIncludedBack(s1, t, v, r');
    SumOfTwo(s1, s.Size(), v, r');
    OneIncluded(s1, t, v, r');
    MinNeeds(s, x, y, r');
    var r := r'[..s.Size()];
    var low := RMin(Of(s, x, r), Of(s, y, r));
    AddMonotone(low, r'[s.Size()], least, least);
    LeqTransitive(Ranges.Add(low, least), Ranges.Add(r'[s.Size()], least), Of(s1, t, r'));
    LeqTransitive(Ranges.Add(low, least), Of(s1, t, r'), least);
  }

  lemma OneIncludedBack(s: Sys, t: Term, v: VarId, r: seq<Range>)
    requires Free(s, v) && Solved(s.Include(t, VarTerm(v)), r)
    ensures |r| == s.Size() && AllBounded(r)
  {
  }

  // A minimum added to a buffer's length asks that the length take in the sum.
  lemma SumIntoAsks(s: Sys, x: Term, y: Term, v: VarId, r: seq<Range>)
    requires Free(s, v) && |r| == s.Size() && x.VarsBelow(s.Size()) && y.VarsBelow(s.Size())
    ensures var (s1, m) := s.MinOf(x, y);
            Extends(s1.Include(m.Plus(VarTerm(v)), VarTerm(v)), r) <==>
              Solved(s, r) && Leq(Ranges.Add(RMin(Of(s, x, r), Of(s, y, r)), r[s.root[v]]), r[s.root[v]])
  {
    var (s1, m) := s.MinOf(x, y);
    var s2 := s1.Include(m.Plus(VarTerm(v)), VarTerm(v));
    if Solved(s, r) && Leq(Ranges.Add(RMin(Of(s, x, r), Of(s, y, r)), r[s.root[v]]), r[s.root[v]]) {
      SumIntoReaches(s, x, y, v, r);
    }
    if Extends(s2, r) {
      var r' :| r <= r' && Solved(s2, r');
      SumIntoNeeds(s, x, y, v, r');
      assert r'[..s.Size()] == r;
    }
  }

  lemma StrncatIs(w: Walk, args: seq<Ctx>, x: Term, n: Term, len: Term)
    requires |args| == 3 && args[0].CStr? && args[1].CStr? && args[2] == CInt(n)
    requires x == args[1].len.Minus(Constant(1)) && len == args[0].len
    ensures var (s1, m) := w.sys.MinOf(x, n); CheckStrOp(w, Strncat, args).0.sys == s1.Include(m.Plus(len), len)
  {
  }

  // `strncat` asks that the length take in itself, moved on by the smaller of the source's text and the bound.
  lemma StrncatAsks(w: Walk, siz: Term, v: VarId, src: Ctx, n: Term, r: seq<Range>)
    requires Free(w.sys, v) && |r| == w.sys.Size() && src.CStr? && src.len.VarsBelow(w.sys.Size())
    requires n.VarsBelow(w.sys.Size())
    ensures src.len.Minus(Constant(1)).VarsBelow(w.sys.Size())
    ensures var s' := CheckStrOp(w, Strncat, [CStr(siz, VarTerm(v)), src, CInt(n)]).0.sys; var len := r[w.sys.root[v]];
            Extends(s', r) <==>
              && Solved(w.sys, r)
              && Leq(Ranges.Add(RMin(Of(w.sys, src.len.Minus(Constant(1)), r), Of(w.sys, n, r)), len), len)
  {
    var x := src.len.Minus(Constant(1));
    ArithmeticVarsBelow(src.len, Constant(1), 0, w.sys.Size());
    StrncatIs(w, [CStr(siz, VarTerm(v)), src, CInt(n)], x, n, VarTerm(v));
    SumIntoAsks(w.sys, x, n, v, r);
  }

  // ----- formats -----

  // `snprintf` with a literal format whose bytes have known bounds asks for the smaller of those and its bound.
  lemma SnprintfReaches(w: Walk, args: seq<Expr>, ctxs: seq<Ctx>, f: string, v: VarId, n: Term, e: Ends, r: seq<Range>)
    requires |args| == |ctxs| >= 3 && args[2] == StrConst(f) && ctxs[0].CStr? && ctxs[0].len == VarTerm(v)
    requires ctxs[1] == CInt(n) && n.VarsBelow(w.sys.Size())
    requires AllKnown(ctxs[3..]) && Span(f, 0, ctxs[3..], 0) == Some(e)
    requires Free(w.sys, v) && Solved(w.sys, r) && Leq(RMin(RangeOf(e), Of(w.sys, n, r)), r[w.sys.root[v]])
    ensures Extends(ModelSnprintf(w, args, ctxs).0.sys, r)
  {
    var s, pl := w.sys, ctxs[3..];
    var (s1, t) := ParseFmt(s, f, pl);
    var r1 := ScanReaches(s, f, 0, pl, 0, r);
    SamePins(s.Snapshot(), s1.Snapshot());
    SameTerm(s, s1, n, r, r1);
    MinIntoReaches(s1, t, n, v, r1);
    var (s2, m) := s1.MinOf(t, n);
    var r' :| r1 <= r' && Solved(s2.Include(m, VarTerm(v)), r');
    assert r <= r';
  }

  lemma SnprintfNeeds(w: Walk, args: seq<Expr>, ctxs: seq<Ctx>, f: string, v: VarId, n: Term, e: Ends, r': seq<Range>)
    requires |args| == |ctxs| >= 3 && args[2] == StrConst(f) && ctxs[0].CStr? && ctxs[0].len == VarTerm(v)
    requires ctxs[1] == CInt(n) && n.VarsBelow(w.sys.Size())
    requires AllKnown(ctxs[3..]) && Span(f, 0, ctxs[3..], 0) == Some(e)
    requires Free(w.sys, v) && Solved(ModelSnprintf(w, args, ctxs).0.sys, r') && FreshLow(r', w.sys.Size())
    ensures w.sys.Size() <= |r'|
    ensures var r := r'[..w.sys.Size()];
            Solved(w.sys, r) && Leq(RMin(RangeOf(e), Of(w.sys, n, r)), r[w.sys.root[v]])
  {
    var s, pl := w.sys, ctxs[3..];
    var (s1, t) := ParseFmt(s, f, pl);
    ScanProlongs(s, f, pl);
    SamePins(s.Snapshot(), s1.Snapshot());
    MinIntoNeeds(s1, t, n, v, r');
    var r1, r := r'[..s1.Size()], r'[..s.Size()];
    ScanNeeds(s, f, 0, pl, 0, r1);
    CutSolved(s, s1, r1);
    assert r1[..s.Size()] == r;
    SameTerm(s, s1, n, r, r1);
    TransferMonotone(0, RangeOf(e), Of(s1, t, r1), Of(s, n, r), Of(s1, n, r1));
    LeqTransitive(RMin(RangeOf(e), Of(s, n, r)), RMin(Of(s1, t, r1), Of(s1, n, r1)), r1[s1.root[v]]);
  }

  lemma ScanProlongs(s: Sys, f: string, pl: seq<Ctx>)
    requires s.Valid() && s.hardLo == [] && AllKnown(pl) && Span(f, 0, pl, 0).Some?
    ensures var (s1, t) := ParseFmt(s, f, pl); Prolongs(s, s1) && t.VarsBelow(s1.Size())
  {
    LeastSolutionIsLeast(s.Snapshot());
    var r' := ScanReaches(s, f, 0, pl, 0, LeastSolution(s.Snapshot()));
  }

  // ----- results -----

  lemma {:induction false} FreshListHolds(s: Sys, name: Option<string>, list: seq<Inclusion>, r: seq<Range>, x: Range)
    requires s.Valid() && s.hardLo == [] && |r| == s.Size()
    requires forall i :: 0 <= i < |list| ==> list[i].v == s.Size() && list[i].t.VarsBelow(s.Size())
    requires forall y: Range :: y.Bounded() ==>
               (Leq(x, y) <==> forall i :: 0 <= i < |list| ==> Leq(Of(s, list[i].t, r), y))
    ensures Holding(s, Including(s.Fresh(name).0, list), r, x)
  {
    forall y: Range
      ensures Solved(Including(s.Fresh(name).0, list), r + [y]) <==> Solved(s, r) && y.Bounded() && Leq(x, y)
    {
      FreshHolds(s, name, list, r, y);
    }
    FreshHolds(s, name, list, r, EMPTY);
  }

  // Two terms in one fresh variable: their hull.
  lemma HullHolds(s: Sys, name: Option<string>, x: Term, y: Term, r: seq<Range>)
    requires s.Valid() && s.hardLo == [] && |r| == s.Size() && x.VarsBelow(s.Size()) && y.VarsBelow(s.Size())
    ensures var (s0, z) := s.Fresh(name);
            Holding(s, s0.Include(x, z).Include(y, z), r, Hull(Of(s, x, r), Of(s, y, r)))
  {
    var i, j := Inclusion(x, s.Size()), Inclusion(y, s.Size());
    var list, h := [i, j], Hull(Of(s, x, r), Of(s, y, r));
    IncludingTwo(s.Fresh(name).0, i, j);
    forall c: Range | c.Bounded()
      ensures Leq(h, c) <==> forall k :: 0 <= k < |list| ==> Leq(Of(s, list[k].t, r), c)
    {
      assert list[0] == i && list[1] == j;
      HullBelow(Of(s, x, r), Of(s, y, r), c);
      if forall k :: 0 <= k < |list| ==> Leq(Of(s, list[k].t, r), c) {
        assert Leq(Of(s, list[0].t, r), c) && Leq(Of(s, list[1].t, r), c);
      }
    }
    FreshListHolds(s, name, list, r, h);
  }

  lemma HullBelow(x: Range, y: Range, z: Range)
    ensures Leq(Hull(x, y), z) <==> Leq(x, z) && Leq(y, z)
  {
  }

  // The results of `syserror` and `syssignal` go from 0 to 48 and to 25.
  lemma StatusHolds(w: Walk, f: Routine, args: seq<Ctx>, r: seq<Range>)
    requires f in {Syserror, Syssignal} && w.sys.Valid() && w.sys.hardLo == [] && |r| == w.sys.Size()
    ensures var (w', c) := CheckStrOp(w, f, args);
            && c == Some(CInt(VarTerm(w.sys.Size())))
            && Holding(w.sys, w'.sys, r, Range(0, if f == Syserror then 48 else 25))
  {
    var name := if f == Syserror then "@syserror_return" else "@syssignal_return";
    var most := if f == Syserror then 48 else 25;
    SeedsHold(w.sys, Some(name), 0, most, r);
  }

  lemma SeedsHold(s: Sys, name: Option<string>, a: int, b: int, r: seq<Range>)
    requires s.Valid() && s.hardLo == [] && |r| == s.Size() && Finite(a) && Finite(b) && a <= b
    ensures var s0 := s.Fresh(name).0; Holding(s, s0.Seed(a, s.Size()).Seed(b, s.Size()), r, Range(a, b))
  {
    var s0 := s.Fresh(name).0;
    SeedIsInclude(s0, a, s.Size());
    SeedIsInclude(s0.Seed(a, s.Size()), b, s.Size());
    HullHolds(s, name, Constant(a), Constant(b), r);
    assert Hull(Of(s, Constant(a), r), Of(s, Constant(b), r)) == Range(a, b);
  }

  // Comparisons and the other operators without arithmetic give 0..1.
  lemma TruthHolds(s: Sys, r: seq<Range>)
    requires s.Valid() && s.hardLo == [] && |r| == s.Size()
    ensures Holding(s, BoolTerm(s).0, r, Range(0, 1)) && BoolTerm(s).1 == VarTerm(s.Size())
  {
    SeedsHold(s, None, 0, 1, r);
  }

  // `getenv` gives a string of which nothing is known.
  lemma GetenvHolds(w: Walk, args: seq<Ctx>, r: seq<Range>)
    requires w.sys.Valid() && w.sys.hardLo == [] && |r| == w.sys.Size()
    ensures var (w', c) := CheckStrOp(w, Getenv, args); var v := w.sys.Size();
            c == Some(CStr(VarTerm(v), VarTerm(v))) && Holding(w.sys, w'.sys, r, Range(1, INF))
  {
    ForcedHolds(w.sys, Some("@getenv_return"), r);
  }

  lemma ForcedHolds(s: Sys, name: Option<string>, r: seq<Range>)
    requires s.Valid() && s.hardLo == [] && |r| == s.Size()
    ensures var (s0, t) := s.Fresh(name); Holding(s, s0.ForceTop(t), r, Range(1, INF))
  {
    var (s0, t) := s.Fresh(name);
    forall y: Range ensures Solved(s0.ForceTop(t), r + [y]) <==> Solved(s, r) && y.Bounded() && Leq(Range(1, INF), y) {
      FreshAsks(s, name, r, y);
      ForceAsks(s0, s.Size(), r + [y]);
    }
    FreshAsks(s, name, r, EMPTY);
    ForceAsks(s0, s.Size(), r + [EMPTY]);
  }

  // `strlen` is one less than the length.
  lemma StrlenMeans(w: Walk, c: Ctx, sigma: VarId -> int)
    requires c.CStr?
    ensures var (w', n) := CheckStrOp(w, Strlen, [c]);
            && w' == w && n.Some? && n.value.CInt? && Terms.Value(n.value.t, sigma) == Terms.Value(c.len, sigma) - 1
  {
    TermArithmetic(c.len, Constant(1), 0, sigma);
  }

  // `strspn` lies between 0 and one less than the length.
  lemma SpanHolds(w: Walk, c: Ctx, r: seq<Range>)
    requires c.CStr? && w.sys.Valid() && w.sys.hardLo == [] && |r| == w.sys.Size() && c.len.VarsBelow(w.sys.Size())
    ensures c.len.Minus(Constant(1)).VarsBelow(w.sys.Size())
    ensures var (w', n) := CheckStrOp(w, Strspn, [c]);
            && n == Some(CInt(VarTerm(w.sys.Size())))
            && Holding(w.sys, w'.sys, r, Hull(Singleton(0), Of(w.sys, c.len.Minus(Constant(1)), r)))
  {
    var t := c.len.Minus(Constant(1));
    ArithmeticVarsBelow(c.len, Constant(1), 0, w.sys.Size());
    StrspnIs(w, [c], t, Constant(0));
    ZeroHullHolds(w.sys, t, 0, r);
  }

  lemma StrspnIs(w: Walk, args: seq<Ctx>, t: Term, zero: Term)
    requires |args| == 1 && args[0].CStr? && t == args[0].len.Minus(Constant(1)) && zero == Constant(0)
    ensures var (s, n) := w.sys.UnionOf(zero, t); CheckStrOp(w, Strspn, args) == (w.With(s), Some(CInt(n)))
  {
  }

  lemma ZeroHullHolds(s: Sys, t: Term, k: int, r: seq<Range>)
    requires s.Valid() && s.hardLo == [] && |r| == s.Size() && t.VarsBelow(s.Size())
    ensures var (s', n) := s.UnionOf(Constant(k), t);
            n == VarTerm(s.Size()) && Holding(s, s', r, Hull(Singleton(k), Of(s, t, r)))
  {
    HullHolds(s, None, Constant(k), t, r);
    assert Of(s, Constant(k), r) == Singleton(k);
  }

  // ----- strings that are made -----

  lemma {:induction false} TwoListHolds(s: Sys, a: Option<string>, b: Option<string>, list: seq<Inclusion>,
                                        r: seq<Range>, x: Range, x': Range)
    requires s.Valid() && s.hardLo == [] && |r| == s.Size()
    requires IntoFits(s, list)
    requires forall y: Range, y': Range :: Leq(x, y) && Leq(x', y') <==> Into(s, list, r, y, y')
    ensures HoldingTwo(s, Including(s.Fresh(a).0.Fresh(b).0, list), r, x, x')
  {
    var s' := Including(s.Fresh(a).0.Fresh(b).0, list);
    forall y: Range, y': Range
      ensures Solved(s', r + [y, y']) <==> Solved(s, r) && y.Bounded() && y'.Bounded() && Leq(x, y) && Leq(x', y')
    {
      TwoFreshHold(s, a, b, list, r, y, y');
    }
    TwoFreshHold(s, a, b, list, r, EMPTY, EMPTY);
  }

  // Queries ask the solution for nothing.
  lemma AskingIsFree(s: Sys, list: seq<Inclusion>, a: Term, b: Term, kind: QueryKind)
    ensures Including(s.Ask(a, b, kind), list) == Including(s, list).Ask(a, b, kind)
    decreases |list|
  {
    if list != [] {
      var s1 := s.Include(list[0].t, VarTerm(list[0].v));
      AskingIsFree(s1, list[1..], a, b, kind);
    }
  }

  lemma AskSolved(s: Sys, a: Term, b: Term, kind: QueryKind, r: seq<Range>)
    requires s.Valid() && a.VarsBelow(s.Size()) && b.VarsBelow(s.Size())
    ensures s.Ask(a, b, kind).Valid() && (Solved(s.Ask(a, b, kind), r) <==> Solved(s, r))
  {
    var p, q := s.Snapshot(), s.Ask(a, b, kind).Snapshot();
    AskValid(p, q, Query(a, b, kind));
    if |r| == s.Size() && s.hardLo == [] {
      SolutionMeansSatisfied(p, r);
      SolutionMeansSatisfied(q, r);
      SamePins(p, q);
      forall i | 0 <= i < |p.constraints|
        ensures EvalConstraint(q, q.constraints[i], r) == EvalConstraint(p, p.constraints[i], r)
      {
        SameEval(p, q, p.constraints[i], r, r);
      }
    }
  }

  lemma AskValid(p: Problem, q: Problem, query: Query)
    requires p.Valid() && query.a.VarsBelow(p.Size()) && query.b.VarsBelow(p.Size())
    requires q == p.(queries := p.queries + [query])
    ensures q.Valid()
  {
  }

  // A fresh string and inclusions into its two variables.
  lemma {:induction false} StrHolds(s: Sys, name: Option<string>, list: seq<Inclusion>, r: seq<Range>, x: Range,
                                    x': Range)
    requires s.Valid() && s.hardLo == [] && |r| == s.Size()
    requires IntoFits(s, list)
    requires forall y: Range, y': Range :: Leq(x, y) && Leq(x', y') <==> Into(s, list, r, y, y')
    ensures FreshStr(s, name).1 == CStr(VarTerm(s.Size()), VarTerm(s.Size() + 1))
    ensures HoldingTwo(s, Including(FreshStr(s, name).0, list), r, x, x')
  {
    var sizName := if name.Some? then Some("siz(" + name.value + ")") else None;
    var lenName := if name.Some? then Some("len(" + name.value + ")") else None;
    var kind := Overflow(if name.Some? then name.value else "(unnamed)");
    var s2, siz, len := s.Fresh(sizName).0.Fresh(lenName).0, VarTerm(s.Size()), VarTerm(s.Size() + 1);
    TwoListHolds(s, sizName, lenName, list, r, x, x');
    TwoFreshHold(s, sizName, lenName, list, r, EMPTY, EMPTY);
    AskingIsFree(s2, list, siz, len, kind);
    var s3 := Including(s2, list);
    forall y: Range, y': Range
      ensures Solved(s3.Ask(siz, len, kind), r + [y, y']) <==> Solved(s3, r + [y, y'])
    {
      AskSolved(s3, siz, len, kind, r + [y, y']);
    }
  }

  // `malloc(n)` has the size `n`, and no length yet.
  lemma MallocHolds(w: Walk, n: Term, r: seq<Range>)
    requires w.sys.Valid() && w.sys.hardLo == [] && |r| == w.sys.Size() && n.VarsBelow(w.sys.Size())
    ensures var (w', c) := CheckStrOp(w, Malloc, [CInt(n)]); var v := w.sys.Size();
            c == Some(CStr(VarTerm(v), VarTerm(v + 1))) && HoldingTwo(w.sys, w'.sys, r, Of(w.sys, n, r), EMPTY)
  {
    var s, list := w.sys, [Inclusion(n, w.sys.Size())];
    IncludingOne(FreshAllocStr(w).0.sys, list[0]);
    forall y: Range, y': Range ensures Leq(Of(s, n, r), y) && Leq(EMPTY, y') <==> Into(s, list, r, y, y') {
      IntoCons(s, list, r, y, y');
    }
    StrHolds(s, Some("alloc@" + Decimal(w.allocs)), list, r, Of(s, n, r), EMPTY);
  }

  lemma IncludingOne(s: Sys, i: Inclusion)
    ensures Including(s, [i]) == s.Include(i.t, VarTerm(i.v))
  {
    assert [i][1..] == [];
  }

  // `strdup` has the length of its argument for both.
  lemma StrdupHolds(w: Walk, src: Ctx, r: seq<Range>)
    requires w.sys.Valid() && w.sys.hardLo == [] && |r| == w.sys.Size() && src.CStr? && src.len.VarsBelow(w.sys.Size())
    ensures var (w', c) := CheckStrOp(w, Strdup, [src]); var v, len := w.sys.Size(), Of(w.sys, src.len, r);
            c == Some(CStr(VarTerm(v), VarTerm(v + 1))) && HoldingTwo(w.sys, w'.sys, r, len, len)
  {
    var s, len := w.sys, Of(w.sys, src.len, r);
    var list := [Inclusion(src.len, s.Size()), Inclusion(src.len, s.Size() + 1)];
    IncludingTwo(FreshAllocStr(w).0.sys, list[0], list[1]);
    forall y: Range, y': Range ensures Leq(len, y) && Leq(len, y') <==> Into(s, list, r, y, y') {
      IntoCons(s, list, r, y, y');
      IntoCons(s, list[1..], r, y, y');
    }
    StrHolds(s, Some("alloc@" + Decimal(w.allocs)), list, r, len, len);
  }

  lemma IncludingFour(s: Sys, list: seq<Inclusion>)
    requires |list| == 4
    ensures Including(s, list) ==
            s.Include(list[0].t, VarTerm(list[0].v)).Include(list[1].t, VarTerm(list[1].v))
             .Include(list[2].t, VarTerm(list[2].v)).Include(list[3].t, VarTerm(list[3].v))
  {
    var s1 := s.Include(list[0].t, VarTerm(list[0].v));
    var s2, rest := s1.Include(list[1].t, VarTerm(list[1].v)), list[2..];
    assert list[1..][1..] == rest && rest == [list[2], list[3]];
    IncludingTwo(s2, list[2], list[3]);
    assert Including(s1, list[1..]) == Including(s2, rest);
  }

  ghost predicate StrBelow(c: Ctx, s: Sys) { c.CStr? && c.siz.VarsBelow(s.Size()) && c.len.VarsBelow(s.Size()) }

  // Two strings merged: the hulls of their sizes and of their lengths.
  lemma MergedStringsHold(s: Sys, a: Ctx, b: Ctx, r: seq<Range>)
    requires s.Valid() && s.hardLo == [] && |r| == s.Size() && StrBelow(a, s) && StrBelow(b, s)
    ensures var (s', c) := Merge(s, a, b); var v := s.Size();
            && c == CStr(VarTerm(v), VarTerm(v + 1))
            && HoldingTwo(s, s', r, Hull(Of(s, a.siz, r), Of(s, b.siz, r)), Hull(Of(s, a.len, r), Of(s, b.len, r)))
  {
    var v := s.Size();
    var list := [Inclusion(a.siz, v), Inclusion(b.siz, v), Inclusion(a.len, v + 1), Inclusion(b.len, v + 1)];
    var x, x' := Hull(Of(s, a.siz, r), Of(s, b.siz, r)), Hull(Of(s, a.len, r), Of(s, b.len, r));
    IncludingFour(FreshStr(s, None).0, list);
    forall y: Range, y': Range ensures Leq(x, y) && Leq(x', y') <==> Into(s, list, r, y, y') {
      IntoCons(s, list, r, y, y');
      IntoCons(s, list[1..], r, y, y');
      IntoCons(s, list[1..][1..], r, y, y');
      IntoCons(s, list[1..][1..][1..], r, y, y');
      HullBelow(Of(s, a.siz, r), Of(s, b.siz, r), y);
      HullBelow(Of(s, a.len, r), Of(s, b.len, r), y');
    }
    StrHolds(s, None, list, r, x, x');
  }

  // Two integers merged: the hull of their values.
  lemma MergedIntsHold(s: Sys, a: Term, b: Term, r: seq<Range>)
    requires s.Valid() && s.hardLo == [] && |r| == s.Size() && a.VarsBelow(s.Size()) && b.VarsBelow(s.Size())
    ensures var (s', c) := Merge(s, CInt(a), CInt(b));
            c == CInt(VarTerm(s.Size())) && Holding(s, s', r, Hull(Of(s, a, r), Of(s, b, r)))
  {
    HullHolds(s, None, a, b, r);
  }

  // `strchr` finds between one byte and the whole string, in an object between one byte and the whole object.
  lemma FoundHolds(w: Walk, c: Ctx, d: Ctx, r: seq<Range>)
    requires w.sys.Valid() && w.sys.hardLo == [] && |r| == w.sys.Size() && StrBelow(c, w.sys)
    ensures var (w', f) := CheckStrOp(w, Strchr, [c, d]); var v, one := w.sys.Size(), Singleton(1);
            && f == Some(CStr(VarTerm(v), VarTerm(v + 1)))
            && HoldingTwo(w.sys, w'.sys, r, Hull(one, Of(w.sys, c.siz, r)), Hull(one, Of(w.sys, c.len, r)))
  {
    MergedStringsHold(w.sys, CStr(Constant(1), Constant(1)), c, r);
    assert Of(w.sys, Constant(1), r) == Singleton(1);
  }

  // Every string made is asked about, under its name or number: whether its size is at least its length.
  lemma MadeIsAsked(w: Walk, f: Routine, args: seq<Ctx>)
    requires f in {Malloc, Strdup} && Recognised(f, args)
    ensures var (w', v) := (CheckStrOp(w, f, args).0, w.sys.Size());
            && w'.sys.queries ==
                 w.sys.queries + [Query(VarTerm(v), VarTerm(v + 1), Overflow("alloc@" + Decimal(w.allocs)))]
            && w'.allocs == w.allocs + 1
  {
  }

  lemma MergedIsAsked(s: Sys, a: Ctx, b: Ctx)
    requires a.CStr? && b.CStr?
    ensures var v := s.Size();
            Merge(s, a, b).0.queries == s.queries + [Query(VarTerm(v), VarTerm(v + 1), Overflow("(unnamed)"))]
  {
  }

  lemma VariableIsAsked(w: Walk, x: string, ty: VarType)
    requires x !in w.vars
    ensures var (w', v) := (NewVar(w, x, ty).0, w.sys.Size());
            w'.sys.queries == w.sys.queries + if ty.CharArray? || ty.CharPointer?
                                              then [Query(VarTerm(v), VarTerm(v + 1), Overflow(x))] else []
  {
  }

  // ----- variables -----

  // A variable seen first: an integer or a pointer may be anything, an array has its size.
  lemma VariableHolds(w: Walk, x: string, ty: VarType, r: seq<Range>)
    requires w.sys.Valid() && w.sys.hardLo == [] && |r| == w.sys.Size() && x !in w.vars
    ensures var (w', c) := NewVar(w, x, ty); var s, v := w.sys, w.sys.Size();
            match ty
            case IntType => c == CInt(VarTerm(v)) && Holding(s, w'.sys, r, EMPTY)
            case CharPointer => c == CStr(VarTerm(v), VarTerm(v + 1)) && HoldingTwo(s, w'.sys, r, EMPTY, EMPTY)
            case CharArray(None) => c == CStr(VarTerm(v), VarTerm(v + 1)) && HoldingTwo(s, w'.sys, r, EMPTY, EMPTY)
            case CharArray(Some(n)) =>
              c == CStr(VarTerm(v), VarTerm(v + 1)) && HoldingTwo(s, w'.sys, r, Singleton(n), EMPTY)
            case OtherType => c == CNone && w'.sys == s
  {
    match ty
    case IntType => FreshListHolds(w.sys, Some(x), [], r, EMPTY);
    case CharPointer => StrHolds(w.sys, Some(x), [], r, EMPTY, EMPTY);
    case CharArray(None) => StrHolds(w.sys, Some(x), [], r, EMPTY, EMPTY);
    case CharArray(Some(n)) => ArrayHolds(w.sys, x, n, r);
    case OtherType =>
  }

  lemma ArrayHolds(s: Sys, x: string, n: int, r: seq<Range>)
    requires s.Valid() && s.hardLo == [] && |r| == s.Size()
    ensures var (s', c) := FreshVarCtx(s, CharArray(Some(n)), x);
            c == CStr(VarTerm(s.Size()), VarTerm(s.Size() + 1)) && HoldingTwo(s, s', r, Singleton(n), EMPTY)
  {
    var list := [Inclusion(Constant(n), s.Size())];
    IncludingOne(FreshStr(s, Some(x)).0, list[0]);
    assert Of(s, Constant(n), r) == Singleton(n);
    forall y: Range, y': Range ensures Leq(Singleton(n), y) && Leq(EMPTY, y') <==> Into(s, list, r, y, y') {
      IntoCons(s, list, r, y, y');
    }
    StrHolds(s, Some(x), list, r, Singleton(n), EMPTY);
  }

  // ----- assignments -----

  // An integer flows into a variable, a string's length and size into those of a variable; nothing else is asked.
  lemma FlowAsks(s: Sys, siz: VarId, len: VarId, src: Ctx, r: seq<Range>)
    requires Free(s, siz) && Free(s, len) && |r| == s.Size() && StrBelow(src, s)
    ensures var s' := Flow(s, CStr(VarTerm(siz), VarTerm(len)), src);
            && s'.Size() == s.Size()
            && (Solved(s', r) <==> Solved(s, r) && Leq(Of(s, src.len, r), r[s.root[len]])
                                     && Leq(Of(s, src.siz, r), r[s.root[siz]]))
  {
    var list := [Inclusion(src.len, len), Inclusion(src.siz, siz)];
    InclusionsAsk(s, list, r);
    IncludingTwo(s, list[0], list[1]);
    GrantedTwo(s, list, r);
  }

  lemma GrantedTwo(s: Sys, list: seq<Inclusion>, r: seq<Range>)
    requires s.Valid() && |r| == s.Size() && Fit(s, list) && |list| == 2
    ensures Granted(s, list, r) <==>
              Leq(Of(s, list[0].t, r), r[s.root[list[0].v]]) && Leq(Of(s, list[1].t, r), r[s.root[list[1].v]])
  {
    if Granted(s, list, r) {
      assert Leq(Of(s, list[0].t, r), r[s.root[list[0].v]]) && Leq(Of(s, list[1].t, r), r[s.root[list[1].v]]);
    }
  }

  lemma IntFlowAsks(s: Sys, v: VarId, t: Term, r: seq<Range>)
    requires Free(s, v) && |r| == s.Size() && t.VarsBelow(s.Size())
    ensures var s' := Flow(s, CInt(VarTerm(v)), CInt(t));
            s'.Size() == s.Size() && (Solved(s', r) <==> Solved(s, r) && Leq(Of(s, t, r), r[s.root[v]]))
  {
    OneIncluded(s, t, v, r);
  }

  // A string that initialises an array of a given size flows in by its length alone, a literal cut off at the size.
  lemma InitAsks(w: Walk, n: int, siz: Term, len: VarId, e: Expr, src: Ctx, r: seq<Range>)
    requires Free(w.sys, len) && |r| == w.sys.Size() && StrBelow(src, w.sys)
    ensures var s, s' := w.sys, DoInit(w, CharArray(Some(n)), CStr(siz, VarTerm(len)), e, src).sys;
            && s'.Size() == s.Size()
            && (Solved(s', r) <==>
                  Solved(s, r) && Leq(if e.StrConst? then Singleton(Min(|e.s| + 1, n)) else Of(s, src.len, r),
                                      r[s.root[len]]))
  {
    if e.StrConst? {
      OneIncluded(w.sys, Constant(Min(|e.s| + 1, n)), len, r);
      assert Of(w.sys, Constant(Min(|e.s| + 1, n)), r) == Singleton(Min(|e.s| + 1, n));
    } else {
      OneIncluded(w.sys, src.len, len, r);
    }
  }

  // ----- operators -----

  // The operators on integers: sums, differences and products by a constant are exact, quotients and other products
  // are the variable pinned to the full range, everything else is a truth value.
  lemma CombineMeans(w: Walk, op: BinOp, a: Term, b: Term, r: seq<Range>, sigma: VarId -> int)
    requires w.sys.Valid() && w.sys.hardLo == [] && |r| == w.sys.Size()
    ensures var (w', c) := Combine(w, op, CInt(a), CInt(b));
            && c.CInt?
            && (op == Add ==> w' == w && Terms.Value(c.t, sigma) == Terms.Value(a, sigma) + Terms.Value(b, sigma))
            && (op == Sub ==> w' == w && Terms.Value(c.t, sigma) == Terms.Value(a, sigma) - Terms.Value(b, sigma))
            && (op == Mul && (a.IsConstant() || b.IsConstant()) ==>
                  w' == w && Terms.Value(c.t, sigma) == Terms.Value(a, sigma) * Terms.Value(b, sigma))
            && (op == Div || (op == Mul && !a.IsConstant() && !b.IsConstant()) ==>
                  exists v: VarId :: c.t == VarTerm(v) && (v, TOP) in w'.sys.fixed)
            && (op !in {Add, Sub, Mul, Div} ==>
                  c.t == VarTerm(w.sys.Size()) && Holding(w.sys, w'.sys, r, Range(0, 1)))
  {
    if op == Add || op == Sub {
      TermArithmetic(a, b, 0, sigma);
    } else if op == Mul {
      TimesMeans(w.sys, a, b, sigma);
    } else if op == Div {
      TopIsPinned(w.sys);
    } else {
      TruthHolds(w.sys, r);
    }
  }

  lemma TopIsPinned(s: Sys)
    requires s.Valid()
    ensures exists v: VarId :: s.Top().1 == VarTerm(v) && (v, TOP) in s.Top().0.fixed
  {
    var v := if s.topVar.Some? then s.topVar.value else s.Size();
    assert s.Top().1 == VarTerm(v);
    if s.topVar.None? { assert s.Top().0.fixed[|s.fixed|] == (v, TOP); }
  }

  // A pointer moved by an integer loses as many bytes of its object and of its text.
  lemma AdvanceMeans(w: Walk, c: Ctx, i: Term, sigma: VarId -> int)
    requires c.CStr?
    ensures var (w', d) := Combine(w, Add, c, CInt(i));
            && w' == w && d.CStr? && Terms.Value(d.siz, sigma) == Terms.Value(c.siz, sigma) - Terms.Value(i, sigma)
            && Terms.Value(d.len, sigma) == Terms.Value(c.len, sigma) - Terms.Value(i, sigma)
  {
    TermArithmetic(c.siz, i, 0, sigma);
    TermArithmetic(c.len, i, 0, sigma);
  }

  // ----- expressions -----

  // `!e` is a truth value, `~e` is taken for `e`, and `-e` negates it.
  lemma UnaryMeans(w: Walk, e: Expr, r: seq<Range>, sigma: VarId -> int)
    requires w.sys.Valid() && w.sys.hardLo == [] && |r| == Gen(w, e).0.sys.Size()
    requires Gen(w, e).0.sys.Valid() && Gen(w, e).0.sys.hardLo == []
    ensures var (w1, c) := Gen(w, e);
            && Gen(w, Unary(Not, e)).1 == CInt(VarTerm(w1.sys.Size()))
            && Holding(w1.sys, Gen(w, Unary(Not, e)).0.sys, r, Range(0, 1))
            && Gen(w, Unary(BitNot, e)) == (w1, c)
            && Gen(w, Unary(Neg, e)).0 == w1
            && (c.CInt? ==>
                  var d := Gen(w, Unary(Neg, e)).1;
                  d.CInt? && Terms.Value(d.t, sigma) == -Terms.Value(c.t, sigma))
  {
    var (w1, c) := Gen(w, e);
    TruthHolds(w1.sys, r);
    if c.CInt? { TermArithmetic(c.t, c.t, 0, sigma); }
  }

  // Walking the expression adds nothing and gives `c`.
  ghost predicate Quiet(w: Walk, e: Expr, c: Ctx) { Gen(w, e) == (w, c) }

  // A choice between two integers, or two strings, is the hull of both.
  lemma ConditionalHolds(w: Walk, e: Expr, a: Expr, b: Expr, x: Ctx, y: Ctx, r: seq<Range>)
    requires var w1 := Gen(w, e).0;
             && Quiet(w1, a, x) && Quiet(w1, b, y) && w1.sys.Valid() && w1.sys.hardLo == [] && |r| == w1.sys.Size()
    ensures var s, (w', c) := Gen(w, e).0.sys, Gen(w, Conditional(e, a, b)); var v := s.Size();
            && (x.CInt? && y.CInt? && x.t.VarsBelow(v) && y.t.VarsBelow(v) ==>
                  c == CInt(VarTerm(v)) && Holding(s, w'.sys, r, Hull(Of(s, x.t, r), Of(s, y.t, r))))
            && (StrBelow(x, s) && StrBelow(y, s) ==>
                  && c == CStr(VarTerm(v), VarTerm(v + 1))
                  && HoldingTwo(s, w'.sys, r, Hull(Of(s, x.siz, r), Of(s, y.siz, r)),
                                Hull(Of(s, x.len, r), Of(s, y.len, r))))
  {
    var s := Gen(w, e).0.sys;
    if x.CInt? && y.CInt? && x.t.VarsBelow(s.Size()) && y.t.VarsBelow(s.Size()) { MergedIntsHold(s, x.t, y.t, r); }
    if StrBelow(x, s) && StrBelow(y, s) { MergedStringsHold(s, x, y, r); }
  }

  // `x = e` asks that the variable take in the value.
  lemma AssignAsks(w: Walk, x: string, v: VarId, e: Expr, t: Term, r: seq<Range>)
    requires x in w.vars && w.vars[x] == CInt(VarTerm(v)) && Quiet(w, e, CInt(t))
    requires Free(w.sys, v) && |r| == w.sys.Size() && t.VarsBelow(w.sys.Size())
    ensures var (w', c) := Gen(w, Assign(Var(x), None, e));
            && c == CInt(t) && w'.sys.Size() == w.sys.Size()
            && (Solved(w'.sys, r) <==> Solved(w.sys, r) && Leq(Of(w.sys, t, r), r[w.sys.root[v]]))
  {
    OneIncluded(w.sys, t, v, r);
  }

  lemma OffsetEvaluates(s: Sys, v: VarId, k: int, r: seq<Range>)
    requires s.Valid() && |r| == s.Size() && AllBounded(r) && v < s.Size()
    ensures Same(Of(s, Term([Slot(1, v)], k), r), Ranges.Add(Singleton(k), r[s.root[v]]))
  {
    var slots, x := [Slot(1, v)], r[s.root[v]];
    assert slots[..0] == [];
    assert EvalSlots(s.Snapshot(), slots, k, r) == Ranges.Add(EvalSlots(s.Snapshot(), [], k, r), Ranges.Mul(1, x));
    TimesOne(x);
    AddMonotone(Singleton(k), Singleton(k), Ranges.Mul(1, x), x);
    AddMonotone(Singleton(k), Singleton(k), x, Ranges.Mul(1, x));
  }

  lemma StepWalked(w: Walk, op: UnOp, x: string, v: VarId, k: int)
    requires x in w.vars && w.vars[x] == CInt(VarTerm(v)) && op in {PreInc, PostInc, PreDec, PostDec}
    requires k == if op in {PreInc, PostInc} then 1 else -1
    ensures var t := Term([Slot(1, v)], k);
            Gen(w, Unary(op, Var(x))) == (w.With(w.sys.Include(t, VarTerm(v))), CInt(t))
  {
    var o: BinOp := if op in {PreInc, PostInc} then BinOp.Add else BinOp.Sub;
    PlusConstant(VarTerm(v), 1);
    assert Gen(w, Var(x)) == (w, CInt(VarTerm(v)));
    assert Combine(w, o, CInt(VarTerm(v)), CInt(Constant(1))) == (w, CInt(Term([Slot(1, v)], k)));
    assert Update(w, Var(x), o) ==
           (w.With(w.sys.Include(Term([Slot(1, v)], k), VarTerm(v))), CInt(Term([Slot(1, v)], k)));
  }

  // The increments ask that the variable take in itself moved up by one, the decrements down by one.
  lemma StepAsks(w: Walk, op: UnOp, x: string, v: VarId, r: seq<Range>)
    requires op in {PreInc, PostInc, PreDec, PostDec} && x in w.vars && w.vars[x] == CInt(VarTerm(v))
    requires Free(w.sys, v) && |r| == w.sys.Size()
    ensures var (w', c) := Gen(w, Unary(op, Var(x))); var k, now := if op in {PreInc, PostInc} then 1 else -1,
            r[w.sys.root[v]];
            && w'.sys.Size() == w.sys.Size()
            && (Solved(w'.sys, r) <==> Solved(w.sys, r) && Leq(Ranges.Add(Singleton(k), now), now))
  {
    var k := if op in {PreInc, PostInc} then 1 else -1;
    var t, now := Term([Slot(1, v)], k), r[w.sys.root[v]];
    StepWalked(w, op, x, v, k);
    OneIncluded(w.sys, t, v, r);
    if Solved(w.sys, r) {
      OffsetEvaluates(w.sys, v, k, r);
      if Leq(Of(w.sys, t, r), now) { LeqTransitive(Ranges.Add(Singleton(k), now), Of(w.sys, t, r), now); }
      if Leq(Ranges.Add(Singleton(k), now), now) { LeqTransitive(Of(w.sys, t, r), Ranges.Add(Singleton(k), now), now); }
    }
  }

  // ----- calls that are not recognised -----

  // The arguments each routine is recognised with.
  predicate Recognised(f: Routine, args: seq<Ctx>) {
    match f
    case Strcpy => |args| == 2 && args[0].CStr? && args[1].CStr?
    case Strcat => |args| == 2 && args[0].CStr? && args[1].CStr?
    case Strncpy => |args| == 3 && args[0].CStr? && args[1].CStr? && args[2].CInt?
    case Strncat => |args| == 3 && args[0].CStr? && args[1].CStr? && args[2].CInt?
    case Fgets => |args| == 3 && args[0].CStr? && args[1].CInt?
    case Gethostname => |args| == 2 && args[0].CStr? && args[1].CInt?
    case Strchr => |args| == 2 && args[0].CStr?
    case Malloc => |args| == 1 && args[0].CInt?
    case Gets => |args| == 1 && args[0].CStr?
    case Strlen => |args| == 1 && args[0].CStr?
    case Strspn => |args| == 1 && args[0].CStr?
    case Strdup => |args| == 1 && args[0].CStr?
    case Getenv => true
    case Printf => true
    case Syserror => true
    case Syssignal => true
    case _ => false
  }

  // With any others, and under any other name, a call leaves everything alone and has no context; so does `printf`,
  // except that it has one that says nothing.
  lemma UnrecognisedIsIgnored(w: Walk, f: Routine, args: seq<Ctx>)
    ensures !Recognised(f, args) ==> CheckStrOp(w, f, args) == (w, None)
    ensures Recognised(f, args) ==> CheckStrOp(w, f, args).1.Some?
    ensures CheckStrOp(w, Printf, args) == (w, Some(CNone))
  {
  }

  // `snprintf` without a literal format is left alone as well.
  lemma OpenSnprintfIsIgnored(w: Walk, args: seq<Expr>, ctxs: seq<Ctx>)
    requires |args| == |ctxs| && (|args| < 3 || !args[2].StrConst? || !ctxs[0].CStr?)
    ensures ModelSnprintf(w, args, ctxs) == (w, CNone)
  {
  }
}
