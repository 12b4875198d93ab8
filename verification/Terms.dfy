/**
 Linear terms over set variables (src/constraint.rs), and the constraint forms built from them.

 A term denotes a *set* of integers once every variable has a range: each slot contributes some integer
 between the scaled endpoints of its variable. `Denotes` says this with unbounded arithmetic, so that it is
 a meaning independent of the saturating evaluation in the solver.
 */
module Terms {
  import opened Ranges

  datatype Option<+T> = None | Some(value: T)

  type VarId = nat

  datatype Slot = Slot(coeff: int, v: VarId)

  predicate SameSign(c: int, d: int) {
    (c >= 0 && d >= 0) || (c <= 0 && d <= 0)
  }

  // Adds `c·v` to the first slot of `v` whose coefficient has the same sign, or opens a new slot at the end.
  function AddSlot(slots: seq<Slot>, c: int, v: VarId): seq<Slot> {
    if slots == [] then [Slot(c, v)]
    else if slots[0].v == v && SameSign(slots[0].coeff, c) then [Slot(slots[0].coeff + c, v)] + slots[1..]
    else [slots[0]] + AddSlot(slots[1..], c, v)
  }

  function AddSlots(slots: seq<Slot>, more: seq<Slot>): seq<Slot> {
    if more == [] then slots
    else
      var last := more[|more| - 1];
      AddSlot(AddSlots(slots, more[..|more| - 1]), last.coeff, last.v)
  }

  function ScaleSlots(slots: seq<Slot>, c: int): (r: seq<Slot>) {
    seq(|slots|, i requires 0 <= i < |slots| => Slot(c * slots[i].coeff, slots[i].v))
  }

  datatype Term = Term(terms: seq<Slot>, konst: int) {
    predicate IsConstant() { terms == [] }

    // The variable of a term that is exactly `1·v`.
    function SingleVar(): Option<VarId> {
      if konst == 0 && |terms| == 1 && terms[0].coeff == 1 then Some(terms[0].v) else None
    }

    // The offset and variable of a term that is exactly `1·v + k`.
    function SingleVarAny(): Option<(int, VarId)> {
      if |terms| == 1 && terms[0].coeff == 1 then Some((konst, terms[0].v)) else None
    }

    function Plus(other: Term): Term {
      Term(AddSlots(terms, other.terms), konst + other.konst)
    }

    function Scale(c: int): Term { Term(ScaleSlots(terms, c), c * konst) }

    function Negate(): Term { Scale(-1) }

    function Minus(other: Term): Term { Plus(other.Negate()) }

    predicate VarsBelow(n: nat) {
      forall i :: 0 <= i < |terms| ==> terms[i].v < n
    }

    // The accumulation behind `Plus`: merge each slot of `other` into the first slot that takes it.
    method Add(other: Term) returns (r: Term)
      ensures r == Plus(other)
    {
      var result := terms;
      for k := 0 to |other.terms|
        invariant result == AddSlots(terms, other.terms[..k])
      {
        assert other.terms[..k + 1][..k] == other.terms[..k];
        result := MergeSlot(result, other.terms[k].coeff, other.terms[k].v);
      }
      assert other.terms[..|other.terms|] == other.terms;
      r := Term(result, konst + other.konst);
    }

    method Sub(other: Term) returns (r: Term)
      ensures r == Minus(other)
    {
      r := Add(other.Negate());
    }
  }

  method MergeSlot(slots: seq<Slot>, c: int, v: VarId) returns (result: seq<Slot>)
    ensures result == AddSlot(slots, c, v)
  {
    for i := 0 to |slots|
      invariant AddSlot(slots, c, v) == slots[..i] + AddSlot(slots[i..], c, v)
    {
      assert slots[i..][1..] == slots[i + 1..];
      if slots[i].v == v && SameSign(slots[i].coeff, c) {
        assert AddSlot(slots[i..], c, v) == [Slot(slots[i].coeff + c, v)] + slots[i + 1..];
        return slots[i := Slot(slots[i].coeff + c, v)];
      }
      assert slots[..i] + ([slots[i]] + AddSlot(slots[i + 1..], c, v)) ==
        slots[..i + 1] + AddSlot(slots[i + 1..], c, v);
    }
    result := slots + [Slot(c, v)];
  }

  function Constant(k: int): Term { Term([], k) }

  function VarTerm(v: VarId): Term { Term([Slot(1, v)], 0) }

  datatype MinItem = MinConst(k: int) | MinTerm(coeff: int, v: VarId)

  datatype Constraint = Subset(lhs: Term, target: VarId) | MinSubset(items: seq<MinItem>, target: VarId)

  datatype QueryKind = Overflow(name: string) | Deref(desc: string)

  // Asserts that every value of `a` is at least every value of `b`.
  datatype Query = Query(a: Term, b: Term, kind: QueryKind)

  // ----- a term as a linear form: its value under one integer per variable -----

  ghost function SumSlots(slots: seq<Slot>, sigma: VarId -> int): int {
    if slots == [] then 0 else slots[0].coeff * sigma(slots[0].v) + SumSlots(slots[1..], sigma)
  }

  ghost function Value(t: Term, sigma: VarId -> int): int { t.konst + SumSlots(t.terms, sigma) }

  lemma {:induction false} AddSlotValue(slots: seq<Slot>, c: int, v: VarId, sigma: VarId -> int)
    ensures SumSlots(AddSlot(slots, c, v), sigma) == SumSlots(slots, sigma) + c * sigma(v)
  {
    if slots == [] {
      assert SumSlots([Slot(c, v)][1..], sigma) == 0;
    } else if slots[0].v == v && SameSign(slots[0].coeff, c) {
      assert AddSlot(slots, c, v)[1..] == slots[1..];
      SumOfProducts(slots[0].coeff, c, sigma(v));
    } else {
      assert AddSlot(slots, c, v)[1..] == AddSlot(slots[1..], c, v);
      AddSlotValue(slots[1..], c, v, sigma);
    }
  }

  lemma {:induction false} SumSnoc(slots: seq<Slot>, s: Slot, sigma: VarId -> int)
    ensures SumSlots(slots + [s], sigma) == SumSlots(slots, sigma) + s.coeff * sigma(s.v)
  {
    if slots == [] {
      assert SumSlots([s][1..], sigma) == 0;
    } else {
      assert (slots + [s])[1..] == slots[1..] + [s];
      SumSnoc(slots[1..], s, sigma);
    }
  }

  lemma {:induction false} AddSlotsValue(slots: seq<Slot>, more: seq<Slot>, sigma: VarId -> int)
    ensures SumSlots(AddSlots(slots, more), sigma) == SumSlots(slots, sigma) + SumSlots(more, sigma)
  {
    if more != [] {
      var init, last := more[..|more| - 1], more[|more| - 1];
      AddSlotsValue(slots, init, sigma);
      AddSlotValue(AddSlots(slots, init), last.coeff, last.v, sigma);
      SumSnoc(init, last, sigma);
      assert init + [last] == more;
    }
  }

  lemma {:induction false} ScaleSlotsValue(slots: seq<Slot>, c: int, sigma: VarId -> int)
    ensures SumSlots(ScaleSlots(slots, c), sigma) == c * SumSlots(slots, sigma)
  {
    if slots != [] {
      assert ScaleSlots(slots, c)[1..] == ScaleSlots(slots[1..], c);
      ScaleSlotsValue(slots[1..], c, sigma);
      var x, y := sigma(slots[0].v), SumSlots(slots[1..], sigma);
      Distribute(c, slots[0].coeff * x, y);
      Associate(c, slots[0].coeff, x);
    }
  }

  lemma Distribute(c: int, x: int, y: int)
    ensures c * (x + y) == c * x + c * y
  {
  }

  lemma Associate(c: int, d: int, x: int)
    ensures (c * d) * x == c * (d * x)
  {
  }

  // Term arithmetic is arithmetic on values, whatever the merging of like terms does.
  lemma TermArithmetic(t: Term, u: Term, c: int, sigma: VarId -> int)
    ensures Value(t.Plus(u), sigma) == Value(t, sigma) + Value(u, sigma)
    ensures Value(t.Minus(u), sigma) == Value(t, sigma) - Value(u, sigma)
    ensures Value(t.Scale(c), sigma) == c * Value(t, sigma)
    ensures Value(t.Negate(), sigma) == -Value(t, sigma)
  {
    AddSlotsValue(t.terms, u.terms, sigma);
    AddSlotsValue(t.terms, u.Negate().terms, sigma);
    ScaleSlotsValue(t.terms, c, sigma);
    ScaleSlotsValue(t.terms, -1, sigma);
    ScaleSlotsValue(u.terms, -1, sigma);
    Distribute(c, t.konst, SumSlots(t.terms, sigma));
  }

  // ----- a term as a set of integers, given a range per variable -----

  // `y` lies between the scaled endpoints of `r`; an infinite endpoint bounds nothing.
  ghost predicate Between(c: int, r: Range, y: int) {
    && !r.IsEmpty()
    && (c == 0 ==> y == 0)
    && (c > 0 ==> (r.lo <= NEGINF || c * r.lo <= y) && (r.hi >= INF || y <= c * r.hi))
    && (c < 0 ==> (r.hi >= INF || c * r.hi <= y) && (r.lo <= NEGINF || y <= c * r.lo))
  }

  // One contribution per slot, adding up to `total`.
  ghost predicate Splits(slots: seq<Slot>, rho: VarId -> Range, parts: seq<int>, total: int) {
    if slots == [] then parts == [] && total == 0
    else
      && parts != []
      && Between(slots[0].coeff, rho(slots[0].v), parts[0])
      && Splits(slots[1..], rho, parts[1..], total - parts[0])
  }

  // Named only where a proof looks into a decomposition; everywhere else `DenotesSlots` stays closed to the solver.
  ghost predicate Decomposing(total: int) { true }

  ghost predicate DenotesSlots(slots: seq<Slot>, rho: VarId -> Range, total: int) {
    forall n {:trigger Decomposing(n)} :: Decomposing(n) && n == total ==> exists parts :: Splits(slots, rho, parts, n)
  }

  lemma PartsOf(slots: seq<Slot>, rho: VarId -> Range, total: int) returns (parts: seq<int>)
    requires DenotesSlots(slots, rho, total)
    ensures Splits(slots, rho, parts, total)
  {
    assert Decomposing(total);
    parts :| Splits(slots, rho, parts, total);
  }

  lemma SplitsDenote(slots: seq<Slot>, rho: VarId -> Range, parts: seq<int>, total: int)
    requires Splits(slots, rho, parts, total)
    ensures DenotesSlots(slots, rho, total)
  {
  }

  ghost predicate Denotes(t: Term, rho: VarId -> Range, n: int) {
    DenotesSlots(t.terms, rho, n - t.konst)
  }

  lemma ConstantDenotes(k: int, rho: VarId -> Range)
    ensures Denotes(Constant(k), rho, k)
  {
    SplitsDenote([], rho, [], 0);
  }

  lemma VarDenotes(v: VarId, rho: VarId -> Range, n: int)
    requires Holds(rho(v), n)
    ensures Denotes(VarTerm(v), rho, n)
  {
    var slots := [Slot(1, v)];
    assert Splits(slots[1..], rho, [n][1..], n - [n][0]);
    SplitsDenote(slots, rho, [n], n);
  }

  lemma BetweenMerges(c: int, d: int, r: Range, y: int, z: int)
    requires SameSign(c, d) && Between(c, r, y) && Between(d, r, z)
    ensures Between(c + d, r, y + z)
  {
    SumOfProducts(c, d, r.lo);
    SumOfProducts(c, d, r.hi);
  }

  lemma BetweenScales(c: int, d: int, r: Range, y: int)
    requires Between(d, r, y)
    ensures Between(c * d, r, c * y)
  {
    ProductOutgrows(c, d);
    Associate(c, d, r.lo);
    Associate(c, d, r.hi);
    ScaledBound(c, d * r.lo, y);
    ScaledBound(c, y, d * r.lo);
    ScaledBound(c, d * r.hi, y);
    ScaledBound(c, y, d * r.hi);
  }

  lemma {:induction false} AddSlotSplits(slots: seq<Slot>, c: int, v: VarId, rho: VarId -> Range, parts: seq<int>,
                                         total: int, y: int)
    returns (parts': seq<int>)
    requires Splits(slots, rho, parts, total) && Between(c, rho(v), y)
    ensures Splits(AddSlot(slots, c, v), rho, parts', total + y)
  {
    if slots == [] {
      parts' := [y];
      assert Splits([Slot(c, v)][1..], rho, parts'[1..], total + y - parts'[0]);
    } else if slots[0].v == v && SameSign(slots[0].coeff, c) {
      BetweenMerges(slots[0].coeff, c, rho(v), parts[0], y);
      parts' := [parts[0] + y] + parts[1..];
      assert AddSlot(slots, c, v)[1..] == slots[1..] && parts'[1..] == parts[1..];
    } else {
      var rest := AddSlotSplits(slots[1..], c, v, rho, parts[1..], total - parts[0], y);
      parts' := [parts[0]] + rest;
      assert AddSlot(slots, c, v)[1..] == AddSlot(slots[1..], c, v) && parts'[1..] == rest;
      assert total + y - parts'[0] == total - parts[0] + y;
    }
  }

  // A decomposition over a list of slots, cut before its last slot.
  lemma {:induction false} SplitsInit(slots: seq<Slot>, rho: VarId -> Range, parts: seq<int>, total: int)
    requires slots != [] && Splits(slots, rho, parts, total)
    ensures parts != []
    ensures Splits(slots[..|slots| - 1], rho, parts[..|parts| - 1], total - parts[|parts| - 1])
    ensures Between(slots[|slots| - 1].coeff, rho(slots[|slots| - 1].v), parts[|parts| - 1])
  {
    if |slots| == 1 {
      assert slots[1..] == [] && slots[..0] == [] && parts[1..] == [];
      assert parts[..|parts| - 1] == [];
    } else {
      SplitsInit(slots[1..], rho, parts[1..], total - parts[0]);
      var s, p := slots[..|slots| - 1], parts[..|parts| - 1];
      assert s[1..] == slots[1..][..|slots| - 2] && p[1..] == parts[1..][..|parts| - 2];
      assert parts[1..][|parts| - 2] == parts[|parts| - 1];
    }
  }

  lemma {:induction false} AddSlotsDenotes(slots: seq<Slot>, more: seq<Slot>, rho: VarId -> Range, m: int, n: int)
    requires DenotesSlots(slots, rho, m) && DenotesSlots(more, rho, n)
    ensures DenotesSlots(AddSlots(slots, more), rho, m + n)
  {
    var q := PartsOf(more, rho, n);
    if more != [] {
      SplitsInit(more, rho, q, n);
      var init, last, y := more[..|more| - 1], more[|more| - 1], q[|q| - 1];
      SplitsDenote(init, rho, q[..|q| - 1], n - y);
      AddSlotsDenotes(slots, init, rho, m, n - y);
      var p := PartsOf(AddSlots(slots, init), rho, m + (n - y));
      var p' := AddSlotSplits(AddSlots(slots, init), last.coeff, last.v, rho, p, m + (n - y), y);
      assert m + (n - y) + y == m + n;
      SplitsDenote(AddSlots(slots, more), rho, p', m + n);
    }
  }

  lemma {:induction false} ScaleSlotsDenotes(slots: seq<Slot>, c: int, rho: VarId -> Range, parts: seq<int>, n: int)
    requires Splits(slots, rho, parts, n)
    ensures DenotesSlots(ScaleSlots(slots, c), rho, c * n)
  {
    if slots == [] {
      SplitsDenote([], rho, [], 0);
    } else {
      ScaleSlotsDenotes(slots[1..], c, rho, parts[1..], n - parts[0]);
      assert ScaleSlots(slots, c)[1..] == ScaleSlots(slots[1..], c);
      var rest := PartsOf(ScaleSlots(slots[1..], c), rho, c * (n - parts[0]));
      BetweenScales(c, slots[0].coeff, rho(slots[0].v), parts[0]);
      Distribute(c, parts[0], n - parts[0]);
      var p := [c * parts[0]] + rest;
      assert p[1..] == rest;
      SplitsDenote(ScaleSlots(slots, c), rho, p, c * n);
    }
  }

  // The sets two terms denote are closed under the terms' arithmetic: picking the values of the operands
  // independently is covered by the combined term, merged slots included.
  lemma ArithmeticDenotes(t: Term, u: Term, c: int, rho: VarId -> Range, m: int, n: int)
    requires Denotes(t, rho, m) && Denotes(u, rho, n)
    ensures Denotes(t.Plus(u), rho, m + n)
    ensures Denotes(t.Minus(u), rho, m - n)
    ensures Denotes(t.Scale(c), rho, c * m)
  {
    AddSlotsDenotes(t.terms, u.terms, rho, m - t.konst, n - u.konst);
    assert m + n - t.Plus(u).konst == (m - t.konst) + (n - u.konst);
    var p := PartsOf(t.terms, rho, m - t.konst);
    var q := PartsOf(u.terms, rho, n - u.konst);
    ScaleSlotsDenotes(t.terms, c, rho, p, m - t.konst);
    Distribute(c, m - t.konst, t.konst);
    ScaleSlotsDenotes(u.terms, -1, rho, q, n - u.konst);
    var nu := u.Negate();
    assert -1 * (n - u.konst) == -n - nu.konst;
    AddSlotsDenotes(t.terms, nu.terms, rho, m - t.konst, -n - nu.konst);
    assert m - n - t.Minus(u).konst == (m - t.konst) + (-n - nu.konst);
  }

  lemma NegateDenotes(t: Term, rho: VarId -> Range, m: int)
    requires Denotes(t, rho, m)
    ensures Denotes(t.Negate(), rho, -m)
  {
    var p := PartsOf(t.terms, rho, m - t.konst);
    ScaleSlotsDenotes(t.terms, -1, rho, p, m - t.konst);
    assert -1 * (m - t.konst) == -m - t.Negate().konst;
  }

  // Keeping `v - v` as two slots matters: read twice, `v` in 0..1 can yield 1, which no single value of `v` does.
  lemma OppositeSlotsStayApart(v: VarId)
    ensures var t := VarTerm(v).Minus(VarTerm(v));
            && t.terms == [Slot(1, v), Slot(-1, v)]
            && (forall sigma :: Value(t, sigma) == 0)
            && Denotes(t, _ => Range(0, 1), 1)
  {
    var t := VarTerm(v).Minus(VarTerm(v));
    var neg := ScaleSlots([Slot(1, v)], -1);
    assert neg == [Slot(-1, v)] && neg[..0] == [];
    assert AddSlots([Slot(1, v)], neg) == AddSlot(AddSlots([Slot(1, v)], neg[..0]), -1, v);
    assert AddSlot([Slot(1, v)], -1, v) == [Slot(1, v)] + AddSlot([Slot(1, v)][1..], -1, v);
    forall sigma ensures Value(t, sigma) == 0 {
      TermArithmetic(VarTerm(v), VarTerm(v), 0, sigma);
    }
    var rho: VarId -> Range := _ => Range(0, 1);
    VarDenotes(v, rho, 1);
    VarDenotes(v, rho, 0);
    ArithmeticDenotes(VarTerm(v), VarTerm(v), 0, rho, 1, 0);
  }

  lemma {:induction false} AddSlotsVarsBelow(slots: seq<Slot>, more: seq<Slot>, n: nat)
    requires Term(slots, 0).VarsBelow(n) && Term(more, 0).VarsBelow(n)
    ensures Term(AddSlots(slots, more), 0).VarsBelow(n)
  {
    if more != [] {
      var init, last := more[..|more| - 1], more[|more| - 1];
      assert Term(init, 0).VarsBelow(n) by {
        forall i | 0 <= i < |init| ensures init[i].v < n { assert Term(more, 0).terms[i].v < n; }
      }
      AddSlotsVarsBelow(slots, init, n);
      assert last.v < n by { assert Term(more, 0).terms[|more| - 1].v < n; }
      AddSlotVarsBelow(AddSlots(slots, init), last.coeff, last.v, n);
    }
  }

  lemma {:induction false} AddSlotVarsBelow(slots: seq<Slot>, c: int, v: VarId, n: nat)
    requires Term(slots, 0).VarsBelow(n) && v < n
    ensures Term(AddSlot(slots, c, v), 0).VarsBelow(n)
  {
    if slots != [] {
      assert Term(slots, 0).terms[0].v < n;
      assert Term(slots[1..], 0).VarsBelow(n) by {
        forall i | 0 <= i < |slots[1..]| ensures slots[1..][i].v < n { assert Term(slots, 0).terms[i + 1].v < n; }
      }
      AddSlotVarsBelow(slots[1..], c, v, n);
      forall i | 0 <= i < |AddSlot(slots, c, v)| ensures AddSlot(slots, c, v)[i].v < n {
        if i > 0 {
          if slots[0].v == v && SameSign(slots[0].coeff, c) {
            assert Term(slots, 0).terms[i].v < n;
          } else {
            assert Term(AddSlot(slots[1..], c, v), 0).terms[i - 1].v < n;
          }
        }
      }
    }
  }

  lemma ArithmeticVarsBelow(t: Term, u: Term, c: int, n: nat)
    requires t.VarsBelow(n) && u.VarsBelow(n)
    ensures t.Plus(u).VarsBelow(n) && t.Minus(u).VarsBelow(n) && t.Scale(c).VarsBelow(n)
  {
    assert Term(t.terms, 0).VarsBelow(n) && Term(u.terms, 0).VarsBelow(n) && Term(u.Negate().terms, 0).VarsBelow(n);
    AddSlotsVarsBelow(t.terms, u.terms, n);
    AddSlotsVarsBelow(t.terms, u.Negate().terms, n);
    assert t.Plus(u).VarsBelow(n) by {
      forall i | 0 <= i < |t.Plus(u).terms| ensures t.Plus(u).terms[i].v < n {
        assert Term(AddSlots(t.terms, u.terms), 0).terms[i].v < n;
      }
    }
    assert t.Minus(u).VarsBelow(n) by {
      forall i | 0 <= i < |t.Minus(u).terms| ensures t.Minus(u).terms[i].v < n {
        assert Term(AddSlots(t.terms, u.Negate().terms), 0).terms[i].v < n;
      }
    }
  }
}
