/**
 The saturating interval domain of src/range.rs.

 An endpoint at or beyond ±32767 *is* infinity. `Leq` orders ranges by inclusion, with every range whose
 `lo` exceeds its `hi` standing for the empty set. `Holds` gives a range its meaning over the
 unbounded integers: an endpoint that has reached infinity constrains nothing on its own side.
 */
module Ranges {

  const INF: int := 32767
  const NEGINF: int := -32767

  function Min(x: int, y: int): int { if x < y then x else y }

  function Max(x: int, y: int): int { if x > y then x else y }

  function Clamp(x: int): int {
    if x >= INF then INF else if x <= NEGINF then NEGINF else x
  }

  datatype Range = Range(lo: int, hi: int) {
    predicate IsEmpty() { lo > hi }

    // No endpoint lies on the far side of its own infinity. Every range the solver stores satisfies this.
    predicate Bounded() { NEGINF <= lo && hi <= INF }
  }

  const EMPTY: Range := Range(INF, NEGINF)
  const TOP: Range := Range(NEGINF, INF)

  function Singleton(n: int): Range { Range(Clamp(n), Clamp(n)) }

  function InfSign(x: int): int {
    if x >= INF then 2 else if x <= NEGINF then -2 else if x > 0 then 1 else if x < 0 then -1 else 0
  }

  predicate Finite(x: int) { NEGINF < x < INF }

  function AddEp(x: int, y: int, defaultBad: int): int {
    if Finite(x) && Finite(y) then Clamp(x + y)
    else
      var s := InfSign(x) + InfSign(y);
      if s > 0 then INF else if s < 0 then NEGINF else defaultBad
  }

  function MulEp(x: int, y: int): int {
    if Finite(x) && Finite(y) then Clamp(x * y)
    else
      var s := InfSign(x) * InfSign(y);
      if s == 2 || s == 4 then INF else if s == -2 || s == -4 then NEGINF else 0
  }

  function Add(x: Range, y: Range): Range {
    if x.IsEmpty() || y.IsEmpty() then EMPTY
    else Range(AddEp(x.lo, y.lo, NEGINF), AddEp(x.hi, y.hi, INF))
  }

  function Mul(c: int, y: Range): Range {
    if y.IsEmpty() then EMPTY
    else if c == 0 then Singleton(0)
    else if c > 0 then Range(MulEp(c, y.lo), MulEp(c, y.hi))
    else Range(MulEp(c, y.hi), MulEp(c, y.lo))
  }

  function Sub(x: Range, y: Range): Range { Add(x, Mul(-1, y)) }

  function Hull(x: Range, y: Range): Range {
    if x.IsEmpty() then y
    else if y.IsEmpty() then x
    else Range(Min(x.lo, y.lo), Max(x.hi, y.hi))
  }

  function RMin(x: Range, y: Range): Range {
    if x.IsEmpty() || y.IsEmpty() then EMPTY
    else Range(Min(x.lo, y.lo), Min(x.hi, y.hi))
  }

  predicate EpGe(x: int, y: int) {
    if x >= INF then true
    else if x <= NEGINF then y <= NEGINF
    else if y >= INF then false
    else if y <= NEGINF then true
    else x >= y
  }

  // ----- inclusion -----

  predicate Leq(x: Range, y: Range) {
    x.IsEmpty() || (y.lo <= x.lo && x.hi <= y.hi)
  }

  // Equal as sets: both empty, or the same endpoints.
  predicate Same(x: Range, y: Range) { Leq(x, y) && Leq(y, x) }

  lemma LeqTransitive(x: Range, y: Range, z: Range)
    requires Leq(x, y) && Leq(y, z)
    ensures Leq(x, z)
  {
  }

  lemma AddEpMonotone(x: int, x': int, y: int, y': int)
    requires x <= x' && y <= y'
    ensures AddEp(x, y, NEGINF) <= AddEp(x', y', NEGINF)
    ensures AddEp(x, y, INF) <= AddEp(x', y', INF)
  {
  }

  lemma MulEpMonotone(c: int, y: int, y': int)
    requires y <= y'
    ensures c > 0 ==> MulEp(c, y) <= MulEp(c, y')
    ensures c < 0 ==> MulEp(c, y') <= MulEp(c, y)
  {
    ProductOutgrows(c, y);
    ProductOutgrows(c, y');
    ProductMonotone(c, y, y');
  }

  lemma ProductMonotone(c: int, y: int, y': int)
    requires y <= y'
    ensures c > 0 ==> c * y <= c * y'
    ensures c < 0 ==> c * y' <= c * y
  {
  }

  // A product of nonzero integers is at least as far from zero as either factor, on the side its sign says.
  lemma ProductOutgrows(c: int, y: int)
    ensures c > 0 && y > 0 ==> c * y >= c && c * y >= y
    ensures c > 0 && y < 0 ==> c * y <= -c && c * y <= y
    ensures c < 0 && y > 0 ==> c * y <= c && c * y <= -y
    ensures c < 0 && y < 0 ==> c * y >= -c && c * y >= -y
    ensures c == 0 || y == 0 ==> c * y == 0
  {
    if c > 0 && y > 0 { PositiveProduct(c, y); }
    if c > 0 && y < 0 { PositiveProduct(c, -y); }
    if c < 0 && y > 0 { PositiveProduct(-c, y); }
    if c < 0 && y < 0 { PositiveProduct(-c, -y); }
  }

  lemma PositiveProduct(c: int, y: int)
    requires c > 0 && y > 0
    ensures c * y >= c && c * y >= y
  {
  }

  // Endpoint multiplication is clamped multiplication even when an operand is infinite. The
  // coefficient may lie beyond the sentinels; the endpoint may not.
  lemma MulEpIsClampedProduct(c: int, y: int)
    requires NEGINF <= y <= INF
    ensures MulEp(c, y) == Clamp(c * y)
  {
    if !(Finite(c) && Finite(y)) {
      ProductOutgrows(c, y);
    }
  }

  // Every operation of the domain is monotone for inclusion, with the empty range as bottom.
  lemma TransferMonotone(c: int, x: Range, x': Range, y: Range, y': Range)
    requires Leq(x, x') && Leq(y, y')
    ensures Leq(Add(x, y), Add(x', y'))
    ensures Leq(Mul(c, x), Mul(c, x'))
    ensures Leq(Sub(x, y), Sub(x', y'))
    ensures Leq(Hull(x, y), Hull(x', y'))
    ensures Leq(RMin(x, y), RMin(x', y'))
  {
    AddMonotone(x, x', y, y');
    MulMonotone(c, x, x');
    MulMonotone(-1, y, y');
    AddMonotone(x, x', Mul(-1, y), Mul(-1, y'));
  }

  lemma AddMonotone(x: Range, x': Range, y: Range, y': Range)
    requires Leq(x, x') && Leq(y, y')
    ensures Leq(Add(x, y), Add(x', y'))
  {
    if !x.IsEmpty() && !y.IsEmpty() {
      AddEpMonotone(x'.lo, x.lo, y'.lo, y.lo);
      AddEpMonotone(x.hi, x'.hi, y.hi, y'.hi);
    }
  }

  lemma MulMonotone(c: int, y: Range, y': Range)
    requires Leq(y, y')
    ensures Leq(Mul(c, y), Mul(c, y'))
  {
    if !y.IsEmpty() {
      MulEpMonotone(c, y'.lo, y.lo);
      MulEpMonotone(c, y.hi, y'.hi);
    }
  }

  lemma ResultsBounded(c: int, x: Range, y: Range)
    requires x.Bounded() && y.Bounded()
    ensures Singleton(c).Bounded() && Add(x, y).Bounded() && Mul(c, x).Bounded()
    ensures Hull(x, y).Bounded() && RMin(x, y).Bounded()
  {
  }

  // The hull is the least upper bound for inclusion.
  lemma HullIsJoin(x: Range, y: Range, z: Range)
    ensures Leq(Hull(x, y), z) <==> Leq(x, z) && Leq(y, z)
  {
  }

  // Scaling distributes over a sum of coefficients of one sign, on saturated ranges, exactly. This
  // is what entitles a term to merge two multiples of one variable.
  lemma SameSignScalesAdd(c: int, d: int, y: Range)
    requires y.Bounded()
    requires (c >= 0 && d >= 0) || (c <= 0 && d <= 0)
    ensures Add(Mul(c, y), Mul(d, y)) == Mul(c + d, y)
  {
    if !y.IsEmpty() {
      MulNonEmpty(c, y);
      MulNonEmpty(d, y);
      ScaledEndpointsAdd(c, d, y.lo, NEGINF);
      ScaledEndpointsAdd(c, d, y.lo, INF);
      ScaledEndpointsAdd(c, d, y.hi, NEGINF);
      ScaledEndpointsAdd(c, d, y.hi, INF);
    }
  }

  lemma ScaledEndpointsAdd(c: int, d: int, e: int, bad: int)
    requires NEGINF <= e <= INF
    requires (c >= 0 && d >= 0) || (c <= 0 && d <= 0)
    ensures AddEp(MulEp(c, e), MulEp(d, e), bad) == MulEp(c + d, e)
  {
    MulEpIsClampedProduct(c, e);
    MulEpIsClampedProduct(d, e);
    MulEpIsClampedProduct(c + d, e);
    ProductOutgrows(c, e);
    ProductOutgrows(d, e);
    SumOfProducts(c, d, e);
    ClampedSum(c * e, d * e, bad);
  }

  lemma SumOfProducts(c: int, d: int, e: int)
    ensures (c + d) * e == c * e + d * e
  {
  }

  lemma ClampedSum(p: int, q: int, bad: int)
    requires (p >= 0 && q >= 0) || (p <= 0 && q <= 0)
    ensures AddEp(Clamp(p), Clamp(q), bad) == Clamp(p + q)
  {
  }

  // Coefficients of opposite sign must stay apart: 2R - R is not R.
  lemma OppositeSignsDoNotMerge()
    ensures Add(Mul(2, Range(0, 1)), Mul(-1, Range(0, 1))) != Mul(1, Range(0, 1))
  {
  }

  // ----- meaning over the unbounded integers -----

  // `n` is one of the saturated integers of `r`.
  predicate InRange(r: Range, n: int) { r.lo <= n <= r.hi }

  predicate Holds(r: Range, n: int) {
    !r.IsEmpty() && (r.lo <= NEGINF || r.lo <= n) && (r.hi >= INF || n <= r.hi)
  }

  // Neither endpoint sits at the infinity of the opposite side.
  predicate RightSided(r: Range) {
    !r.IsEmpty() && r.lo < INF && r.hi > NEGINF
  }

  lemma HoldsMonotone(x: Range, y: Range, n: int)
    requires Leq(x, y) && Holds(x, n)
    ensures Holds(y, n)
  {
  }

  // `x` sits wholly at one infinity while an endpoint of `y` pulls a finite way back from it.
  predicate Skews(x: Range, y: Range) {
    && !x.IsEmpty() && !y.IsEmpty()
    && ((x.lo >= INF && NEGINF < y.lo < 0) || (x.hi <= NEGINF && 0 < y.hi < INF))
  }

  predicate Aligned(x: Range, y: Range) { !Skews(x, y) && !Skews(y, x) }

  lemma AddSound(x: Range, y: Range, a: int, b: int)
    requires Aligned(x, y)
    requires Holds(x, a) && Holds(y, b)
    ensures Holds(Add(x, y), a + b)
  {
  }

  ghost predicate HoldsSums(x: Range, y: Range) {
    forall a, b :: Holds(x, a) && Holds(y, b) ==> Holds(Add(x, y), a + b)
  }

  // Saturated addition holds every sum of members exactly when neither operand skews the other.
  lemma AddSoundOnlyWhenAligned(x: Range, y: Range)
    requires x.Bounded() && y.Bounded()
    ensures HoldsSums(x, y) <==> Aligned(x, y)
  {
    if Skews(x, y) { SkewedSumIsLost(x, y); }
    if Skews(y, x) { SkewedSumIsLost(y, x); }
  }

  lemma SkewedSumIsLost(x: Range, y: Range)
    requires x.Bounded() && y.Bounded() && Skews(x, y)
    ensures !HoldsSums(x, y) && !HoldsSums(y, x)
  {
    var a, b := if x.lo >= INF then INF else NEGINF, if x.lo >= INF then y.lo else y.hi;
    assert Holds(x, a) && Holds(y, b);
    assert !Holds(Add(x, y), a + b) && !Holds(Add(y, x), b + a);
  }

  // Saturated addition over finite operands loses nothing: every member of the sum is a sum of members.
  lemma AddExact(x: Range, y: Range, n: int) returns (a: int, b: int)
    requires Finite(x.lo) && Finite(x.hi) && Finite(y.lo) && Finite(y.hi)
    requires Finite(x.lo + y.lo) && Finite(x.hi + y.hi)
    requires Holds(Add(x, y), n)
    ensures Holds(x, a) && Holds(y, b) && a + b == n
  {
    a := if n - y.lo <= x.hi then n - y.lo else x.hi;
    b := n - a;
  }

  // A skewed sum loses members and makes saturated addition non-associative.
  lemma SkewedAdditionIsUnsound()
    ensures var x := Singleton(20000); var s := Add(x, x);
            && Holds(s, 40000) && Skews(s, Singleton(-20000))
            && Add(s, Singleton(-20000)) == Singleton(INF)
            && !Holds(Add(s, Singleton(-20000)), 20000)
            && Add(x, Add(x, Singleton(-20000))) == x
  {
  }

  lemma MulSound(c: int, y: Range, a: int)
    requires y.Bounded() && Holds(y, a)
    ensures Holds(Mul(c, y), c * a)
  {
    MulNonEmpty(c, y);
    if c != 0 {
      MulEpIsClampedProduct(c, y.lo);
      MulEpIsClampedProduct(c, y.hi);
      ScaledBound(c, y.lo, a);
      ScaledBound(c, a, y.hi);
      ProductOutgrows(c, y.lo);
      ProductOutgrows(c, y.hi);
    }
  }

  lemma ScaledBound(c: int, x: int, y: int)
    ensures c > 0 && x <= y ==> c * x <= c * y
    ensures c < 0 && x <= y ==> c * x >= c * y
  {
  }

  lemma MulNonEmpty(c: int, y: Range)
    ensures Mul(c, y).IsEmpty() <==> y.IsEmpty()
  {
    if !y.IsEmpty() {
      MulEpMonotone(c, y.lo, y.hi);
    }
  }

  lemma AddNonEmpty(x: Range, y: Range)
    ensures Add(x, y).IsEmpty() <==> x.IsEmpty() || y.IsEmpty()
  {
    if !x.IsEmpty() && !y.IsEmpty() {
      AddEpMonotone(x.lo, x.hi, y.lo, y.hi);
    }
  }

  // `RMin` holds exactly the minima of members.
  lemma RMinSound(x: Range, y: Range, a: int, b: int)
    requires Holds(x, a) && Holds(y, b)
    ensures Holds(RMin(x, y), Min(a, b))
  {
  }

  lemma RMinExact(x: Range, y: Range, n: int) returns (a: int, b: int)
    requires x.Bounded() && y.Bounded() && RightSided(x) && RightSided(y)
    requires Holds(RMin(x, y), n)
    ensures Holds(x, a) && Holds(y, b) && Min(a, b) == n
  {
    if Holds(x, n) && (y.hi >= INF || n <= y.hi) {
      a, b := n, if y.lo <= NEGINF then n else Max(n, y.lo);
    } else {
      a, b := if x.lo <= NEGINF then n else Max(n, x.lo), n;
    }
  }

  // ----- the query comparison -----

  // On the domain, the infinity rules of `EpGe` are just the order of the sentinels.
  lemma EpGeIsOrder(x: int, y: int)
    requires NEGINF <= x <= INF && NEGINF <= y <= INF
    ensures EpGe(x, y) <==> x >= y
  {
  }
}
