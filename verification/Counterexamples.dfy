/**
 Boundaries of what is proved about the solver: the coefficient beyond which feedback through `min` is lost, the
 offset beyond which a forced term stays down, what a pin hides, and sizes the domain cannot hold.
 */
module Counterexamples {
  import opened Ranges
  import opened Terms
  import opened Problems
  import opened Components
  import opened Feedback
  import opened Cycles

  // ----- one variable, feedback through min -----

  // a ⊆ x, min(c·x, 2) ⊆ x, min(x, 3) ⊆ x, from a seed that the first `min` lifts.
  function Capped(c: int): Problem {
    Unnamed(1, [Subset(Constant(CapSeed(c)), 0), MinSubset([MinTerm(c, 0), MinConst(2)], 0),
                MinSubset([MinTerm(1, 0), MinConst(3)], 0)])
  }

  function CapSeed(c: int): int { if c > 1 then 1 else -1 }

  function Held(c: int, x: Range, k: int): Range { RMin(RMin(Singleton(INF), Mul(c, x)), Singleton(k)) }

  function CapFlow(c: int, x: Range): Range { Hull(Hull(Singleton(CapSeed(c)), Held(c, x, 2)), Held(1, x, 3)) }

  lemma TwoItems(p: Problem, items: seq<MinItem>, r: seq<Range>)
    requires p.Valid() && |r| == p.Size() && |items| == 2
    requires items[0].MinTerm? && items[0].v < p.Size() && items[1].MinConst?
    ensures EvalItems(p, items, r) == RMin(RMin(Singleton(INF), EvalItem(p, items[0], r)), EvalItem(p, items[1], r))
  {
    assert items[..1][..0] == [] && items[..1] == [items[0]];
    assert EvalItems(p, items[..1], r) == RMin(EvalItems(p, [], r), EvalItem(p, items[0], r));
  }

  lemma CappedRound(c: int, wide: bool, x: Range)
    requires x.Bounded()
    ensures var p := Capped(c);
            && p.Valid() && Vars(p, [0]) && Apply(p, 0, [x]) == CapFlow(c, x)
            && Round(p, [0], wide, [x]) == [if wide then Widen(CapFlow(c, x), x) else CapFlow(c, x)]
  {
    var p, r := Capped(c), [x];
    TwoItems(p, [MinTerm(c, 0), MinConst(2)], r);
    TwoItems(p, [MinTerm(1, 0), MinConst(3)], r);
    assert Inflow(p, 0, 0, r) == EMPTY && Inflow(p, 1, 0, r) == Singleton(CapSeed(c));
    assert Inflow(p, 2, 0, r) == Hull(Singleton(CapSeed(c)), Held(c, x, 2));
    assert PassTo(p, [0], 0, wide, r) == r;
    assert Round(p, [0], wide, r) == PassTo(p, [0], 1, wide, r);
  }

  // The range from the seed, or from -Inf if the coefficient is negative, up to `hi`.
  function CapUpTo(c: int, hi: int): Range { Range(if c < 0 then NEGINF else CapSeed(c), hi) }

  lemma CapFlows(c: int)
    requires c != 1
    ensures var a := CapSeed(c);
            && CapFlow(c, EMPTY) == Range(a, a)
            && CapFlow(c, Range(a, a)).lo == a && a < CapFlow(c, Range(a, a)).hi
            && CapFlow(c, Range(a, INF)) == CapUpTo(c, 3)
            && Leq(CapFlow(c, CapUpTo(c, 2)), CapUpTo(c, 2))
            && CapFlow(c, CapUpTo(c, 3)) == CapUpTo(c, 3)
  {
    var a := CapSeed(c);
    forall e | e in {1, -1, 2, 3, INF, NEGINF} ensures MulEp(c, e) == Clamp(c * e) && MulEp(1, e) == e {
      MulEpIsClampedProduct(c, e);
      MulEpIsClampedProduct(1, e);
    }
    ProductOutgrows(c, INF);
    ProductOutgrows(c, NEGINF);
  }

  // Widening overshoots both caps, and the next round comes down only as far as the larger one.
  lemma CappedOvershoots(c: int)
    requires c != 1
    ensures Capped(c).Valid() && Lone(Capped(c), 0, [EMPTY]) && TameSelf(Capped(c), 0, c)
    ensures !EndwiseLeast(Capped(c), 0, [EMPTY])
  {
    var p, r0, a := Capped(c), [EMPTY], CapSeed(c);
    CapFlows(c);
    CappedRound(c, false, EMPTY);
    CappedRound(c, true, Range(a, a));
    CappedRound(c, true, Range(a, INF));
    CappedRound(c, true, CapUpTo(c, 3));
    CappedRound(c, true, CapUpTo(c, 2));
    assert Rounds(p, [0], 0, r0) == r0 && Rounds(p, [0], 1, r0) == [Range(a, a)];
    assert Rounds(p, [0], 2, r0) == [Range(a, INF)] && Rounds(p, [0], 3, r0) == [CapUpTo(c, 3)];
    assert Rounds(p, [0], 3 + 1, r0) == Rounds(p, [0], 3, r0);
    StaysStill(p, [0], 3, MAX_ITERS, r0);
    assert r0[0 := CapUpTo(c, 2)] == [CapUpTo(c, 2)];
    assert Feedback.Closed(p, 0, r0, CapUpTo(c, 2));
    assert At(p, 0, r0, MAX_ITERS) == CapUpTo(c, 3);
    CappedIsTame(c);
  }

  lemma CappedIsTame(c: int)
    ensures Capped(c).Valid() && TameSelf(Capped(c), 0, c)
  {
    var p := Capped(c);
    assert PositiveOn(p, [], 0);
    assert ScaledOn(p, [MinTerm(c, 0), MinConst(2)], 0, c) && ScaledOn(p, [MinTerm(1, 0), MinConst(3)], 0, c);
  }

  // Every lone variable that feeds itself positively, and through a `min` with coefficient 1 or `c`, is left with
  // the ends of the least closed range, or infinite ones.
  ghost predicate MinIsHarmless(c: int) {
    forall p: Problem, v: VarId, r: seq<Range> {:trigger TameSelf(p, v, c), Lone(p, v, r)} ::
      p.Valid() && Lone(p, v, r) && TameSelf(p, v, c) ==> EndwiseLeast(p, v, r)
  }

  // The coefficient 1 that `push_min_item` emits is the only harmless one.
  lemma OnlyUnitMinIsHarmless(c: int)
    ensures MinIsHarmless(c) <==> c == 1
  {
    if c == 1 {
      forall p: Problem, v: VarId, r: seq<Range> | p.Valid() && Lone(p, v, r) && TameSelf(p, v, 1)
        ensures EndwiseLeast(p, v, r)
      {
        SelfFeedbackSettles(p, v, r);
      }
    } else {
      CappedOvershoots(c);
    }
  }

  // ----- pinned variables -----

  // a ⊆ x with x pinned to b.
  function Pinned(a: int, b: int): Problem {
    Unnamed(1, [Subset(Constant(a), 0)]).(fixed := [(0, Singleton(b))])
  }

  // A pin silences what flows in: the one solution satisfies the constraint only if the two constants agree.
  lemma PinnedInflowIsIgnored(a: int, b: int)
    requires Finite(a) && Finite(b)
    ensures var p := Pinned(a, b);
            && p.Valid() && (forall r :: Solution(p, r) <==> r == [Singleton(b)])
            && (Leq(EvalConstraint(p, p.constraints[0], [Singleton(b)]), Singleton(b)) <==> a == b)
  {
    var p := Pinned(a, b);
    assert p.fixed[..0] == [] && Pin(p, 0) == Some(Singleton(b));
    forall r ensures Solution(p, r) <==> r == [Singleton(b)] {
      if Solution(p, r) { assert r[0] == Singleton(b) && r == [Singleton(b)]; }
    }
  }

  // ----- sizes beyond the sentinel -----

  // A length greater than the size passes exactly when both have saturated to the same infinity.
  lemma SaturatedSizesPass(siz: int, len: int)
    requires siz < len
    ensures EpGe(Singleton(siz).lo, Singleton(len).hi) <==> siz >= INF || len <= NEGINF
    ensures Holds(Singleton(siz), siz) && Holds(Singleton(len), len)
  {
    EpGeIsOrder(Clamp(siz), Clamp(len));
  }
}
