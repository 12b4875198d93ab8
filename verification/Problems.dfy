/**
 What the solver is asked to solve (src/solver.rs), and what a solution of it is.

 A problem is the snapshot of the constraint system that `solve` receives, together with the `canon` table
 that sends every variable to its union-find representative. `Apply` is the transfer function of one
 variable: the join of everything that flows into it, then its hard lower bound. The least solution is
 the limit of the Kleene iterates of `Apply`; it exists because the domain has finite height.
 */
module Problems {
  import opened Ranges
  import opened Terms

  datatype Problem = Problem(
    names: seq<Option<string>>,
    canon: seq<VarId>,
    constraints: seq<Constraint>,
    queries: seq<Query>,
    fixed: seq<(VarId, Range)>,
    hardLo: seq<(VarId, int)>)
  {
    function Size(): nat { |names| }

    predicate Valid() {
      && |canon| == Size()
      && (forall v :: 0 <= v < Size() ==> canon[v] < Size())
      && (forall v {:trigger canon[canon[v]]} :: 0 <= v < Size() ==> canon[canon[v]] == canon[v])
      && (forall i :: 0 <= i < |constraints| ==> ConstraintBelow(constraints[i], Size()))
      && (forall i :: 0 <= i < |queries| ==> queries[i].a.VarsBelow(Size()) && queries[i].b.VarsBelow(Size()))
      && (forall i :: 0 <= i < |fixed| ==> fixed[i].0 < Size() && fixed[i].1.Bounded())
      && (forall i :: 0 <= i < |hardLo| ==> hardLo[i].0 < Size())
    }
  }

  predicate ConstraintBelow(c: Constraint, n: nat) {
    && c.target < n
    && match c
       case Subset(lhs, _) => lhs.VarsBelow(n)
       case MinSubset(items, _) => forall k :: 0 <= k < |items| && items[k].MinTerm? ==> items[k].v < n
  }

  function LhsVars(c: Constraint): seq<VarId> {
    match c
    case Subset(lhs, _) => seq(|lhs.terms|, k requires 0 <= k < |lhs.terms| => lhs.terms[k].v)
    case MinSubset(items, _) => ItemVars(items)
  }

  function ItemVars(items: seq<MinItem>): (r: seq<VarId>)
    ensures forall k :: 0 <= k < |items| && items[k].MinTerm? ==> items[k].v in r
    ensures forall v :: v in r ==> exists k :: 0 <= k < |items| && items[k].MinTerm? && items[k].v == v
  {
    if items == [] then []
    else
      var init, last := items[..|items| - 1], items[|items| - 1];
      assert forall k :: 0 <= k < |init| ==> items[k] == init[k];
      ItemVars(init) + (if last.MinTerm? then [last.v] else [])
  }

  // `v` is read by constraint `c`, through the canon table.
  predicate Reads(p: Problem, c: Constraint, v: VarId)
    requires p.Valid() && ConstraintBelow(c, p.Size())
  {
    LhsBelow(c, p.Size());
    exists k :: 0 <= k < |LhsVars(c)| && p.canon[LhsVars(c)[k]] == v
  }

  lemma LhsBelow(c: Constraint, n: nat)
    requires ConstraintBelow(c, n)
    ensures forall k :: 0 <= k < |LhsVars(c)| ==> LhsVars(c)[k] < n
  {
    match c
    case Subset(lhs, _) =>
    case MinSubset(items, _) =>
      forall k | 0 <= k < |LhsVars(c)| ensures LhsVars(c)[k] < n {
        assert LhsVars(c)[k] in ItemVars(items);
      }
  }

  // Some constraint into `v` reads `u`: an edge of the influence graph.
  ghost predicate Feeds(p: Problem, u: VarId, v: VarId)
    requires p.Valid()
  {
    exists i :: 0 <= i < |p.constraints| && p.canon[p.constraints[i].target] == v && Reads(p, p.constraints[i], u)
  }

  // ----- evaluation -----

  function EvalSlots(p: Problem, slots: seq<Slot>, konst: int, ranges: seq<Range>): Range
    requires p.Valid() && |ranges| == p.Size()
    requires forall k :: 0 <= k < |slots| ==> slots[k].v < p.Size()
  {
    if slots == [] then Singleton(konst)
    else
      var init, last := slots[..|slots| - 1], slots[|slots| - 1];
      Add(EvalSlots(p, init, konst, ranges), Mul(last.coeff, ranges[p.canon[last.v]]))
  }

  function EvalTerm(p: Problem, t: Term, ranges: seq<Range>): Range
    requires p.Valid() && |ranges| == p.Size() && t.VarsBelow(p.Size())
  {
    EvalSlots(p, t.terms, t.konst, ranges)
  }

  function EvalItem(p: Problem, item: MinItem, ranges: seq<Range>): Range
    requires p.Valid() && |ranges| == p.Size() && (item.MinTerm? ==> item.v < p.Size())
  {
    match item
    case MinConst(k) => Singleton(k)
    case MinTerm(c, v) => Mul(c, ranges[p.canon[v]])
  }

  function EvalItems(p: Problem, items: seq<MinItem>, ranges: seq<Range>): Range
    requires p.Valid() && |ranges| == p.Size()
    requires forall k :: 0 <= k < |items| && items[k].MinTerm? ==> items[k].v < p.Size()
  {
    if items == [] then Singleton(INF)
    else RMin(EvalItems(p, items[..|items| - 1], ranges), EvalItem(p, items[|items| - 1], ranges))
  }

  function EvalConstraint(p: Problem, c: Constraint, ranges: seq<Range>): Range
    requires p.Valid() && |ranges| == p.Size() && ConstraintBelow(c, p.Size())
  {
    match c
    case Subset(lhs, _) => EvalTerm(p, lhs, ranges)
    case MinSubset(items, _) => EvalItems(p, items, ranges)
  }

  // The range `v` is pinned to, if any: the last pin on its class wins.
  function Pin(p: Problem, v: VarId): Option<Range>
    requires p.Valid()
  {
    PinAmong(p, p.fixed, v)
  }

  function PinAmong(p: Problem, fixed: seq<(VarId, Range)>, v: VarId): Option<Range>
    requires |p.canon| == p.Size() && forall i :: 0 <= i < |fixed| ==> fixed[i].0 < p.Size()
  {
    if fixed == [] then None
    else
      var last := fixed[|fixed| - 1];
      if p.canon[last.0] == v then Some(last.1) else PinAmong(p, fixed[..|fixed| - 1], v)
  }

  // A pin is one of the listed ranges of the class; without a pin the class is not listed.
  lemma {:induction false} PinIsListed(p: Problem, fixed: seq<(VarId, Range)>, v: VarId)
    requires |p.canon| == p.Size() && forall i :: 0 <= i < |fixed| ==> fixed[i].0 < p.Size()
    ensures match PinAmong(p, fixed, v)
            case Some(r) => exists i :: 0 <= i < |fixed| && fixed[i].1 == r && p.canon[fixed[i].0] == v
            case None => forall i :: 0 <= i < |fixed| ==> p.canon[fixed[i].0] != v
  {
    if fixed != [] {
      var init, last := fixed[..|fixed| - 1], fixed[|fixed| - 1];
      PinIsListed(p, init, v);
      if p.canon[last.0] == v {
        assert fixed[|fixed| - 1].1 == last.1;
      } else if PinAmong(p, init, v).Some? {
        var i :| 0 <= i < |init| && init[i].1 == PinAmong(p, init, v).value && p.canon[init[i].0] == v;
        assert fixed[i] == init[i];
      }
    }
  }

  // No later pin is on the same class.
  ghost predicate LastOn(p: Problem, fixed: seq<(VarId, Range)>, i: nat)
    requires i < |fixed| && |p.canon| == p.Size() && forall j :: 0 <= j < |fixed| ==> fixed[j].0 < p.Size()
  {
    forall j :: i < j < |fixed| ==> p.canon[fixed[j].0] != p.canon[fixed[i].0]
  }

  // Of several pins on a class the last one listed counts.
  lemma {:induction false} LastPinWins(p: Problem, fixed: seq<(VarId, Range)>, i: nat)
    requires |p.canon| == p.Size() && forall j :: 0 <= j < |fixed| ==> fixed[j].0 < p.Size()
    requires i < |fixed| && LastOn(p, fixed, i)
    ensures PinAmong(p, fixed, p.canon[fixed[i].0]) == Some(fixed[i].1)
  {
    if i < |fixed| - 1 {
      var init := fixed[..|fixed| - 1];
      assert forall j :: 0 <= j < |init| ==> init[j] == fixed[j];
      LastPinWins(p, init, i);
    }
  }

  // The strongest hard lower bound on `v`'s class; a bound below the domain counts as its bottom end.
  function Floor(p: Problem, v: VarId): Option<int>
    requires p.Valid()
  {
    FloorAmong(p, p.hardLo, v)
  }

  function FloorAmong(p: Problem, hardLo: seq<(VarId, int)>, v: VarId): (r: Option<int>)
    requires |p.canon| == p.Size() && forall i :: 0 <= i < |hardLo| ==> hardLo[i].0 < p.Size()
    ensures r.Some? ==> r.value >= NEGINF
    ensures r.Some? <==> exists i :: 0 <= i < |hardLo| && p.canon[hardLo[i].0] == v
    ensures forall i :: 0 <= i < |hardLo| && p.canon[hardLo[i].0] == v ==> r.Some? && hardLo[i].1 <= r.value
  {
    if hardLo == [] then None
    else
      var last := hardLo[|hardLo| - 1];
      var before := FloorAmong(p, hardLo[..|hardLo| - 1], v);
      if p.canon[last.0] == v then Some(Max(if before.Some? then before.value else NEGINF, last.1)) else before
  }

  function RaiseTo(acc: Range, floor: Option<int>): Range {
    if floor.Some? && !acc.IsEmpty() && acc.lo < floor.value then Range(floor.value, acc.hi) else acc
  }

  // A floor cuts off exactly the integers below it.
  lemma FloorCuts(acc: Range, floor: int, n: int)
    ensures InRange(RaiseTo(acc, Some(floor)), n) <==> InRange(acc, n) && n >= floor
  {
  }

  // The floor of a class is one of its lower bounds, or the bottom of the domain, and no bound exceeds it.
  lemma {:induction false} FloorIsGreatest(p: Problem, hardLo: seq<(VarId, int)>, v: VarId)
    requires |p.canon| == p.Size() && forall i :: 0 <= i < |hardLo| ==> hardLo[i].0 < p.Size()
    requires FloorAmong(p, hardLo, v).Some?
    ensures var f := FloorAmong(p, hardLo, v).value;
            && (f == NEGINF || exists i :: 0 <= i < |hardLo| && p.canon[hardLo[i].0] == v && hardLo[i].1 == f)
            && forall i :: 0 <= i < |hardLo| && p.canon[hardLo[i].0] == v ==> hardLo[i].1 <= f
  {
    var init, last := hardLo[..|hardLo| - 1], hardLo[|hardLo| - 1];
    var before := FloorAmong(p, init, v);
    if before.Some? {
      FloorIsGreatest(p, init, v);
      if before.value != NEGINF {
        var i :| 0 <= i < |init| && p.canon[init[i].0] == v && init[i].1 == before.value;
        assert hardLo[i] == init[i];
      }
    }
    assert hardLo[|hardLo| - 1] == last;
  }

  // The join of what the first `k` constraints send into `v`.
  function Inflow(p: Problem, k: nat, v: VarId, ranges: seq<Range>): Range
    requires p.Valid() && |ranges| == p.Size() && k <= |p.constraints|
  {
    if k == 0 then EMPTY
    else
      var before, c := Inflow(p, k - 1, v, ranges), p.constraints[k - 1];
      if p.canon[c.target] == v then Hull(before, EvalConstraint(p, c, ranges)) else before
  }

  function Apply(p: Problem, v: VarId, ranges: seq<Range>): Range
    requires p.Valid() && |ranges| == p.Size()
  {
    RaiseTo(Inflow(p, |p.constraints|, v, ranges), Floor(p, v))
  }

  // ----- boundedness -----

  ghost predicate AllBounded(ranges: seq<Range>) {
    forall v :: 0 <= v < |ranges| ==> ranges[v].Bounded()
  }

  lemma {:induction false} EvalBounded(p: Problem, c: Constraint, ranges: seq<Range>)
    requires p.Valid() && |ranges| == p.Size() && ConstraintBelow(c, p.Size()) && AllBounded(ranges)
    ensures EvalConstraint(p, c, ranges).Bounded()
  {
    match c
    case Subset(lhs, _) => EvalSlotsBounded(p, lhs.terms, lhs.konst, ranges);
    case MinSubset(items, _) => EvalItemsBounded(p, items, ranges);
  }

  lemma {:induction false} EvalSlotsBounded(p: Problem, slots: seq<Slot>, konst: int, ranges: seq<Range>)
    requires p.Valid() && |ranges| == p.Size() && AllBounded(ranges)
    requires forall k :: 0 <= k < |slots| ==> slots[k].v < p.Size()
    ensures EvalSlots(p, slots, konst, ranges).Bounded()
  {
    if slots != [] {
      EvalSlotsBounded(p, slots[..|slots| - 1], konst, ranges);
    }
  }

  lemma {:induction false} EvalItemsBounded(p: Problem, items: seq<MinItem>, ranges: seq<Range>)
    requires p.Valid() && |ranges| == p.Size() && AllBounded(ranges)
    requires forall k :: 0 <= k < |items| && items[k].MinTerm? ==> items[k].v < p.Size()
    ensures EvalItems(p, items, ranges).Bounded()
  {
    if items != [] {
      EvalItemsBounded(p, items[..|items| - 1], ranges);
    }
  }

  lemma {:induction false} InflowBounded(p: Problem, k: nat, v: VarId, ranges: seq<Range>)
    requires p.Valid() && |ranges| == p.Size() && k <= |p.constraints| && AllBounded(ranges)
    ensures Inflow(p, k, v, ranges).Bounded()
  {
    if k > 0 {
      InflowBounded(p, k - 1, v, ranges);
      EvalBounded(p, p.constraints[k - 1], ranges);
    }
  }

  lemma ApplyBounded(p: Problem, v: VarId, ranges: seq<Range>)
    requires p.Valid() && |ranges| == p.Size() && AllBounded(ranges)
    ensures Apply(p, v, ranges).Bounded()
  {
    InflowBounded(p, |p.constraints|, v, ranges);
  }

  // ----- monotonicity -----

  ghost predicate Below(r: seq<Range>, s: seq<Range>) {
    |r| == |s| && forall v :: 0 <= v < |r| ==> Leq(r[v], s[v])
  }

  // On everything constraint `c` reads, `r` lies below `s`.
  ghost predicate BelowOnReads(p: Problem, c: Constraint, r: seq<Range>, s: seq<Range>)
    requires p.Valid() && |r| == |s| == p.Size() && ConstraintBelow(c, p.Size())
  {
    forall u :: 0 <= u < p.Size() && Reads(p, c, u) ==> Leq(r[u], s[u])
  }

  lemma ReadsSlot(p: Problem, c: Constraint, k: nat)
    requires p.Valid() && ConstraintBelow(c, p.Size()) && c.Subset? && k < |c.lhs.terms|
    ensures Reads(p, c, p.canon[c.lhs.terms[k].v])
  {
    assert LhsVars(c)[k] == c.lhs.terms[k].v;
  }

  lemma ReadsItem(p: Problem, c: Constraint, k: nat)
    requires p.Valid() && ConstraintBelow(c, p.Size()) && c.MinSubset? && k < |c.items| && c.items[k].MinTerm?
    ensures Reads(p, c, p.canon[c.items[k].v])
  {
    assert c.items[k].v in LhsVars(c);
  }

  lemma {:induction false} EvalMonotone(p: Problem, c: Constraint, r: seq<Range>, s: seq<Range>)
    requires p.Valid() && |r| == |s| == p.Size() && ConstraintBelow(c, p.Size())
    requires BelowOnReads(p, c, r, s)
    ensures Leq(EvalConstraint(p, c, r), EvalConstraint(p, c, s))
  {
    match c
    case Subset(lhs, _) =>
      forall k | 0 <= k < |lhs.terms| ensures Leq(r[p.canon[lhs.terms[k].v]], s[p.canon[lhs.terms[k].v]]) {
        ReadsSlot(p, c, k);
      }
      EvalSlotsMonotone(p, lhs.terms, lhs.konst, r, s);
    case MinSubset(items, _) =>
      forall k | 0 <= k < |items| && items[k].MinTerm? ensures Leq(r[p.canon[items[k].v]], s[p.canon[items[k].v]]) {
        ReadsItem(p, c, k);
      }
      EvalItemsMonotone(p, items, r, s);
  }

  lemma {:induction false} EvalSlotsMonotone(p: Problem, slots: seq<Slot>, konst: int, r: seq<Range>, s: seq<Range>)
    requires p.Valid() && |r| == |s| == p.Size()
    requires forall k :: 0 <= k < |slots| ==> slots[k].v < p.Size()
    requires forall k :: 0 <= k < |slots| ==> Leq(r[p.canon[slots[k].v]], s[p.canon[slots[k].v]])
    ensures Leq(EvalSlots(p, slots, konst, r), EvalSlots(p, slots, konst, s))
  {
    if slots != [] {
      var init, last := slots[..|slots| - 1], slots[|slots| - 1];
      EvalSlotsMonotone(p, init, konst, r, s);
      MulMonotone(last.coeff, r[p.canon[last.v]], s[p.canon[last.v]]);
      AddMonotone(EvalSlots(p, init, konst, r), EvalSlots(p, init, konst, s),
                  Mul(last.coeff, r[p.canon[last.v]]), Mul(last.coeff, s[p.canon[last.v]]));
    }
  }

  lemma {:induction false} EvalItemsMonotone(p: Problem, items: seq<MinItem>, r: seq<Range>, s: seq<Range>)
    requires p.Valid() && |r| == |s| == p.Size()
    requires forall k :: 0 <= k < |items| && items[k].MinTerm? ==> items[k].v < p.Size()
    requires forall k :: 0 <= k < |items| && items[k].MinTerm? ==> Leq(r[p.canon[items[k].v]], s[p.canon[items[k].v]])
    ensures Leq(EvalItems(p, items, r), EvalItems(p, items, s))
  {
    if items != [] {
      EvalItemsMonotone(p, items[..|items| - 1], r, s);
      var last := items[|items| - 1];
      if last.MinTerm? {
        MulMonotone(last.coeff, r[p.canon[last.v]], s[p.canon[last.v]]);
      }
    }
  }

  // The transfer function is monotone, and looks only at the variables that feed its target.
  lemma ApplyMonotone(p: Problem, v: VarId, r: seq<Range>, s: seq<Range>)
    requires p.Valid() && |r| == |s| == p.Size()
    requires forall u :: 0 <= u < p.Size() && Feeds(p, u, v) ==> Leq(r[u], s[u])
    ensures Leq(Apply(p, v, r), Apply(p, v, s))
  {
    InflowMonotone(p, |p.constraints|, v, r, s);
  }

  lemma {:induction false} InflowMonotone(p: Problem, k: nat, v: VarId, r: seq<Range>, s: seq<Range>)
    requires p.Valid() && |r| == |s| == p.Size() && k <= |p.constraints|
    requires forall u :: 0 <= u < p.Size() && Feeds(p, u, v) ==> Leq(r[u], s[u])
    ensures Leq(Inflow(p, k, v, r), Inflow(p, k, v, s))
  {
    if k > 0 {
      InflowMonotone(p, k - 1, v, r, s);
      var c := p.constraints[k - 1];
      if p.canon[c.target] == v {
        EvalMonotone(p, c, r, s);
      }
    }
  }

  lemma ApplySameOn(p: Problem, v: VarId, r: seq<Range>, s: seq<Range>)
    requires p.Valid() && |r| == |s| == p.Size()
    requires forall u :: 0 <= u < p.Size() && Feeds(p, u, v) ==> r[u] == s[u]
    ensures Apply(p, v, r) == Apply(p, v, s)
  {
    InflowSameOn(p, |p.constraints|, v, r, s);
  }

  lemma {:induction false} InflowSameOn(p: Problem, k: nat, v: VarId, r: seq<Range>, s: seq<Range>)
    requires p.Valid() && |r| == |s| == p.Size() && k <= |p.constraints|
    requires forall u :: 0 <= u < p.Size() && Feeds(p, u, v) ==> r[u] == s[u]
    ensures Inflow(p, k, v, r) == Inflow(p, k, v, s)
  {
    if k > 0 {
      InflowSameOn(p, k - 1, v, r, s);
      var c := p.constraints[k - 1];
      if p.canon[c.target] == v {
        EvalSameOn(p, c, r, s);
      }
    }
  }

  lemma {:induction false} EvalSameOn(p: Problem, c: Constraint, r: seq<Range>, s: seq<Range>)
    requires p.Valid() && |r| == |s| == p.Size() && ConstraintBelow(c, p.Size())
    requires forall u :: 0 <= u < p.Size() && Reads(p, c, u) ==> r[u] == s[u]
    ensures EvalConstraint(p, c, r) == EvalConstraint(p, c, s)
  {
    match c
    case Subset(lhs, _) =>
      forall k | 0 <= k < |lhs.terms| ensures r[p.canon[lhs.terms[k].v]] == s[p.canon[lhs.terms[k].v]] {
        ReadsSlot(p, c, k);
      }
      EvalSlotsSame(p, lhs.terms, lhs.konst, r, s);
    case MinSubset(items, _) =>
      forall k | 0 <= k < |items| && items[k].MinTerm? ensures r[p.canon[items[k].v]] == s[p.canon[items[k].v]] {
        ReadsItem(p, c, k);
      }
      EvalItemsSame(p, items, r, s);
  }

  lemma {:induction false} EvalSlotsSame(p: Problem, slots: seq<Slot>, konst: int, r: seq<Range>, s: seq<Range>)
    requires p.Valid() && |r| == |s| == p.Size()
    requires forall k :: 0 <= k < |slots| ==> slots[k].v < p.Size()
    requires forall k :: 0 <= k < |slots| ==> r[p.canon[slots[k].v]] == s[p.canon[slots[k].v]]
    ensures EvalSlots(p, slots, konst, r) == EvalSlots(p, slots, konst, s)
  {
    if slots != [] {
      EvalSlotsSame(p, slots[..|slots| - 1], konst, r, s);
    }
  }

  lemma {:induction false} EvalItemsSame(p: Problem, items: seq<MinItem>, r: seq<Range>, s: seq<Range>)
    requires p.Valid() && |r| == |s| == p.Size()
    requires forall k :: 0 <= k < |items| && items[k].MinTerm? ==> items[k].v < p.Size()
    requires forall k :: 0 <= k < |items| && items[k].MinTerm? ==> r[p.canon[items[k].v]] == s[p.canon[items[k].v]]
    ensures EvalItems(p, items, r) == EvalItems(p, items, s)
  {
    if items != [] {
      EvalItemsSame(p, items[..|items| - 1], r, s);
    }
  }

  // ----- solutions -----

  ghost predicate Solution(p: Problem, r: seq<Range>)
    requires p.Valid()
  {
    && |r| == p.Size()
    && AllBounded(r)
    && forall v :: 0 <= v < p.Size() ==>
         match Pin(p, v)
         case Some(pin) => r[v] == pin
         case None => Leq(Apply(p, v, r), r[v])
  }

  // Each unpinned variable holds exactly what flows into it.
  ghost predicate Fixpoint(p: Problem, r: seq<Range>)
    requires p.Valid()
  {
    && |r| == p.Size()
    && AllBounded(r)
    && forall v :: 0 <= v < p.Size() ==>
         match Pin(p, v)
         case Some(pin) => r[v] == pin
         case None => r[v] == Apply(p, v, r)
  }

  function Start(p: Problem): (r: seq<Range>)
    requires p.Valid()
    ensures |r| == p.Size()
  {
    seq(p.Size(), v requires 0 <= v < p.Size() => match Pin(p, v) case Some(pin) => pin case None => EMPTY)
  }

  ghost function Sweep(p: Problem, r: seq<Range>): (s: seq<Range>)
    requires p.Valid() && |r| == p.Size()
    ensures |s| == p.Size()
  {
    seq(p.Size(), v requires 0 <= v < p.Size() => match Pin(p, v) case Some(pin) => pin case None => Apply(p, v, r))
  }

  ghost function Kleene(p: Problem, k: nat): (r: seq<Range>)
    requires p.Valid()
    ensures |r| == p.Size()
  {
    if k == 0 then Start(p) else Sweep(p, Kleene(p, k - 1))
  }

  lemma PinBounded(p: Problem, v: VarId)
    requires p.Valid()
    ensures Pin(p, v).Some? ==> Pin(p, v).value.Bounded()
  {
    PinIsListed(p, p.fixed, v);
  }

  lemma StartBounded(p: Problem)
    requires p.Valid()
    ensures AllBounded(Start(p))
  {
    forall v | 0 <= v < p.Size() ensures Start(p)[v].Bounded() { PinBounded(p, v); }
  }

  lemma {:induction false} KleeneBounded(p: Problem, k: nat)
    requires p.Valid()
    ensures AllBounded(Kleene(p, k))
  {
    StartBounded(p);
    if k > 0 {
      KleeneBounded(p, k - 1);
      forall v | 0 <= v < p.Size() ensures Kleene(p, k)[v].Bounded() {
        PinBounded(p, v);
        ApplyBounded(p, v, Kleene(p, k - 1));
      }
    }
  }

  lemma SweepMonotone(p: Problem, r: seq<Range>, s: seq<Range>)
    requires p.Valid() && |r| == p.Size() && Below(r, s)
    ensures Below(Sweep(p, r), Sweep(p, s))
  {
    forall v | 0 <= v < p.Size() ensures Leq(Sweep(p, r)[v], Sweep(p, s)[v]) {
      ApplyMonotone(p, v, r, s);
    }
  }

  lemma {:induction false} KleeneAscends(p: Problem, k: nat)
    requires p.Valid()
    ensures Below(Kleene(p, k), Kleene(p, k + 1))
  {
    if k > 0 {
      KleeneAscends(p, k - 1);
      SweepMonotone(p, Kleene(p, k - 1), Kleene(p, k));
    }
  }

  lemma {:induction false} KleeneBelowSolutions(p: Problem, k: nat, s: seq<Range>)
    requires p.Valid() && Solution(p, s)
    ensures Below(Kleene(p, k), s)
  {
    if k > 0 {
      KleeneBelowSolutions(p, k - 1, s);
      SweepMonotone(p, Kleene(p, k - 1), s);
    }
  }

  // The number of saturated integers in a bounded range; it strictly grows along an ascending chain.
  function Width(r: Range): nat { if r.IsEmpty() then 0 else r.hi - r.lo + 1 }

  const HEIGHT: nat := 2 * INF + 1

  ghost function TotalWidth(r: seq<Range>): nat {
    if r == [] then 0 else Width(r[0]) + TotalWidth(r[1..])
  }

  lemma {:induction false} WidthGrows(r: seq<Range>, s: seq<Range>)
    requires Below(r, s)
    ensures TotalWidth(r) <= TotalWidth(s)
    ensures TotalWidth(r) == TotalWidth(s) ==> Below(s, r)
  {
    if r != [] {
      assert Below(r[1..], s[1..]);
      WidthGrows(r[1..], s[1..]);
      if TotalWidth(r) == TotalWidth(s) {
        forall v | 0 <= v < |s| ensures Leq(s[v], r[v]) {
          if v > 0 { assert Leq(s[1..][v - 1], r[1..][v - 1]); }
        }
      }
    }
  }

  lemma {:induction false} WidthBound(r: seq<Range>)
    requires AllBounded(r)
    ensures TotalWidth(r) <= |r| * HEIGHT
  {
    if r != [] {
      assert AllBounded(r[1..]);
      WidthBound(r[1..]);
    }
  }

  lemma {:induction false} KleeneSettles(p: Problem, k: nat)
    requires p.Valid()
    ensures TotalWidth(Kleene(p, k)) >= k || exists j :: 0 <= j < k && Below(Kleene(p, j + 1), Kleene(p, j))
  {
    if k > 0 {
      KleeneSettles(p, k - 1);
      KleeneAscends(p, k - 1);
      WidthGrows(Kleene(p, k - 1), Kleene(p, k));
      if Below(Kleene(p, k), Kleene(p, k - 1)) {
        var j := k - 1;
        assert Below(Kleene(p, j + 1), Kleene(p, j));
      }
    }
  }

  ghost function Limit(p: Problem): nat
    requires p.Valid()
  {
    p.Size() * HEIGHT + 1
  }

  ghost function LeastSolution(p: Problem): (r: seq<Range>)
    requires p.Valid()
    ensures |r| == p.Size()
  {
    Kleene(p, Limit(p))
  }

  lemma {:induction false} StaysSettled(p: Problem, j: nat, k: nat)
    requires p.Valid() && j <= k && Below(Kleene(p, j + 1), Kleene(p, j))
    ensures Below(Kleene(p, k + 1), Kleene(p, k))
    decreases k - j
  {
    if j < k {
      SweepMonotone(p, Kleene(p, j + 1), Kleene(p, j));
      StaysSettled(p, j + 1, k);
    }
  }

  // The least solution exists: the Kleene iterates reach it within n·65535 + 1 steps, it solves the
  // problem, it lies below every solution, and (up to the choice of empty range) it is a fixpoint.
  lemma LeastSolutionIsLeast(p: Problem)
    requires p.Valid()
    ensures Solution(p, LeastSolution(p))
    ensures forall s :: Solution(p, s) ==> Below(LeastSolution(p), s)
    ensures forall v :: 0 <= v < p.Size() && Pin(p, v).None? ==>
              Same(Apply(p, v, LeastSolution(p)), LeastSolution(p)[v])
  {
    var n, l := Limit(p), LeastSolution(p);
    KleeneBounded(p, n);
    KleeneSettles(p, n);
    WidthBound(l);
    var j :| 0 <= j < n && Below(Kleene(p, j + 1), Kleene(p, j));
    StaysSettled(p, j, n);
    KleeneAscends(p, n);
    forall v | 0 <= v < p.Size()
      ensures match Pin(p, v) case Some(pin) => l[v] == pin case None => Same(Apply(p, v, l), l[v])
    {
      assert Leq(Kleene(p, n + 1)[v], l[v]) && Leq(l[v], Kleene(p, n + 1)[v]);
    }
    forall s | Solution(p, s) ensures Below(l, s) {
      KleeneBelowSolutions(p, n, s);
    }
  }

  lemma FixpointIsSolution(p: Problem, r: seq<Range>)
    requires p.Valid() && Fixpoint(p, r)
    ensures Solution(p, r) && Below(LeastSolution(p), r)
  {
    LeastSolutionIsLeast(p);
  }

  // ----- what a solution says about one constraint -----

  lemma {:induction false} InflowCovers(p: Problem, k: nat, i: nat, v: VarId, r: seq<Range>)
    requires p.Valid() && |r| == p.Size() && i < k <= |p.constraints| && p.canon[p.constraints[i].target] == v
    ensures Leq(EvalConstraint(p, p.constraints[i], r), Inflow(p, k, v, r))
    decreases k
  {
    if i < k - 1 {
      InflowCovers(p, k - 1, i, v, r);
    }
  }

  // Without floors, being a solution is exactly satisfying every constraint into an unpinned class.
  lemma SolutionMeansSatisfied(p: Problem, r: seq<Range>)
    requires p.Valid() && |r| == p.Size() && p.hardLo == []
    ensures Solution(p, r) <==>
              && AllBounded(r)
              && (forall v :: 0 <= v < p.Size() && Pin(p, v).Some? ==> r[v] == Pin(p, v).value)
              && (forall i :: 0 <= i < |p.constraints| && Pin(p, p.canon[p.constraints[i].target]).None? ==>
                    Leq(EvalConstraint(p, p.constraints[i], r), r[p.canon[p.constraints[i].target]]))
  {
    if Solution(p, r) {
      forall i | 0 <= i < |p.constraints| && Pin(p, p.canon[p.constraints[i].target]).None?
        ensures Leq(EvalConstraint(p, p.constraints[i], r), r[p.canon[p.constraints[i].target]])
      {
        InflowCovers(p, |p.constraints|, i, p.canon[p.constraints[i].target], r);
      }
    }
    if (forall i :: 0 <= i < |p.constraints| && Pin(p, p.canon[p.constraints[i].target]).None? ==>
          Leq(EvalConstraint(p, p.constraints[i], r), r[p.canon[p.constraints[i].target]])) {
      forall v | 0 <= v < p.Size() && Pin(p, v).None? ensures Leq(Apply(p, v, r), r[v]) {
        InflowWithin(p, |p.constraints|, v, r);
      }
    }
  }

  lemma {:induction false} InflowWithin(p: Problem, k: nat, v: VarId, r: seq<Range>)
    requires p.Valid() && |r| == p.Size() && k <= |p.constraints| && v < p.Size()
    requires forall i :: 0 <= i < |p.constraints| && p.canon[p.constraints[i].target] == v ==>
               Leq(EvalConstraint(p, p.constraints[i], r), r[v])
    ensures Leq(Inflow(p, k, v, r), r[v])
  {
    if k > 0 {
      InflowWithin(p, k - 1, v, r);
    }
  }
}
