/**
 Solving one strongly connected component (src/solver.rs, `solve_component`).

 `Rounds` is the loop with widening, `Plain` the same loop without it. A variable is *recomputed*: its range is
 replaced by what flows in now, so a round can also shrink it, and the loop need not reach a fixpoint
 before the cap. What holds regardless of convergence is that widening never loses a value the plain loop has.
 */
module Components {
  import opened Ranges
  import opened Terms
  import opened Problems

  const MAX_ITERS: nat := 1000

  // Endpoints that moved outwards since the start of the round jump to infinity.
  function Widen(acc: Range, p: Range): Range {
    if p.IsEmpty() then acc
    else Range(if acc.lo < p.lo then NEGINF else acc.lo, if acc.hi > p.hi then INF else acc.hi)
  }

  // The new range of `v`, given the current ranges and `v`'s range at the start of the round.
  function Visit(p: Problem, v: VarId, wide: bool, before: Range, ranges: seq<Range>): Range
    requires p.Valid() && |ranges| == p.Size() && v < p.Size()
  {
    if Pin(p, v).Some? then ranges[v]
    else if wide then Widen(Apply(p, v, ranges), before)
    else Apply(p, v, ranges)
  }

  predicate Vars(p: Problem, comp: seq<VarId>) {
    && (forall i :: 0 <= i < |comp| ==> comp[i] < p.Size())
    && (forall i, j :: 0 <= i < j < |comp| ==> comp[i] != comp[j])
  }

  // The ranges after the first `k` variables of the component have been visited in a round that began at `start`.
  function PassTo(p: Problem, comp: seq<VarId>, k: nat, wide: bool, start: seq<Range>): (r: seq<Range>)
    requires p.Valid() && Vars(p, comp) && |start| == p.Size() && k <= |comp|
    ensures |r| == p.Size()
  {
    if k == 0 then start
    else
      var r, v := PassTo(p, comp, k - 1, wide, start), comp[k - 1];
      r[v := Visit(p, v, wide, start[v], r)]
  }

  function Round(p: Problem, comp: seq<VarId>, wide: bool, start: seq<Range>): (r: seq<Range>)
    requires p.Valid() && Vars(p, comp) && |start| == p.Size()
    ensures |r| == p.Size()
  {
    PassTo(p, comp, |comp|, wide, start)
  }

  // `k` rounds of the loop; every round but the first widens.
  function Rounds(p: Problem, comp: seq<VarId>, k: nat, start: seq<Range>): (r: seq<Range>)
    requires p.Valid() && Vars(p, comp) && |start| == p.Size()
    ensures |r| == p.Size()
  {
    if k == 0 then start else Round(p, comp, k > 1, Rounds(p, comp, k - 1, start))
  }

  function Plain(p: Problem, comp: seq<VarId>, k: nat, start: seq<Range>): (r: seq<Range>)
    requires p.Valid() && Vars(p, comp) && |start| == p.Size()
    ensures |r| == p.Size()
  {
    if k == 0 then start else Round(p, comp, false, Plain(p, comp, k - 1, start))
  }

  // The loop leaves by its `!changed` exit.
  ghost predicate Converges(p: Problem, comp: seq<VarId>, start: seq<Range>)
    requires p.Valid() && Vars(p, comp) && |start| == p.Size()
  {
    exists k :: 0 <= k < MAX_ITERS && Rounds(p, comp, k + 1, start) == Rounds(p, comp, k, start)
  }

  // The loop without widening stops moving before the cap.
  ghost predicate PlainSettles(p: Problem, comp: seq<VarId>, start: seq<Range>)
    requires p.Valid() && Vars(p, comp) && |start| == p.Size()
  {
    exists k :: 0 <= k < MAX_ITERS && Plain(p, comp, k + 1, start) == Plain(p, comp, k, start)
  }

  // ----- what a round touches -----

  lemma {:induction false} PassFrame(p: Problem, comp: seq<VarId>, k: nat, wide: bool, start: seq<Range>, u: VarId)
    requires p.Valid() && Vars(p, comp) && |start| == p.Size() && k <= |comp| && u < p.Size()
    requires u !in comp[..k] || Pin(p, u).Some?
    ensures PassTo(p, comp, k, wide, start)[u] == start[u]
  {
    if k > 0 {
      assert comp[..k] == comp[..k - 1] + [comp[k - 1]];
      PassFrame(p, comp, k - 1, wide, start, u);
    }
  }

  // Once visited, a variable keeps its new range to the end of the round.
  lemma {:induction false} PassKeeps(p: Problem, comp: seq<VarId>, i: nat, k: nat, wide: bool, start: seq<Range>)
    requires p.Valid() && Vars(p, comp) && |start| == p.Size() && i < k <= |comp|
    ensures PassTo(p, comp, k, wide, start)[comp[i]] ==
            Visit(p, comp[i], wide, start[comp[i]], PassTo(p, comp, i, wide, start))
    decreases k
  {
    if i < k - 1 {
      PassKeeps(p, comp, i, k - 1, wide, start);
    }
  }

  lemma {:induction false} PassBounded(p: Problem, comp: seq<VarId>, k: nat, wide: bool, start: seq<Range>)
    requires p.Valid() && Vars(p, comp) && |start| == p.Size() && k <= |comp| && AllBounded(start)
    ensures AllBounded(PassTo(p, comp, k, wide, start))
  {
    if k > 0 {
      PassBounded(p, comp, k - 1, wide, start);
      ApplyBounded(p, comp[k - 1], PassTo(p, comp, k - 1, wide, start));
    }
  }

  lemma {:induction false} RoundsBounded(p: Problem, comp: seq<VarId>, k: nat, start: seq<Range>)
    requires p.Valid() && Vars(p, comp) && |start| == p.Size() && AllBounded(start)
    ensures AllBounded(Rounds(p, comp, k, start)) && AllBounded(Plain(p, comp, k, start))
  {
    if k > 0 {
      RoundsBounded(p, comp, k - 1, start);
      PassBounded(p, comp, |comp|, k > 1, Rounds(p, comp, k - 1, start));
      PassBounded(p, comp, |comp|, false, Plain(p, comp, k - 1, start));
    }
  }

  lemma {:induction false} RoundsFrame(p: Problem, comp: seq<VarId>, k: nat, start: seq<Range>, u: VarId)
    requires p.Valid() && Vars(p, comp) && |start| == p.Size() && u < p.Size()
    requires u !in comp || Pin(p, u).Some?
    ensures Rounds(p, comp, k, start)[u] == start[u] && Plain(p, comp, k, start)[u] == start[u]
  {
    if k > 0 {
      RoundsFrame(p, comp, k - 1, start, u);
      assert comp[..|comp|] == comp;
      PassFrame(p, comp, |comp|, k > 1, Rounds(p, comp, k - 1, start), u);
      PassFrame(p, comp, |comp|, false, Plain(p, comp, k - 1, start), u);
    }
  }

  // ----- stopping -----

  // A round that changes nothing changed nothing at any of its visits.
  lemma {:induction false} StillPass(p: Problem, comp: seq<VarId>, k: nat, wide: bool, start: seq<Range>)
    requires p.Valid() && Vars(p, comp) && |start| == p.Size() && k <= |comp|
    requires Round(p, comp, wide, start) == start
    ensures PassTo(p, comp, k, wide, start) == start
  {
    if k > 0 {
      StillPass(p, comp, k - 1, wide, start);
      PassKeeps(p, comp, k - 1, |comp|, wide, start);
    }
  }

  // Widening leaves alone what recomputing leaves alone.
  lemma {:induction false} PlainStillIsWideStill(p: Problem, comp: seq<VarId>, k: nat, start: seq<Range>)
    requires p.Valid() && Vars(p, comp) && |start| == p.Size() && k <= |comp|
    requires Round(p, comp, false, start) == start
    ensures PassTo(p, comp, k, true, start) == start
  {
    if k > 0 {
      PlainStillIsWideStill(p, comp, k - 1, start);
      StillPass(p, comp, k - 1, false, start);
      StillPass(p, comp, k, false, start);
    }
  }

  lemma {:induction false} StaysStill(p: Problem, comp: seq<VarId>, j: nat, k: nat, start: seq<Range>)
    requires p.Valid() && Vars(p, comp) && |start| == p.Size() && j <= k
    requires Rounds(p, comp, j + 1, start) == Rounds(p, comp, j, start)
    ensures Rounds(p, comp, k, start) == Rounds(p, comp, j, start)
    decreases k - j
  {
    if j < k {
      if j == 0 { PlainStillIsWideStill(p, comp, |comp|, start); }
      assert Rounds(p, comp, j + 2, start) == Rounds(p, comp, j + 1, start);
      StaysStill(p, comp, j + 1, k, start);
    }
  }

  lemma {:induction false} PlainStaysStill(p: Problem, comp: seq<VarId>, j: nat, k: nat, start: seq<Range>)
    requires p.Valid() && Vars(p, comp) && |start| == p.Size() && j <= k
    requires Plain(p, comp, j + 1, start) == Plain(p, comp, j, start)
    ensures Plain(p, comp, k, start) == Plain(p, comp, j, start)
    decreases k - j
  {
    if j < k {
      assert Plain(p, comp, j + 2, start) == Plain(p, comp, j + 1, start);
      PlainStaysStill(p, comp, j + 1, k, start);
    }
  }

  // On leaving by `!changed`, each unpinned variable of the component holds exactly its inflow: the widening
  // test of the last round cannot have fired.
  lemma ConvergedIsFixpoint(p: Problem, comp: seq<VarId>, start: seq<Range>)
    requires p.Valid() && Vars(p, comp) && |start| == p.Size() && AllBounded(start)
    requires Converges(p, comp, start)
    ensures var r := Rounds(p, comp, MAX_ITERS, start);
            forall v :: v in comp && Pin(p, v).None? ==> r[v] == Apply(p, v, r)
  {
    var r := Rounds(p, comp, MAX_ITERS, start);
    var k :| 0 <= k < MAX_ITERS && Rounds(p, comp, k + 1, start) == Rounds(p, comp, k, start);
    StaysStill(p, comp, k, MAX_ITERS, start);
    RoundsBounded(p, comp, MAX_ITERS, start);
    assert Round(p, comp, k > 0, r) == r;
    forall v | v in comp && Pin(p, v).None? ensures r[v] == Apply(p, v, r) {
      var i :| 0 <= i < |comp| && comp[i] == v;
      StillPass(p, comp, i, k > 0, r);
      PassKeeps(p, comp, i, |comp|, k > 0, r);
      ApplyBounded(p, v, r);
    }
  }

  lemma PlainSettledIsFixpoint(p: Problem, comp: seq<VarId>, start: seq<Range>)
    requires p.Valid() && Vars(p, comp) && |start| == p.Size()
    requires PlainSettles(p, comp, start)
    ensures var r := Plain(p, comp, MAX_ITERS, start);
            forall v :: v in comp && Pin(p, v).None? ==> r[v] == Apply(p, v, r)
  {
    var r := Plain(p, comp, MAX_ITERS, start);
    var k :| 0 <= k < MAX_ITERS && Plain(p, comp, k + 1, start) == Plain(p, comp, k, start);
    PlainStaysStill(p, comp, k, MAX_ITERS, start);
    assert Round(p, comp, false, r) == r;
    forall v | v in comp && Pin(p, v).None? ensures r[v] == Apply(p, v, r) {
      var i :| 0 <= i < |comp| && comp[i] == v;
      StillPass(p, comp, i, false, r);
      PassKeeps(p, comp, i, |comp|, false, r);
    }
  }

  // ----- simulation -----

  lemma WidenGrows(acc: Range, p: Range)
    requires acc.Bounded()
    ensures Leq(acc, Widen(acc, p)) && Widen(acc, p).Bounded()
  {
  }

  lemma {:induction false} PassSimulates(p: Problem, comp: seq<VarId>, k: nat, wide: bool, r: seq<Range>, s: seq<Range>)
    requires p.Valid() && Vars(p, comp) && |r| == |s| == p.Size() && k <= |comp|
    requires Below(r, s) && AllBounded(s)
    ensures Below(PassTo(p, comp, k, false, r), PassTo(p, comp, k, wide, s))
  {
    if k > 0 {
      PassSimulates(p, comp, k - 1, wide, r, s);
      var r', s', v := PassTo(p, comp, k - 1, false, r), PassTo(p, comp, k - 1, wide, s), comp[k - 1];
      PassBounded(p, comp, k - 1, wide, s);
      ApplyMonotone(p, v, r', s');
      ApplyBounded(p, v, s');
      WidenGrows(Apply(p, v, s'), s[v]);
    }
  }

  // After every round, converged or not, the loop with widening contains the loop without it, even when the
  // latter starts lower.
  lemma {:induction false} KleeneSimulation(p: Problem, comp: seq<VarId>, k: nat, r: seq<Range>, s: seq<Range>)
    requires p.Valid() && Vars(p, comp) && |r| == |s| == p.Size() && Below(r, s) && AllBounded(s)
    ensures Below(Plain(p, comp, k, r), Rounds(p, comp, k, s))
  {
    if k > 0 {
      KleeneSimulation(p, comp, k - 1, r, s);
      RoundsBounded(p, comp, k - 1, s);
      PassSimulates(p, comp, |comp|, k > 1, Plain(p, comp, k - 1, r), Rounds(p, comp, k - 1, s));
    }
  }

  // ----- the loop -----

  // The constraints among the first `k` that flow into `v`, in order.
  function Into(p: Problem, k: nat, v: VarId): (r: seq<nat>)
    requires p.Valid() && k <= |p.constraints|
    ensures forall i :: 0 <= i < |r| ==> r[i] < |p.constraints|
  {
    if k == 0 then []
    else Into(p, k - 1, v) + (if p.canon[p.constraints[k - 1].target] == v then [k - 1] else [])
  }

  function JoinOf(p: Problem, idxs: seq<nat>, ranges: seq<Range>): Range
    requires p.Valid() && |ranges| == p.Size() && forall i :: 0 <= i < |idxs| ==> idxs[i] < |p.constraints|
  {
    if idxs == [] then EMPTY
    else Hull(JoinOf(p, idxs[..|idxs| - 1], ranges), EvalConstraint(p, p.constraints[idxs[|idxs| - 1]], ranges))
  }

  lemma JoinSnoc(p: Problem, idxs: seq<nat>, i: nat, ranges: seq<Range>)
    requires p.Valid() && |ranges| == p.Size() && (forall k :: 0 <= k < |idxs| ==> idxs[k] < |p.constraints|)
    requires i < |p.constraints|
    ensures JoinOf(p, idxs + [i], ranges) == Hull(JoinOf(p, idxs, ranges), EvalConstraint(p, p.constraints[i], ranges))
  {
    assert (idxs + [i])[..|idxs + [i]| - 1] == idxs;
  }

  lemma {:induction false} JoinIsInflow(p: Problem, k: nat, v: VarId, ranges: seq<Range>)
    requires p.Valid() && |ranges| == p.Size() && k <= |p.constraints|
    ensures JoinOf(p, Into(p, k, v), ranges) == Inflow(p, k, v, ranges)
  {
    if k > 0 {
      JoinIsInflow(p, k - 1, v, ranges);
      if p.canon[p.constraints[k - 1].target] == v {
        JoinSnoc(p, Into(p, k - 1, v), k - 1, ranges);
      } else {
        assert Into(p, k, v) == Into(p, k - 1, v);
      }
    }
  }

  // The table from variables to the constraints into them, over the first `k` constraints.
  ghost predicate IndexedAt(p: Problem, k: nat, byRhs: map<VarId, seq<nat>>, v: VarId)
    requires p.Valid() && k <= |p.constraints|
  {
    (if v in byRhs then byRhs[v] else []) == Into(p, k, v)
  }

  ghost predicate Indexed(p: Problem, k: nat, byRhs: map<VarId, seq<nat>>)
    requires p.Valid() && k <= |p.constraints|
  {
    forall v: VarId {:trigger IndexedAt(p, k, byRhs, v)} :: IndexedAt(p, k, byRhs, v)
  }

  // The lookup tables `solve` builds are right about `v` ...
  ghost predicate TablesAt(p: Problem, byRhs: map<VarId, seq<nat>>, isFixed: seq<bool>, hardLo: map<VarId, int>,
                           v: VarId)
    requires p.Valid() && |isFixed| == p.Size()
  {
    && IndexedAt(p, |p.constraints|, byRhs, v)
    && (v < p.Size() ==> (isFixed[v] <==> Pin(p, v).Some?))
    && (if v in hardLo then Some(hardLo[v]) else None) == Floor(p, v)
  }

  // ... and about every other variable.
  ghost predicate Tables(p: Problem, byRhs: map<VarId, seq<nat>>, isFixed: seq<bool>, hardLo: map<VarId, int>)
    requires p.Valid()
  {
    && |isFixed| == p.Size()
    && forall v: VarId {:trigger TablesAt(p, byRhs, isFixed, hardLo, v)} :: TablesAt(p, byRhs, isFixed, hardLo, v)
  }

  method EvalTermAt(p: Problem, t: Term, ranges: array<Range>) returns (acc: Range)
    requires p.Valid() && ranges.Length == p.Size() && t.VarsBelow(p.Size())
    ensures acc == EvalTerm(p, t, ranges[..])
  {
    acc := Singleton(t.konst);
    for k := 0 to |t.terms|
      invariant acc == EvalSlots(p, t.terms[..k], t.konst, ranges[..])
    {
      assert t.terms[..k + 1][..k] == t.terms[..k];
      acc := Add(acc, Mul(t.terms[k].coeff, ranges[p.canon[t.terms[k].v]]));
    }
    assert t.terms[..|t.terms|] == t.terms;
  }

  method EvalConstraintAt(p: Problem, c: Constraint, ranges: array<Range>) returns (acc: Range)
    requires p.Valid() && ranges.Length == p.Size() && ConstraintBelow(c, p.Size())
    ensures acc == EvalConstraint(p, c, ranges[..])
  {
    match c
    case Subset(lhs, _) =>
      acc := EvalTermAt(p, lhs, ranges);
    case MinSubset(items, _) =>
      acc := Singleton(INF);
      for k := 0 to |items|
        invariant acc == EvalItems(p, items[..k], ranges[..])
      {
        assert items[..k + 1][..k] == items[..k];
        var r := match items[k] case MinConst(n) => Singleton(n) case MinTerm(c, v) => Mul(c, ranges[p.canon[v]]);
        acc := RMin(acc, r);
      }
      assert items[..|items|] == items;
  }

  method JoinAll(p: Problem, idxs: seq<nat>, ranges: array<Range>) returns (acc: Range)
    requires p.Valid() && ranges.Length == p.Size() && forall i :: 0 <= i < |idxs| ==> idxs[i] < |p.constraints|
    ensures acc == JoinOf(p, idxs, ranges[..])
  {
    acc := EMPTY;
    for k := 0 to |idxs|
      invariant acc == JoinOf(p, idxs[..k], ranges[..])
    {
      JoinSnoc(p, idxs[..k], idxs[k], ranges[..]);
      assert idxs[..k + 1] == idxs[..k] + [idxs[k]];
      var r := EvalConstraintAt(p, p.constraints[idxs[k]], ranges);
      acc := Hull(acc, r);
    }
    assert idxs[..|idxs|] == idxs;
  }

  // Recompute the join of everything that flows into `v`, and raise it to `v`'s floor.
  method Recompute(p: Problem, v: VarId, byRhs: map<VarId, seq<nat>>, ghost isFixed: seq<bool>, hardLo: map<VarId, int>,
                   ranges: array<Range>) returns (acc: Range)
    requires p.Valid() && Tables(p, byRhs, isFixed, hardLo) && ranges.Length == p.Size() && v < p.Size()
    ensures acc == Apply(p, v, ranges[..])
  {
    assert TablesAt(p, byRhs, isFixed, hardLo, v);
    JoinIsInflow(p, |p.constraints|, v, ranges[..]);
    acc := EMPTY;
    if v in byRhs {
      acc := JoinAll(p, byRhs[v], ranges);
    }
    if v in hardLo && !acc.IsEmpty() && acc.lo < hardLo[v] {
      acc := Range(hardLo[v], acc.hi);
    }
  }

  // Visit one variable; `was` is its range at the start of the round.
  method VisitOne(p: Problem, v: VarId, wide: bool, was: Range, byRhs: map<VarId, seq<nat>>, isFixed: seq<bool>,
                  hardLo: map<VarId, int>, ranges: array<Range>) returns (changed: bool)
    requires p.Valid() && Tables(p, byRhs, isFixed, hardLo) && ranges.Length == p.Size() && v < p.Size()
    modifies ranges
    ensures ranges[..] == old(ranges[..])[v := Visit(p, v, wide, was, old(ranges[..]))]
    ensures changed <==> Visit(p, v, wide, was, old(ranges[..])) != old(ranges[v])
  {
    changed := false;
    assert TablesAt(p, byRhs, isFixed, hardLo, v);
    if !isFixed[v] {
      var acc := Recompute(p, v, byRhs, isFixed, hardLo, ranges);
      if wide && !was.IsEmpty() {
        var hi := if acc.hi > was.hi then INF else acc.hi;
        var lo := if acc.lo < was.lo then NEGINF else acc.lo;
        acc := Range(lo, hi);
      }
      if acc != ranges[v] {
        ranges[v] := acc;
        changed := true;
      }
    }
  }

  // One round: visit every variable of the component in turn.
  method RunRound(p: Problem, comp: seq<VarId>, wide: bool, byRhs: map<VarId, seq<nat>>, isFixed: seq<bool>,
                  hardLo: map<VarId, int>, ranges: array<Range>) returns (changed: bool)
    requires p.Valid() && Vars(p, comp) && Tables(p, byRhs, isFixed, hardLo) && ranges.Length == p.Size()
    modifies ranges
    ensures ranges[..] == Round(p, comp, wide, old(ranges[..]))
    ensures !changed <==> ranges[..] == old(ranges[..])
  {
    ghost var start := ranges[..];
    var prev := map v | v in comp :: ranges[v];
    changed := false;
    ghost var mover := 0;
    for k := 0 to |comp|
      invariant ranges[..] == PassTo(p, comp, k, wide, start)
      invariant !changed ==> ranges[..] == start
      invariant changed ==> 0 <= mover < k && ranges[comp[mover]] != start[comp[mover]]
    {
      var v := comp[k];
      ghost var before := ranges[..];
      PassReaches(p, comp, k, wide, start);
      var moved := VisitOne(p, v, wide, prev[v], byRhs, isFixed, hardLo, ranges);
      assert changed ==> ranges[comp[mover]] == before[comp[mover]];
      if moved && !changed {
        mover := k;
      }
      changed := changed || moved;
    }
  }

  lemma PassReaches(p: Problem, comp: seq<VarId>, k: nat, wide: bool, start: seq<Range>)
    requires p.Valid() && Vars(p, comp) && |start| == p.Size() && k < |comp|
    ensures PassTo(p, comp, k, wide, start)[comp[k]] == start[comp[k]]
    ensures PassTo(p, comp, k + 1, wide, start) ==
            PassTo(p, comp, k, wide, start)[comp[k] :=
              Visit(p, comp[k], wide, start[comp[k]], PassTo(p, comp, k, wide, start))]
  {
    assert comp[k] !in comp[..k];
    PassFrame(p, comp, k, wide, start, comp[k]);
  }

  /** `solve_component`: round after round until nothing changes, at most `MAX_ITERS` times. The result
      is that of all `MAX_ITERS` rounds, whichever exit is taken; the early exit is `Converges`. */
  method SolveComponent(p: Problem, comp: seq<VarId>, byRhs: map<VarId, seq<nat>>, isFixed: seq<bool>,
                        hardLo: map<VarId, int>, ranges: array<Range>)
    returns (ghost converged: bool, ghost passes: nat)
    requires p.Valid() && Vars(p, comp) && Tables(p, byRhs, isFixed, hardLo) && ranges.Length == p.Size()
    modifies ranges
    ensures ranges[..] == Rounds(p, comp, MAX_ITERS, old(ranges[..]))
    ensures converged <==> Converges(p, comp, old(ranges[..]))
    ensures forall k ::
              0 <= k < MAX_ITERS && Rounds(p, comp, k + 1, old(ranges[..])) == Rounds(p, comp, k, old(ranges[..])) ==>
                passes <= k + 1
  {
    ghost var start := ranges[..];
    converged, passes := false, 0;
    for iter := 0 to MAX_ITERS
      invariant ranges[..] == Rounds(p, comp, iter, start) && passes == iter && !converged
      invariant forall k :: 0 <= k < iter ==> Rounds(p, comp, k + 1, start) != Rounds(p, comp, k, start)
    {
      var changed := RunRound(p, comp, iter > 0, byRhs, isFixed, hardLo, ranges);
      passes := passes + 1;
      if !changed {
        converged := true;
        StaysStill(p, comp, iter, MAX_ITERS, start);
        break;
      }
    }
  }
}
