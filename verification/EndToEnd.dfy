/**
 From a program to a promise about its runs: walk it, solve the constraints, read the reports. If no sum is skewed
 and no query blind, and the pins absorb what flows into them, then in a program without an overrun report no buffer
 ever holds, or is written, more bytes than were allocated for it, up to the first routine outside its guard.
 */
module EndToEnd {
  import opened Ranges
  import opened Terms
  import opened Problems
  import opened Graphs
  import opened Solver
  import opened Solve
  import opened Verdicts
  import opened Systems
  import opened Syntax
  import opened Generator
  import opened Walks
  import opened Pins
  import opened Soundness
  import Walker

  // The ranges of a result, as a function of all variables.
  function Assigning(p: Problem, r: seq<Range>): Assignment
    requires p.Valid() && |r| == p.Size()
  {
    (v: VarId) => if v < |p.canon| && p.canon[v] < |r| then r[p.canon[v]] else EMPTY
  }

  // No sum formed while evaluating a constraint is skewed, and no query compares two equal infinities.
  ghost predicate StraightResult(p: Problem, r: seq<Range>)
    requires p.Valid() && |r| == p.Size()
  {
    && (forall k :: 0 <= k < |p.queries| ==> Discerns(p, p.queries[k], r))
    && (forall i :: 0 <= i < |p.constraints| && p.constraints[i].Subset? ==>
          StraightSums(p.constraints[i].lhs.terms, p.constraints[i].lhs.konst, Assigning(p, r)))
  }

  ghost predicate Discerns(p: Problem, q: Query, r: seq<Range>)
    requires p.Valid() && |r| == p.Size()
  {
    q.a.VarsBelow(p.Size()) && q.b.VarsBelow(p.Size()) ==> !Blind(EvalTerm(p, q.a, r), EvalTerm(p, q.b, r))
  }

  // Every pin, and everything that flows into a pinned class, lies in the range of the class.
  ghost predicate PinsAbsorb(p: Problem, r: seq<Range>)
    requires p.Valid() && |r| == p.Size()
  {
    && (forall i :: 0 <= i < |p.fixed| ==> Leq(p.fixed[i].1, r[p.canon[p.fixed[i].0]]))
    && (forall i :: 0 <= i < |p.constraints| && Pin(p, p.canon[p.constraints[i].target]).Some? ==>
          Leq(EvalConstraint(p, p.constraints[i], r), r[p.canon[p.constraints[i].target]]))
  }

  // The pins of `top` absorb anything; only the size of an unsized array is pinned otherwise.
  lemma TopPinsAbsorb(p: Problem, r: seq<Range>)
    requires p.Valid() && Solution(p, r) && forall i :: 0 <= i < |p.fixed| ==> p.fixed[i].1 == TOP
    ensures PinsAbsorb(p, r)
  {
    forall i | 0 <= i < |p.fixed| ensures Leq(p.fixed[i].1, r[p.canon[p.fixed[i].0]]) {
      PinIsListed(p, p.fixed, p.canon[p.fixed[i].0]);
    }
    forall i | 0 <= i < |p.constraints| && Pin(p, p.canon[p.constraints[i].target]).Some?
      ensures Leq(EvalConstraint(p, p.constraints[i], r), r[p.canon[p.constraints[i].target]])
    {
      PinIsListed(p, p.fixed, p.canon[p.constraints[i].target]);
      EvalBounded(p, p.constraints[i], r);
    }
  }

  // Nor can anything flow past the pinned size of an unsized array that is only ever declared.
  lemma ClearPinsAbsorb(s: Sys, sizes: Sizes, r: seq<Range>)
    requires s.Valid() && SysClear(s, sizes) && Solution(s.Snapshot(), r)
    ensures PinsAbsorb(s.Snapshot(), r)
  {
    var p := s.Snapshot();
    forall i | 0 <= i < |p.fixed| ensures Leq(p.fixed[i].1, r[p.canon[p.fixed[i].0]]) {
      PinIsListed(p, p.fixed, p.canon[p.fixed[i].0]);
      PinOfClass(s, sizes, p.canon[p.fixed[i].0]);
      assert PinClear(s.fixed[i], sizes);
    }
    forall i | 0 <= i < |p.constraints| && Pin(p, p.canon[p.constraints[i].target]).Some?
      ensures Leq(EvalConstraint(p, p.constraints[i], r), r[p.canon[p.constraints[i].target]])
    {
      PinOfClass(s, sizes, p.canon[p.constraints[i].target]);
      EvalBounded(p, p.constraints[i], r);
    }
  }

  lemma {:induction false} SlotsAgree(p: Problem, slots: seq<Slot>, konst: int, r: seq<Range>)
    requires p.Valid() && |r| == p.Size() && forall k :: 0 <= k < |slots| ==> slots[k].v < p.Size()
    ensures EvalAt(slots, konst, Assigning(p, r)) == EvalSlots(p, slots, konst, r)
  {
    if slots != [] { SlotsAgree(p, slots[..|slots| - 1], konst, r); }
  }

  lemma {:induction false} ItemsAgree(p: Problem, items: seq<MinItem>, r: seq<Range>)
    requires p.Valid() && |r| == p.Size() && forall k :: 0 <= k < |items| && items[k].MinTerm? ==> items[k].v < p.Size()
    ensures ItemsAt(items, Assigning(p, r)) == EvalItems(p, items, r)
  {
    if items != [] { ItemsAgree(p, items[..|items| - 1], r); }
  }

  // A straight solution of the snapshot whose pins absorb is a straight solution of the system.
  lemma ResultSolves(s: Sys, r: seq<Range>)
    requires s.Valid() && s.hardLo == [] && Solution(s.Snapshot(), r)
    requires StraightResult(s.Snapshot(), r) && PinsAbsorb(s.Snapshot(), r)
    ensures Solves(Assigning(s.Snapshot(), r), s)
  {
    var p := s.Snapshot();
    var rho := Assigning(p, r);
    SolutionMeansSatisfied(p, r);
    forall i | 0 <= i < |s.constraints| ensures Satisfied(s.constraints[i], rho) {
      var c := p.constraints[i];
      assert ConstraintBelow(c, p.Size());
      match c
      case Subset(lhs, v) => SlotsAgree(p, lhs.terms, lhs.konst, r);
      case MinSubset(items, v) => ItemsAgree(p, items, r);
    }
  }

  // No failing overrun query about `x` under the ranges `r`.
  ghost predicate Unreported(p: Problem, x: string, r: seq<Range>)
    requires p.Valid() && |r| == p.Size()
  {
    forall q :: q in p.queries && q.kind == Overflow(x) ==> !Fails(p, q, r)
  }

  // The overrun query of a string variable, unreported, keeps its string and its writes within its size in every store.
  lemma UnreportedBufferIsSafe(f: Walk, p: Problem, r: seq<Range>, s: Store, x: string)
    requires Ready(f) && p == f.sys.Snapshot() && |r| == p.Size() && AllBounded(r) && StraightResult(p, r)
    requires Contains(Assigning(p, r), f, s) && x in s.strs && Unreported(p, x, r)
    ensures s.strs[x].Fits()
  {
    assert VarFits(f, x);
    var b, siz, len := s.strs[x], f.vars[x].siz.terms[0].v, f.vars[x].len.terms[0].v;
    var q := Query(VarTerm(siz), VarTerm(len), Overflow(x));
    assert q in p.queries;
    VarTermEvaluates(p, siz, r);
    VarTermEvaluates(p, len, r);
    if !b.Fits() {
      var n := if b.Len().Some? && b.Len().value > b.siz then b.Len().value else b.reach.value;
      assert Holds(EvalTerm(p, q.a, r), b.siz) && Holds(EvalTerm(p, q.b, r), n) && Discerns(p, q, r);
      PassedQueryBounds(p, q, r);
    }
  }

  // The walk of a body asks nothing of floors.
  lemma NoFloors(body: seq<Stmt>)
    ensures GenBody(body).sys.hardLo == []
  {
    var w := Walk(NEW, map[], map[], 0);
    DeclareLocalsKeeps(w, BlockLocals(body));
    var w1 := DeclareLocals(w, BlockLocals(body));
    GenBlockKeeps(w1, body);
  }

  // The problem a function body gives rise to.
  ghost function ProblemOf(body: seq<Stmt>): (p: Problem)
    ensures p.Valid() && p == GenBody(body).sys.Snapshot()
  {
    GenBodyIsReady(body);
    GenBody(body).sys.Snapshot()
  }

  // Every unsized array keeps the one size its literal gives it, and only variables are assigned to.
  ghost predicate SizesKept(body: seq<Stmt>) { exists names: Unsized :: BlockKeepsSizes(body, names) }

  // Then the pins absorb in every solution of the body's constraints.
  lemma BodyPinsAbsorb(body: seq<Stmt>, r: seq<Range>)
    requires SizesKept(body) && Solution(ProblemOf(body), r)
    ensures PinsAbsorb(ProblemOf(body), r)
  {
    var names :| BlockKeepsSizes(body, names);
    var sizes := GenBodyClear(body, names);
    GenBodyIsReady(body);
    ClearPinsAbsorb(GenBody(body).sys, sizes, r);
  }

  // The pins absorb, by the shape of the body or in the result itself.
  ghost predicate Absorbs(body: seq<Stmt>, r: seq<Range>)
    requires |r| == ProblemOf(body).Size()
  {
    SizesKept(body) || PinsAbsorb(ProblemOf(body), r)
  }

  // The buffer of `x` is never overrun: not in any store a run reaches before its first routine outside its guard,
  // whatever the input and however long it lasts.
  ghost predicate NeverOverrun(body: seq<Stmt>, x: string) {
    forall input: seq<int>, fuel: nat, i: nat ::
      i < |RunBody(body, input, fuel).trail| && x in RunBody(body, input, fuel).trail[i].strs ==>
        RunBody(body, input, fuel).trail[i].strs[x].Fits()
  }

  // The shared step: any straight solution below ranges that report nothing about `x` keeps `x` safe in every run.
  lemma SolutionKeepsRunsSafe(body: seq<Stmt>, r: seq<Range>, x: string)
    requires var p := ProblemOf(body);
             Solution(p, r) && StraightResult(p, r) && Absorbs(body, r) && Unreported(p, x, r)
    ensures NeverOverrun(body, x)
  {
    var f, p := GenBody(body), ProblemOf(body);
    if SizesKept(body) { BodyPinsAbsorb(body, r); }
    GenBodyIsReady(body);
    NoFloors(body);
    ResultSolves(f.sys, r);
    forall input: seq<int>, fuel: nat, i: nat
      | i < |RunBody(body, input, fuel).trail| && x in RunBody(body, input, fuel).trail[i].strs
      ensures RunBody(body, input, fuel).trail[i].strs[x].Fits()
    {
      EveryRunStaysInside(body, input, fuel, Assigning(p, r), i);
      UnreportedBufferIsSafe(f, p, r, RunBody(body, input, fuel).trail[i], x);
    }
  }

  // When every component loop leaves by `!changed`, an unreported buffer is never overrun.
  lemma ConvergedCleanVerdictIsSafe(body: seq<Stmt>, cs: seq<seq<VarId>>, rank: seq<nat>, x: string)
    requires var p := ProblemOf(body);
             && Layers(p, cs, rank) && AllConverge(p, cs)
             && StraightResult(p, Final(p, cs)) && Absorbs(body, Final(p, cs)) && Unreported(p, x, Final(p, cs))
    ensures NeverOverrun(body, x)
  {
    var p := ProblemOf(body);
    ConvergedRunIsFixpoint(p, cs, rank);
    FixpointIsSolution(p, Final(p, cs));
    SolutionKeepsRunsSafe(body, Final(p, cs), x);
  }

  // When some loops only settle without widening, the same holds as long as the least solution is straight.
  lemma SettledCleanVerdictIsSafe(body: seq<Stmt>, cs: seq<seq<VarId>>, rank: seq<nat>, x: string)
    requires var p := ProblemOf(body);
             && Layers(p, cs, rank) && AllSettle(p, cs)
             && StraightResult(p, LeastSolution(p)) && Absorbs(body, LeastSolution(p)) && Unreported(p, x, Final(p, cs))
    ensures NeverOverrun(body, x)
  {
    var p := ProblemOf(body);
    var l := LeastSolution(p);
    LeastSolutionIsLeast(p);
    SettledRunCoversLeast(p, cs, rank);
    RunBounded(p, cs, |cs|);
    forall q | q in p.queries && q.kind == Overflow(x) ensures !Fails(p, q, l) {
      var k :| 0 <= k < |p.queries| && p.queries[k] == q;
      if Fails(p, q, l) { FailsMonotone(p, q, l, Final(p, cs)); }
    }
    SolutionKeepsRunsSafe(body, l, x);
  }

  // ----- the analysis -----

  lemma {:induction false} FailingQueryIsReported(p: Problem, k: nat, j: nat, r: seq<Range>)
    requires p.Valid() && |r| == p.Size() && j < k <= |p.queries| && Fails(p, p.queries[j], r)
    ensures exists i :: 0 <= i < |Failures(p, k, r)| && Failures(p, k, r)[i] == p.queries[j]
  {
    if j == k - 1 {
      var n := |Failures(p, k - 1, r)|;
      assert Failures(p, k, r)[n] == p.queries[j];
    } else {
      FailingQueryIsReported(p, k - 1, j, r);
      var i :| 0 <= i < |Failures(p, k - 1, r)| && Failures(p, k - 1, r)[i] == p.queries[j];
      assert Failures(p, k, r)[i] == p.queries[j];
    }
  }

  // No report names `x`.
  ghost predicate Silent(results: seq<QueryResult>, x: string) {
    forall i :: 0 <= i < |results| ==> results[i].kind != Overflow(x)
  }

  lemma SilentMeansUnreported(p: Problem, r: seq<Range>, results: seq<QueryResult>, x: string)
    requires p.Valid() && |r| == p.Size() && Reports(p, r, results) && Silent(results, x)
    ensures Unreported(p, x, r)
  {
    forall q | q in p.queries && q.kind == Overflow(x) ensures !Fails(p, q, r) {
      var j :| 0 <= j < |p.queries| && p.queries[j] == q;
      if Fails(p, q, r) {
        FailingQueryIsReported(p, |p.queries|, j, r);
      }
    }
  }

  /** Walk a function body, solve its constraints, and return the reports. */
  method Analyse(body: seq<Stmt>)
    returns (results: seq<QueryResult>, ghost cs: seq<seq<VarId>>, ghost rank: seq<nat>, ghost g: Graph)
    ensures var p := ProblemOf(body); Layers(p, cs, rank) && Influence(p, |p.constraints|, g) && Emission(g, cs)
    ensures var p := ProblemOf(body); Reports(p, Final(p, cs), results)
    ensures var p := ProblemOf(body);
            AllConverge(p, cs) && StraightResult(p, Final(p, cs)) && Absorbs(body, Final(p, cs)) ==>
              forall x :: Silent(results, x) ==> NeverOverrun(body, x)
  {
    var walker := new Walker.Walker();
    walker.WalkBody(body);
    results, cs, rank, g := walker.sys.SolveAll();
    ghost var p := ProblemOf(body);
    if AllConverge(p, cs) && StraightResult(p, Final(p, cs)) && Absorbs(body, Final(p, cs)) {
      forall x | Silent(results, x) ensures NeverOverrun(body, x) {
        SilentMeansUnreported(p, Final(p, cs), results, x);
        ConvergedCleanVerdictIsSafe(body, cs, rank, x);
      }
    }
  }
}
