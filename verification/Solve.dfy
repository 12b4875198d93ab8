/**
 The methods of `solve` (src/solver.rs): they build the tables and the influence graph, put the components in
 order, run the component loops over one shared array of ranges, and evaluate the queries.
 */
module Solve {
  import opened Ranges
  import opened Terms
  import opened Problems
  import opened Components
  import opened Graphs
  import opened Solver
  import Depends
  import Kahn
  import Tarjan

  datatype QueryResult = QueryResult(kind: QueryKind, aRange: Range, bRange: Range, depends: seq<string>)

  // The query asserts a >= b; it fails unless the least of `a` is at least the greatest of `b`.
  predicate Fails(p: Problem, q: Query, ranges: seq<Range>)
    requires p.Valid() && |ranges| == p.Size() && q.a.VarsBelow(p.Size()) && q.b.VarsBelow(p.Size())
  {
    !EpGe(EvalTerm(p, q.a, ranges).lo, EvalTerm(p, q.b, ranges).hi)
  }

  // The failed ones among the first `k` queries, in order.
  function Failures(p: Problem, k: nat, ranges: seq<Range>): (r: seq<Query>)
    requires p.Valid() && |ranges| == p.Size() && k <= |p.queries|
    ensures forall i :: 0 <= i < |r| ==> r[i].a.VarsBelow(p.Size()) && r[i].b.VarsBelow(p.Size())
  {
    if k == 0 then []
    else Failures(p, k - 1, ranges) + (if Fails(p, p.queries[k - 1], ranges) then [p.queries[k - 1]] else [])
  }

  // The trace of a query: at most eight of the names met in the backward closure of its variables.
  ghost predicate Traced(p: Problem, q: Query, shown: seq<string>)
    requires p.Valid() && q.a.VarsBelow(p.Size()) && q.b.VarsBelow(p.Size())
  {
    exists names: seq<string>, seen: set<VarId> :: Depends.TraceOf(p, q.a, q.b, shown, names, seen)
  }

  // A result names the query, and carries the ranges of its sides and its trace.
  ghost predicate ReportsOn(p: Problem, q: Query, ranges: seq<Range>, r: QueryResult)
    requires p.Valid() && |ranges| == p.Size() && q.a.VarsBelow(p.Size()) && q.b.VarsBelow(p.Size())
  {
    r.kind == q.kind && r.aRange == EvalTerm(p, q.a, ranges) && r.bRange == EvalTerm(p, q.b, ranges)
      && Traced(p, q, r.depends)
  }

  // One result for each failure among the first `k` queries, in order.
  ghost predicate ReportsTo(p: Problem, k: nat, ranges: seq<Range>, results: seq<QueryResult>)
    requires p.Valid() && |ranges| == p.Size() && k <= |p.queries|
  {
    var failures := Failures(p, k, ranges);
    |results| == |failures| && forall i :: 0 <= i < |results| ==> ReportsOn(p, failures[i], ranges, results[i])
  }

  ghost predicate Reports(p: Problem, ranges: seq<Range>, results: seq<QueryResult>)
    requires p.Valid() && |ranges| == p.Size()
  {
    ReportsTo(p, |p.queries|, ranges, results)
  }

  // ----- tables -----

  method BuildPins(p: Problem) returns (ranges: array<Range>, isFixed: seq<bool>)
    requires p.Valid()
    ensures fresh(ranges) && ranges[..] == Start(p)
    ensures |isFixed| == p.Size() && forall v :: 0 <= v < p.Size() ==> (isFixed[v] <==> Pin(p, v).Some?)
    ensures forall i :: 0 <= i < |p.fixed| && LastOn(p, p.fixed, i) ==> ranges[p.canon[p.fixed[i].0]] == p.fixed[i].1
    ensures forall v :: 0 <= v < p.Size() ==>
              (isFixed[v] <==> exists i :: 0 <= i < |p.fixed| && p.canon[p.fixed[i].0] == v)
  {
    var n := p.Size();
    ranges := new Range[n](_ => EMPTY);
    var fixed := new bool[n](_ => false);
    for k := 0 to |p.fixed|
      invariant forall v :: 0 <= v < n ==>
                  && fixed[v] == PinAmong(p, p.fixed[..k], v).Some?
                  && ranges[v] == match PinAmong(p, p.fixed[..k], v) case Some(pin) => pin case None => EMPTY
    {
      var cv := p.canon[p.fixed[k].0];
      ranges[cv] := p.fixed[k].1;
      fixed[cv] := true;
      assert p.fixed[..k + 1][..k] == p.fixed[..k];
    }
    assert p.fixed[..|p.fixed|] == p.fixed;
    isFixed := fixed[..];
    assert ranges[..] == Start(p);
    forall i | 0 <= i < |p.fixed| && LastOn(p, p.fixed, i)
      ensures ranges[p.canon[p.fixed[i].0]] == p.fixed[i].1
    {
      LastPinWins(p, p.fixed, i);
    }
    forall v | 0 <= v < p.Size()
      ensures isFixed[v] <==> exists i :: 0 <= i < |p.fixed| && p.canon[p.fixed[i].0] == v
    {
      PinIsListed(p, p.fixed, v);
    }
  }

  function Lookup(hardLo: map<VarId, int>, v: VarId): Option<int> {
    if v in hardLo then Some(hardLo[v]) else None
  }

  method BuildFloors(p: Problem) returns (hardLo: map<VarId, int>)
    requires p.Valid()
    ensures forall v: VarId :: Lookup(hardLo, v) == Floor(p, v)
  {
    hardLo := map[];
    for k := 0 to |p.hardLo|
      invariant forall v: VarId :: Lookup(hardLo, v) == FloorAmong(p, p.hardLo[..k], v)
    {
      var cv, c := p.canon[p.hardLo[k].0], p.hardLo[k].1;
      var e := if cv in hardLo then hardLo[cv] else NEGINF;
      ghost var before := hardLo;
      hardLo := hardLo[cv := if c > e then c else e];
      forall v: VarId ensures Lookup(hardLo, v) == FloorAmong(p, p.hardLo[..k + 1], v) {
        assert Lookup(before, v) == FloorAmong(p, p.hardLo[..k], v);
        FloorNext(p, k, v);
      }
    }
    assert p.hardLo[..|p.hardLo|] == p.hardLo;
  }

  lemma FloorNext(p: Problem, k: nat, v: VarId)
    requires p.Valid() && k < |p.hardLo|
    ensures FloorAmong(p, p.hardLo[..k + 1], v) ==
            var before := FloorAmong(p, p.hardLo[..k], v);
            var was := if before.Some? then before.value else NEGINF;
            if p.canon[p.hardLo[k].0] == v then Some(Max(was, p.hardLo[k].1)) else before
  {
    assert p.hardLo[..k + 1][..k] == p.hardLo[..k];
  }

  // An influence edge due to the first `k` constraints.
  ghost predicate FeedsBy(p: Problem, k: nat, u: VarId, v: VarId)
    requires p.Valid() && k <= |p.constraints|
  {
    exists i :: 0 <= i < k && p.canon[p.constraints[i].target] == v && Reads(p, p.constraints[i], u)
  }

  // One entry for every occurrence of `u` among the first `n` variables that constraint `c` reads.
  function Hits(p: Problem, c: Constraint, n: nat, u: VarId): seq<VarId>
    requires p.Valid() && ConstraintBelow(c, p.Size()) && n <= |LhsVars(c)|
  {
    LhsBelow(c, p.Size());
    if n == 0 then []
    else Hits(p, c, n - 1, u) + (if p.canon[LhsVars(c)[n - 1]] == u then [p.canon[c.target]] else [])
  }

  // The successors of `u`, in the order the first `k` constraints list them.
  function Successors(p: Problem, k: nat, u: VarId): seq<VarId>
    requires p.Valid() && k <= |p.constraints|
  {
    if k == 0 then []
    else
      var c := p.constraints[k - 1];
      Successors(p, k - 1, u) + Hits(p, c, |LhsVars(c)|, u)
  }

  // `g` is the influence graph of the first `k` constraints, successor lists in order.
  ghost predicate Influence(p: Problem, k: nat, g: Graph)
    requires p.Valid() && k <= |p.constraints|
  {
    && |g| == p.Size() && WellFormed(g)
    && (forall u: VarId, v: VarId {:trigger FeedsBy(p, k, u, v)} {:trigger Edge(g, u, v)} ::
          Edge(g, u, v) <==> FeedsBy(p, k, u, v))
    && (forall u :: 0 <= u < |g| ==> g[u] == Successors(p, k, u))
  }

  lemma {:induction false} HitsAreReads(p: Problem, c: Constraint, n: nat, u: VarId, v: VarId)
    requires p.Valid() && ConstraintBelow(c, p.Size()) && n <= |LhsVars(c)|
    ensures v in Hits(p, c, n, u) <==>
            v == p.canon[c.target] && exists i {:trigger LhsVars(c)[i]} ::
              0 <= i < n && LhsVars(c)[i] < p.Size() && p.canon[LhsVars(c)[i]] == u
  {
    LhsBelow(c, p.Size());
    if n > 0 {
      HitsAreReads(p, c, n - 1, u, v);
    }
  }

  // Add an edge from every variable that constraint `c` reads to `rhs`.
  method AddEdges(p: Problem, c: Constraint, rhs: VarId, succ: array<seq<VarId>>)
    requires p.Valid() && ConstraintBelow(c, p.Size()) && rhs == p.canon[c.target] && succ.Length == p.Size()
    modifies succ
    ensures forall u :: 0 <= u < p.Size() ==> succ[u] == old(succ[u]) + Hits(p, c, |LhsVars(c)|, u)
  {
    LhsBelow(c, p.Size());
    var vars := LhsVars(c);
    for k := 0 to |vars|
      invariant forall u :: 0 <= u < p.Size() ==> succ[u] == old(succ[u]) + Hits(p, c, k, u)
    {
      var w := p.canon[vars[k]];
      succ[w] := succ[w] + [rhs];
    }
  }

  method BuildInfluence(p: Problem) returns (byRhs: map<VarId, seq<nat>>, g: Graph)
    requires p.Valid()
    ensures Indexed(p, |p.constraints|, byRhs)
    ensures Influence(p, |p.constraints|, g)
  {
    var succ := new seq<VarId>[p.Size()](_ => []);
    byRhs := map[];
    for k := 0 to |p.constraints|
      invariant Indexed(p, k, byRhs)
      invariant Influence(p, k, succ[..])
    {
      var c := p.constraints[k];
      var rhs := p.canon[c.target];
      ghost var before := byRhs;
      byRhs := byRhs[rhs := (if rhs in byRhs then byRhs[rhs] else []) + [k]];
      IndexNext(p, k, before, byRhs);
      ghost var g0 := succ[..];
      AddEdges(p, c, rhs, succ);
      InfluenceNext(p, k, g0, succ[..]);
    }
    g := succ[..];
  }

  lemma IndexNext(p: Problem, k: nat, byRhs: map<VarId, seq<nat>>, byRhs': map<VarId, seq<nat>>)
    requires p.Valid() && k < |p.constraints| && Indexed(p, k, byRhs)
    requires var rhs := p.canon[p.constraints[k].target];
             byRhs' == byRhs[rhs := (if rhs in byRhs then byRhs[rhs] else []) + [k]]
    ensures Indexed(p, k + 1, byRhs')
  {
    var next := k + 1;
    forall v: VarId ensures IndexedAt(p, next, byRhs', v) {
      assert IndexedAt(p, k, byRhs, v);
      assert Into(p, k, v) + [] == Into(p, k, v);
    }
  }

  lemma InfluenceNext(p: Problem, k: nat, g: Graph, g': Graph)
    requires p.Valid() && k < |p.constraints| && Influence(p, k, g) && |g'| == p.Size()
    requires var c := p.constraints[k]; forall u :: 0 <= u < |g| ==> g'[u] == g[u] + Hits(p, c, |LhsVars(c)|, u)
    ensures Influence(p, k + 1, g')
  {
    var c := p.constraints[k];
    LhsBelow(c, p.Size());
    forall u: VarId, v: VarId
      ensures Edge(g', u, v) <==> FeedsBy(p, k + 1, u, v)
      ensures Edge(g', u, v) ==> v < p.Size()
    {
      FeedsByNext(p, k, u, v);
      HitsAreReads(p, c, |LhsVars(c)|, u, v);
      assert Edge(g, u, v) <==> FeedsBy(p, k, u, v);
    }
    assert WellFormed(g') by {
      forall u, i | 0 <= u < |g'| && 0 <= i < |g'[u]| ensures g'[u][i] < |g'| {
        assert Edge(g', u, g'[u][i]);
      }
    }
  }

  lemma FeedsByNext(p: Problem, k: nat, u: VarId, v: VarId)
    requires p.Valid() && k < |p.constraints|
    ensures FeedsBy(p, k + 1, u, v) <==>
            FeedsBy(p, k, u, v) || (v == p.canon[p.constraints[k].target] && Reads(p, p.constraints[k], u))
  {
  }

  // ----- layers from the condensation -----

  ghost function PositionOf(order: seq<nat>, c: nat): (i: nat)
    requires c in order
    ensures i < |order| && order[i] == c
  {
    var i :| 0 <= i < |order| && order[i] == c;
    i
  }

  function Arrange(comps: seq<seq<VarId>>, order: seq<nat>): (cs: seq<seq<VarId>>)
    requires forall i :: 0 <= i < |order| ==> order[i] < |comps|
    ensures |cs| == |order|
  {
    seq(|order|, i requires 0 <= i < |order| => comps[order[i]])
  }

  ghost function Ranks(p: Problem, compOf: seq<int>, comps: seq<seq<VarId>>, order: seq<nat>): seq<nat>
    requires |compOf| == p.Size() && Kahn.Permutation(order, |comps|)
    requires forall v :: 0 <= v < p.Size() ==> 0 <= compOf[v] < |comps|
  {
    seq(p.Size(), v requires 0 <= v < p.Size() => PositionOf(order, compOf[v]))
  }

  // Components in Kahn's order are layers: nothing flows backwards.
  lemma ArrangedIsLayered(p: Problem, g: Graph, compOf: seq<int>, comps: seq<seq<VarId>>, order: seq<nat>)
    requires p.Valid() && Influence(p, |p.constraints|, g)
    requires Tarjan.Condensation(g, compOf, comps) && Kahn.Permutation(order, |comps|) && Kahn.Forward(g, compOf, order)
    ensures Layers(p, Arrange(comps, order), Ranks(p, compOf, comps, order))
  {
    var cs, rank := Arrange(comps, order), Ranks(p, compOf, comps, order);
    forall j, v | 0 <= j < |cs| && 0 <= v < p.Size() ensures v in cs[j] <==> rank[v] == j {
      if v in cs[j] { assert compOf[v] == order[j]; }
      if rank[v] == j { assert order[j] == compOf[v]; }
    }
    forall u, v | 0 <= u < p.Size() && 0 <= v < p.Size() && Feeds(p, u, v) ensures rank[u] <= rank[v] {
      assert FeedsBy(p, |p.constraints|, u, v) && Edge(g, u, v);
      var k :| 0 <= k < |g[u]| && g[u][k] == v;
      if compOf[u] != compOf[v] {
        assert Kahn.Crosses(g, compOf, compOf[u], compOf[v]);
        assert Kahn.Crosses(g, compOf, order[rank[u]], order[rank[v]]);
      }
    }
  }

  // Every component is strongly connected and stands in the order the search emits it: against the preorder.
  ghost predicate Emission(g: Graph, cs: seq<seq<VarId>>) {
    && (forall j :: 0 <= j < |cs| ==> cs[j] != [])
    && (forall j, u, v :: 0 <= j < |cs| && u in cs[j] && v in cs[j] ==> Reach(g, u, v))
    && exists order :: Tarjan.Preorder(g, order) && Tarjan.Falling(order, cs)
  }

  lemma ArrangedIsEmitted(g: Graph, compOf: seq<int>, comps: seq<seq<VarId>>, order: seq<nat>, number: seq<int>)
    requires Tarjan.Condensation(g, compOf, comps) && forall i :: 0 <= i < |order| ==> order[i] < |comps|
    requires Tarjan.Preorder(g, number) && Tarjan.Falling(number, comps)
    ensures Emission(g, Arrange(comps, order))
  {
    var cs := Arrange(comps, order);
    assert Tarjan.Falling(number, cs);
    forall j, u, v | 0 <= j < |cs| && u in cs[j] && v in cs[j] ensures Reach(g, u, v) {
      assert compOf[u] == order[j] == compOf[v];
    }
  }

  // Every component is a single variable.
  ghost predicate Single(cs: seq<seq<VarId>>) {
    forall j :: 0 <= j < |cs| ==> |cs[j]| == 1
  }

  // The only cycles are edges from a vertex to itself.
  ghost predicate OnlySelfCycles(g: Graph) {
    forall u: nat, v: nat {:trigger Edge(g, u, v)} :: Edge(g, u, v) && u != v ==> !Reach(g, v, u)
  }

  // A path to another vertex leaves the first one for good somewhere.
  lemma FirstStep(g: Graph, u: nat, v: nat) returns (w: nat)
    requires WellFormed(g) && u < |g| && Reach(g, u, v) && u != v
    ensures Edge(g, u, w) && w != u && Reach(g, w, v)
  {
    var inside := {u} + set x: nat, k: nat | x < |g| && k < |g[u]| && g[u][k] != u && Reach(g, g[u][k], x) :: x;
    forall x: nat, y: nat | x in inside && Edge(g, x, y) ensures y in inside {
      if x == u {
        var k :| 0 <= k < |g[u]| && g[u][k] == y;
        ReachSelf(g, y);
        assert y == u || Reach(g, g[u][k], y);
      } else {
        var k :| 0 <= k < |g[u]| && g[u][k] != u && Reach(g, g[u][k], x);
        ReachEdge(g, x, y);
        ReachTransitive(g, g[u][k], x, y);
      }
    }
    assert Closed(g, inside) && v in inside;
    var k :| 0 <= k < |g[u]| && g[u][k] != u && Reach(g, g[u][k], v);
    w := g[u][k];
  }

  // Without longer cycles the search emits single variables.
  lemma OnlySelfCyclesIsSingle(g: Graph, cs: seq<seq<VarId>>)
    requires OnlySelfCycles(g) && Emission(g, cs)
    ensures Single(cs)
  {
    forall j | 0 <= j < |cs| ensures |cs[j]| == 1 {
      if |cs[j]| > 1 {
        var order :| Tarjan.Preorder(g, order) && Tarjan.Falling(order, cs);
        assert Tarjan.FallsIn(order, cs[j]);
        var u, v := cs[j][0], cs[j][1];
        assert order[u] > order[v];
        var w := FirstStep(g, u, v);
        ReachTransitive(g, w, v, u);
      }
    }
  }

  // No path leads from an edge's target back to its source.
  ghost predicate Acyclic(g: Graph) {
    forall u: nat, v: nat {:trigger Edge(g, u, v)} :: Edge(g, u, v) ==> !Reach(g, v, u)
  }

  lemma AcyclicIsDiscrete(p: Problem, g: Graph, cs: seq<seq<VarId>>)
    requires p.Valid() && Influence(p, |p.constraints|, g) && Acyclic(g) && Emission(g, cs)
    requires forall j :: 0 <= j < |cs| ==> Vars(p, cs[j])
    ensures Discrete(p, cs)
  {
    OnlySelfCyclesIsSingle(g, cs);
    forall j | 0 <= j < |cs| ensures !Feeds(p, cs[j][0], cs[j][0]) {
      var u := cs[j][0];
      ReachSelf(g, u);
      assert !Edge(g, u, u);
      assert !FeedsBy(p, |p.constraints|, u, u);
    }
  }

  // ----- solve -----

  // One more failing query, one more result.
  lemma ReportsNext(p: Problem, k: nat, ranges: seq<Range>, results: seq<QueryResult>, x: QueryResult)
    requires p.Valid() && |ranges| == p.Size() && k < |p.queries| && ReportsTo(p, k, ranges, results)
    requires Fails(p, p.queries[k], ranges) && ReportsOn(p, p.queries[k], ranges, x)
    ensures ReportsTo(p, k + 1, ranges, results + [x])
  {
    var failures := Failures(p, k, ranges);
    assert Failures(p, k + 1, ranges) == failures + [p.queries[k]];
    forall i | 0 <= i < |results + [x]|
      ensures ReportsOn(p, Failures(p, k + 1, ranges)[i], ranges, (results + [x])[i]) {
      if i < |results| { assert ReportsOn(p, failures[i], ranges, results[i]); }
    }
  }

  // One result for a query, if it fails.
  method EvaluateQuery(p: Problem, q: Query, byRhs: map<VarId, seq<nat>>, ranges: array<Range>)
    returns (r: Option<QueryResult>)
    requires p.Valid() && ranges.Length == p.Size() && q.a.VarsBelow(p.Size()) && q.b.VarsBelow(p.Size())
    requires Indexed(p, |p.constraints|, byRhs)
    ensures r.Some? <==> Fails(p, q, ranges[..])
    ensures r.Some? ==> ReportsOn(p, q, ranges[..], r.value)
  {
    var ar := EvalTermAt(p, q.a, ranges);
    var br := EvalTermAt(p, q.b, ranges);
    if EpGe(ar.lo, br.hi) { return None; }
    var shown, names, seen := Depends.BuildDepends(p, q.a, q.b, byRhs);
    assert Depends.TraceOf(p, q.a, q.b, shown, names, seen);
    r := Some(QueryResult(q.kind, ar, br, shown));
  }

  method EvaluateQueries(p: Problem, byRhs: map<VarId, seq<nat>>, ranges: array<Range>)
    returns (results: seq<QueryResult>)
    requires p.Valid() && ranges.Length == p.Size()
    requires Indexed(p, |p.constraints|, byRhs)
    ensures Reports(p, ranges[..], results)
  {
    results := [];
    for k := 0 to |p.queries|
      invariant ReportsTo(p, k, ranges[..], results)
    {
      var r := EvaluateQuery(p, p.queries[k], byRhs, ranges);
      if r.Some? {
        ReportsNext(p, k, ranges[..], results, r.value);
        results := results + [r.value];
      }
    }
  }

  method RunComponents(p: Problem, comps: seq<seq<VarId>>, order: seq<nat>, byRhs: map<VarId, seq<nat>>,
                       isFixed: seq<bool>,
                       hardLo: map<VarId, int>, ranges: array<Range>)
    requires p.Valid() && Tables(p, byRhs, isFixed, hardLo) && ranges.Length == p.Size()
    requires (forall i :: 0 <= i < |order| ==> order[i] < |comps|) && forall c :: 0 <= c < |comps| ==> Vars(p, comps[c])
    requires ranges[..] == Start(p)
    modifies ranges
    ensures ranges[..] == Final(p, Arrange(comps, order))
  {
    ghost var cs := Arrange(comps, order);
    for j := 0 to |order|
      invariant ranges[..] == RunTo(p, cs, j)
    {
      ghost var converged, passes := SolveComponent(p, comps[order[j]], byRhs, isFixed, hardLo, ranges);
    }
  }

  /** `solve`: the failed queries under the final ranges of a layered run over the problem. */
  method Solve(p: Problem)
    returns (results: seq<QueryResult>, ghost cs: seq<seq<VarId>>, ghost rank: seq<nat>, ghost g: Graph)
    requires p.Valid()
    ensures Influence(p, |p.constraints|, g)
    ensures Layers(p, cs, rank) && Emission(g, cs)
    ensures Acyclic(g) ==> Discrete(p, cs)
    ensures OnlySelfCycles(g) ==> Single(cs)
    ensures Reports(p, Final(p, cs), results)
  {
    var ranges, isFixed := BuildPins(p);
    var hardLo := BuildFloors(p);
    var byRhs, succ := BuildInfluence(p);
    g := succ;
    forall v: VarId ensures TablesAt(p, byRhs, isFixed, hardLo, v) {
      assert IndexedAt(p, |p.constraints|, byRhs, v) && Lookup(hardLo, v) == Floor(p, v);
    }
    var compOf, comps, number := Tarjan.TarjanScc(succ);
    var order, appended := Kahn.TopoOrder(comps, compOf[..], succ);
    ghost var c := compOf[..];
    ArrangedIsLayered(p, g, c, comps, order);
    cs, rank := Arrange(comps, order), Ranks(p, c, comps, order);
    ArrangedIsEmitted(g, c, comps, order, number);
    if Acyclic(g) { AcyclicIsDiscrete(p, g, cs); }
    if OnlySelfCycles(g) { OnlySelfCyclesIsSingle(g, cs); }
    forall c | 0 <= c < |comps| ensures Vars(p, comps[c]) {
      assert c in order;
      var i :| 0 <= i < |order| && order[i] == c;
      assert comps[c] == cs[i];
    }
    RunComponents(p, comps, order, byRhs, isFixed, hardLo, ranges);
    results := EvaluateQueries(p, byRhs, ranges);
  }
}
