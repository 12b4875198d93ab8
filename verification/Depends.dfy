/** The dependency trace of a failed query (src/solver.rs, `build_depends`). */
module Depends {
  import opened Terms
  import opened Problems
  import opened Components

  // Closed under "is read by a constraint into a member".
  ghost predicate BackClosed(p: Problem, s: set<VarId>)
    requires p.Valid()
  {
    forall u, v {:trigger Feeds(p, u, v)} :: 0 <= u < p.Size() && v in s && Feeds(p, u, v) ==> u in s
  }

  function Roots(p: Problem, a: Term, b: Term): (r: seq<VarId>)
    requires p.Valid() && a.VarsBelow(p.Size()) && b.VarsBelow(p.Size())
    ensures forall i :: 0 <= i < |r| ==> r[i] < p.Size()
  {
    seq(|a.terms| + |b.terms|, i requires 0 <= i < |a.terms| + |b.terms| =>
      p.canon[if i < |a.terms| then a.terms[i].v else b.terms[i - |a.terms|].v])
  }

  // A back-closed set that contains the query's variables.
  ghost predicate Inside(p: Problem, roots: seq<VarId>, t: set<VarId>)
    requires p.Valid()
  {
    (forall i :: 0 <= i < |roots| ==> roots[i] in t) && BackClosed(p, t)
  }

  // The least such set.
  ghost predicate BackwardClosure(p: Problem, roots: seq<VarId>, s: set<VarId>)
    requires p.Valid()
  {
    Inside(p, roots, s) && forall t {:trigger Inside(p, roots, t)} :: Inside(p, roots, t) ==> s <= t
  }

  // The source name shown for a class: that of its first variable, if it has one, even when a later one is named.
  // `FirstOf` and `NameIsFirst` below say how it relates to the representative's name.
  function NameOf(p: Problem, v: VarId, from: nat): Option<string>
    requires p.Valid() && from <= p.Size()
    decreases p.Size() - from
  {
    if from == p.Size() then None
    else if p.canon[from] == v then p.names[from]
    else NameOf(p, v, from + 1)
  }

  ghost predicate Shown(p: Problem, s: set<VarId>, name: string)
    requires p.Valid()
  {
    name != "top" && exists v: VarId :: v in s && NameOf(p, v, 0) == Some(name)
  }

  ghost predicate NamesOf(p: Problem, s: set<VarId>, names: seq<string>)
    requires p.Valid()
  {
    && (forall name :: name in names <==> Shown(p, s, name))
    && (forall i, j :: 0 <= i < j < |names| ==> names[i] != names[j])
  }

  // The first variable of the class of `v`.
  function FirstOf(p: Problem, v: VarId, from: nat): (u: VarId)
    requires p.Valid() && from <= v < p.Size() && p.canon[v] == v
    ensures from <= u <= v && p.canon[u] == v && forall x :: from <= x < u ==> p.canon[x] != v
    decreases v - from
  {
    if p.canon[from] == v then from else FirstOf(p, v, from + 1)
  }

  // The name shown is the first member's; it is the representative's exactly when those two are named alike.
  lemma {:induction false} NameIsFirst(p: Problem, v: VarId, from: nat)
    requires p.Valid() && from <= v < p.Size() && p.canon[v] == v
    ensures NameOf(p, v, from) == p.names[FirstOf(p, v, from)]
    ensures NameOf(p, v, from) == p.names[v] <==> p.names[FirstOf(p, v, from)] == p.names[v]
    decreases v - from
  {
    if p.canon[from] != v { NameIsFirst(p, v, from + 1); }
  }

  // ----- the order of the visits -----

  // The representatives of what a constraint reads, as they are pushed.
  function ReadList(p: Problem, c: Constraint): (r: seq<VarId>)
    requires p.Valid() && ConstraintBelow(c, p.Size())
    ensures forall i :: 0 <= i < |r| ==> r[i] < p.Size()
  {
    LhsBelow(c, p.Size());
    seq(|LhsVars(c)|, i requires 0 <= i < |LhsVars(c)| => p.canon[LhsVars(c)[i]])
  }

  // What the constraints `idxs` push, in order.
  function FeederList(p: Problem, idxs: seq<nat>): (r: seq<VarId>)
    requires p.Valid() && forall i :: 0 <= i < |idxs| ==> idxs[i] < |p.constraints|
    ensures forall i :: 0 <= i < |r| ==> r[i] < p.Size()
  {
    if idxs == [] then []
    else FeederList(p, idxs[..|idxs| - 1]) + ReadList(p, p.constraints[idxs[|idxs| - 1]])
  }

  function Feeders(p: Problem, v: VarId): (r: seq<VarId>)
    requires p.Valid()
    ensures forall i :: 0 <= i < |r| ==> r[i] < p.Size()
  {
    FeederList(p, Into(p, |p.constraints|, v))
  }

  // The variables in the order they are first popped: depth first, the last feeder pushed first.
  ghost function Trace(p: Problem, stack: seq<VarId>, visited: set<VarId>): seq<VarId>
    requires p.Valid() && forall i :: 0 <= i < |stack| ==> stack[i] < p.Size()
    decreases Unseen(p.Size(), visited), |stack|
  {
    if stack == [] then []
    else
      var v, rest := stack[|stack| - 1], stack[..|stack| - 1];
      if v in visited then Trace(p, rest, visited)
      else
        UnseenDrops(p.Size(), visited, v);
        [v] + Trace(p, rest + Feeders(p, v), visited + {v})
  }

  // The names met along the visits, each at its first appearance.
  ghost function NamesAlong(p: Problem, order: seq<VarId>): seq<string>
    requires p.Valid()
  {
    if order == [] then []
    else AddName(NamesAlong(p, order[..|order| - 1]), NameOf(p, order[|order| - 1], 0))
  }

  function AddName(names: seq<string>, name: Option<string>): seq<string> {
    if name.Some? && name.value != "top" && name.value !in names then names + [name.value] else names
  }

  // What the trace of a query shows.
  ghost predicate TraceOf(p: Problem, a: Term, b: Term, shown: seq<string>, names: seq<string>, seen: set<VarId>)
    requires p.Valid() && a.VarsBelow(p.Size()) && b.VarsBelow(p.Size())
  {
    && BackwardClosure(p, Roots(p, a, b), seen) && NamesOf(p, seen, names)
    && names == NamesAlong(p, Trace(p, Roots(p, a, b), {}))
    && shown == names[..if |names| < 8 then |names| else 8]
  }

  method FindName(p: Problem, v: VarId) returns (name: Option<string>)
    requires p.Valid()
    ensures name == NameOf(p, v, 0)
  {
    for i := 0 to p.Size()
      invariant NameOf(p, v, 0) == NameOf(p, v, i)
    {
      if p.canon[i] == v { return p.names[i]; }
    }
    name := None;
  }

  lemma {:induction false} IntoLists(p: Problem, k: nat, v: VarId, i: nat)
    requires p.Valid() && k <= |p.constraints|
    ensures i in Into(p, k, v) <==> i < k && p.canon[p.constraints[i].target] == v
  {
    if k > 0 { IntoLists(p, k - 1, v, i); }
  }

  lemma ReadListIsReads(p: Problem, c: Constraint, u: VarId)
    requires p.Valid() && ConstraintBelow(c, p.Size())
    ensures u in ReadList(p, c) <==> Reads(p, c, u)
  {
    LhsBelow(c, p.Size());
    if Reads(p, c, u) {
      var k :| 0 <= k < |LhsVars(c)| && p.canon[LhsVars(c)[k]] == u;
      assert ReadList(p, c)[k] == u;
    }
  }

  // One of the constraints listed reads `u`.
  ghost predicate ReadAmong(p: Problem, idxs: seq<nat>, u: VarId)
    requires p.Valid() && forall i :: 0 <= i < |idxs| ==> idxs[i] < |p.constraints|
  {
    exists i :: 0 <= i < |idxs| && Reads(p, p.constraints[idxs[i]], u)
  }

  lemma ReadAmongSnoc(p: Problem, init: seq<nat>, last: nat, u: VarId)
    requires p.Valid() && last < |p.constraints| && forall i :: 0 <= i < |init| ==> init[i] < |p.constraints|
    ensures ReadAmong(p, init + [last], u) <==> ReadAmong(p, init, u) || Reads(p, p.constraints[last], u)
  {
    var idxs := init + [last];
    if ReadAmong(p, init, u) {
      var i :| 0 <= i < |init| && Reads(p, p.constraints[init[i]], u);
      assert idxs[i] == init[i];
    }
    if Reads(p, p.constraints[last], u) { assert idxs[|init|] == last; }
  }

  lemma {:induction false} FeederListIsReads(p: Problem, idxs: seq<nat>, u: VarId)
    requires p.Valid() && forall i :: 0 <= i < |idxs| ==> idxs[i] < |p.constraints|
    ensures u in FeederList(p, idxs) <==> ReadAmong(p, idxs, u)
  {
    if idxs != [] {
      var init, last := idxs[..|idxs| - 1], idxs[|idxs| - 1];
      FeederListIsReads(p, init, u);
      ReadListIsReads(p, p.constraints[last], u);
      ReadAmongSnoc(p, init, last, u);
      assert idxs == init + [last];
    }
  }

  // The feeders pushed for a variable are exactly the variables that feed it.
  lemma FeedersFeed(p: Problem, v: VarId, u: VarId)
    requires p.Valid()
    ensures u in Feeders(p, v) <==> Feeds(p, u, v)
  {
    var idxs := Into(p, |p.constraints|, v);
    FeederListIsReads(p, idxs, u);
    if u in Feeders(p, v) {
      var i :| 0 <= i < |idxs| && Reads(p, p.constraints[idxs[i]], u);
      IntoLists(p, |p.constraints|, v, idxs[i]);
    }
    if Feeds(p, u, v) {
      var i :| 0 <= i < |p.constraints| && p.canon[p.constraints[i].target] == v && Reads(p, p.constraints[i], u);
      IntoLists(p, |p.constraints|, v, i);
      var j :| 0 <= j < |idxs| && idxs[j] == i;
      assert Reads(p, p.constraints[idxs[j]], u);
    }
  }

  // Push the variables one constraint reads.
  method PushReads(p: Problem, c: Constraint, stack: seq<VarId>) returns (stack': seq<VarId>)
    requires p.Valid() && ConstraintBelow(c, p.Size())
    ensures stack' == stack + ReadList(p, c)
  {
    LhsBelow(c, p.Size());
    var vars := LhsVars(c);
    stack' := stack;
    for k := 0 to |vars|
      invariant stack' == stack + ReadList(p, c)[..k]
    {
      stack' := stack' + [p.canon[vars[k]]];
    }
  }

  // Push what the constraints `idxs` read.
  method PushAll(p: Problem, idxs: seq<nat>, stack: seq<VarId>) returns (stack': seq<VarId>)
    requires p.Valid() && forall i :: 0 <= i < |idxs| ==> idxs[i] < |p.constraints|
    ensures stack' == stack + FeederList(p, idxs)
  {
    stack' := stack;
    for k := 0 to |idxs|
      invariant stack' == stack + FeederList(p, idxs[..k])
    {
      FeederListNext(p, idxs, k);
      Associates(stack, FeederList(p, idxs[..k]), ReadList(p, p.constraints[idxs[k]]));
      stack' := PushReads(p, p.constraints[idxs[k]], stack');
    }
    assert idxs[..|idxs|] == idxs;
  }

  lemma FeederListNext(p: Problem, idxs: seq<nat>, k: nat)
    requires p.Valid() && k < |idxs| && forall i :: 0 <= i < |idxs| ==> idxs[i] < |p.constraints|
    ensures FeederList(p, idxs[..k + 1]) == FeederList(p, idxs[..k]) + ReadList(p, p.constraints[idxs[k]])
  {
    assert idxs[..k + 1][..k] == idxs[..k];
  }

  // Push everything that feeds `v`.
  method Expand(p: Problem, v: VarId, byRhs: map<VarId, seq<nat>>, stack: seq<VarId>) returns (stack': seq<VarId>)
    requires p.Valid() && Indexed(p, |p.constraints|, byRhs)
    ensures stack' == stack + Feeders(p, v)
  {
    assert IndexedAt(p, |p.constraints|, byRhs, v);
    if v in byRhs {
      stack' := PushAll(p, byRhs[v], stack);
    } else {
      stack' := stack;
    }
  }

  // Everything the trace must visit is visited or waits on the stack.
  ghost predicate Frontier(p: Problem, roots: seq<VarId>, visited: set<VarId>, stack: seq<VarId>)
    requires p.Valid()
  {
    && (forall v: VarId :: v in visited || v in stack ==> v < p.Size())
    && (forall i :: 0 <= i < |roots| ==> roots[i] in visited || roots[i] in stack)
    && (forall u: VarId, v: VarId {:trigger Feeds(p, u, v)} ::
          0 <= u < p.Size() && v in visited && Feeds(p, u, v) ==> u in visited || u in stack)
  }

  ghost predicate Covers(t: set<VarId>, visited: set<VarId>, stack: seq<VarId>) {
    visited <= t && forall v :: v in stack ==> v in t
  }

  // Nothing else is visited or waits.
  ghost predicate Needed(p: Problem, roots: seq<VarId>, visited: set<VarId>, stack: seq<VarId>)
    requires p.Valid()
  {
    forall t {:trigger Inside(p, roots, t)} :: Inside(p, roots, t) ==> Covers(t, visited, stack)
  }

  lemma VisitKeeps(p: Problem, roots: seq<VarId>, visited: set<VarId>, stack: seq<VarId>, v: VarId)
    requires p.Valid() && Frontier(p, roots, visited, stack + [v]) && Needed(p, roots, visited, stack + [v])
    ensures var pushed := stack + Feeders(p, v);
            Frontier(p, roots, visited + {v}, pushed) && Needed(p, roots, visited + {v}, pushed)
  {
    var pushed := stack + Feeders(p, v);
    forall u: VarId ensures u in pushed <==> u in stack || Feeds(p, u, v) { FeedersFeed(p, v, u); }
    assert forall u: VarId :: u in stack + [v] <==> u in stack || u == v;
    forall t | Inside(p, roots, t) ensures Covers(t, visited + {v}, pushed) {
      assert Covers(t, visited, stack + [v]);
    }
  }

  lemma SkipKeeps(p: Problem, roots: seq<VarId>, visited: set<VarId>, stack: seq<VarId>, v: VarId)
    requires p.Valid() && Frontier(p, roots, visited, stack + [v]) && Needed(p, roots, visited, stack + [v])
             && v in visited
    ensures Frontier(p, roots, visited, stack) && Needed(p, roots, visited, stack)
  {
    assert forall u: VarId :: u in stack + [v] <==> u in stack || u == v;
    forall t | Inside(p, roots, t) ensures Covers(t, visited, stack) {
      assert Covers(t, visited, stack + [v]);
    }
  }

  lemma EmptyStackCloses(p: Problem, roots: seq<VarId>, visited: set<VarId>)
    requires p.Valid() && Frontier(p, roots, visited, []) && Needed(p, roots, visited, [])
    ensures BackwardClosure(p, roots, visited)
  {
  }

  // The visits so far, and those still to come from the stack, are all the visits.
  ghost predicate Along(p: Problem, roots: seq<VarId>, visited: set<VarId>, stack: seq<VarId>, order: seq<VarId>,
                        names: seq<string>)
    requires p.Valid()
  {
    && (forall i :: 0 <= i < |stack| ==> stack[i] < p.Size()) && (forall i :: 0 <= i < |roots| ==> roots[i] < p.Size())
    && order + Trace(p, stack, visited) == Trace(p, roots, {}) && names == NamesAlong(p, order)
  }

  lemma TraceNext(p: Problem, stack: seq<VarId>, v: VarId, visited: set<VarId>)
    requires p.Valid() && v < p.Size() && forall i :: 0 <= i < |stack| ==> stack[i] < p.Size()
    ensures forall i :: 0 <= i < |stack + Feeders(p, v)| ==> (stack + Feeders(p, v))[i] < p.Size()
    ensures Trace(p, stack + [v], visited) ==
            if v in visited then Trace(p, stack, visited) else [v] + Trace(p, stack + Feeders(p, v), visited + {v})
  {
    assert (stack + [v])[|stack|] == v && (stack + [v])[..|stack|] == stack;
  }

  lemma VisitAlong(p: Problem, roots: seq<VarId>, visited: set<VarId>, stack: seq<VarId>, v: VarId, order: seq<VarId>,
                   names: seq<string>)
    requires p.Valid() && Along(p, roots, visited, stack + [v], order, names) && v !in visited
    ensures Along(p, roots, visited + {v}, stack + Feeders(p, v), order + [v], AddName(names, NameOf(p, v, 0)))
  {
    assert (stack + [v])[|stack|] == v && (stack + [v])[..|stack|] == stack;
    TraceNext(p, stack, v, visited);
    assert (order + [v])[..|order|] == order;
    Associates(order, [v], Trace(p, stack + Feeders(p, v), visited + {v}));
  }

  lemma SkipAlong(p: Problem, roots: seq<VarId>, visited: set<VarId>, stack: seq<VarId>, v: VarId, order: seq<VarId>,
                  names: seq<string>)
    requires p.Valid() && Along(p, roots, visited, stack + [v], order, names) && v in visited
    ensures Along(p, roots, visited, stack, order, names)
  {
    assert (stack + [v])[|stack|] == v && (stack + [v])[..|stack|] == stack;
    TraceNext(p, stack, v, visited);
  }

  lemma Associates(x: seq<VarId>, y: seq<VarId>, z: seq<VarId>)
    ensures x + (y + z) == (x + y) + z
  {
  }

  // What the search keeps: closure, names and order.
  ghost predicate Tracing(p: Problem, roots: seq<VarId>, visited: set<VarId>, stack: seq<VarId>, order: seq<VarId>,
                          names: seq<string>)
    requires p.Valid()
  {
    && Frontier(p, roots, visited, stack) && Needed(p, roots, visited, stack)
    && NamesOf(p, visited, names) && Along(p, roots, visited, stack, order, names)
  }

  lemma SkipTraces(p: Problem, roots: seq<VarId>, visited: set<VarId>, stack: seq<VarId>, v: VarId, order: seq<VarId>,
                   names: seq<string>)
    requires p.Valid() && Tracing(p, roots, visited, stack + [v], order, names) && v in visited
    ensures Tracing(p, roots, visited, stack, order, names)
  {
    SkipKeeps(p, roots, visited, stack, v);
    SkipAlong(p, roots, visited, stack, v, order, names);
  }

  lemma VisitTraces(p: Problem, roots: seq<VarId>, visited: set<VarId>, stack: seq<VarId>, v: VarId, order: seq<VarId>,
                    names: seq<string>)
    requires p.Valid() && Tracing(p, roots, visited, stack + [v], order, names) && v !in visited
    ensures v < p.Size()
    ensures Tracing(p, roots, visited + {v}, stack + Feeders(p, v), order + [v], AddName(names, NameOf(p, v, 0)))
  {
    assert v in stack + [v];
    VisitKeeps(p, roots, visited, stack, v);
    VisitAlong(p, roots, visited, stack, v, order, names);
    NamesExtend(p, visited, names, v, AddName(names, NameOf(p, v, 0)));
  }

  lemma TraceEnds(p: Problem, a: Term, b: Term, visited: set<VarId>, order: seq<VarId>, names: seq<string>)
    requires p.Valid() && a.VarsBelow(p.Size()) && b.VarsBelow(p.Size())
    requires Tracing(p, Roots(p, a, b), visited, [], order, names)
    ensures BackwardClosure(p, Roots(p, a, b), visited) && NamesOf(p, visited, names)
    ensures names == NamesAlong(p, Trace(p, Roots(p, a, b), {}))
  {
    EmptyStackCloses(p, Roots(p, a, b), visited);
    assert order + [] == order;
  }

  // The work still to do: unvisited variables first, then the stack.
  ghost predicate Shrinks(p: Problem, visited: set<VarId>, stack: seq<VarId>, visited': set<VarId>,
                          stack': seq<VarId>) {
    Unseen(p.Size(), visited') < Unseen(p.Size(), visited) || (visited' == visited && |stack'| < |stack|)
  }

  // Pop `v`, and visit it unless it has been.
  method VisitTop(p: Problem, ghost roots: seq<VarId>, visited: set<VarId>, rest: seq<VarId>, v: VarId,
                  ghost order: seq<VarId>, names: seq<string>, byRhs: map<VarId, seq<nat>>)
    returns (visited': set<VarId>, stack': seq<VarId>, names': seq<string>, ghost order': seq<VarId>)
    requires p.Valid() && Indexed(p, |p.constraints|, byRhs) && Tracing(p, roots, visited, rest + [v], order, names)
    ensures Tracing(p, roots, visited', stack', order', names') && Shrinks(p, visited, rest + [v], visited', stack')
  {
    visited', stack', names', order' := visited, rest, names, order;
    if v in visited {
      SkipTraces(p, roots, visited, rest, v, order, names);
    } else {
      VisitTraces(p, roots, visited, rest, v, order, names);
      UnseenDrops(p.Size(), visited, v);
      var nm := FindName(p, v);
      if nm.Some? && nm.value != "top" && nm.value !in names {
        names' := names + [nm.value];
      }
      stack' := Expand(p, v, byRhs, rest);
      visited', order' := visited + {v}, order + [v];
    }
  }

  lemma TraceStarts(p: Problem, a: Term, b: Term)
    requires p.Valid() && a.VarsBelow(p.Size()) && b.VarsBelow(p.Size())
    ensures Tracing(p, Roots(p, a, b), {}, Roots(p, a, b), [], [])
  {
  }

  // The work loop, until the stack is empty.
  method RunTrace(p: Problem, roots: seq<VarId>, byRhs: map<VarId, seq<nat>>)
    returns (names: seq<string>, ghost visited: set<VarId>, ghost order: seq<VarId>)
    requires p.Valid() && Indexed(p, |p.constraints|, byRhs) && Tracing(p, roots, {}, roots, [], [])
    ensures Tracing(p, roots, visited, [], order, names)
  {
    var seen: set<VarId>, stack: seq<VarId> := {}, roots;
    names := [];
    order := [];
    while stack != []
      invariant Tracing(p, roots, seen, stack, order, names)
      decreases Unseen(p.Size(), seen), |stack|
    {
      var v: VarId, rest: seq<VarId> := stack[|stack| - 1], stack[..|stack| - 1];
      assert stack == rest + [v];
      seen, stack, names, order := VisitTop(p, roots, seen, rest, v, order, names, byRhs);
    }
    visited := seen;
  }

  /** The trace visits exactly the backward closure of the query's variables, whatever cycles the system has,
      and lists the source names met there, each once and in depth-first order, at most the first eight. */
  method BuildDepends(p: Problem, a: Term, b: Term, byRhs: map<VarId, seq<nat>>)
    returns (shown: seq<string>, names: seq<string>, ghost seen: set<VarId>)
    requires p.Valid() && a.VarsBelow(p.Size()) && b.VarsBelow(p.Size())
    requires Indexed(p, |p.constraints|, byRhs)
    ensures TraceOf(p, a, b, shown, names, seen)
  {
    TraceStarts(p, a, b);
    ghost var order: seq<VarId>;
    names, seen, order := RunTrace(p, Roots(p, a, b), byRhs);
    TraceEnds(p, a, b, seen, order, names);
    shown := names[..if |names| < 8 then |names| else 8];
  }

  ghost function Unseen(n: nat, visited: set<VarId>): nat {
    if n == 0 then 0 else Unseen(n - 1, visited) + if n - 1 in visited then 0 else 1
  }

  lemma {:induction false} UnseenDrops(n: nat, visited: set<VarId>, v: VarId)
    requires v !in visited
    ensures Unseen(n, visited + {v}) == Unseen(n, visited) - if v < n then 1 else 0
  {
    if n > 0 { UnseenDrops(n - 1, visited, v); }
  }

  lemma NamesExtend(p: Problem, s: set<VarId>, names: seq<string>, v: VarId, names': seq<string>)
    requires p.Valid() && NamesOf(p, s, names)
    requires names' == AddName(names, NameOf(p, v, 0))
    ensures NamesOf(p, s + {v}, names')
  {
    forall name ensures name in names' <==> Shown(p, s + {v}, name) {
      if Shown(p, s, name) {
        var u :| u in s && NameOf(p, u, 0) == Some(name);
        assert u in s + {v};
      }
      if Shown(p, s + {v}, name) {
        var u :| u in s + {v} && NameOf(p, u, 0) == Some(name);
        assert u in s || u == v;
        if u in s { assert Shown(p, s, name); }
      }
      if NameOf(p, v, 0) == Some(name) && name != "top" { assert v in s + {v}; }
    }
  }

  // ----- the order, told from the constraints -----

  // The class that the left side of constraint `ci` reads at place `li`.
  ghost predicate ReadsAt(p: Problem, ci: nat, li: nat, v: VarId, u: VarId)
    requires p.Valid()
  {
    && ci < |p.constraints| && p.canon[p.constraints[ci].target] == v
    && ConstraintBelow(p.constraints[ci], p.Size()) && li < |LhsVars(p.constraints[ci])|
    && LhsVars(p.constraints[ci])[li] < p.Size() && p.canon[LhsVars(p.constraints[ci])[li]] == u
  }

  predicate After(ci: nat, li: nat, cj: nat, lj: nat) { cj > ci || (cj == ci && lj > li) }

  // `u` is visited, or waits above place `q` of the stack.
  predicate Ahead(order: seq<VarId>, stack: seq<VarId>, q: nat, u: VarId)
    requires q < |stack|
  {
    u in order || u in stack[q + 1..]
  }

  ghost predicate AllAhead(p: Problem, order: seq<VarId>, stack: seq<VarId>, q: nat, l: nat)
    requires p.Valid() && q < |stack| && l < |order|
  {
    forall u: VarId :: u < p.Size() && Feeds(p, u, order[l]) ==> Ahead(order, stack, q, u)
  }

  // The class at place `q` of the stack is term `i` of the query; every later term comes first, and so does whatever
  // feeds a visited class.
  ghost predicate AsRoot(p: Problem, ts: seq<Slot>, order: seq<VarId>, stack: seq<VarId>, q: nat, i: nat)
    requires p.Valid() && q < |stack| && forall j :: 0 <= j < |ts| ==> ts[j].v < p.Size()
  {
    && i < |ts| && p.canon[ts[i].v] == stack[q]
    && (forall j :: i < j < |ts| ==> Ahead(order, stack, q, p.canon[ts[j].v]))
    && (forall l :: 0 <= l < |order| ==> AllAhead(p, order, stack, q, l))
  }

  // It feeds the visited class `order[m]`, through place `li` of constraint `ci`; every later place comes first, and so
  // does whatever feeds a class visited after `order[m]`.
  ghost predicate AsFeeder(p: Problem, order: seq<VarId>, stack: seq<VarId>, q: nat, m: nat, ci: nat, li: nat)
    requires p.Valid() && q < |stack|
  {
    && m < |order| && ReadsAt(p, ci, li, order[m], stack[q])
    && (forall cj: nat, lj: nat, u: VarId :: ReadsAt(p, cj, lj, order[m], u) && After(ci, li, cj, lj) ==>
          Ahead(order, stack, q, u))
    && (forall l :: m < l < |order| ==> AllAhead(p, order, stack, q, l))
  }

  ghost predicate Awaits(p: Problem, ts: seq<Slot>, order: seq<VarId>, stack: seq<VarId>, q: nat)
    requires p.Valid() && q < |stack| && forall j :: 0 <= j < |ts| ==> ts[j].v < p.Size()
  {
    || (exists i: nat :: AsRoot(p, ts, order, stack, q, i))
    || (exists m: nat, ci: nat, li: nat :: AsFeeder(p, order, stack, q, m, ci, li))
  }

  // Place `j` of a list of visits is where depth-first search has it: nothing else waits any more.
  ghost predicate InTurn(p: Problem, ts: seq<Slot>, order: seq<VarId>, j: nat)
    requires p.Valid() && j < |order| && forall i :: 0 <= i < |ts| ==> ts[i].v < p.Size()
  {
    order[j] !in order[..j] && Awaits(p, ts, order[..j], [order[j]], 0)
  }

  // The places of the constraint last listed.
  lemma LastPlace(p: Problem, k: nat, v: VarId, li: nat)
    requires p.Valid() && k < |p.constraints| && p.canon[p.constraints[k].target] == v
    requires li < |ReadList(p, p.constraints[k])|
    ensures var last := ReadList(p, p.constraints[k]);
            && ReadsAt(p, k, li, v, last[li])
            && forall lj: nat, u: VarId :: ReadsAt(p, k, lj, v, u) && li < lj ==> u in last[li + 1..]
  {
    var last := ReadList(p, p.constraints[k]);
    LhsBelow(p.constraints[k], p.Size());
    forall lj: nat, u: VarId | ReadsAt(p, k, lj, v, u) && li < lj ensures u in last[li + 1..] {
      assert last[lj] == u && last[li + 1..][lj - li - 1] == u;
    }
  }

  lemma ReadIsListed(p: Problem, k: nat, lj: nat, v: VarId, u: VarId)
    requires p.Valid() && ReadsAt(p, k, lj, v, u)
    ensures u in ReadList(p, p.constraints[k])
  {
    assert ReadList(p, p.constraints[k])[lj] == u;
  }

  // Place `t` of the feeders is a place in a constraint, and the later places of the constraints come later.
  ghost predicate PlacedAt(p: Problem, k: nat, v: VarId, feeders: seq<VarId>, t: nat, ci: nat, li: nat)
    requires p.Valid() && t < |feeders|
  {
    && ci < k && ReadsAt(p, ci, li, v, feeders[t])
    && forall cj: nat, lj: nat, u: VarId :: cj < k && ReadsAt(p, cj, lj, v, u) && After(ci, li, cj, lj) ==>
         u in feeders[t + 1..]
  }

  lemma EarlierPlace(p: Problem, k: nat, v: VarId, init: seq<VarId>, t: nat, ci: nat, li: nat)
    requires p.Valid() && k < |p.constraints| && t < |init| && PlacedAt(p, k, v, init, t, ci, li)
    ensures PlacedAt(p, k + 1, v, init + ReadList(p, p.constraints[k]), t, ci, li)
  {
    var last := ReadList(p, p.constraints[k]);
    assert (init + last)[t + 1..] == init[t + 1..] + last;
    forall cj: nat, lj: nat, u: VarId | cj < k + 1 && ReadsAt(p, cj, lj, v, u) && After(ci, li, cj, lj)
      ensures u in (init + last)[t + 1..]
    {
      if cj == k { ReadIsListed(p, k, lj, v, u); }
    }
  }

  lemma LaterPlace(p: Problem, k: nat, v: VarId, init: seq<VarId>, li: nat)
    requires p.Valid() && k < |p.constraints| && p.canon[p.constraints[k].target] == v
    requires li < |ReadList(p, p.constraints[k])|
    ensures PlacedAt(p, k + 1, v, init + ReadList(p, p.constraints[k]), |init| + li, k, li)
  {
    var last := ReadList(p, p.constraints[k]);
    LastPlace(p, k, v, li);
    assert (init + last)[|init| + li + 1..] == last[li + 1..] && (init + last)[|init| + li] == last[li];
  }

  lemma SkippedPlace(p: Problem, k: nat, v: VarId, feeders: seq<VarId>, t: nat, ci: nat, li: nat)
    requires p.Valid() && k < |p.constraints| && p.canon[p.constraints[k].target] != v
    requires t < |feeders| && PlacedAt(p, k, v, feeders, t, ci, li)
    ensures PlacedAt(p, k + 1, v, feeders, t, ci, li)
  {
  }

  // What the first `k` constraints push for `v`.
  ghost function FeedersTo(p: Problem, k: nat, v: VarId): seq<VarId>
    requires p.Valid() && k <= |p.constraints|
  {
    FeederList(p, Into(p, k, v))
  }

  lemma FeedersToNext(p: Problem, k: nat, v: VarId)
    requires p.Valid() && k < |p.constraints|
    ensures FeedersTo(p, k + 1, v) ==
            FeedersTo(p, k, v) +
            (if p.canon[p.constraints[k].target] == v then ReadList(p, p.constraints[k]) else [])
  {
    var idxs := Into(p, k, v);
    if p.canon[p.constraints[k].target] == v {
      assert (idxs + [k])[..|idxs|] == idxs;
    } else {
      assert idxs + [] == idxs;
    }
  }

  lemma PlaceStays(p: Problem, k: nat, v: VarId, t: nat, ci: nat, li: nat)
    requires p.Valid() && k < |p.constraints| && t < |FeedersTo(p, k, v)|
    requires PlacedAt(p, k, v, FeedersTo(p, k, v), t, ci, li)
    ensures t < |FeedersTo(p, k + 1, v)| && PlacedAt(p, k + 1, v, FeedersTo(p, k + 1, v), t, ci, li)
  {
    var init := FeedersTo(p, k, v);
    FeedersToNext(p, k, v);
    if p.canon[p.constraints[k].target] == v {
      EarlierPlace(p, k, v, init, t, ci, li);
    } else {
      SkippedPlace(p, k, v, init, t, ci, li);
      assert init + [] == init;
    }
  }

  lemma PlaceAdded(p: Problem, k: nat, v: VarId, t: nat)
    requires p.Valid() && k < |p.constraints| && |FeedersTo(p, k, v)| <= t < |FeedersTo(p, k + 1, v)|
    ensures PlacedAt(p, k + 1, v, FeedersTo(p, k + 1, v), t, k, t - |FeedersTo(p, k, v)|)
  {
    FeedersToNext(p, k, v);
    LaterPlace(p, k, v, FeedersTo(p, k, v), t - |FeedersTo(p, k, v)|);
  }

  lemma SomeConstraint(p: Problem, k: nat, v: VarId)
    requires p.Valid() && k <= |p.constraints| && FeedersTo(p, k, v) != []
    ensures k > 0
  {
    assert FeedersTo(p, 0, v) == [];
  }

  lemma {:induction false} FeederPlace(p: Problem, k: nat, v: VarId, t: nat) returns (ci: nat, li: nat)
    requires p.Valid() && k <= |p.constraints| && t < |FeedersTo(p, k, v)|
    ensures PlacedAt(p, k, v, FeedersTo(p, k, v), t, ci, li)
  {
    SomeConstraint(p, k, v);
    var init: nat := k - 1;
    var before := |FeedersTo(p, init, v)|;
    if t < before {
      ci, li := FeederPlace(p, init, v, t);
      PlaceStays(p, init, v, t, ci, li);
    } else {
      ci, li := init, t - before;
      PlaceAdded(p, init, v, t);
    }
  }

  // Everything on the stack awaits its turn.
  ghost predicate AllAwait(p: Problem, ts: seq<Slot>, order: seq<VarId>, stack: seq<VarId>)
    requires p.Valid() && forall j :: 0 <= j < |ts| ==> ts[j].v < p.Size()
  {
    forall q :: 0 <= q < |stack| ==> Awaits(p, ts, order, stack, q)
  }

  // What is ahead of a place stays ahead when the top is visited, or skipped, and more is pushed.
  lemma StaysAhead(order: seq<VarId>, rest: seq<VarId>, v: VarId, order': seq<VarId>, more: seq<VarId>, q: nat,
                   u: VarId)
    requires q < |rest| && Ahead(order, rest + [v], q, u) && order <= order' && v in order'
    ensures Ahead(order', rest + more, q, u)
  {
    assert (rest + [v])[q + 1..] == rest[q + 1..] + [v];
    assert (rest + more)[q + 1..] == rest[q + 1..] + more;
  }

  lemma KeepsAwaiting(p: Problem, ts: seq<Slot>, order: seq<VarId>, rest: seq<VarId>, v: VarId, order': seq<VarId>,
                      more: seq<VarId>, q: nat)
    requires p.Valid() && q < |rest| && forall j :: 0 <= j < |ts| ==> ts[j].v < p.Size()
    requires Awaits(p, ts, order, rest + [v], q) && v in order'
    requires order' == order || (order' == order + [v] && more == Feeders(p, v))
    ensures Awaits(p, ts, order', rest + more, q)
  {
    forall u | Ahead(order, rest + [v], q, u) ensures Ahead(order', rest + more, q, u) {
      StaysAhead(order, rest, v, order', more, q, u);
    }
    forall l | |order| <= l < |order'| ensures AllAhead(p, order', rest + more, q, l) {
      forall u: VarId | u < p.Size() && Feeds(p, u, v) ensures Ahead(order', rest + more, q, u) {
        FeedersFeed(p, v, u);
        assert (rest + more)[q + 1..] == rest[q + 1..] + more;
      }
    }
    forall l | 0 <= l < |order| && AllAhead(p, order, rest + [v], q, l)
      ensures AllAhead(p, order', rest + more, q, l)
    {
      assert order'[l] == order[l];
    }
    assert (rest + [v])[q] == (rest + more)[q];
    if i: nat :| AsRoot(p, ts, order, rest + [v], q, i) {
      assert AsRoot(p, ts, order', rest + more, q, i);
    } else {
      var m: nat, ci: nat, li: nat :| AsFeeder(p, order, rest + [v], q, m, ci, li);
      assert order'[m] == order[m];
      assert AsFeeder(p, order', rest + more, q, m, ci, li);
    }
  }

  // What a visit pushes awaits its turn below the later feeders.
  lemma PushedAwaits(p: Problem, ts: seq<Slot>, order: seq<VarId>, rest: seq<VarId>, v: VarId, q: nat)
    requires p.Valid() && forall j :: 0 <= j < |ts| ==> ts[j].v < p.Size()
    requires |rest| <= q < |rest + Feeders(p, v)|
    ensures Awaits(p, ts, order + [v], rest + Feeders(p, v), q)
  {
    var stack, t, more := rest + Feeders(p, v), q - |rest|, Feeders(p, v);
    var ci, li := FeederPlace(p, |p.constraints|, v, t);
    assert stack[q + 1..] == more[t + 1..];
    assert (order + [v])[|order|] == v;
    assert AsFeeder(p, order + [v], stack, q, |order|, ci, li);
  }

  // At the top of the stack, whatever has to come first has been visited.
  lemma TopInTurn(p: Problem, ts: seq<Slot>, order: seq<VarId>, rest: seq<VarId>, v: VarId)
    requires p.Valid() && forall j :: 0 <= j < |ts| ==> ts[j].v < p.Size()
    requires Awaits(p, ts, order, rest + [v], |rest|)
    ensures Awaits(p, ts, order, [v], 0)
  {
    assert (rest + [v])[|rest| + 1..] == [] == [v][1..];
    assert forall u :: Ahead(order, rest + [v], |rest|, u) <==> Ahead(order, [v], 0, u);
    assert forall l :: 0 <= l < |order| ==>
                         (AllAhead(p, order, rest + [v], |rest|, l) <==> AllAhead(p, order, [v], 0, l));
    if i: nat :| AsRoot(p, ts, order, rest + [v], |rest|, i) {
      assert AsRoot(p, ts, order, [v], 0, i);
    } else {
      var m: nat, ci: nat, li: nat :| AsFeeder(p, order, rest + [v], |rest|, m, ci, li);
      assert AsFeeder(p, order, [v], 0, m, ci, li);
    }
  }

  // Skipping the top, or visiting it and pushing its feeders, keeps everything waiting for its turn.
  lemma SkipAwaits(p: Problem, ts: seq<Slot>, order: seq<VarId>, rest: seq<VarId>, v: VarId)
    requires p.Valid() && forall j :: 0 <= j < |ts| ==> ts[j].v < p.Size()
    requires AllAwait(p, ts, order, rest + [v]) && v in order
    ensures AllAwait(p, ts, order, rest)
  {
    forall q | 0 <= q < |rest| ensures Awaits(p, ts, order, rest, q) {
      assert Awaits(p, ts, order, rest + [v], q);
      KeepsAwaiting(p, ts, order, rest, v, order, [], q);
      assert rest + [] == rest;
    }
  }

  lemma VisitAwaits(p: Problem, ts: seq<Slot>, order: seq<VarId>, rest: seq<VarId>, v: VarId)
    requires p.Valid() && v < p.Size() && forall j :: 0 <= j < |ts| ==> ts[j].v < p.Size()
    requires AllAwait(p, ts, order, rest + [v]) && v !in order
    ensures AllAwait(p, ts, order + [v], rest + Feeders(p, v))
  {
    var pushed := rest + Feeders(p, v);
    forall q | 0 <= q < |pushed| ensures Awaits(p, ts, order + [v], pushed, q) {
      if q < |rest| {
        assert Awaits(p, ts, order, rest + [v], q);
        KeepsAwaiting(p, ts, order, rest, v, order + [v], Feeders(p, v), q);
      } else {
        PushedAwaits(p, ts, order, rest, v, q);
      }
    }
  }

  lemma {:induction false} TraceInTurn(p: Problem, ts: seq<Slot>, order: seq<VarId>, stack: seq<VarId>,
                                       visited: set<VarId>)
    requires p.Valid() && forall j :: 0 <= j < |ts| ==> ts[j].v < p.Size()
    requires (forall i :: 0 <= i < |stack| ==> stack[i] < p.Size()) && AllAwait(p, ts, order, stack)
    requires forall v :: v in order <==> v in visited
    ensures var all := order + Trace(p, stack, visited);
            forall j :: |order| <= j < |all| ==> InTurn(p, ts, all, j)
    decreases Unseen(p.Size(), visited), |stack|
  {
    if stack != [] {
      var v, rest := stack[|stack| - 1], stack[..|stack| - 1];
      assert stack == rest + [v] && v < p.Size() && forall i :: 0 <= i < |rest| ==> rest[i] == stack[i];
      TraceNext(p, rest, v, visited);
      if v in visited {
        SkipAwaits(p, ts, order, rest, v);
        TraceInTurn(p, ts, order, rest, visited);
      } else {
        UnseenDrops(p.Size(), visited, v);
        VisitAwaits(p, ts, order, rest, v);
        var pushed := rest + Feeders(p, v);
        TraceInTurn(p, ts, order + [v], pushed, visited + {v});
        Associates(order, [v], Trace(p, pushed, visited + {v}));
        var all := order + Trace(p, stack, visited);
        assert all[..|order|] == order && all[|order|] == v;
        TopInTurn(p, ts, order, rest, v);
      }
    }
  }

  // The trace visits classes depth first: the later terms of the query before the earlier ones, and what the later
  // places of the later constraints into a class read before what the earlier ones do.
  lemma TraceIsDepthFirst(p: Problem, a: Term, b: Term)
    requires p.Valid() && a.VarsBelow(p.Size()) && b.VarsBelow(p.Size())
    ensures var order := Trace(p, Roots(p, a, b), {});
            forall j :: 0 <= j < |order| ==> InTurn(p, a.terms + b.terms, order, j)
  {
    var ts, roots := a.terms + b.terms, Roots(p, a, b);
    assert forall j :: 0 <= j < |ts| ==> ts[j].v < p.Size() && roots[j] == p.canon[ts[j].v];
    forall q | 0 <= q < |roots| ensures Awaits(p, ts, [], roots, q) {
      forall j | q < j < |ts| ensures Ahead([], roots, q, p.canon[ts[j].v]) {
        assert roots[q + 1..][j - q - 1] == roots[j];
      }
      assert AsRoot(p, ts, [], roots, q, q);
    }
    TraceInTurn(p, ts, [], roots, {});
    assert [] + Trace(p, roots, {}) == Trace(p, roots, {});
  }

  // Class `l` of the visits shows `name`, and none before it does.
  ghost predicate FirstShown(p: Problem, order: seq<VarId>, name: string, l: nat)
    requires p.Valid()
  {
    && l < |order| && NameOf(p, order[l], 0) == Some(name)
    && forall m :: 0 <= m < l ==> NameOf(p, order[m], 0) != Some(name)
  }

  // What is shown is listed, and what is listed is shown.
  lemma {:induction false} ListedIsShown(p: Problem, order: seq<VarId>, name: string)
    requires p.Valid()
    ensures name in NamesAlong(p, order) <==>
              name != "top" && exists l :: 0 <= l < |order| && NameOf(p, order[l], 0) == Some(name)
  {
    if order != [] {
      var init, v := order[..|order| - 1], order[|order| - 1];
      ListedIsShown(p, init, name);
      if NameOf(p, v, 0) == Some(name) {
        assert order[|order| - 1] == v;
      } else if l :| 0 <= l < |order| && NameOf(p, order[l], 0) == Some(name) {
        assert init[l] == order[l];
      }
    }
  }

  // A listed name is first shown at some visit, and those listed before it are those of the earlier visits.
  lemma {:induction false} ListedWhenShown(p: Problem, order: seq<VarId>, i: nat) returns (l: nat)
    requires p.Valid() && i < |NamesAlong(p, order)|
    ensures FirstShown(p, order, NamesAlong(p, order)[i], l)
    ensures NamesAlong(p, order)[..i] == NamesAlong(p, order[..l])
  {
    var init, v := order[..|order| - 1], order[|order| - 1];
    var names := NamesAlong(p, init);
    if i < |names| {
      l := ListedWhenShown(p, init, i);
      assert init[..l] == order[..l];
    } else {
      l := |init|;
      forall m | 0 <= m < l ensures NameOf(p, order[m], 0) != NameOf(p, v, 0) {
        assert init[m] == order[m];
        ListedIsShown(p, init, NameOf(p, v, 0).value);
      }
      assert order[..l] == init && NamesAlong(p, order)[..i] == names;
    }
  }

  // The names are listed in the order in which the visits first show them.
  lemma NamesInOrder(p: Problem, order: seq<VarId>, i: nat, j: nat, l: nat, m: nat)
    requires p.Valid() && i < j < |NamesAlong(p, order)|
    requires FirstShown(p, order, NamesAlong(p, order)[i], l) && FirstShown(p, order, NamesAlong(p, order)[j], m)
    ensures l < m
  {
    var names := NamesAlong(p, order);
    var m' := ListedWhenShown(p, order, j);
    assert m' == m;
    assert names[i] in names[..j] by { assert names[..j][i] == names[i]; }
    ListedIsShown(p, order[..m], names[i]);
    var k :| 0 <= k < m && NameOf(p, order[..m][k], 0) == Some(names[i]);
    assert order[..m][k] == order[k];
  }
}
