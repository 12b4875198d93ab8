/**
 The mutable constraint system (src/constraint.rs, `System`). The representation is the union-find forest
 `parent`; the ghost `root` names each class's representative and `height` shows that the parent links
 climb, so that `Find` terminates. Every method is tied to the operator of the same purpose on `Sys`.
 */
module ConstraintSystem {
  import opened Ranges
  import opened Terms
  import opened Problems
  import opened Systems
  import Depends
  import Graphs
  import Solver
  import Solve

  // The parent links of `v` climb towards its representative.
  ghost predicate Climbs(parent: seq<VarId>, root: seq<VarId>, height: seq<nat>, cap: nat, v: nat)
    requires |parent| == |root| == |height| && v < |parent|
  {
    && parent[v] < |parent| && root[v] < |parent|
    && height[v] <= cap
    && root[parent[v]] == root[v] == parent[root[v]] == root[root[v]]
    && (parent[v] == v <==> root[v] == v)
    && (parent[v] != v ==> height[v] < height[parent[v]] && height[v] < height[root[v]])
  }

  ghost predicate Forest(parent: seq<VarId>, root: seq<VarId>, height: seq<nat>, cap: nat) {
    && |parent| == |root| == |height|
    && forall v {:trigger Climbs(parent, root, height, cap, v)} :: 0 <= v < |parent| ==>
      Climbs(parent, root, height, cap, v)
  }

  // A class with a named member has a named representative.
  ghost predicate NamedRoots(names: seq<Option<string>>, root: seq<VarId>) {
    |names| == |root| && forall v :: 0 <= v < |root| && names[v].Some? ==> root[v] < |names| && names[root[v]].Some?
  }

  // Merging the classes of `a` and `b` joins exactly those two, and keeps named representatives.
  lemma UnifyMergesExactly(s: Sys, a: VarId, b: VarId, x: VarId, y: VarId)
    requires s.Valid() && a < s.Size() && b < s.Size() && x < s.Size() && y < s.Size()
    ensures var r := s.Unify(a, b).root;
            r[x] == r[y] <==> s.root[x] == s.root[y]
                              || (s.root[x] in {s.root[a], s.root[b]} && s.root[y] in {s.root[a], s.root[b]})
  {
  }

  lemma UnifyKeepsNamedRoots(s: Sys, a: VarId, b: VarId)
    requires s.Valid() && a < s.Size() && b < s.Size() && NamedRoots(s.names, s.root)
    ensures NamedRoots(s.names, s.Unify(a, b).root)
  {
    var r := s.Unify(a, b).root;
    forall v | 0 <= v < |r| && s.names[v].Some? ensures s.names[r[v]].Some? {
      assert s.names[s.root[v]].Some?;
    }
  }

  lemma UnifyKeepsValid(s: Sys, a: VarId, b: VarId)
    requires s.Valid() && a < s.Size() && b < s.Size()
    ensures s.Unify(a, b).Valid() && s.Unify(a, b).Size() == s.Size()
  {
    var p, q := s.Snapshot(), s.Unify(a, b).Snapshot();
    var ra, rb := s.root[a], s.root[b];
    assert s.root[s.root[a]] == s.root[a] && s.root[s.root[b]] == s.root[b];
    forall v | 0 <= v < q.Size() ensures q.canon[v] < q.Size() && q.canon[q.canon[v]] == q.canon[v] {
      assert s.root[s.root[v]] == s.root[v];
    }
  }

  // The name shown for two classes merged is that of their first variable, whichever class gives the representative.
  lemma UnifiedNameIsFirst(s: Sys, a: VarId, b: VarId)
    requires s.Valid() && a < s.Size() && b < s.Size() && s.root[a] != s.root[b]
    ensures s.Unify(a, b).Valid()
    ensures var p, q := s.Snapshot(), s.Unify(a, b).Snapshot();
            var r, first := q.canon[a], Min(Depends.FirstOf(p, s.root[a], 0), Depends.FirstOf(p, s.root[b], 0));
            && r in {s.root[a], s.root[b]} && Depends.NameOf(q, r, 0) == s.names[first]
            && (Depends.NameOf(q, r, 0) == q.names[r] <==> s.names[first] == s.names[r])
  {
    UnifyKeepsValid(s, a, b);
    var p, q := s.Snapshot(), s.Unify(a, b).Snapshot();
    var r := q.canon[a];
    var x, y := Depends.FirstOf(p, s.root[a], 0), Depends.FirstOf(p, s.root[b], 0);
    Depends.NameIsFirst(q, r, 0);
    var f := Depends.FirstOf(q, r, 0);
    assert q.canon[x] == r && q.canon[y] == r;
    assert p.canon[f] in {s.root[a], s.root[b]};
  }

  // So an unnamed variable declared before a named one hides its name, although the named one represents both.
  lemma UnnamedFirstHidesName(name: string)
    ensures var s := NEW.Fresh(None).0.Fresh(Some(name)).0.Unify(0, 1);
            && s.Valid() && s.root == [1, 1] && s.names[1] == Some(name) && Depends.NameOf(s.Snapshot(), 1, 0) == None
  {
    var s := NEW.Fresh(None).0.Fresh(Some(name)).0;
    UnifyKeepsValid(s, 0, 1);
    Depends.NameIsFirst(s.Unify(0, 1).Snapshot(), 1, 0);
  }

  lemma RootsOfClasses(parent: seq<VarId>, root: seq<VarId>, height: seq<nat>, cap: nat, a: nat, b: nat)
    requires Forest(parent, root, height, cap) && a < |parent| && b < |parent|
    ensures root[a] < |parent| && root[b] < |parent| && parent[root[a]] == root[a] && parent[root[b]] == root[b]
  {
    assert Climbs(parent, root, height, cap, a) && Climbs(parent, root, height, cap, b);
  }

  class System {
    var names: seq<Option<string>>
    var parent: seq<VarId>
    var constraints: seq<Constraint>
    var queries: seq<Query>
    var fixed: seq<(VarId, Range)>
    var hardLo: seq<(VarId, int)>
    var topVar: Option<VarId>

    ghost var root: seq<VarId>
    ghost var height: seq<nat>
    ghost var cap: nat

    ghost function View(): Sys
      reads this
    {
      Sys(names, root, constraints, queries, fixed, hardLo, topVar)
    }

    ghost predicate Valid()
      reads this
    {
      && |parent| == |names|
      && Forest(parent, root, height, cap)
      && NamedRoots(names, root)
      && View().Valid()
    }

    constructor ()
      ensures Valid() && View() == NEW
    {
      names, parent, constraints, queries, fixed, hardLo, topVar := [], [], [], [], [], [], None;
      root, height, cap := [], [], 0;
    }

    method Fresh(name: Option<string>) returns (t: Term)
      requires Valid()
      modifies this
      ensures Valid() && (View(), t) == old(View()).Fresh(name)
      ensures t.VarsBelow(|names|)
    {
      var id := |names|;
      FreshGrows(View(), name);
      ghost var p0, r0, h0 := parent, root, height;
      names := names + [name];
      parent := parent + [id];
      root, height := root + [id], height + [0];
      forall v | 0 <= v < |parent| ensures Climbs(parent, root, height, cap, v) {
        if v < id { assert Climbs(p0, r0, h0, cap, v); }
      }
      t := VarTerm(id);
    }

    method Top() returns (t: Term)
      requires Valid()
      modifies this
      ensures Valid() && (View(), t) == old(View()).Top() && t.VarsBelow(|names|)
    {
      if topVar.Some? { return VarTerm(topVar.value); }
      TopGrows(View());
      t := Fresh(Some("top"));
      fixed := fixed + [(|names| - 1, TOP)];
      topVar := Some(|names| - 1);
    }

    /** Follow the parent links to the representative, then point the whole path at it. No class changes. */
    method Find(v: VarId) returns (r: VarId)
      requires Valid() && v < |names|
      modifies this`parent
      ensures Valid() && r == root[v] && |parent| == |old(parent)|
    {
      r := v;
      assert Climbs(parent, root, height, cap, v);
      while parent[r] != r
        invariant r < |parent| && root[r] == root[v] && Climbs(parent, root, height, cap, r)
        decreases cap - height[r]
      {
        r := parent[r];
        assert Climbs(parent, root, height, cap, r);
      }
      var cur: VarId := v;
      while parent[cur] != r
        invariant Valid() && |parent| == |old(parent)| && cur < |parent| == |root| == |height|
        invariant root[cur] == r == root[v]
        decreases cap - height[cur]
      {
        ghost var p0 := parent;
        var next := parent[cur];
        assert Climbs(p0, root, height, cap, cur) && Climbs(p0, root, height, cap, next)
          && Climbs(p0, root, height, cap, r);
        parent := parent[cur := r];
        forall u | 0 <= u < |parent| ensures Climbs(parent, root, height, cap, u) {
          assert Climbs(p0, root, height, cap, u);
        }
        cur := next;
      }
    }

    method Union(a: VarId, b: VarId)
      requires Valid() && a < |names| && b < |names|
      modifies this`parent, this`root, this`height, this`cap
      ensures Valid() && View() == old(View()).Unify(a, b)
    {
      var ra := Find(a);
      var rb := Find(b);
      if ra != rb {
        ghost var v := View();
        UnifyKeepsNamedRoots(v, a, b);
        UnifyKeepsValid(v, a, b);
        RootsOfClasses(parent, root, height, cap, a, b);
        if names[ra].Some? || names[rb].None? {
          Hang(rb, ra);
        } else {
          Hang(ra, rb);
        }
        assert View() == v.Unify(a, b);
      }
    }

    // Make the representative `winner` the parent of the representative `loser`.
    method Hang(loser: VarId, winner: VarId)
      requires |parent| == |names| && Forest(parent, root, height, cap)
      requires loser < |names| && winner < |names| && loser != winner && parent[loser] == loser
               && parent[winner] == winner
      modifies this`parent, this`root, this`height, this`cap
      ensures |parent| == |names| && Forest(parent, root, height, cap)
      ensures root == Relabel(old(root), loser, winner)
    {
      ghost var p0, r0, h0, c0 := parent, root, height, cap;
      assert Climbs(p0, r0, h0, c0, loser) && Climbs(p0, r0, h0, c0, winner);
      parent := parent[loser := winner];
      root := Relabel(r0, loser, winner);
      height := height[winner := Max(h0[winner], h0[loser] + 1)];
      cap := cap + 1;
      forall v | 0 <= v < |parent| ensures Climbs(parent, root, height, cap, v) {
        assert Climbs(p0, r0, h0, c0, v);
        assert Climbs(p0, r0, h0, c0, p0[v]);
      }
    }

    method Subset(lhs: Term, rhs: Term)
      requires Valid() && lhs.VarsBelow(|names|) && rhs.VarsBelow(|names|)
      modifies this`constraints
      ensures Valid() && View() == old(View()).Include(lhs, rhs)
    {
      IncludeGrows(View(), lhs, rhs);
      if rhs.terms == [] { return; }
      var rcoeff, rvar := rhs.terms[0].coeff, rhs.terms[0].v;
      var rest := Term(rhs.terms[1..], rhs.konst);
      var effLhs := lhs.Sub(rest);
      if rcoeff != 1 && rcoeff != 0 {
        effLhs := effLhs.Scale(rcoeff);
      }
      constraints := constraints + [Constraint.Subset(effLhs, rvar)];
    }

    method PushMinItem(t: Term) returns (item: MinItem)
      requires Valid() && t.VarsBelow(|names|)
      modifies this
      ensures Valid() && (View(), item) == old(View()).MinItemOf(t)
      ensures |names| >= |old(names)| && (item.MinTerm? ==> item.v < |names|)
    {
      ItemGrows(View(), t);
      if t.IsConstant() {
        item := MinConst(t.konst);
      } else if t.SingleVar().Some? {
        item := MinTerm(1, t.SingleVar().value);
      } else {
        FreshGrows(View(), None);
        var w := Fresh(None);
        Subset(t, w);
        item := MinTerm(1, w.terms[0].v);
      }
    }

    method Min(x: Term, y: Term) returns (z: Term)
      requires Valid() && x.VarsBelow(|names|) && y.VarsBelow(|names|)
      modifies this
      ensures Valid() && (View(), z) == old(View()).MinOf(x, y) && z.VarsBelow(|names|)
    {
      MinGrows(View(), x, y);
      z := Fresh(None);
      var a := PushMinItem(x);
      var b := PushMinItem(y);
      constraints := constraints + [MinSubset([a, b], z.terms[0].v)];
    }

    method UnionTerm(x: Term, y: Term) returns (z: Term)
      requires Valid() && x.VarsBelow(|names|) && y.VarsBelow(|names|)
      modifies this
      ensures Valid() && (View(), z) == old(View()).UnionOf(x, y) && z.VarsBelow(|names|)
    {
      z := Fresh(None);
      Subset(x, z);
      Subset(y, z);
    }

    method Eq(a: Term, b: Term)
      requires Valid() && a.VarsBelow(|names|) && b.VarsBelow(|names|)
      modifies this
      ensures Valid() && View() == old(View()).Equate(a, b)
    {
      if b.IsConstant() && a.SingleVarAny().Some? {
        var (k, v) := a.SingleVarAny().value;
        fixed := fixed + [(v, Singleton(b.konst - k))];
      } else if a.IsConstant() && b.SingleVarAny().Some? {
        var (k, v) := b.SingleVarAny().value;
        fixed := fixed + [(v, Singleton(a.konst - k))];
      } else if a.SingleVar().Some? && b.SingleVar().Some? {
        Union(a.SingleVar().value, b.SingleVar().value);
      } else {
        Subset(a, b);
        Subset(b, a);
      }
    }

    method Mul(x: Term, y: Term) returns (t: Term)
      requires Valid() && x.VarsBelow(|names|) && y.VarsBelow(|names|)
      modifies this
      ensures Valid() && (View(), t) == old(View()).Times(x, y) && t.VarsBelow(|names|)
    {
      TimesGrows(View(), x, y);
      if x.IsConstant() { return y.Scale(x.konst); }
      if y.IsConstant() { return x.Scale(y.konst); }
      t := Top();
    }

    method HardGe(a: Term, c: int)
      requires Valid() && a.VarsBelow(|names|)
      modifies this`hardLo
      ensures Valid() && View() == old(View()).HardGe(a, c)
    {
      if a.SingleVar().Some? {
        hardLo := hardLo + [(a.SingleVar().value, c)];
      }
    }

    method QueryGe(a: Term, b: Term, kind: QueryKind)
      requires Valid() && a.VarsBelow(|names|) && b.VarsBelow(|names|)
      modifies this`queries
      ensures Valid() && View() == old(View()).Ask(a, b, kind)
    {
      queries := queries + [Query(a, b, kind)];
    }

    /** Canonicalize every variable through union-find, then solve. */
    method SolveAll()
      returns (results: seq<Solve.QueryResult>, ghost cs: seq<seq<VarId>>, ghost rank: seq<nat>, ghost g: Graphs.Graph)
      requires Valid()
      modifies this`parent
      ensures Valid() && View() == old(View())
      ensures var p := View().Snapshot();
              && Solve.Influence(p, |p.constraints|, g) && Solver.Layers(p, cs, rank) && Solve.Emission(g, cs)
              && Solve.Reports(p, Solver.Final(p, cs), results)
    {
      var canon := [];
      for v := 0 to |names|
        invariant Valid() && View() == old(View())
        invariant canon == root[..v]
      {
        var r := Find(v);
        canon := canon + [r];
      }
      assert canon == root;
      results, cs, rank, g := Solve.Solve(Problem(names, canon, constraints, queries, fixed, hardLo));
    }
  }
}
