/** Successor-list graphs and reachability. */
module Graphs {

  type Graph = seq<seq<nat>>

  predicate WellFormed(g: Graph) {
    forall u, k :: 0 <= u < |g| && 0 <= k < |g[u]| ==> g[u][k] < |g|
  }

  predicate Edge(g: Graph, u: nat, v: nat) {
    u < |g| && v in g[u]
  }

  // No edge leaves `inside`.
  ghost predicate Closed(g: Graph, inside: set<nat>) {
    forall u: nat, v: nat :: u in inside && Edge(g, u, v) ==> v in inside
  }

  // `v` belongs to every closed set that contains `u`. `ReachMeansPath` shows that this is path existence.
  ghost predicate Reach(g: Graph, u: nat, v: nat) {
    forall inside: set<nat> :: Closed(g, inside) && u in inside ==> v in inside
  }

  lemma ReachSelf(g: Graph, u: nat)
    ensures Reach(g, u, u)
  {
  }

  lemma ReachEdge(g: Graph, u: nat, v: nat)
    requires Edge(g, u, v)
    ensures Reach(g, u, v)
  {
  }

  lemma ReachTransitive(g: Graph, u: nat, v: nat, w: nat)
    requires Reach(g, u, v) && Reach(g, v, w)
    ensures Reach(g, u, w)
  {
  }

  // A walk of exactly `p` steps' vertices: consecutive vertices are joined by edges.
  ghost predicate IsPath(g: Graph, p: seq<nat>) {
    && p != []
    && (|p| > 1 ==> Edge(g, p[|p| - 2], p[|p| - 1]) && IsPath(g, p[..|p| - 1]))
  }

  ghost predicate HasPath(g: Graph, u: nat, v: nat) {
    exists p :: IsPath(g, p) && p[0] == u && p[|p| - 1] == v
  }

  lemma ReachMeansPath(g: Graph, u: nat, v: nat)
    requires WellFormed(g) && u < |g|
    ensures Reach(g, u, v) <==> HasPath(g, u, v)
  {
    var inside := set x: nat | x < |g| && HasPath(g, u, x);
    assert IsPath(g, [u]);
    assert HasPath(g, u, u);
    forall x: nat, y: nat | x in inside && Edge(g, x, y) ensures y in inside {
      var p :| IsPath(g, p) && p[0] == u && p[|p| - 1] == x;
      assert (p + [y])[..|p|] == p;
      assert IsPath(g, p + [y]);
    }
    assert Closed(g, inside);
    if HasPath(g, u, v) {
      var p :| IsPath(g, p) && p[0] == u && p[|p| - 1] == v;
      PathReaches(g, p);
    }
  }

  lemma {:induction false} PathReaches(g: Graph, p: seq<nat>)
    requires IsPath(g, p)
    ensures Reach(g, p[0], p[|p| - 1])
  {
    if |p| > 1 {
      PathReaches(g, p[..|p| - 1]);
      ReachTransitive(g, p[0], p[|p| - 2], p[|p| - 1]);
    }
  }

  // A rank that never rises along an edge never rises along a path.
  lemma ReachDescends(g: Graph, rank: seq<int>, u: nat, v: nat)
    requires |rank| == |g| && WellFormed(g)
    requires forall x: nat, k :: x < |g| && 0 <= k < |g[x]| ==> rank[g[x][k]] <= rank[x]
    requires u < |g| && Reach(g, u, v)
    ensures v < |g| && rank[v] <= rank[u]
  {
    var inside := set x: nat | x < |g| && rank[x] <= rank[u];
    forall x: nat, y: nat | x in inside && Edge(g, x, y) ensures y in inside {
      var k :| 0 <= k < |g[x]| && g[x][k] == y;
    }
    assert Closed(g, inside);
  }
}
