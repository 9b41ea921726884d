/** Directed graphs over file paths, and what it means to reach one node from another. */
module Graphs {

  type Node = string

  /** Adjacency as the repository stores it: `map[string]map[string]bool`, every stored value true. */
  type Graph = map<Node, set<Node>>

  predicate Edge(g: Graph, u: Node, v: Node) {
    u in g && v in g[u]
  }

  ghost predicate Walk(g: Graph, p: seq<Node>) {
    && p != []
    && forall i :: 0 <= i < |p| - 1 ==> Edge(g, p[i], p[i + 1])
  }

  /** There is a walk, possibly of length zero, from `u` to `v`. */
  ghost predicate Reaches(g: Graph, u: Node, v: Node) {
    exists p :: Walk(g, p) && p[0] == u && p[|p| - 1] == v
  }

  /** There is a walk of at least one edge from `v` back to `v`. */
  ghost predicate OnCycle(g: Graph, v: Node) {
    exists p :: Walk(g, p) && |p| >= 2 && p[0] == v && p[|p| - 1] == v
  }

  lemma ReachesSelf(g: Graph, u: Node)
    ensures Reaches(g, u, u)
  {
    assert Walk(g, [u]);
  }

  lemma ReachesEdge(g: Graph, u: Node, v: Node)
    requires Edge(g, u, v)
    ensures Reaches(g, u, v)
  {
    assert Walk(g, [u, v]);
  }

  lemma WalksJoin(g: Graph, p: seq<Node>, q: seq<Node>)
    requires Walk(g, p) && Walk(g, q) && p[|p| - 1] == q[0]
    ensures Walk(g, p + q[1..])
    ensures (p + q[1..])[|p + q[1..]| - 1] == q[|q| - 1]
  {
    var r := p + q[1..];
    forall i | 0 <= i < |r| - 1 ensures Edge(g, r[i], r[i + 1]) {
      if i >= |p| - 1 {
        assert r[i] == q[i - |p| + 1] && r[i + 1] == q[i - |p| + 2];
      }
    }
  }

  lemma ReachesTransitive(g: Graph, u: Node, v: Node, w: Node)
    requires Reaches(g, u, v) && Reaches(g, v, w)
    ensures Reaches(g, u, w)
  {
    var p :| Walk(g, p) && p[0] == u && p[|p| - 1] == v;
    var q :| Walk(g, q) && q[0] == v && q[|q| - 1] == w;
    WalksJoin(g, p, q);
  }

  /** A set that contains `u` and is closed under edges contains all that `u` reaches. */
  lemma ClosedSetHoldsReachable(g: Graph, closed: set<Node>, u: Node, v: Node)
    requires u in closed && Reaches(g, u, v)
    requires forall x, y :: x in closed && Edge(g, x, y) ==> y in closed
    ensures v in closed
  {
    var p :| Walk(g, p) && p[0] == u && p[|p| - 1] == v;
    ClosedSetHoldsWalk(g, closed, p, |p| - 1);
  }

  lemma {:induction false} ClosedSetHoldsWalk(g: Graph, closed: set<Node>, p: seq<Node>, n: nat)
    requires Walk(g, p) && p[0] in closed && n < |p|
    requires forall x, y :: x in closed && Edge(g, x, y) ==> y in closed
    ensures p[n] in closed
  {
    if n > 0 {
      ClosedSetHoldsWalk(g, closed, p, n - 1);
      assert Edge(g, p[n - 1], p[n]);
    }
  }

  /** A node is on a cycle exactly when an edge leaves it to a node that reaches it back. */
  lemma OnCycleIff(g: Graph, v: Node)
    ensures OnCycle(g, v) <==> exists w :: Edge(g, v, w) && Reaches(g, w, v)
  {
    if OnCycle(g, v) {
      var p :| Walk(g, p) && |p| >= 2 && p[0] == v && p[|p| - 1] == v;
      var q := p[1..];
      assert Edge(g, p[0], p[1]);
      assert forall i :: 0 <= i < |q| ==> q[i] == p[i + 1];
      assert Walk(g, q);
      assert Edge(g, v, p[1]) && Reaches(g, p[1], v);
    }
    if w :| Edge(g, v, w) && Reaches(g, w, v) {
      var q :| Walk(g, q) && q[0] == w && q[|q| - 1] == v;
      assert Walk(g, [v, w]);
      WalksJoin(g, [v, w], q);
      assert |[v, w] + q[1..]| >= 2;
    }
  }
}
