/** Directed graphs over names, paths, reachability and strongly connected components. */
module Graphs {
  type Node = string
  /** Successors of each node; a node without an entry has none. */
  type Graph = map<Node, set<Node>>

  function Successors(g: Graph, v: Node): set<Node> {
    if v in g then g[v] else {}
  }

  predicate Edge(g: Graph, a: Node, b: Node) {
    b in Successors(g, a)
  }

  /** Every node named by the graph, as a source or as a target. */
  function Nodes(g: Graph): set<Node> {
    g.Keys + set a, b | a in g.Keys && b in g[a] :: b
  }

  predicate IsPath(g: Graph, p: seq<Node>) {
    |p| > 0 && forall i :: 0 <= i < |p| - 1 ==> Edge(g, p[i], p[i + 1])
  }

  predicate PathBetween(g: Graph, p: seq<Node>, a: Node, b: Node) {
    IsPath(g, p) && p[0] == a && p[|p| - 1] == b
  }

  ghost predicate Reach(g: Graph, a: Node, b: Node) {
    exists p :: PathBetween(g, p, a, b)
  }

  /** `c` is a strongly connected component: mutually reachable nodes, and no more can be added. */
  ghost predicate IsComponent(g: Graph, c: set<Node>) {
    && c != {} && c <= Nodes(g)
    && (forall a, b :: a in c && b in c ==> Reach(g, a, b))
    && (forall a, b :: a in c && Reach(g, a, b) && Reach(g, b, a) ==> b in c)
  }

  predicate Closed(g: Graph, c: set<Node>) {
    forall a :: a in c ==> Successors(g, a) <= c
  }

  lemma ReachSelf(g: Graph, a: Node)
    ensures Reach(g, a, a)
  {
    assert PathBetween(g, [a], a, a);
  }

  lemma ReachEdge(g: Graph, a: Node, b: Node)
    requires Edge(g, a, b)
    ensures Reach(g, a, b)
  {
    assert PathBetween(g, [a, b], a, b);
  }

  lemma ReachTransitive(g: Graph, a: Node, b: Node, c: Node)
    requires Reach(g, a, b) && Reach(g, b, c)
    ensures Reach(g, a, c)
  {
    var p :| PathBetween(g, p, a, b);
    var q :| PathBetween(g, q, b, c);
    var r := p + q[1..];
    assert forall i :: |p| <= i < |r| ==> r[i] == q[i - |p| + 1];
    assert r[|p| - 1] == q[0];
    assert PathBetween(g, r, a, c);
  }

  /** A closed set cannot be left. */
  lemma {:induction false} ClosedIsNotLeft(g: Graph, c: set<Node>, p: seq<Node>, k: nat)
    requires Closed(g, c) && IsPath(g, p) && p[0] in c && k < |p|
    ensures p[k] in c
  {
    if k > 0 {
      ClosedIsNotLeft(g, c, p, k - 1);
      assert Edge(g, p[k - 1], p[k - 1 + 1]);
    }
  }

  lemma ReachStaysIn(g: Graph, c: set<Node>, a: Node, b: Node)
    requires Closed(g, c) && a in c && Reach(g, a, b)
    ensures b in c
  {
    var p :| PathBetween(g, p, a, b);
    ClosedIsNotLeft(g, c, p, |p| - 1);
  }

  /** Two components with a common node are one. */
  lemma ComponentsAreDisjoint(g: Graph, c: set<Node>, d: set<Node>, x: Node)
    requires IsComponent(g, c) && IsComponent(g, d) && x in c && x in d
    ensures c == d
  {
    hide Reach, Nodes;
    forall y
      ensures y in c <==> y in d
    {
      if y in c {
        assert Reach(g, x, y) && Reach(g, y, x);
      }
      if y in d {
        assert Reach(g, x, y) && Reach(g, y, x);
      }
    }
  }
}
