/**
  Import cycles between the units of a package: Tarjan's algorithm over the unit graph.
 */
module ImportGraph {
  import opened Graphs
  import opened Sorting
  import opened TarjanState
  import opened TarjanFinish

  const PACKAGE := "canair"

  /** A dotted module name. */
  type Module = string

  // ---------- the unit graph ----------

  /** A name cut at the dots. */
  function Parts(m: Module): (ps: seq<string>)
    ensures |ps| > 0
  {
    if m == [] then [[]]
    else
      var ps := Parts(m[1..]);
      if m[0] == '.' then [[]] + ps else [[m[0]] + ps[0]] + ps[1..]
  }

  /** The unit a module belongs to: the top-level name below the package, or the package itself. */
  function Unit(m: Module): Node {
    if |Parts(m)| > 1 then Parts(m)[1] else PACKAGE
  }

  ghost predicate NoDot(s: string) {
    forall i :: 0 <= i < |s| ==> s[i] != '.'
  }

  /** `m` is the name `u` directly below `p`, or lies below that. */
  ghost predicate LiesBelow(m: Module, p: string, u: Node) {
    NoDot(p) && NoDot(u) && (m == p + "." + u || p + "." + u + "." <= m)
  }

  /** The second name of `m` is `u`. */
  ghost predicate InUnit(m: Module, u: Node) {
    exists p :: LiesBelow(m, p, u)
  }

  lemma {:induction false} PartsOfName(p: string)
    requires NoDot(p)
    ensures Parts(p) == [p]
  {
    if p != [] {
      assert forall i :: 0 <= i < |p[1..]| ==> p[1..][i] == p[i + 1];
      PartsOfName(p[1..]);
      assert [p[0]] + p[1..] == p;
    }
  }

  lemma {:induction false} PartsOfDotted(p: string, rest: string)
    requires NoDot(p)
    ensures Parts(p + "." + rest) == [p] + Parts(rest)
  {
    var m := p + "." + rest;
    if p == [] {
      assert m[1..] == rest;
    } else {
      assert forall i :: 0 <= i < |p[1..]| ==> p[1..][i] == p[i + 1];
      PartsOfDotted(p[1..], rest);
      assert m[1..] == p[1..] + "." + rest;
      assert [p[0]] + p[1..] == p;
    }
  }

  /** The unit of a dotted name is its second name, whatever comes before and after it. */
  lemma UnitOfDotted(p: string, u: string, rest: string)
    requires NoDot(p) && NoDot(u)
    ensures Unit(p) == PACKAGE && Unit(p + "." + u) == u && Unit(p + "." + u + "." + rest) == u
  {
    PartsOfName(p);
    PartsOfName(u);
    PartsOfDotted(p, u);
    PartsOfDotted(u, rest);
    PartsOfDotted(p, u + "." + rest);
    assert p + "." + u + "." + rest == p + "." + (u + "." + rest);
  }

  lemma {:induction false} CutAtDot(m: string) returns (p: string, rest: string)
    requires !NoDot(m)
    ensures NoDot(p) && m == p + "." + rest
  {
    if m[0] == '.' {
      p, rest := "", m[1..];
    } else {
      assert forall i :: 0 <= i < |m[1..]| ==> m[1..][i] == m[i + 1];
      p, rest := CutAtDot(m[1..]);
      p := [m[0]] + p;
      assert m == [m[0]] + m[1..];
    }
  }

  /** Outside the package root, `Unit` finds exactly the second name. */
  lemma UnitIs(m: Module, u: Node)
    requires u != PACKAGE
    ensures Unit(m) == u <==> InUnit(m, u)
  {
    if p :| LiesBelow(m, p, u) {
      var start := p + "." + u + ".";
      var rest := if start <= m then m[|start|..] else "";
      UnitOfDotted(p, u, rest);
      assert start <= m ==> m == start + rest;
    }
    if Unit(m) == u {
      UnitLiesBelow(m, u);
    }
  }

  lemma UnitLiesBelow(m: Module, u: Node)
    requires Unit(m) == u != PACKAGE
    ensures InUnit(m, u)
  {
    if NoDot(m) {
      PartsOfName(m);
      assert false;
    }
    var p, rest := CutAtDot(m);
    PartsOfDotted(p, rest);
    if NoDot(rest) {
      PartsOfName(rest);
      assert LiesBelow(m, p, rest);
    } else {
      var v, more := CutAtDot(rest);
      PartsOfDotted(v, more);
      assert m == p + "." + v + "." + more;
      assert LiesBelow(m, p, v);
    }
  }

  ghost predicate ImportsBetween(edges: map<Module, set<Module>>, a: Node, b: Node) {
    exists src, tgt :: src in edges && tgt in edges[src] && InUnit(src, a) && InUnit(tgt, b)
  }

  /** Edges between different units, the package root left out. */
  ghost predicate UnitEdge(edges: map<Module, set<Module>>, a: Node, b: Node) {
    a != b && a != PACKAGE && b != PACKAGE && ImportsBetween(edges, a, b)
  }

  predicate CrossesUnits(src: Module, tgt: Module) {
    Unit(src) != Unit(tgt) && Unit(src) != PACKAGE && Unit(tgt) != PACKAGE
  }

  method BuildUnitGraph(edges: map<Module, set<Module>>) returns (graph: Graph)
    ensures forall a, b :: Edge(graph, a, b) <==> UnitEdge(edges, a, b)
  {
    hide InUnit;
    graph := map[];
    var todo := set src, tgt | src in edges && tgt in edges[src] :: (src, tgt);
    ghost var all := todo;
    while todo != {}
      invariant todo <= all
      invariant forall p :: p in all - todo && CrossesUnits(p.0, p.1) ==> Edge(graph, Unit(p.0), Unit(p.1))
      invariant forall a, b :: Edge(graph, a, b) ==> UnitEdge(edges, a, b)
    {
      var p :| p in todo;
      todo := todo - {p};
      var a, b := Unit(p.0), Unit(p.1);
      if CrossesUnits(p.0, p.1) {
        UnitIs(p.0, a);
        UnitIs(p.1, b);
        assert UnitEdge(edges, a, b);
        graph := graph[a := Successors(graph, a) + {b}];
      }
    }
    forall a, b | UnitEdge(edges, a, b)
      ensures Edge(graph, a, b)
    {
      var src, tgt :| src in edges && tgt in edges[src] && InUnit(src, a) && InUnit(tgt, b);
      UnitIs(src, a);
      UnitIs(tgt, b);
      assert (src, tgt) in all;
    }
  }

  // ---------- the search ----------

  class ComponentSearch {
    const graph: Graph
    var index: map<Node, nat>
    var low: map<Node, nat>
    var stack: seq<Node>
    var onStack: set<Node>
    var counter: nat
    var found: seq<set<Node>>
    ghost var comps: set<set<Node>>  // every component closed so far

    ghost function Current(): Search
      reads this
    {
      Search(index, stack, onStack, counter, found)
    }

    /** The low number of a visited node. */
    function LowOf(v: Node): nat
      reads this
    {
      if v in low then low[v] else 0
    }

    ghost predicate Valid(grey: set<Node>)
      reads this
    {
      low.Keys == index.Keys && Inv(graph, Current(), grey, comps)
    }

    constructor (graph: Graph)
      ensures this.graph == graph && Valid({}) && index == map[]
    {
      this.graph := graph;
      index, low, stack, onStack, counter, found := map[], map[], [], {}, 0, [];
      comps := {};
    }

    /** Visits `v` and whatever it reaches that is not numbered yet. */
    method Visit(v: Node, ghost grey: set<Node>)
      requires Valid(grey) && v in Nodes(graph) && v !in index
      requires forall x :: x in grey ==> Reach(graph, x, v)
      modifies this
      ensures Valid(grey)
      ensures Extends(old(Current()), Current())
      ensures forall x :: x in old(low) ==> x in low && low[x] == old(low)[x]
      ensures v in low && Returned(graph, Current(), old(stack), v, LowOf(v))
      decreases Nodes(graph) - index.Keys, 0
    {
      hide Inv, Progress, Returned, Reach, Nodes;
      ghost var before := Current();
      Number(v, grey);
      var todo := Successors(graph, v);
      assert Successors(graph, v) - todo == {};
      while todo != {}
        invariant todo <= Successors(graph, v)
        invariant Valid(grey + {v}) && v in low
        invariant Progress(graph, Current(), before.stack, v, LowOf(v), Successors(graph, v) - todo)
        invariant Extends(before, Current()) && v in index
        invariant forall x :: x in old(low) ==> x in low && low[x] == old(low)[x]
        decreases todo
      {
        var w :| w in todo;
        ghost var seen := Successors(graph, v) - todo;
        todo := todo - {w};
        LookAt(v, w, grey, before.stack, seen);
        assert seen + {w} == Successors(graph, v) - todo;
      }
      assert Successors(graph, v) - todo == Successors(graph, v);
      InvParts(graph, before, grey, old(comps));
      Finish(v, grey, before.stack);
    }

    /** Gives `v` the next number and pushes it. */
    method Number(v: Node, ghost grey: set<Node>)
      requires Valid(grey) && v in Nodes(graph) && v !in index
      requires forall x :: x in grey ==> Reach(graph, x, v)
      modifies this
      ensures Valid(grey + {v}) && v in index
      ensures Extends(old(Current()), Current()) && low == old(low)[v := counter - 1]
      ensures Progress(graph, Current(), old(stack), v, LowOf(v), {})
    {
      hide Inv, Progress, Reach, Nodes;
      InvParts(graph, Current(), grey, comps);
      PushKeeps(graph, Current(), grey, comps, v);
      PushProgresses(graph, Current(), v);
      index := index[v := counter];
      low := low[v := counter];
      stack := stack + [v];
      onStack := onStack + {v};
      counter := counter + 1;
    }

    /** One successor `w` of `v`: visited if new, and `low[v]` lowered as far as it reaches back. */
    method LookAt(v: Node, w: Node, ghost grey: set<Node>, ghost base: seq<Node>, ghost seen: set<Node>)
      requires Valid(grey + {v}) && v in low && Edge(graph, v, w)
      requires forall x :: x in grey ==> Reach(graph, x, v)
      requires Progress(graph, Current(), base, v, LowOf(v), seen)
      modifies this
      ensures Valid(grey + {v}) && Extends(old(Current()), Current())
      ensures forall x :: x in old(low) && x != v ==> x in low && low[x] == old(low)[x]
      ensures v in low && Progress(graph, Current(), base, v, LowOf(v), seen + {w})
      decreases Nodes(graph) - index.Keys, 1
    {
      hide Inv, Progress, Returned, Reach, Edge;
      ghost var before, m := Current(), low[v];
      InvParts(graph, Current(), grey + {v}, comps);
      if w !in index {
        SuccessorIsReached(graph, grey, v, w);
        Visit(w, grey + {v});
        InvParts(graph, Current(), grey + {v}, comps);
        ChildProgresses(graph, before, Current(), base, v, m, seen, w, low[w]);
        low := low[v := Min(low[v], low[w])];
      } else if w in onStack {
        BackEdgeProgresses(graph, Current(), base, v, m, seen, w);
        low := low[v := Min(low[v], index[w])];
      } else {
        SkipProgresses(graph, Current(), base, v, m, seen, w);
      }
    }

    /** Ends the visit of `v`: closes a component, or leaves `v` on the stack. */
    method Finish(v: Node, ghost grey: set<Node>, ghost base: seq<Node>)
      requires Valid(grey + {v}) && v in low
      requires Finished(graph, Current(), base, v, LowOf(v), grey, comps)
      modifies this`stack, this`onStack, this`found, this`comps
      ensures Valid(grey)
      ensures Returned(graph, Current(), base, v, LowOf(v))
    {
      hide Inv, Returned, Reach, Finished;
      ghost var full := Current();
      FinishedParts(graph, full, base, v, LowOf(v), grey, comps);
      if low[v] == index[v] {
        PopKeeps(graph, full, base, v, grey, comps);
        var comp := PopTo(v, base);
        if |comp| > 1 {
          found := found + [comp];
        }
        comps := comps + {comp};
        assert Current() == Pop(full, |base|);
      } else {
        KeepKeeps(graph, full, base, v, LowOf(v), grey, comps);
      }
    }

    /** Pops the stack down to `v`, which goes too. */
    method PopTo(v: Node, ghost base: seq<Node>) returns (comp: set<Node>)
      requires Stacked(Current()) && |base| < |stack| && stack[|base|] == v
      modifies this`stack, this`onStack
      ensures stack == old(stack)[..|base|]
      ensures comp == Above(old(Current()), |base|) && onStack == old(onStack) - comp
    {
      comp := {};
      var popped := false;
      while !popped
        invariant |base| <= |stack| <= |old(stack)| && stack == old(stack)[..|stack|]
        invariant comp == Above(old(Current()), |stack|)
        invariant onStack == old(onStack) - comp
        invariant popped <==> |stack| == |base|
        decreases |stack|
      {
        var w := stack[|stack| - 1];
        AboveOneMore(old(Current()), |stack| - 1);
        stack := stack[..|stack| - 1];
        onStack := onStack - {w};
        comp := comp + {w};
        popped := w == v;
      }
    }
  }

  lemma AboveOneMore(s: Search, k: nat)
    requires k < |s.stack|
    ensures Above(s, k) == Above(s, k + 1) + {s.stack[k]}
  {
  }

  lemma SuccessorIsReached(g: Graph, grey: set<Node>, v: Node, w: Node)
    requires Edge(g, v, w) && forall x :: x in grey ==> Reach(g, x, v)
    ensures w in Nodes(g) && forall x :: x in grey + {v} ==> Reach(g, x, w)
  {
    ReachEdge(g, v, w);
    hide Reach;
    forall x | x in grey
      ensures Reach(g, x, w)
    {
      ReachTransitive(g, x, v, w);
    }
  }

  lemma FinishedParts(g: Graph, s: Search, base: seq<Node>, v: Node, m: nat, grey: set<Node>, comps: set<set<Node>>)
    requires Finished(g, s, base, v, m, grey, comps)
    ensures Stacked(s) && |base| < |s.stack| && s.stack[..|base|] == base && s.stack[|base|] == v
    ensures v in s.index && m <= s.index[v]
  {
    hide Reach, Nodes, Closed, BlackSeesVisited, ReachesUp, ReachesGrey, Partition, FoundAll;
  }

  // ---------- the whole search ----------

  /** With no visit running, nothing is on the stack and every visited node's successors are visited. */
  lemma AtRest(g: Graph, s: Search, comps: set<set<Node>>)
    requires Inv(g, s, {}, comps)
    ensures s.onStack == {} && Done(s) == s.index.Keys
    ensures forall x :: x in s.index ==> Successors(g, x) <= s.index.Keys
  {
    hide Reach, Nodes, Closed, ReachesUp, Partition, FoundAll;
    assert forall y :: y in s.onStack ==> exists x :: GreyBelow(g, s, {}, y, x);
    assert s.onStack == {};
  }

  lemma EveryNodeVisited(g: Graph, s: Search, comps: set<set<Node>>)
    requires Inv(g, s, {}, comps) && g.Keys <= s.index.Keys
    ensures Nodes(g) <= Done(s)
  {
    hide Inv;
    AtRest(g, s, comps);
  }

  /** At rest with every node done, the closed components are all the components there are. */
  lemma AllComponentsFound(g: Graph, s: Search, comps: set<set<Node>>, c: set<Node>)
    requires Inv(g, s, {}, comps) && Nodes(g) <= Done(s)
    ensures c in s.found <==> IsComponent(g, c) && |c| > 1
  {
    hide Reach, Nodes, Closed, ReachesUp, ReachesGrey, BlackSeesVisited, Numbered, Stacked;
    if IsComponent(g, c) {
      var x :| x in c;
      assert x in Done(s);
      var d :| d in comps && x in d;
      ComponentsAreDisjoint(g, c, d, x);
    }
  }

  ghost predicate AllDifferent<T>(s: seq<T>) {
    forall i, j :: 0 <= i < j < |s| ==> s[i] != s[j]
  }

  /** `r` lists the components of more than one node, each once, the largest first. */
  ghost predicate ListsCycles(g: Graph, r: seq<set<Node>>) {
    && (forall c :: c in r <==> IsComponent(g, c) && |c| > 1)
    && AllDifferent(r)
    && LargestFirst(r)
  }

  method Search(graph: Graph) returns (found: seq<set<Node>>)
    ensures forall c :: c in found <==> IsComponent(graph, c) && |c| > 1
    ensures AllDifferent(found)
  {
    hide Inv, Reach, Nodes, IsComponent;
    var search := new ComponentSearch(graph);
    var todo := graph.Keys;
    while todo != {}
      invariant todo <= graph.Keys && fresh(search) && search.graph == graph
      invariant search.Valid({}) && graph.Keys - todo <= search.index.Keys
      decreases todo
    {
      var v :| v in todo;
      todo := todo - {v};
      if v !in search.index {
        KeyIsNode(graph, v);
        search.Visit(v, {});
      }
    }
    EveryNodeVisited(graph, search.Current(), search.comps);
    forall c
      ensures c in search.found <==> IsComponent(graph, c) && |c| > 1
    {
      AllComponentsFound(graph, search.Current(), search.comps, c);
    }
    FoundDiffer(graph, search.Current(), search.comps);
    return search.found;
  }

  lemma KeyIsNode(g: Graph, v: Node)
    requires v in g
    ensures v in Nodes(g)
  {
  }

  lemma FoundDiffer(g: Graph, s: TarjanState.Search, comps: set<set<Node>>)
    requires Inv(g, s, {}, comps)
    ensures AllDifferent(s.found)
  {
    hide Reach, Nodes, Closed, ReachesUp, ReachesGrey, BlackSeesVisited, Numbered, Stacked, Partition;
  }

  predicate LargestFirst(r: seq<set<Node>>) {
    forall i, j :: 0 <= i < j < |r| ==> |r[i]| >= |r[j]|
  }

  predicate NoSmaller(a: set<Node>, b: set<Node>) {
    |a| >= |b|
  }

  /** `r` lists `found` largest group first, groups of one size in the order they were found. */
  ghost predicate IsSortedBySize(found: seq<set<Node>>, r: seq<set<Node>>) {
    exists order: seq<nat> :: IsStablySorted(found, r, order, NoSmaller)
  }

  /** Largest group first. */
  method SortBySize(found: seq<set<Node>>) returns (r: seq<set<Node>>)
    ensures multiset(r) == multiset(found) && LargestFirst(r) && IsSortedBySize(found, r)
  {
    ghost var order;
    r, order := SortBy(found, NoSmaller);
  }

  lemma SameElements(a: seq<set<Node>>, b: seq<set<Node>>, c: set<Node>)
    requires multiset(a) == multiset(b)
    ensures c in a <==> c in b
  {
    assert c in a <==> c in multiset(a);
    assert c in b <==> c in multiset(b);
  }

  lemma {:induction false} DifferentCounts(a: seq<set<Node>>, c: set<Node>)
    requires AllDifferent(a)
    ensures multiset(a)[c] <= 1
  {
    if a != [] {
      DifferentCounts(a[1..], c);
      assert a == [a[0]] + a[1..];
      if a[0] == c {
        assert c !in a[1..];
        assert c !in multiset(a[1..]);
      }
    }
  }

  lemma CountsTwice(b: seq<set<Node>>, i: nat, j: nat)
    requires i < j < |b| && b[i] == b[j]
    ensures multiset(b)[b[i]] >= 2
  {
    assert b == b[..i] + [b[i]] + b[i + 1..j] + [b[j]] + b[j + 1..];
  }

  lemma SameDifferences(a: seq<set<Node>>, b: seq<set<Node>>)
    requires multiset(a) == multiset(b) && AllDifferent(a)
    ensures AllDifferent(b)
  {
    forall i, j | 0 <= i < j < |b|
      ensures b[i] != b[j]
    {
      if b[i] == b[j] {
        CountsTwice(b, i, j);
        DifferentCounts(a, b[i]);
      }
    }
  }

  /** The import cycles between the units of a package, largest first. */
  method Cycles(edges: map<Module, set<Module>>) returns (graph: Graph, cycles: seq<set<Node>>)
    ensures forall a, b :: Edge(graph, a, b) <==> UnitEdge(edges, a, b)
    ensures ListsCycles(graph, cycles)
  {
    hide IsComponent, Edge, UnitEdge;
    graph := BuildUnitGraph(edges);
    var found := Search(graph);
    cycles := SortBySize(found);
    forall c
      ensures c in cycles <==> IsComponent(graph, c) && |c| > 1
    {
      SameElements(found, cycles, c);
    }
    SameDifferences(found, cycles);
  }

  // ---------- what the result means ----------

  /** Two different units are listed in one cycle exactly when each reaches the other. */
  lemma ListedTogether(g: Graph, r: seq<set<Node>>, a: Node, b: Node)
    requires ListsCycles(g, r) && a != b
    ensures (exists c :: c in r && a in c && b in c) <==> Reach(g, a, b) && Reach(g, b, a)
  {
    if Reach(g, a, b) && Reach(g, b, a) {
      var c := MutualComponent(g, a, b);
      assert {a, b} <= c;
      SmallerSet({a, b}, c);
      assert c in r;
    }
  }

  lemma SmallerSet(a: set<Node>, b: set<Node>)
    requires a <= b
    ensures |a| <= |b|
  {
    assert b == a + (b - a);
    assert |b| == |a| + |b - a|;
  }

  lemma ReachedIsNode(g: Graph, a: Node, b: Node)
    requires a != b && Reach(g, a, b)
    ensures a in Nodes(g)
  {
    var p :| PathBetween(g, p, a, b);
    assert Edge(g, p[0], p[0 + 1]);
  }

  /** The component of two mutually reachable nodes. */
  lemma MutualComponent(g: Graph, a: Node, b: Node) returns (c: set<Node>)
    requires a != b && Reach(g, a, b) && Reach(g, b, a)
    ensures IsComponent(g, c) && a in c && b in c
  {
    ReachedIsNode(g, a, b);
    ReachedIsNode(g, b, a);
    hide Reach, Nodes;
    c := set x | x in Nodes(g) && Reach(g, a, x) && Reach(g, x, a);
    ReachSelf(g, a);
    forall x, y | x in c && y in c
      ensures Reach(g, x, y)
    {
      ReachTransitive(g, x, a, y);
    }
    forall x, y | x in c && Reach(g, x, y) && Reach(g, y, x)
      ensures y in c
    {
      ReachTransitive(g, a, x, y);
      ReachTransitive(g, y, x, a);
      if y != x {
        ReachedIsNode(g, y, x);
      }
    }
  }
}
