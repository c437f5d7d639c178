/**
  The state of the component search, its invariant, and what each step does to it.

  A node is grey while its visit is running. A node is done once it has left the stack.
 */
module TarjanState {
  import opened Graphs

  /** Everything but the low numbers, which are kept apart. */
  datatype Search = Search(
    index: map<Node, nat>,
    stack: seq<Node>,
    onStack: set<Node>,
    counter: nat,
    found: seq<set<Node>>)

  function Done(s: Search): set<Node> {
    s.index.Keys - s.onStack
  }

  predicate Numbered(g: Graph, s: Search) {
    && s.index.Keys <= Nodes(g)
    && (forall x :: x in s.index ==> s.index[x] < s.counter)
  }

  ghost predicate Stacked(s: Search) {
    && s.onStack <= s.index.Keys
    && (forall x :: x in s.stack <==> x in s.onStack)
    && (forall i, j :: 0 <= i < j < |s.stack| ==> s.index[s.stack[i]] < s.index[s.stack[j]])
  }

  predicate BlackSeesVisited(g: Graph, s: Search, grey: set<Node>) {
    forall x :: x in s.index && x !in grey ==> Successors(g, x) <= s.index.Keys
  }

  /** A node of the stack reaches every node above it. */
  ghost predicate ReachesUp(g: Graph, s: Search) {
    forall i, j :: 0 <= i < j < |s.stack| ==> Reach(g, s.stack[i], s.stack[j])
  }

  /** `x` is grey, not above `y`, and reachable from it. */
  ghost predicate GreyBelow(g: Graph, s: Search, grey: set<Node>, y: Node, x: Node) {
    x in grey && x in s.index && y in s.index && s.index[x] <= s.index[y] && Reach(g, y, x)
  }

  ghost predicate ReachesGrey(g: Graph, s: Search, grey: set<Node>) {
    forall y :: y in s.onStack ==> exists x :: GreyBelow(g, s, grey, y, x)
  }

  /** `comps` are components and cover exactly the done nodes. */
  ghost predicate Partition(g: Graph, s: Search, comps: set<set<Node>>) {
    && (forall c :: c in comps ==> IsComponent(g, c) && c <= Done(s))
    && (forall x :: x in Done(s) ==> exists c :: c in comps && x in c)
  }

  /** `found` lists the components of more than one node, each once. */
  ghost predicate FoundAll(s: Search, comps: set<set<Node>>) {
    && (forall c :: c in s.found <==> c in comps && |c| > 1)
    && (forall i, j :: 0 <= i < j < |s.found| ==> s.found[i] != s.found[j])
  }

  ghost predicate Inv(g: Graph, s: Search, grey: set<Node>, comps: set<set<Node>>) {
    && Numbered(g, s) && Stacked(s) && grey <= s.onStack
    && BlackSeesVisited(g, s, grey) && Closed(g, Done(s))
    && ReachesUp(g, s) && ReachesGrey(g, s, grey)
    && Partition(g, s, comps) && FoundAll(s, comps)
  }

  lemma InvParts(g: Graph, s: Search, grey: set<Node>, comps: set<set<Node>>)
    requires Inv(g, s, grey, comps)
    ensures Numbered(g, s) && Stacked(s) && grey <= s.onStack
    ensures forall x :: x in s.stack <==> x in s.onStack
  {
    hide Nodes, Closed, BlackSeesVisited, ReachesUp, ReachesGrey, Partition, FoundAll;
  }

  // ---------- a visit starts ----------

  function Push(s: Search, v: Node): Search {
    Search(s.index[v := s.counter], s.stack + [v], s.onStack + {v}, s.counter + 1, s.found)
  }

  lemma PushReachesUp(g: Graph, s: Search, grey: set<Node>, v: Node)
    requires Stacked(s) && ReachesUp(g, s) && ReachesGrey(g, s, grey)
    requires forall x :: x in grey ==> Reach(g, x, v)
    ensures ReachesUp(g, Push(s, v))
  {
    hide Reach;
    forall i | 0 <= i < |s.stack|
      ensures Reach(g, s.stack[i], v)
    {
      assert s.stack[i] in s.onStack;
      var x :| GreyBelow(g, s, grey, s.stack[i], x);
      ReachTransitive(g, s.stack[i], x, v);
    }
  }

  lemma PushReachesGrey(g: Graph, s: Search, grey: set<Node>, v: Node)
    requires v !in s.index && ReachesGrey(g, s, grey)
    ensures ReachesGrey(g, Push(s, v), grey + {v})
  {
    hide Reach;
    var s' := Push(s, v);
    forall y | y in s'.onStack
      ensures exists x :: GreyBelow(g, s', grey + {v}, y, x)
    {
      if y == v {
        ReachSelf(g, v);
        assert GreyBelow(g, s', grey + {v}, y, v);
      } else {
        var x :| GreyBelow(g, s, grey, y, x);
        assert GreyBelow(g, s', grey + {v}, y, x);
      }
    }
  }

  lemma PushKeeps(g: Graph, s: Search, grey: set<Node>, comps: set<set<Node>>, v: Node)
    requires Inv(g, s, grey, comps) && v in Nodes(g) && v !in s.index
    requires forall x :: x in grey ==> Reach(g, x, v)
    ensures Inv(g, Push(s, v), grey + {v}, comps)
  {
    hide Nodes, Reach, ReachesUp, ReachesGrey, IsComponent;
    PushReachesUp(g, s, grey, v);
    PushReachesGrey(g, s, grey, v);
    assert Done(Push(s, v)) == Done(s);
  }

  // ---------- a visit goes on ----------

  /** `m` is the index of a node on the stack that `v` reaches. */
  ghost predicate IsReachedIndex(g: Graph, s: Search, v: Node, m: nat) {
    exists x :: x in s.onStack && x in s.index && s.index[x] == m && Reach(g, v, x)
  }

  /** Edges from `x` down to the stack part `base` do not go below index `m`. */
  ghost predicate EdgesNotBelow(g: Graph, s: Search, x: Node, base: seq<Node>, m: nat) {
    forall y :: y in base && Edge(g, x, y) ==> y in s.index && m <= s.index[y]
  }

  /**
    The visit of `v`, begun on top of `base`, has looked at the successors `seen`. Its low number
    `m` is at least as small as the index of every node of `base` seen from `v` or from above `v`.
   */
  ghost predicate Progress(g: Graph, s: Search, base: seq<Node>, v: Node, m: nat, seen: set<Node>) {
    && |base| < |s.stack| && s.stack[..|base|] == base && s.stack[|base|] == v
    && v in s.index && m <= s.index[v]
    && IsReachedIndex(g, s, v, m)
    && seen <= s.index.Keys
    && (forall y :: y in base && y in seen ==> y in s.index && m <= s.index[y])
    && (forall i :: |base| < i < |s.stack| ==> EdgesNotBelow(g, s, s.stack[i], base, m))
  }

  /** `m` is the index of a node of `base` that `v` reaches. */
  ghost predicate ReachesBase(g: Graph, s: Search, base: seq<Node>, v: Node, m: nat) {
    exists x :: x in base && x in s.index && s.index[x] == m && Reach(g, v, x)
  }

  /** What a finished visit of `v`, with low number `m`, leaves on top of `base`. */
  ghost predicate Returned(g: Graph, s: Search, base: seq<Node>, v: Node, m: nat) {
    && |base| <= |s.stack| && s.stack[..|base|] == base
    && v in s.index
    && (if v in s.onStack then ReachesBase(g, s, base, v, m) else m == s.index[v])
    && (forall i :: |base| <= i < |s.stack| ==> EdgesNotBelow(g, s, s.stack[i], base, m))
  }

  /** Visited nodes keep their numbers; new ones are numbered from `s`'s counter on. */
  predicate Extends(s: Search, t: Search) {
    && s.index.Keys <= t.index.Keys && s.counter <= t.counter
    && (forall x :: x in s.index ==> t.index[x] == s.index[x])
    && (forall x :: x in t.index && x !in s.index ==> s.counter <= t.index[x])
  }

  function Min(a: nat, b: nat): nat {
    if a < b then a else b
  }

  lemma PushProgresses(g: Graph, s: Search, v: Node)
    requires v !in s.index && Stacked(s)
    ensures Progress(g, Push(s, v), s.stack, v, s.counter, {})
  {
    hide Reach;
    ReachSelf(g, v);
    var s' := Push(s, v);
    assert v in s'.onStack && s'.index[v] == s.counter;
  }

  lemma BaseIsOnStack(s: Search, base: seq<Node>)
    requires Stacked(s) && |base| <= |s.stack| && s.stack[..|base|] == base
    ensures forall y :: y in base ==> y in s.stack && y in s.onStack
  {
    assert forall y :: y in base ==> y in s.stack;
  }

  /** Looking at a successor that is already done changes nothing. */
  lemma SkipProgresses(g: Graph, s: Search, base: seq<Node>, v: Node, m: nat, seen: set<Node>, w: Node)
    requires Progress(g, s, base, v, m, seen) && Stacked(s) && w in s.index && w !in s.onStack
    ensures Progress(g, s, base, v, m, seen + {w})
  {
    hide IsReachedIndex, EdgesNotBelow;
    BaseIsOnStack(s, base);
  }

  /** A successor on the stack lowers the low number to its index at most. */
  lemma BackEdgeProgresses(g: Graph, s: Search, base: seq<Node>, v: Node, m: nat, seen: set<Node>, w: Node)
    requires Progress(g, s, base, v, m, seen) && w in s.onStack && w in s.index && Edge(g, v, w)
    ensures Progress(g, s, base, v, Min(m, s.index[w]), seen + {w})
  {
    hide Reach, Edge;
    ReachEdge(g, v, w);
    assert IsReachedIndex(g, s, v, s.index[w]);
  }

  lemma ChildLow(g: Graph, s: Search, t: Search, v: Node, m: nat, w: Node, n: nat)
    requires v in s.index && m <= s.index[v] && IsReachedIndex(g, s, v, m)
    requires Numbered(g, s) && Stacked(s) && Stacked(t) && Edge(g, v, w)
    requires w !in s.index && Extends(s, t) && Returned(g, t, s.stack, w, n)
    ensures IsReachedIndex(g, t, v, Min(m, n))
  {
    hide Reach, Nodes, EdgesNotBelow, Edge;
    BaseIsOnStack(t, s.stack);
    if m <= n {
      var x :| x in s.onStack && x in s.index && s.index[x] == m && Reach(g, v, x);
      assert x in s.stack && t.index[x] == m;
    } else {
      assert n < t.index[w];
      var x :| x in s.stack && x in t.index && t.index[x] == n && Reach(g, w, x);
      ReachEdge(g, v, w);
      ReachTransitive(g, v, w, x);
      assert x in t.onStack && t.index[x] == n;
    }
  }

  lemma ChildEdges(g: Graph, s: Search, t: Search, base: seq<Node>, m: nat, n: nat, i: nat)
    requires |base| < |s.stack| && s.stack[..|base|] == base
    requires forall i :: |base| < i < |s.stack| ==> EdgesNotBelow(g, s, s.stack[i], base, m)
    requires |s.stack| <= |t.stack| && t.stack[..|s.stack|] == s.stack && Extends(s, t)
    requires forall i :: |s.stack| <= i < |t.stack| ==> EdgesNotBelow(g, t, t.stack[i], s.stack, n)
    requires |base| < i < |t.stack|
    ensures EdgesNotBelow(g, t, t.stack[i], base, Min(m, n))
  {
    hide Edge;
    if i < |s.stack| {
      assert t.stack[i] == s.stack[i];
      assert EdgesNotBelow(g, s, s.stack[i], base, m);
    } else {
      assert EdgesNotBelow(g, t, t.stack[i], s.stack, n);
      assert forall y :: y in base ==> y in s.stack;
    }
  }

  /** A successor visited from `v` lowers the low number to its own at most. */
  lemma ChildProgresses(g: Graph, s: Search, t: Search, base: seq<Node>, v: Node, m: nat, seen: set<Node>, w: Node,
                        n: nat)
    requires Progress(g, s, base, v, m, seen) && Numbered(g, s) && Stacked(s) && Stacked(t) && Edge(g, v, w)
    requires w !in s.index && Extends(s, t) && Returned(g, t, s.stack, w, n)
    ensures Progress(g, t, base, v, Min(m, n), seen + {w})
  {
    hide Reach, Nodes, Edge, EdgesNotBelow, IsReachedIndex, ReachesBase;
    ChildLow(g, s, t, v, m, w, n);
    BaseIsOnStack(s, base);
    assert base == t.stack[..|s.stack|][..|base|];
    assert t.stack[|base|] == t.stack[..|s.stack|][|base|];
    forall i | |base| < i < |t.stack|
      ensures EdgesNotBelow(g, t, t.stack[i], base, Min(m, n))
    {
      ChildEdges(g, s, t, base, m, n, i);
    }
  }
}
