/**
  The end of a visit: a node whose low number is its own index closes a component, any other node
  stays on the stack.
 */
module TarjanFinish {
  import opened Graphs
  import opened TarjanState

  /** The nodes at or above position `k` of the stack. */
  function Above(s: Search, k: nat): set<Node> {
    set i | k <= i < |s.stack| :: s.stack[i]
  }

  /** The stack cut back to `k`; what was above it is reported if it has more than one node. */
  function Pop(s: Search, k: nat): Search
    requires k <= |s.stack|
  {
    var c := Above(s, k);
    Search(s.index, s.stack[..k], s.onStack - c, s.counter, if |c| > 1 then s.found + [c] else s.found)
  }

  /** All that is known when every successor of `v` has been looked at. */
  ghost predicate Finished(g: Graph, s: Search, base: seq<Node>, v: Node, m: nat, grey: set<Node>,
                           comps: set<set<Node>>) {
    && Inv(g, s, grey + {v}, comps)
    && Progress(g, s, base, v, m, Successors(g, v))
    && (forall x :: x in grey ==> x in base)
  }

  lemma StackParts(s: Search, base: seq<Node>)
    requires Stacked(s) && |base| <= |s.stack| && s.stack[..|base|] == base
    ensures forall x :: x in s.onStack <==> x in base || x in Above(s, |base|)
    ensures forall x :: x in base ==> x !in Above(s, |base|)
    ensures Above(s, |base|) <= s.onStack
    ensures forall x, y :: x in base && y in Above(s, |base|) ==> s.index[x] < s.index[y]
  {
    forall x | x in s.onStack
      ensures x in base || x in Above(s, |base|)
    {
      var i :| 0 <= i < |s.stack| && s.stack[i] == x;
      if i < |base| {
        assert base[i] == x;
      }
    }
    forall x, y | x in base && y in Above(s, |base|)
      ensures s.index[x] < s.index[y]
    {
      var i :| 0 <= i < |base| && base[i] == x;
      assert s.stack[i] == x;
    }
  }

  // ---------- a component is closed ----------

  lemma NoEdgesDown(g: Graph, s: Search, base: seq<Node>, v: Node, grey: set<Node>, comps: set<set<Node>>, x: Node,
                    y: Node)
    requires v in s.index && Finished(g, s, base, v, s.index[v], grey, comps)
    requires x in Above(s, |base|) && y in base
    ensures !Edge(g, x, y)
  {
    hide Reach, Nodes, IsReachedIndex, ReachesUp, ReachesGrey, Partition, FoundAll;
    StackParts(s, base);
    var i :| |base| <= i < |s.stack| && s.stack[i] == x;
    if i > |base| {
      assert EdgesNotBelow(g, s, s.stack[i], base, s.index[v]);
    }
  }

  lemma SuccessorsVisited(g: Graph, s: Search, base: seq<Node>, v: Node, grey: set<Node>, comps: set<set<Node>>,
                          x: Node)
    requires v in s.index && Finished(g, s, base, v, s.index[v], grey, comps)
    requires x in Above(s, |base|)
    ensures Successors(g, x) <= s.index.Keys
  {
    hide Reach, Nodes, IsReachedIndex, ReachesUp, ReachesGrey, Partition, FoundAll;
    StackParts(s, base);
  }

  /** Nothing leaves the popped nodes and the done ones. */
  lemma PoppedIsClosed(g: Graph, s: Search, base: seq<Node>, v: Node, grey: set<Node>, comps: set<set<Node>>)
    requires v in s.index && Finished(g, s, base, v, s.index[v], grey, comps)
    ensures Closed(g, Done(s) + Above(s, |base|))
  {
    hide Reach, Nodes, IsReachedIndex, ReachesUp, ReachesGrey, Partition, FoundAll, Progress;
    var c := Above(s, |base|);
    forall x | x in Done(s) + c
      ensures Successors(g, x) <= Done(s) + c
    {
      if x in c {
        SuccessorsVisited(g, s, base, v, grey, comps, x);
        forall y | y in Successors(g, x)
          ensures y in Done(s) + c
        {
          if y in base {
            NoEdgesDown(g, s, base, v, grey, comps, x, y);
          }
          StackPartsOf(g, s, base, v, grey, comps);
        }
      }
    }
  }

  lemma StackPartsOf(g: Graph, s: Search, base: seq<Node>, v: Node, grey: set<Node>, comps: set<set<Node>>)
    requires v in s.index && Finished(g, s, base, v, s.index[v], grey, comps)
    ensures forall x :: x in s.onStack <==> x in base || x in Above(s, |base|)
    ensures forall x :: x in base ==> x !in Above(s, |base|)
    ensures v in Above(s, |base|) && Above(s, |base|) <= s.onStack
  {
    hide Reach, Nodes, IsReachedIndex, ReachesUp, ReachesGrey, Partition, FoundAll;
    StackParts(s, base);
    assert s.stack[|base|] == v;
  }

  lemma GreyWitness(g: Graph, s: Search, base: seq<Node>, v: Node, grey: set<Node>, comps: set<set<Node>>, y: Node)
    returns (x: Node)
    requires v in s.index && Finished(g, s, base, v, s.index[v], grey, comps)
    requires y in s.onStack
    ensures x == v || x in base
    ensures Reach(g, y, x)
  {
    hide Reach, Nodes, IsReachedIndex, ReachesUp, Partition, FoundAll, Progress, Closed, Numbered, Stacked,
      BlackSeesVisited;
    x :| GreyBelow(g, s, grey + {v}, y, x);
  }

  lemma PoppedReachesRoot(g: Graph, s: Search, base: seq<Node>, v: Node, grey: set<Node>, comps: set<set<Node>>,
                          y: Node)
    requires v in s.index && Finished(g, s, base, v, s.index[v], grey, comps)
    requires y in Above(s, |base|)
    ensures Reach(g, y, v)
  {
    hide Reach, Finished, Above, Closed;
    StackPartsOf(g, s, base, v, grey, comps);
    PoppedIsClosed(g, s, base, v, grey, comps);
    var x := GreyWitness(g, s, base, v, grey, comps, y);
    if x != v {
      ReachStaysIn(g, Done(s) + Above(s, |base|), y, x);
    }
  }

  lemma RootReachesPopped(g: Graph, s: Search, base: seq<Node>, v: Node, grey: set<Node>, comps: set<set<Node>>,
                          y: Node)
    requires v in s.index && Finished(g, s, base, v, s.index[v], grey, comps)
    requires y in Above(s, |base|)
    ensures Reach(g, v, y)
  {
    hide Reach, Nodes, IsReachedIndex, ReachesGrey, Partition, FoundAll;
    var i :| |base| <= i < |s.stack| && s.stack[i] == y;
    ReachSelf(g, v);
    assert s.stack[|base|] == v;
  }

  /** The popped nodes are a strongly connected component. */
  lemma PoppedIsComponent(g: Graph, s: Search, base: seq<Node>, v: Node, grey: set<Node>, comps: set<set<Node>>)
    requires v in s.index && Finished(g, s, base, v, s.index[v], grey, comps)
    ensures IsComponent(g, Above(s, |base|))
  {
    hide Reach, Nodes, Finished, Closed;
    var c := Above(s, |base|);
    StackPartsOf(g, s, base, v, grey, comps);
    PoppedIsClosed(g, s, base, v, grey, comps);
    forall a, b | a in c && b in c
      ensures Reach(g, a, b)
    {
      PoppedReachesRoot(g, s, base, v, grey, comps, a);
      RootReachesPopped(g, s, base, v, grey, comps, b);
      ReachTransitive(g, a, v, b);
    }
    VisitedAreNodes(g, s, base, v, grey, comps);
    forall a, b | a in c && Reach(g, a, b) && Reach(g, b, a)
      ensures b in c
    {
      ReachStaysIn(g, Done(s) + c, a, b);
      if b in Done(s) {
        ReachStaysIn(g, Done(s), b, a);
      }
    }
  }

  lemma VisitedAreNodes(g: Graph, s: Search, base: seq<Node>, v: Node, grey: set<Node>, comps: set<set<Node>>)
    requires v in s.index && Finished(g, s, base, v, s.index[v], grey, comps)
    ensures s.onStack <= Nodes(g) && Closed(g, Done(s))
  {
    hide Reach, Nodes, IsReachedIndex, ReachesUp, ReachesGrey, Partition, FoundAll, Progress, Closed;
  }

  // ---------- what is left after popping ----------

  lemma Regroup(all: set<Node>, some: set<Node>, c: set<Node>)
    requires c <= some <= all
    ensures all - (some - c) == (all - some) + c
  {
  }

  lemma PopDone(s: Search, base: seq<Node>)
    requires Stacked(s) && |base| <= |s.stack| && s.stack[..|base|] == base
    ensures Done(Pop(s, |base|)) == Done(s) + Above(s, |base|)
  {
    hide Above;
    StackParts(s, base);
    Regroup(s.index.Keys, s.onStack, Above(s, |base|));
  }

  lemma PopStacked(s: Search, base: seq<Node>)
    requires Stacked(s) && |base| <= |s.stack| && s.stack[..|base|] == base
    ensures Stacked(Pop(s, |base|))
    ensures forall x :: x in Pop(s, |base|).onStack <==> x in base
  {
    hide Above;
    StackParts(s, base);
    var c := Above(s, |base|);
    assert forall x :: x in s.onStack - c <==> x in base;
    assert Pop(s, |base|).stack == base;
    assert forall i :: 0 <= i < |base| ==> base[i] == s.stack[i];
  }

  lemma PopReachesGrey(g: Graph, s: Search, base: seq<Node>, v: Node, grey: set<Node>)
    requires Stacked(s) && |base| < |s.stack| && s.stack[..|base|] == base && s.stack[|base|] == v
    requires ReachesGrey(g, s, grey + {v})
    ensures ReachesGrey(g, Pop(s, |base|), grey)
  {
    hide Reach;
    StackParts(s, base);
    var s' := Pop(s, |base|);
    forall y | y in s'.onStack
      ensures exists x :: GreyBelow(g, s', grey, y, x)
    {
      var x :| GreyBelow(g, s, grey + {v}, y, x);
      assert v in Above(s, |base|);
      assert GreyBelow(g, s', grey, y, x);
    }
  }

  lemma PartitionGrows(g: Graph, s: Search, t: Search, comps: set<set<Node>>, c: set<Node>)
    requires Partition(g, s, comps) && IsComponent(g, c) && Done(t) == Done(s) + c
    ensures Partition(g, t, comps + {c})
  {
    hide IsComponent, Done;
    forall x | x in Done(t)
      ensures exists d :: d in comps + {c} && x in d
    {
      if x in c {
        assert c in comps + {c};
      } else {
        var d :| d in comps && x in d;
        assert d in comps + {c};
      }
    }
  }

  lemma FoundGrows(s: Search, t: Search, comps: set<set<Node>>, c: set<Node>)
    requires FoundAll(s, comps) && c !in comps
    requires t.found == if |c| > 1 then s.found + [c] else s.found
    ensures FoundAll(t, comps + {c})
  {
    if |c| > 1 {
      assert forall d :: d in t.found <==> d in s.found || d == c;
    }
  }

  lemma NewComponent(g: Graph, s: Search, comps: set<set<Node>>, c: set<Node>)
    requires Partition(g, s, comps) && IsComponent(g, c) && c !! Done(s)
    ensures c !in comps
  {
    hide Reach, Nodes, Done;
  }

  lemma PopPartition(g: Graph, s: Search, base: seq<Node>, comps: set<set<Node>>)
    requires Stacked(s) && |base| <= |s.stack| && s.stack[..|base|] == base
    requires Partition(g, s, comps) && FoundAll(s, comps)
    requires IsComponent(g, Above(s, |base|))
    ensures Partition(g, Pop(s, |base|), comps + {Above(s, |base|)})
    ensures FoundAll(Pop(s, |base|), comps + {Above(s, |base|)})
  {
    hide IsComponent, Partition, FoundAll, Above;
    StackParts(s, base);
    PopDone(s, base);
    NewComponent(g, s, comps, Above(s, |base|));
    PartitionGrows(g, s, Pop(s, |base|), comps, Above(s, |base|));
    FoundGrows(s, Pop(s, |base|), comps, Above(s, |base|));
  }

  lemma PopBlackSees(g: Graph, s: Search, base: seq<Node>, v: Node, grey: set<Node>, comps: set<set<Node>>)
    requires v in s.index && Finished(g, s, base, v, s.index[v], grey, comps)
    ensures BlackSeesVisited(g, Pop(s, |base|), grey) && ReachesUp(g, Pop(s, |base|))
    ensures Numbered(g, Pop(s, |base|))
  {
    hide Reach, Nodes, IsComponent, IsReachedIndex, ReachesGrey, Partition, FoundAll, EdgesNotBelow, Closed, Above;
  }

  /** A node whose low number is its own index closes a component. */
  lemma PopKeeps(g: Graph, s: Search, base: seq<Node>, v: Node, grey: set<Node>, comps: set<set<Node>>)
    requires v in s.index && Finished(g, s, base, v, s.index[v], grey, comps)
    ensures Inv(g, Pop(s, |base|), grey, comps + {Above(s, |base|)})
    ensures Returned(g, Pop(s, |base|), base, v, s.index[v])
  {
    hide Reach, Nodes, IsComponent, IsReachedIndex, ReachesGrey, ReachesUp, Partition, FoundAll, EdgesNotBelow,
      Closed, Above, BlackSeesVisited, Done;
    PoppedIsClosed(g, s, base, v, grey, comps);
    PoppedIsComponent(g, s, base, v, grey, comps);
    StackPartsOf(g, s, base, v, grey, comps);
    PopStacked(s, base);
    PopBlackSees(g, s, base, v, grey, comps);
    PopReachesGrey(g, s, base, v, grey);
    PopDone(s, base);
    PopPartition(g, s, base, comps);
  }

  // ---------- a node stays on the stack ----------

  lemma KeepReachesGrey(g: Graph, s: Search, base: seq<Node>, v: Node, m: nat, grey: set<Node>)
    requires Stacked(s) && |base| < |s.stack| && s.stack[..|base|] == base && s.stack[|base|] == v
    requires v in s.index && m < s.index[v] && IsReachedIndex(g, s, v, m)
    requires ReachesGrey(g, s, grey + {v})
    ensures ReachesGrey(g, s, grey) && ReachesBase(g, s, base, v, m)
  {
    hide Reach;
    StackParts(s, base);
    var x :| x in s.onStack && x in s.index && s.index[x] == m && Reach(g, v, x);
    assert x in base by {
      assert forall i :: |base| < i < |s.stack| ==> s.index[v] < s.index[s.stack[i]];
    }
    var z :| GreyBelow(g, s, grey + {v}, x, z);
    ReachTransitive(g, v, x, z);
    forall y | y in s.onStack
      ensures exists u :: GreyBelow(g, s, grey, y, u)
    {
      var u :| GreyBelow(g, s, grey + {v}, y, u);
      if u == v {
        ReachTransitive(g, y, v, z);
        assert GreyBelow(g, s, grey, y, z);
      } else {
        assert GreyBelow(g, s, grey, y, u);
      }
    }
  }

  /** A node that reaches further down the stack stays on it, black. */
  lemma KeepKeeps(g: Graph, s: Search, base: seq<Node>, v: Node, m: nat, grey: set<Node>, comps: set<set<Node>>)
    requires v in s.index && m < s.index[v] && Finished(g, s, base, v, m, grey, comps)
    ensures Inv(g, s, grey, comps) && Returned(g, s, base, v, m)
  {
    hide Reach, Nodes, IsComponent, IsReachedIndex, ReachesGrey, ReachesBase, Partition, FoundAll;
    KeepReachesGrey(g, s, base, v, m, grey);
    StackParts(s, base);
    forall i | |base| <= i < |s.stack|
      ensures EdgesNotBelow(g, s, s.stack[i], base, m)
    {
    }
  }
}
