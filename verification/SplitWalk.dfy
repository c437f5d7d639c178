/** Which steps lie on some split, and which bytes they cover. */
module SplitWalk {
  import opened SupportFields

  predicate Arrives(p: Problem, st: State, path: seq<Step>, goal: State)
    decreases |path|
  {
    if path == [] then st == goal
    else Legal(p, st, path[0]) && Arrives(p, Next(p, st, path[0]), path[1..], goal)
  }

  ghost predicate Reached(p: Problem, st: State) {
    exists path :: Arrives(p, Start(p), path, st)
  }

  ghost predicate Viable(p: Problem, st: State) {
    exists path :: IsSplit(p, st, path)
  }

  /** Step `s` from `st` lies on some split of the whole record. */
  ghost predicate OnSplit(p: Problem, st: State, s: Step) {
    Reached(p, st) && Legal(p, st, s) && Viable(p, Next(p, st, s))
  }

  /** A data step covers byte `o` with a parameter marked or not. */
  predicate StepCovers(p: Problem, st: State, s: Step, o: nat, marked: bool)
    requires Legal(p, st, s)
  {
    !s.isMap && st.i <= o < s.end && Marked(p, st) == marked
  }

  /** Some split covers byte `o` with a data parameter that is marked or not. */
  ghost predicate CoveredBySplit(p: Problem, o: nat, marked: bool) {
    exists path :: IsSplit(p, Start(p), path) && Covers(p, Start(p), path, o, marked)
  }

  ghost predicate CoveredByStep(p: Problem, o: nat, marked: bool) {
    exists st, s :: OnSplit(p, st, s) && StepCovers(p, st, s, o, marked)
  }

  /** A split places a bitmap at byte `m`. */
  predicate PlacesMap(p: Problem, st: State, path: seq<Step>, m: nat)
    requires IsSplit(p, st, path)
    decreases |path|
  {
    path != [] && ((path[0].isMap && st.i == m) || PlacesMap(p, Next(p, st, path[0]), path[1..], m))
  }

  lemma StartIsReached(p: Problem)
    ensures Reached(p, Start(p))
  {
    assert Arrives(p, Start(p), [], Start(p));
  }

  lemma {:induction false} ArrivesOneMore(p: Problem, st: State, path: seq<Step>, goal: State, s: Step)
    requires Arrives(p, st, path, goal) && Legal(p, goal, s)
    ensures Arrives(p, st, path + [s], Next(p, goal, s))
    decreases |path|
  {
    hide Legal, Next;
    if path == [] {
      assert [s][1..] == [];
      assert Arrives(p, Next(p, st, s), [], Next(p, goal, s));
      assert path + [s] == [s];
    } else {
      ArrivesOneMore(p, Next(p, st, path[0]), path[1..], goal, s);
      assert (path + [s])[1..] == path[1..] + [s];
    }
  }

  lemma ReachedOneMore(p: Problem, st: State, s: Step)
    requires Reached(p, st) && Legal(p, st, s)
    ensures Reached(p, Next(p, st, s))
  {
    hide Legal, Next, Arrives;
    var path :| Arrives(p, Start(p), path, st);
    ArrivesOneMore(p, Start(p), path, st, s);
  }

  lemma ViableBefore(p: Problem, st: State, s: Step)
    requires Legal(p, st, s) && Viable(p, Next(p, st, s))
    ensures Viable(p, st)
  {
    hide Legal, Next;
    var rest :| IsSplit(p, Next(p, st, s), rest);
    assert ([s] + rest)[1..] == rest;
    assert IsSplit(p, st, [s] + rest);
  }

  /** A way into a state and a split from it make a split, which covers what the latter covers. */
  lemma {:induction false} Joined(p: Problem, st: State, path: seq<Step>, goal: State, rest: seq<Step>, o: nat,
                                  marked: bool)
    requires Arrives(p, st, path, goal) && IsSplit(p, goal, rest)
    ensures IsSplit(p, st, path + rest)
    ensures Covers(p, goal, rest, o, marked) ==> Covers(p, st, path + rest, o, marked)
    ensures PlacesMap(p, goal, rest, o) ==> PlacesMap(p, st, path + rest, o)
    decreases |path|
  {
    hide Legal, Next, Marked;
    if path == [] {
      assert path + rest == rest;
    } else {
      Joined(p, Next(p, st, path[0]), path[1..], goal, rest, o, marked);
      assert (path + rest)[1..] == path[1..] + rest;
    }
  }

  /** The step of a split that covers byte `o`. */
  lemma {:induction false} CoveringStep(p: Problem, st: State, path: seq<Step>, o: nat, marked: bool)
    requires Reached(p, st) && IsSplit(p, st, path) && Covers(p, st, path, o, marked)
    ensures CoveredByStep(p, o, marked)
    decreases |path|
  {
    hide Legal, Next, Reached;
    assert Viable(p, Next(p, st, path[0]));
    if StepCovers(p, st, path[0], o, marked) {
      assert OnSplit(p, st, path[0]);
    } else {
      ReachedOneMore(p, st, path[0]);
      CoveringStep(p, Next(p, st, path[0]), path[1..], o, marked);
    }
  }

  /** A byte is covered by some split exactly when a step on some split covers it. */
  lemma CoveredBothWays(p: Problem, o: nat, marked: bool)
    ensures CoveredBySplit(p, o, marked) <==> CoveredByStep(p, o, marked)
  {
    hide Legal, Next, Arrives, IsSplit, Covers, Marked;
    if CoveredBySplit(p, o, marked) {
      var path :| IsSplit(p, Start(p), path) && Covers(p, Start(p), path, o, marked);
      StartIsReached(p);
      CoveringStep(p, Start(p), path, o, marked);
    }
    if CoveredByStep(p, o, marked) {
      var st, s :| OnSplit(p, st, s) && StepCovers(p, st, s, o, marked);
      var pre :| Arrives(p, Start(p), pre, st);
      var rest :| IsSplit(p, Next(p, st, s), rest);
      StepInFront(p, st, s, rest);
      StepInFrontCovers(p, st, s, rest, o, marked);
      Joined(p, Start(p), pre, st, [s] + rest, o, marked);
    }
  }

  lemma StepInFront(p: Problem, st: State, s: Step, rest: seq<Step>)
    requires Legal(p, st, s) && IsSplit(p, Next(p, st, s), rest)
    ensures IsSplit(p, st, [s] + rest)
  {
    assert ([s] + rest)[1..] == rest;
  }

  lemma StepInFrontCovers(p: Problem, st: State, s: Step, rest: seq<Step>, o: nat, marked: bool)
    requires Legal(p, st, s) && IsSplit(p, Next(p, st, s), rest) && IsSplit(p, st, [s] + rest)
    ensures StepCovers(p, st, s, o, marked) ==> Covers(p, st, [s] + rest, o, marked)
    ensures s.isMap ==> PlacesMap(p, st, [s] + rest, st.i)
  {
    hide Legal, Next;
  }

  /** A bitmap is placed at `m` by some split exactly when a map step on some split starts there. */
  ghost predicate MapOnSplit(p: Problem, m: nat) {
    exists st, s :: OnSplit(p, st, s) && s.isMap && st.i == m
  }

  ghost predicate SplitPlacesMap(p: Problem, m: nat) {
    exists path :: IsSplit(p, Start(p), path) && PlacesMap(p, Start(p), path, m)
  }

  lemma {:induction false} PlacingStep(p: Problem, st: State, path: seq<Step>, m: nat)
    requires Reached(p, st) && IsSplit(p, st, path) && PlacesMap(p, st, path, m)
    ensures MapOnSplit(p, m)
    decreases |path|
  {
    hide Legal, Next, Reached;
    assert Viable(p, Next(p, st, path[0]));
    if path[0].isMap && st.i == m {
      assert OnSplit(p, st, path[0]);
    } else {
      ReachedOneMore(p, st, path[0]);
      PlacingStep(p, Next(p, st, path[0]), path[1..], m);
    }
  }

  lemma MapsBothWays(p: Problem, m: nat)
    ensures SplitPlacesMap(p, m) <==> MapOnSplit(p, m)
  {
    hide Legal, Next, Arrives, IsSplit, PlacesMap;
    if SplitPlacesMap(p, m) {
      var path :| IsSplit(p, Start(p), path) && PlacesMap(p, Start(p), path, m);
      StartIsReached(p);
      PlacingStep(p, Start(p), path, m);
    }
    if MapOnSplit(p, m) {
      var st, s :| OnSplit(p, st, s) && s.isMap && st.i == m;
      var pre :| Arrives(p, Start(p), pre, st);
      var rest :| IsSplit(p, Next(p, st, s), rest);
      StepInFront(p, st, s, rest);
      StepInFrontCovers(p, st, s, rest, m, true);
      Joined(p, Start(p), pre, st, [s] + rest, m, true);
    }
  }

  // ---------- the walk ----------

  /** From every seen state, each step that can still be completed leads to a seen or queued one. */
  ghost predicate Followed(p: Problem, seen: set<State>, queue: seq<State>) {
    forall st, s :: st in seen && Legal(p, st, s) && Viable(p, Next(p, st, s)) ==>
      Next(p, st, s) in seen || Next(p, st, s) in queue
  }

  /** With nothing queued, every state some split goes through is seen. */
  lemma {:induction false} SplitStatesSeen(p: Problem, seen: set<State>, st: State, path: seq<Step>, goal: State)
    requires Followed(p, seen, []) && st in seen && Arrives(p, st, path, goal) && Viable(p, goal)
    ensures goal in seen
    decreases |path|
  {
    hide Legal, Viable;
    if path != [] {
      ViableAlong(p, Next(p, st, path[0]), path[1..], goal);
      SplitStatesSeen(p, seen, Next(p, st, path[0]), path[1..], goal);
    }
  }

  lemma {:induction false} ViableAlong(p: Problem, st: State, path: seq<Step>, goal: State)
    requires Arrives(p, st, path, goal) && Viable(p, goal)
    ensures Viable(p, st)
    decreases |path|
  {
    hide Legal, Viable;
    if path != [] {
      ViableAlong(p, Next(p, st, path[0]), path[1..], goal);
      ViableBefore(p, st, path[0]);
    }
  }

  lemma AllSplitStatesSeen(p: Problem, seen: set<State>, st: State, s: Step)
    requires Followed(p, seen, []) && Start(p) in seen && OnSplit(p, st, s)
    ensures st in seen
  {
    hide Legal, Viable, Arrives, Followed;
    var path :| Arrives(p, Start(p), path, st);
    ViableBefore(p, st, s);
    SplitStatesSeen(p, seen, Start(p), path, st);
  }

  // ---------- what the walk records ----------

  type Cover = map<nat, set<bool>>

  function MarksAt(cover: Cover, o: nat): set<bool> {
    if o in cover then cover[o] else {}
  }

  /** A recorded step: the state it leaves, and the step. */
  type Edges = set<(State, Step)>

  /** A recorded step covers byte `o`. */
  ghost predicate CoveredByEdge(p: Problem, edges: Edges, o: nat, marked: bool) {
    exists e :: e in edges && Legal(p, e.0, e.1) && StepCovers(p, e.0, e.1, o, marked)
  }

  ghost predicate MapAtEdge(edges: Edges, m: nat) {
    exists e :: e in edges && e.1.isMap && e.0.i == m
  }

  /** The bytes and bitmaps of exactly the recorded steps. */
  ghost predicate Recorded(p: Problem, edges: Edges, cover: Cover, maps: set<nat>) {
    && (forall o, marked :: marked in MarksAt(cover, o) <==> CoveredByEdge(p, edges, o, marked))
    && (forall m :: m in maps <==> MapAtEdge(edges, m))
  }

  /** The recorded steps are those on some split that leave a seen state. */
  ghost predicate EdgesOf(p: Problem, seen: set<State>, edges: Edges) {
    forall st, s :: (st, s) in edges <==> st in seen && OnSplit(p, st, s)
  }

  /** At the end of the walk the records are about all splits. */
  lemma RecordsAreComplete(p: Problem, seen: set<State>, edges: Edges, cover: Cover, maps: set<nat>)
    requires Followed(p, seen, []) && Start(p) in seen && EdgesOf(p, seen, edges)
    requires Recorded(p, edges, cover, maps)
    ensures forall o, marked :: marked in MarksAt(cover, o) <==> CoveredBySplit(p, o, marked)
    ensures forall m :: m in maps <==> SplitPlacesMap(p, m)
  {
    hide Legal, Reached, Viable, StepCovers, Followed, CoveredBySplit, SplitPlacesMap;
    forall o: nat, marked
      ensures marked in MarksAt(cover, o) <==> CoveredBySplit(p, o, marked)
    {
      CoveredBothWays(p, o, marked);
      if CoveredByStep(p, o, marked) {
        var st, s :| OnSplit(p, st, s) && StepCovers(p, st, s, o, marked);
        AllSplitStatesSeen(p, seen, st, s);
        assert (st, s) in edges;
      }
      if e :| e in edges && Legal(p, e.0, e.1) && StepCovers(p, e.0, e.1, o, marked) {
        assert OnSplit(p, e.0, e.1);
      }
    }
    forall m: nat
      ensures m in maps <==> SplitPlacesMap(p, m)
    {
      MapsBothWays(p, m);
      if MapOnSplit(p, m) {
        var st, s :| OnSplit(p, st, s) && s.isMap && st.i == m;
        AllSplitStatesSeen(p, seen, st, s);
        assert (st, s) in edges;
      }
      if e :| e in edges && e.1.isMap && e.0.i == m {
        assert OnSplit(p, e.0, e.1);
      }
    }
  }

  lemma RecordMap(p: Problem, edges: Edges, cover: Cover, maps: set<nat>, st: State, s: Step)
    requires Recorded(p, edges, cover, maps) && Legal(p, st, s) && s.isMap
    ensures Recorded(p, edges + {(st, s)}, cover, maps + {st.i})
  {
    hide Legal, MarksAt;
    forall o, marked
      ensures CoveredByEdge(p, edges + {(st, s)}, o, marked) <==> CoveredByEdge(p, edges, o, marked)
    {
    }
    forall m
      ensures MapAtEdge(edges + {(st, s)}, m) <==> MapAtEdge(edges, m) || m == st.i
    {
      if m == st.i {
        assert (st, s) in edges + {(st, s)};
      }
      if e :| e in edges && e.1.isMap && e.0.i == m {
        assert e in edges + {(st, s)};
      }
    }
  }

  /** The cover with bytes `st.i..n` of the step's marking added. */
  ghost predicate CoverGrown(before: Cover, after: Cover, st: State, n: nat, mark: bool) {
    forall o: nat, marked :: marked in MarksAt(after, o) <==>
      marked in MarksAt(before, o) || (st.i <= o < n && marked == mark)
  }

  lemma RecordData(p: Problem, edges: Edges, cover: Cover, after: Cover, maps: set<nat>, st: State, s: Step)
    requires Recorded(p, edges, cover, maps) && Legal(p, st, s) && !s.isMap
    requires CoverGrown(cover, after, st, s.end, Marked(p, st))
    ensures Recorded(p, edges + {(st, s)}, after, maps)
  {
    hide Legal, MarksAt, Marked;
    forall o, marked
      ensures CoveredByEdge(p, edges + {(st, s)}, o, marked) <==>
        CoveredByEdge(p, edges, o, marked) || StepCovers(p, st, s, o, marked)
    {
      if StepCovers(p, st, s, o, marked) {
        assert (st, s) in edges + {(st, s)};
      }
      if e :| e in edges && Legal(p, e.0, e.1) && StepCovers(p, e.0, e.1, o, marked) {
        assert e in edges + {(st, s)};
      }
    }
    forall m
      ensures MapAtEdge(edges + {(st, s)}, m) <==> MapAtEdge(edges, m)
    {
    }
  }
}
