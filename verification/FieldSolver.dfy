/**
  The search for the splits of a record: next steps, the memoised tally, and the walk over every
  step that lies on some split.
 */
module FieldSolver {
  import opened Wrappers
  import opened SupportFields
  import opened SplitTally
  import opened SplitWalk

  // ---------- the next steps ----------

  function SpansIn(p: Problem, i: nat, j: nat): set<Span> {
    set o | i <= o < j && p.Owned(o) :: p.Owner(o).value
  }

  lemma ManyMeansDifferent(s: set<Span>)
    ensures |s| > 1 <==> exists a, b :: a in s && b in s && a != b
  {
    if |s| > 0 {
      var x :| x in s;
      var rest := s - {x};
      assert |rest| == |s| - 1;
      if |s| > 1 {
        var y :| y in rest;
        assert y in s && y != x;
      } else {
        assert s == {x};
      }
    }
  }

  lemma ManySpans(p: Problem, i: nat, j: nat)
    ensures |SpansIn(p, i, j)| > 1 <==> !OneOwner(p, i, j)
  {
    hide Problem.Owner;
    var s := SpansIn(p, i, j);
    ManyMeansDifferent(s);
    if !OneOwner(p, i, j) {
      var a, b :| i <= a < j && i <= b < j && p.Owned(a) && p.Owned(b) && p.Owner(a) != p.Owner(b);
      assert p.Owner(a).value in s && p.Owner(b).value in s;
    }
  }

  lemma OneSpan(p: Problem, i: nat, j: nat, span: Span)
    requires i < j && OneOwner(p, i, j) && span in SpansIn(p, i, j)
    ensures EndsWithOwner(p, i, j) <==> span.end <= j
    ensures NarrowEnough(p, i, j) <==> j - i <= MAX_FIELD_BYTES || j - i <= span.end - span.start
  {
    hide Problem.Owner;
    var o :| i <= o < j && p.Owned(o) && p.Owner(o).value == span;
  }

  lemma NoSpan(p: Problem, i: nat, j: nat)
    requires SpansIn(p, i, j) == {}
    ensures OneOwner(p, i, j) && EndsWithOwner(p, i, j)
    ensures NarrowEnough(p, i, j) <==> j - i <= MAX_FIELD_BYTES
  {
    hide Problem.Owner;
    assert forall o :: i <= o < j && p.Owned(o) ==> p.Owner(o).value in SpansIn(p, i, j);
  }

  /** What trying `i..j` as the next data parameter comes to. */
  datatype Trial = Stop | Skip | Fits

  ghost predicate TrialOk(p: Problem, st: State, j: nat, t: Trial) {
    match t
    case Stop => forall k :: j <= k ==> !LegalData(p, st, k)
    case Skip => !LegalData(p, st, j)
    case Fits => LegalData(p, st, j)
  }

  lemma StopsForGood(p: Problem, st: State, j: nat)
    requires MayBegin(p, st) && st.i < j
    requires !OneOwner(p, st.i, j) || (EndsWithOwner(p, st.i, j) && !NarrowEnough(p, st.i, j))
    ensures TrialOk(p, st, j, Stop)
  {
    hide LegalData, OneOwner, EndsWithOwner, NarrowEnough, MayBegin;
    forall k: nat | j <= k
      ensures !LegalData(p, st, k)
    {
      if !OneOwner(p, st.i, j) {
        TwoOwnersStay(p, st, j, k);
      } else {
        TooWideStays(p, st, j, k);
      }
    }
  }

  method Try(p: Problem, st: State, j: nat) returns (t: Trial)
    requires MayBegin(p, st) && st.i < j <= p.Width()
    ensures TrialOk(p, st, j, t)
  {
    hide Problem.Owner, OneOwner, EndsWithOwner, NarrowEnough, Problem.MaskBit, Problem.ConstantOn;
    var spans := SpansIn(p, st.i, j);
    ManySpans(p, st.i, j);
    if |spans| > 1 {
      StopsForGood(p, st, j);
      return Stop;
    }
    if spans != {} {
      var span :| span in spans;
      OneSpan(p, st.i, j, span);
      if span.end > j {
        return Skip;
      }
      if j - st.i > MAX_FIELD_BYTES && j - st.i > span.end - span.start {
        StopsForGood(p, st, j);
        return Stop;
      }
    } else {
      NoSpan(p, st.i, j);
      if j - st.i > MAX_FIELD_BYTES {
        StopsForGood(p, st, j);
        return Stop;
      }
    }
    if !Marked(p, st) && !p.ConstantOn(st.i, j) {
      return Skip;
    }
    if st.f == p.BlockSize() - 1 && j != p.Width() {
      return Skip;
    }
    return Fits;
  }

  /** Every legal next step, each once. */
  ghost predicate ListsSteps(p: Problem, st: State, out: seq<Step>) {
    && (forall s :: s in out <==> Legal(p, st, s))
    && (forall a, b :: 0 <= a < b < |out| ==> out[a] != out[b])
  }

  method Steps(p: Problem, st: State) returns (out: seq<Step>)
    requires InRecord(p, st)
    ensures ListsSteps(p, st, out)
  {
    hide LegalData, OneOwner, EndsWithOwner, NarrowEnough, Problem.MaskBit, Problem.Owner;
    out := [];
    if st.f >= p.BlockSize() || st.i >= p.Width() || (p.Owned(st.i) && p.Owner(st.i).value.start < st.i) {
      NothingBegins(p, st);
      return;
    }
    if st.f == p.BlockSize() - 1 && Marked(p, st) && st.i + p.length < p.Width() {
      if p.ConstantOn(st.i, st.i + p.length) && forall o :: st.i <= o < st.i + p.length ==> !p.Owned(o) {
        out := [Step(st.i + p.length, true)];
      }
    }
    assert forall s: Step :: s.isMap ==> (s in out <==> Legal(p, st, s));
    ghost var maps := out;
    OutOfRange(p, st);
    var j := st.i + 1;
    while j <= p.Width()
      invariant st.i < j <= p.Width() + 1
      invariant forall s: Step :: s.isMap ==> (s in out <==> s in maps)
      invariant forall s: Step :: !s.isMap ==> (s in out <==> s.end < j && LegalData(p, st, s.end))
      invariant forall a, b :: 0 <= a < b < |out| ==> out[a] != out[b]
    {
      var t := Try(p, st, j);
      if t == Stop {
        break;
      }
      if t == Fits {
        out := out + [Step(j, false)];
      }
      j := j + 1;
    }
    assert forall k :: j <= k ==> !LegalData(p, st, k);
  }

  lemma NothingBegins(p: Problem, st: State)
    requires !MayBegin(p, st)
    ensures forall s :: !Legal(p, st, s)
  {
  }

  lemma OutOfRange(p: Problem, st: State)
    requires p.rows != []
    ensures forall k: nat :: k <= st.i || p.Width() < k ==> !LegalData(p, st, k)
  {
  }

  // ---------- the tally ----------

  const UNSEEN_LO := 1_000_000

  /** The accumulator of the tally loop: `t`, once some split is seen. */
  ghost predicate Accumulates(n: nat, lo: int, hi: int, t: Tally) {
    n == t.n && if n == 0 then lo == UNSEEN_LO && hi == -1 && t == Tally(0, 0, 0) else lo == t.lo && hi == t.hi
  }

  lemma LoIsSmall(p: Problem, st: State, t: Tally)
    requires InRecord(p, st) && Describes(t, Splits(p, st)) && t.n > 0
    ensures 0 <= t.lo <= MAX_RECORD_BYTES && 0 <= t.hi && t.n <= SOLUTION_CAP
  {
    hide IsSplit, DataCount;
    var a :| a in Splits(p, st) && DataCount(a) == t.lo;
    CountIsBounded(p, st, a);
    var b :| b in Splits(p, st) && DataCount(b) == t.hi;
  }

  class Solver {
    const p: Problem
    var cache: map<State, Tally>

    ghost predicate Valid()
      reads this
    {
      p.Readable() && forall st :: st in cache ==> InRecord(p, st) && Describes(cache[st], Splits(p, st))
    }

    constructor (p: Problem)
      requires p.Readable()
      ensures this.p == p && Valid()
    {
      this.p := p;
      cache := map[];
    }

    /** Splits from `st` on: how many, capped, and their fewest and most data parameters. */
    method TallyFrom(st: State) returns (t: Tally)
      requires Valid() && InRecord(p, st)
      modifies this`cache
      ensures Valid() && Describes(t, Splits(p, st))
      decreases p.Width() - st.i
    {
      hide Describes, Splits, InRecord, Problem.Readable;
      if st in cache {
        return cache[st];
      }
      if IsDone(st) {
        DoneSplits(p, st);
        t := Tally(1, 0, 0);
      } else {
        t := AddUp(st);
      }
      cache := cache[st := t];
    }

    predicate IsDone(st: State)
      requires InRecord(p, st)
    {
      st.i == p.Width() && forall k :: st.f <= k < p.BlockSize() ==> !p.MaskBit(st.ms, k)
    }

    method AddUp(st: State) returns (t: Tally)
      requires Valid() && InRecord(p, st) && !Done(p, st)
      modifies this`cache
      ensures Valid() && Describes(t, Splits(p, st))
      decreases p.Width() - st.i, 0
    {
      hide Describes, Splits, SplitsVia, SplitsBy, Legal, Done, InRecord, Problem.Readable, IsSplit;
      var n: nat, lo, hi := 0, UNSEEN_LO, -1;
      ghost var acc := Tally(0, 0, 0);
      NoneYet(p, st);
      var steps := Steps(p, st);
      for k := 0 to |steps|
        invariant Valid()
        invariant Describes(acc, SplitsVia(p, st, steps[..k])) && Accumulates(n, lo, hi, acc)
      {
        var s := steps[k];
        StepMovesOn(p, st, s);
        var sub := TallyFrom(Next(p, st, s));
        assert steps[..k + 1] == steps[..k] + [s];
        OneMoreStep(p, st, steps[..k], s);
        AfterDescribes(p, st, s, sub);
        BothDescribes(acc, SplitsVia(p, st, steps[..k]), After(sub, s), SplitsBy(p, st, s));
        acc := Both(acc, After(sub, s));
        if sub.n > 0 {
          LoIsSmall(p, Next(p, st, s), sub);
          var add := if s.isMap then 0 else 1;
          n := Min(SOLUTION_CAP, n + sub.n);
          lo, hi := Min(lo, sub.lo + add), Max(hi, sub.hi + add);
        }
      }
      assert steps[..|steps|] == steps;
      EverySplitSteps(p, st, steps);
      return if n > 0 then Tally(n, lo, hi) else Tally(0, 0, 0);
    }

    // ---------- the walk over every step that lies on some split ----------

    /** Adds the bytes of a data step to the cover. */
    method AddToCover(cover: Cover, st: State, s: Step) returns (after: Cover)
      requires Legal(p, st, s) && !s.isMap
      ensures CoverGrown(cover, after, st, s.end, Marked(p, st))
    {
      hide Problem.MaskBit;
      var mark := Marked(p, st);
      after := cover;
      for o := st.i to s.end
        invariant CoverGrown(cover, after, st, o, mark)
      {
        ghost var before := after;
        after := after[o := MarksAt(after, o) + {mark}];
        assert forall q: nat, m :: m in MarksAt(after, q) <==> m in MarksAt(before, q) || (q == o && m == mark);
      }
    }

    /** Records the steps out of `st` that can be completed, and queues where they lead. */
    method Expand(st: State, seen: set<State>, queue: seq<State>, cover: Cover, maps: set<nat>, ghost edges: Edges)
      returns (queue': seq<State>, cover': Cover, maps': set<nat>, ghost edges': Edges)
      requires Valid() && InRecord(p, st) && Reached(p, st) && st !in seen
      requires forall q :: q in queue ==> InRecord(p, q) && Reached(p, q)
      requires Recorded(p, edges, cover, maps) && EdgesOf(p, seen, edges)
      requires Followed(p, seen, [st] + queue)
      modifies this`cache
      ensures Valid()
      ensures forall q :: q in queue' ==> InRecord(p, q) && Reached(p, q)
      ensures forall q :: q in queue ==> q in queue'
      ensures Recorded(p, edges', cover', maps') && EdgesOf(p, seen + {st}, edges')
      ensures Followed(p, seen + {st}, queue')
    {
      hide Describes, Splits, Legal, Problem.Readable, Reached, Viable, InRecord, Recorded, IsSplit;
      queue', cover', maps', edges' := queue, cover, maps, edges;
      var steps := Steps(p, st);
      for k := 0 to |steps|
        invariant Valid()
        invariant forall q :: q in queue' ==> InRecord(p, q) && Reached(p, q)
        invariant forall q :: q in queue ==> q in queue'
        invariant Recorded(p, edges', cover', maps')
        invariant forall u, s :: (u, s) in edges' <==>
          (u, s) in edges || (u == st && s in steps[..k] && Viable(p, Next(p, st, s)))
        invariant forall s :: s in steps[..k] && Viable(p, Next(p, st, s)) ==> Next(p, st, s) in queue'
      {
        var s := steps[k];
        assert steps[..k + 1] == steps[..k] + [s];
        StepMovesOn(p, st, s);
        var sub := TallyFrom(Next(p, st, s));
        ViableByTally(p, Next(p, st, s), sub);
        if sub.n == 0 {
          continue;
        }
        ReachedOneMore(p, st, s);
        if s.isMap {
          RecordMap(p, edges', cover', maps', st, s);
          maps' := maps' + {st.i};
        } else {
          var before := cover';
          cover' := AddToCover(before, st, s);
          RecordData(p, edges', before, cover', maps', st, s);
        }
        edges' := edges' + {(st, s)};
        queue' := queue' + [Next(p, st, s)];
      }
      assert steps[..|steps|] == steps;
      FollowedOneMore(p, seen, queue, queue', st);
    }

    method Walk() returns (cover: Cover, maps: set<nat>)
      requires Valid()
      modifies this`cache
      ensures Valid()
      ensures forall o, marked :: marked in MarksAt(cover, o) <==> CoveredBySplit(p, o, marked)
      ensures forall m :: m in maps <==> SplitPlacesMap(p, m)
    {
      hide Describes, Splits, Legal, Problem.Readable, Reached, Viable, Recorded, IsSplit, CoveredBySplit,
        SplitPlacesMap, Followed, EdgesOf;
      cover, maps := map[], {};
      ghost var edges: Edges := {};
      var seen: set<State> := {};
      var frontier := [Start(p)];
      NothingRecorded(p);
      StartIsReached(p);
      StartInRecord(p);
      while frontier != []
        invariant Valid() && seen <= AllStates(p)
        invariant forall q :: q in frontier ==> InRecord(p, q) && Reached(p, q)
        invariant Start(p) in seen || Start(p) in frontier
        invariant Recorded(p, edges, cover, maps) && EdgesOf(p, seen, edges)
        invariant Followed(p, seen, frontier)
        decreases AllStates(p) - seen, |frontier|
      {
        var n := |frontier| - 1;
        var st := frontier[n];
        ghost var before := frontier;
        frontier := frontier[..n];
        assert before == frontier + [st];
        FollowedReordered(p, seen, before, frontier, st);
        if st in seen {
          FollowedSkips(p, seen, frontier, st);
          continue;
        }
        InAllStates(p, st);
        frontier, cover, maps, edges := Expand(st, seen, frontier, cover, maps, edges);
        seen := seen + {st};
      }
      RecordsAreComplete(p, seen, edges, cover, maps);
    }

    /** Follows the first step that can be completed until the record is used up. */
    method FollowPath() returns (path: seq<Step>)
      requires Valid() && Viable(p, Start(p))
      modifies this`cache
      ensures Valid() && IsSplit(p, Start(p), path)
    {
      hide Describes, Splits, Legal, Problem.Readable, Viable, InRecord;
      path := [];
      var st := Start(p);
      StartInRecord(p);
      JoinNothing(p, path, st);
      while !IsDone(st)
        invariant Valid() && InRecord(p, st) && Viable(p, st)
        invariant Arrives(p, Start(p), path, st)
        decreases p.Width() - st.i
      {
        var s := FirstViable(st);
        StepMovesOn(p, st, s);
        ArrivesOneMore(p, Start(p), path, st, s);
        path := path + [s];
        st := Next(p, st, s);
      }
      DoneIsSplit(p, st);
      Joined(p, Start(p), path, st, [], 0, true);
      assert path + [] == path;
    }

    method FirstViable(st: State) returns (s: Step)
      requires Valid() && InRecord(p, st) && Viable(p, st) && !Done(p, st)
      modifies this`cache
      ensures Valid() && Legal(p, st, s) && Viable(p, Next(p, st, s))
    {
      hide Describes, Splits, Legal, Problem.Readable, InRecord, Viable, Done;
      var steps := Steps(p, st);
      ghost var one := SomeViableStep(p, st);
      var k := 0;
      while true
        invariant Valid() && k < |steps| && one in steps[k..]
        decreases |steps| - k
      {
        s := steps[k];
        StepMovesOn(p, st, s);
        var sub := TallyFrom(Next(p, st, s));
        ViableByTally(p, Next(p, st, s), sub);
        if sub.n > 0 {
          return;
        }
        assert steps[k..] == [s] + steps[k + 1..];
        k := k + 1;
      }
    }
  }

  lemma NoneYet(p: Problem, st: State)
    ensures Describes(Tally(0, 0, 0), SplitsVia(p, st, []))
  {
    NoSteps(p, st);
  }

  // ---------- facts the walk uses ----------

  lemma ViableByTally(p: Problem, st: State, t: Tally)
    requires Describes(t, Splits(p, st))
    ensures t.n > 0 <==> Viable(p, st)
  {
    hide IsSplit, DataCount;
    if t.n > 0 {
      var path :| path in Splits(p, st);
    }
    if Viable(p, st) {
      var path :| IsSplit(p, st, path);
      assert path in Splits(p, st);
    }
  }

  lemma FollowedOneMore(p: Problem, seen: set<State>, queue: seq<State>, queue': seq<State>, st: State)
    requires Followed(p, seen, [st] + queue)
    requires forall q :: q in queue ==> q in queue'
    requires forall s :: Legal(p, st, s) && Viable(p, Next(p, st, s)) ==> Next(p, st, s) in queue'
    ensures Followed(p, seen + {st}, queue')
  {
    hide Legal, Viable;
    forall u, s | u in seen + {st} && Legal(p, u, s) && Viable(p, Next(p, u, s))
      ensures Next(p, u, s) in seen + {st} || Next(p, u, s) in queue'
    {
      if u in seen {
        assert Next(p, u, s) in seen || Next(p, u, s) in [st] + queue;
      }
    }
  }

  lemma FollowedReordered(p: Problem, seen: set<State>, all: seq<State>, rest: seq<State>, st: State)
    requires Followed(p, seen, all) && all == rest + [st]
    ensures Followed(p, seen, [st] + rest)
  {
    hide Legal, Viable, Next;
    assert forall q :: q in all <==> q in [st] + rest;
  }

  lemma FollowedSkips(p: Problem, seen: set<State>, rest: seq<State>, st: State)
    requires Followed(p, seen, [st] + rest) && st in seen
    ensures Followed(p, seen, rest)
  {
    hide Legal, Viable, Next;
    assert forall q :: q in [st] + rest ==> q == st || q in rest;
  }

  lemma NothingRecorded(p: Problem)
    ensures Recorded(p, {}, map[], {}) && EdgesOf(p, {}, {}) && Followed(p, {}, [Start(p)])
  {
    hide Legal, Viable, Reached;
  }

  lemma StartInRecord(p: Problem)
    requires p.Readable()
    ensures InRecord(p, Start(p)) && p.rows != []
  {
  }

  /** The states a walk can meet are finitely many. */
  function AllStates(p: Problem): set<State>
    requires p.rows != []
  {
    set i, f, ms | 0 <= i <= p.Width() && 0 <= f <= p.BlockSize() && 0 <= ms <= p.Width() :: State(i, f, ms)
  }

  lemma InAllStates(p: Problem, st: State)
    requires InRecord(p, st)
    ensures st in AllStates(p)
  {
  }

  lemma SomeViableStep(p: Problem, st: State) returns (s: Step)
    requires Viable(p, st) && !Done(p, st)
    ensures Legal(p, st, s) && Viable(p, Next(p, st, s))
  {
    hide Legal, Done;
    var path :| IsSplit(p, st, path);
    s := path[0];
    assert IsSplit(p, Next(p, st, s), path[1..]);
  }

  lemma JoinNothing(p: Problem, path: seq<Step>, st: State)
    requires path == [] && st == Start(p)
    ensures Arrives(p, Start(p), path, st)
  {
  }

  lemma DoneIsSplit(p: Problem, st: State)
    requires Done(p, st)
    ensures IsSplit(p, st, [])
  {
  }

  // ---------- the answer ----------

  datatype Verdict = Exact | Consistent | Broken

  /** `path` is the split when it is unique; `fill` and `maps` are byte offsets. */
  datatype Fit = Fit(
    verdict: Verdict,
    splits: nat,
    path: seq<Step>,
    fewest: int,
    most: int,
    fill: set<nat>,
    maps: set<nat>)

  ghost function AllSplits(p: Problem): Paths {
    Splits(p, Start(p))
  }

  ghost predicate VerdictOk(p: Problem, fit: Fit) {
    match fit.verdict
    case Broken => AllSplits(p) == iset{} && fit.splits == 0
    case Exact => AllSplits(p) == iset{fit.path} && fit.splits == 1
    case Consistent => (exists a, b :: a in AllSplits(p) && b in AllSplits(p) && a != b) && fit.splits == 2
  }

  /** Fewest and most data parameters over all splits. */
  ghost predicate CountsOk(p: Problem, fit: Fit) {
    if fit.verdict == Broken then fit.fewest == 0 && fit.most == 0
    else Bounds(Tally(fit.splits, fit.fewest, fit.most), AllSplits(p))
  }

  /** A byte is fill exactly when some split has a data parameter over it, and every such one is unmarked. */
  ghost predicate FillOk(p: Problem, fit: Fit) {
    forall o :: o in fit.fill <==> CoveredBySplit(p, o, false) && !CoveredBySplit(p, o, true)
  }

  ghost predicate MapsOk(p: Problem, fit: Fit) {
    forall m :: m in fit.maps <==> SplitPlacesMap(p, m)
  }

  lemma NoSplitsNothing(p: Problem)
    requires AllSplits(p) == iset{}
    ensures forall o, marked :: !CoveredBySplit(p, o, marked)
    ensures forall m :: !SplitPlacesMap(p, m)
  {
    hide IsSplit, Covers, PlacesMap;
    forall path
      ensures !IsSplit(p, Start(p), path)
    {
      assert path !in AllSplits(p);
    }
  }

  lemma TallyConcludes(p: Problem, t: Tally, fit: Fit)
    requires Describes(t, AllSplits(p)) && t.n > 0
    requires fit.splits == t.n && fit.fewest == t.lo && fit.most == t.hi
    requires fit.verdict == if t.n == 1 then Exact else Consistent
    requires t.n == 1 ==> AllSplits(p) == iset{fit.path}
    ensures VerdictOk(p, fit) && CountsOk(p, fit)
  {
    hide AllSplits, Bounds;
    if t.n == 2 {
      var a, b :| a in AllSplits(p) && b in AllSplits(p) && a != b;
    }
  }

  lemma ExactlyOne(p: Problem, t: Tally, path: seq<Step>)
    requires Describes(t, AllSplits(p)) && t.n == 1 && IsSplit(p, Start(p), path)
    ensures AllSplits(p) == iset{path}
  {
    hide IsSplit, Bounds;
    assert path in AllSplits(p);
  }

  /** The split of the record's bytes into parameters: how sure it is, and what every split agrees on. */
  method SolveFields(p: Problem) returns (r: Option<Fit>)
    ensures r.None? <==> !p.Readable()
    ensures r.Some? ==> VerdictOk(p, r.value) && CountsOk(p, r.value) && FillOk(p, r.value) && MapsOk(p, r.value)
  {
    hide IsSplit, Problem.Readable, CoveredBySplit, SplitPlacesMap, Bounds, Viable;
    if !p.Readable() {
      return None;
    }
    var solver := new Solver(p);
    StartInRecord(p);
    var t := solver.TallyFrom(Start(p));
    ViableByTally(p, Start(p), t);
    if t.n == 0 {
      NoSplitsNothing(p);
      return Some(Fit(Broken, 0, [], 0, 0, {}, {}));
    }
    var cover, maps := solver.Walk();
    var fill := set o | o in cover && cover[o] == {false};
    var path := [];
    if t.n == 1 {
      path := solver.FollowPath();
      ExactlyOne(p, t, path);
    }
    FillIsUnmarked(p, cover, fill);
    var fit := Fit(if t.n == 1 then Exact else Consistent, t.n, path, t.lo, t.hi, fill, maps);
    TallyConcludes(p, t, fit);
    return Some(fit);
  }

  lemma FillIsUnmarked(p: Problem, cover: Cover, fill: set<nat>)
    requires forall o, marked :: marked in MarksAt(cover, o) <==> CoveredBySplit(p, o, marked)
    requires fill == set o | o in cover && cover[o] == {false}
    ensures forall o :: o in fill <==> CoveredBySplit(p, o, false) && !CoveredBySplit(p, o, true)
  {
    hide CoveredBySplit;
    forall o: nat
      ensures o in fill <==> false in MarksAt(cover, o) && true !in MarksAt(cover, o)
    {
      if o in cover && false in cover[o] && true !in cover[o] {
        assert forall b :: b in cover[o] <==> b in {false};
        assert cover[o] == {false};
      }
    }
  }
}
