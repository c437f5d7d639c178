/**
  The defined fields of a record, from the bytes its signals read.

  `KnownFields` drops signals that combine several parameters and merges those that overlap; its
  contract says which bytes end up together.
 */
module KnownFields {
  import opened Sorting
  import opened SupportFields

  type Bytes = set<nat>

  function Range(lo: nat, hi: nat): (r: Bytes)
    ensures forall o :: o in r <==> lo <= o < hi
    decreases hi
  {
    if lo >= hi then {} else Range(lo, hi - 1) + {hi - 1}
  }

  lemma {:induction false} RangeSize(lo: nat, hi: nat)
    requires lo <= hi
    ensures |Range(lo, hi)| == hi - lo
    decreases hi
  {
    if lo < hi {
      RangeSize(lo, hi - 1);
    }
  }

  predicate IsLeast(s: Bytes, m: nat) {
    m in s && forall o :: o in s ==> m <= o
  }

  predicate IsMost(s: Bytes, m: nat) {
    m in s && forall o :: o in s ==> o <= m
  }

  lemma {:induction false} EndsExist(s: Bytes)
    requires s != {}
    ensures (exists m :: IsLeast(s, m)) && (exists m :: IsMost(s, m))
    decreases |s|
  {
    var x :| x in s;
    var rest := s - {x};
    assert forall o :: o in s <==> o == x || o in rest;
    if rest == {} {
      assert s == {x};
      assert IsLeast(s, x) && IsMost(s, x);
    } else {
      EndsExist(rest);
      var lo :| IsLeast(rest, lo);
      var hi :| IsMost(rest, hi);
      assert IsLeast(s, if x < lo then x else lo);
      assert IsMost(s, if x > hi then x else hi);
    }
  }

  function Least(s: Bytes): (m: nat)
    requires s != {}
    ensures IsLeast(s, m)
  {
    EndsExist(s);
    var m :| m in s && IsLeast(s, m);
    m
  }

  function Most(s: Bytes): (m: nat)
    requires s != {}
    ensures IsMost(s, m)
  {
    EndsExist(s);
    var m :| m in s && IsMost(s, m);
    m
  }

  function Extent(s: Bytes): (r: Span)
    requires s != {}
    ensures r.start < r.end
  {
    Span(Least(s), Most(s) + 1)
  }

  /** `Extent`, with a stand-in for the empty signal, which no run is. */
  function ExtentOf(s: Bytes): Span {
    if s == {} then Span(0, 1) else Extent(s)
  }

  /** The bytes of a signal lie side by side. */
  predicate IsRun(s: Bytes) {
    s != {} && s == Range(Extent(s).start, Extent(s).end)
  }

  /** Counting tells: as many bytes as the extent is wide. */
  lemma RunByCount(s: Bytes)
    requires s != {}
    ensures Most(s) - Least(s) + 1 == |s| <==> IsRun(s)
  {
    var r := Range(Extent(s).start, Extent(s).end);
    RangeSize(Extent(s).start, Extent(s).end);
    assert s <= r;
    if |s| == |r| {
      assert |r - s| == |r| - |s|;
      assert r - s == {};
      assert r == s + (r - s);
    }
  }

  // ---------- which signals count ----------

  function UnionOf(sets: seq<Bytes>): Bytes {
    if sets == [] then {} else UnionOf(sets[..|sets| - 1]) + sets[|sets| - 1]
  }

  ghost predicate IsInner(signals: seq<Bytes>, s: Bytes, t: Bytes) {
    t in signals && IsRun(t) && t < s
  }

  /** The narrower runs inside `s` cover it between them. */
  ghost predicate IsCovered(signals: seq<Bytes>, s: Bytes) {
    forall o :: o in s ==> exists t :: IsInner(signals, s, t) && o in t
  }

  /** A signal reading one field: a run its narrower neighbours do not cover. */
  ghost predicate IsKept(signals: seq<Bytes>, s: Bytes) {
    s in signals && IsRun(s) && !IsCovered(signals, s)
  }

  lemma {:induction false} UnionTells(sets: seq<Bytes>)
    ensures forall o :: o in UnionOf(sets) <==> exists t :: t in sets && o in t
  {
    if sets != [] {
      UnionTells(sets[..|sets| - 1]);
      assert sets == sets[..|sets| - 1] + [sets[|sets| - 1]];
    }
  }

  method RunsOf(signals: seq<Bytes>) returns (runs: seq<Bytes>)
    ensures forall s :: s in runs <==> s in signals && IsRun(s)
  {
    hide IsRun, Least, Most;
    runs := [];
    for m := 0 to |signals|
      invariant forall s :: s in runs <==> s in signals[..m] && IsRun(s)
    {
      var s := signals[m];
      assert signals[..m + 1] == signals[..m] + [s];
      NotARun(s);
      if s != {} {
        RunByCount(s);
        if Most(s) - Least(s) + 1 == |s| && s !in runs {
          runs := runs + [s];
        }
      }
    }
    assert signals[..|signals|] == signals;
  }

  lemma NotARun(s: Bytes)
    ensures s == {} ==> !IsRun(s)
  {
  }

  ghost predicate IsCoveredBy(runs: seq<Bytes>, s: Bytes) {
    forall o :: o in s ==> exists t :: t in runs && t < s && o in t
  }

  method CoveredByInner(runs: seq<Bytes>, s: Bytes) returns (covered: bool)
    requires s != {}
    ensures covered <==> IsCoveredBy(runs, s)
  {
    var inner: seq<Bytes> := [];
    for m := 0 to |runs|
      invariant forall t :: t in inner <==> t in runs[..m] && t < s
    {
      assert runs[..m + 1] == runs[..m] + [runs[m]];
      if runs[m] < s {
        inner := inner + [runs[m]];
      }
    }
    assert runs[..|runs|] == runs;
    UnionTells(inner);
    covered := inner != [] && UnionOf(inner) == s;
    InnerIsWithin(inner, s);
  }

  lemma InnerIsWithin(inner: seq<Bytes>, s: Bytes)
    requires s != {} && forall t :: t in inner ==> t < s
    ensures inner != [] && UnionOf(inner) == s <==> forall o :: o in s ==> exists t :: t in inner && o in t
  {
    UnionTells(inner);
    hide UnionOf;
    var o := Least(s);
    assert UnionOf(inner) <= s;
    assert (forall o :: o in s ==> o in UnionOf(inner)) <==> s <= UnionOf(inner);
  }

  ghost predicate AreExtents(signals: seq<Bytes>, kept: seq<Span>) {
    forall r :: r in kept <==> exists s :: IsKept(signals, s) && r == ExtentOf(s)
  }

  method KeptExtents(signals: seq<Bytes>) returns (kept: seq<Span>)
    ensures AreExtents(signals, kept)
  {
    hide IsRun, Extent, IsKept, IsCoveredBy;
    var runs := RunsOf(signals);
    kept := [];
    KeptAreRuns(signals, runs);
    for m := 0 to |runs|
      invariant forall r :: r in kept <==> exists s :: s in runs[..m] && IsKept(signals, s) && r == ExtentOf(s)
    {
      var s := runs[m];
      assert runs[..m + 1] == runs[..m] + [s] && s in runs;
      NotARun(s);
      var covered := CoveredByInner(runs, s);
      KeptIfUncovered(signals, runs, s, covered);
      if !covered {
        kept := kept + [ExtentOf(s)];
      }
    }
    assert runs[..|runs|] == runs;
  }

  lemma KeptAreRuns(signals: seq<Bytes>, runs: seq<Bytes>)
    requires forall t :: t in runs <==> t in signals && IsRun(t)
    ensures forall s :: IsKept(signals, s) ==> s in runs
  {
    hide IsRun, IsCovered;
  }

  lemma KeptIfUncovered(signals: seq<Bytes>, runs: seq<Bytes>, s: Bytes, covered: bool)
    requires forall t :: t in runs <==> t in signals && IsRun(t)
    requires s in runs && (covered <==> IsCoveredBy(runs, s))
    ensures IsKept(signals, s) <==> !covered
  {
    hide IsRun;
    SameCover(signals, runs, s);
    hide IsCovered, IsCoveredBy;
  }

  lemma SameCover(signals: seq<Bytes>, runs: seq<Bytes>, s: Bytes)
    requires forall t :: t in runs <==> t in signals && IsRun(t)
    ensures IsCovered(signals, s) <==> IsCoveredBy(runs, s)
  {
    hide IsRun;
    forall o | o in s
      ensures (exists t :: IsInner(signals, s, t) && o in t) <==> exists t :: t in runs && t < s && o in t
    {
      if t :| IsInner(signals, s, t) && o in t {
        assert t in runs && t < s && o in t;
      }
      if t :| t in runs && t < s && o in t {
        assert IsInner(signals, s, t) && o in t;
      }
    }
    hide IsInner;
  }

  // ---------- merging ----------

  predicate ReadsBoth(s: Span, o: nat) {
    Reads(s, o) && Reads(s, o + 1)
  }

  predicate NotAfter(a: Span, b: Span) {
    a.start < b.start || (a.start == b.start && a.end <= b.end)
  }

  /** Side by side from left to right, none empty. */
  ghost predicate AreApart(spans: seq<Span>) {
    && (forall i :: 0 <= i < |spans| ==> spans[i].start < spans[i].end)
    && (forall i, k :: 0 <= i < k < |spans| ==> spans[i].end <= spans[k].start)
  }

  ghost predicate SomeReads(spans: seq<Span>, o: nat) {
    exists s :: s in spans && Reads(s, o)
  }

  ghost predicate SomeReadsBoth(spans: seq<Span>, o: nat) {
    exists s :: s in spans && ReadsBoth(s, o)
  }

  /** The merged spans cover the bytes the kept ones do, and hold two neighbouring bytes together as they do. */
  ghost predicate MergedSoFar(kept: seq<Span>, merged: seq<Span>) {
    && AreApart(merged)
    && (forall o :: SomeReads(merged, o) <==> SomeReads(kept, o))
    && (forall o :: SomeReadsBoth(merged, o) <==> SomeReadsBoth(kept, o))
  }

  lemma SomeAppend(spans: seq<Span>, s: Span, o: nat)
    ensures SomeReads(spans + [s], o) <==> SomeReads(spans, o) || Reads(s, o)
    ensures SomeReadsBoth(spans + [s], o) <==> SomeReadsBoth(spans, o) || ReadsBoth(s, o)
  {
    assert forall x :: x in spans + [s] <==> x in spans || x == s;
  }

  /** A span that begins inside the last one widens it. */
  function Widened(last: Span, s: Span): Span {
    Span(last.start, if s.end > last.end then s.end else last.end)
  }

  lemma MergeStep(kept: seq<Span>, merged: seq<Span>, s: Span)
    requires MergedSoFar(kept, merged) && s.start < s.end
    requires merged != [] ==> merged[|merged| - 1].start <= s.start
    ensures merged != [] && s.start < merged[|merged| - 1].end ==>
      MergedSoFar(kept + [s], merged[..|merged| - 1] + [Widened(merged[|merged| - 1], s)])
    ensures !(merged != [] && s.start < merged[|merged| - 1].end) ==> MergedSoFar(kept + [s], merged + [s])
  {
    hide SomeReads, SomeReadsBoth;
    if merged != [] && s.start < merged[|merged| - 1].end {
      var before, last := merged[..|merged| - 1], merged[|merged| - 1];
      assert merged == before + [last];
      forall o: nat
        ensures SomeReads(before + [Widened(last, s)], o) <==> SomeReads(kept + [s], o)
        ensures SomeReadsBoth(before + [Widened(last, s)], o) <==> SomeReadsBoth(kept + [s], o)
      {
        SomeAppend(before, last, o);
        SomeAppend(before, Widened(last, s), o);
        SomeAppend(kept, s, o);
      }
    } else {
      LastEndsFurthest(merged);
      forall o: nat
        ensures SomeReads(merged + [s], o) <==> SomeReads(kept + [s], o)
        ensures SomeReadsBoth(merged + [s], o) <==> SomeReadsBoth(kept + [s], o)
      {
        SomeAppend(merged, s, o);
        SomeAppend(kept, s, o);
      }
    }
  }

  lemma LastEndsFurthest(merged: seq<Span>)
    requires AreApart(merged)
    ensures forall i :: 0 <= i < |merged| ==> merged[i].end <= merged[|merged| - 1].end
  {
  }

  method MergeSpans(sorted: seq<Span>) returns (merged: seq<Span>)
    requires forall i :: 0 <= i < |sorted| ==> sorted[i].start < sorted[i].end
    requires forall i, k :: 0 <= i < k < |sorted| ==> sorted[i].start <= sorted[k].start
    ensures MergedSoFar(sorted, merged)
  {
    hide MergedSoFar;
    merged := [];
    NothingMerged();
    for n := 0 to |sorted|
      invariant MergedSoFar(sorted[..n], merged)
      invariant forall i :: 0 <= i < |merged| ==> exists k :: 0 <= k < n && merged[i].start == sorted[k].start
    {
      var s := sorted[n];
      assert sorted[..n + 1] == sorted[..n] + [s];
      MergeStep(sorted[..n], merged, s);
      if merged != [] && s.start < merged[|merged| - 1].end {
        var last := merged[|merged| - 1];
        merged := merged[..|merged| - 1] + [Span(last.start, if s.end > last.end then s.end else last.end)];
      } else {
        merged := merged + [s];
      }
    }
    assert sorted[..|sorted|] == sorted;
  }

  lemma NothingMerged()
    ensures MergedSoFar([], [])
  {
  }

  lemma NotAfterIsTotal()
    ensures IsTotal(NotAfter)
  {
  }

  /**
    The defined fields: apart from each other, over exactly the bytes the kept signals read, with two
    neighbouring bytes in one field exactly when one such signal reads both.
   */
  ghost predicate AreFields(signals: seq<Bytes>, fields: seq<Span>) {
    exists kept :: AreExtents(signals, kept) && MergedSoFar(kept, fields)
  }

  method KnownFields(signals: seq<Bytes>) returns (fields: seq<Span>)
    ensures AreFields(signals, fields) && DisjointSpans(fields)
  {
    hide AreExtents, MergedSoFar, IsTotal, IsStablySorted;
    var extents := KeptExtents(signals);
    ExtentsHaveWidth(signals, extents);
    NotAfterIsTotal();
    var sorted, order := SortBy(extents, NotAfter);
    SameSpans(extents, sorted);
    fields := MergeSpans(sorted);
    Rearranged(extents, sorted, fields);
    ApartIsDisjoint(extents, fields);
  }

  lemma ExtentsHaveWidth(signals: seq<Bytes>, kept: seq<Span>)
    requires AreExtents(signals, kept)
    ensures forall r :: r in kept ==> r.start < r.end
  {
    hide IsKept;
    forall r | r in kept
      ensures r.start < r.end
    {
      var s :| IsKept(signals, s) && r == ExtentOf(s);
    }
  }

  lemma SameSpans(a: seq<Span>, b: seq<Span>)
    requires multiset(a) == multiset(b)
    ensures forall s :: s in a <==> s in b
  {
    forall s
      ensures s in a <==> s in b
    {
      assert s in multiset(a) <==> s in multiset(b);
    }
  }

  lemma Rearranged(kept: seq<Span>, sorted: seq<Span>, merged: seq<Span>)
    requires MergedSoFar(sorted, merged) && forall s :: s in kept <==> s in sorted
    ensures MergedSoFar(kept, merged)
  {
    hide ReadsBoth;
  }

  lemma ApartIsDisjoint(kept: seq<Span>, merged: seq<Span>)
    requires MergedSoFar(kept, merged)
    ensures DisjointSpans(merged)
  {
    hide SomeReads, SomeReadsBoth;
  }
}
