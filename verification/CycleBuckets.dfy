/** A session's captures grouped into pseudo-cycles: windows opened by their first capture. */
module CycleBuckets {
  import opened Wrappers
  import opened Sorting

  /** A stored capture; `at` is absent when its date or time cannot be read. */
  datatype Capture = Capture(at: Option<real>, body: string)

  function TimeOf(c: Capture): real {
    if c.at.Some? then c.at.value else 0.0
  }

  predicate NotAfter(a: Capture, b: Capture) {
    TimeOf(a) <= TimeOf(b)
  }

  function Select(captures: seq<Capture>, timed: bool): seq<Capture> {
    if captures == [] then []
    else
      var before, c := Select(captures[..|captures| - 1], timed), captures[|captures| - 1];
      if c.at.Some? == timed then before + [c] else before
  }

  lemma SelectOne(captures: seq<Capture>, c: Capture, timed: bool)
    ensures Select(captures + [c], timed) == Select(captures, timed) + if c.at.Some? == timed then [c] else []
  {
    assert (captures + [c])[..|captures|] == captures;
  }

  lemma SelectNone(timed: bool)
    ensures Select([], timed) == []
  {
  }

  /** Captures are selected one by one, in order, by whether their time can be read. */
  lemma {:induction false} SelectedOneByOne(captures: seq<Capture>, more: seq<Capture>, timed: bool)
    ensures Select(captures + more, timed) == Select(captures, timed) + Select(more, timed)
    ensures |more| == 1 ==> Select(more, timed) == if more[0].at.Some? == timed then more else []
  {
    hide *;
    SelectNone(timed);
    if more == [] {
      assert captures + more == captures;
    } else {
      var rest, c := more[..|more| - 1], more[|more| - 1];
      var one := if c.at.Some? == timed then [c] else [];
      SelectedOneByOne(captures, rest, timed);
      SelectOne(rest, c, timed);
      SelectOne(captures + rest, c, timed);
      assert captures + more == captures + rest + [c] && more == rest + [c];
      assert Select(captures, timed) + Select(rest, timed) + one == Select(captures, timed) + (Select(rest, timed) + one);
      assert |more| == 1 ==> rest == [] && [] + one == one && more == [c];
    }
  }

  function Flat(cycles: seq<seq<Capture>>): seq<Capture> {
    if cycles == [] then [] else Flat(cycles[..|cycles| - 1]) + cycles[|cycles| - 1]
  }

  predicate IsWindow(tol: real, cycle: seq<Capture>) {
    cycle != [] && forall k :: 0 < k < |cycle| ==> TimeOf(cycle[k]) - TimeOf(cycle[0]) <= tol
  }

  predicate OpensNext(tol: real, cycle: seq<Capture>, next: seq<Capture>) {
    cycle != [] && next != [] && TimeOf(next[0]) - TimeOf(cycle[0]) > tol
  }

  /** The captures in order, cut where one lies further than `tol` from the capture that opened its window. */
  ghost predicate IsCut(tol: real, captures: seq<Capture>, cycles: seq<seq<Capture>>) {
    && Flat(cycles) == captures
    && (forall i :: 0 <= i < |cycles| ==> IsWindow(tol, cycles[i]))
    && (forall i :: 0 <= i < |cycles| - 1 ==> OpensNext(tol, cycles[i], cycles[i + 1]))
  }

  lemma FlatAppend(cycles: seq<seq<Capture>>, cycle: seq<Capture>)
    ensures Flat(cycles + [cycle]) == Flat(cycles) + cycle
  {
    assert (cycles + [cycle])[..|cycles|] == cycles;
  }

  /** The untimed captures, which no window can hold, make one cycle at the end. */
  function WithUntimed(windows: seq<seq<Capture>>, untimed: seq<Capture>): seq<seq<Capture>> {
    if untimed == [] then windows else windows + [untimed]
  }

  method BucketCycles(captures: seq<Capture>, tol: real)
    returns (cycles: seq<seq<Capture>>, timed: bool, ghost sorted: seq<Capture>, ghost order: seq<nat>)
    ensures IsStablySorted(Select(captures, true), sorted, order, NotAfter)
    ensures timed <==> Select(captures, true) != []
    ensures exists windows :: IsCut(tol, sorted, windows) && cycles == WithUntimed(windows, Select(captures, false))
  {
    hide IsStablySorted;
    var timedCaps: seq<Capture>, untimed: seq<Capture> := [], [];
    for m := 0 to |captures|
      invariant timedCaps == Select(captures[..m], true) && untimed == Select(captures[..m], false)
    {
      assert captures[..m + 1][..m] == captures[..m];
      if captures[m].at.Some? {
        timedCaps := timedCaps + [captures[m]];
      } else {
        untimed := untimed + [captures[m]];
      }
    }
    assert captures[..|captures|] == captures;
    var inOrder;
    inOrder, order := SortBy(timedCaps, NotAfter);
    sorted := inOrder;
    SameLength(timedCaps, inOrder);
    var windows := CutWindows(inOrder, tol);
    cycles := windows;
    if untimed != [] {
      cycles := cycles + [untimed];
    }
    timed := timedCaps != [];
    assert cycles == WithUntimed(windows, Select(captures, false));
  }

  lemma SameLength(a: seq<Capture>, b: seq<Capture>)
    requires multiset(a) == multiset(b)
    ensures |a| == |b|
  {
    assert |multiset(a)| == |a| && |multiset(b)| == |b|;
  }

  method CutWindows(captures: seq<Capture>, tol: real) returns (cycles: seq<seq<Capture>>)
    ensures IsCut(tol, captures, cycles)
  {
    cycles := [];
    var current: seq<Capture>, anchor: Option<real> := [], None;
    for m := 0 to |captures|
      invariant current == [] <==> m == 0
      invariant anchor == if current == [] then None else Some(TimeOf(current[0]))
      invariant current == [] ==> cycles == []
      invariant current != [] ==> IsCut(tol, captures[..m], cycles + [current])
    {
      var c := captures[m];
      assert captures[..m + 1] == captures[..m] + [c];
      if anchor.None? || TimeOf(c) - anchor.value > tol {
        OpenWindow(tol, captures[..m], cycles, current, c);
        if current != [] {
          cycles := cycles + [current];
        }
        current, anchor := [c], Some(TimeOf(c));
      } else {
        GrowWindow(tol, captures[..m], cycles, current, c);
        current := current + [c];
      }
    }
    assert captures[..|captures|] == captures;
    if current != [] {
      cycles := cycles + [current];
    }
  }

  lemma OpenWindow(tol: real, captures: seq<Capture>, cycles: seq<seq<Capture>>, current: seq<Capture>, c: Capture)
    requires (current == [] ==> cycles == [] && captures == [])
    requires current != [] ==> IsCut(tol, captures, cycles + [current]) && TimeOf(c) - TimeOf(current[0]) > tol
    ensures IsCut(tol, captures + [c], (if current != [] then cycles + [current] else cycles) + [[c]])
  {
    var before := if current != [] then cycles + [current] else cycles;
    FlatAppend(before, [c]);
    hide Flat;
    var after := before + [[c]];
    assert IsWindow(tol, [c]);
    forall i | 0 <= i < |after| - 1
      ensures OpensNext(tol, after[i], after[i + 1])
    {
      assert i < |before| - 1 ==> OpensNext(tol, before[i], before[i + 1]);
    }
    assert current == [] ==> Flat(before) == [] by {
      EmptyIsFlat();
    }
  }

  lemma EmptyIsFlat()
    ensures Flat([]) == []
  {
  }

  lemma GrowWindow(tol: real, captures: seq<Capture>, cycles: seq<seq<Capture>>, current: seq<Capture>, c: Capture)
    requires current != [] && IsCut(tol, captures, cycles + [current]) && TimeOf(c) - TimeOf(current[0]) <= tol
    ensures IsCut(tol, captures + [c], cycles + [current + [c]])
  {
    FlatAppend(cycles, current);
    FlatAppend(cycles, current + [c]);
    hide Flat;
    var before, after := cycles + [current], cycles + [current + [c]];
    assert (Flat(cycles) + current) + [c] == Flat(cycles) + (current + [c]);
    assert IsWindow(tol, current) by {
      assert before[|cycles|] == current;
    }
    assert IsWindow(tol, current + [c]);
    forall i | 0 <= i < |after|
      ensures IsWindow(tol, after[i])
    {
      assert i < |cycles| ==> after[i] == before[i];
    }
    forall i | 0 <= i < |after| - 1
      ensures OpensNext(tol, after[i], after[i + 1])
    {
      assert OpensNext(tol, before[i], before[i + 1]);
    }
  }

  // ---------- there is one way to cut ----------

  lemma {:induction false} FlatHead(cycles: seq<seq<Capture>>)
    requires cycles != []
    ensures Flat(cycles) == cycles[0] + Flat(cycles[1..])
  {
    if |cycles| > 1 {
      var before := cycles[..|cycles| - 1];
      FlatHead(before);
      assert before[1..] == cycles[1..][..|cycles| - 2];
    } else {
      assert cycles[..0] == [] && cycles[1..] == [];
    }
  }

  /** Where the first window ends is settled by the captures. */
  lemma FirstWindowIs(tol: real, captures: seq<Capture>, cycles: seq<seq<Capture>>)
    requires IsCut(tol, captures, cycles) && cycles != []
    ensures var n := |cycles[0]|;
      && 0 < n <= |captures|
      && (forall k :: 0 < k < n ==> TimeOf(captures[k]) - TimeOf(captures[0]) <= tol)
      && (n < |captures| ==> TimeOf(captures[n]) - TimeOf(captures[0]) > tol)
  {
    FlatHead(cycles);
    var n := |cycles[0]|;
    assert IsWindow(tol, cycles[0]);
    assert forall k :: 0 <= k < n ==> captures[k] == cycles[0][k];
    if |cycles| > 1 {
      FlatHead(cycles[1..]);
      assert OpensNext(tol, cycles[0], cycles[1]);
      assert captures[n] == cycles[1][0];
    } else {
      assert cycles[1..] == [];
    }
  }

  lemma FirstWindowsAgree(tol: real, captures: seq<Capture>, a: seq<seq<Capture>>, b: seq<seq<Capture>>)
    requires IsCut(tol, captures, a) && IsCut(tol, captures, b) && a != [] && b != []
    ensures |a[0]| <= |b[0]|
  {
    FirstWindowIs(tol, captures, a);
    FirstWindowIs(tol, captures, b);
    hide IsCut;
  }

  lemma {:induction false} CutIsUnique(tol: real, captures: seq<Capture>, a: seq<seq<Capture>>, b: seq<seq<Capture>>)
    requires IsCut(tol, captures, a) && IsCut(tol, captures, b)
    ensures a == b
    decreases |a|
  {
    EmptyIsFlat();
    SomeCycles(tol, captures, a);
    SomeCycles(tol, captures, b);
    if a != [] && b != [] {
      FirstWindowsAgree(tol, captures, a, b);
      FirstWindowsAgree(tol, captures, b, a);
      RestIsCut(tol, captures, a);
      RestIsCut(tol, captures, b);
      hide IsCut;
      CutIsUnique(tol, captures[|a[0]|..], a[1..], b[1..]);
      assert a == [a[0]] + a[1..] && b == [b[0]] + b[1..];
    }
  }

  lemma SomeCycles(tol: real, captures: seq<Capture>, cycles: seq<seq<Capture>>)
    requires IsCut(tol, captures, cycles)
    ensures captures == [] <==> cycles == []
  {
    if cycles != [] {
      assert IsWindow(tol, cycles[|cycles| - 1]);
    }
  }

  lemma RestIsCut(tol: real, captures: seq<Capture>, cycles: seq<seq<Capture>>)
    requires IsCut(tol, captures, cycles) && cycles != []
    ensures |cycles[0]| <= |captures| && captures[..|cycles[0]|] == cycles[0]
    ensures IsCut(tol, captures[|cycles[0]|..], cycles[1..])
  {
    FlatHead(cycles);
    hide Flat;
    var rest := cycles[1..];
    assert captures[|cycles[0]|..] == Flat(rest);
    forall i | 0 <= i < |rest| - 1
      ensures OpensNext(tol, rest[i], rest[i + 1])
    {
      assert OpensNext(tol, cycles[i + 1], cycles[i + 2]);
    }
  }
}
