/**
  Nearest-timestamp joins of two clocks, with forward fill as a fallback.

  `Matched` says what a join row is without any search; `JoinIndices` is the bisecting loop.
 */
module TimeJoin {
  import opened Wrappers

  /** Candidate timestamps, ascending. */
  type Clock = seq<real>

  predicate Sorted(ts: Clock) {
    forall i, j :: 0 <= i < j < |ts| ==> ts[i] <= ts[j]
  }

  function Distance(a: real, b: real): real {
    if a < b then b - a else a - b
  }

  /**
    Candidate `a` is preferred to `b` at instant `rt`: it is nearer, or as near but before `rt`
    while `b` is not; of several candidates at one instant the one next to `rt` in the list.
   */
  predicate Preferred(cand: Clock, rt: real, a: nat, b: nat)
    requires a < |cand| && b < |cand|
  {
    if Distance(cand[a], rt) != Distance(cand[b], rt) then Distance(cand[a], rt) < Distance(cand[b], rt)
    else if (cand[a] < rt) != (cand[b] < rt) then cand[a] < rt
    else if cand[a] < rt then b < a
    else a < b
  }

  /** No candidate is preferred to `j`. */
  ghost predicate IsNearest(cand: Clock, rt: real, j: nat) {
    j < |cand| && forall k :: 0 <= k < |cand| && k != j ==> Preferred(cand, rt, j, k)
  }

  /** `j` is the last candidate before `rt`. */
  ghost predicate IsLastBefore(cand: Clock, rt: real, j: nat) {
    j < |cand| && cand[j] < rt && forall k :: j < k < |cand| ==> rt <= cand[k]
  }

  ghost predicate Within(cand: Clock, rt: real, tol: real) {
    exists j :: 0 <= j < |cand| && Distance(cand[j], rt) <= tol
  }

  type Holds = Option<seq<real>>

  /** Reference instant `rt` is joined to candidate `j`. */
  ghost predicate Matched(cand: Clock, tol: real, hold: Holds, rt: real, j: nat) {
    if Within(cand, rt, tol) then IsNearest(cand, rt, j)
    else
      && hold.Some? && |hold.value| == |cand|
      && IsLastBefore(cand, rt, j) && rt <= hold.value[j]
  }

  predicate Increasing(rows: seq<nat>) {
    forall m, n :: 0 <= m < n < |rows| ==> rows[m] < rows[n]
  }

  /** The rows of a join, in reference order. */
  ghost predicate IsJoin(ref: Clock, cand: Clock, tol: real, hold: Holds, refIdx: seq<nat>, candIdx: seq<nat>) {
    && |refIdx| == |candIdx|
    && (forall m :: 0 <= m < |refIdx| ==> refIdx[m] < |ref| && Matched(cand, tol, hold, ref[refIdx[m]], candIdx[m]))
    && Increasing(refIdx)
    && (forall k: nat, j: nat :: k < |ref| && Matched(cand, tol, hold, ref[k], j) ==> k in refIdx)
  }

  /** Candidate `k` gives way to `j`: plainly farther, or tied and after `rt`, or further from it in the list. */
  predicate GivesWay(cand: Clock, rt: real, j: nat, k: nat)
    requires j < |cand| && k < |cand|
  {
    if cand[j] < rt then
      if cand[k] < rt then cand[k] < cand[j] || (cand[k] == cand[j] && k < j) else rt - cand[j] <= cand[k] - rt
    else
      if rt <= cand[k] then cand[j] < cand[k] || (cand[k] == cand[j] && j < k) else cand[j] - rt < rt - cand[k]
  }

  /**
    In plain terms: no candidate is nearer on either side; one before `rt` is the last of its instant and
    beats one as near after `rt`; one at or after `rt` is the first of its instant.
   */
  lemma NearestInPlainTerms(cand: Clock, rt: real, j: nat)
    ensures IsNearest(cand, rt, j) <==>
      j < |cand| && forall k :: 0 <= k < |cand| && k != j ==> GivesWay(cand, rt, j, k)
  {
    if j < |cand| {
      forall k: nat | k < |cand|
        ensures Preferred(cand, rt, j, k) <==> GivesWay(cand, rt, j, k)
      {
      }
      hide Preferred, GivesWay;
    }
  }

  // ---------- the bisecting join ----------

  method BisectLeft(a: Clock, x: real) returns (i: nat)
    requires Sorted(a)
    ensures i <= |a| && (forall k :: 0 <= k < i ==> a[k] < x) && (forall k :: i <= k < |a| ==> x <= a[k])
  {
    var lo, hi := 0, |a|;
    while lo < hi
      invariant 0 <= lo <= hi <= |a|
      invariant forall k :: 0 <= k < lo ==> a[k] < x
      invariant forall k :: hi <= k < |a| ==> x <= a[k]
    {
      var mid := (lo + hi) / 2;
      if a[mid] < x {
        lo := mid + 1;
      } else {
        hi := mid;
      }
    }
    return lo;
  }

  /** The candidates next to the insertion point beat all others. */
  lemma NeighboursWin(cand: Clock, rt: real, i: nat, k: nat)
    requires Sorted(cand) && i <= |cand| && k < |cand|
    requires (forall k :: 0 <= k < i ==> cand[k] < rt) && (forall k :: i <= k < |cand| ==> rt <= cand[k])
    ensures 0 < i && k < i - 1 ==> Preferred(cand, rt, i - 1, k)
    ensures i < k ==> Preferred(cand, rt, i, k)
    ensures k < i ==> Distance(cand[i - 1], rt) <= Distance(cand[k], rt)
    ensures i <= k ==> Distance(cand[i], rt) <= Distance(cand[k], rt)
  {
  }

  /** The best of the two neighbours, if within `tol + 1`, as the source picks it; -1 for none. */
  function BestNeighbour(cand: Clock, rt: real, tol: real, i: nat): (j: int)
    requires i <= |cand|
  {
    var left := if 0 < i && Distance(cand[i - 1], rt) < tol + 1.0 then i - 1 else -1;
    var best := if left >= 0 then Distance(cand[left], rt) else tol + 1.0;
    if i < |cand| && Distance(cand[i], rt) < best then i else left
  }

  lemma BestNeighbourIsNearest(cand: Clock, rt: real, tol: real, i: nat)
    requires Sorted(cand) && i <= |cand|
    requires (forall k :: 0 <= k < i ==> cand[k] < rt) && (forall k :: i <= k < |cand| ==> rt <= cand[k])
    ensures var j := BestNeighbour(cand, rt, tol, i);
      && (Within(cand, rt, tol) <==> j >= 0 && Distance(cand[j], rt) <= tol)
      && (j >= 0 && Distance(cand[j], rt) <= tol ==> IsNearest(cand, rt, j))
  {
    var j := BestNeighbour(cand, rt, tol, i);
    if Within(cand, rt, tol) {
      var k :| 0 <= k < |cand| && Distance(cand[k], rt) <= tol;
      NeighboursWin(cand, rt, i, k);
    }
    if j >= 0 && Distance(cand[j], rt) <= tol {
      forall k | 0 <= k < |cand| && k != j
        ensures Preferred(cand, rt, j, k)
      {
        NeighboursWin(cand, rt, i, k);
      }
    }
  }

  lemma NearestBeats(cand: Clock, rt: real, j: nat, k: nat)
    requires IsNearest(cand, rt, j) && k < |cand|
    ensures k == j || Preferred(cand, rt, j, k)
  {
  }

  lemma NearestIsUnique(cand: Clock, rt: real, a: nat, b: nat)
    requires IsNearest(cand, rt, a) && IsNearest(cand, rt, b)
    ensures a == b
  {
    NearestBeats(cand, rt, a, b);
    NearestBeats(cand, rt, b, a);
  }

  /** A reference instant is joined to at most one candidate. */
  lemma MatchIsUnique(cand: Clock, tol: real, hold: Holds, rt: real, a: nat, b: nat)
    requires Matched(cand, tol, hold, rt, a) && Matched(cand, tol, hold, rt, b)
    ensures a == b
  {
    hide Preferred;
    if Within(cand, rt, tol) {
      NearestIsUnique(cand, rt, a, b);
    }
  }

  /** The candidate one reference instant is joined to, if any. */
  method MatchOne(cand: Clock, tol: real, hold: Holds, rt: real) returns (r: Option<nat>)
    requires Sorted(cand) && (hold.Some? ==> |hold.value| == |cand|)
    ensures r.Some? ==> Matched(cand, tol, hold, rt, r.value)
    ensures r.None? ==> forall j :: !Matched(cand, tol, hold, rt, j)
  {
    hide Preferred;
    var i := BisectLeft(cand, rt);
    var best := BestNeighbour(cand, rt, tol, i);
    BestNeighbourIsNearest(cand, rt, tol, i);
    if best >= 0 && Distance(cand[best], rt) <= tol {
      return Some(best);
    }
    if hold.Some? && i > 0 {
      assert IsLastBefore(cand, rt, i - 1);
      if rt <= hold.value[i - 1] {
        return Some(i - 1);
      }
      assert forall j :: IsLastBefore(cand, rt, j) ==> j == i - 1;
    }
    return None;
  }

  method JoinIndices(ref: Clock, cand: Clock, tol: real, hold: Holds) returns (refIdx: seq<nat>, candIdx: seq<nat>)
    requires Sorted(cand) && (hold.Some? ==> |hold.value| == |cand|)
    ensures IsJoin(ref, cand, tol, hold, refIdx, candIdx)
  {
    hide Matched;
    refIdx, candIdx := [], [];
    if ref == [] || cand == [] {
      NothingMatches(cand, tol, hold);
      return;
    }
    for k := 0 to |ref|
      invariant |refIdx| == |candIdx|
      invariant forall m :: 0 <= m < |refIdx| ==> refIdx[m] < k && Matched(cand, tol, hold, ref[refIdx[m]], candIdx[m])
      invariant Increasing(refIdx)
      invariant forall i: nat, j: nat :: i < k && Matched(cand, tol, hold, ref[i], j) ==> i in refIdx
    {
      var r := MatchOne(cand, tol, hold, ref[k]);
      if r.Some? {
        refIdx, candIdx := refIdx + [k], candIdx + [r.value];
      }
    }
  }

  lemma NothingMatches(cand: Clock, tol: real, hold: Holds)
    ensures cand == [] ==> forall rt, j :: !Matched(cand, tol, hold, rt, j)
  {
  }

  // ---------- what every join keeps ----------

  lemma InOrder(ts: Clock, i: nat, j: nat)
    requires Sorted(ts) && i < |ts| && j < |ts|
    ensures i <= j ==> ts[i] <= ts[j]
  {
  }

  lemma StrictIsMonotone(cand: Clock, r: real, s: real, a: nat, b: nat)
    requires Sorted(cand) && r <= s && IsNearest(cand, r, a) && IsNearest(cand, s, b)
    ensures a <= b
  {
    NearestBeats(cand, r, a, b);
    NearestBeats(cand, s, b, a);
    InOrder(cand, b, a);
  }

  lemma FillThenStrict(cand: Clock, r: real, s: real, a: nat, b: nat)
    requires Sorted(cand) && r <= s && IsLastBefore(cand, r, a) && IsNearest(cand, s, b)
    ensures a <= b
  {
    NearestBeats(cand, s, b, a);
    InOrder(cand, b, a);
  }

  lemma StrictThenFill(cand: Clock, tol: real, r: real, s: real, a: nat, b: nat)
    requires Sorted(cand) && r <= s && IsNearest(cand, r, a) && Distance(cand[a], r) <= tol
    requires !Within(cand, s, tol) && IsLastBefore(cand, s, b)
    ensures a <= b
  {
    assert Distance(cand[a], s) > tol;
  }

  lemma NearestIsWithin(cand: Clock, rt: real, tol: real, j: nat)
    requires IsNearest(cand, rt, j) && Within(cand, rt, tol)
    ensures Distance(cand[j], rt) <= tol
  {
    var k :| 0 <= k < |cand| && Distance(cand[k], rt) <= tol;
    assert k != j ==> Preferred(cand, rt, j, k);
  }

  /** Later reference instants are joined to candidates no earlier in the list. */
  lemma MatchIsMonotone(cand: Clock, tol: real, hold: Holds, r: real, s: real, a: nat, b: nat)
    requires Sorted(cand) && r <= s
    requires Matched(cand, tol, hold, r, a) && Matched(cand, tol, hold, s, b)
    ensures a <= b
  {
    hide IsNearest, IsLastBefore, Within;
    if Within(cand, r, tol) && Within(cand, s, tol) {
      StrictIsMonotone(cand, r, s, a, b);
    } else if Within(cand, r, tol) {
      NearestIsWithin(cand, r, tol, a);
      NearestInRange(cand, r, a);
      StrictThenFill(cand, tol, r, s, a, b);
    } else if Within(cand, s, tol) {
      FillThenStrict(cand, r, s, a, b);
    } else {
      LastBeforeIsMonotone(cand, r, s, a, b);
    }
  }

  lemma NearestInRange(cand: Clock, rt: real, j: nat)
    requires IsNearest(cand, rt, j)
    ensures j < |cand|
  {
  }

  lemma LastBeforeIsMonotone(cand: Clock, r: real, s: real, a: nat, b: nat)
    requires r <= s && IsLastBefore(cand, r, a) && IsLastBefore(cand, s, b)
    ensures a <= b
  {
  }

  /** Sorted references are joined to non-decreasing candidates. */
  lemma JoinIsMonotone(ref: Clock, cand: Clock, tol: real, hold: Holds, refIdx: seq<nat>, candIdx: seq<nat>)
    requires Sorted(ref) && Sorted(cand) && IsJoin(ref, cand, tol, hold, refIdx, candIdx)
    ensures forall m, n :: 0 <= m < n < |candIdx| ==> candIdx[m] <= candIdx[n]
  {
    hide Matched;
    forall m, n | 0 <= m < n < |candIdx|
      ensures candIdx[m] <= candIdx[n]
    {
      MatchIsMonotone(cand, tol, hold, ref[refIdx[m]], ref[refIdx[n]], candIdx[m], candIdx[n]);
    }
  }

  /** A hold vector leaves every row of the strict join as it is. */
  lemma FillOnlyAdds(cand: Clock, tol: real, hold: Holds, rt: real, j: nat)
    requires Matched(cand, tol, None, rt, j)
    ensures Matched(cand, tol, hold, rt, j)
  {
  }

  /** A row that only the filled join has carries a value further than the tolerance. */
  lemma FilledCarryExceedsTolerance(cand: Clock, tol: real, hold: Holds, rt: real, j: nat)
    requires Matched(cand, tol, hold, rt, j) && forall k :: !Matched(cand, tol, None, rt, k)
    ensures hold.Some? && j < |cand| == |hold.value| && cand[j] < rt <= hold.value[j] && rt - cand[j] > tol
  {
    hide IsNearest;
    assert Within(cand, rt, tol) ==> Matched(cand, tol, None, rt, j);
    assert Distance(cand[j], rt) > tol;
  }

  // ---------- the pruning guard ----------

  predicate TimestampsDisjoint(a: Clock, b: Clock, tol: real) {
    if a == [] || b == [] then true
    else a[0] - tol > b[|b| - 1] || b[0] - tol > a[|a| - 1]
  }

  /** Two clocks are disjoint when all of one lies further than the tolerance before all of the other. */
  lemma DisjointIff(a: Clock, b: Clock, tol: real)
    requires Sorted(a) && Sorted(b)
    ensures TimestampsDisjoint(a, b, tol) <==>
      || (forall i, k :: 0 <= i < |a| && 0 <= k < |b| ==> a[i] - b[k] > tol)
      || (forall i, k :: 0 <= i < |a| && 0 <= k < |b| ==> b[k] - a[i] > tol)
  {
    forall i, k | 0 <= i < |a| && 0 <= k < |b|
      ensures a[0] <= a[i] <= a[|a| - 1] && b[0] <= b[k] <= b[|b| - 1]
    {
      EndsBound(a, i);
      EndsBound(b, k);
    }
    if a != [] && b != [] {
      var far := |b| - 1;
      assert a[0] - b[far] > tol <==> a[0] - tol > b[far];
    }
  }

  lemma EndsBound(ts: Clock, k: nat)
    requires Sorted(ts) && k < |ts|
    ensures ts[0] <= ts[k] <= ts[|ts| - 1]
  {
  }

  lemma DisjointMeansFar(a: Clock, b: Clock, tol: real, k: nat)
    requires Sorted(a) && Sorted(b) && TimestampsDisjoint(a, b, tol) && k < |a|
    ensures !Within(b, a[k], tol)
  {
    EndsBound(a, k);
    forall i | 0 <= i < |b|
      ensures Distance(b[i], a[k]) > tol
    {
      EndsBound(b, i);
    }
  }

  /** Two clocks the guard calls disjoint have no strict join row, whichever is the reference. */
  lemma DisjointMeansNoStrictRow(a: Clock, b: Clock, tol: real, k: nat, j: nat)
    requires Sorted(a) && Sorted(b) && (TimestampsDisjoint(a, b, tol) || TimestampsDisjoint(b, a, tol)) && k < |a|
    ensures !Matched(b, tol, None, a[k], j)
  {
    DisjointMeansFar(a, b, tol, k);
  }

  /** The guard does drop joins that forward fill would have given rows. */
  lemma DisjointCanDropFilledRows()
    ensures var ref, cand, hold := [100.0], [0.0], Some([200.0]);
      TimestampsDisjoint(ref, cand, 5.0) && Matched(cand, 5.0, hold, ref[0], 0)
  {
  }

  /**
    The guard drops no filled row either exactly when no reference instant lies past the
    candidates' end while a held value is still valid there.
   */
  lemma DisjointDropsNothingIff(ref: Clock, cand: Clock, tol: real, hold: Holds)
    requires Sorted(ref) && Sorted(cand) && TimestampsDisjoint(ref, cand, tol) && tol >= 0.0
    requires cand != [] && hold.Some? && |hold.value| == |cand|
    ensures (forall k, j :: 0 <= k < |ref| ==> !Matched(cand, tol, hold, ref[k], j))
       <==> (forall k :: 0 <= k < |ref| && cand[|cand| - 1] < ref[k] ==> hold.value[|cand| - 1] < ref[k])
  {
    var last := |cand| - 1;
    forall k: nat, j: nat | k < |ref| && Matched(cand, tol, hold, ref[k], j)
      ensures cand[last] < ref[k] <= hold.value[last]
    {
      CarryPastTheEnd(ref, cand, tol, hold, k, j);
    }
    forall k: nat | k < |ref| && cand[last] < ref[k] <= hold.value[last]
      ensures Matched(cand, tol, hold, ref[k], last)
    {
      DisjointMeansFar(ref, cand, tol, k);
    }
  }

  lemma CarryPastTheEnd(ref: Clock, cand: Clock, tol: real, hold: Holds, k: nat, j: nat)
    requires Sorted(ref) && Sorted(cand) && TimestampsDisjoint(ref, cand, tol) && tol >= 0.0
    requires k < |ref| && Matched(cand, tol, hold, ref[k], j)
    ensures j == |cand| - 1 && cand[j] < ref[k] <= hold.value[j]
  {
    DisjointMeansFar(ref, cand, tol, k);
    EndsBound(ref, k);
    EndsBound(cand, j);
  }

  // ---------- directly joined and filled rows ----------

  datatype JoinStats = JoinStats(direct: nat, filled: set<nat>, maxHold: real)

  /** Row `k` of the filled join carries candidate `j` forward over `ref[k] - cand[j]`. */
  ghost predicate IsCarry(ref: Clock, cand: Clock, tol: real, hold: Holds, filled: set<nat>, k: nat, j: nat) {
    k in filled && k < |ref| && j < |cand| && Matched(cand, tol, hold, ref[k], j)
  }

  function Carried(ref: Clock, cand: Clock, k: nat, j: nat): real {
    if k < |ref| && j < |cand| then ref[k] - cand[j] else 0.0
  }

  /** `rows` of the filled join are the `strict` ones and the filled ones, apart. */
  ghost predicate SplitsRows(strict: seq<nat>, rows: seq<nat>, filled: set<nat>) {
    && (forall k :: k in rows <==> k in strict || k in filled)
    && (forall k :: k in filled ==> k !in strict)
    && |rows| == |strict| + |filled|
  }

  /** `maxHold` is the longest carry, 0 when there is none. */
  ghost predicate IsLongestCarry(ref: Clock, cand: Clock, tol: real, hold: Holds, filled: set<nat>, maxHold: real) {
    && (forall k, j :: IsCarry(ref, cand, tol, hold, filled, k, j) ==> Carried(ref, cand, k, j) <= maxHold)
    && (if filled == {} then maxHold == 0.0
        else exists k, j :: IsCarry(ref, cand, tol, hold, filled, k, j) && Carried(ref, cand, k, j) == maxHold)
  }

  function Entries(rows: seq<nat>): set<nat> {
    set k | k in rows
  }

  lemma DropLast(rows: seq<nat>)
    requires Increasing(rows) && rows != []
    ensures var last := rows[|rows| - 1]; var rest := rows[..|rows| - 1];
      && Increasing(rest) && last !in Entries(rest)
      && Entries(rows) == Entries(rest) + {last}
      && forall k :: k in Entries(rest) ==> k < last
  {
    var last, rest := rows[|rows| - 1], rows[..|rows| - 1];
    assert rows == rest + [last];
    forall k | k in rest
      ensures k < last
    {
      var m :| 0 <= m < |rest| && rest[m] == k;
      assert rows[m] < rows[|rows| - 1];
    }
  }

  lemma {:induction false} IncreasingSize(rows: seq<nat>)
    requires Increasing(rows)
    ensures |Entries(rows)| == |rows|
  {
    if rows != [] {
      DropLast(rows);
      hide Increasing, Entries;
      IncreasingSize(rows[..|rows| - 1]);
    } else {
      assert Entries(rows) == {};
    }
  }

  lemma SameMaximum(a: set<nat>, x: nat, b: set<nat>, y: nat)
    requires a + {x} == b + {y}
    requires (forall k :: k in a ==> k < x) && (forall k :: k in b ==> k < y)
    ensures x == y && a == b
  {
    assert x in b + {y} && y in a + {x};
    assert a == (a + {x}) - {x} && b == (b + {y}) - {y};
  }

  /** An increasing list is known from its entries. */
  lemma {:induction false} IncreasingIsUnique(a: seq<nat>, b: seq<nat>)
    requires Increasing(a) && Increasing(b) && Entries(a) == Entries(b)
    ensures a == b
  {
    IncreasingSize(a);
    IncreasingSize(b);
    if a != [] {
      SameDropLast(a, b);
      hide Increasing, Entries;
      IncreasingIsUnique(a[..|a| - 1], b[..|b| - 1]);
      SameEnds(a, b);
    }
  }

  lemma SameDropLast(a: seq<nat>, b: seq<nat>)
    requires Increasing(a) && Increasing(b) && Entries(a) == Entries(b) && a != [] && b != []
    ensures a[|a| - 1] == b[|b| - 1] && Entries(a[..|a| - 1]) == Entries(b[..|b| - 1])
    ensures Increasing(a[..|a| - 1]) && Increasing(b[..|b| - 1])
  {
    DropLast(a);
    DropLast(b);
    hide Increasing, Entries;
    SameMaximum(Entries(a[..|a| - 1]), a[|a| - 1], Entries(b[..|b| - 1]), b[|b| - 1]);
  }

  lemma SameEnds(a: seq<nat>, b: seq<nat>)
    requires a != [] && |a| == |b| && a[..|a| - 1] == b[..|b| - 1] && a[|a| - 1] == b[|b| - 1]
    ensures a == b
  {
    assert a == a[..|a| - 1] + [a[|a| - 1]] && b == b[..|b| - 1] + [b[|b| - 1]];
  }

  /** There is one join: no two lists of rows meet `IsJoin` for the same clocks. */
  lemma JoinIsUnique(ref: Clock, cand: Clock, tol: real, hold: Holds,
                     refA: seq<nat>, candA: seq<nat>, refB: seq<nat>, candB: seq<nat>)
    requires IsJoin(ref, cand, tol, hold, refA, candA) && IsJoin(ref, cand, tol, hold, refB, candB)
    ensures refA == refB && candA == candB
  {
    SameEntries(ref, cand, tol, hold, refA, candA, refB, candB);
    SameEntries(ref, cand, tol, hold, refB, candB, refA, candA);
    assert Entries(refA) == Entries(refB);
    IncreasingIsUnique(refA, refB);
    hide Matched, Increasing;
    forall m | 0 <= m < |candA|
      ensures candA[m] == candB[m]
    {
      MatchIsUnique(cand, tol, hold, ref[refA[m]], candA[m], candB[m]);
    }
  }

  lemma SameEntries(ref: Clock, cand: Clock, tol: real, hold: Holds,
                    refA: seq<nat>, candA: seq<nat>, refB: seq<nat>, candB: seq<nat>)
    requires IsJoin(ref, cand, tol, hold, refA, candA) && IsJoin(ref, cand, tol, hold, refB, candB)
    ensures Entries(refA) <= Entries(refB)
  {
    hide Matched, Increasing;
    forall k | k in refA
      ensures k in refB
    {
      var m :| 0 <= m < |refA| && refA[m] == k;
      assert Matched(cand, tol, hold, ref[k], candA[m]);
    }
  }

  lemma RowsSplit(strict: seq<nat>, rows: seq<nat>, filled: set<nat>)
    requires Increasing(rows) && Increasing(strict)
    requires forall k :: k in strict ==> k in rows
    requires forall k :: k in filled <==> k in rows && k !in strict
    ensures SplitsRows(strict, rows, filled)
  {
    IncreasingSize(strict);
    IncreasingSize(rows);
    assert Entries(rows) == Entries(strict) + filled;
    assert Entries(strict) !! filled;
  }

  lemma StrictRowsStay(ref: Clock, cand: Clock, tol: real, hold: Holds,
                       strict: seq<nat>, strictCand: seq<nat>, rows: seq<nat>, rowsCand: seq<nat>)
    requires IsJoin(ref, cand, tol, None, strict, strictCand)
    requires IsJoin(ref, cand, tol, hold, rows, rowsCand)
    ensures forall k :: k in strict ==> k in rows
  {
    hide Matched;
    forall k | k in strict
      ensures k in rows
    {
      var m :| 0 <= m < |strict| && strict[m] == k;
      FillOnlyAdds(cand, tol, hold, ref[k], strictCand[m]);
    }
  }

  /** Every carry the filled join makes reaches further than the tolerance, within the value's window. */
  lemma CarriesAreLong(ref: Clock, cand: Clock, tol: real, hold: Holds,
                       strict: seq<nat>, strictCand: seq<nat>, filled: set<nat>, k: nat, j: nat)
    requires IsJoin(ref, cand, tol, None, strict, strictCand)
    requires IsCarry(ref, cand, tol, hold, filled, k, j) && k !in strict
    ensures hold.Some? && |hold.value| == |cand| && Carried(ref, cand, k, j) > tol
    ensures cand[j] < ref[k] <= hold.value[j]
  {
    hide IsNearest, IsLastBefore, Within;
    assert forall i: nat :: !Matched(cand, tol, None, ref[k], i);
    FilledCarryExceedsTolerance(cand, tol, hold, ref[k], j);
  }

  /** What one more row does to the longest carry. */
  lemma LongestCarryAfter(ref: Clock, cand: Clock, tol: real, hold: Holds, filled: set<nat>, maxHold: real, k: nat,
                          j: nat)
    requires Sorted(cand) && IsLongestCarry(ref, cand, tol, hold, filled, maxHold)
    requires k < |ref| && j < |cand| && Matched(cand, tol, hold, ref[k], j) && cand[j] < ref[k]
    ensures var held := ref[k] - cand[j];
      IsLongestCarry(ref, cand, tol, hold, filled + {k}, if held > maxHold then held else maxHold)
  {
    hide Matched;
    var after, held := filled + {k}, ref[k] - cand[j];
    var longest := if held > maxHold then held else maxHold;
    assert IsCarry(ref, cand, tol, hold, after, k, j) && Carried(ref, cand, k, j) == held;
    forall i: nat, c: nat | IsCarry(ref, cand, tol, hold, after, i, c)
      ensures Carried(ref, cand, i, c) <= longest
    {
      if i == k {
        MatchIsUnique(cand, tol, hold, ref[k], j, c);
      } else {
        assert IsCarry(ref, cand, tol, hold, filled, i, c);
      }
    }
    if !(held > maxHold) && filled != {} {
      var i, c :| IsCarry(ref, cand, tol, hold, filled, i, c) && Carried(ref, cand, i, c) == maxHold;
      assert IsCarry(ref, cand, tol, hold, after, i, c);
    }
  }

  method JoinFillStats(ref: Clock, cand: Clock, tol: real, hold: Holds) returns (st: JoinStats)
    requires Sorted(cand) && (hold.Some? ==> |hold.value| == |cand|)
    ensures forall strict, strictCand, rows, rowsCand ::
      IsJoin(ref, cand, tol, None, strict, strictCand) && IsJoin(ref, cand, tol, hold, rows, rowsCand) ==>
        st.direct == |strict| && SplitsRows(strict, rows, st.filled)
    ensures IsLongestCarry(ref, cand, tol, hold, st.filled, st.maxHold)
  {
    hide Matched, IsJoin, IsLongestCarry, SplitsRows, IsCarry, Carried, Increasing;
    var strict, strictCand := JoinIndices(ref, cand, tol, None);
    if hold.None? {
      RowsSplit(strict, strict, {}) by { JoinShape(ref, cand, tol, None, strict, strictCand); }
      NoCarry(ref, cand, tol, hold);
      st := JoinStats(|strict|, {}, 0.0);
      OnlyJoins(ref, cand, tol, hold, strict, strictCand, strict, strictCand);
      return;
    }
    var rows, rowsCand := JoinIndices(ref, cand, tol, hold);
    JoinShape(ref, cand, tol, hold, rows, rowsCand);
    StrictRowsStay(ref, cand, tol, hold, strict, strictCand, rows, rowsCand);
    var filled: set<nat>, maxHold := {}, 0.0;
    NoCarry(ref, cand, tol, hold);
    for m := 0 to |rows|
      invariant forall k :: k in filled <==> k in rows[..m] && k !in strict
      invariant IsLongestCarry(ref, cand, tol, hold, filled, maxHold)
    {
      var k, j := rows[m], rowsCand[m];
      assert rows[..m + 1] == rows[..m] + [k];
      if k !in strict {
        FilledRow(ref, cand, tol, hold, strict, strictCand, rows, rowsCand, m);
        LongestCarryAfter(ref, cand, tol, hold, filled, maxHold, k, j);
        filled := filled + {k};
        var held := ref[k] - cand[j];
        if held > maxHold {
          maxHold := held;
        }
      }
    }
    assert rows[..|rows|] == rows;
    JoinShape(ref, cand, tol, None, strict, strictCand);
    RowsSplit(strict, rows, filled);
    st := JoinStats(|strict|, filled, maxHold);
    OnlyJoins(ref, cand, tol, hold, strict, strictCand, rows, rowsCand);
  }

  lemma JoinShape(ref: Clock, cand: Clock, tol: real, hold: Holds, rows: seq<nat>, rowsCand: seq<nat>)
    requires IsJoin(ref, cand, tol, hold, rows, rowsCand)
    ensures |rows| == |rowsCand| && Increasing(rows)
  {
  }

  lemma NoCarry(ref: Clock, cand: Clock, tol: real, hold: Holds)
    ensures IsLongestCarry(ref, cand, tol, hold, {}, 0.0)
  {
  }

  lemma FilledRow(ref: Clock, cand: Clock, tol: real, hold: Holds,
                  strict: seq<nat>, strictCand: seq<nat>, rows: seq<nat>, rowsCand: seq<nat>, m: nat)
    requires IsJoin(ref, cand, tol, None, strict, strictCand) && IsJoin(ref, cand, tol, hold, rows, rowsCand)
    requires m < |rows| == |rowsCand| && rows[m] !in strict
    ensures rows[m] < |ref| && rowsCand[m] < |cand|
    ensures Matched(cand, tol, hold, ref[rows[m]], rowsCand[m]) && cand[rowsCand[m]] < ref[rows[m]]
  {
    hide IsNearest, Within, Increasing;
    var k, j := rows[m], rowsCand[m];
    assert forall i: nat :: !Matched(cand, tol, None, ref[k], i);
    FilledCarryExceedsTolerance(cand, tol, hold, ref[k], j);
  }

  lemma OnlyJoins(ref: Clock, cand: Clock, tol: real, hold: Holds,
                  strict: seq<nat>, strictCand: seq<nat>, rows: seq<nat>, rowsCand: seq<nat>)
    requires IsJoin(ref, cand, tol, None, strict, strictCand) && IsJoin(ref, cand, tol, hold, rows, rowsCand)
    ensures forall s, sc :: IsJoin(ref, cand, tol, None, s, sc) ==> s == strict
    ensures forall r, rc :: IsJoin(ref, cand, tol, hold, r, rc) ==> r == rows
  {
    hide IsJoin;
    forall s, sc | IsJoin(ref, cand, tol, None, s, sc) ensures s == strict {
      JoinIsUnique(ref, cand, tol, None, s, sc, strict, strictCand);
    }
    forall r, rc | IsJoin(ref, cand, tol, hold, r, rc) ensures r == rows {
      JoinIsUnique(ref, cand, tol, hold, r, rc, rows, rowsCand);
    }
  }
}
