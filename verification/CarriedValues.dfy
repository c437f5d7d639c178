/**
  End to end: a value a filled join carries to a reference instant was known there.

  `PrepareSeries` is where the validity windows of the rows meet the clock the join searches.
 */
module CarriedValues {
  import opened Wrappers
  import opened Sorting
  import opened TimeJoin
  import opened HoldWindows

  /** A value read off row `row`. */
  datatype Point = Point(row: nat, dt: Instant, hold: Option<Instant>)

  /** `ts` and `hold` are the points by time; a point with no window holds for its own instant only. */
  ghost predicate IsPrepared(points: seq<Point>, order: seq<nat>, ts: Clock, hold: Holds) {
    && IsStableOrder(Instants(points), order)
    && |ts| == |points| == |order|
    && (forall m :: 0 <= m < |ts| ==> order[m] < |points| && ts[m] == points[order[m]].dt)
    && (if hold.None? then forall p :: p in points ==> p.hold.None?
        else |hold.value| == |ts| && forall m :: 0 <= m < |ts| ==> hold.value[m] == WindowEnd(points[order[m]]))
  }

  function Instants(points: seq<Point>): (ts: seq<real>)
    ensures |ts| == |points| && forall m :: 0 <= m < |ts| ==> ts[m] == points[m].dt
  {
    seq(|points|, m requires 0 <= m < |points| => points[m].dt)
  }

  function WindowEnd(p: Point): Instant {
    if p.hold.Some? then p.hold.value else p.dt
  }

  method PrepareSeries(points: seq<Point>) returns (ghost order: seq<nat>, ts: Clock, hold: Holds)
    ensures IsPrepared(points, order, ts, hold) && TimeJoin.Sorted(ts)
  {
    var sorted := StableSort(Instants(points));
    order := sorted;
    ts := seq(|sorted|, m requires 0 <= m < |sorted| && sorted[m] < |points| => points[sorted[m]].dt);
    hold := None;
    if exists p :: p in points && p.hold.Some? {
      hold := Some(seq(|sorted|, m requires 0 <= m < |sorted| && sorted[m] < |points| => WindowEnd(points[sorted[m]])));
    }
    forall m, n | 0 <= m < n < |ts|
      ensures ts[m] <= ts[n]
    {
      assert Before(Instants(points), sorted[m], sorted[n]);
    }
  }

  /** The points are values of these rows, each with the window of its row. */
  ghost predicate AreValuesOf(points: seq<Point>, entries: seq<Entry>, dts: seq<Instant>, holds: seq<Option<Instant>>) {
    && |entries| == |dts| == |holds|
    && forall p :: p in points ==> p.row < |entries| && p.dt == dts[p.row] && p.hold == holds[p.row]
  }

  /** A carried value's row may be held, lies before the instant, and every bound of it is at the instant or later. */
  lemma CarriedWithinBounds(entries: seq<Entry>, dts: seq<Instant>, ends: map<SessionKey, Instant>, policy: FillPolicy,
                            respectGaps: bool, holds: seq<Option<Instant>>, points: seq<Point>, order: seq<nat>,
                            ts: Clock, hold: Holds, tol: real, r: Instant, m: nat)
    requires AreValuesOf(points, entries, dts, holds)
    requires forall i :: 0 <= i < |entries| ==> IsWindow(entries, dts, ends, policy, respectGaps, i, holds[i])
    requires IsPrepared(points, order, ts, hold) && m < |ts|
    requires !Within(ts, r, tol) && IsLastBefore(ts, r, m)
    ensures var i := points[order[m]].row;
      && dts[i] < r
      && (Matched(ts, tol, hold, r, m) <==>
            && MayHold(policy, entries[i])
            && (exists w :: Bounds(entries, dts, ends, policy, respectGaps, i, w))
            && (forall w :: Bounds(entries, dts, ends, policy, respectGaps, i, w) ==> r <= w))
  {
    hide Bounds, IsStableOrder;
    var p := points[order[m]];
    assert IsWindow(entries, dts, ends, policy, respectGaps, p.row, holds[p.row]);
    if MayHold(policy, entries[p.row]) {
      var until :| IsLeastBound(entries, dts, ends, policy, respectGaps, p.row, until)
        && holds[p.row] == if until.Some? && until.value > dts[p.row] then until else None;
    }
  }

  /**
    No gap covering the row starts between it and the instant, no later row of its session lies before the
    instant, the recording was still running, and the carry is no longer than the policy allows.
   */
  lemma CarriedValueWasKnown(entries: seq<Entry>, dts: seq<Instant>, ends: map<SessionKey, Instant>, policy: FillPolicy,
                             holds: seq<Option<Instant>>, points: seq<Point>, order: seq<nat>,
                             ts: Clock, hold: Holds, tol: real, r: Instant, m: nat,
                             keys: seq<SessionKey>, ats: seq<Option<Instant>>)
    requires AreValuesOf(points, entries, dts, holds) && SessionsAgree(entries)
    requires forall i :: 0 <= i < |entries| ==> IsWindow(entries, dts, ends, policy, true, i, holds[i])
    requires IsPrepared(points, order, ts, hold)
    requires Matched(ts, tol, hold, r, m) && !Within(ts, r, tol)
    requires |keys| == |ats| && AreSessionEnds(keys, ats, ends)
    requires forall i :: 0 <= i < |entries| ==> Recorded(keys, ats, entries[i].session, dts[i])
    ensures m < |ts| && var i := points[order[m]].row;
      && MayHold(policy, entries[i]) && dts[i] < r
      && (forall s :: GapStartsAt(entries[i], s) && dts[i] <= s ==> r <= s)
      && (forall k: nat :: Later(entries, dts, i, k) ==> r <= dts[k])
      && entries[i].session in ends && r <= ends[entries[i].session]
      && (policy.maxHold.Some? && policy.maxHold.value != 0.0 ==> r - dts[i] <= policy.maxHold.value)
  {
    CarriedWithinBounds(entries, dts, ends, policy, true, holds, points, order, ts, hold, tol, r, m);
    var i := points[order[m]].row;
    KnownWithinBounds(entries, dts, ends, policy, r, i, keys, ats);
  }

  ghost predicate Recorded(keys: seq<SessionKey>, ats: seq<Option<Instant>>, key: SessionKey, at: Instant)
    requires |keys| == |ats|
  {
    exists k :: 0 <= k < |keys| && keys[k] == key && ats[k] == Some(at)
  }

  lemma KnownWithinBounds(entries: seq<Entry>, dts: seq<Instant>, ends: map<SessionKey, Instant>, policy: FillPolicy,
                          r: Instant, i: nat, keys: seq<SessionKey>, ats: seq<Option<Instant>>)
    requires i < |entries| == |dts| && SessionsAgree(entries)
    requires forall w :: Bounds(entries, dts, ends, policy, true, i, w) ==> r <= w
    requires |keys| == |ats| && AreSessionEnds(keys, ats, ends)
    requires forall i :: 0 <= i < |entries| ==> Recorded(keys, ats, entries[i].session, dts[i])
    ensures forall s :: GapStartsAt(entries[i], s) && dts[i] <= s ==> r <= s
    ensures forall k: nat :: Later(entries, dts, i, k) ==> r <= dts[k]
    ensures entries[i].session in ends && r <= ends[entries[i].session]
    ensures policy.maxHold.Some? && policy.maxHold.value != 0.0 ==> r - dts[i] <= policy.maxHold.value
  {
    hide GapStartsAt;
    forall s | GapStartsAt(entries[i], s) && dts[i] <= s
      ensures r <= s
    {
      GapsAreTheRowsOwn(entries, dts, i, s);
      assert Bounds(entries, dts, ends, policy, true, i, s);
    }
    forall k: nat | Later(entries, dts, i, k)
      ensures r <= dts[k]
    {
      assert RunEndsAt(entries, dts, ends, i, dts[k]);
      assert Bounds(entries, dts, ends, policy, true, i, dts[k]);
    }
    var key := entries[i].session;
    assert Recorded(keys, ats, key, dts[i]);
    if k: nat :| Later(entries, dts, i, k) {
      assert Recorded(keys, ats, entries[k].session, dts[k]);
    } else {
      assert RunEndsAt(entries, dts, ends, i, ends[key]);
      assert Bounds(entries, dts, ends, policy, true, i, ends[key]);
    }
    if policy.maxHold.Some? && policy.maxHold.value != 0.0 {
      assert Bounds(entries, dts, ends, policy, true, i, dts[i] + policy.maxHold.value);
    }
  }
}
