/** The bucketed sweep: one join per pair of clocks, statistics per signal and side. */
module PairSweep {
  import opened Wrappers
  import opened Lists
  import opened Statistics
  import opened Ranks
  import opened TimeJoin
  import opened CorrelationMatrix

  type Pair = (string, string)

  // ---------- hoisted statistics ----------

  /** A joined sub-vector's deviations from its own mean and their sum of squares. */
  datatype SubStats = SubStats(dev: Vector, ss: real)

  ghost predicate AreStatsOf(c: Coefficient, sub: Vector, r: Option<SubStats>)
    requires sub != []
  {
    var values := if c.Ranked? then RanksOf(sub) else sub;
    var dev := Centred(values);
    r == if Dot(dev, dev) == 0.0 then None else Some(SubStats(dev, Dot(dev, dev)))
  }

  method SubStatsOf(values: Vector, idx: seq<nat>, c: Coefficient) returns (r: Option<SubStats>)
    requires idx != [] && InRange(idx, |values|)
    ensures AreStatsOf(c, Pick(values, idx), r)
  {
    var sub := Pick(values, idx);
    if c.Ranked? {
      var ranks := Rank(sub);
      sub := ranks[..];
    }
    var dev := Centred(sub);
    var ss := Dot(dev, dev);
    return if ss == 0.0 then None else Some(SubStats(dev, ss));
  }

  /** Per-side statistics give the coefficient the whole pair gives. */
  lemma HoistedIsTheCoefficient(c: Coefficient, xs: Vector, ys: Vector, sx: Option<SubStats>, sy: Option<SubStats>)
    requires |xs| == |ys| >= 2 && IsCoefficient(c) && !c.Categorical?
    requires AreStatsOf(c, xs, sx) && AreStatsOf(c, ys, sy)
    ensures sx.None? || sy.None? ==> CoefficientOf(c, xs, ys) == None
    ensures sx.Some? && sy.Some? ==>
      && sx.value.ss > 0.0 && sy.value.ss > 0.0 && |sx.value.dev| == |sy.value.dev|
      && CoefficientOf(c, xs, ys) == Ratio(c.root, Dot(sx.value.dev, sy.value.dev), sx.value.ss, sy.value.ss)
  {
    var us, vs := if c.Ranked? then RanksOf(xs) else xs, if c.Ranked? then RanksOf(ys) else ys;
    SquaresArePositive(Centred(us));
    SquaresArePositive(Centred(vs));
    hide RanksOf, Centred, Dot, IsRoot;
  }

  // ---------- one ordered pair of clocks ----------

  datatype Found = Found(pos: int, hit: Hit)

  function PosOf(s: Study, p: Pair): int
    requires p.0 in s.names && p.1 in s.names
  {
    IndexOf(s.names, p.0) * |s.names| + IndexOf(s.names, p.1)
  }

  /** The entry pair `p` adds to the sweep, if any. */
  ghost predicate Adds(s: Study, p: Pair, f: Found)
    requires s.Valid()
  {
    Precedes(s, p.0, p.1) && f.pos == PosOf(s, p) && IsHit(s, p.0, p.1, f.hit)
  }

  ghost predicate AreAdded(s: Study, pairs: seq<Pair>, out: seq<Found>)
    requires s.Valid()
  {
    forall f :: f in out <==> exists p :: p in pairs && Adds(s, p, f)
  }

  predicate DistinctPlaces(out: seq<Found>) {
    forall i, k :: 0 <= i < k < |out| ==> out[i].pos != out[k].pos
  }

  /** Pairs the sweep compares, all from one ordered pair of clocks. */
  ghost predicate ArePairs(s: Study, pairs: seq<Pair>, ref: ClockKey, cand: ClockKey)
    requires s.Valid()
  {
    && Distinct(pairs)
    && forall p :: p in pairs ==>
      && Precedes(s, p.0, p.1) && Crosses(s.intra, p.0, p.1)
      && s.prepared[p.0].Key() == ref && s.prepared[p.1].Key() == cand
  }

  lemma PlaceTells(s: Study, p: Pair, q: Pair)
    requires s.Valid() && p.0 in s.names && p.1 in s.names && q.0 in s.names && q.1 in s.names
    ensures PosOf(s, p) == PosOf(s, q) <==> p == q
    ensures PosOf(s, p) < PosOf(s, q) <==>
      || IndexOf(s.names, p.0) < IndexOf(s.names, q.0)
      || (p.0 == q.0 && IndexOf(s.names, p.1) < IndexOf(s.names, q.1))
  {
    var n, i, j, k, l :=
      |s.names|, IndexOf(s.names, p.0), IndexOf(s.names, p.1), IndexOf(s.names, q.0), IndexOf(s.names, q.1);
    RowOrder(n, i, j, k, l);
    RowOrder(n, k, l, i, j);
  }

  lemma RowOrder(n: int, i: int, j: int, k: int, l: int)
    requires 0 <= j < n && 0 <= l < n
    ensures i < k ==> i * n + j < k * n + l
  {
    if i < k {
      assert (i + 1) * n <= k * n;
    }
  }

  // ---------- joined rows of a pair of clocks ----------

  ghost predicate AreRows(ref: ClockKey, cand: ClockKey, tol: real, refIdx: seq<nat>, candIdx: seq<nat>) {
    IsJoin(ref.ts, cand.ts, tol, cand.hold, refIdx, candIdx)
  }

  lemma RowsInRange(ref: ClockKey, cand: ClockKey, tol: real, refIdx: seq<nat>, candIdx: seq<nat>)
    requires AreRows(ref, cand, tol, refIdx, candIdx)
    ensures |refIdx| == |candIdx| <= |ref.ts|
    ensures InRange(refIdx, |ref.ts|) && InRange(candIdx, |cand.ts|)
  {
    hide Matched;
    assert InRange(refIdx, |ref.ts|);
    forall m | 0 <= m < |candIdx|
      ensures candIdx[m] < |cand.ts|
    {
      MatchInRange(cand.ts, tol, cand.hold, ref.ts[refIdx[m]], candIdx[m]);
    }
    AtMostAll(refIdx, |ref.ts|);
  }

  lemma MatchInRange(cand: Clock, tol: real, hold: Holds, rt: real, j: nat)
    requires Matched(cand, tol, hold, rt, j)
    ensures j < |cand|
  {
    hide Within;
  }

  lemma AtMostAll(rows: seq<nat>, n: nat)
    requires Increasing(rows) && InRange(rows, n)
    ensures |rows| <= n
  {
    if rows != [] {
      IndexAtMost(rows, |rows| - 1);
    }
  }

  lemma {:induction false} IndexAtMost(rows: seq<nat>, m: nat)
    requires Increasing(rows) && m < |rows|
    ensures m <= rows[m]
  {
    if m > 0 {
      IndexAtMost(rows, m - 1);
    }
  }

  /** With the rows known, a pair's hit is the one on those rows. */
  lemma HitIsOnTheRows(s: Study, p: Pair, ref: ClockKey, cand: ClockKey, refIdx: seq<nat>, candIdx: seq<nat>, h: Hit)
    requires s.Valid() && p.0 in s.names && p.1 in s.names
    requires s.prepared[p.0].Key() == ref && s.prepared[p.1].Key() == cand && AreRows(ref, cand, s.tol, refIdx, candIdx)
    ensures IsHitOfJoin(s, p.0, p.1, h) <==> IsHitOn(s, p.0, p.1, refIdx, candIdx, h)
  {
    hide IsHitOn, IsJoin;
    if IsHitOfJoin(s, p.0, p.1, h) {
      var r, c :| IsJoin(s.prepared[p.0].ts, s.prepared[p.1].ts, s.tol, s.prepared[p.1].hold, r, c)
        && IsHitOn(s, p.0, p.1, r, c, h);
      JoinIsUnique(ref.ts, cand.ts, s.tol, cand.hold, r, c, refIdx, candIdx);
    }
  }

  lemma FilledIsUnique(a: ClockKey, b: ClockKey, tol: real, rows: nat, f: int, g: int)
    requires IsFilledCount(a, b, tol, rows, f) && IsFilledCount(a, b, tol, rows, g)
    ensures f == g
  {
    hide IsJoin;
    if b.hold.Some? {
      var s, sc :| IsJoin(a.ts, b.ts, tol, None, s, sc) && f == rows - |s|;
      var t, tc :| IsJoin(a.ts, b.ts, tol, None, t, tc) && g == rows - |t|;
      JoinIsUnique(a.ts, b.ts, tol, None, s, sc, t, tc);
    }
  }

  /** Too few rows: no pair of these clocks hits. */
  lemma TooFewRows(s: Study, pairs: seq<Pair>, ref: ClockKey, cand: ClockKey, refIdx: seq<nat>, candIdx: seq<nat>)
    requires s.Valid() && ArePairs(s, pairs, ref, cand) && AreRows(ref, cand, s.tol, refIdx, candIdx)
    requires |refIdx| < 2 || |refIdx| < s.minN
    ensures AreAdded(s, pairs, [])
  {
    hide AreRows, IsFilledCount;
    forall p, f | p in pairs
      ensures !Adds(s, p, f)
    {
      HitIsOnTheRows(s, p, ref, cand, refIdx, candIdx, f.hit);
    }
  }

  method FilledCount(ref: ClockKey, cand: ClockKey, tol: real, rows: nat) returns (filled: int)
    requires TimeJoin.Sorted(cand.ts)
    ensures IsFilledCount(ref, cand, tol, rows, filled)
  {
    hide IsJoin;
    filled := 0;
    if cand.hold.Some? {
      var strict, strictCand := JoinIndices(ref.ts, cand.ts, tol, None);
      filled := rows - |strict|;
    }
  }

  // ---------- caches ----------

  ghost predicate StatsCacheOk(s: Study, idx: seq<nat>, cache: map<string, Option<SubStats>>)
    requires s.Valid()
  {
    forall a :: a in cache ==>
      && a in s.names && idx != [] && InRange(idx, |s.prepared[a].values|)
      && AreStatsOf(s.coefficient, Pick(s.prepared[a].values, idx), cache[a])
  }

  method CachedStats(s: Study, a: string, idx: seq<nat>, cache: map<string, Option<SubStats>>)
    returns (after: map<string, Option<SubStats>>, r: Option<SubStats>)
    requires s.Valid() && a in s.names && idx != [] && InRange(idx, |s.prepared[a].values|)
    requires StatsCacheOk(s, idx, cache)
    ensures StatsCacheOk(s, idx, after)
    ensures AreStatsOf(s.coefficient, Pick(s.prepared[a].values, idx), r)
  {
    hide AreStatsOf;
    after := cache;
    if a !in cache {
      var found := SubStatsOf(s.prepared[a].values, idx, s.coefficient);
      after := cache[a := found];
    }
    r := after[a];
  }

  ghost predicate ValuesCacheOk(s: Study, idx: seq<nat>, cache: map<string, Vector>)
    requires s.Valid()
  {
    forall a :: a in cache ==>
      a in s.names && InRange(idx, |s.prepared[a].values|) && cache[a] == Pick(s.prepared[a].values, idx)
  }

  method CachedValues(s: Study, a: string, idx: seq<nat>, cache: map<string, Vector>)
    returns (after: map<string, Vector>, r: Vector)
    requires s.Valid() && a in s.names && InRange(idx, |s.prepared[a].values|) && ValuesCacheOk(s, idx, cache)
    ensures ValuesCacheOk(s, idx, after) && r == Pick(s.prepared[a].values, idx)
  {
    after := cache;
    if a !in cache {
      after := cache[a := Pick(s.prepared[a].values, idx)];
    }
    r := after[a];
  }

  /** One join, and what each side's signals were reduced to so far. */
  datatype Joined = Joined(refIdx: seq<nat>, candIdx: seq<nat>,
                           refStats: map<string, Option<SubStats>>, candStats: map<string, Option<SubStats>>,
                           refVals: map<string, Vector>, candVals: map<string, Vector>)

  ghost predicate CachesOk(s: Study, j: Joined)
    requires s.Valid()
  {
    && |j.refIdx| == |j.candIdx| >= 2
    && StatsCacheOk(s, j.refIdx, j.refStats) && StatsCacheOk(s, j.candIdx, j.candStats)
    && ValuesCacheOk(s, j.refIdx, j.refVals) && ValuesCacheOk(s, j.candIdx, j.candVals)
  }

  ghost function PairCoefficient(s: Study, p: Pair, j: Joined): Option<real>
    requires s.Valid() && p.0 in s.names && p.1 in s.names && |j.refIdx| == |j.candIdx|
    requires InRange(j.refIdx, |s.prepared[p.0].values|) && InRange(j.candIdx, |s.prepared[p.1].values|)
  {
    CoefficientOf(s.coefficient, Pick(s.prepared[p.0].values, j.refIdx), Pick(s.prepared[p.1].values, j.candIdx))
  }

  /** A pair's coefficient from the per-side statistics, reduced at most once each. */
  method NumericCoefficient(s: Study, p: Pair, j: Joined) returns (after: Joined, r: Option<real>)
    requires s.Valid() && p.0 in s.names && p.1 in s.names && CachesOk(s, j) && !s.coefficient.Categorical?
    requires InRange(j.refIdx, |s.prepared[p.0].values|) && InRange(j.candIdx, |s.prepared[p.1].values|)
    ensures CachesOk(s, after) && after.refIdx == j.refIdx && after.candIdx == j.candIdx
    ensures r == PairCoefficient(s, p, j)
  {
    hide StatsCacheOk, ValuesCacheOk, AreStatsOf, Ratio, IsRoot, CoefficientOf;
    ghost var xs, ys := Pick(s.prepared[p.0].values, j.refIdx), Pick(s.prepared[p.1].values, j.candIdx);
    var refStats, sa := CachedStats(s, p.0, j.refIdx, j.refStats);
    after := j.(refStats := refStats);
    if sa.None? {
      NoStatsNoCoefficient(s.coefficient, xs, ys);
      return after, None;
    }
    var candStats, sb := CachedStats(s, p.1, j.candIdx, j.candStats);
    after := after.(candStats := candStats);
    HoistedIsTheCoefficient(s.coefficient, xs, ys, sa, sb);
    if sb.None? {
      return after, None;
    }
    r := Ratio(s.coefficient.root, Dot(sa.value.dev, sb.value.dev), sa.value.ss, sb.value.ss);
  }

  /** A reference with no spread leaves the coefficient undefined, whatever the candidate is. */
  lemma NoStatsNoCoefficient(c: Coefficient, xs: Vector, ys: Vector)
    requires |xs| == |ys| >= 2 && IsCoefficient(c) && !c.Categorical?
    requires AreStatsOf(c, xs, None)
    ensures CoefficientOf(c, xs, ys) == None
  {
    var us, vs := if c.Ranked? then RanksOf(xs) else xs, if c.Ranked? then RanksOf(ys) else ys;
    SquaresArePositive(Centred(us));
    SquaresArePositive(Centred(vs));
    hide RanksOf, Centred, Dot, IsRoot;
  }

  method CategoricalCoefficient(s: Study, p: Pair, j: Joined) returns (after: Joined, r: Option<real>)
    requires s.Valid() && p.0 in s.names && p.1 in s.names && CachesOk(s, j) && s.coefficient.Categorical?
    requires InRange(j.refIdx, |s.prepared[p.0].values|) && InRange(j.candIdx, |s.prepared[p.1].values|)
    ensures CachesOk(s, after) && after.refIdx == j.refIdx && after.candIdx == j.candIdx
    ensures r == PairCoefficient(s, p, j)
  {
    hide StatsCacheOk, ValuesCacheOk;
    var refVals, xs := CachedValues(s, p.0, j.refIdx, j.refVals);
    var candVals, ys := CachedValues(s, p.1, j.candIdx, j.candVals);
    after := j.(refVals := refVals, candVals := candVals);
    r := s.coefficient.association(xs, ys);
  }

  /** What one more pair adds. */
  lemma OneMorePair(s: Study, pairs: seq<Pair>, m: nat, ref: ClockKey, cand: ClockKey, out: seq<Found>,
                    after: seq<Found>)
    requires s.Valid() && ArePairs(s, pairs, ref, cand) && m < |pairs|
    requires AreAdded(s, pairs[..m], out) && DistinctPlaces(out)
    requires after == out || exists f :: Adds(s, pairs[m], f) && after == out + [f]
    requires forall f :: Adds(s, pairs[m], f) ==> f in after
    ensures AreAdded(s, pairs[..m + 1], after) && DistinctPlaces(after)
  {
    hide IsHit;
    var p := pairs[m];
    assert pairs[..m + 1] == pairs[..m] + [p];
    forall q | q in pairs[..m]
      ensures q != p && PosOf(s, q) != PosOf(s, p)
    {
      assert q in pairs && p in pairs;
      PlaceTells(s, q, p);
    }
    forall i | 0 <= i < |out|
      ensures out[i].pos != PosOf(s, p)
    {
      assert out[i] in out;
      var q :| q in pairs[..m] && Adds(s, q, out[i]);
    }
  }

  method RankBucketPair(s: Study, pairs: seq<Pair>, ref: ClockKey, cand: ClockKey) returns (out: seq<Found>)
    requires s.Valid() && pairs != [] && ArePairs(s, pairs, ref, cand) && Overlaps(ref, cand, s.tol)
    ensures AreAdded(s, pairs, out) && DistinctPlaces(out)
  {
    hide AreRows, AreAdded, DistinctPlaces, CachesOk, IsFilledCount, IsHit, Overlaps;
    PairClocks(s, pairs, ref, cand);
    var refIdx, candIdx := JoinIndices(ref.ts, cand.ts, s.tol, cand.hold);
    RowsAre(ref, cand, s.tol, refIdx, candIdx);
    RowsInRange(ref, cand, s.tol, refIdx, candIdx);
    if |refIdx| < s.minN || |refIdx| < 2 {
      TooFewRows(s, pairs, ref, cand, refIdx, candIdx);
      NothingFound();
      return [];
    }
    var filled := FilledCount(ref, cand, s.tol, |refIdx|);
    var j := Joined(refIdx, candIdx, map[], map[], map[], map[]);
    out := [];
    NoCaches(s, j);
    NothingAdded(s, pairs);
    for m := 0 to |pairs|
      invariant AreAdded(s, pairs[..m], out) && DistinctPlaces(out)
      invariant CachesOk(s, j) && j.refIdx == refIdx && j.candIdx == candIdx
    {
      hide ArePairs;
      PairInRange(s, pairs, m, ref, cand, refIdx, candIdx);
      var p, r, before := pairs[m], None, out;
      if s.coefficient.Categorical? {
        j, r := CategoricalCoefficient(s, p, j);
      } else {
        j, r := NumericCoefficient(s, p, j);
      }
      if r.Some? && Abs(r.value) >= s.minR {
        out := out + [Found(PosOf(s, p), Hit(p.0, p.1, r.value, |refIdx|, filled))];
      }
      PairAdds(s, p, ref, cand, j, filled, r);
      OneMorePair(s, pairs, m, ref, cand, before, out);
    }
    assert pairs[..|pairs|] == pairs;
  }

  lemma PairClocks(s: Study, pairs: seq<Pair>, ref: ClockKey, cand: ClockKey)
    requires s.Valid() && pairs != [] && ArePairs(s, pairs, ref, cand)
    ensures TimeJoin.Sorted(cand.ts) && (cand.hold.Some? ==> |cand.hold.value| == |cand.ts|)
  {
    assert pairs[0] in pairs;
  }

  lemma RowsAre(ref: ClockKey, cand: ClockKey, tol: real, refIdx: seq<nat>, candIdx: seq<nat>)
    requires IsJoin(ref.ts, cand.ts, tol, cand.hold, refIdx, candIdx)
    ensures AreRows(ref, cand, tol, refIdx, candIdx)
  {
  }

  lemma NothingFound()
    ensures DistinctPlaces([])
  {
  }

  lemma NoCaches(s: Study, j: Joined)
    requires s.Valid() && |j.refIdx| == |j.candIdx| >= 2
    requires j.refStats == j.candStats == map[] && j.refVals == j.candVals == map[]
    ensures CachesOk(s, j)
  {
  }

  lemma NothingAdded(s: Study, pairs: seq<Pair>)
    requires s.Valid()
    ensures AreAdded(s, pairs[..0], []) && DistinctPlaces([])
  {
  }

  lemma PairInRange(s: Study, pairs: seq<Pair>, m: nat, ref: ClockKey, cand: ClockKey, refIdx: seq<nat>,
                    candIdx: seq<nat>)
    requires s.Valid() && ArePairs(s, pairs, ref, cand) && m < |pairs|
    requires InRange(refIdx, |ref.ts|) && InRange(candIdx, |cand.ts|)
    ensures var p := pairs[m];
      && Precedes(s, p.0, p.1) && Crosses(s.intra, p.0, p.1) && p.0 in s.names && p.1 in s.names
      && s.prepared[p.0].Key() == ref && s.prepared[p.1].Key() == cand
      && InRange(refIdx, |s.prepared[p.0].values|) && InRange(candIdx, |s.prepared[p.1].values|)
  {
    assert pairs[m] in pairs;
  }

  /** The entries a pair adds, from its coefficient on the joined rows. */
  lemma PairAdds(s: Study, p: Pair, ref: ClockKey, cand: ClockKey, j: Joined, filled: int, r: Option<real>)
    requires s.Valid() && Precedes(s, p.0, p.1) && Crosses(s.intra, p.0, p.1) && Overlaps(ref, cand, s.tol)
    requires s.prepared[p.0].Key() == ref && s.prepared[p.1].Key() == cand
    requires AreRows(ref, cand, s.tol, j.refIdx, j.candIdx) && |j.refIdx| == |j.candIdx| >= 2 && |j.refIdx| >= s.minN
    requires InRange(j.refIdx, |s.prepared[p.0].values|) && InRange(j.candIdx, |s.prepared[p.1].values|)
    requires r == PairCoefficient(s, p, j) && IsFilledCount(ref, cand, s.tol, |j.refIdx|, filled)
    ensures forall f :: Adds(s, p, f) <==>
      r.Some? && Abs(r.value) >= s.minR
      && f == Found(PosOf(s, p), Hit(p.0, p.1, r.value, |j.refIdx|, filled))
  {
    hide AreRows, IsFilledCount, CoefficientOf, IsHitOfJoin, Overlaps;
    forall f
      ensures Adds(s, p, f) <==>
        r.Some? && Abs(r.value) >= s.minR
        && f == Found(PosOf(s, p), Hit(p.0, p.1, r.value, |j.refIdx|, filled))
    {
      HitIsOnTheRows(s, p, ref, cand, j.refIdx, j.candIdx, f.hit);
      if IsFilledCount(ref, cand, s.tol, |j.refIdx|, f.hit.filled) {
        FilledIsUnique(ref, cand, s.tol, |j.refIdx|, f.hit.filled, filled);
      }
    }
  }
}
