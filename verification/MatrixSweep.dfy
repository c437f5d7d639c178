/** Signals bucketed by clock, and the sweep over pairs of buckets. */
module MatrixSweep {
  import opened Lists
  import opened Sorting
  import opened Statistics
  import opened TimeJoin
  import opened CorrelationMatrix
  import opened PairSweep

  type Buckets = map<ClockKey, seq<string>>

  // ---------- buckets ----------

  ghost predicate IsGroup(s: Study, group: seq<string>) {
    && (forall i :: 0 <= i < |group| ==> group[i] in s.names)
    && (forall i, k :: 0 <= i < k < |group| ==> Precedes(s, group[i], group[k]))
  }

  /** Every one of the first `n` names is in the bucket of its clock, in order, and nothing else is. */
  ghost predicate AreBuckets(s: Study, n: nat, keys: seq<ClockKey>, buckets: Buckets)
    requires s.Valid() && n <= |s.names|
  {
    && Distinct(keys) && (forall k :: k in keys <==> k in buckets)
    && (forall k :: k in buckets ==> IsGroup(s, buckets[k]))
    && (forall k, name :: k in buckets && name in buckets[k] ==> name in s.names[..n] && s.prepared[name].Key() == k)
    && (forall name :: name in s.names[..n] ==>
          s.prepared[name].Key() in buckets && name in buckets[s.prepared[name].Key()])
  }

  lemma GroupAfter(s: Study, n: nat, group: seq<string>)
    requires s.Valid() && n < |s.names| && IsGroup(s, group)
    requires forall name :: name in group ==> name in s.names[..n]
    ensures IsGroup(s, group + [s.names[n]])
  {
    forall name | name in group
      ensures Precedes(s, name, s.names[n])
    {
      var i :| 0 <= i < n && s.names[i] == name;
      IndexIsUnique(s.names, i);
      IndexIsUnique(s.names, n);
    }
  }

  lemma BucketsAfter(s: Study, n: nat, keys: seq<ClockKey>, buckets: Buckets)
    requires s.Valid() && n < |s.names| && AreBuckets(s, n, keys, buckets)
    ensures var name := s.names[n]; var key := s.prepared[name].Key();
      && name in s.names && s.prepared[name].Valid()
      && AreBuckets(s, n + 1, if key in buckets then keys else keys + [key],
                    buckets[key := (if key in buckets then buckets[key] else []) + [name]])
  {
    hide IsGroup;
    var name := s.names[n];
    var key := s.prepared[name].Key();
    var group := if key in buckets then buckets[key] else [];
    assert s.names[..n + 1] == s.names[..n] + [name];
    EmptyGroup(s);
    GroupAfter(s, n, group);
  }

  lemma EmptyGroup(s: Study)
    ensures IsGroup(s, [])
  {
  }

  method MakeBuckets(s: Study) returns (keys: seq<ClockKey>, buckets: Buckets)
    requires s.Valid()
    ensures AreBuckets(s, |s.names|, keys, buckets)
  {
    keys, buckets := [], map[];
    for n := 0 to |s.names|
      invariant AreBuckets(s, n, keys, buckets)
    {
      hide AreBuckets;
      BucketsAfter(s, n, keys, buckets);
      var name := s.names[n];
      var key := s.prepared[name].Key();
      if key !in buckets {
        keys := keys + [key];
      }
      buckets := buckets[key := (if key in buckets then buckets[key] else []) + [name]];
    }
  }

  // ---------- pairs of two buckets ----------

  predicate Compared(s: Study, p: Pair) {
    Precedes(s, p.0, p.1) && Crosses(s.intra, p.0, p.1)
  }

  /** The nested loops over two groups have met `p`. */
  predicate Met(ga: seq<string>, gb: seq<string>, i: nat, k: nat, p: Pair) {
    && i <= |ga| && k <= |gb| && p.1 in gb
    && (p.0 in ga[..i] || (i < |ga| && p.0 == ga[i] && p.1 in gb[..k]))
  }

  lemma GroupIsDistinct(s: Study, group: seq<string>, i: nat)
    requires IsGroup(s, group) && i < |group|
    ensures group[i] !in group[..i]
  {
  }

  lemma MetOne(s: Study, ga: seq<string>, gb: seq<string>, i: nat, k: nat)
    requires IsGroup(s, ga) && IsGroup(s, gb) && i < |ga| && k < |gb|
    ensures !Met(ga, gb, i, k, (ga[i], gb[k]))
    ensures forall p :: Met(ga, gb, i, k + 1, p) <==> Met(ga, gb, i, k, p) || p == (ga[i], gb[k])
  {
    GroupIsDistinct(s, ga, i);
    GroupIsDistinct(s, gb, k);
    assert gb[..k + 1] == gb[..k] + [gb[k]];
  }

  lemma MetRow(ga: seq<string>, gb: seq<string>, i: nat, p: Pair)
    requires i < |ga|
    ensures Met(ga, gb, i, |gb|, p) <==> Met(ga, gb, i + 1, 0, p)
    ensures !Met(ga, gb, 0, 0, p)
    ensures Met(ga, gb, |ga|, 0, p) <==> p.0 in ga && p.1 in gb
  {
    assert ga[..i + 1] == ga[..i] + [ga[i]];
    assert ga[..|ga|] == ga && gb[..|gb|] == gb;
  }

  lemma MetAll(ga: seq<string>, gb: seq<string>, p: Pair)
    ensures !Met(ga, gb, 0, 0, p)
    ensures Met(ga, gb, |ga|, 0, p) <==> p.0 in ga && p.1 in gb
  {
    assert ga[..|ga|] == ga;
  }

  /** Within one group, nothing before the diagonal is in name order. */
  lemma NothingBelowDiagonal(s: Study, group: seq<string>, i: nat, p: Pair)
    requires IsGroup(s, group) && i < |group| && Compared(s, p)
    ensures Met(group, group, i, i + 1, p) <==> Met(group, group, i, 0, p)
  {
    UpToPlace(s, group, i, p.1);
  }

  lemma UpToPlace(s: Study, group: seq<string>, i: nat, b: string)
    requires IsGroup(s, group) && i < |group|
    ensures b in group[..i + 1] ==> b == group[i] || Precedes(s, b, group[i])
  {
    if b in group[..i + 1] {
      var m :| 0 <= m < i + 1 && group[m] == b;
    }
  }

  ghost predicate AreMet(s: Study, ga: seq<string>, gb: seq<string>, i: nat, k: nat, pairs: seq<Pair>) {
    Distinct(pairs) && forall p :: p in pairs <==> Compared(s, p) && Met(ga, gb, i, k, p)
  }

  ghost predicate AreMetReversed(s: Study, ga: seq<string>, gb: seq<string>, i: nat, k: nat, pairs: seq<Pair>) {
    Distinct(pairs) && forall p :: p in pairs <==> Compared(s, p) && Met(ga, gb, i, k, (p.1, p.0))
  }

  method PairsWithin(s: Study, group: seq<string>) returns (forward: seq<Pair>)
    requires IsGroup(s, group)
    ensures AreMet(s, group, group, |group|, 0, forward)
  {
    hide Compared, Met;
    forward := [];
    NoPairs(s, group, group);
    for i := 0 to |group|
      invariant AreMet(s, group, group, i, 0, forward)
    {
      SkipDiagonal(s, group, i, forward);
      for k := i + 1 to |group|
        invariant AreMet(s, group, group, i, k, forward)
      {
        hide AreMet;
        MetMore(s, group, group, i, k, forward);
        LaterPrecedes(s, group, i, k);
        if Crosses(s.intra, group[i], group[k]) {
          forward := forward + [(group[i], group[k])];
        }
      }
      RowDone(s, group, group, i, forward);
    }
  }

  lemma NoPairs(s: Study, ga: seq<string>, gb: seq<string>)
    ensures AreMet(s, ga, gb, 0, 0, []) && AreMetReversed(s, ga, gb, 0, 0, [])
  {
  }

  lemma LaterPrecedes(s: Study, group: seq<string>, i: nat, k: nat)
    requires IsGroup(s, group) && i < k < |group|
    ensures Compared(s, (group[i], group[k])) <==> Crosses(s.intra, group[i], group[k])
  {
  }

  lemma SkipDiagonal(s: Study, group: seq<string>, i: nat, pairs: seq<Pair>)
    requires IsGroup(s, group) && i < |group| && AreMet(s, group, group, i, 0, pairs)
    ensures AreMet(s, group, group, i, i + 1, pairs)
  {
    hide Met, Compared;
    forall p | Compared(s, p)
      ensures Met(group, group, i, i + 1, p) <==> Met(group, group, i, 0, p)
    {
      NothingBelowDiagonal(s, group, i, p);
    }
  }

  lemma MetMore(s: Study, ga: seq<string>, gb: seq<string>, i: nat, k: nat, pairs: seq<Pair>)
    requires IsGroup(s, ga) && IsGroup(s, gb) && i < |ga| && k < |gb| && AreMet(s, ga, gb, i, k, pairs)
    ensures var p := (ga[i], gb[k]); AreMet(s, ga, gb, i, k + 1, if Compared(s, p) then pairs + [p] else pairs)
  {
    hide Met, Compared;
    MetOne(s, ga, gb, i, k);
  }

  lemma MetMoreReversed(s: Study, ga: seq<string>, gb: seq<string>, i: nat, k: nat, pairs: seq<Pair>)
    requires IsGroup(s, ga) && IsGroup(s, gb) && i < |ga| && k < |gb| && AreMetReversed(s, ga, gb, i, k, pairs)
    ensures var p := (gb[k], ga[i]); AreMetReversed(s, ga, gb, i, k + 1, if Compared(s, p) then pairs + [p] else pairs)
  {
    hide Met, Compared;
    MetOne(s, ga, gb, i, k);
  }

  lemma RowDone(s: Study, ga: seq<string>, gb: seq<string>, i: nat, pairs: seq<Pair>)
    requires i < |ga|
    ensures AreMet(s, ga, gb, i, |gb|, pairs) ==> AreMet(s, ga, gb, i + 1, 0, pairs)
    ensures AreMetReversed(s, ga, gb, i, |gb|, pairs) ==> AreMetReversed(s, ga, gb, i + 1, 0, pairs)
  {
    hide Met, Compared;
    forall p
      ensures Met(ga, gb, i, |gb|, p) <==> Met(ga, gb, i + 1, 0, p)
    {
      MetRow(ga, gb, i, p);
    }
  }

  /** Two different buckets share no name, and of two names one comes first. */
  ghost predicate AreApart(s: Study, ga: seq<string>, gb: seq<string>) {
    IsGroup(s, ga) && IsGroup(s, gb) && forall a, b :: a in ga && b in gb ==> a != b
  }

  lemma OneWayRound(s: Study, ga: seq<string>, gb: seq<string>, i: nat, k: nat)
    requires s.Valid() && AreApart(s, ga, gb) && i < |ga| && k < |gb|
    ensures ga[i] in s.names && gb[k] in s.names
    ensures var a, b := ga[i], gb[k]; var first := IndexOf(s.names, a) < IndexOf(s.names, b);
      && (Compared(s, (a, b)) <==> first && Crosses(s.intra, a, b))
      && (Compared(s, (b, a)) <==> !first && Crosses(s.intra, a, b))
  {
    assert ga[i] in ga && gb[k] in gb;
  }

  method PairsBetween(s: Study, ga: seq<string>, gb: seq<string>) returns (forward: seq<Pair>, reverse: seq<Pair>)
    requires s.Valid() && AreApart(s, ga, gb)
    ensures AreMet(s, ga, gb, |ga|, 0, forward) && AreMetReversed(s, ga, gb, |ga|, 0, reverse)
  {
    hide Compared, Met;
    forward, reverse := [], [];
    NoPairs(s, ga, gb);
    for i := 0 to |ga|
      invariant AreMet(s, ga, gb, i, 0, forward) && AreMetReversed(s, ga, gb, i, 0, reverse)
    {
      for k := 0 to |gb|
        invariant AreMet(s, ga, gb, i, k, forward) && AreMetReversed(s, ga, gb, i, k, reverse)
      {
        hide AreMet, AreMetReversed;
        var a, b := ga[i], gb[k];
        MetMore(s, ga, gb, i, k, forward);
        MetMoreReversed(s, ga, gb, i, k, reverse);
        OneWayRound(s, ga, gb, i, k);
        if Crosses(s.intra, a, b) {
          if IndexOf(s.names, a) < IndexOf(s.names, b) {
            forward := forward + [(a, b)];
          } else {
            reverse := reverse + [(b, a)];
          }
        }
      }
      RowDone(s, ga, gb, i, forward);
      RowDone(s, ga, gb, i, reverse);
    }
  }

  // ---------- one pair of buckets ----------

  /** `p` compares a name of each clock, either way round. */
  ghost predicate InCell(s: Study, ka: ClockKey, kb: ClockKey, p: Pair)
    requires s.Valid()
  {
    && Compared(s, p)
    && (|| (s.prepared[p.0].Key() == ka && s.prepared[p.1].Key() == kb)
        || (s.prepared[p.0].Key() == kb && s.prepared[p.1].Key() == ka))
  }

  /** `out` holds what the compared pairs running from clock `ref` to clock `cand` add. */
  ghost predicate AreAddedFrom(s: Study, ref: ClockKey, cand: ClockKey, out: seq<Found>)
    requires s.Valid()
  {
    && DistinctPlaces(out)
    && forall f :: f in out <==> exists p :: RunsFrom(s, ref, cand, p) && Adds(s, p, f)
  }

  ghost predicate RunsFrom(s: Study, ref: ClockKey, cand: ClockKey, p: Pair)
    requires s.Valid()
  {
    Compared(s, p) && s.prepared[p.0].Key() == ref && s.prepared[p.1].Key() == cand
  }

  ghost predicate ArePairsFrom(s: Study, ref: ClockKey, cand: ClockKey, pairs: seq<Pair>)
    requires s.Valid()
  {
    Distinct(pairs) && forall p :: p in pairs <==> RunsFrom(s, ref, cand, p)
  }

  /** A reference with fewer rows than asked for gives no hit: a join has no more rows than its reference. */
  lemma ShortReference(s: Study, p: Pair, f: Found)
    requires s.Valid() && p.0 in s.names && p.1 in s.names && |s.prepared[p.0].ts| < s.minN
    ensures !Adds(s, p, f)
  {
    var a, b := s.prepared[p.0].Key(), s.prepared[p.1].Key();
    forall refIdx, candIdx | AreRows(a, b, s.tol, refIdx, candIdx)
      ensures |refIdx| < s.minN
    {
      RowsInRange(a, b, s.tol, refIdx, candIdx);
    }
    assert forall r, c :: IsJoin(a.ts, b.ts, s.tol, b.hold, r, c) ==> AreRows(a, b, s.tol, r, c);
    hide AreRows, IsJoin, IsFilledCount;
  }

  method SweepPairs(s: Study, ref: ClockKey, cand: ClockKey, pairs: seq<Pair>) returns (out: seq<Found>)
    requires s.Valid() && ArePairsFrom(s, ref, cand, pairs) && Overlaps(ref, cand, s.tol)
    ensures AreAddedFrom(s, ref, cand, out)
  {
    hide IsHit, AreRows, Overlaps;
    if pairs == [] {
      return [];
    }
    if |ref.ts| < s.minN {
      forall p, f | RunsFrom(s, ref, cand, p)
        ensures !Adds(s, p, f)
      {
        ShortReference(s, p, f);
      }
      return [];
    }
    out := RankBucketPair(s, pairs, ref, cand);
  }

  ghost predicate IsCell(s: Study, ka: ClockKey, kb: ClockKey, out: seq<Found>)
    requires s.Valid()
  {
    && DistinctPlaces(out)
    && forall f :: f in out <==> exists p :: InCell(s, ka, kb, p) && Adds(s, p, f)
  }

  lemma SameCell(s: Study, k: ClockKey, out: seq<Found>)
    requires s.Valid() && AreAddedFrom(s, k, k, out)
    ensures IsCell(s, k, k, out)
  {
    hide IsHit, Compared;
    assert forall p :: InCell(s, k, k, p) <==> RunsFrom(s, k, k, p);
  }

  lemma TwoWayCell(s: Study, ka: ClockKey, kb: ClockKey, out: seq<Found>, back: seq<Found>)
    requires s.Valid() && ka != kb && AreAddedFrom(s, ka, kb, out) && AreAddedFrom(s, kb, ka, back)
    ensures IsCell(s, ka, kb, out + back)
  {
    hide IsHit;
    forall f, g | f in out && g in back
      ensures f.pos != g.pos
    {
      var p :| RunsFrom(s, ka, kb, p) && Adds(s, p, f);
      var q :| RunsFrom(s, kb, ka, q) && Adds(s, q, g);
      PlaceTells(s, p, q);
    }
    hide Compared;
    assert forall p :: InCell(s, ka, kb, p) <==> RunsFrom(s, ka, kb, p) || RunsFrom(s, kb, ka, p);
  }

  lemma DisjointCell(s: Study, ka: ClockKey, kb: ClockKey)
    requires s.Valid() && ka != kb && TimestampsDisjoint(ka.ts, kb.ts, s.tol)
    ensures IsCell(s, ka, kb, [])
  {
    DisjointIsSymmetric(ka.ts, kb.ts, s.tol);
    hide IsHitOfJoin, TimestampsDisjoint, Compared;
  }

  lemma GroupsAre(s: Study, keys: seq<ClockKey>, buckets: Buckets, x: nat, y: nat)
    requires s.Valid() && AreBuckets(s, |s.names|, keys, buckets) && x <= y < |keys|
    ensures keys[x] in buckets && keys[y] in buckets
    ensures IsGroup(s, buckets[keys[x]]) && IsGroup(s, buckets[keys[y]])
    ensures x != y ==> keys[x] != keys[y] && AreApart(s, buckets[keys[x]], buckets[keys[y]])
    ensures forall name :: name in buckets[keys[x]] <==> name in s.names && s.prepared[name].Key() == keys[x]
    ensures forall name :: name in buckets[keys[y]] <==> name in s.names && s.prepared[name].Key() == keys[y]
  {
    hide IsGroup;
    assert keys[x] in keys && keys[y] in keys;
    assert s.names[..|s.names|] == s.names;
    forall a, b | x != y && a in buckets[keys[x]] && b in buckets[keys[y]]
      ensures a != b
    {
      assert s.prepared[a].Key() == keys[x] && s.prepared[b].Key() == keys[y];
    }
  }

  lemma MetAreFrom(s: Study, ka: ClockKey, kb: ClockKey, ga: seq<string>, gb: seq<string>, pairs: seq<Pair>)
    requires s.Valid()
    requires forall name :: name in ga <==> name in s.names && s.prepared[name].Key() == ka
    requires forall name :: name in gb <==> name in s.names && s.prepared[name].Key() == kb
    ensures AreMet(s, ga, gb, |ga|, 0, pairs) ==> ArePairsFrom(s, ka, kb, pairs)
    ensures AreMetReversed(s, ga, gb, |ga|, 0, pairs) ==> ArePairsFrom(s, kb, ka, pairs)
  {
    hide Met;
    forall p
      ensures Met(ga, gb, |ga|, 0, p) <==> p.0 in ga && p.1 in gb
    {
      MetAll(ga, gb, p);
    }
  }

  method SweepCell(s: Study, keys: seq<ClockKey>, buckets: Buckets, x: nat, y: nat) returns (out: seq<Found>)
    requires s.Valid() && AreBuckets(s, |s.names|, keys, buckets) && x <= y < |keys|
    ensures IsCell(s, keys[x], keys[y], out)
  {
    GroupsAre(s, keys, buckets, x, y);
    hide IsGroup, AreApart, AreMet, AreMetReversed, ArePairsFrom, AreAddedFrom, IsCell, Overlaps, AreBuckets;
    var ka, kb := keys[x], keys[y];
    var ga, gb := buckets[ka], buckets[kb];
    if x != y && TimestampsDisjoint(ka.ts, kb.ts, s.tol) {
      DisjointCell(s, ka, kb);
      return [];
    }
    DisjointIsSymmetric(ka.ts, kb.ts, s.tol);
    OverlapsEitherWay(s, ka, kb);
    if x == y {
      var forward := PairsWithin(s, ga);
      MetAreFrom(s, ka, ka, ga, ga, forward);
      out := SweepPairs(s, ka, ka, forward);
      SameCell(s, ka, out);
    } else {
      var forward, reverse := PairsBetween(s, ga, gb);
      MetAreFrom(s, ka, kb, ga, gb, forward);
      MetAreFrom(s, ka, kb, ga, gb, reverse);
      out := SweepPairs(s, ka, kb, forward);
      var back := SweepPairs(s, kb, ka, reverse);
      TwoWayCell(s, ka, kb, out, back);
      out := out + back;
    }
  }

  lemma OverlapsEitherWay(s: Study, ka: ClockKey, kb: ClockKey)
    requires ka == kb || !TimestampsDisjoint(ka.ts, kb.ts, s.tol)
    ensures Overlaps(ka, kb, s.tol) && Overlaps(kb, ka, s.tol)
  {
    DisjointIsSymmetric(ka.ts, kb.ts, s.tol);
    hide TimestampsDisjoint;
  }

  // ---------- the whole sweep ----------

  /** The sweep over bucket pairs has done the pair `p`: those of earlier rows, and of this row up to `y`. */
  ghost predicate IsDone(s: Study, keys: seq<ClockKey>, x: nat, y: nat, p: Pair)
    requires s.Valid()
  {
    exists u: nat, v: nat :: u <= v < |keys| && (u < x || (u == x && v < y)) && InCell(s, keys[u], keys[v], p)
  }

  ghost predicate Swept(s: Study, keys: seq<ClockKey>, x: nat, y: nat, found: seq<Found>)
    requires s.Valid()
  {
    && DistinctPlaces(found)
    && forall f :: f in found <==> exists p :: IsDone(s, keys, x, y, p) && Adds(s, p, f)
  }

  lemma NextCell(s: Study, keys: seq<ClockKey>, x: nat, y: nat, p: Pair)
    requires s.Valid() && Distinct(keys) && x <= y < |keys|
    ensures IsDone(s, keys, x, y + 1, p) <==> IsDone(s, keys, x, y, p) || InCell(s, keys[x], keys[y], p)
    ensures !(IsDone(s, keys, x, y, p) && InCell(s, keys[x], keys[y], p))
  {
    hide Compared;
  }

  lemma SweptMore(s: Study, keys: seq<ClockKey>, x: nat, y: nat, found: seq<Found>, out: seq<Found>)
    requires s.Valid() && Distinct(keys) && x <= y < |keys|
    requires Swept(s, keys, x, y, found) && IsCell(s, keys[x], keys[y], out)
    ensures Swept(s, keys, x, y + 1, found + out)
  {
    hide IsHit, IsDone, InCell;
    forall f, g | f in found && g in out
      ensures f.pos != g.pos
    {
      var p :| IsDone(s, keys, x, y, p) && Adds(s, p, f);
      var q :| InCell(s, keys[x], keys[y], q) && Adds(s, q, g);
      NextCell(s, keys, x, y, p);
      PlaceTells(s, p, q);
    }
    forall p
      ensures IsDone(s, keys, x, y + 1, p) <==> IsDone(s, keys, x, y, p) || InCell(s, keys[x], keys[y], p)
    {
      NextCell(s, keys, x, y, p);
    }
  }

  lemma NextRow(s: Study, keys: seq<ClockKey>, x: nat, found: seq<Found>)
    requires s.Valid() && x < |keys| && Swept(s, keys, x, |keys|, found)
    ensures Swept(s, keys, x + 1, x + 1, found)
  {
    hide Adds, InCell;
    assert forall p :: IsDone(s, keys, x, |keys|, p) <==> IsDone(s, keys, x + 1, x + 1, p);
    hide IsDone;
  }

  lemma AllDone(s: Study, keys: seq<ClockKey>, buckets: Buckets, p: Pair)
    requires s.Valid() && AreBuckets(s, |s.names|, keys, buckets) && Compared(s, p)
    ensures IsDone(s, keys, |keys|, |keys|, p)
  {
    assert s.names[..|s.names|] == s.names;
    var ka, kb := s.prepared[p.0].Key(), s.prepared[p.1].Key();
    assert ka in keys && kb in keys;
    var u, v := IndexOf(keys, ka), IndexOf(keys, kb);
    assert InCell(s, keys[u], keys[v], p) && InCell(s, keys[v], keys[u], p);
    hide InCell, Compared;
    assert u <= v || v <= u;
  }

  /** What the sweep found, in any order. */
  ghost predicate AreHits(s: Study, found: seq<Found>)
    requires s.Valid()
  {
    && DistinctPlaces(found)
    && forall f :: f in found <==> Adds(s, (f.hit.a, f.hit.b), f)
  }

  lemma SweptAll(s: Study, keys: seq<ClockKey>, buckets: Buckets, found: seq<Found>)
    requires s.Valid() && AreBuckets(s, |s.names|, keys, buckets) && Swept(s, keys, |keys|, |keys|, found)
    ensures AreHits(s, found)
  {
    hide IsHitOfJoin, AreBuckets, IsDone, Overlaps;
    forall p, f | Adds(s, p, f)
      ensures IsDone(s, keys, |keys|, |keys|, p) && p == (f.hit.a, f.hit.b)
    {
      AllDone(s, keys, buckets, p);
      HitNames(s, p, f.hit);
    }
  }

  lemma HitNames(s: Study, p: Pair, h: Hit)
    requires s.Valid() && IsHit(s, p.0, p.1, h)
    ensures h.a == p.0 && h.b == p.1
  {
  }

  // ---------- ranking ----------

  predicate RanksBefore(f: Found, g: Found) {
    Abs(f.hit.r) > Abs(g.hit.r) || (Abs(f.hit.r) == Abs(g.hit.r) && f.pos <= g.pos)
  }

  lemma RankingIsTotal()
    ensures IsTotal(RanksBefore)
  {
    hide Abs;
  }

  function Hits(found: seq<Found>): (hits: seq<Hit>)
    ensures |hits| == |found| && forall m :: 0 <= m < |found| ==> hits[m] == found[m].hit
  {
    seq(|found|, m requires 0 <= m < |found| => found[m].hit)
  }

  lemma SameFound(s: Study, found: seq<Found>, ranked: seq<Found>)
    requires s.Valid() && AreHits(s, found) && multiset(ranked) == multiset(found)
    ensures forall f :: f in ranked <==> Adds(s, (f.hit.a, f.hit.b), f)
    ensures DistinctPlaces(ranked)
  {
    hide Adds;
    forall f
      ensures f in ranked <==> f in found
    {
      assert f in multiset(ranked) <==> f in multiset(found);
    }
    DistinctIsCounted(found);
    forall i, k | 0 <= i < k < |ranked|
      ensures ranked[i].pos != ranked[k].pos
    {
      assert ranked[i] in found && ranked[k] in found;
      CountedIsDistinct(ranked, i, k);
      assert multiset(found)[ranked[i]] <= 1;
      SamePlaceSameEntry(found, ranked[i], ranked[k]);
    }
  }

  lemma SamePlaceSameEntry(found: seq<Found>, f: Found, g: Found)
    requires DistinctPlaces(found) && f in found && g in found
    ensures f.pos == g.pos ==> f == g
  {
  }

  lemma {:induction false} DistinctIsCounted(found: seq<Found>)
    requires DistinctPlaces(found)
    ensures forall f :: multiset(found)[f] <= 1
  {
    if found != [] {
      var n := |found| - 1;
      DistinctIsCounted(found[..n]);
      assert found == found[..n] + [found[n]];
      assert found[n] !in found[..n];
    }
  }

  lemma CountedIsDistinct(ranked: seq<Found>, i: nat, k: nat)
    requires i < k < |ranked|
    ensures ranked[i] == ranked[k] ==> multiset(ranked)[ranked[i]] >= 2
  {
    assert ranked == ranked[..k] + ranked[k..];
    assert ranked[i] in ranked[..k] && ranked[k] in ranked[k..];
  }

  lemma RankedIsSweep(s: Study, ranked: seq<Found>)
    requires s.Valid() && DistinctPlaces(ranked) && Sorting.InOrder(ranked, RanksBefore)
    requires forall f :: f in ranked <==> Adds(s, (f.hit.a, f.hit.b), f)
    ensures IsSweep(s, Hits(ranked))
  {
    hide IsHit, Abs;
    var hits := Hits(ranked);
    forall h
      ensures h in hits <==> IsHit(s, h.a, h.b, h)
    {
      if h in hits {
        var m :| 0 <= m < |hits| && hits[m] == h;
        assert ranked[m] in ranked;
      }
      if IsHit(s, h.a, h.b, h) {
        HitPrecedes(s, h);
        var f := Found(PosOf(s, (h.a, h.b)), h);
        assert f in ranked;
        var m :| 0 <= m < |ranked| && ranked[m] == f;
        assert hits[m] == h;
      }
    }
    forall i, k | 0 <= i < k < |hits|
      ensures Outranks(s, hits[i], hits[k])
    {
      var f, g := ranked[i], ranked[k];
      assert f in ranked && g in ranked && RanksBefore(f, g);
      PlaceTells(s, (f.hit.a, f.hit.b), (g.hit.a, g.hit.b));
    }
  }

  lemma HitPrecedes(s: Study, h: Hit)
    requires s.Valid() && IsHit(s, h.a, h.b, h)
    ensures Precedes(s, h.a, h.b)
  {
  }

  /** The bucketed sweep returns the pair-at-a-time sweep's hits in its order. */
  method CorrelateMatrix(s: Study) returns (hits: seq<Hit>)
    requires s.Valid()
    ensures IsSweep(s, hits)
  {
    hide AreBuckets, Swept, IsCell, AreHits, IsSweep, Adds;
    var keys, buckets := MakeBuckets(s);
    KeysAreDistinct(s, keys, buckets);
    var found: seq<Found> := [];
    NothingSwept(s, keys);
    for x := 0 to |keys|
      invariant Swept(s, keys, x, x, found)
    {
      for y := x to |keys|
        invariant Swept(s, keys, x, y, found)
      {
        var out := SweepCell(s, keys, buckets, x, y);
        SweptMore(s, keys, x, y, found, out);
        found := found + out;
      }
      NextRow(s, keys, x, found);
    }
    SweptAll(s, keys, buckets, found);
    RankingIsTotal();
    var ranked, _ := SortBy(found, RanksBefore);
    SameFound(s, found, ranked);
    RankedIsSweep(s, ranked);
    return Hits(ranked);
  }

  lemma KeysAreDistinct(s: Study, keys: seq<ClockKey>, buckets: Buckets)
    requires s.Valid() && AreBuckets(s, |s.names|, keys, buckets)
    ensures Distinct(keys)
  {
  }

  lemma NothingSwept(s: Study, keys: seq<ClockKey>)
    requires s.Valid()
    ensures Swept(s, keys, 0, 0, [])
  {
  }
}
