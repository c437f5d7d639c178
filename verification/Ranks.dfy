/**
  Fractional ranks, and the rank coefficient.

  `RankOf` says what a rank is by counting; `Rank` fills it in, run of ties by run of ties.
 */
module Ranks {
  import opened Wrappers
  import opened Sorting
  import opened Statistics

  /** Places holding a value less than `x`, and places holding `x`. */
  function Below(values: Vector, x: real): set<nat> {
    set k: nat | k < |values| && values[k] < x
  }

  function Ties(values: Vector, x: real): set<nat> {
    set k: nat | k < |values| && values[k] == x
  }

  /** The mean of the 1-based places the ties of `x` take in ascending order. */
  function RankOf(values: Vector, x: real): real {
    |Below(values, x)| as real + (|Ties(values, x)| as real + 1.0) / 2.0
  }

  function RanksOf(values: Vector): (r: Vector)
    ensures |r| == |values| && forall i :: 0 <= i < |values| ==> r[i] == RankOf(values, values[i])
  {
    seq(|values|, i requires 0 <= i < |values| => RankOf(values, values[i]))
  }

  // ---------- the algorithm ----------

  /** The places of a stretch of an order. */
  function Places(order: seq<nat>, i: nat, j: nat): set<nat>
    requires i <= j <= |order|
  {
    set k | i <= k < j :: order[k]
  }

  lemma {:induction false} PlacesCount(keys: Vector, order: seq<nat>, i: nat, j: nat)
    requires IsStableOrder(keys, order) && i <= j <= |order|
    ensures |Places(order, i, j)| == j - i
    decreases j - i
  {
    if i < j {
      PlacesCount(keys, order, i, j - 1);
      LastPlaceIsNew(keys, order, i, j);
      assert Places(order, i, j) == Places(order, i, j - 1) + {order[j - 1]};
    } else {
      assert Places(order, i, j) == {};
    }
  }

  lemma LastPlaceIsNew(keys: Vector, order: seq<nat>, i: nat, j: nat)
    requires IsStableOrder(keys, order) && i < j <= |order|
    ensures order[j - 1] !in Places(order, i, j - 1)
  {
    forall k | i <= k < j - 1
      ensures order[k] != order[j - 1]
    {
      PlaceOf(keys, order, k, j - 1);
    }
  }

  /** `i..j` is a whole run of ties in the order. */
  ghost predicate IsRun(values: Vector, order: seq<nat>, i: nat, j: nat)
    requires IsStableOrder(values, order)
  {
    && i <= j < |order|
    && (forall k :: i <= k <= j ==> values[order[k]] == values[order[i]])
    && (i > 0 ==> values[order[i - 1]] != values[order[i]])
    && (j + 1 < |order| ==> values[order[j + 1]] != values[order[i]])
  }

  lemma RunIsAlone(values: Vector, order: seq<nat>, i: nat, j: nat, k: nat)
    requires IsStableOrder(values, order) && IsRun(values, order, i, j) && k < |order|
    ensures k < i ==> values[order[k]] < values[order[i]]
    ensures j < k ==> values[order[i]] < values[order[k]]
  {
    if k < i {
      PlaceOf(values, order, i - 1, i);
      PlaceOf(values, order, k, i - 1);
    }
    if j < k {
      PlaceOf(values, order, i, j + 1);
      PlaceOf(values, order, j + 1, k);
    }
  }

  /** The rank shared by a run of ties. */
  lemma RunRank(values: Vector, order: seq<nat>, i: nat, j: nat)
    requires IsStableOrder(values, order) && IsRun(values, order, i, j)
    ensures RankOf(values, values[order[i]]) == (i + j) as real / 2.0 + 1.0
  {
    var x := values[order[i]];
    PlacesCount(values, order, 0, i);
    PlacesCount(values, order, i, j + 1);
    RunPlaces(values, order, i, j);
  }

  lemma RunPlaces(values: Vector, order: seq<nat>, i: nat, j: nat)
    requires IsStableOrder(values, order) && IsRun(values, order, i, j)
    ensures Below(values, values[order[i]]) == Places(order, 0, i)
    ensures Ties(values, values[order[i]]) == Places(order, i, j + 1)
  {
    var x := values[order[i]];
    forall p: nat | p < |values|
      ensures p in Places(order, 0, i) <==> values[p] < x
      ensures p in Places(order, i, j + 1) <==> values[p] == x
    {
      assert p in order;
      var k :| 0 <= k < |order| && order[k] == p;
      RunIsAlone(values, order, i, j, k);
      forall m | 0 <= m < |order| && order[m] == p
        ensures m == k
      {
        PlaceOf(values, order, m, k);
      }
    }
  }

  method Rank(values: Vector) returns (ranks: array<real>)
    ensures fresh(ranks) && ranks[..] == RanksOf(values)
  {
    hide RankOf, IsRun;
    var order := StableSort(values);
    var n := |order|;
    ranks := new real[n](_ => 0.0);
    var i := 0;
    while i < n
      invariant 0 <= i <= n
      invariant 0 < i < n ==> values[order[i - 1]] != values[order[i]]
      invariant forall k :: 0 <= k < i ==> ranks[order[k]] == RankOf(values, values[order[k]])
    {
      var j := i;
      while j + 1 < n && values[order[j + 1]] == values[order[i]]
        invariant i <= j < n
        invariant forall k :: i <= k <= j ==> values[order[k]] == values[order[i]]
      {
        j := j + 1;
      }
      WholeRun(values, order, i, j);
      RunRank(values, order, i, j);
      var avg := (i + j) as real / 2.0 + 1.0;
      for k := i to j + 1
        invariant forall m :: 0 <= m < k ==> ranks[order[m]] == RankOf(values, values[order[m]])
      {
        ranks[order[k]] := avg;
      }
      i := j + 1;
    }
    forall p | 0 <= p < n
      ensures ranks[p] == RankOf(values, values[p])
    {
      assert p in order;
      var k :| 0 <= k < n && order[k] == p;
    }
  }

  lemma WholeRun(values: Vector, order: seq<nat>, i: nat, j: nat)
    requires IsStableOrder(values, order) && i <= j < |order|
    requires forall k :: i <= k <= j ==> values[order[k]] == values[order[i]]
    requires i > 0 ==> values[order[i - 1]] != values[order[i]]
    requires j + 1 < |order| ==> values[order[j + 1]] != values[order[i]]
    ensures IsRun(values, order, i, j)
  {
  }

  // ---------- what ranks keep ----------

  /** Ranks tell values apart exactly as the values do, in the same order. */
  lemma RanksKeepOrder(values: Vector, i: nat, k: nat)
    requires i < |values| && k < |values|
    ensures RanksOf(values)[i] == RanksOf(values)[k] <==> values[i] == values[k]
    ensures RanksOf(values)[i] < RanksOf(values)[k] <==> values[i] < values[k]
  {
    if values[i] < values[k] {
      RankRises(values, i, k);
    } else if values[k] < values[i] {
      RankRises(values, k, i);
    }
  }

  lemma RankRises(values: Vector, i: nat, k: nat)
    requires i < |values| && k < |values| && values[i] < values[k]
    ensures RankOf(values, values[i]) < RankOf(values, values[k])
  {
    var x, y := values[i], values[k];
    assert Below(values, x) + Ties(values, x) <= Below(values, y);
    CardinalityGrows(Below(values, x) + Ties(values, x), Below(values, y));
    assert Below(values, x) !! Ties(values, x);
    assert i in Ties(values, x) && k in Ties(values, y);
  }

  lemma {:induction false} CardinalityGrows(a: set<nat>, b: set<nat>)
    requires a <= b
    ensures |a| <= |b|
  {
    assert b == a + (b - a);
  }

  /** Only the order of the values counts. */
  lemma RanksIgnoreScale(values: Vector, other: Vector)
    requires |values| == |other|
    requires forall i, k :: 0 <= i < |values| && 0 <= k < |values| ==> (values[i] < values[k] <==> other[i] < other[k])
    ensures RanksOf(values) == RanksOf(other)
  {
    forall i | 0 <= i < |values|
      ensures RankOf(values, values[i]) == RankOf(other, other[i])
    {
      assert Below(values, values[i]) == Below(other, other[i]);
      forall k | 0 <= k < |values|
        ensures values[k] == values[i] <==> other[k] == other[i]
      {
        assert values[k] < values[i] <==> other[k] < other[i];
        assert values[i] < values[k] <==> other[i] < other[k];
      }
      assert Ties(values, values[i]) == Ties(other, other[i]);
    }
  }

  // ---------- the sum of the ranks ----------

  /** What a place holding `y` adds to the rank of `x`. */
  function Share(y: real, x: real): real {
    if y < x then 1.0 else if y == x then 0.5 else 0.0
  }

  lemma CountStep(values: Vector, y: real, x: real)
    ensures |Below(values + [y], x)| == |Below(values, x)| + if y < x then 1 else 0
    ensures |Ties(values + [y], x)| == |Ties(values, x)| + if y == x then 1 else 0
  {
    var n, more := |values|, values + [y];
    assert forall k: nat :: k < n ==> more[k] == values[k];
    assert more[n] == y;
    assert Below(more, x) == if y < x then Below(values, x) + {n} else Below(values, x);
    assert Ties(more, x) == if y == x then Ties(values, x) + {n} else Ties(values, x);
  }

  lemma RankStep(values: Vector, y: real, x: real)
    ensures RankOf(values + [y], x) == RankOf(values, x) + Share(y, x)
  {
    CountStep(values, y, x);
    hide Below, Ties;
  }

  lemma RankOfNothing(x: real)
    ensures RankOf([], x) == 0.5
  {
    assert Below([], x) == {} && Ties([], x) == {};
  }

  /** The ranks of `xs` among `values`, added up. */
  function TotalRank(values: Vector, xs: Vector): real {
    if xs == [] then 0.0 else TotalRank(values, xs[..|xs| - 1]) + RankOf(values, xs[|xs| - 1])
  }

  lemma {:induction false} TotalStep(values: Vector, y: real, xs: Vector)
    ensures TotalRank(values + [y], xs) == TotalRank(values, xs) + TotalShare(y, xs)
  {
    hide RankOf;
    if xs != [] {
      TotalStep(values, y, xs[..|xs| - 1]);
      RankStep(values, y, xs[|xs| - 1]);
    }
  }

  function TotalShare(y: real, xs: Vector): real {
    if xs == [] then 0.0 else TotalShare(y, xs[..|xs| - 1]) + Share(y, xs[|xs| - 1])
  }

  /** A new place and the old ones share one rank between every two of them. */
  lemma {:induction false} SharesBalance(y: real, xs: Vector)
    ensures TotalShare(y, xs) + RankOf(xs, y) == |xs| as real + 0.5
  {
    hide RankOf;
    if xs == [] {
      RankOfNothing(y);
    } else {
      var rest, x := xs[..|xs| - 1], xs[|xs| - 1];
      assert xs == rest + [x];
      SharesBalance(y, rest);
      RankStep(rest, x, y);
    }
  }

  lemma {:induction false} TotalIsTriangular(values: Vector)
    ensures TotalRank(values, values) == |values| as real * (|values| as real + 1.0) / 2.0
  {
    hide RankOf, TotalShare;
    if values != [] {
      var rest, x := values[..|values| - 1], values[|values| - 1];
      assert values == rest + [x];
      TotalIsTriangular(rest);
      TotalStep(rest, x, rest);
      SharesBalance(x, rest);
      RankStep(rest, x, x);
      Triangle(|rest| as real);
    }
  }

  lemma Triangle(n: real)
    ensures n * (n + 1.0) / 2.0 + (n + 1.0) == (n + 1.0) * (n + 1.0 + 1.0) / 2.0
  {
  }

  lemma {:induction false} SumIsTotal(values: Vector, xs: Vector, rs: Vector)
    requires |xs| == |rs| && forall i :: 0 <= i < |xs| ==> rs[i] == RankOf(values, xs[i])
    ensures Sum(rs) == TotalRank(values, xs)
  {
    hide RankOf;
    if xs != [] {
      var n := |xs| - 1;
      SumIsTotal(values, xs[..n], rs[..n]);
      assert rs == rs[..n] + [rs[n]];
      SumAppend(rs[..n], rs[n]);
    }
  }

  lemma {:induction false} SumAppend(xs: Vector, x: real)
    ensures Sum(xs + [x]) == Sum(xs) + x
  {
    if xs != [] {
      SumAppend(xs[1..], x);
      assert (xs + [x])[1..] == xs[1..] + [x];
    }
  }

  /** Ranks always add up to n(n+1)/2, however many values tie. */
  lemma RanksAddUp(values: Vector)
    ensures Sum(RanksOf(values)) == |values| as real * (|values| as real + 1.0) / 2.0
  {
    hide RankOf, Sum;
    SumIsTotal(values, values, RanksOf(values));
    TotalIsTriangular(values);
  }

  // ---------- the rank coefficient ----------

  ghost function SpearmanOf(root: real -> real, xs: Vector, ys: Vector): Option<real>
    requires |xs| == |ys| && IsRoot(root)
  {
    Pearson(root, RanksOf(xs), RanksOf(ys))
  }

  method Spearman(root: real -> real, xs: Vector, ys: Vector) returns (r: Option<real>)
    requires |xs| == |ys| && IsRoot(root)
    ensures r == SpearmanOf(root, xs, ys)
  {
    if |xs| < 2 {
      return None;
    }
    var rx := Rank(xs);
    var ry := Rank(ys);
    return Pearson(root, rx[..], ry[..]);
  }

  ghost predicate SameOrder(a: Vector, b: Vector) {
    |a| == |b| && forall i, k :: 0 <= i < |a| && 0 <= k < |a| ==> (a[i] < a[k] <==> b[i] < b[k])
  }

  /** The rank coefficient depends on the order of each series alone, so any rising map leaves it as it is. */
  lemma SpearmanSeesOrderOnly(root: real -> real, xs: Vector, ys: Vector, xs': Vector, ys': Vector)
    requires |xs| == |ys| && IsRoot(root) && SameOrder(xs, xs') && SameOrder(ys, ys')
    ensures SpearmanOf(root, xs, ys) == SpearmanOf(root, xs', ys')
  {
    RanksIgnoreScale(xs, xs');
    RanksIgnoreScale(ys, ys');
  }

  /** Series in the same order have coefficient 1. */
  lemma SameOrderIsOne(root: real -> real, xs: Vector, ys: Vector)
    requires |xs| >= 2 && SameOrder(xs, ys) && !IsConstant(xs) && IsRoot(root)
    ensures SpearmanOf(root, xs, ys) == Some(1.0)
  {
    RanksIgnoreScale(xs, ys);
    var r := RanksOf(xs);
    forall i, k | 0 <= i < |xs| && 0 <= k < |xs| && xs[i] != xs[k]
      ensures r[i] != r[k]
    {
      RanksKeepOrder(xs, i, k);
    }
    CentredVanishes(r);
    SelfRatio(root, Dot(Centred(r), Centred(r)));
  }

  lemma SelfRatio(root: real -> real, s: real)
    requires IsRoot(root) && s > 0.0
    ensures Ratio(root, s, s, s) == Some(1.0)
  {
    RootsMatter(root, s, s);
    RatioIs(root, s, s, s, s);
    var q := s / s;
    assert s * q == s * 1.0;
    Scale(s, q, 1.0);
  }
}
