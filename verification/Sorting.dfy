/** The stable sort the program's tools lean on, as an order of indices. */
module Sorting {
  import opened Lists

  predicate Before(keys: seq<real>, i: nat, j: nat) {
    i < |keys| && j < |keys| && (keys[i] < keys[j] || (keys[i] == keys[j] && i < j))
  }

  predicate Ordered(keys: seq<real>, order: seq<nat>) {
    forall m, n :: 0 <= m < n < |order| ==> Before(keys, order[m], order[n])
  }

  /** Every index once, by key, equal keys in their first order. */
  predicate IsStableOrder(keys: seq<real>, order: seq<nat>) {
    && |order| == |keys|
    && (forall m :: 0 <= m < |order| ==> order[m] < |keys|)
    && Ordered(keys, order)
    && (forall i: nat :: i < |keys| ==> i in order)
  }

  lemma InsertKeepsOrder(keys: seq<real>, order: seq<nat>, i: nat, p: nat)
    requires i < |keys| && p <= |order| && Ordered(keys, order)
    requires forall m :: 0 <= m < |order| ==> order[m] < i
    requires forall m :: 0 <= m < p ==> keys[order[m]] <= keys[i]
    requires forall m :: p <= m < |order| ==> keys[i] < keys[order[m]]
    ensures Ordered(keys, order[..p] + [i] + order[p..])
  {
    var after := order[..p] + [i] + order[p..];
    forall m, n | 0 <= m < n < |after|
      ensures Before(keys, after[m], after[n])
    {
      if m < p {
        assert after[m] == order[m];
      }
      if p < n {
        assert after[n] == order[n - 1];
      }
      if p < m {
        assert after[m] == order[m - 1];
      }
    }
  }

  method StableSort(keys: seq<real>) returns (order: seq<nat>)
    ensures IsStableOrder(keys, order)
  {
    order := [];
    for i := 0 to |keys|
      invariant |order| == i
      invariant forall m :: 0 <= m < |order| ==> order[m] < i
      invariant Ordered(keys, order)
      invariant forall k: nat :: k < i ==> k in order
    {
      hide Ordered;
      var p := |order|;
      while p > 0 && keys[i] < keys[order[p - 1]]
        invariant 0 <= p <= |order|
        invariant forall m :: p <= m < |order| ==> keys[i] < keys[order[m]]
      {
        p := p - 1;
      }
      PrefixIsBelow(keys, order, i, p);
      InsertKeepsOrder(keys, order, i, p);
      InsertKeepsEntries(order, i, p);
      order := order[..p] + [i] + order[p..];
    }
  }

  lemma PrefixIsBelow(keys: seq<real>, order: seq<nat>, i: nat, p: nat)
    requires i < |keys| && p <= |order| && Ordered(keys, order)
    requires forall m :: 0 <= m < |order| ==> order[m] < i
    requires p > 0 ==> keys[order[p - 1]] <= keys[i]
    ensures forall m :: 0 <= m < p ==> keys[order[m]] <= keys[i]
  {
    forall m | 0 <= m < p
      ensures keys[order[m]] <= keys[i]
    {
      assert m == p - 1 || Before(keys, order[m], order[p - 1]);
    }
  }

  lemma InsertKeepsEntries(order: seq<nat>, i: nat, p: nat)
    requires p <= |order|
    ensures forall k :: k in order[..p] + [i] + order[p..] <==> k == i || k in order
  {
    assert order == order[..p] + order[p..];
  }

  /** Positions in an order and entries of it: nothing twice. */
  lemma PlaceOf(keys: seq<real>, order: seq<nat>, m: nat, n: nat)
    requires IsStableOrder(keys, order) && m < |order| && n < |order|
    ensures m < n <==> Before(keys, order[m], order[n])
    ensures order[m] == order[n] <==> m == n
  {
    assert m < n ==> Before(keys, order[m], order[n]);
    assert n < m ==> Before(keys, order[n], order[m]);
  }

  // ---------- sorting by any order ----------

  ghost predicate IsTotal<T(!new)>(leq: (T, T) -> bool) {
    && (forall a, b :: leq(a, b) || leq(b, a))
    && (forall a, b, c :: leq(a, b) && leq(b, c) ==> leq(a, c))
  }

  ghost predicate InOrder<T(!new)>(s: seq<T>, leq: (T, T) -> bool) {
    forall i, k :: 0 <= i < k < |s| ==> leq(s[i], s[k])
  }

  /** `r` lists the entries of `s` at the places `order`, which are all of them. */
  ghost predicate IsArrangement<T>(s: seq<T>, r: seq<T>, order: seq<nat>) {
    && |order| == |r|
    && (forall m :: 0 <= m < |r| ==> order[m] < |s| && r[m] == s[order[m]])
    && (forall i: nat :: i < |s| ==> i in order)
  }

  /** Sorted, equals in their first order. */
  ghost predicate IsStable<T(!new)>(r: seq<T>, order: seq<nat>, leq: (T, T) -> bool)
    requires |order| == |r|
  {
    forall m, n :: 0 <= m < n < |r| ==> leq(r[m], r[n]) && (leq(r[n], r[m]) ==> order[m] < order[n])
  }

  ghost predicate IsStablySorted<T(!new)>(s: seq<T>, r: seq<T>, order: seq<nat>, leq: (T, T) -> bool) {
    IsArrangement(s, r, order) && IsStable(r, order, leq)
  }

  /** Insertion after the entries that are no greater, so that equals keep their order. */
  method SortBy<T(!new)>(s: seq<T>, leq: (T, T) -> bool) returns (r: seq<T>, ghost order: seq<nat>)
    requires IsTotal(leq)
    ensures multiset(r) == multiset(s) && InOrder(r, leq) && IsStablySorted(s, r, order, leq)
  {
    hide IsStablySorted, InOrder, IsTotal;
    r, order := [], [];
    NothingToSort(s, leq);
    for i := 0 to |s|
      invariant multiset(r) == multiset(s[..i]) && InOrder(r, leq)
      invariant IsStablySorted(s[..i], r, order, leq) && |order| == |r|
    {
      var p := InsertionPoint(r, s[i], leq);
      InsertInOrder(r, s[i], p, leq);
      InsertCounts(r, s[i], p);
      InsertStably(s, i, r, order, p, leq);
      assert s[..i + 1] == s[..i] + [s[i]];
      r, order := Inserted(r, s[i], p), Inserted(order, i, p);
    }
    assert s[..|s|] == s;
  }

  lemma NothingToSort<T(!new)>(s: seq<T>, leq: (T, T) -> bool)
    ensures IsStablySorted(s[..0], [], [], leq) && InOrder([], leq)
  {
  }

  method InsertionPoint<T(!new)>(r: seq<T>, x: T, leq: (T, T) -> bool) returns (p: nat)
    requires IsTotal(leq)
    ensures p <= |r| && (p > 0 ==> leq(r[p - 1], x))
    ensures forall k :: p <= k < |r| ==> leq(x, r[k]) && !leq(r[k], x)
  {
    p := |r|;
    while p > 0 && !leq(r[p - 1], x)
      invariant 0 <= p <= |r|
      invariant forall k :: p <= k < |r| ==> leq(x, r[k]) && !leq(r[k], x)
    {
      p := p - 1;
    }
  }

  function Inserted<T>(s: seq<T>, x: T, p: nat): (r: seq<T>)
    requires p <= |s|
    ensures |r| == |s| + 1
    ensures forall m :: 0 <= m < |r| ==> r[m] == if m < p then s[m] else if m == p then x else s[m - 1]
  {
    s[..p] + [x] + s[p..]
  }

  lemma InsertStably<T(!new)>(s: seq<T>, i: nat, r: seq<T>, order: seq<nat>, p: nat, leq: (T, T) -> bool)
    requires IsTotal(leq) && i < |s| && p <= |r| && IsStablySorted(s[..i], r, order, leq) && InOrder(r, leq)
    requires p > 0 ==> leq(r[p - 1], s[i])
    requires forall k :: p <= k < |r| ==> leq(s[i], r[k]) && !leq(r[k], s[i])
    ensures IsStablySorted(s[..i + 1], Inserted(r, s[i], p), Inserted(order, i, p), leq)
  {
    InsertArranges(s, i, r, order, p);
    forall m | 0 <= m < p
      ensures leq(r[m], s[i])
    {
      BelowToo(r, p, s[i], m, leq);
    }
    assert forall m :: 0 <= m < |order| ==> order[m] < i;
    hide IsArrangement, IsTotal, InOrder;
    InsertIsStable(r, order, s[i], i, p, leq);
  }

  lemma InsertArranges<T>(s: seq<T>, i: nat, r: seq<T>, order: seq<nat>, p: nat)
    requires i < |s| && p <= |r| && IsArrangement(s[..i], r, order)
    ensures IsArrangement(s[..i + 1], Inserted(r, s[i], p), Inserted(order, i, p))
  {
    InsertKeepsEntries(order, i, p);
    assert forall k :: k in Inserted(order, i, p) <==> k == i || k in order;
  }

  lemma InsertIsStable<T(!new)>(r: seq<T>, order: seq<nat>, x: T, i: nat, p: nat, leq: (T, T) -> bool)
    requires p <= |r| == |order| && IsStable(r, order, leq)
    requires forall m :: 0 <= m < |order| ==> order[m] < i
    requires forall m :: 0 <= m < p ==> leq(r[m], x)
    requires forall k :: p <= k < |r| ==> leq(x, r[k]) && !leq(r[k], x)
    ensures IsStable(Inserted(r, x, p), Inserted(order, i, p), leq)
  {
    var after, places := Inserted(r, x, p), Inserted(order, i, p);
    forall m, n | 0 <= m < n < |after|
      ensures leq(after[m], after[n]) && (leq(after[n], after[m]) ==> places[m] < places[n])
    {
      if m != p && n != p {
        var a, b := if m < p then m else m - 1, if n < p then n else n - 1;
        assert after[m] == r[a] && after[n] == r[b] && places[m] == order[a] && places[n] == order[b];
      } else if m == p {
        assert after[n] == r[n - 1];
      } else {
        assert after[m] == r[m] && places[m] == order[m];
      }
    }
  }

  lemma BelowToo<T(!new)>(r: seq<T>, p: nat, x: T, m: nat, leq: (T, T) -> bool)
    requires IsTotal(leq) && InOrder(r, leq) && m < p <= |r| && leq(r[p - 1], x)
    ensures leq(r[m], x)
  {
    assert m < p - 1 ==> leq(r[m], r[p - 1]);
  }

  lemma InsertInOrder<T(!new)>(r: seq<T>, x: T, p: nat, leq: (T, T) -> bool)
    requires IsTotal(leq) && InOrder(r, leq) && p <= |r|
    requires p > 0 ==> leq(r[p - 1], x)
    requires forall k :: p <= k < |r| ==> leq(x, r[k])
    ensures InOrder(Inserted(r, x, p), leq)
  {
    var after := Inserted(r, x, p);
    forall k | 0 <= k < p
      ensures leq(r[k], x)
    {
      BelowToo(r, p, x, k, leq);
    }
  }

  lemma InsertCounts<T>(r: seq<T>, x: T, p: nat)
    requires p <= |r|
    ensures multiset(Inserted(r, x, p)) == multiset(r) + multiset{x}
  {
    assert r == r[..p] + r[p..];
  }

  /** A list in order already is its own sorted list. */
  lemma SortedAlready<T(!new)>(s: seq<T>, r: seq<T>, order: seq<nat>, leq: (T, T) -> bool)
    requires IsTotal(leq) && InOrder(s, leq) && IsStablySorted(s, r, order, leq)
    ensures r == s
  {
    var identity := seq(|s|, (i: nat) => i);
    var less: (nat, nat) -> bool := (a: nat, b: nat) => a < b;
    forall m, n | 0 <= m < n < |order|
      ensures less(order[m], order[n])
    {
      OrderRises(s, r, order, leq, m, n);
    }
    forall i: nat
      ensures i in order <==> i in identity
    {
      if i in identity {
        var k :| 0 <= k < |identity| && identity[k] == i;
      }
      if i in order {
        var k :| 0 <= k < |order| && order[k] == i;
        assert identity[i] == i;
      }
      assert i < |s| ==> identity[i] == i;
    }
    AscendingIsUnique<nat>(order, identity, less);
    assert forall m :: 0 <= m < |r| ==> r[m] == s[m];
  }

  lemma OrderRises<T(!new)>(s: seq<T>, r: seq<T>, order: seq<nat>, leq: (T, T) -> bool, m: nat, n: nat)
    requires IsTotal(leq) && InOrder(s, leq) && IsStablySorted(s, r, order, leq) && m < n < |order|
    ensures order[m] < order[n]
  {
    var i, k := order[m], order[n];
    assert leq(r[m], r[n]) && r[m] == s[i] && r[n] == s[k];
    InOrderAt(s, leq, k, i);
  }

  lemma InOrderAt<T(!new)>(s: seq<T>, leq: (T, T) -> bool, k: nat, i: nat)
    requires IsTotal(leq) && InOrder(s, leq) && k < |s| && i < |s|
    ensures k <= i ==> leq(s[k], s[i])
  {
    var x := s[k];
    assert leq(x, x);
  }
}
