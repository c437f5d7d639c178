/** Lists without repeats, and the lists a strict order allows for one set of entries. */
module Lists {
  predicate Distinct<T(==)>(s: seq<T>) {
    forall i, k :: 0 <= i < k < |s| ==> s[i] != s[k]
  }

  function IndexOf<T(==)>(s: seq<T>, x: T): (i: nat)
    requires x in s
    ensures i < |s| && s[i] == x
  {
    if s[0] == x then 0 else IndexOf(s[1..], x) + 1
  }

  lemma IndexIsUnique<T>(s: seq<T>, i: nat)
    requires Distinct(s) && i < |s|
    ensures IndexOf(s, s[i]) == i
  {
  }

  lemma AppendDistinct<T>(s: seq<T>, t: seq<T>)
    requires Distinct(s) && Distinct(t) && forall x :: x in s ==> x !in t
    ensures Distinct(s + t)
  {
    var u := s + t;
    forall i, k | 0 <= i < k < |u|
      ensures u[i] != u[k]
    {
      if i < |s| <= k {
        assert u[i] in s && u[k] in t;
      }
    }
  }

  lemma InAppend<T>(s: seq<T>, t: seq<T>, x: T)
    ensures x in s + t <==> x in s || x in t
  {
  }

  /** Each entry goes before all later ones. */
  ghost predicate Ascending<T(!new)>(s: seq<T>, less: (T, T) -> bool) {
    forall i, k :: 0 <= i < k < |s| ==> less(s[i], s[k])
  }

  ghost predicate IsAsymmetric<T(!new)>(less: (T, T) -> bool) {
    forall a, b :: less(a, b) ==> !less(b, a)
  }

  /** One set of entries has one ascending list. */
  lemma {:induction false} AscendingIsUnique<T(!new)>(s: seq<T>, t: seq<T>, less: (T, T) -> bool)
    requires IsAsymmetric(less) && Ascending(s, less) && Ascending(t, less)
    requires forall x :: x in s <==> x in t
    ensures s == t
  {
    if s == [] {
      HeadIsIn(t);
    } else {
      HeadIsShared(s, t, less);
      TailIsShared(s, t, less);
      AscendingIsUnique(s[1..], t[1..], less);
      assert s == [s[0]] + s[1..] && t == [t[0]] + t[1..];
    }
  }

  lemma HeadIsIn<T>(t: seq<T>)
    ensures t == [] || t[0] in t
  {
  }

  lemma HeadIsShared<T(!new)>(s: seq<T>, t: seq<T>, less: (T, T) -> bool)
    requires IsAsymmetric(less) && Ascending(s, less) && Ascending(t, less) && s != []
    requires forall x :: x in s <==> x in t
    ensures t != [] && s[0] == t[0]
  {
    assert s[0] in t;
    assert t[0] in s;
    var i :| 0 <= i < |t| && t[i] == s[0];
    var k :| 0 <= k < |s| && s[k] == t[0];
    assert i > 0 ==> less(t[0], t[i]);
    assert k > 0 ==> less(s[0], s[k]);
  }

  lemma TailIsShared<T(!new)>(s: seq<T>, t: seq<T>, less: (T, T) -> bool)
    requires IsAsymmetric(less) && Ascending(s, less) && Ascending(t, less) && s != [] && t != [] && s[0] == t[0]
    requires forall x :: x in s <==> x in t
    ensures Ascending(s[1..], less) && Ascending(t[1..], less)
    ensures forall x :: x in s[1..] <==> x in t[1..]
  {
    forall x
      ensures x in s[1..] <==> x in t[1..]
    {
      TailEntries(s, less, x);
      TailEntries(t, less, x);
    }
  }

  lemma TailEntries<T(!new)>(s: seq<T>, less: (T, T) -> bool, x: T)
    requires IsAsymmetric(less) && Ascending(s, less) && s != []
    ensures x in s[1..] <==> x in s && x != s[0]
  {
    assert s == [s[0]] + s[1..];
    if x in s[1..] {
      var k :| 0 <= k < |s[1..]| && s[1..][k] == x;
      assert less(s[0], s[k + 1]);
    }
  }
}
