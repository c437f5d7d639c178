/** Counting the splits of a record: how many (up to two), and their fewest and most parameters. */
module SplitTally {
  import opened SupportFields

  const SOLUTION_CAP := 2

  datatype Tally = Tally(n: nat, lo: int, hi: int)

  type Paths = iset<seq<Step>>

  /** `t` says how many of `paths` there are, up to two, and their least and greatest data counts. */
  ghost predicate Describes(t: Tally, paths: Paths) {
    && t.n <= SOLUTION_CAP
    && (t.n == 0 <==> paths == iset{})
    && (t.n == 1 ==> forall a, b :: a in paths && b in paths ==> a == b)
    && (t.n == 2 ==> exists a, b :: a in paths && b in paths && a != b)
    && (t.n > 0 ==> Bounds(t, paths))
  }

  ghost predicate Bounds(t: Tally, paths: Paths) {
    && (forall a :: a in paths ==> t.lo <= DataCount(a) <= t.hi)
    && (exists a :: a in paths && DataCount(a) == t.lo)
    && (exists a :: a in paths && DataCount(a) == t.hi)
  }

  function Min(a: int, b: int): int {
    if a < b then a else b
  }

  function Max(a: int, b: int): int {
    if a < b then b else a
  }

  /** The tallies of two kinds of splits together. */
  function Both(a: Tally, b: Tally): Tally {
    if b.n == 0 then a
    else if a.n == 0 then b
    else Tally(Min(SOLUTION_CAP, a.n + b.n), Min(a.lo, b.lo), Max(a.hi, b.hi))
  }

  lemma BothBounds(s: Tally, a: Paths, t: Tally, b: Paths, r: Tally)
    requires Bounds(s, a) && Bounds(t, b)
    requires r.lo == Min(s.lo, t.lo) && r.hi == Max(s.hi, t.hi)
    ensures Bounds(r, a + b)
  {
    var x :| x in a && DataCount(x) == s.lo;
    var x' :| x' in a && DataCount(x') == s.hi;
    var y :| y in b && DataCount(y) == t.lo;
    var y' :| y' in b && DataCount(y') == t.hi;
    assert x in a + b && x' in a + b && y in a + b && y' in a + b;
  }

  lemma BothDescribes(s: Tally, a: Paths, t: Tally, b: Paths)
    requires Describes(s, a) && Describes(t, b) && a !! b
    ensures Describes(Both(s, t), a + b)
  {
    hide Bounds;
    if t.n == 0 {
      assert a + b == a;
    } else if s.n == 0 {
      assert a + b == b;
    } else {
      BothBounds(s, a, t, b, Both(s, t));
      var x :| x in a;
      var y :| y in b;
      assert x in a + b && y in a + b && x != y;
    }
  }

  ghost function Splits(p: Problem, st: State): Paths {
    iset path | IsSplit(p, st, path)
  }

  /** The splits that begin with step `s`. */
  ghost function SplitsBy(p: Problem, st: State, s: Step): Paths {
    iset path | IsSplit(p, st, path) && path != [] && path[0] == s
  }

  /** The splits that begin with one of `steps`. */
  ghost function SplitsVia(p: Problem, st: State, steps: seq<Step>): Paths {
    iset path | IsSplit(p, st, path) && path != [] && path[0] in steps
  }

  /** Taking one more step in front of every split. */
  function After(t: Tally, s: Step): Tally {
    var add := if s.isMap then 0 else 1;
    if t.n == 0 then t else Tally(t.n, t.lo + add, t.hi + add)
  }

  lemma PrefixedSplit(p: Problem, st: State, s: Step, rest: seq<Step>)
    requires Legal(p, st, s)
    ensures [s] + rest in SplitsBy(p, st, s) <==> rest in Splits(p, Next(p, st, s))
    ensures DataCount([s] + rest) == DataCount(rest) + if s.isMap then 0 else 1
  {
    assert ([s] + rest)[1..] == rest;
  }

  lemma SplitsByAreSuffixes(p: Problem, st: State, s: Step, path: seq<Step>)
    requires Legal(p, st, s)
    ensures path in SplitsBy(p, st, s) <==>
      path != [] && path[0] == s && path[1..] in Splits(p, Next(p, st, s))
    ensures path != [] ==> DataCount(path) == DataCount(path[1..]) + if path[0].isMap then 0 else 1
  {
  }

  /** The splits that begin with `s` are the splits after it, with `s` in front. */
  lemma AfterDescribes(p: Problem, st: State, s: Step, t: Tally)
    requires Legal(p, st, s) && Describes(t, Splits(p, Next(p, st, s)))
    ensures Describes(After(t, s), SplitsBy(p, st, s))
  {
    hide Legal, IsSplit, DataCount;
    var inner, outer := Splits(p, Next(p, st, s)), SplitsBy(p, st, s);
    forall path
      ensures path in outer <==> path != [] && path[0] == s && path[1..] in inner
      ensures path in outer ==> DataCount(path) == DataCount(path[1..]) + if s.isMap then 0 else 1
    {
      SplitsByAreSuffixes(p, st, s, path);
    }
    forall rest | rest in inner
      ensures [s] + rest in outer && DataCount([s] + rest) == DataCount(rest) + if s.isMap then 0 else 1
    {
      PrefixedSplit(p, st, s, rest);
    }
    hide Splits, SplitsBy;
    AfterCount(s, t, inner, outer);
  }

  lemma AfterCount(s: Step, t: Tally, inner: Paths, outer: Paths)
    requires Describes(t, inner)
    requires forall path :: path in outer <==> path != [] && path[0] == s && path[1..] in inner
    requires forall path :: path in outer ==> DataCount(path) == DataCount(path[1..]) + if s.isMap then 0 else 1
    requires forall rest :: rest in inner ==>
      [s] + rest in outer && DataCount([s] + rest) == DataCount(rest) + if s.isMap then 0 else 1
    ensures Describes(After(t, s), outer)
  {
    hide DataCount;
    if t.n == 0 {
      assert outer == iset{};
    } else {
      var x :| x in inner && DataCount(x) == t.lo;
      var y :| y in inner && DataCount(y) == t.hi;
      assert [s] + x in outer && [s] + y in outer;
      if t.n == 1 {
        forall a, b | a in outer && b in outer
          ensures a == b
        {
          assert a == [s] + a[1..] && b == [s] + b[1..];
        }
      } else {
        var c, d :| c in inner && d in inner && c != d;
        assert ([s] + c)[1..] == c && ([s] + d)[1..] == d;
        assert [s] + c in outer && [s] + d in outer && [s] + c != [s] + d;
      }
    }
  }

  /** Taking the steps one after the other adds their splits up. */
  lemma OneMoreStep(p: Problem, st: State, steps: seq<Step>, s: Step)
    requires s !in steps
    ensures SplitsVia(p, st, steps + [s]) == SplitsVia(p, st, steps) + SplitsBy(p, st, s)
    ensures SplitsVia(p, st, steps) !! SplitsBy(p, st, s)
  {
    hide IsSplit;
  }

  lemma NoSteps(p: Problem, st: State)
    ensures SplitsVia(p, st, []) == iset{}
  {
  }

  /** Unless the record is used up here, every split begins with a legal step. */
  lemma EverySplitSteps(p: Problem, st: State, steps: seq<Step>)
    requires !Done(p, st) && forall s :: Legal(p, st, s) ==> s in steps
    ensures SplitsVia(p, st, steps) == Splits(p, st)
  {
    hide Legal, Done;
  }

  /** A state that is done has only the empty split. */
  lemma DoneSplits(p: Problem, st: State)
    requires Done(p, st)
    ensures Describes(Tally(1, 0, 0), Splits(p, st))
  {
    assert [] in Splits(p, st);
    assert DataCount([]) == 0;
    assert forall s :: !Legal(p, st, s);
    forall path | path in Splits(p, st)
      ensures path == []
    {
    }
  }
}
