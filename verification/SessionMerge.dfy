/**
  The three-way merge of append-only session logs.

  `IsMerge` is the merged list as set algebra and an order; `MergeSessions` builds it.
 */
module SessionMerge {
  import opened Wrappers
  import opened Lists
  import opened Sorting
  import opened Sessions

  // ---------- what a merge is ----------

  /** In both sides, or new on one. */
  predicate Survives(base: seq<Session>, ours: seq<Session>, theirs: seq<Session>, s: Session) {
    (s in ours && s in theirs) || ((s in ours || s in theirs) && s !in base)
  }

  /** An untagged copy of a session that also survives tagged. */
  ghost predicate IsTwin(base: seq<Session>, ours: seq<Session>, theirs: seq<Session>, s: Session) {
    s.variant.None? && exists t: Session :: t.variant.Some? && Survives(base, ours, theirs, t) && StripTag(t) == s
  }

  ghost predicate InMerge(base: seq<Session>, ours: seq<Session>, theirs: seq<Session>, s: Session) {
    Survives(base, ours, theirs, s) && !IsTwin(base, ours, theirs, s)
  }

  /** By sort key; sessions with one key, in the order ours and then theirs list them. */
  predicate Earlier(listed: seq<Session>, s: Session, t: Session) {
    || KeyLess(KeyOf(s), KeyOf(t))
    || (KeyOf(s) == KeyOf(t) && s in listed && t in listed && IndexOf(listed, s) < IndexOf(listed, t))
  }

  ghost predicate IsMerge(base: seq<Session>, ours: seq<Session>, theirs: seq<Session>, merged: seq<Session>) {
    && (forall s :: s in merged <==> InMerge(base, ours, theirs, s))
    && Ascending(merged, (s, t) => Earlier(ours + theirs, s, t))
  }

  lemma EarlierIsAsymmetric(listed: seq<Session>)
    ensures IsAsymmetric((s, t) => Earlier(listed, s, t))
  {
    forall s, t | Earlier(listed, s, t)
      ensures !Earlier(listed, t, s)
    {
      KeysCompare(KeyOf(s), KeyOf(t));
      hide KeyLess;
    }
  }

  lemma MergeIsUnique(base: seq<Session>, ours: seq<Session>, theirs: seq<Session>, m: seq<Session>, n: seq<Session>)
    requires IsMerge(base, ours, theirs, m) && IsMerge(base, ours, theirs, n)
    ensures m == n
  {
    EarlierIsAsymmetric(ours + theirs);
    hide Earlier, InMerge;
    AscendingIsUnique(m, n, (s, t) => Earlier(ours + theirs, s, t));
  }

  /** The edited copy of base session `b` on a side: same anchor, unique in both, and not itself in the base. */
  ghost predicate IsReplacement(base: seq<Session>, side: seq<Session>, b: Session, r: Session) {
    exists a, i: nat, k: nat :: AnchorOf(b) == Some(a) && HeldOnlyAt(base, a, i) && HeldOnlyAt(side, a, k)
      && r == side[k] && r !in base
  }

  /** A base session on neither side, which the sides did not replace with the same edited copy. */
  ghost predicate Conflicts(base: seq<Session>, ours: seq<Session>, theirs: seq<Session>) {
    exists b :: b in base && b !in ours && b !in theirs
      && !exists r :: IsReplacement(base, ours, b, r) && IsReplacement(base, theirs, b, r)
  }

  // ---------- the algorithm ----------

  function Replacement(session: Session, baseAnchors: map<Anchor, nat>, base: seq<Session>, side: seq<Session>)
    : (r: Option<Session>)
    requires baseAnchors == UniqueAnchors(base)
    ensures forall x :: r == Some(x) <==> IsReplacement(base, side, session, x)
  {
    var anchor := AnchorOf(session);
    var at := UniqueAnchors(side);
    if anchor.None? || anchor.value !in baseAnchors || anchor.value !in at then
      NoReplacement(base, side, session);
      None
    else
      TheReplacement(base, side, session, anchor.value);
      var candidate := side[at[anchor.value]];
      if candidate in base then None else Some(candidate)
  }

  lemma Unique(sessions: seq<Session>, a: Anchor, i: nat)
    requires HeldOnlyAt(sessions, a, i)
    ensures a in UniqueAnchors(sessions) && UniqueAnchors(sessions)[a] == i
  {
    UniqueAnchorsAre(sessions);
  }

  lemma NoReplacement(base: seq<Session>, side: seq<Session>, b: Session)
    requires AnchorOf(b).None? || AnchorOf(b).value !in UniqueAnchors(base) || AnchorOf(b).value !in UniqueAnchors(side)
    ensures forall x :: !IsReplacement(base, side, b, x)
  {
    forall a, i: nat, k: nat | AnchorOf(b) == Some(a) && HeldOnlyAt(base, a, i) && HeldOnlyAt(side, a, k)
      ensures false
    {
      Unique(base, a, i);
      Unique(side, a, k);
    }
  }

  lemma TheReplacement(base: seq<Session>, side: seq<Session>, b: Session, a: Anchor)
    requires AnchorOf(b) == Some(a) && a in UniqueAnchors(base) && a in UniqueAnchors(side)
    ensures UniqueAnchors(side)[a] < |side|
    ensures forall x :: IsReplacement(base, side, b, x) <==> x == side[UniqueAnchors(side)[a]] && x !in base
  {
    UniqueAnchorsAre(base);
    UniqueAnchorsAre(side);
    var i, k := UniqueAnchors(base)[a], UniqueAnchors(side)[a];
    assert HeldOnlyAt(base, a, i) && HeldOnlyAt(side, a, k);
    forall j: nat | HeldOnlyAt(side, a, j)
      ensures j == k
    {
      assert UniqueAnchors(side)[a] == j;
    }
  }

  /** Some base session is lost on both sides without one shared edit. */
  method HasConflict(base: seq<Session>, ours: seq<Session>, theirs: seq<Session>) returns (conflict: bool)
    ensures conflict <==> Conflicts(base, ours, theirs)
  {
    var baseAnchors := UniqueAnchors(base);
    hide IsReplacement, UniqueAnchors, HeldOnlyAt;
    for m := 0 to |base|
      invariant forall b :: b in base[..m] && b !in ours && b !in theirs ==>
        exists r :: IsReplacement(base, ours, b, r) && IsReplacement(base, theirs, b, r)
    {
      var b := base[m];
      assert base[..m + 1] == base[..m] + [b];
      if b !in ours && b !in theirs {
        var oursX := Replacement(b, baseAnchors, base, ours);
        var theirsX := Replacement(b, baseAnchors, base, theirs);
        if oursX.None? || theirsX.None? || oursX != theirsX {
          Unresolved(base, ours, theirs, b, oursX, theirsX);
          return true;
        }
        assert IsReplacement(base, ours, b, oursX.value) && IsReplacement(base, theirs, b, oursX.value);
      }
    }
    assert base[..|base|] == base;
    return false;
  }

  lemma Unresolved(base: seq<Session>, ours: seq<Session>, theirs: seq<Session>, b: Session,
                   x: Option<Session>, y: Option<Session>)
    requires b in base && b !in ours && b !in theirs && (x.None? || y.None? || x != y)
    requires forall r :: x == Some(r) <==> IsReplacement(base, ours, b, r)
    requires forall r :: y == Some(r) <==> IsReplacement(base, theirs, b, r)
    ensures Conflicts(base, ours, theirs)
  {
    hide IsReplacement;
    forall r
      ensures !(IsReplacement(base, ours, b, r) && IsReplacement(base, theirs, b, r))
    {
      assert x == Some(r) <==> IsReplacement(base, ours, b, r);
      assert y == Some(r) <==> IsReplacement(base, theirs, b, r);
    }
  }

  /** What survives, each session once, in the order first met. */
  ghost predicate IsUnion(base: seq<Session>, ours: seq<Session>, theirs: seq<Session>, n: nat, merged: seq<Session>)
    requires n <= |ours + theirs|
  {
    && (forall s :: s in merged <==> s in (ours + theirs)[..n] && Survives(base, ours, theirs, s))
    && Ascending(merged, (s, t) => FirstMet(ours + theirs, s, t))
  }

  predicate FirstMet(listed: seq<Session>, s: Session, t: Session) {
    s in listed && t in listed && IndexOf(listed, s) < IndexOf(listed, t)
  }

  lemma {:induction false} IndexIsFirst(listed: seq<Session>, n: nat)
    requires n < |listed|
    ensures IndexOf(listed, listed[n]) <= n
    ensures forall s :: s in listed[..n] ==> s in listed && IndexOf(listed, s) < n
    ensures listed[n] !in listed[..n] ==> IndexOf(listed, listed[n]) == n
  {
    if n > 0 {
      IndexIsFirst(listed[1..], n - 1);
      assert listed[..n] == [listed[0]] + listed[1..][..n - 1];
    }
  }

  lemma UnionStep(base: seq<Session>, ours: seq<Session>, theirs: seq<Session>, n: nat, merged: seq<Session>)
    requires n < |ours + theirs| && IsUnion(base, ours, theirs, n, merged)
    ensures var s := (ours + theirs)[n];
      IsUnion(base, ours, theirs, n + 1,
              if Survives(base, ours, theirs, s) && s !in merged then merged + [s] else merged)
  {
    var listed := ours + theirs;
    var s := listed[n];
    IndexIsFirst(listed, n);
    assert listed[..n + 1] == listed[..n] + [s];
    hide Survives, IndexOf;
    if Survives(base, ours, theirs, s) && s !in merged {
      var more := merged + [s];
      forall i, k | 0 <= i < k < |more|
        ensures FirstMet(listed, more[i], more[k])
      {
        assert k == |merged| ==> more[i] in merged;
      }
    }
  }

  /** A base session one side deleted is left out; of the rest, each is put in once. */
  method UnionOf(base: seq<Session>, ours: seq<Session>, theirs: seq<Session>) returns (merged: seq<Session>)
    ensures IsUnion(base, ours, theirs, |ours + theirs|, merged)
  {
    hide IsUnion;
    merged := [];
    UnionOfNothing(base, ours, theirs);
    for m := 0 to |ours|
      invariant IsUnion(base, ours, theirs, m, merged)
    {
      var s := ours[m];
      UnionStep(base, ours, theirs, m, merged);
      assert (ours + theirs)[m] == s && s in ours;
      if !(s in base && s !in theirs) && s !in merged {
        merged := merged + [s];
      }
    }
    for m := 0 to |theirs|
      invariant IsUnion(base, ours, theirs, |ours| + m, merged)
    {
      var s := theirs[m];
      UnionStep(base, ours, theirs, |ours| + m, merged);
      assert (ours + theirs)[|ours| + m] == s && s in theirs;
      if !(s in base && s !in ours) && s !in merged {
        merged := merged + [s];
      }
    }
  }

  lemma UnionOfNothing(base: seq<Session>, ours: seq<Session>, theirs: seq<Session>)
    ensures IsUnion(base, ours, theirs, 0, [])
  {
  }

  predicate HasTaggedCopy(sessions: seq<Session>, s: Session) {
    s.variant.None? && exists t :: t in sessions && t.variant.Some? && StripTag(t) == s
  }

  /** The sessions minus every untagged copy of one also present tagged. */
  function DropUntaggedTwins(sessions: seq<Session>): seq<Session> {
    Without(sessions, sessions)
  }

  function Without(sessions: seq<Session>, all: seq<Session>): (r: seq<Session>) {
    if sessions == [] then []
    else
      var rest := Without(sessions[..|sessions| - 1], all);
      var s := sessions[|sessions| - 1];
      if HasTaggedCopy(all, s) then rest else rest + [s]
  }

  lemma {:induction false} WithoutKeeps(sessions: seq<Session>, all: seq<Session>, less: (Session, Session) -> bool)
    requires Ascending(sessions, less)
    ensures forall s :: s in Without(sessions, all) <==> s in sessions && !HasTaggedCopy(all, s)
    ensures Ascending(Without(sessions, all), less)
  {
    if sessions != [] {
      var n := |sessions| - 1;
      var rest, s := sessions[..n], sessions[n];
      assert sessions == rest + [s];
      WithoutKeeps(rest, all, less);
      hide HasTaggedCopy;
      var kept := Without(rest, all);
      forall t | t in kept
        ensures less(t, s)
      {
        var i :| 0 <= i < n && rest[i] == t;
        assert less(sessions[i], sessions[n]);
      }
    }
  }

  predicate ByKey(s: Session, t: Session) {
    !KeyLess(KeyOf(t), KeyOf(s))
  }

  lemma ByKeyIsTotal()
    ensures IsTotal(ByKey)
  {
    forall s, t
      ensures ByKey(s, t) || ByKey(t, s)
    {
      KeysCompare(KeyOf(s), KeyOf(t));
    }
    forall s, t, u | ByKey(s, t) && ByKey(t, u)
      ensures ByKey(s, u)
    {
      ByKeyChains(s, t, u);
    }
  }

  lemma ByKeyChains(s: Session, t: Session, u: Session)
    requires ByKey(s, t) && ByKey(t, u)
    ensures ByKey(s, u)
  {
    KeysCompare(KeyOf(s), KeyOf(t));
    KeysCompare(KeyOf(t), KeyOf(u));
    if KeyLess(KeyOf(u), KeyOf(s)) {
      if KeyLess(KeyOf(s), KeyOf(t)) {
        KeysChain(KeyOf(u), KeyOf(s), KeyOf(t));
      }
    }
    hide KeyLess;
  }

  lemma SortedIsMerge(base: seq<Session>, ours: seq<Session>, theirs: seq<Session>, union: seq<Session>,
                      sorted: seq<Session>, order: seq<nat>)
    requires IsUnion(base, ours, theirs, |ours + theirs|, union)
    requires IsStablySorted(DropUntaggedTwins(union), sorted, order, ByKey)
    requires multiset(sorted) == multiset(DropUntaggedTwins(union))
    ensures IsMerge(base, ours, theirs, sorted)
  {
    var listed := ours + theirs;
    var kept, met := DropUntaggedTwins(union), (s, t) => FirstMet(listed, s, t);
    assert listed[..|listed|] == listed;
    WithoutKeeps(union, union, met);
    TwinsAre(base, ours, theirs, union);
    hide DropUntaggedTwins, HasTaggedCopy, IsTwin, IndexOf;
    forall s
      ensures s in sorted <==> InMerge(base, ours, theirs, s)
    {
      assert s in multiset(sorted) <==> s in multiset(kept);
    }
    hide Survives;
    forall m, n | 0 <= m < n < |sorted|
      ensures Earlier(listed, sorted[m], sorted[n])
    {
      KeysCompare(KeyOf(sorted[m]), KeyOf(sorted[n]));
      hide KeyLess;
      if order[m] < order[n] {
        assert met(kept[order[m]], kept[order[n]]);
      }
    }
  }

  lemma TwinsAre(base: seq<Session>, ours: seq<Session>, theirs: seq<Session>, union: seq<Session>)
    requires forall s :: s in union <==> Survives(base, ours, theirs, s)
    ensures forall s :: HasTaggedCopy(union, s) <==> IsTwin(base, ours, theirs, s)
  {
    hide Survives;
  }

  datatype Outcome = Merged(sessions: seq<Session>) | Conflict

  method MergeSessions(base: seq<Session>, ours: seq<Session>, theirs: seq<Session>) returns (r: Outcome)
    ensures r.Conflict? <==> Conflicts(base, ours, theirs)
    ensures r.Merged? ==> IsMerge(base, ours, theirs, r.sessions)
  {
    hide Conflicts, IsMerge, IsUnion, DropUntaggedTwins, IsStablySorted, IsTotal, Sorting.InOrder;
    var conflict := HasConflict(base, ours, theirs);
    if conflict {
      return Conflict;
    }
    var union := UnionOf(base, ours, theirs);
    ByKeyIsTotal();
    ghost var order;
    var sorted;
    sorted, order := SortBy(DropUntaggedTwins(union), ByKey);
    SortedIsMerge(base, ours, theirs, union, sorted, order);
    return Merged(sorted);
  }

  // ---------- what merges keep ----------

  /** Swapping the sides changes neither the conflict nor the sessions. */
  lemma MergeIsSymmetric(base: seq<Session>, ours: seq<Session>, theirs: seq<Session>, s: Session)
    ensures InMerge(base, ours, theirs, s) <==> InMerge(base, theirs, ours, s)
    ensures Conflicts(base, ours, theirs) <==> Conflicts(base, theirs, ours)
  {
    hide IsReplacement;
    assert forall t :: Survives(base, ours, theirs, t) <==> Survives(base, theirs, ours, t);
    hide Survives;
    if Conflicts(base, ours, theirs) {
      var b :| b in base && b !in ours && b !in theirs
        && !exists r :: IsReplacement(base, ours, b, r) && IsReplacement(base, theirs, b, r);
      assert !exists r :: IsReplacement(base, theirs, b, r) && IsReplacement(base, ours, b, r);
    }
    if Conflicts(base, theirs, ours) {
      var b :| b in base && b !in theirs && b !in ours
        && !exists r :: IsReplacement(base, theirs, b, r) && IsReplacement(base, ours, b, r);
      assert !exists r :: IsReplacement(base, ours, b, r) && IsReplacement(base, theirs, b, r);
    }
  }

  /** Sessions with one sort key stand in the same order whichever side is listed first. */
  ghost predicate TiesAgree(base: seq<Session>, ours: seq<Session>, theirs: seq<Session>) {
    forall s, t :: InMerge(base, ours, theirs, s) && InMerge(base, ours, theirs, t) && KeyOf(s) == KeyOf(t)
      ==> (FirstMet(ours + theirs, s, t) <==> FirstMet(theirs + ours, s, t))
  }

  /** Swapping the sides gives the same list, session by session, exactly when the ties agree. */
  lemma SameListIffTiesAgree(base: seq<Session>, ours: seq<Session>, theirs: seq<Session>, m: seq<Session>,
                             n: seq<Session>)
    requires IsMerge(base, ours, theirs, m) && IsMerge(base, theirs, ours, n)
    ensures m == n <==> TiesAgree(base, ours, theirs)
  {
    hide FirstMet, KeyLess;
    forall s
      ensures s in m <==> s in n
    {
      MergeIsSymmetric(base, ours, theirs, s);
    }
    if TiesAgree(base, ours, theirs) {
      hide InMerge;
      forall i, k | 0 <= i < k < |n|
        ensures Earlier(ours + theirs, n[i], n[k])
      {
        assert n[i] in m && n[k] in m;
        EarlierMeans(theirs + ours, n[i], n[k]);
        EarlierMeans(ours + theirs, n[i], n[k]);
      }
      assert IsMerge(base, ours, theirs, n);
      MergeIsUnique(base, ours, theirs, m, n);
    }
    if m == n {
      hide InMerge;
      forall s, t | s in m && t in m && KeyOf(s) == KeyOf(t)
        ensures FirstMet(ours + theirs, s, t) <==> FirstMet(theirs + ours, s, t)
      {
        TieInList(ours + theirs, m, s, t);
        TieInList(theirs + ours, m, s, t);
      }
    }
  }

  lemma EarlierMeans(listed: seq<Session>, s: Session, t: Session)
    ensures Earlier(listed, s, t) <==> KeyLess(KeyOf(s), KeyOf(t)) || (KeyOf(s) == KeyOf(t) && FirstMet(listed, s, t))
  {
  }

  lemma TieInList(listed: seq<Session>, m: seq<Session>, s: Session, t: Session)
    requires Ascending(m, (s, t) => Earlier(listed, s, t)) && s in m && t in m && KeyOf(s) == KeyOf(t)
    ensures FirstMet(listed, s, t) <==> exists i, k :: 0 <= i < k < |m| && m[i] == s && m[k] == t
  {
    KeysCompare(KeyOf(s), KeyOf(t));
    EarlierMeans(listed, s, t);
    EarlierMeans(listed, t, s);
    FirstMetIsAsymmetric(listed, s, t);
    hide KeyLess, FirstMet, Earlier, KeyOf;
    var i :| 0 <= i < |m| && m[i] == s;
    var k :| 0 <= k < |m| && m[k] == t;
    assert i < k ==> Earlier(listed, m[i], m[k]);
    assert k < i ==> Earlier(listed, m[k], m[i]);
    forall x, y | 0 <= x < y < |m| && m[x] == s && m[y] == t
      ensures Earlier(listed, s, t)
    {
      assert Earlier(listed, m[x], m[y]);
    }
  }

  lemma FirstMetIsAsymmetric(listed: seq<Session>, s: Session, t: Session)
    ensures !(FirstMet(listed, s, t) && FirstMet(listed, t, s))
    ensures s == t ==> !FirstMet(listed, s, t)
  {
  }

  /** Distinct sort keys make the merge independent of which side is which. */
  lemma DistinctKeysAgree(base: seq<Session>, ours: seq<Session>, theirs: seq<Session>)
    requires forall s, t ::
      InMerge(base, ours, theirs, s) && InMerge(base, ours, theirs, t) && KeyOf(s) == KeyOf(t) ==> s == t
    ensures TiesAgree(base, ours, theirs)
  {
    forall s
      ensures !FirstMet(ours + theirs, s, s) && !FirstMet(theirs + ours, s, s)
    {
      FirstMetIsAsymmetric(ours + theirs, s, s);
      FirstMetIsAsymmetric(theirs + ours, s, s);
    }
  }

  /** Two untimed sessions with one label come out in a different order when the sides are swapped. */
  lemma TiesCanDisagree()
    ensures var s := Session("2026-01-01", "a", "1", [], None, "", "x");
      var t := Session("2026-01-01", "a", "1", [], None, "", "y");
      && IsMerge([], [s], [t], [s, t]) && IsMerge([], [t], [s], [t, s])
      && !Conflicts([], [s], [t]) && !TiesAgree([], [s], [t])
  {
    var s := Session("2026-01-01", "a", "1", [], None, "", "x");
    var t := Session("2026-01-01", "a", "1", [], None, "", "y");
    assert "x"[0] != "y"[0];
    assert s != t;
    TwoTied(s, t);
    TwoTied(t, s);
    SameListIffTiesAgree([], [s], [t], [s, t], [t, s]);
    assert [s, t][0] == s && [t, s][0] == t;
  }

  lemma TwoTied(s: Session, t: Session)
    requires s != t && KeyOf(s) == KeyOf(t) && s.variant.None? && t.variant.None?
    ensures IsMerge([], [s], [t], [s, t])
  {
    var listed := [s] + [t];
    assert listed[0] == s && listed[1] == t;
    IndexIsUnique(listed, 0);
    IndexIsUnique(listed, 1);
    assert FirstMet(listed, s, t);
    EarlierMeans(listed, s, t);
    hide FirstMet, KeyLess, KeyOf, IndexOf;
    assert forall x :: Survives([], [s], [t], x) <==> x == s || x == t;
  }

  /** A side that is the base changes nothing: the other side's sessions are the merge, and there is no conflict. */
  lemma UntouchedSide(base: seq<Session>, theirs: seq<Session>, s: Session)
    ensures !Conflicts(base, base, theirs)
    ensures InMerge(base, base, theirs, s) <==>
      s in theirs && !(s.variant.None? && exists t: Session :: t in theirs && t.variant.Some? && StripTag(t) == s)
  {
    hide IsReplacement;
    assert forall t :: Survives(base, base, theirs, t) <==> t in theirs;
    hide Survives;
  }

  /** No session on both sides, or new on one, is lost but as the untagged copy of one that is merged. */
  lemma NothingIsLost(base: seq<Session>, ours: seq<Session>, theirs: seq<Session>, s: Session)
    requires Survives(base, ours, theirs, s)
    ensures InMerge(base, ours, theirs, s)
      || exists t: Session :: InMerge(base, ours, theirs, t) && t.variant.Some? && StripTag(t) == s
  {
    hide Survives;
    if IsTwin(base, ours, theirs, s) {
      var t: Session :| t.variant.Some? && Survives(base, ours, theirs, t) && StripTag(t) == s;
      assert InMerge(base, ours, theirs, t);
    }
  }

  /** A merge can be merged again: with the other side as the new base, it stays as it is. */
  lemma MergeIsStable(base: seq<Session>, ours: seq<Session>, theirs: seq<Session>, m: seq<Session>)
    requires IsMerge(base, ours, theirs, m)
    ensures IsMerge(theirs, m, theirs, m) && !Conflicts(theirs, m, theirs)
  {
    hide IsReplacement;
    assert forall s :: Survives(theirs, m, theirs, s) <==> s in m;
    assert forall s :: IsTwin(theirs, m, theirs, s) ==> IsTwin(base, ours, theirs, s) by {
      hide Survives;
    }
    hide Survives, IsTwin, KeyLess;
    forall i, k | 0 <= i < k < |m|
      ensures Earlier(m + theirs, m[i], m[k])
    {
      MergeIsDistinct(base, ours, theirs, m);
      EarlierMeans(ours + theirs, m[i], m[k]);
      EarlierMeans(m + theirs, m[i], m[k]);
      IndexInPrefix(m, theirs, i);
      IndexInPrefix(m, theirs, k);
    }
  }

  lemma MergeIsDistinct(base: seq<Session>, ours: seq<Session>, theirs: seq<Session>, m: seq<Session>)
    requires IsMerge(base, ours, theirs, m)
    ensures Distinct(m)
  {
    EarlierIsAsymmetric(ours + theirs);
    hide Earlier, InMerge;
    forall i, k | 0 <= i < k < |m|
      ensures m[i] != m[k]
    {
      assert Earlier(ours + theirs, m[i], m[k]);
    }
  }

  lemma {:induction false} IndexInPrefix(m: seq<Session>, rest: seq<Session>, i: nat)
    requires Distinct(m) && i < |m|
    ensures m[i] in m + rest && IndexOf(m + rest, m[i]) == i
  {
    assert (m + rest)[i] == m[i];
    if i > 0 {
      assert (m + rest)[1..] == m[1..] + rest;
      assert m[i] != m[0] && m[1..][i - 1] == m[i];
      IndexInPrefix(m[1..], rest, i - 1);
    }
  }

  // ---------- in plain terms ----------

  /** A merged list is in day order. */
  lemma MergedInDayOrder(base: seq<Session>, ours: seq<Session>, theirs: seq<Session>, merged: seq<Session>,
                         m: nat, n: nat)
    requires IsMerge(base, ours, theirs, merged) && m < n < |merged|
    ensures InDayOrder(merged[m], merged[n])
  {
    assert Earlier(ours + theirs, merged[m], merged[n]);
    hide KeyLess, InMerge;
    KeysMeanDayOrder(merged[m], merged[n]);
  }

  /** A replacement is the one session of that recording on its side, as the replaced one is in the base. */
  lemma ReplacementIsSameRecording(base: seq<Session>, side: seq<Session>, b: Session, r: Session)
    requires b in base
    ensures IsReplacement(base, side, b, r) <==>
      && r !in base && SameRecording(b, r)
      && exists i: nat, k: nat ::
           OnlyRecording(base, i) && base[i] == b && OnlyRecording(side, k) && side[k] == r
  {
    AnchorsAgree(b, r);
    forall i: nat
      ensures OnlyRecording(base, i) <==>
        i < |base| && AnchorOf(base[i]).Some? && HeldOnlyAt(base, AnchorOf(base[i]).value, i)
      ensures OnlyRecording(side, i) <==>
        i < |side| && AnchorOf(side[i]).Some? && HeldOnlyAt(side, AnchorOf(side[i]).value, i)
    {
      HeldAlone(base, i);
      HeldAlone(side, i);
    }
    hide SameRecording, AnchorOf, OnlyRecording;
    if IsReplacement(base, side, b, r) {
      var a, i: nat, k: nat :| AnchorOf(b) == Some(a) && HeldOnlyAt(base, a, i) && HeldOnlyAt(side, a, k)
        && r == side[k] && r !in base;
      var j :| 0 <= j < |base| && base[j] == b;
      assert j == i;
      assert OnlyRecording(base, i) && OnlyRecording(side, k);
    }
  }
}
