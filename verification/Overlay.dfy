/**
  Laying one copy of a session log over another when there is no common base.

  `SlotAfter` and `Additions` say what each upstream place and the tail hold afterwards; `Lay` is the
  loop that gets there.
 */
module Overlay {
  import opened Wrappers
  import opened Lists
  import opened Sessions

  /** An entry of the upstream list: a session, or something the list should not hold but keeps. */
  datatype Slot = Whole(session: Session) | Foreign(text: string)

  ghost predicate AnchorAt(slots: seq<Slot>, a: Anchor, k: nat) {
    k < |slots| && slots[k].Whole? && AnchorOf(slots[k].session) == Some(a)
  }

  ghost predicate OnlyAnchorAt(slots: seq<Slot>, a: Anchor, k: nat) {
    AnchorAt(slots, a, k) && forall m: nat :: AnchorAt(slots, a, m) ==> m == k
  }

  /** Upstream has the session, or has it tagged. */
  ghost predicate Known(up: seq<Slot>, s: Session) {
    Whole(s) in up || exists t: Session :: Whole(t) in up && t.variant.Some? && StripTag(t) == s
  }

  /** Source session `i` is the edited copy of the one in place `k`. */
  ghost predicate Replaces(up: seq<Slot>, src: seq<Session>, i: nat, k: nat) {
    && i < |src| && !Known(up, src[i])
    && exists a :: HeldOnlyAt(src, a, i) && OnlyAnchorAt(up, a, k)
  }

  ghost predicate IsAddition(up: seq<Slot>, src: seq<Session>, i: nat) {
    && i < |src| && !Known(up, src[i]) && src[i] !in src[..i]
    && forall k: nat :: !Replaces(up, src, i, k)
  }

  /** The sessions of the source that are neither known nor edits, once each, in order. */
  ghost function Additions(up: seq<Slot>, src: seq<Session>, n: nat): seq<Session>
    requires n <= |src|
  {
    if n == 0 then []
    else Additions(up, src, n - 1) + if IsAddition(up, src, n - 1) then [src[n - 1]] else []
  }

  ghost predicate SlotAfter(up: seq<Slot>, src: seq<Session>, n: nat, k: nat, slot: Slot)
    requires k < |up|
  {
    || (exists i: nat :: i < n && Replaces(up, src, i, k) && slot == Whole(src[i]))
    || ((forall i: nat :: i < n ==> !Replaces(up, src, i, k)) && slot == up[k])
  }

  /** The list after the first `n` source sessions. */
  ghost predicate IsLaid(up: seq<Slot>, src: seq<Session>, n: nat, slots: seq<Slot>, added: seq<Session>) {
    && n <= |src| && |slots| == |up|
    && (forall k :: 0 <= k < |up| ==> SlotAfter(up, src, n, k, slots[k]))
    && added == Additions(up, src, n)
  }

  lemma OneReplacement(up: seq<Slot>, src: seq<Session>, i: nat, j: nat, k: nat)
    requires Replaces(up, src, i, k) && Replaces(up, src, j, k)
    ensures i == j
  {
    var a :| HeldOnlyAt(src, a, i) && OnlyAnchorAt(up, a, k);
    var b :| HeldOnlyAt(src, b, j) && OnlyAnchorAt(up, b, k);
    assert a == b;
  }

  // ---------- the algorithm ----------

  function SlotSessions(slots: seq<Slot>): set<Session> {
    set x | x in slots && x.Whole? :: x.session
  }

  /** The sessions upstream has, and those it has under a tag. */
  function SeenIn(up: seq<Slot>): (seen: set<Session>)
    ensures forall s :: s in seen <==> Known(up, s)
  {
    SlotSessions(up) + set x | x in up && x.Whole? && x.session.variant.Some? :: StripTag(x.session)
  }

  predicate IsOnlyPlace(up: seq<Slot>, a: Anchor, k: nat) {
    && k < |up| && up[k].Whole? && AnchorOf(up[k].session) == Some(a)
    && forall m :: 0 <= m < |up| && m != k ==> !(up[m].Whole? && AnchorOf(up[m].session) == Some(a))
  }

  lemma OnlyPlaceIs(up: seq<Slot>, a: Anchor, k: nat)
    ensures IsOnlyPlace(up, a, k) <==> OnlyAnchorAt(up, a, k)
  {
    if OnlyAnchorAt(up, a, k) {
      forall m | 0 <= m < |up| && m != k
        ensures !(up[m].Whole? && AnchorOf(up[m].session) == Some(a))
      {
        assert AnchorAt(up, a, m) ==> m == k;
      }
    }
  }

  function PlaceOfAnchor(up: seq<Slot>, a: Anchor): (k: Option<nat>)
    ensures k.Some? ==> OnlyAnchorAt(up, a, k.value)
    ensures k.None? ==> forall m: nat :: !OnlyAnchorAt(up, a, m)
  {
    if exists k :: 0 <= k < |up| && IsOnlyPlace(up, a, k) then
      var k :| 0 <= k < |up| && IsOnlyPlace(up, a, k);
      OnlyPlaceIs(up, a, k);
      Some(k)
    else
      NoOnlyPlace(up, a);
      None
  }

  lemma NoOnlyPlace(up: seq<Slot>, a: Anchor)
    requires forall k :: 0 <= k < |up| ==> !IsOnlyPlace(up, a, k)
    ensures forall m: nat :: !OnlyAnchorAt(up, a, m)
  {
    forall m: nat | m < |up|
      ensures !OnlyAnchorAt(up, a, m)
    {
      OnlyPlaceIs(up, a, m);
    }
  }

  /** Where source session `i` goes: over the upstream copy with its anchor, or to the end. */
  function Target(up: seq<Slot>, src: seq<Session>, i: nat): (k: Option<nat>)
    requires i < |src|
    ensures k.Some? ==> (Replaces(up, src, i, k.value) <==> !Known(up, src[i])) && k.value < |up|
    ensures k.None? ==> forall m: nat :: !Replaces(up, src, i, m)
  {
    var anchor := AnchorOf(src[i]);
    if anchor.None? || !HeldOnlyAt(src, anchor.value, i) then None
    else PlaceOfAnchor(up, anchor.value)
  }

  lemma TargetIsTheOnly(up: seq<Slot>, src: seq<Session>, i: nat, k: nat)
    requires i < |src| && Target(up, src, i).Some? && Replaces(up, src, i, k)
    ensures k == Target(up, src, i).value
  {
    var a :| HeldOnlyAt(src, a, i) && OnlyAnchorAt(up, a, k);
  }

  ghost predicate SeenSoFar(up: seq<Slot>, src: seq<Session>, n: nat, seen: set<Session>)
    requires n <= |src|
  {
    forall s :: s in seen <==> Known(up, s) || s in src[..n]
  }

  lemma Skipped(up: seq<Slot>, src: seq<Session>, n: nat, slots: seq<Slot>, added: seq<Session>)
    requires n < |src| && IsLaid(up, src, n, slots, added) && (Known(up, src[n]) || src[n] in src[..n])
    ensures IsLaid(up, src, n + 1, slots, added)
  {
    forall k: nat
      ensures !Replaces(up, src, n, k)
    {
      if src[n] in src[..n] {
        var i :| 0 <= i < n && src[i] == src[n];
      }
    }
    hide Replaces, Known;
    SlotsStay(up, src, n, slots);
  }

  lemma SlotsStay(up: seq<Slot>, src: seq<Session>, n: nat, slots: seq<Slot>)
    requires n < |src| && |slots| == |up|
    requires forall k :: 0 <= k < |up| ==> SlotAfter(up, src, n, k, slots[k])
    requires forall k: nat :: !Replaces(up, src, n, k)
    ensures forall k :: 0 <= k < |up| ==> SlotAfter(up, src, n + 1, k, slots[k])
  {
    hide Replaces;
    forall k | 0 <= k < |up|
      ensures SlotAfter(up, src, n + 1, k, slots[k])
    {
      assert SlotAfter(up, src, n, k, slots[k]);
    }
  }

  lemma Appended(up: seq<Slot>, src: seq<Session>, n: nat, slots: seq<Slot>, added: seq<Session>)
    requires n < |src| && IsLaid(up, src, n, slots, added) && IsAddition(up, src, n)
    ensures IsLaid(up, src, n + 1, slots, added + [src[n]])
  {
    hide Replaces, Known;
    SlotsStay(up, src, n, slots);
  }

  lemma Replaced(up: seq<Slot>, src: seq<Session>, n: nat, slots: seq<Slot>, added: seq<Session>, at: nat)
    requires n < |src| && IsLaid(up, src, n, slots, added) && Replaces(up, src, n, at) && at < |up|
    requires forall k: nat :: Replaces(up, src, n, k) ==> k == at
    ensures IsLaid(up, src, n + 1, slots[at := Whole(src[n])], added)
  {
    var after := slots[at := Whole(src[n])];
    hide Known;
    forall k | 0 <= k < |up|
      ensures SlotAfter(up, src, n + 1, k, after[k])
    {
      assert SlotAfter(up, src, n, k, slots[k]);
      if k == at {
        assert Replaces(up, src, n, at);
      }
      hide Replaces;
    }
  }

  /** What an overlay did: the list, absent when nothing changed, and how many sessions were new or edits. */
  datatype Result = Result(slots: Option<seq<Slot>>, added: nat, replaced: seq<nat>)

  /** Every upstream place with an edited copy holds it, the rest stay, and new sessions follow. */
  ghost predicate IsOverlay(up: seq<Slot>, src: seq<Session>, r: Result) {
    && (r.slots.None? <==> forall s :: s in src ==> Known(up, s))
    && (r.slots.None? ==> r.added == 0 && r.replaced == [])
    && (forall k: nat :: k in r.replaced <==> exists i: nat :: Replaces(up, src, i, k))
    && Distinct(r.replaced)
    && (r.slots.Some? ==>
          && r.added == |Additions(up, src, |src|)|
          && |r.slots.value| == |up| + r.added
          && (forall k :: 0 <= k < |up| ==> SlotAfter(up, src, |src|, k, r.slots.value[k]))
          && (forall m :: 0 <= m < r.added ==> r.slots.value[|up| + m] == Whole(Additions(up, src, |src|)[m])))
  }

  ghost predicate AreReplaced(up: seq<Slot>, src: seq<Session>, n: nat, replaced: seq<nat>) {
    Distinct(replaced) && forall k: nat :: k in replaced <==> exists i: nat :: i < n && Replaces(up, src, i, k)
  }

  lemma ReplacedMore(up: seq<Slot>, src: seq<Session>, n: nat, replaced: seq<nat>, at: nat)
    requires AreReplaced(up, src, n, replaced) && Replaces(up, src, n, at)
    requires forall k: nat :: Replaces(up, src, n, k) ==> k == at
    ensures AreReplaced(up, src, n + 1, replaced + [at])
  {
    hide Replaces;
    forall i: nat | Replaces(up, src, i, at)
      ensures i == n
    {
      OneReplacement(up, src, i, n, at);
    }
    var more := replaced + [at];
    AppendDistinct(replaced, [at]);
    forall k: nat
      ensures k in more <==> exists i: nat :: i < n + 1 && Replaces(up, src, i, k)
    {
      InAppend(replaced, [at], k);
      assert k == at ==> Replaces(up, src, n, k);
    }
  }

  lemma ReplacedStay(up: seq<Slot>, src: seq<Session>, n: nat, replaced: seq<nat>)
    requires AreReplaced(up, src, n, replaced) && forall k: nat :: !Replaces(up, src, n, k)
    ensures AreReplaced(up, src, n + 1, replaced)
  {
    hide Replaces;
  }

  method Lay(up: seq<Slot>, src: seq<Session>) returns (r: Result)
    ensures IsOverlay(up, src, r)
  {
    hide IsLaid, Replaces, Known, AreReplaced, IsAddition;
    var seen := SeenIn(up);
    var slots, added, replaced: seq<nat> := up, [], [];
    NothingLaid(up, src);
    assert src[..0] == [];
    for n := 0 to |src|
      invariant IsLaid(up, src, n, slots, added) && AreReplaced(up, src, n, replaced) && |slots| == |up|
      invariant SeenSoFar(up, src, n, seen)
      invariant added == [] && replaced == [] <==> forall s :: s in src[..n] ==> Known(up, s)
    {
      var s := src[n];
      assert src[..n + 1] == src[..n] + [s];
      if s in seen {
        Skipped(up, src, n, slots, added);
        SkippedReplaces(up, src, n);
        ReplacedStay(up, src, n, replaced);
      } else {
        seen := seen + {s};
        var at := Target(up, src, n);
        TargetOnly(up, src, n);
        if at.Some? {
          Replaced(up, src, n, slots, added, at.value);
          ReplacedMore(up, src, n, replaced, at.value);
          slots := slots[at.value := Whole(s)];
          replaced := replaced + [at.value];
        } else {
          Appended(up, src, n, slots, added);
          ReplacedStay(up, src, n, replaced);
          added := added + [s];
        }
      }
      LaidShape(up, src, n + 1, slots, added);
    }
    assert src[..|src|] == src;
    if added == [] && replaced == [] {
      r := Result(None, 0, []);
    } else {
      r := Result(Some(slots + seq(|added|, m requires 0 <= m < |added| => Whole(added[m]))), |added|, replaced);
    }
    LaidIsOverlay(up, src, slots, added, replaced, r);
  }

  lemma NothingLaid(up: seq<Slot>, src: seq<Session>)
    ensures IsLaid(up, src, 0, up, []) && AreReplaced(up, src, 0, [])
  {
    hide Replaces;
  }

  lemma LaidShape(up: seq<Slot>, src: seq<Session>, n: nat, slots: seq<Slot>, added: seq<Session>)
    requires IsLaid(up, src, n, slots, added)
    ensures |slots| == |up|
  {
  }

  lemma SkippedReplaces(up: seq<Slot>, src: seq<Session>, n: nat)
    requires n < |src| && (Known(up, src[n]) || src[n] in src[..n])
    ensures forall k: nat :: !Replaces(up, src, n, k)
  {
    if src[n] in src[..n] {
      var i :| 0 <= i < n && src[i] == src[n];
    }
  }

  /** A session not seen before is an addition when it has no target, else replaces its target alone. */
  lemma TargetOnly(up: seq<Slot>, src: seq<Session>, n: nat)
    requires n < |src| && !Known(up, src[n]) && src[n] !in src[..n]
    ensures var at := Target(up, src, n);
      && (at.None? ==> IsAddition(up, src, n) && forall k: nat :: !Replaces(up, src, n, k))
      && (at.Some? ==> Replaces(up, src, n, at.value) && forall k: nat :: Replaces(up, src, n, k) ==> k == at.value)
  {
    hide Replaces, Known;
    var at := Target(up, src, n);
    forall k: nat | at.Some? && Replaces(up, src, n, k)
      ensures k == at.value
    {
      TargetIsTheOnly(up, src, n, k);
    }
  }

  lemma LaidIsOverlay(up: seq<Slot>, src: seq<Session>, slots: seq<Slot>, added: seq<Session>, replaced: seq<nat>,
                      r: Result)
    requires IsLaid(up, src, |src|, slots, added) && AreReplaced(up, src, |src|, replaced)
    requires added == [] && replaced == [] <==> forall s :: s in src ==> Known(up, s)
    requires r == if added == [] && replaced == [] then Result(None, 0, [])
                  else Result(Some(slots + seq(|added|, m requires 0 <= m < |added| => Whole(added[m]))), |added|,
                              replaced)
    ensures IsOverlay(up, src, r)
  {
    hide Known, Additions;
    forall k: nat
      ensures k in replaced <==> exists i: nat :: Replaces(up, src, i, k)
    {
      assert forall i: nat :: Replaces(up, src, i, k) ==> i < |src|;
    }
    hide Replaces;
  }

  // ---------- what an overlay keeps ----------

  /** A source session upstream does not have, of the same recording as the one it covers. */
  ghost predicate IsEdit(up: seq<Slot>, src: seq<Session>, before: Slot, after: Slot) {
    && before.Whole? && after.Whole? && after.session in src && after !in up
    && SameRecording(before.session, after.session)
  }

  /** Every upstream place is left as it was, or holds a source session of the same recording. */
  lemma PlacesAreKept(up: seq<Slot>, src: seq<Session>, r: Result, k: nat)
    requires IsOverlay(up, src, r) && r.slots.Some? && k < |up|
    ensures |up| <= |r.slots.value|
    ensures r.slots.value[k] == up[k] <==> k !in r.replaced
    ensures k in r.replaced ==> IsEdit(up, src, up[k], r.slots.value[k])
  {
    var slot := r.slots.value[k];
    assert SlotAfter(up, src, |src|, k, slot);
    if k in r.replaced {
      var i: nat :| Replaces(up, src, i, k);
      assert i < |src|;
      var j: nat :| j < |src| && Replaces(up, src, j, k) && slot == Whole(src[j]);
      assert up[k] in up;
    }
  }

  /** A session of the source is known, an edit, or an addition. */
  lemma EverySessionIsPlaced(up: seq<Slot>, src: seq<Session>, r: Result, s: Session)
    requires IsOverlay(up, src, r) && r.slots.Some? && s in src && !Known(up, s)
    ensures Whole(s) in r.slots.value
  {
    var i := FirstPlace(src, s);
    if k: nat :| Replaces(up, src, i, k) {
      assert k < |up|;
      assert SlotAfter(up, src, |src|, k, r.slots.value[k]);
      forall j: nat | Replaces(up, src, j, k)
        ensures j == i
      {
        OneReplacement(up, src, i, j, k);
      }
      assert r.slots.value[k] == Whole(s);
    } else {
      assert IsAddition(up, src, i);
      AdditionsHold(up, src, |src|, i);
      var m :| 0 <= m < |Additions(up, src, |src|)| && Additions(up, src, |src|)[m] == s;
      assert r.slots.value[|up| + m] == Whole(s);
    }
  }

  lemma {:induction false} FirstPlace(src: seq<Session>, s: Session) returns (i: nat)
    requires s in src
    ensures i < |src| && src[i] == s && s !in src[..i]
  {
    if s in src[..|src| - 1] {
      i := FirstPlace(src[..|src| - 1], s);
      assert src[..|src| - 1][..i] == src[..i];
    } else {
      i := |src| - 1;
    }
  }

  lemma {:induction false} AdditionsHold(up: seq<Slot>, src: seq<Session>, n: nat, i: nat)
    requires i < n <= |src| && IsAddition(up, src, i)
    ensures src[i] in Additions(up, src, n)
  {
    hide IsAddition;
    if i < n - 1 {
      AdditionsHold(up, src, n - 1, i);
    }
  }

  ghost predicate IsNewSession(up: seq<Slot>, src: seq<Session>, s: Session) {
    && s in src && !Known(up, s)
    && forall i: nat, k: nat :: i < |src| && src[i] == s ==> !Replaces(up, src, i, k)
  }

  lemma AdditionIsNew(up: seq<Slot>, src: seq<Session>, i: nat)
    requires IsAddition(up, src, i)
    ensures IsNewSession(up, src, src[i])
  {
    forall j: nat, k: nat | j < |src| && src[j] == src[i]
      ensures !Replaces(up, src, j, k)
    {
      if Replaces(up, src, j, k) {
        assert false;
      }
    }
  }

  lemma {:induction false} AdditionsAre(up: seq<Slot>, src: seq<Session>, n: nat)
    requires n <= |src|
    ensures forall s :: s in Additions(up, src, n) ==> s in src[..n] && IsNewSession(up, src, s)
    ensures Distinct(Additions(up, src, n))
  {
    hide Known, IsNewSession;
    if n > 0 {
      AdditionsAre(up, src, n - 1);
      assert src[..n] == src[..n - 1] + [src[n - 1]];
      var before := Additions(up, src, n - 1);
      if IsAddition(up, src, n - 1) {
        AdditionIsNew(up, src, n - 1);
        AppendDistinct(before, [src[n - 1]]);
      }
    }
  }

  /**
    What follows the upstream places is new: sessions of the source that upstream has neither as they
    are nor to be replaced, each once.
   */
  lemma OnlyNewIsAdded(up: seq<Slot>, src: seq<Session>, r: Result)
    requires IsOverlay(up, src, r) && r.slots.Some?
    ensures |up| <= |r.slots.value| && Distinct(r.slots.value[|up|..])
    ensures forall slot :: slot in r.slots.value[|up|..] ==> slot.Whole? && IsNewSession(up, src, slot.session)
  {
    var added, tail := Additions(up, src, |src|), r.slots.value[|up|..];
    AdditionsAre(up, src, |src|);
    hide Additions, IsNewSession, Known, SlotAfter;
    assert forall m :: 0 <= m < |tail| ==> tail[m] == Whole(added[m]);
  }

  /** What upstream knew is still known: an edit never covers a session the source holds unedited. */
  lemma KnownStays(up: seq<Slot>, src: seq<Session>, r: Result, s: Session)
    requires IsOverlay(up, src, r) && r.slots.Some? && s in src && Known(up, s)
    ensures Known(r.slots.value, s)
  {
    var after := r.slots.value;
    if Whole(s) in up {
      var k :| 0 <= k < |up| && up[k] == Whole(s);
      UnchangedPlace(up, src, r, k, s);
      assert after[k] in after;
    } else {
      var t: Session :| Whole(t) in up && t.variant.Some? && StripTag(t) == s;
      var k :| 0 <= k < |up| && up[k] == Whole(t);
      UnchangedPlace(up, src, r, k, s);
      assert after[k] in after;
    }
  }

  lemma UnchangedPlace(up: seq<Slot>, src: seq<Session>, r: Result, k: nat, s: Session)
    requires IsOverlay(up, src, r) && r.slots.Some? && k < |up| && up[k].Whole?
    requires s in src && Known(up, s) && AnchorOf(s) == AnchorOf(up[k].session)
    ensures r.slots.value[k] == up[k]
  {
    assert SlotAfter(up, src, |src|, k, r.slots.value[k]);
    forall i: nat
      ensures !Replaces(up, src, i, k)
    {
      NotOverKnown(up, src, i, k, s);
    }
  }

  lemma NotOverKnown(up: seq<Slot>, src: seq<Session>, i: nat, k: nat, s: Session)
    requires k < |up| && up[k].Whole? && s in src && Known(up, s) && AnchorOf(s) == AnchorOf(up[k].session)
    ensures !Replaces(up, src, i, k)
  {
    hide Known;
    var j :| 0 <= j < |src| && src[j] == s;
    assert forall a :: HeldOnlyAt(src, a, i) && AnchorOf(s) == Some(a) ==> j == i;
  }

  /** Laying the same source again changes nothing. */
  lemma OverlayIsIdempotent(up: seq<Slot>, src: seq<Session>, r: Result, again: Result)
    requires IsOverlay(up, src, r) && r.slots.Some? && IsOverlay(r.slots.value, src, again)
    ensures again.slots.None?
  {
    forall s | s in src
      ensures Known(r.slots.value, s)
    {
      if Known(up, s) {
        KnownStays(up, src, r, s);
      } else {
        EverySessionIsPlaced(up, src, r, s);
      }
    }
    hide Known;
  }

  // ---------- in plain terms ----------

  ghost predicate OnlyRecordingAt(up: seq<Slot>, k: nat) {
    && k < |up| && up[k].Whole? && HasFirst(up[k].session)
    && forall m :: 0 <= m < |up| && m != k && up[m].Whole? ==> !SameRecording(up[m].session, up[k].session)
  }

  lemma AnchorAlone(up: seq<Slot>, k: nat)
    ensures OnlyRecordingAt(up, k) <==>
      && k < |up| && up[k].Whole? && AnchorOf(up[k].session).Some?
      && OnlyAnchorAt(up, AnchorOf(up[k].session).value, k)
  {
    if k < |up| && up[k].Whole? && HasFirst(up[k].session) {
      var a := AnchorOf(up[k].session).value;
      forall m: nat | m < |up| && up[m].Whole?
        ensures SameRecording(up[m].session, up[k].session) <==> AnchorAt(up, a, m)
      {
        AnchorsAgree(up[k].session, up[m].session);
      }
      hide SameRecording;
    }
  }

  /** A session replaces the upstream copy of its recording, when each is the only one of it on its side. */
  lemma ReplacesSameRecording(up: seq<Slot>, src: seq<Session>, i: nat, k: nat)
    ensures Replaces(up, src, i, k) <==>
      && i < |src| && !Known(up, src[i]) && OnlyRecording(src, i) && OnlyRecordingAt(up, k)
      && SameRecording(src[i], up[k].session)
  {
    HeldAlone(src, i);
    AnchorAlone(up, k);
    if i < |src| && k < |up| && up[k].Whole? {
      AnchorsAgree(src[i], up[k].session);
    }
    hide Known, SameRecording, OnlyRecording, OnlyRecordingAt;
    if Replaces(up, src, i, k) {
      var a :| HeldOnlyAt(src, a, i) && OnlyAnchorAt(up, a, k);
      assert AnchorAt(up, a, k);
    }
  }
}
