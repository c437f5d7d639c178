/** Capture sessions: content, anchor and sort order. */
module Sessions {
  import opened Wrappers

  datatype Capture = Capture(time: string, rx: string, pid: string, rest: string) | NoCapture(text: string)

  /** `variant` and `tags` are the fields a variant tag occupies; `rest` every other field of the session. */
  datatype Session = Session(date: string, name: string, version: string, captures: seq<Capture>,
                             variant: Option<string>, tags: string, rest: string)

  function StripTag(s: Session): Session {
    s.(variant := None, tags := "")
  }

  datatype Anchor = Anchor(date: string, name: string, version: string, time: string, rx: string, pid: string)

  /** The recording a session is; none without a first capture. */
  function AnchorOf(s: Session): Option<Anchor> {
    if s.captures == [] || s.captures[0].NoCapture? then None
    else Some(Anchor(s.date, s.name, s.version, s.captures[0].time, s.captures[0].rx, s.captures[0].pid))
  }

  predicate HeldOnlyAt(sessions: seq<Session>, a: Anchor, i: nat) {
    && i < |sessions| && AnchorOf(sessions[i]) == Some(a)
    && forall k :: 0 <= k < |sessions| && k != i ==> AnchorOf(sessions[k]) != Some(a)
  }

  function Anchors(sessions: seq<Session>): set<Anchor> {
    set i: nat | i < |sessions| && AnchorOf(sessions[i]).Some? :: AnchorOf(sessions[i]).value
  }

  predicate IsUnique(sessions: seq<Session>, a: Anchor) {
    exists i :: 0 <= i < |sessions| && HeldOnlyAt(sessions, a, i)
  }

  function HolderOf(sessions: seq<Session>, a: Anchor): (i: nat)
    requires IsUnique(sessions, a)
    ensures HeldOnlyAt(sessions, a, i)
  {
    var i :| 0 <= i < |sessions| && HeldOnlyAt(sessions, a, i);
    i
  }

  /** The anchors held by exactly one session, and where. */
  function UniqueAnchors(sessions: seq<Session>): map<Anchor, nat> {
    map a | a in Anchors(sessions) && IsUnique(sessions, a) :: HolderOf(sessions, a)
  }

  lemma UniqueAnchorsAre(sessions: seq<Session>)
    ensures forall a :: a in UniqueAnchors(sessions) ==> HeldOnlyAt(sessions, a, UniqueAnchors(sessions)[a])
    ensures forall a, i: nat :: HeldOnlyAt(sessions, a, i) ==>
      a in UniqueAnchors(sessions) && UniqueAnchors(sessions)[a] == i
  {
    forall a, i: nat | HeldOnlyAt(sessions, a, i)
      ensures a in UniqueAnchors(sessions) && UniqueAnchors(sessions)[a] == i
    {
      assert AnchorOf(sessions[i]).value in Anchors(sessions);
      assert IsUnique(sessions, a);
    }
  }

  // ---------- canonical order ----------

  function FirstTime(s: Session): string {
    if s.captures == [] || s.captures[0].NoCapture? then "" else s.captures[0].time
  }

  predicate StringLess(a: string, b: string) {
    b != "" && (a == "" || a[0] < b[0] || (a[0] == b[0] && StringLess(a[1..], b[1..])))
  }

  lemma {:induction false} StringsCompare(a: string, b: string)
    ensures StringLess(a, b) || StringLess(b, a) || a == b
    ensures !(StringLess(a, b) && StringLess(b, a)) && (a == b ==> !StringLess(a, b))
  {
    if a != "" && b != "" {
      StringsCompare(a[1..], b[1..]);
      assert a == [a[0]] + a[1..] && b == [b[0]] + b[1..];
    }
  }

  lemma {:induction false} StringsChain(a: string, b: string, c: string)
    requires StringLess(a, b) && StringLess(b, c)
    ensures StringLess(a, c)
  {
    if a != "" && a[0] == b[0] == c[0] {
      StringsChain(a[1..], b[1..], c[1..]);
    }
  }

  datatype SortKey = SortKey(date: string, time: string, name: string)

  /** Date, then first capture's time, then label. */
  function KeyOf(s: Session): SortKey {
    SortKey(s.date, FirstTime(s), s.name)
  }

  predicate KeyLess(a: SortKey, b: SortKey) {
    || StringLess(a.date, b.date)
    || (a.date == b.date && (|| StringLess(a.time, b.time)
                             || (a.time == b.time && StringLess(a.name, b.name))))
  }

  lemma KeysCompare(a: SortKey, b: SortKey)
    ensures KeyLess(a, b) || KeyLess(b, a) || a == b
    ensures !(KeyLess(a, b) && KeyLess(b, a)) && (a == b ==> !KeyLess(a, b))
  {
    StringsCompare(a.date, b.date);
    StringsCompare(a.time, b.time);
    StringsCompare(a.name, b.name);
    hide StringLess;
  }

  lemma KeysChain(a: SortKey, b: SortKey, c: SortKey)
    requires KeyLess(a, b) && KeyLess(b, c)
    ensures KeyLess(a, c)
  {
    hide StringLess;
    if StringLess(a.date, b.date) && StringLess(b.date, c.date) {
      StringsChain(a.date, b.date, c.date);
    }
    if StringLess(a.time, b.time) && StringLess(b.time, c.time) {
      StringsChain(a.time, b.time, c.time);
    }
    if StringLess(a.name, b.name) && StringLess(b.name, c.name) {
      StringsChain(a.name, b.name, c.name);
    }
  }

  // ---------- what anchors and keys mean ----------

  predicate HasFirst(s: Session) {
    s.captures != [] && s.captures[0].Capture?
  }

  /** Same day, label and program version, and the same first capture: one recording, however edited since. */
  ghost predicate SameRecording(s: Session, t: Session) {
    && HasFirst(s) && HasFirst(t)
    && s.date == t.date && s.name == t.name && s.version == t.version
    && s.captures[0].time == t.captures[0].time
    && s.captures[0].rx == t.captures[0].rx && s.captures[0].pid == t.captures[0].pid
  }

  lemma AnchorsAgree(s: Session, t: Session)
    ensures AnchorOf(s).Some? && AnchorOf(s) == AnchorOf(t) <==> SameRecording(s, t)
    ensures AnchorOf(s).Some? <==> HasFirst(s)
    ensures AnchorOf(StripTag(s)) == AnchorOf(s)
  {
  }

  /** Session `i` is the only one of its recording. */
  ghost predicate OnlyRecording(sessions: seq<Session>, i: nat) {
    && i < |sessions| && HasFirst(sessions[i])
    && forall k :: 0 <= k < |sessions| && k != i ==> !SameRecording(sessions[k], sessions[i])
  }

  lemma HeldAlone(sessions: seq<Session>, i: nat)
    ensures OnlyRecording(sessions, i) <==>
      i < |sessions| && AnchorOf(sessions[i]).Some? && HeldOnlyAt(sessions, AnchorOf(sessions[i]).value, i)
  {
    if i < |sessions| {
      forall k | 0 <= k < |sessions|
        ensures SameRecording(sessions[k], sessions[i]) <==>
          AnchorOf(sessions[i]).Some? && AnchorOf(sessions[k]) == AnchorOf(sessions[i])
      {
        AnchorsAgree(sessions[i], sessions[k]);
      }
    }
    hide SameRecording;
  }

  /** The strings agree up to `i`, where `a` ends or has the smaller character. */
  predicate FirstAt(a: string, b: string, i: nat) {
    i <= |a| && i < |b| && a[..i] == b[..i] && (i == |a| || a[i] < b[i])
  }

  ghost predicate ComesFirst(a: string, b: string) {
    exists i: nat :: FirstAt(a, b, i)
  }

  lemma FirstAtNext(a: string, b: string, i: nat)
    requires a != "" && b != ""
    ensures FirstAt(a, b, i + 1) <==> a[0] == b[0] && FirstAt(a[1..], b[1..], i)
    ensures FirstAt(a, b, 0) <==> a[0] < b[0]
  {
    if i + 1 <= |a| && i + 1 <= |b| {
      assert a[..i + 1] == [a[0]] + a[1..][..i] && b[..i + 1] == [b[0]] + b[1..][..i];
      if a[..i + 1] == b[..i + 1] {
        assert a[..i + 1][0] == b[..i + 1][0];
        assert a[..i + 1][1..] == b[..i + 1][1..];
      }
    }
    assert a[..0] == b[..0];
  }

  lemma {:induction false} StringLessIff(a: string, b: string)
    ensures StringLess(a, b) <==> ComesFirst(a, b)
  {
    if a == "" || b == "" {
      assert b != "" ==> FirstAt(a, b, 0);
    } else {
      StringLessIff(a[1..], b[1..]);
      FirstAtNext(a, b, 0);
      hide FirstAt;
      if i: nat :| FirstAt(a[1..], b[1..], i) {
        FirstAtNext(a, b, i);
      }
      if i: nat :| FirstAt(a, b, i) {
        if i > 0 {
          FirstAtNext(a, b, i - 1);
        }
      }
    }
  }

  ghost predicate NotAfter(a: string, b: string) {
    a == b || ComesFirst(a, b)
  }

  /** By day, then by the first capture's time, none before any, then by label. */
  ghost predicate InDayOrder(s: Session, t: Session) {
    && NotAfter(s.date, t.date)
    && (s.date == t.date && HasFirst(s) ==>
          && (HasFirst(t) || s.captures[0].time == "")
          && (HasFirst(t) ==> NotAfter(s.captures[0].time, t.captures[0].time)))
    && (s.date == t.date && HasFirst(s) && HasFirst(t) && s.captures[0].time == t.captures[0].time ==>
          NotAfter(s.name, t.name))
    && (s.date == t.date && !HasFirst(s) && !HasFirst(t) ==> NotAfter(s.name, t.name))
  }

  lemma KeysMeanDayOrder(s: Session, t: Session)
    requires KeyLess(KeyOf(s), KeyOf(t)) || KeyOf(s) == KeyOf(t)
    ensures InDayOrder(s, t)
  {
    StringLessIff(s.date, t.date);
    StringLessIff(FirstTime(s), FirstTime(t));
    StringLessIff(s.name, t.name);
    NothingBeforeEmpty(FirstTime(s));
    StringsCompare(s.date, t.date);
    StringsCompare(FirstTime(s), FirstTime(t));
    hide StringLess, ComesFirst;
  }

  lemma NothingBeforeEmpty(a: string)
    ensures !StringLess(a, "")
  {
  }
}
