/**
  How long a stored value stays known: the validity windows of run-length captures.

  `IsWindow` says what a window is outright; `HoldUntilVector` computes it in one pass over the
  rows in time order and one over the gaps.
 */
module HoldWindows {
  import opened Wrappers
  import opened Sorting

  type Instant = real
  datatype SessionKey = SessionKey(file: string, index: int)

  // ---------- link events ----------

  datatype Kind = Disconnect | Paused | EcuSilent | Unpolled | Backoff | Resync

  /** `at` and `until` are seconds since midnight, absent when unreadable. */
  datatype LinkEvent = LinkEvent(kind: Kind, at: Option<real>, until: Option<real>, rx: Option<string>,
                                 pid: Option<string>)

  predicate IsGapKind(k: Kind) {
    k in {Disconnect, Paused, EcuSilent, Unpolled}
  }

  /** An event with no address covers every ECU, one with no PID every PID of its ECU. */
  predicate AppliesTo(e: LinkEvent, rx: Option<string>, pid: Option<string>) {
    e.rx.None? || (e.rx == rx && (e.pid.None? || e.pid == pid))
  }

  datatype Gap = Gap(start: real, end: Option<real>)

  /** Nothing was heard of this ECU and PID from the event's start on. */
  ghost predicate CutsOff(e: LinkEvent, rx: Option<string>, pid: Option<string>) {
    && e.kind != Backoff && e.kind != Resync && e.at.Some?
    && (e.rx.Some? ==> e.rx == rx)
    && (e.rx.Some? && e.pid.Some? ==> e.pid == pid)
  }

  lemma CutsOffIff(e: LinkEvent, rx: Option<string>, pid: Option<string>)
    ensures CutsOff(e, rx, pid) <==> IsGapKind(e.kind) && AppliesTo(e, rx, pid) && e.at.Some?
  {
  }

  ghost predicate IsGapOf(events: seq<LinkEvent>, rx: Option<string>, pid: Option<string>, g: Gap) {
    exists e :: e in events && CutsOff(e, rx, pid) && g == Gap(e.at.value, e.until)
  }

  /** The gaps covering one ECU and PID, by start. */
  method GapIntervals(events: seq<LinkEvent>, rx: Option<string>, pid: Option<string>) returns (gaps: seq<Gap>)
    ensures forall g :: g in gaps <==> IsGapOf(events, rx, pid, g)
    ensures forall m, n :: 0 <= m < n < |gaps| ==> gaps[m].start <= gaps[n].start
  {
    var out: seq<Gap> := [];
    for m := 0 to |events|
      invariant forall g :: g in out <==> IsGapOf(events[..m], rx, pid, g)
    {
      var e := events[m];
      assert events[..m + 1] == events[..m] + [e];
      CutsOffIff(e, rx, pid);
      if IsGapKind(e.kind) && AppliesTo(e, rx, pid) && e.at.Some? {
        out := out + [Gap(e.at.value, e.until)];
      }
    }
    assert events[..|events|] == events;
    var order := StableSort(seq(|out|, m requires 0 <= m < |out| => out[m].start));
    gaps := seq(|out|, m requires 0 <= m < |out| && order[m] < |out| => out[order[m]]);
    SortedGaps(out, order, gaps);
  }

  lemma SortedGaps(out: seq<Gap>, order: seq<nat>, gaps: seq<Gap>)
    requires |order| == |out| == |gaps|
    requires forall m :: 0 <= m < |order| ==> order[m] < |out| && gaps[m] == out[order[m]]
    requires IsStableOrder(seq(|out|, m requires 0 <= m < |out| => out[m].start), order)
    ensures forall g :: g in gaps <==> g in out
    ensures forall m, n :: 0 <= m < n < |gaps| ==> gaps[m].start <= gaps[n].start
  {
    var keys := seq(|out|, m requires 0 <= m < |out| => out[m].start);
    forall g | g in out
      ensures g in gaps
    {
      var i :| 0 <= i < |out| && out[i] == g;
      assert i in order;
      var m :| 0 <= m < |order| && order[m] == i;
      assert gaps[m] == g;
    }
    forall m, n | 0 <= m < n < |gaps|
      ensures gaps[m].start <= gaps[n].start
    {
      assert Before(keys, order[m], order[n]);
    }
  }

  // ---------- capture rows ----------

  /** A stored row: `midnight` is its session's day, absent when unreadable. */
  datatype Entry = Entry(session: SessionKey, keepMode: string, events: seq<LinkEvent>,
                         rx: Option<string>, pid: Option<string>, midnight: Option<Instant>)

  datatype FillMode = Auto | Hold | Never
  datatype FillPolicy = FillPolicy(mode: FillMode, maxHold: Option<real>) {
    predicate Allows(e: Entry) {
      match mode
      case Never => false
      case Hold => true
      case Auto => e.keepMode == "changes"
    }

    /** The end a hold limit sets; a limit of zero means none. */
    function Cap(dt: Instant): Option<Instant> {
      if maxHold.Some? && maxHold.value != 0.0 then Some(dt + maxHold.value) else None
    }
  }

  /** A value may be held when asked to, or by default when its session stored changes only. */
  ghost predicate MayHold(policy: FillPolicy, e: Entry) {
    policy.mode != Never && (policy.mode == Auto ==> e.keepMode == "changes")
  }

  // ---------- session ends ----------

  /** `ends` holds the last instant of every session with a timed row. */
  ghost predicate AreSessionEnds(keys: seq<SessionKey>, ats: seq<Option<Instant>>, ends: map<SessionKey, Instant>)
    requires |keys| == |ats|
  {
    && (forall i :: 0 <= i < |keys| && ats[i].Some? ==> keys[i] in ends && ats[i].value <= ends[keys[i]])
    && (forall key :: key in ends ==> exists i :: 0 <= i < |keys| && keys[i] == key && ats[i] == Some(ends[key]))
  }

  method SessionEndTimes(keys: seq<SessionKey>, ats: seq<Option<Instant>>) returns (ends: map<SessionKey, Instant>)
    requires |keys| == |ats|
    ensures AreSessionEnds(keys, ats, ends)
  {
    ends := map[];
    for i := 0 to |keys|
      invariant AreSessionEnds(keys[..i], ats[..i], ends)
    {
      var key, before := keys[i], ends;
      if ats[i].Some? && (key !in ends || ats[i].value > ends[key]) {
        ends := ends[key := ats[i].value];
      }
      EndsAfter(keys, ats, before, i, ends);
    }
    assert keys[..|keys|] == keys && ats[..|keys|] == ats;
  }

  lemma EndsAfter(keys: seq<SessionKey>, ats: seq<Option<Instant>>, before: map<SessionKey, Instant>, i: nat,
                  after: map<SessionKey, Instant>)
    requires i < |keys| == |ats| && AreSessionEnds(keys[..i], ats[..i], before)
    requires after == if ats[i].Some? && (keys[i] !in before || ats[i].value > before[keys[i]])
                      then before[keys[i] := ats[i].value] else before
    ensures AreSessionEnds(keys[..i + 1], ats[..i + 1], after)
  {
    var ks, xs := keys[..i + 1], ats[..i + 1];
    forall k | 0 <= k < i
      ensures ks[k] == keys[..i][k] && xs[k] == ats[..i][k]
    {
    }
    forall key | key in after
      ensures exists k :: 0 <= k < |ks| && ks[k] == key && xs[k] == Some(after[key])
    {
      if key in before && after[key] == before[key] {
        var k :| 0 <= k < i && keys[..i][k] == key && ats[..i][k] == Some(before[key]);
        assert ks[k] == key && xs[k] == Some(after[key]);
      } else {
        assert ks[i] == key && xs[i] == Some(after[key]);
      }
    }
  }

  // ---------- what bounds a value ----------

  /** Row `k` comes after row `i` in the same session, at a later instant or as late and later in the list. */
  predicate Later(entries: seq<Entry>, dts: seq<Instant>, i: nat, k: nat) {
    i < |entries| && k < |entries| && entries[k].session == entries[i].session && Before(dts, i, k)
  }

  predicate SameScope(a: Entry, b: Entry) {
    a.session == b.session && a.rx == b.rx && a.pid == b.pid
  }

  /** A gap of `e`'s own events starts at `s`. */
  ghost predicate GapStartsAt(e: Entry, s: Instant) {
    e.midnight.Some? && exists g :: IsGapOf(e.events, e.rx, e.pid, g) && s == e.midnight.value + g.start
  }

  /** The first row with events of `entries[i]`'s scope: the one whose events the cache keeps. */
  function Opener(entries: seq<Entry>, i: nat, from: nat): (k: nat)
    requires from <= i < |entries| && entries[i].events != []
    ensures from <= k <= i && entries[k].events != [] && SameScope(entries[k], entries[i])
    ensures forall j :: from <= j < k ==> entries[j].events == [] || !SameScope(entries[j], entries[i])
    decreases i - from
  {
    if from == i || (entries[from].events != [] && SameScope(entries[from], entries[i])) then from
    else Opener(entries, i, from + 1)
  }

  /** A gap covering row `i` starts at `s`, not before the row. */
  ghost predicate GapAhead(entries: seq<Entry>, dts: seq<Instant>, i: nat, s: Instant)
    requires i < |entries| == |dts|
  {
    entries[i].events != [] && GapStartsAt(entries[Opener(entries, i, 0)], s) && dts[i] <= s
  }

  /** The rows of a session carry that session's day and events. */
  predicate SessionsAgree(entries: seq<Entry>) {
    forall i, k :: 0 <= i < |entries| && 0 <= k < |entries| && entries[i].session == entries[k].session ==>
      entries[i].events == entries[k].events && entries[i].midnight == entries[k].midnight
  }

  /** Then the cached gaps are the row's own. */
  lemma GapsAreTheRowsOwn(entries: seq<Entry>, dts: seq<Instant>, i: nat, s: Instant)
    requires i < |entries| == |dts| && SessionsAgree(entries)
    ensures GapAhead(entries, dts, i, s) <==> GapStartsAt(entries[i], s) && dts[i] <= s
  {
    if entries[i].events != [] {
      var k := Opener(entries, i, 0);
      assert entries[k] == entries[i].(keepMode := entries[k].keepMode);
    }
  }

  /** The next row of the session, or with none the session's end. */
  ghost predicate RunEndsAt(entries: seq<Entry>, dts: seq<Instant>, ends: map<SessionKey, Instant>, i: nat, u: Instant)
    requires i < |entries| == |dts|
  {
    || (exists k: nat :: Later(entries, dts, i, k) && dts[k] == u)
    || ((forall k: nat :: !Later(entries, dts, i, k)) && entries[i].session in ends && ends[entries[i].session] == u)
  }

  ghost predicate Bounds(entries: seq<Entry>, dts: seq<Instant>, ends: map<SessionKey, Instant>, policy: FillPolicy,
                         respectGaps: bool, i: nat, u: Instant)
    requires i < |entries| == |dts|
  {
    || RunEndsAt(entries, dts, ends, i, u)
    || (respectGaps && GapAhead(entries, dts, i, u))
    || (policy.maxHold.Some? && policy.maxHold.value != 0.0 && u - dts[i] == policy.maxHold.value)
  }

  /** `until` is the least bound, absent when nothing bounds the value. */
  ghost predicate IsLeastBound(entries: seq<Entry>, dts: seq<Instant>, ends: map<SessionKey, Instant>,
                               policy: FillPolicy, respectGaps: bool, i: nat, until: Option<Instant>)
    requires i < |entries| == |dts|
  {
    && (until.Some? ==> Bounds(entries, dts, ends, policy, respectGaps, i, until.value))
    && (forall w :: Bounds(entries, dts, ends, policy, respectGaps, i, w) ==> until.Some? && until.value <= w)
  }

  /** The window of a row that may be held is its least bound, when that leaves it any width. */
  ghost predicate IsWindow(entries: seq<Entry>, dts: seq<Instant>, ends: map<SessionKey, Instant>, policy: FillPolicy,
                           respectGaps: bool, i: nat, hold: Option<Instant>)
    requires i < |entries| == |dts|
  {
    if MayHold(policy, entries[i]) then
      exists until :: IsLeastBound(entries, dts, ends, policy, respectGaps, i, until)
        && hold == if until.Some? && until.value > dts[i] then until else None
    else hold.None?
  }

  // ---------- gap starts ----------

  type ScopeKey = (SessionKey, Option<string>, Option<string>)

  function Scope(e: Entry): ScopeKey {
    (e.session, e.rx, e.pid)
  }

  ghost predicate AreGapStarts(e: Entry, starts: seq<Instant>) {
    && (forall m, n :: 0 <= m < n < |starts| ==> starts[m] <= starts[n])
    && (forall s :: s in starts <==> GapStartsAt(e, s))
  }

  method GapStarts(e: Entry) returns (starts: seq<Instant>)
    ensures AreGapStarts(e, starts)
  {
    if e.midnight.None? {
      return [];
    }
    var gaps := GapIntervals(e.events, e.rx, e.pid);
    var midnight := e.midnight.value;
    starts := seq(|gaps|, m requires 0 <= m < |gaps| => midnight + gaps[m].start);
    forall s
      ensures s in starts <==> GapStartsAt(e, s)
    {
      if s in starts {
        var m :| 0 <= m < |starts| && starts[m] == s;
        assert IsGapOf(e.events, e.rx, e.pid, gaps[m]);
      }
      if GapStartsAt(e, s) {
        var g :| IsGapOf(e.events, e.rx, e.pid, g) && s == midnight + g.start;
        var m :| 0 <= m < |gaps| && gaps[m] == g;
        assert starts[m] == s;
      }
    }
  }

  /** The first of the ascending `starts` not before `dt`. */
  method FirstFrom(starts: seq<Instant>, dt: Instant) returns (cut: Option<Instant>)
    requires forall m, n :: 0 <= m < n < |starts| ==> starts[m] <= starts[n]
    ensures cut.Some? ==> cut.value in starts && dt <= cut.value
    ensures forall s :: s in starts && dt <= s ==> cut.Some? && cut.value <= s
  {
    var lo, hi := 0, |starts|;
    while lo < hi
      invariant 0 <= lo <= hi <= |starts|
      invariant forall k :: 0 <= k < lo ==> starts[k] < dt
      invariant forall k :: hi <= k < |starts| ==> dt <= starts[k]
    {
      var mid := (lo + hi) / 2;
      if starts[mid] < dt {
        lo := mid + 1;
      } else {
        hi := mid;
      }
    }
    return if lo < |starts| then Some(starts[lo]) else None;
  }

  /** `cut` is the first gap start ahead of row `i`. */
  ghost predicate IsCut(entries: seq<Entry>, dts: seq<Instant>, i: nat, cut: Option<Instant>)
    requires i < |entries| == |dts|
  {
    && (cut.Some? ==> GapAhead(entries, dts, i, cut.value))
    && (forall s :: GapAhead(entries, dts, i, s) ==> cut.Some? && cut.value <= s)
  }

  /** The cache holds, for each scope met so far, the gap starts of its first row with events. */
  ghost predicate CacheOk(entries: seq<Entry>, cache: map<ScopeKey, seq<Instant>>, n: nat) {
    forall i :: 0 <= i < |entries| && entries[i].events != [] ==>
      if Opener(entries, i, 0) < n then
        Scope(entries[i]) in cache && AreGapStarts(entries[Opener(entries, i, 0)], cache[Scope(entries[i])])
      else Scope(entries[i]) !in cache
  }

  lemma OpenerIsShared(entries: seq<Entry>, i: nat, k: nat)
    requires i < |entries| && k < |entries| && entries[i].events != [] && entries[k].events != []
    requires SameScope(entries[i], entries[k])
    ensures Opener(entries, i, 0) == Opener(entries, k, 0)
  {
    var a, b := Opener(entries, i, 0), Opener(entries, k, 0);
    if a < b {
      assert SameScope(entries[a], entries[k]);
    }
  }

  lemma CacheAfter(entries: seq<Entry>, cache: map<ScopeKey, seq<Instant>>, n: nat, starts: seq<Instant>)
    requires n < |entries| && entries[n].events != [] && CacheOk(entries, cache, n)
    requires Scope(entries[n]) !in cache && AreGapStarts(entries[n], starts)
    ensures CacheOk(entries, cache[Scope(entries[n]) := starts], n + 1)
    ensures Opener(entries, n, 0) == n
  {
    hide AreGapStarts;
    forall i | 0 <= i < |entries| && entries[i].events != [] && SameScope(entries[i], entries[n])
      ensures Opener(entries, i, 0) == n
    {
      OpenerIsShared(entries, i, n);
    }
  }

  lemma CacheStays(entries: seq<Entry>, cache: map<ScopeKey, seq<Instant>>, n: nat)
    requires n < |entries| && CacheOk(entries, cache, n)
    requires entries[n].events == [] || Scope(entries[n]) in cache
    ensures CacheOk(entries, cache, n + 1)
  {
    hide AreGapStarts;
    forall i | 0 <= i < |entries| && entries[i].events != []
      ensures Opener(entries, i, 0) != n
    {
      if entries[n].events != [] && SameScope(entries[i], entries[n]) {
        OpenerIsShared(entries, i, n);
      }
    }
  }

  /** The gap starts of row `n`'s scope, from the cache or into it. */
  method CachedGapStarts(entries: seq<Entry>, cache: map<ScopeKey, seq<Instant>>, n: nat)
    returns (after: map<ScopeKey, seq<Instant>>, starts: seq<Instant>)
    requires n < |entries| && entries[n].events != [] && CacheOk(entries, cache, n)
    ensures CacheOk(entries, after, n + 1) && AreGapStarts(entries[Opener(entries, n, 0)], starts)
  {
    hide AreGapStarts, CacheOk, Opener;
    var key := Scope(entries[n]);
    if key in cache {
      CacheStays(entries, cache, n);
      after := cache;
    } else {
      var found := GapStarts(entries[n]);
      CacheAfter(entries, cache, n, found);
      after := cache[key := found];
    }
    CachedStarts(entries, after, n);
    starts := after[key];
  }

  method NextGapStarts(entries: seq<Entry>, dts: seq<Instant>) returns (out: seq<Option<Instant>>)
    requires |entries| == |dts|
    ensures |out| == |entries| && forall i :: 0 <= i < |entries| ==> IsCut(entries, dts, i, out[i])
  {
    hide AreGapStarts, GapStartsAt, Opener, IsCut;
    var cache: map<ScopeKey, seq<Instant>> := map[];
    out := [];
    for n := 0 to |entries|
      invariant |out| == n && forall i :: 0 <= i < n ==> IsCut(entries, dts, i, out[i])
      invariant CacheOk(entries, cache, n)
    {
      hide CacheOk;
      if entries[n].events == [] {
        NoEventsNoCut(entries, dts, n);
        CacheStays(entries, cache, n);
        out := out + [None];
      } else {
        var starts;
        cache, starts := CachedGapStarts(entries, cache, n);
        StartsAscend(entries[Opener(entries, n, 0)], starts);
        var cut := FirstFrom(starts, dts[n]);
        CutFound(entries, dts, n, starts, cut);
        out := out + [cut];
      }
    }
  }

  lemma StartsAscend(e: Entry, starts: seq<Instant>)
    requires AreGapStarts(e, starts)
    ensures forall a, b :: 0 <= a < b < |starts| ==> starts[a] <= starts[b]
  {
  }

  lemma NoEventsNoCut(entries: seq<Entry>, dts: seq<Instant>, n: nat)
    requires n < |entries| == |dts| && entries[n].events == []
    ensures IsCut(entries, dts, n, None)
  {
  }

  lemma CachedStarts(entries: seq<Entry>, cache: map<ScopeKey, seq<Instant>>, n: nat)
    requires n < |entries| && entries[n].events != [] && CacheOk(entries, cache, n + 1)
    ensures Scope(entries[n]) in cache
    ensures AreGapStarts(entries[Opener(entries, n, 0)], cache[Scope(entries[n])])
  {
  }

  lemma CutFound(entries: seq<Entry>, dts: seq<Instant>, n: nat, starts: seq<Instant>, cut: Option<Instant>)
    requires n < |entries| == |dts| && entries[n].events != []
    requires AreGapStarts(entries[Opener(entries, n, 0)], starts)
    requires cut.Some? ==> cut.value in starts && dts[n] <= cut.value
    requires forall s :: s in starts && dts[n] <= s ==> cut.Some? && cut.value <= s
    ensures IsCut(entries, dts, n, cut)
  {
    hide GapStartsAt;
  }

  // ---------- the windows ----------

  /** The rows of `done` handled so far: each is closed by the next of its session, or still open. */
  ghost predicate RunClosed(entries: seq<Entry>, dts: seq<Instant>, done: set<nat>, i: nat, hold: Option<Instant>)
    requires |entries| == |dts|
  {
    && hold.Some?
    && (exists k: nat :: k in done && Later(entries, dts, i, k) && dts[k] == hold.value)
    && (forall k: nat :: k in done && Later(entries, dts, i, k) ==> hold.value <= dts[k])
  }

  ghost predicate StillOpen(entries: seq<Entry>, dts: seq<Instant>, done: set<nat>, i: nat) {
    i in done && forall k: nat :: k in done ==> !Later(entries, dts, i, k)
  }

  ghost predicate RunsOk(entries: seq<Entry>, dts: seq<Instant>, done: set<nat>, open: map<SessionKey, nat>,
                         holds: seq<Option<Instant>>)
    requires |entries| == |dts| == |holds|
  {
    && (forall i :: i in done ==> i < |entries| && entries[i].session in open)
    && (forall key :: key in open ==>
          open[key] < |entries| && entries[open[key]].session == key && StillOpen(entries, dts, done, open[key]))
    && (forall i :: i in done && open[entries[i].session] != i ==> RunClosed(entries, dts, done, i, holds[i]))
  }

  /** One more row in time order closes the row open for its session and opens itself. */
  lemma RunsAfter(entries: seq<Entry>, dts: seq<Instant>, done: set<nat>, open: map<SessionKey, nat>,
                  holds: seq<Option<Instant>>, i: nat)
    requires |entries| == |dts| == |holds| && i < |entries| && i !in done
    requires RunsOk(entries, dts, done, open, holds)
    requires forall k :: k in done ==> k < |dts| && Before(dts, k, i)
    ensures var key := entries[i].session;
      var next := if key in open then holds[open[key] := Some(dts[i])] else holds;
      |next| == |entries| && RunsOk(entries, dts, done + {i}, open[key := i], next)
  {
    var key := entries[i].session;
    var next := if key in open then holds[open[key] := Some(dts[i])] else holds;
    var after := done + {i};
    assert forall k :: k in done ==> !Later(entries, dts, i, k);
    assert StillOpen(entries, dts, after, i);
    forall other | other in open && other != key
      ensures StillOpen(entries, dts, after, open[other])
    {
      assert !Later(entries, dts, open[other], i);
    }
    forall j | j in after && open[key := i][entries[j].session] != j
      ensures RunClosed(entries, dts, after, j, next[j])
    {
      if key in open && j == open[key] {
        assert i in after && Later(entries, dts, j, i) && dts[i] == next[j].value;
      } else {
        assert RunClosed(entries, dts, done, j, holds[j]);
        var k: nat :| k in done && Later(entries, dts, j, k) && dts[k] == holds[j].value;
        assert k in after && dts[k] <= dts[i];
      }
    }
  }

  /** `hold` is the first instant the row's run can end at. */
  ghost predicate IsRunEnd(entries: seq<Entry>, dts: seq<Instant>, ends: map<SessionKey, Instant>, i: nat,
                           hold: Option<Instant>)
    requires i < |entries| == |dts|
  {
    && (hold.Some? ==> RunEndsAt(entries, dts, ends, i, hold.value))
    && (forall u :: RunEndsAt(entries, dts, ends, i, u) ==> hold.Some? && hold.value <= u)
  }

  method RunEnds(entries: seq<Entry>, dts: seq<Instant>, ends: map<SessionKey, Instant>)
    returns (holds: seq<Option<Instant>>)
    requires |entries| == |dts|
    ensures |holds| == |entries| && forall i :: 0 <= i < |entries| ==> IsRunEnd(entries, dts, ends, i, holds[i])
  {
    hide RunsOk, IsRunEnd;
    var n := |entries|;
    holds := seq(n, _ => None);
    var open: map<SessionKey, nat> := map[];
    var order := StableSort(dts);
    ghost var done: set<nat> := {};
    NothingDone(entries, dts, holds);
    for m := 0 to n
      invariant |holds| == n && done == set k | k in order[..m]
      invariant RunsOk(entries, dts, done, open, holds)
    {
      var i := order[m];
      var key := entries[i].session;
      PrefixIsBefore(dts, order, m);
      RunsAfter(entries, dts, done, open, holds, i);
      OpenInRange(entries, dts, done, open, holds);
      if key in open {
        holds := holds[open[key] := Some(dts[i])];
      }
      open := open[key := i];
      assert order[..m + 1] == order[..m] + [i];
      done := done + {i};
    }
    assert order[..n] == order;
    ghost var closed := holds;
    OpenInRange(entries, dts, done, open, holds);
    var keys := open.Keys;
    while keys != {}
      invariant |holds| == n && keys <= open.Keys
      invariant forall i :: 0 <= i < n ==>
        holds[i] == if IsClosing(open, keys, entries[i].session, i) then LookUp(ends, entries[i].session) else closed[i]
      decreases |keys|
    {
      var key :| key in keys;
      holds := holds[open[key] := LookUp(ends, key)];
      keys := keys - {key};
    }
    forall i | 0 <= i < n
      ensures IsRunEnd(entries, dts, ends, i, holds[i])
    {
      RunEndFound(entries, dts, ends, done, open, closed, i);
    }
  }

  predicate IsClosing(open: map<SessionKey, nat>, left: set<SessionKey>, key: SessionKey, i: nat) {
    key in open && key !in left && open[key] == i
  }

  function LookUp(ends: map<SessionKey, Instant>, key: SessionKey): Option<Instant> {
    if key in ends then Some(ends[key]) else None
  }

  lemma NothingDone(entries: seq<Entry>, dts: seq<Instant>, holds: seq<Option<Instant>>)
    requires |entries| == |dts| == |holds|
    ensures RunsOk(entries, dts, {}, map[], holds)
  {
  }

  lemma OpenInRange(entries: seq<Entry>, dts: seq<Instant>, done: set<nat>, open: map<SessionKey, nat>,
                    holds: seq<Option<Instant>>)
    requires |entries| == |dts| == |holds| && RunsOk(entries, dts, done, open, holds)
    ensures forall key :: key in open ==> open[key] < |entries| && entries[open[key]].session == key
  {
  }

  lemma PrefixIsBefore(dts: seq<Instant>, order: seq<nat>, m: nat)
    requires IsStableOrder(dts, order) && m < |order|
    ensures order[m] !in order[..m]
    ensures forall k :: k in order[..m] ==> k < |dts| && Before(dts, k, order[m])
  {
    forall k | k in order[..m]
      ensures k < |dts| && Before(dts, k, order[m])
    {
      var p :| 0 <= p < m && order[p] == k;
      PlaceOf(dts, order, p, m);
    }
  }

  lemma RunEndFound(entries: seq<Entry>, dts: seq<Instant>, ends: map<SessionKey, Instant>, done: set<nat>,
                    open: map<SessionKey, nat>, closed: seq<Option<Instant>>, i: nat)
    requires i < |entries| == |dts| == |closed| && RunsOk(entries, dts, done, open, closed)
    requires forall k: nat :: k < |entries| ==> k in done
    ensures var key := entries[i].session;
      IsRunEnd(entries, dts, ends, i, if key in open && open[key] == i then LookUp(ends, key) else closed[i])
  {
    var key := entries[i].session;
    if open[key] == i {
      assert forall k: nat :: !Later(entries, dts, i, k);
    } else {
      assert RunClosed(entries, dts, done, i, closed[i]);
      var k: nat :| k in done && Later(entries, dts, i, k) && dts[k] == closed[i].value;
    }
  }

  /** The earlier of two instants, an absent one being no bound. */
  function Earlier(a: Option<Instant>, b: Option<Instant>): Option<Instant> {
    if b.Some? && (a.None? || b.value < a.value) then b else a
  }

  lemma LeastBound(entries: seq<Entry>, dts: seq<Instant>, ends: map<SessionKey, Instant>, policy: FillPolicy,
                   respectGaps: bool, i: nat, run: Option<Instant>, cut: Option<Instant>)
    requires i < |entries| == |dts| && IsRunEnd(entries, dts, ends, i, run)
    requires if respectGaps then IsCut(entries, dts, i, cut) else cut.None?
    ensures IsLeastBound(entries, dts, ends, policy, respectGaps, i, Earlier(Earlier(run, cut), policy.Cap(dts[i])))
  {
    hide RunEndsAt, GapAhead;
  }

  /** When each row's value stops being known. */
  method HoldUntilVector(entries: seq<Entry>, dts: seq<Instant>, ends: map<SessionKey, Instant>, policy: FillPolicy,
                         respectGaps: bool)
    returns (holds: seq<Option<Instant>>)
    requires |entries| == |dts|
    ensures |holds| == |entries|
    ensures forall i :: 0 <= i < |entries| ==> IsWindow(entries, dts, ends, policy, respectGaps, i, holds[i])
  {
    hide IsRunEnd, IsCut, IsLeastBound;
    var n := |entries|;
    holds := seq(n, _ => None);
    if policy.mode == Never || n == 0 {
      return;
    }
    holds := RunEnds(entries, dts, ends);
    var cuts: seq<Option<Instant>> := seq(n, _ => None);
    if respectGaps {
      cuts := NextGapStarts(entries, dts);
    }
    for i := 0 to n
      invariant |holds| == n
      invariant forall k :: 0 <= k < i ==> IsWindow(entries, dts, ends, policy, respectGaps, k, holds[k])
      invariant forall k :: i <= k < n ==> IsRunEnd(entries, dts, ends, k, holds[k])
    {
      if !policy.Allows(entries[i]) {
        holds := holds[i := None];
      } else {
        LeastBound(entries, dts, ends, policy, respectGaps, i, holds[i], cuts[i]);
        var until := Earlier(Earlier(holds[i], cuts[i]), policy.Cap(dts[i]));
        holds := holds[i := if until.Some? && until.value > dts[i] then until else None];
      }
    }
  }
}
