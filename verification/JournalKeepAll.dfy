/**
  What a journal that is not run-length loses: nothing at all, over every run.
 */
module JournalKeepAll {
  import opened Wrappers
  import opened CaptureLog
  import opened JournalLines
  import opened CaptureJournal

  /** The sessions hold each row and refusal at least as often as the journal lines do. */
  ghost predicate HoldsAll(saved: seq<DaySession>, records: seq<Record>) {
    && multiset(RowsOf(records)) <= multiset(Flat(RowGroups(saved)))
    && multiset(RefusalsOf(records)) <= multiset(Flat(RefusalGroups(saved)))
  }

  /** Unless some reconcile deduplicated, every flushed line is in the journal or saved as it stands. */
  ghost predicate IsKept(w: World) {
    !w.dedups ==> (w.log.Some? && w.flushed <= w.log.value) || HoldsAll(w.saved, w.flushed)
  }

  ghost predicate Counts(w: World) {
    && IsKept(w)
    && (w.phase.Saving? ==> (w.phase.changes ==> w.dedups) && w.phase.done <= |w.phase.sessions|
                            && SavedSome(w.saved, w.phase.sessions[..w.phase.done]))
  }

  /** `some` are among the saved sessions, each as often. */
  ghost predicate SavedSome(saved: seq<DaySession>, some: seq<DaySession>) {
    && multiset(Flat(RowGroups(some))) <= multiset(Flat(RowGroups(saved)))
    && multiset(Flat(RefusalGroups(some))) <= multiset(Flat(RefusalGroups(saved)))
  }

  lemma {:induction false} FlatAppend<T>(groups: seq<seq<T>>, last: seq<T>)
    ensures Flat(groups + [last]) == Flat(groups) + last
  {
    var all := groups + [last];
    if groups == [] {
      assert all[1..] == [] && Flat(all) == last + Flat([]);
    } else {
      assert all[1..] == groups[1..] + [last];
      FlatAppend(groups[1..], last);
    }
  }

  lemma OneMoreSession(sessions: seq<DaySession>, s: DaySession)
    ensures Flat(RowGroups(sessions + [s])) == Flat(RowGroups(sessions)) + s.rows
    ensures Flat(RefusalGroups(sessions + [s])) == Flat(RefusalGroups(sessions)) + s.refusals
  {
    assert RowGroups(sessions + [s]) == RowGroups(sessions) + [s.rows];
    assert RefusalGroups(sessions + [s]) == RefusalGroups(sessions) + [s.refusals];
    FlatAppend(RowGroups(sessions), s.rows);
    FlatAppend(RefusalGroups(sessions), s.refusals);
  }

  lemma SavedSomeMore(saved: seq<DaySession>, some: seq<DaySession>, s: DaySession)
    requires SavedSome(saved, some)
    ensures SavedSome(saved + [s], some + [s])
  {
    OneMoreSession(saved, s);
    OneMoreSession(some, s);
  }

  lemma PrefixCounts<T>(some: seq<T>, all: seq<T>)
    requires some <= all
    ensures multiset(some) <= multiset(all)
  {
    assert all == some + all[|some|..];
  }

  lemma FewerHeld(saved: seq<DaySession>, some: seq<Record>, all: seq<Record>)
    requires some <= all && HoldsAll(saved, all)
    ensures HoldsAll(saved, some)
  {
    PrefixRows(some, all);
    PrefixCounts(RowsOf(some), RowsOf(all));
    PrefixCounts(RefusalsOf(some), RefusalsOf(all));
  }

  lemma AllSavedHolds(records: seq<Record>, sessions: seq<DaySession>, saved: seq<DaySession>)
    requires AreSessionsOf(records, false, sessions) && SavedSome(saved, sessions)
    ensures HoldsAll(saved, records)
  {
    KeepAllKeepsAll(records, sessions);
    hide AreSessionsOf;
  }

  lemma ReadCounts(w: World, v: World, override: Option<bool>, sessions: seq<DaySession>)
    requires Keeps(w) && Counts(w) && Reads(w, v, override, sessions)
    ensures Counts(v)
  {
    var all := w.log.value + w.buffered;
    hide UsesChanges, HoldsAll, IsSafe, IsHonest;
    NothingSaved(w.saved);
    if sessions == [] && !v.dedups {
      AllSavedHolds(all, sessions, w.saved);
      FewerHeld(w.saved, w.flushed, all);
    }
    hide AreSessionsOf, SavedSome;
    assert sessions[..0] == [];
  }

  lemma NothingSaved(saved: seq<DaySession>)
    ensures SavedSome(saved, [])
  {
    assert RowGroups([]) == [] && RefusalGroups([]) == [];
  }

  lemma SaveCounts(w: World, v: World)
    requires w.log.Some? && w.flushed <= w.log.value && Counts(w) && SavesOne(w, v)
    ensures Counts(v)
  {
    var sessions, done := w.phase.sessions, w.phase.done;
    SavedSomeMore(w.saved, sessions[..done], sessions[done]);
    hide HoldsAll, SavedSome;
    assert sessions[..done + 1] == sessions[..done] + [sessions[done]];
  }

  lemma UnlinkCounts(w: World, v: World)
    requires Keeps(w) && Counts(w) && Unlinks(w, v)
    ensures Counts(v)
  {
    hide IsSafe, IsHonest, HoldsAll;
    if !w.dedups {
      assert w.phase.sessions[..w.phase.done] == w.phase.sessions;
      AllSavedHolds(w.log.value, w.phase.sessions, w.saved);
      FewerHeld(w.saved, w.flushed, w.log.value);
    }
  }

  lemma OtherStepCounts(w: World, v: World)
    requires Keeps(w) && Keeps(v) && Counts(w)
    requires v.saved == w.saved && v.dedups == w.dedups && !v.phase.Saving?
    requires v.log.None? ==> w.log.None? && v.flushed == w.flushed
    ensures Counts(v)
  {
    hide IsSafe, IsHonest, HoldsAll, IsSaving;
  }

  lemma StillThere(w: World)
    requires Keeps(w)
    ensures w.log.Some? ==> w.flushed <= w.log.value
    ensures w.phase.Saving? ==> w.log.Some?
  {
    hide IsSafe, IsHonest, IsSaving;
  }

  lemma StepCounts(w: World, v: World)
    requires Keeps(w) && Counts(w) && Next(w, v)
    ensures Counts(v)
  {
    NextKeeps(w, v);
    StillThere(w);
    hide Keeps, Counts, Reads;
    if override, sessions :| Reads(w, v, override, sessions) {
      ReadCounts(w, v, override, sessions);
    } else if SavesOne(w, v) {
      SaveCounts(w, v);
    } else if Unlinks(w, v) {
      UnlinkCounts(w, v);
    } else {
      OtherStepCounts(w, v);
    }
  }

  /** In every run in which no reconcile deduplicated, no flushed row or refusal is lost or thinned out. */
  lemma {:induction false} KeepAllRunLosesNothing(run: seq<World>, m: nat)
    requires IsRun(run) && m < |run|
    ensures IsKept(run[m])
    ensures Counts(run[m])
  {
    hide Next, Starts, Counts;
    if m == 0 {
      StartCounts(run[0]);
    } else {
      KeepAllRunLosesNothing(run, m - 1);
      RunIsSafe(run, m - 1);
      hide Keeps;
      StepCounts(run[m - 1], run[m]);
    }
    CountsAreKept(run[m]);
  }

  lemma StartCounts(w: World)
    requires Starts(w)
    ensures Counts(w)
  {
    hide HoldsAll;
  }

  lemma CountsAreKept(w: World)
    requires Counts(w)
    ensures IsKept(w)
  {
  }

  // ---------- when a reconcile deduplicates ----------

  /** The step reads a journal whose rows are deduplicated: asked to be, or recorded as run-length. */
  ghost predicate ReadDedups(w: World, v: World, override: Option<bool>, sessions: seq<DaySession>) {
    Reads(w, v, override, sessions) && UsesChanges(w.log.value + w.buffered, override)
  }

  ghost predicate StepDedups(w: World, v: World) {
    exists override, sessions :: ReadDedups(w, v, override, sessions)
  }

  ghost predicate DedupsAt(run: seq<World>, i: nat) {
    i + 1 < |run| && StepDedups(run[i], run[i + 1])
  }

  lemma DedupsStep(run: seq<World>, i: nat)
    requires IsRun(run) && i + 1 < |run|
    ensures run[i + 1].dedups <==> run[i].dedups || DedupsAt(run, i)
  {
    var w, v := run[i], run[i + 1];
    assert Next(w, v);
    hide AreSessionsOf, RecordsMode;
    if override, sessions :| Reads(w, v, override, sessions) {
      assert UsesChanges(w.log.value + w.buffered, override) ==> ReadDedups(w, v, override, sessions);
    }
  }

  /** A run has deduplicated exactly when one of its reconciles was asked to or found run-length recorded. */
  lemma {:induction false} DedupsIff(run: seq<World>, m: nat)
    requires IsRun(run) && m < |run|
    ensures run[m].dedups <==> exists i: nat :: i < m && DedupsAt(run, i)
  {
    hide DedupsAt, Next;
    if m > 0 {
      DedupsIff(run, m - 1);
      DedupsStep(run, m - 1);
      hide IsRun;
    }
  }
}
