/**
  The write-ahead journal of a recording, as a protocol over its steps and crashes.

  `Next` lists what can happen between two instants; `RunIsSafe` is what every run keeps. The class is
  the journal object, each of its effects one step of such a run.
 */
module CaptureJournal {
  import opened Wrappers
  import opened CaptureLog
  import opened JournalLines

  // ---------- the protocol ----------

  datatype Phase = Recording | Saving(sessions: seq<DaySession>, done: nat, changes: bool) | Stopped

  /**
    The journal file's lines (absent once unlinked), lines not yet flushed, sessions saved to the dated
    files, and, for the record, the lines ever flushed and ever appended and whether some reconcile so far
    deduplicated.
   */
  datatype World = World(log: Option<seq<Record>>, buffered: seq<Record>, saved: seq<DaySession>, phase: Phase,
                         flushed: seq<Record>, appended: seq<Record>, dedups: bool)

  predicate Starts(w: World) {
    w.phase.Recording? && w.log.Some? && w.buffered == [] && w.saved == []
    && w.flushed == w.log.value && w.appended == w.log.value && !w.dedups
  }

  predicate Appends(w: World, v: World, r: Record) {
    w.phase.Recording? && v == w.(buffered := w.buffered + [r], appended := w.appended + [r])
  }

  function Flushed(w: World): World
    requires w.log.Some?
  {
    w.(log := Some(w.log.value + w.buffered), buffered := [], flushed := w.log.value + w.buffered)
  }

  /** Any number of the unflushed lines may have reached the disk when the process dies. */
  predicate Crashes(w: World, v: World, k: nat) {
    && k <= |w.buffered|
    && v == w.(log := if w.log.Some? then Some(w.log.value + w.buffered[..k]) else None,
               buffered := [], phase := Stopped)
  }

  function AfterReading(w: World, changes: bool, sessions: seq<DaySession>): World
    requires w.log.Some?
  {
    var dedups := w.dedups || changes;
    if sessions == [] then w.(log := None, buffered := [], phase := Stopped, dedups := dedups)
    else
      w.(log := Some(w.log.value + w.buffered), buffered := [], phase := Saving(sessions, 0, changes), dedups := dedups)
  }

  /**
    Reconciling reads everything the journal holds, under the keep mode the caller gives or else the one
    the journal records; with nothing to save it drops the journal.
   */
  ghost predicate Reads(w: World, v: World, override: Option<bool>, sessions: seq<DaySession>) {
    && !w.phase.Saving? && w.log.Some?
    && var all := w.log.value + w.buffered;
    && AreSessionsOf(all, UsesChanges(all, override), sessions)
    && v == AfterReading(w, UsesChanges(all, override), sessions)
  }

  predicate SavesOne(w: World, v: World) {
    && w.phase.Saving? && w.phase.done < |w.phase.sessions|
    && v == w.(saved := w.saved + [w.phase.sessions[w.phase.done]], phase := w.phase.(done := w.phase.done + 1))
  }

  predicate Unlinks(w: World, v: World) {
    w.phase.Saving? && w.phase.done == |w.phase.sessions| && v == w.(log := None, phase := Stopped)
  }

  ghost predicate Next(w: World, v: World) {
    || (exists r :: Appends(w, v, r))
    || (w.phase.Recording? && w.log.Some? && v == Flushed(w))
    || (exists k: nat :: Crashes(w, v, k))
    || (exists override, sessions :: Reads(w, v, override, sessions))
    || SavesOne(w, v)
    || Unlinks(w, v)
  }

  ghost predicate IsRun(run: seq<World>) {
    run != [] && Starts(run[0]) && forall m :: 0 <= m < |run| - 1 ==> Next(run[m], run[m + 1])
  }

  // ---------- what is never lost ----------

  /** Row `i`'s value can be read off the saved sessions: a saved row holds it until row `i`. */
  ghost predicate IsRepresented(saved: seq<DaySession>, rows: seq<Row>, i: nat) {
    exists k: nat, s :: SpeaksFor(rows, k, i) && s in saved && s.date == rows[k].date && rows[k] in s.rows
  }

  ghost predicate AllRepresented(saved: seq<DaySession>, records: seq<Record>) {
    && (forall i: nat :: i < |RowsOf(records)| ==> IsRepresented(saved, RowsOf(records), i))
    && (forall r :: r in RefusalsOf(records) ==> exists s :: s in saved && s.date == r.date && r in s.refusals)
  }

  /** Every line ever flushed is still in the journal, or what it says is in the saved sessions. */
  ghost predicate IsSafe(w: World) {
    (w.log.Some? && w.flushed <= w.log.value) || AllRepresented(w.saved, w.flushed)
  }

  ghost predicate AreRecorded(sessions: seq<DaySession>, rows: seq<Row>, refusals: seq<Refusal>) {
    forall s :: s in sessions ==> IsRecorded(s, rows, refusals)
  }

  ghost predicate IsRecorded(s: DaySession, rows: seq<Row>, refusals: seq<Refusal>) {
    && (forall r :: r in s.rows ==> r in rows && r.date == s.date)
    && (forall r :: r in s.refusals ==> r in refusals && r.date == s.date)
  }

  /** No row and no refusal is saved that was not recorded, or under another day. */
  ghost predicate IsHonest(w: World) {
    AreRecorded(w.saved, RowsOf(w.appended), RefusalsOf(w.appended))
  }

  ghost predicate Keeps(w: World) {
    && IsSafe(w) && IsHonest(w)
    && (w.log.Some? ==> w.flushed <= w.log.value && w.log.value + w.buffered <= w.appended)
    && (w.phase.Recording? ==> w.log.Some? && w.log.value + w.buffered == w.appended)
    && (!w.phase.Recording? ==> w.buffered == [])
    && (w.phase.Saving? ==> w.log.Some? && IsSaving(w.log.value, w.saved, w.phase))
  }

  ghost predicate IsSaving(records: seq<Record>, saved: seq<DaySession>, phase: Phase)
    requires phase.Saving?
  {
    && AreSessionsOf(records, phase.changes, phase.sessions)
    && phase.done <= |phase.sessions|
    && forall k :: 0 <= k < phase.done ==> phase.sessions[k] in saved
  }

  // ---------- why ----------

  lemma {:induction false} RowsGrow(records: seq<Record>, n: nat)
    requires n <= |records|
    ensures RowsOf(records[..n]) <= RowsOf(records) && RefusalsOf(records[..n]) <= RefusalsOf(records)
  {
    if n < |records| {
      var before := records[..|records| - 1];
      assert before[..n] == records[..n];
      RowsGrow(before, n);
    } else {
      assert records[..n] == records;
    }
  }

  lemma PrefixRows(some: seq<Record>, all: seq<Record>)
    requires some <= all
    ensures RowsOf(some) <= RowsOf(all) && RefusalsOf(some) <= RefusalsOf(all)
    ensures forall r :: r in RowsOf(some) ==> r in RowsOf(all)
    ensures forall r :: r in RefusalsOf(some) ==> r in RefusalsOf(all)
  {
    RowsGrow(all, |some|);
    assert all[..|some|] == some;
    PrefixEntries(RowsOf(some), RowsOf(all));
    PrefixEntries(RefusalsOf(some), RefusalsOf(all));
  }

  lemma PrefixEntries<T>(some: seq<T>, all: seq<T>)
    requires some <= all
    ensures forall x :: x in some ==> x in all
  {
    assert all == some + all[|some|..];
  }

  lemma SpeaksInPrefix(some: seq<Row>, all: seq<Row>, k: nat, i: nat)
    requires some <= all && i < |some| && SpeaksFor(all, k, i)
    ensures SpeaksFor(some, k, i) && some[k] == all[k]
  {
  }

  /** What is represented stays so as more is saved, and for fewer lines. */
  lemma StaysRepresented(saved: seq<DaySession>, more: seq<DaySession>, some: seq<Record>, all: seq<Record>)
    requires AllRepresented(saved, all) && some <= all && forall s :: s in saved ==> s in more
    ensures AllRepresented(more, some)
  {
    PrefixRows(some, all);
    hide RowsOf, RefusalsOf, SpeaksFor;
    forall i: nat | i < |RowsOf(some)|
      ensures IsRepresented(more, RowsOf(some), i)
    {
      assert IsRepresented(saved, RowsOf(all), i);
      var k: nat, s :| SpeaksFor(RowsOf(all), k, i) && s in saved && s.date == RowsOf(all)[k].date
        && RowsOf(all)[k] in s.rows;
      SpeaksInPrefix(RowsOf(some), RowsOf(all), k, i);
    }
  }

  /** Once every session of the journal is saved, all its lines are represented. */
  lemma SavedIsRepresented(records: seq<Record>, changes: bool, sessions: seq<DaySession>, saved: seq<DaySession>)
    requires AreSessionsOf(records, changes, sessions) && forall s :: s in sessions ==> s in saved
    ensures AllRepresented(saved, records)
  {
    var rows, kept, refusals := RowsOf(records), Deduped(RowsOf(records), changes), RefusalsOf(records);
    SplitPlaces(kept, refusals, sessions);
    hide RowsOf, RefusalsOf, IsDaySplit, SpeaksFor;
    forall i: nat | i < |rows|
      ensures IsRepresented(saved, rows, i)
    {
      var k := i;
      SpeaksForItself(rows, i);
      if changes {
        k := KeptRowSpeaks(rows, i);
        SpeaksEarlier(rows, k, i);
        KeptRowIsIn(rows, |rows|, k);
        assert rows[..|rows|] == rows;
      }
      assert rows[k] in kept;
      var s :| s in sessions && s.date == rows[k].date && rows[k] in s.rows;
    }
  }

  lemma SpeaksForItself(rows: seq<Row>, i: nat)
    requires i < |rows|
    ensures SpeaksFor(rows, i, i)
  {
  }

  lemma SpeaksEarlier(rows: seq<Row>, k: nat, i: nat)
    requires SpeaksFor(rows, k, i)
    ensures k <= i < |rows|
  {
  }

  /** Only what was recorded reaches a session. */
  lemma SessionsAreHonest(records: seq<Record>, changes: bool, sessions: seq<DaySession>, appended: seq<Record>)
    requires AreSessionsOf(records, changes, sessions) && records <= appended
    ensures AreRecorded(sessions, RowsOf(appended), RefusalsOf(appended))
  {
    var rows, refusals := RowsOf(records), RefusalsOf(records);
    CompactIsFrom(rows);
    PrefixRows(records, appended);
    SessionsHoldKept(Deduped(rows, changes), refusals, sessions);
    hide RowsOf, RefusalsOf, IsDaySplit, Compact, IsRecorded;
    MoreStillRecorded(sessions, Deduped(rows, changes), refusals, RowsOf(appended), RefusalsOf(appended));
  }

  lemma SessionsHoldKept(rows: seq<Row>, refusals: seq<Refusal>, sessions: seq<DaySession>)
    requires IsDaySplit(rows, refusals, sessions)
    ensures AreRecorded(sessions, rows, refusals)
  {
    SplitPlaces(rows, refusals, sessions);
    hide IsDaySplit;
  }

  lemma MoreStillRecorded(sessions: seq<DaySession>, rows: seq<Row>, refusals: seq<Refusal>,
                          moreRows: seq<Row>, moreRefusals: seq<Refusal>)
    requires AreRecorded(sessions, rows, refusals)
    requires (forall r :: r in rows ==> r in moreRows) && (forall r :: r in refusals ==> r in moreRefusals)
    ensures AreRecorded(sessions, moreRows, moreRefusals)
  {
    forall s | s in sessions
      ensures IsRecorded(s, moreRows, moreRefusals)
    {
      assert IsRecorded(s, rows, refusals);
    }
  }

  lemma StartKeeps(w: World)
    requires Starts(w)
    ensures Keeps(w)
  {
    hide AllRepresented;
  }

  lemma AppendKeeps(w: World, v: World, r: Record)
    requires Keeps(w) && Appends(w, v, r)
    ensures Keeps(v)
  {
    PrefixRows(w.appended, v.appended);
    MoreStillRecorded(w.saved, RowsOf(w.appended), RefusalsOf(w.appended), RowsOf(v.appended), RefusalsOf(v.appended));
    hide AllRepresented, RowsOf, RefusalsOf, AreRecorded;
    assert w.log.value + (w.buffered + [r]) == (w.log.value + w.buffered) + [r];
  }

  lemma FlushKeeps(w: World)
    requires Keeps(w) && w.phase.Recording? && w.log.Some?
    ensures Keeps(Flushed(w))
  {
    hide AllRepresented, RowsOf, RefusalsOf, AreRecorded;
  }

  lemma CrashKeeps(w: World, v: World, k: nat)
    requires Keeps(w) && Crashes(w, v, k)
    ensures Keeps(v)
  {
    hide AllRepresented, RowsOf, RefusalsOf, AreRecorded;
    if w.log.Some? {
      assert w.log.value + w.buffered[..k] <= w.log.value + w.buffered;
    }
  }

  lemma ReadKeeps(w: World, v: World, override: Option<bool>, sessions: seq<DaySession>)
    requires Keeps(w) && Reads(w, v, override, sessions)
    ensures Keeps(v)
  {
    var all := w.log.value + w.buffered;
    hide AreSessionsOf, RowsOf, RefusalsOf, AreRecorded, UsesChanges;
    if sessions == [] {
      SavedIsRepresented(all, UsesChanges(all, override), sessions, w.saved);
      hide AllRepresented;
      StaysRepresented(w.saved, w.saved, w.flushed, all);
    } else {
      hide AllRepresented;
      assert IsSaving(all, w.saved, v.phase);
    }
  }

  lemma SaveKeeps(w: World, v: World)
    requires Keeps(w) && SavesOne(w, v)
    ensures Keeps(v)
  {
    var changes := w.phase.changes;
    LogIsAppended(w);
    SessionsAreHonest(w.log.value, changes, w.phase.sessions, w.appended);
    var s := w.phase.sessions[w.phase.done];
    assert s in w.phase.sessions;
    SavingOneMore(w, v);
    RecordedOneMore(w.saved, w.phase.sessions, s, RowsOf(w.appended), RefusalsOf(w.appended));
    hide AreSessionsOf, RowsOf, RefusalsOf, AllRepresented, IsSaving, AreRecorded, IsSafe;
    SafeByLog(v);
  }

  lemma RecordedOneMore(saved: seq<DaySession>, sessions: seq<DaySession>, s: DaySession,
                        rows: seq<Row>, refusals: seq<Refusal>)
    requires AreRecorded(saved, rows, refusals) && AreRecorded(sessions, rows, refusals) && s in sessions
    ensures AreRecorded(saved + [s], rows, refusals)
  {
    hide IsRecorded;
  }

  lemma SafeByLog(w: World)
    requires w.log.Some? && w.flushed <= w.log.value
    ensures IsSafe(w)
  {
  }

  lemma LogIsAppended(w: World)
    requires Keeps(w) && w.log.Some?
    ensures w.log.value <= w.appended
  {
    hide IsSafe, IsHonest;
  }

  lemma SavingOneMore(w: World, v: World)
    requires w.phase.Saving? && SavesOne(w, v) && w.log.Some? && IsSaving(w.log.value, w.saved, w.phase)
    ensures v.phase.Saving? && IsSaving(w.log.value, v.saved, v.phase)
  {
    hide AreSessionsOf;
  }

  lemma UnlinkKeeps(w: World, v: World)
    requires Keeps(w) && Unlinks(w, v)
    ensures Keeps(v)
  {
    var changes := w.phase.changes;
    hide AreSessionsOf, RowsOf;
    SavedIsRepresented(w.log.value, changes, w.phase.sessions, w.saved);
    hide AllRepresented;
    StaysRepresented(w.saved, w.saved, w.flushed, w.log.value);
  }

  lemma NextKeeps(w: World, v: World)
    requires Keeps(w) && Next(w, v)
    ensures Keeps(v)
  {
    hide Keeps, Reads, Crashes, Appends, SavesOne, Unlinks, Flushed;
    if r :| Appends(w, v, r) {
      AppendKeeps(w, v, r);
    } else if w.phase.Recording? && w.log.Some? && v == Flushed(w) {
      FlushKeeps(w);
    } else if k: nat :| Crashes(w, v, k) {
      CrashKeeps(w, v, k);
    } else if override, sessions :| Reads(w, v, override, sessions) {
      ReadKeeps(w, v, override, sessions);
    } else if SavesOne(w, v) {
      SaveKeeps(w, v);
    } else {
      UnlinkKeeps(w, v);
    }
  }

  /** Whatever is appended, flushed, reconciled, recovered or cut short by a crash, no flushed line is lost. */
  lemma {:induction false} RunIsSafe(run: seq<World>, m: nat)
    requires IsRun(run) && m < |run|
    ensures IsSafe(run[m]) && IsHonest(run[m])
    ensures Keeps(run[m])
  {
    hide Next, IsSafe, IsHonest, Starts;
    if m == 0 {
      StartKeeps(run[0]);
    } else {
      RunIsSafe(run, m - 1);
      NextKeeps(run[m - 1], run[m]);
    }
    KeptIsSafe(run[m]);
  }

  lemma KeptIsSafe(w: World)
    requires Keeps(w)
    ensures IsSafe(w) && IsHonest(w)
  {
  }

  // ---------- the journal object ----------

  lemma ExtendRun(run: seq<World>, v: World)
    requires IsRun(run) && Next(run[|run| - 1], v)
    ensures IsRun(run + [v])
  {
    hide Next, Starts;
    var more := run + [v];
    forall m | 0 <= m < |more| - 1
      ensures Next(more[m], more[m + 1])
    {
      assert m < |run| - 1 ==> Next(run[m], run[m + 1]);
    }
  }

  /** The journal file and the dated files beside it; `run` is every state they went through. */
  class Journal {
    var log: Option<seq<Record>>
    var buffered: seq<Record>
    var saved: seq<DaySession>
    var closed: bool
    ghost var run: seq<World>

    ghost function Now(): World
      requires run != []
      reads this
    {
      run[|run| - 1]
    }

    ghost predicate Valid()
      reads this
    {
      && IsRun(run) && Now().log == log && Now().buffered == buffered && Now().saved == saved
      && Now().phase == if closed then Stopped else Recording
    }

    /** A fresh journal, its session line on disk. */
    constructor Open(meta: Record)
      ensures Valid() && !closed && log == Some([meta]) && buffered == [] && saved == []
    {
      log, buffered, saved, closed := Some([meta]), [], [], false;
      run := [World(Some([meta]), [], [], Recording, [meta], [meta], false)];
    }

    method Append(r: Record)
      requires Valid() && !closed
      modifies this
      ensures Valid() && !closed && buffered == old(buffered) + [r] && log == old(log) && saved == old(saved)
      ensures run == old(run) + [old(Now()).(buffered := old(buffered) + [r], appended := old(Now()).appended + [r])]
    {
      ghost var v := Now().(buffered := buffered + [r], appended := Now().appended + [r]);
      assert Appends(Now(), v, r);
      ExtendRun(run, v);
      buffered := buffered + [r];
      run := run + [v];
    }

    /** Every line appended so far is on disk for good. */
    method Flush()
      requires Valid()
      modifies this
      ensures Valid() && closed == old(closed) && saved == old(saved) && old(run) <= run
      ensures !closed ==> buffered == [] && log.Some? && log.value == Now().flushed == Now().appended
    {
      if !closed {
        StillOpen(run);
        ExtendRun(run, Flushed(Now()));
        run := run + [Flushed(Now())];
        log, buffered := Some(log.value + buffered), [];
      }
    }

    /** The process dies: of the lines not flushed, the first `k` had reached the disk. */
    method Crash(k: nat)
      requires Valid() && k <= |buffered|
      modifies this
      ensures Valid() && closed && saved == old(saved) && buffered == [] && old(run) <= run
      ensures log == if old(log).Some? then Some(old(log).value + old(buffered)[..k]) else None
    {
      ghost var after := if log.Some? then Some(log.value + buffered[..k]) else None;
      ghost var v := Now().(log := after, buffered := [], phase := Stopped);
      assert Crashes(Now(), v, k);
      ExtendRun(run, v);
      if log.Some? {
        log := Some(log.value + buffered[..k]);
      }
      buffered, closed := [], true;
      run := run + [v];
    }

    ghost predicate InStep()
      reads this
    {
      run != [] && IsRun(run) && Now().log == log && Now().buffered == buffered && Now().saved == saved
    }

    /** Saves one session after another, then unlinks. */
    method SaveAll(sessions: seq<DaySession>, ghost changes: bool)
      requires InStep() && closed && buffered == [] && Now().phase == Saving(sessions, 0, changes)
      modifies this
      ensures Valid() && closed && log.None? && buffered == [] && old(run) <= run && old(saved) <= saved
      ensures Now().dedups == old(Now()).dedups
      ensures forall s :: s in sessions ==> s in saved
    {
      hide Next, IsRun;
      for k := 0 to |sessions|
        invariant InStep() && closed && buffered == [] && old(run) <= run && old(saved) <= saved
        invariant Now().phase == Saving(sessions, k, changes) && Now().dedups == old(Now()).dedups
        invariant forall i :: 0 <= i < k ==> sessions[i] in saved
      {
        ghost var v := Now().(saved := saved + [sessions[k]], phase := Saving(sessions, k + 1, changes));
        SaveStepIs(Now(), v);
        ExtendRun(run, v);
        saved := saved + [sessions[k]];
        run := run + [v];
      }
      ghost var v := Now().(log := None, phase := Stopped);
      SaveStepIs(Now(), v);
      ExtendRun(run, v);
      log := None;
      run := run + [v];
      RunStarts(run);
    }

    /** Saves what the journal holds, a session a day, and only then unlinks it; the same call recovers an orphan. */
    method Reconcile(override: Option<bool>)
      requires Valid()
      modifies this
      ensures Valid() && closed && log.None? && buffered == [] && old(run) <= run && old(saved) <= saved
      ensures old(log).Some? ==> AllRepresented(saved, old(log).value + old(buffered))
      ensures Now().dedups <==>
        old(Now()).dedups || (old(log).Some? && UsesChanges(old(log).value + old(buffered), override))
    {
      hide AllRepresented, AreSessionsOf, Next, IsRun, UsesChanges;
      RunStarts(run);
      NothingBuffered(run);
      StillOpen(run);
      if log.None? {
        return;
      }
      var all := log.value + buffered;
      var sessions, changes := BuildSessions(all, override);
      ghost var v := AfterReading(Now(), changes, sessions);
      StepIs(Now(), v, override, sessions);
      ExtendRun(run, v);
      closed, buffered, run := true, [], run + [v];
      if sessions == [] {
        log := None;
      } else {
        log := Some(all);
        SaveAll(sessions, changes);
      }
      SavedIsRepresented(all, changes, sessions, saved);
    }
  }

  lemma RunStarts(run: seq<World>)
    requires IsRun(run)
    ensures run != []
  {
  }

  lemma StillOpen(run: seq<World>)
    requires IsRun(run)
    ensures var w := run[|run| - 1]; w.phase.Recording? ==> w.log.Some? && w.log.value + w.buffered == w.appended
  {
    RunIsSafe(run, |run| - 1);
    hide IsRun, IsSafe, IsHonest, IsSaving;
  }

  lemma NothingBuffered(run: seq<World>)
    requires IsRun(run)
    ensures var w := run[|run| - 1]; !w.phase.Recording? ==> w.buffered == []
  {
    RunIsSafe(run, |run| - 1);
    hide IsRun, IsSafe, IsHonest, IsSaving;
  }

  lemma StepIs(w: World, v: World, override: Option<bool>, sessions: seq<DaySession>)
    requires !w.phase.Saving? && w.log.Some?
    requires var all := w.log.value + w.buffered;
      AreSessionsOf(all, UsesChanges(all, override), sessions)
        && v == AfterReading(w, UsesChanges(all, override), sessions)
    ensures Next(w, v)
  {
    assert Reads(w, v, override, sessions);
    hide Reads;
  }

  lemma SaveStepIs(w: World, v: World)
    requires SavesOne(w, v) || Unlinks(w, v)
    ensures Next(w, v)
  {
  }

  // ---------- what is saved twice ----------

  predicate DistinctDates(sessions: seq<DaySession>) {
    forall i, k :: 0 <= i < k < |sessions| ==> sessions[i].date != sessions[k].date
  }

  /** The process dies between the first save and the unlink. */
  ghost predicate Interrupts(w: World, v: World) {
    w.phase.Saving? && w.phase.done > 0 && exists k: nat :: Crashes(w, v, k)
  }

  ghost predicate InterruptsAt(run: seq<World>, i: nat) {
    i + 1 < |run| && Interrupts(run[i], run[i + 1])
  }

  ghost predicate SavesAt(run: seq<World>, i: nat) {
    i + 1 < |run| && SavesOne(run[i], run[i + 1])
  }

  /** Some step of the first `m` interrupts the saving. */
  ghost predicate IsInterrupted(run: seq<World>, m: nat) {
    exists i: nat :: i < m && InterruptsAt(run, i)
  }

  /** Among the first `m` steps, one saves after another interrupted the saving. */
  ghost predicate SavesAfterwards(run: seq<World>, m: nat) {
    exists k: nat :: k < m && IsInterrupted(run, k) && SavesAt(run, k)
  }

  /** The date of the first row, or without rows of the first refusal. */
  function FirstDay(records: seq<Record>): string {
    if RowsOf(records) != [] then RowsOf(records)[0].date
    else if RefusalsOf(records) != [] then RefusalsOf(records)[0].date
    else ""
  }

  lemma {:induction false} FirstDateFirst(dates: seq<string>)
    requires dates != []
    ensures FirstDates(dates) != [] && FirstDates(dates)[0] == dates[0]
  {
    if |dates| == 1 {
      assert dates[..0] == [];
    } else {
      FirstDateFirst(dates[..|dates| - 1]);
    }
  }

  lemma {:induction false} FirstRowIsKept(rows: seq<Row>)
    requires rows != []
    ensures Compact(rows) != [] && Compact(rows)[0] == rows[0]
  {
    if |rows| == 1 {
      assert rows[..0] == [];
    } else {
      FirstRowIsKept(rows[..|rows| - 1]);
    }
  }

  /** Whatever the keep mode, the first session is that of the first day. */
  lemma FirstSessionIsFirstDay(records: seq<Record>, changes: bool, sessions: seq<DaySession>)
    requires AreSessionsOf(records, changes, sessions) && sessions != []
    ensures sessions[0].date == FirstDay(records)
  {
    var rows, refusals := RowsOf(records), RefusalsOf(records);
    var dates := DatesOf(Deduped(rows, changes), refusals);
    if rows != [] {
      FirstRowIsKept(rows);
    }
    hide RowsOf, RefusalsOf, Compact;
    assert dates != [];
    FirstDateFirst(dates);
  }

  /** What the saved dates say of the steps so far: `cut`, saving was interrupted; `again`, and then resumed. */
  ghost predicate SavedSoFar(w: World, cut: bool, again: bool) {
    && (DistinctDates(w.saved) <==> !again)
    && (again ==> cut)
    && (cut ==> !w.phase.Recording? && w.saved != [])
    && (cut && w.log.Some? ==> w.saved[0].date == FirstDay(w.log.value))
    && (cut && w.phase.Saving? && w.phase.done > 0 ==> again)
    && (!cut && w.phase.Saving? ==> w.phase.done <= |w.phase.sessions| && w.saved == w.phase.sessions[..w.phase.done])
    && (!cut && !w.phase.Saving? && w.log.Some? ==> w.saved == [])
  }

  lemma SaveCounts(w: World, v: World, cut: bool, again: bool)
    requires Keeps(w) && SavesOne(w, v) && SavedSoFar(w, cut, again)
    ensures SavedSoFar(v, cut, again || cut)
  {
    var changes := w.phase.changes;
    var sessions, done := w.phase.sessions, w.phase.done;
    FirstSessionIsFirstDay(w.log.value, changes, sessions);
    SessionsHaveOwnDates(w.log.value, changes, sessions);
    hide AreSessionsOf, Keeps, FirstDay, DistinctDates;
    if cut {
      StillRepeated(w.saved, sessions[done], again);
    } else {
      assert v.saved == sessions[..done + 1];
      FewerDates(sessions, done + 1);
    }
  }

  lemma SessionsHaveOwnDates(records: seq<Record>, changes: bool, sessions: seq<DaySession>)
    requires AreSessionsOf(records, changes, sessions)
    ensures DistinctDates(sessions)
  {
    SplitPlaces(Deduped(RowsOf(records), changes), RefusalsOf(records), sessions);
    hide IsDaySplit, RowsOf, RefusalsOf;
  }

  lemma FewerDates(sessions: seq<DaySession>, n: nat)
    requires DistinctDates(sessions) && n <= |sessions|
    ensures DistinctDates(sessions[..n])
  {
  }

  lemma StillRepeated(saved: seq<DaySession>, s: DaySession, again: bool)
    requires saved != [] && (again || s.date == saved[0].date) && (again ==> !DistinctDates(saved))
    ensures !DistinctDates(saved + [s]) && (saved + [s])[0] == saved[0]
  {
    var more := saved + [s];
    if again {
      var i, k :| 0 <= i < k < |saved| && saved[i].date == saved[k].date;
      assert more[i].date == more[k].date;
    } else {
      assert more[0].date == more[|saved|].date;
    }
  }

  lemma CrashCounts(w: World, v: World, k: nat, cut: bool, again: bool)
    requires Keeps(w) && Crashes(w, v, k) && SavedSoFar(w, cut, again)
    ensures SavedSoFar(v, cut || (w.phase.Saving? && w.phase.done > 0), again)
  {
    if w.phase.Saving? {
      assert w.buffered[..k] == [] && w.log.value + [] == w.log.value;
      if w.phase.done > 0 {
        var changes := w.phase.changes;
        FirstSessionIsFirstDay(w.log.value, changes, w.phase.sessions);
      }
    } else if !w.phase.Recording? && w.log.Some? {
      assert w.log.value + w.buffered[..k] == w.log.value;
    }
  }

  lemma OtherStepCounts(w: World, v: World, cut: bool, again: bool)
    requires Keeps(w) && Next(w, v) && !SavesOne(w, v) && SavedSoFar(w, cut, again)
    requires forall k: nat :: !Crashes(w, v, k)
    ensures SavedSoFar(v, cut, again)
  {
    hide IsSafe, IsHonest, FirstDay, IsSaving, DistinctDates;
    if override, sessions :| Reads(w, v, override, sessions) {
      hide AreSessionsOf;
      if !w.phase.Recording? {
        assert w.log.value + w.buffered == w.log.value;
      }
    }
  }

  lemma OneMoreStep(run: seq<World>, m: nat)
    requires m + 1 < |run|
    ensures IsInterrupted(run, m + 1) <==> IsInterrupted(run, m) || Interrupts(run[m], run[m + 1])
    ensures SavesAfterwards(run, m + 1) <==>
      SavesAfterwards(run, m) || (IsInterrupted(run, m) && SavesOne(run[m], run[m + 1]))
  {
    hide Interrupts, SavesOne;
    assert InterruptsAt(run, m) <==> Interrupts(run[m], run[m + 1]);
    assert SavesAt(run, m) <==> SavesOne(run[m], run[m + 1]);
    hide InterruptsAt, SavesAt;
  }

  lemma {:induction false} SavedSoFarHolds(run: seq<World>, m: nat)
    requires IsRun(run) && m < |run|
    ensures SavedSoFar(run[m], IsInterrupted(run, m), SavesAfterwards(run, m))
  {
    hide Next, Keeps, Interrupts, SavesOne, InterruptsAt, SavesAt;
    if m > 0 {
      SavedSoFarHolds(run, m - 1);
      RunIsSafe(run, m - 1);
      OneMoreStep(run, m - 1);
      hide IsInterrupted, SavesAfterwards, SavedSoFar, Starts, IsSafe, IsHonest;
      StepCounts(run[m - 1], run[m], IsInterrupted(run, m - 1), SavesAfterwards(run, m - 1));
    } else {
      assert !IsInterrupted(run, 0) && !SavesAfterwards(run, 0);
    }
  }

  lemma StepCounts(w: World, v: World, cut: bool, again: bool)
    requires Keeps(w) && Next(w, v) && SavedSoFar(w, cut, again)
    ensures SavedSoFar(v, cut || Interrupts(w, v), again || (cut && SavesOne(w, v)))
  {
    hide Next, Keeps, SavedSoFar;
    if SavesOne(w, v) {
      SaveCounts(w, v, cut, again);
    } else if k: nat :| Crashes(w, v, k) {
      CrashCounts(w, v, k, cut, again);
    } else {
      OtherStepCounts(w, v, cut, again);
    }
  }

  /**
    No date is saved twice exactly when nothing is saved after the process died between the first
    save and the unlink.
   */
  lemma SavedOnceIff(run: seq<World>)
    requires IsRun(run)
    ensures DistinctDates(run[|run| - 1].saved) <==> !SavesAfterwards(run, |run| - 1)
  {
    SavedSoFarHolds(run, |run| - 1);
  }

  // ---------- where a promise fails ----------

  /** Dying after the last save and before the unlink, and recovering, saves the sessions twice. */
  lemma RecoveryCanSaveTwice()
    ensures exists run: seq<World>, s :: IsRun(run) && run[|run| - 1].log.None? && run[|run| - 1].saved == [s, s]
  {
    var line := Capture("0x7EC", "2101", "61", "12:00:00", "2026-01-01", None);
    var row := Row("0x7EC", "2101", "61", "12:00:00", "2026-01-01", None);
    var session := DaySession("2026-01-01", [row], []);
    OneLine(line, row, session);
    SavedTwice(line, session);
  }

  lemma SavedTwice(line: Record, session: DaySession)
    requires !line.Meta? && AreSessionsOf([line], false, [session])
    ensures exists run: seq<World>, s :: IsRun(run) && run[|run| - 1].log.None? && run[|run| - 1].saved == [s, s]
  {
    hide AreSessionsOf;
    var log, twice := Some([line]), [session, session];
    var w0 := World(log, [], [], Recording, [line], [line], false);
    assert [line] + [] == [line] && [session] + [session] == twice;
    var w1, w2 := ReadAndSave(w0, session);
    var w3 := w2.(phase := Stopped);
    assert Crashes(w2, w3, 0);
    var w4, w5 := ReadAndSave(w3, session);
    var w6 := w5.(log := None, phase := Stopped);
    SaveStepIs(w5, w6);
    var run := [w0, w1, w2, w3, w4, w5, w6];
    assert Next(w2, w3);
    assert Starts(w0);
    hide Next, Starts;
    assert IsRun(run);
    assert run[|run| - 1].log.None? && run[|run| - 1].saved == twice;
  }

  lemma ReadAndSave(w: World, session: DaySession) returns (v: World, u: World)
    requires !w.phase.Saving? && w.log.Some? && w.buffered == [] && !UsesChanges(w.log.value, None)
    requires AreSessionsOf(w.log.value, false, [session])
    ensures Next(w, v) && Next(v, u)
    ensures u == w.(saved := w.saved + [session], phase := Saving([session], 1, false))
  {
    hide AreSessionsOf, UsesChanges;
    assert w.log.value + w.buffered == w.log.value;
    v := AfterReading(w, false, [session]);
    StepIs(w, v, None, [session]);
    u := w.(saved := w.saved + [session], phase := Saving([session], 1, false));
    SaveStepIs(v, u);
    hide Next;
  }

  lemma OneLineSays(line: Record, row: Row)
    requires line.Capture? && line.date != ""
    requires row == Row(line.rx, line.pid, line.payload, line.time, line.date, line.elapsed)
    ensures RowsOf([line]) == [row] && RefusalsOf([line]) == []
  {
    assert RowsOf([]) == [] && RefusalsOf([]) == [];
    hide RowsOf, RefusalsOf;
    OneMoreLine([], line);
    assert [] + [line] == [line];
  }

  lemma OneLine(line: Record, row: Row, session: DaySession)
    requires line.Capture? && line.date != ""
    requires row == Row(line.rx, line.pid, line.payload, line.time, line.date, line.elapsed)
    requires session == DaySession(row.date, [row], [])
    ensures AreSessionsOf([line], false, [session])
  {
    OneLineSays(line, row);
    OneDay(row);
    hide RowsOf, RefusalsOf, RowsOn, RefusalsOn, FirstDates, DatesOf;
  }

  /**
    A run of repeats may cross midnight: then the second day has no row of that PID, and with nothing
    else on it no session at all.
   */
  lemma MidnightCanLeaveADayOut(sessions: seq<DaySession>)
    ensures var late := Capture("0x7EC", "2101", "61", "23:59:59", "2026-01-01", None);
      var early := Capture("0x7EC", "2101", "61", "00:00:01", "2026-01-02", None);
      var records := [Meta("2026-01-01", true, "changes"), late, early];
      && UsesChanges(records, None)
      && (AreSessionsOf(records, true, sessions) <==>
          sessions == [DaySession("2026-01-01", [Row("0x7EC", "2101", "61", "23:59:59", "2026-01-01", None)], [])])
  {
    var late := Capture("0x7EC", "2101", "61", "23:59:59", "2026-01-01", None);
    var early := Capture("0x7EC", "2101", "61", "00:00:01", "2026-01-02", None);
    var meta := Meta("2026-01-01", true, "changes");
    var a := Row("0x7EC", "2101", "61", "23:59:59", "2026-01-01", None);
    var b := Row("0x7EC", "2101", "61", "00:00:01", "2026-01-02", None);
    ThreeLines(meta, late, early, a, b);
    OnlyFirstIsKept(a, b);
    OneDay(a);
    hide UsesChanges, RowsOf, RefusalsOf, RowsOn, RefusalsOn, FirstDates, DatesOf, Compact;
  }

  lemma ThreeLines(meta: Record, late: Record, early: Record, a: Row, b: Row)
    requires meta.Meta? && meta.hasKeep && meta.keep == "changes"
    requires late.Capture? && late.date != "" && early.Capture? && early.date != ""
    requires a == Row(late.rx, late.pid, late.payload, late.time, late.date, late.elapsed)
    requires b == Row(early.rx, early.pid, early.payload, early.time, early.date, early.elapsed)
    ensures var records := [meta, late, early];
      UsesChanges(records, None) && RowsOf(records) == [a, b] && RefusalsOf(records) == []
  {
    assert GivesMode([meta, late, early], 0);
    assert RowsOf([]) == [] && RefusalsOf([]) == [];
    hide RowsOf, RefusalsOf;
    assert [] + [meta] == [meta] && [meta] + [late] == [meta, late] && [meta, late] + [early] == [meta, late, early];
    OneMoreLine([], meta);
    OneMoreLine([meta], late);
    OneMoreLine([meta, late], early);
  }

  lemma OnlyFirstIsKept(a: Row, b: Row)
    requires KeyOf(a) == KeyOf(b) && a.payload == b.payload
    ensures Compact([a, b]) == [a]
  {
    assert [a, b][..1] == [a] && [a][..0] == [];
    assert Compact([a]) == [a];
  }

  lemma OneDay(row: Row)
    ensures FirstDates(DatesOf([row], [])) == [row.date]
    ensures RowsOn([row], row.date) == [row] && RefusalsOn([], row.date) == []
  {
    assert RowsOn([], row.date) == [];
    assert [row][..0] == [];
    var dates := DatesOf([row], []);
    assert dates == [row.date] && dates[..0] == [];
  }
}
