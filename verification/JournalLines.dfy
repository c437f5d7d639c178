/**
  What the lines of a journal say: payload rows, refusals, the session date, the keep mode, and the
  per-day sessions they make.
 */
module JournalLines {
  import opened Wrappers
  import opened Lists
  import opened CaptureLog

  /** A journal line; an empty date is one the line does not carry. */
  datatype Record =
    | Meta(date: string, hasKeep: bool, keep: string)
    | Capture(rx: string, pid: string, payload: string, time: string, date: string, elapsed: Option<int>)
    | Response(rx: string, pid: string, response: string, date: string)
    | Event

  // ---------- reading a journal ----------

  /** The session's date as of the last line that gives one. */
  function MetaDate(records: seq<Record>): string {
    if records == [] then ""
    else
      var r := records[|records| - 1];
      if r.Meta? && r.date != "" then r.date else MetaDate(records[..|records| - 1])
  }

  function DateOr(date: string, fallback: string): string {
    if date != "" then date else fallback
  }

  /** The payload rows, each under its own date or the session's so far. */
  function RowsOf(records: seq<Record>): seq<Row> {
    if records == [] then []
    else
      var before, r := records[..|records| - 1], records[|records| - 1];
      RowsOf(before)
      + if r.Capture? then [Row(r.rx, r.pid, r.payload, r.time, DateOr(r.date, MetaDate(before)), r.elapsed)] else []
  }

  function RefusalsOf(records: seq<Record>): seq<Refusal> {
    if records == [] then []
    else
      var before, r := records[..|records| - 1], records[|records| - 1];
      RefusalsOf(before)
      + if r.Response? then [Refusal(r.rx, r.pid, r.response, DateOr(r.date, MetaDate(before)))] else []
  }

  lemma OneMoreLine(records: seq<Record>, r: Record)
    ensures RowsOf(records + [r]) == RowsOf(records)
      + if r.Capture? then [Row(r.rx, r.pid, r.payload, r.time, DateOr(r.date, MetaDate(records)), r.elapsed)] else []
    ensures RefusalsOf(records + [r]) == RefusalsOf(records)
      + if r.Response? then [Refusal(r.rx, r.pid, r.response, DateOr(r.date, MetaDate(records)))] else []
  {
    assert (records + [r])[..|records|] == records;
  }

  /** Line `i` gives a keep mode, and no later line does. */
  ghost predicate GivesMode(records: seq<Record>, i: nat) {
    && i < |records| && records[i].Meta? && records[i].hasKeep
    && forall j :: i < j < |records| && records[j].Meta? ==> !records[j].hasKeep
  }

  /** The last keep mode a line gives is `mode`. */
  ghost predicate RecordsMode(records: seq<Record>, mode: string) {
    exists i: nat :: GivesMode(records, i) && records[i].keep == mode
  }

  /** The rows are deduplicated when the caller says so, or says nothing and the journal records run-length. */
  ghost predicate UsesChanges(records: seq<Record>, override: Option<bool>) {
    if override.Some? then override.value else RecordsMode(records, "changes")
  }

  lemma ModeSoFar(records: seq<Record>, m: nat)
    requires m < |records|
    ensures var r := records[m];
      RecordsMode(records[..m + 1], "changes") <==>
        if r.Meta? && r.hasKeep then r.keep == "changes" else RecordsMode(records[..m], "changes")
  {
    var before, after := records[..m], records[..m + 1];
    if records[m].Meta? && records[m].hasKeep {
      assert GivesMode(after, m);
    } else {
      forall i: nat
        ensures GivesMode(after, i) <==> GivesMode(before, i)
      {
        assert i < m ==> after[i] == before[i];
        if GivesMode(before, i) {
          forall j | i < j < |after| && after[j].Meta?
            ensures !after[j].hasKeep
          {
            assert j < m ==> after[j] == before[j];
          }
        }
        if GivesMode(after, i) {
          forall j | i < j < |before| && before[j].Meta?
            ensures !before[j].hasKeep
          {
            assert after[j] == before[j];
          }
        }
      }
    }
  }

  ghost predicate AreSessionsOf(records: seq<Record>, changes: bool, sessions: seq<DaySession>) {
    IsDaySplit(Deduped(RowsOf(records), changes), RefusalsOf(records), sessions)
  }

  method BuildSessions(records: seq<Record>, override: Option<bool>) returns (sessions: seq<DaySession>, changes: bool)
    ensures changes <==> UsesChanges(records, override)
    ensures AreSessionsOf(records, changes, sessions)
    ensures sessions == [] <==> RowsOf(records) == [] && RefusalsOf(records) == []
  {
    var metaDate, keep := "", false;
    var rows: seq<Row>, nonAnswers: seq<Refusal> := [], [];
    for m := 0 to |records|
      invariant metaDate == MetaDate(records[..m]) && (keep <==> RecordsMode(records[..m], "changes"))
      invariant rows == RowsOf(records[..m]) && nonAnswers == RefusalsOf(records[..m])
    {
      assert records[..m + 1][..m] == records[..m];
      ModeSoFar(records, m);
      match records[m]
      case Meta(date, hasKeep, k) =>
        if hasKeep {
          keep := k == "changes";
        }
        if date != "" {
          metaDate := date;
        }
      case Capture(rx, pid, payload, time, date, elapsed) =>
        rows := rows + [Row(rx, pid, payload, time, DateOr(date, metaDate), elapsed)];
      case Response(rx, pid, response, date) =>
        nonAnswers := nonAnswers + [Refusal(rx, pid, response, DateOr(date, metaDate))];
      case Event =>
    }
    assert records[..|records|] == records;
    changes := if override.Some? then override.value else keep;
    rows := Dedup(rows, changes);
    sessions := SplitByDay(rows, nonAnswers);
    SessionsIffContent(records, changes, sessions);
  }

  lemma SessionsIffContent(records: seq<Record>, changes: bool, sessions: seq<DaySession>)
    requires AreSessionsOf(records, changes, sessions)
    ensures sessions == [] <==> RowsOf(records) == [] && RefusalsOf(records) == []
  {
    var rows, kept, refusals := RowsOf(records), Deduped(RowsOf(records), changes), RefusalsOf(records);
    SplitPlaces(kept, refusals, sessions);
    CompactStarts(rows);
    hide RowsOf, RefusalsOf, Compact, IsDaySplit;
    HeadIsIn(kept);
    HeadIsIn(refusals);
    if sessions != [] {
      assert sessions[0] in sessions;
    }
  }

  lemma {:induction false} CompactStarts(rows: seq<Row>)
    ensures Compact(rows) == [] <==> rows == []
  {
    if |rows| == 1 {
      assert rows[..0] == [];
    } else if rows != [] {
      CompactStarts(rows[..|rows| - 1]);
    }
  }

  /** A kept row or a refusal falls on date `d`. */
  ghost predicate HasContentOn(records: seq<Record>, changes: bool, d: string) {
    var rows, refusals := RowsOf(records), RefusalsOf(records);
    || (exists k: nat :: k < |rows| && rows[k].date == d && IsKept(rows, changes, k))
    || (exists r :: r in refusals && r.date == d)
  }

  /** A date has a session exactly when one of its rows says something new, or a refusal falls on it. */
  lemma DayHasSessionIff(records: seq<Record>, changes: bool, sessions: seq<DaySession>, d: string)
    requires AreSessionsOf(records, changes, sessions)
    ensures (exists s :: s in sessions && s.date == d) <==> HasContentOn(records, changes, d)
  {
    var rows, refusals := RowsOf(records), RefusalsOf(records);
    DayHasSession(Deduped(rows, changes), refusals, sessions, d);
    KeptDates(rows, changes, d);
    hide RowsOf, RefusalsOf, IsDaySplit, Deduped, IsKept;
  }

  // ---------- what the rows are ----------

  predicate DatesSession(r: Record) {
    r.Meta? && r.date != ""
  }

  /** The last line before line `i` to date the session, or none. */
  ghost predicate DatedBy(records: seq<Record>, i: nat, date: string) {
    if date == "" then forall j :: 0 <= j < i <= |records| ==> !DatesSession(records[j])
    else
      exists j :: 0 <= j < i <= |records| && DatesSession(records[j]) && records[j].date == date
        && forall k :: j < k < i ==> !DatesSession(records[k])
  }

  lemma {:induction false} MetaDateIs(records: seq<Record>, i: nat)
    requires i <= |records|
    ensures DatedBy(records, i, MetaDate(records[..i]))
  {
    if i > 0 {
      assert records[..i][..i - 1] == records[..i - 1];
      MetaDateIs(records, i - 1);
      if DatesSession(records[i - 1]) {
        assert records[i - 1].date == MetaDate(records[..i]);
      } else {
        hide DatesSession;
      }
    }
  }

  predicate IsCapture(r: Record) {
    r.Capture?
  }

  predicate IsResponse(r: Record) {
    r.Response?
  }

  /** The date a line's row falls on: its own, or without one the session's so far. */
  ghost predicate FallsOn(records: seq<Record>, i: nat, own: string, date: string) {
    if own != "" then date == own else DatedBy(records, i, date)
  }

  /** Row `k` is what capture line `i` says. */
  ghost predicate IsRowOf(records: seq<Record>, i: nat, r: Row) {
    && i < |records| && records[i].Capture?
    && r.rx == records[i].rx && r.pid == records[i].pid && r.payload == records[i].payload
    && r.time == records[i].time && r.elapsed == records[i].elapsed
    && FallsOn(records, i, records[i].date, r.date)
  }

  ghost predicate IsRefusalOf(records: seq<Record>, i: nat, r: Refusal) {
    && i < |records| && records[i].Response?
    && r.rx == records[i].rx && r.pid == records[i].pid && r.response == records[i].response
    && FallsOn(records, i, records[i].date, r.date)
  }

  /** How many of the first `n` lines are of a kind. */
  function CountOf(records: seq<Record>, kind: Record -> bool, n: nat): nat
    requires n <= |records|
  {
    if n == 0 then 0 else CountOf(records, kind, n - 1) + if kind(records[n - 1]) then 1 else 0
  }

  /** Each capture line is one row and each response line one refusal, in the journal's order. */
  lemma {:induction false} LinesAreRows(records: seq<Record>, n: nat)
    requires n <= |records|
    ensures |RowsOf(records[..n])| == CountOf(records, IsCapture, n)
    ensures |RefusalsOf(records[..n])| == CountOf(records, IsResponse, n)
    ensures forall i: nat :: i < n && IsCapture(records[i]) ==>
      var k := CountOf(records, IsCapture, i);
      k < |RowsOf(records[..n])| && IsRowOf(records, i, RowsOf(records[..n])[k])
    ensures forall i: nat :: i < n && IsResponse(records[i]) ==>
      var k := CountOf(records, IsResponse, i);
      k < |RefusalsOf(records[..n])| && IsRefusalOf(records, i, RefusalsOf(records[..n])[k])
  {
    if n > 0 {
      assert records[..n][..n - 1] == records[..n - 1];
      LinesAreRows(records, n - 1);
      MetaDateIs(records, n - 1);
      hide MetaDate, DatedBy;
    }
  }

  // ---------- what the keep mode makes of the rows ----------

  /** Unless rows are deduplicated, the sessions hold every row as often as the journal does. */
  lemma KeepAllKeepsAll(records: seq<Record>, sessions: seq<DaySession>)
    requires AreSessionsOf(records, false, sessions)
    ensures multiset(Flat(RowGroups(sessions))) == multiset(RowsOf(records))
    ensures multiset(Flat(RefusalGroups(sessions))) == multiset(RefusalsOf(records))
  {
    SplitConserves(RowsOf(records), RefusalsOf(records), sessions);
  }

  /** Under run-length, they hold the rows that change what their PID holds, which repeat nothing. */
  lemma ChangesKeepsChanges(records: seq<Record>, sessions: seq<DaySession>) returns (kept: seq<Row>)
    requires AreSessionsOf(records, true, sessions)
    ensures multiset(Flat(RowGroups(sessions))) == multiset(kept)
    ensures multiset(Flat(RefusalGroups(sessions))) == multiset(RefusalsOf(records))
    ensures forall m :: 0 <= m < |kept| ==> !Repeats(kept, m)
    ensures forall key :: Holding(kept, key) == Holding(RowsOf(records), key)
    ensures forall s :: s in sessions ==> PicksDate(kept, RowDate, s.date, s.rows)
  {
    var rows := RowsOf(records);
    kept := Compact(rows);
    SplitConserves(kept, RefusalsOf(records), sessions);
    hide RowsOf, RefusalsOf, IsDaySplit, Compact, PicksDate, Flat;
    forall m | 0 <= m < |kept|
      ensures !Repeats(kept, m)
    {
      NoRepeatIsKept(rows, m);
    }
    forall key
      ensures Holding(kept, key) == Holding(rows, key)
    {
      CompactHolds(rows, key);
    }
  }
}
