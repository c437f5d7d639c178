/**
  From journal records to per-day sessions: run-length dedup, then one session a day.

  `Holding` reads the value a PID holds off a list of rows; dedup is judged by it.
 */
module CaptureLog {
  import opened Wrappers
  import opened Lists

  datatype Row = Row(rx: string, pid: string, payload: string, time: string, date: string, elapsed: Option<int>)
  datatype Refusal = Refusal(rx: string, pid: string, response: string, date: string)

  type Key = (string, string)

  function KeyOf(r: Row): Key {
    (r.rx, r.pid)
  }

  // ---------- run-length dedup ----------

  /** The payload of the last row of a key. */
  function Holding(rows: seq<Row>, key: Key): Option<string> {
    if rows == [] then None
    else if KeyOf(rows[|rows| - 1]) == key then Some(rows[|rows| - 1].payload)
    else Holding(rows[..|rows| - 1], key)
  }

  /** Row `i` says again what the row before it of its key said. */
  predicate Repeats(rows: seq<Row>, i: nat)
    requires i < |rows|
  {
    Holding(rows[..i], KeyOf(rows[i])) == Some(rows[i].payload)
  }

  /** The rows that say something new, in order. */
  function Compact(rows: seq<Row>): seq<Row> {
    if rows == [] then []
    else
      var n := |rows| - 1;
      if Repeats(rows, n) then Compact(rows[..n]) else Compact(rows[..n]) + [rows[n]]
  }

  /** After every row, the compacted list has each key hold what the whole list has it hold. */
  lemma {:induction false} CompactHolds(rows: seq<Row>, key: Key)
    ensures Holding(Compact(rows), key) == Holding(rows, key)
  {
    if rows != [] {
      var n := |rows| - 1;
      CompactHolds(rows[..n], key);
      HoldingAppend(Compact(rows[..n]), rows[n], key);
    }
  }

  lemma HoldingAppend(rows: seq<Row>, r: Row, key: Key)
    ensures Holding(rows + [r], key) == if KeyOf(r) == key then Some(r.payload) else Holding(rows, key)
  {
    assert (rows + [r])[..|rows|] == rows;
  }

  /** Compacting again changes nothing. */
  lemma {:induction false} CompactTwice(rows: seq<Row>)
    ensures Compact(Compact(rows)) == Compact(rows)
  {
    if rows != [] {
      var n := |rows| - 1;
      var before := Compact(rows[..n]);
      CompactTwice(rows[..n]);
      if !Repeats(rows, n) {
        var after := before + [rows[n]];
        assert after[..|before|] == before;
        CompactHolds(rows[..n], KeyOf(rows[n]));
      }
    }
  }

  /** A kept row differs from the kept row of its key before it. */
  lemma {:induction false} NoRepeatIsKept(rows: seq<Row>, m: nat)
    requires m < |Compact(rows)|
    ensures !Repeats(Compact(rows), m)
  {
    var n := |rows| - 1;
    var before := Compact(rows[..n]);
    if m < |before| {
      NoRepeatIsKept(rows[..n], m);
      assert Compact(rows)[..m] == before[..m];
    } else {
      assert Compact(rows)[..m] == before;
      CompactHolds(rows[..n], KeyOf(rows[n]));
    }
  }

  /** Row `k` gives the value row `i` has: same key, same payload, and no other value between. */
  ghost predicate SpeaksFor(rows: seq<Row>, k: nat, i: nat) {
    && k <= i < |rows| && KeyOf(rows[k]) == KeyOf(rows[i])
    && forall j :: k <= j <= i && KeyOf(rows[j]) == KeyOf(rows[i]) ==> rows[j].payload == rows[i].payload
  }

  /** Every row's value is in a kept row that holds until it. */
  lemma {:induction false} KeptRowSpeaks(rows: seq<Row>, i: nat) returns (k: nat)
    requires i < |rows|
    ensures SpeaksFor(rows, k, i) && !Repeats(rows, k)
    decreases i
  {
    if Repeats(rows, i) {
      var p := LastOf(rows, i, KeyOf(rows[i]));
      k := KeptRowSpeaks(rows, p);
    } else {
      k := i;
    }
  }

  lemma {:induction false} LastOf(rows: seq<Row>, n: nat, key: Key) returns (p: nat)
    requires n <= |rows| && Holding(rows[..n], key).Some?
    ensures p < n && KeyOf(rows[p]) == key && rows[p].payload == Holding(rows[..n], key).value
    ensures forall j :: p < j < n ==> KeyOf(rows[j]) != key
  {
    p := n - 1;
    assert rows[..n][..n - 1] == rows[..n - 1];
    if KeyOf(rows[n - 1]) != key {
      p := LastOf(rows, n - 1, key);
    }
  }

  lemma {:induction false} KeptRowIsIn(rows: seq<Row>, n: nat, k: nat)
    requires k < n <= |rows| && !Repeats(rows, k)
    ensures rows[k] in Compact(rows[..n])
  {
    assert rows[..n][..n - 1] == rows[..n - 1];
    if k < n - 1 {
      KeptRowIsIn(rows, n - 1, k);
    } else {
      assert rows[..n][..k] == rows[..k];
    }
  }

  /** One PID of one ECU. */
  predicate SamePid(a: Row, b: Row) {
    a.rx == b.rx && a.pid == b.pid
  }

  /** Row `j` is the last before row `i` of its ECU and PID. */
  ghost predicate IsLastBefore(rows: seq<Row>, j: nat, i: nat) {
    j < i < |rows| && SamePid(rows[j], rows[i]) && forall k :: j < k < i ==> !SamePid(rows[k], rows[i])
  }

  /** A row repeats when the row before it of its ECU and PID has its payload. */
  lemma RepeatsIff(rows: seq<Row>, i: nat)
    requires i < |rows|
    ensures Repeats(rows, i) <==> exists j: nat :: IsLastBefore(rows, j, i) && rows[j].payload == rows[i].payload
  {
    var key := KeyOf(rows[i]);
    if Holding(rows[..i], key).Some? {
      var p := LastOf(rows, i, key);
      hide Holding;
      assert IsLastBefore(rows, p, i);
      if j: nat :| IsLastBefore(rows, j, i) {
        assert j == p;
      }
    } else {
      NeverHeld(rows, i, key);
    }
  }

  lemma {:induction false} NeverHeld(rows: seq<Row>, n: nat, key: Key)
    requires n <= |rows| && Holding(rows[..n], key).None?
    ensures forall j :: 0 <= j < n ==> KeyOf(rows[j]) != key
  {
    if n > 0 {
      assert rows[..n][..n - 1] == rows[..n - 1];
      NeverHeld(rows, n - 1, key);
    }
  }

  /** The rows of one PID of one ECU. */
  function OnPid(rows: seq<Row>, rx: string, pid: string): seq<Row> {
    if rows == [] then []
    else
      var r := rows[|rows| - 1];
      OnPid(rows[..|rows| - 1], rx, pid) + if r.rx == rx && r.pid == pid then [r] else []
  }

  lemma OnPidAppend(rows: seq<Row>, r: Row, rx: string, pid: string)
    ensures OnPid(rows + [r], rx, pid) ==
      if r.rx == rx && r.pid == pid then OnPid(rows, rx, pid) + [r] else OnPid(rows, rx, pid)
  {
    assert (rows + [r])[..|rows|] == rows;
  }

  lemma {:induction false} HoldingOnPid(rows: seq<Row>, rx: string, pid: string)
    ensures Holding(OnPid(rows, rx, pid), (rx, pid)) == Holding(rows, (rx, pid))
  {
    if rows != [] {
      var before, r := rows[..|rows| - 1], rows[|rows| - 1];
      HoldingOnPid(before, rx, pid);
      assert rows == before + [r];
      HoldingAppend(before, r, (rx, pid));
      OnPidAppend(before, r, rx, pid);
      HoldingAppend(OnPid(before, rx, pid), r, (rx, pid));
      hide Holding, OnPid;
    } else {
      assert OnPid(rows, rx, pid) == [];
    }
  }

  lemma CompactAppend(rows: seq<Row>, r: Row)
    ensures Compact(rows + [r]) ==
      if Holding(rows, KeyOf(r)) == Some(r.payload) then Compact(rows) else Compact(rows) + [r]
  {
    assert (rows + [r])[..|rows|] == rows;
  }

  /** Dedup looks at each PID of each ECU by itself: other rows make no difference to which of its rows stay. */
  lemma {:induction false} DedupActsPerPid(rows: seq<Row>, rx: string, pid: string)
    ensures OnPid(Compact(rows), rx, pid) == Compact(OnPid(rows, rx, pid))
  {
    hide Compact, OnPid, Holding;
    if rows == [] {
      NothingOnPid(rx, pid);
    } else {
      var before, r := rows[..|rows| - 1], rows[|rows| - 1];
      DedupActsPerPid(before, rx, pid);
      assert rows == before + [r];
      CompactAppend(before, r);
      CompactAppend(OnPid(before, rx, pid), r);
      OnPidAppend(before, r, rx, pid);
      OnPidAppend(Compact(before), r, rx, pid);
      HoldingOnPid(before, rx, pid);
    }
  }

  lemma NothingOnPid(rx: string, pid: string)
    ensures Compact([]) == [] && OnPid([], rx, pid) == []
  {
  }

  /** Row `k` is kept: it says something new, or every row is kept. */
  ghost predicate IsKept(rows: seq<Row>, changes: bool, k: nat)
    requires k < |rows|
  {
    changes ==> !Repeats(rows, k)
  }

  lemma {:induction false} CompactedRowIsKept(rows: seq<Row>, r: Row) returns (k: nat)
    requires r in Compact(rows)
    ensures k < |rows| && rows[k] == r && !Repeats(rows, k)
  {
    var n := |rows| - 1;
    if r in Compact(rows[..n]) {
      k := CompactedRowIsKept(rows[..n], r);
      assert rows[..n][..k] == rows[..k];
    } else {
      k := n;
    }
  }

  lemma DedupedAre(rows: seq<Row>, changes: bool, r: Row)
    ensures r in Deduped(rows, changes) <==> exists k: nat :: k < |rows| && rows[k] == r && IsKept(rows, changes, k)
  {
    hide Repeats, Compact;
    if r in Deduped(rows, changes) {
      var k: nat;
      if changes {
        k := CompactedRowIsKept(rows, r);
      } else {
        k :| k < |rows| && rows[k] == r;
      }
      assert IsKept(rows, changes, k);
    }
    if k: nat :| k < |rows| && rows[k] == r && IsKept(rows, changes, k) {
      if changes {
        KeptRowIsIn(rows, |rows|, k);
        assert rows[..|rows|] == rows;
      }
    }
  }

  lemma KeptDates(rows: seq<Row>, changes: bool, d: string)
    ensures (exists r :: r in Deduped(rows, changes) && r.date == d)
       <==> (exists k: nat :: k < |rows| && rows[k].date == d && IsKept(rows, changes, k))
  {
    hide Deduped, IsKept;
    if r :| r in Deduped(rows, changes) && r.date == d {
      DedupedAre(rows, changes, r);
    }
    if k: nat :| k < |rows| && rows[k].date == d && IsKept(rows, changes, k) {
      DedupedAre(rows, changes, rows[k]);
    }
  }

  lemma {:induction false} CompactIsFrom(rows: seq<Row>)
    ensures forall r :: r in Compact(rows) ==> r in rows
  {
    if rows != [] {
      CompactIsFrom(rows[..|rows| - 1]);
      assert rows == rows[..|rows| - 1] + [rows[|rows| - 1]];
    }
  }

  function Deduped(rows: seq<Row>, changes: bool): seq<Row> {
    if changes then Compact(rows) else rows
  }

  ghost predicate LastSeen(rows: seq<Row>, last: map<Key, string>) {
    forall key :: if key in last then Holding(rows, key) == Some(last[key]) else Holding(rows, key).None?
  }

  method Dedup(rows: seq<Row>, changes: bool) returns (out: seq<Row>)
    ensures out == Deduped(rows, changes)
  {
    if !changes {
      return rows;
    }
    var last: map<Key, string> := map[];
    out := [];
    for i := 0 to |rows|
      invariant out == Compact(rows[..i]) && LastSeen(rows[..i], last)
    {
      var row := rows[i];
      SeeRow(rows, i, last);
      if !(KeyOf(row) in last && last[KeyOf(row)] == row.payload) {
        last := last[KeyOf(row) := row.payload];
        out := out + [row];
      }
    }
    assert rows[..|rows|] == rows;
  }

  lemma SeeRow(rows: seq<Row>, i: nat, last: map<Key, string>)
    requires i < |rows| && LastSeen(rows[..i], last)
    ensures var row := rows[i]; var known := KeyOf(row) in last && last[KeyOf(row)] == row.payload;
      && LastSeen(rows[..i + 1], if known then last else last[KeyOf(row) := row.payload])
      && Compact(rows[..i + 1]) == if known then Compact(rows[..i]) else Compact(rows[..i]) + [row]
  {
    var row := rows[i];
    assert rows[..i + 1] == rows[..i] + [row];
    assert rows[..i + 1][..i] == rows[..i];
    forall key
      ensures Holding(rows[..i + 1], key) == if KeyOf(row) == key then Some(row.payload) else Holding(rows[..i], key)
    {
      HoldingAppend(rows[..i], row, key);
    }
    hide Holding;
  }

  // ---------- one session a day ----------

  datatype DaySession = DaySession(date: string, rows: seq<Row>, refusals: seq<Refusal>)

  function RowsOn(rows: seq<Row>, date: string): seq<Row> {
    if rows == [] then []
    else RowsOn(rows[..|rows| - 1], date) + if rows[|rows| - 1].date == date then [rows[|rows| - 1]] else []
  }

  function RefusalsOn(refusals: seq<Refusal>, date: string): seq<Refusal> {
    if refusals == [] then []
    else
      var r := refusals[|refusals| - 1];
      RefusalsOn(refusals[..|refusals| - 1], date) + if r.date == date then [r] else []
  }

  /** The dates in the order they first appear. */
  function FirstDates(dates: seq<string>): (r: seq<string>) {
    if dates == [] then []
    else
      var rest, d := FirstDates(dates[..|dates| - 1]), dates[|dates| - 1];
      if d in rest then rest else rest + [d]
  }

  function DatesOf(rows: seq<Row>, refusals: seq<Refusal>): (dates: seq<string>)
    ensures |dates| == |rows| + |refusals|
  {
    seq(|rows|, m requires 0 <= m < |rows| => rows[m].date)
    + seq(|refusals|, m requires 0 <= m < |refusals| => refusals[m].date)
  }

  /** A session for each date, rows before refusals deciding which comes first, holding that date's rows in order. */
  ghost predicate IsDaySplit(rows: seq<Row>, refusals: seq<Refusal>, sessions: seq<DaySession>) {
    var dates := FirstDates(DatesOf(rows, refusals));
    && |sessions| == |dates|
    && forall k :: 0 <= k < |sessions| ==>
      sessions[k] == DaySession(dates[k], RowsOn(rows, dates[k]), RefusalsOn(refusals, dates[k]))
  }

  lemma {:induction false} FirstDatesAre(dates: seq<string>)
    ensures Distinct(FirstDates(dates))
    ensures forall d :: d in FirstDates(dates) <==> d in dates
  {
    if dates != [] {
      FirstDatesAre(dates[..|dates| - 1]);
      assert dates == dates[..|dates| - 1] + [dates[|dates| - 1]];
    }
  }

  /** Every row and refusal is in its own day's session, no session is empty, and no date has two. */
  lemma SplitPlaces(rows: seq<Row>, refusals: seq<Refusal>, sessions: seq<DaySession>)
    requires IsDaySplit(rows, refusals, sessions)
    ensures forall r :: r in rows ==> exists s :: s in sessions && s.date == r.date && r in s.rows
    ensures forall r :: r in refusals ==> exists s :: s in sessions && s.date == r.date && r in s.refusals
    ensures forall s, r :: s in sessions && r in s.rows ==> r in rows && r.date == s.date
    ensures forall s, r :: s in sessions && r in s.refusals ==> r in refusals && r.date == s.date
    ensures forall s :: s in sessions ==> s.rows != [] || s.refusals != []
    ensures forall i, k :: 0 <= i < k < |sessions| ==> sessions[i].date != sessions[k].date
  {
    FirstDatesAre(DatesOf(rows, refusals));
    hide FirstDates, RowsOn, RefusalsOn, DatesOf;
    forall r | r in rows
      ensures exists s :: s in sessions && s.date == r.date && r in s.rows
    {
      RowsOnAre(rows, r.date);
      RowIsDated(rows, refusals, r);
      SessionOfDate(rows, refusals, sessions, r.date);
    }
    forall r | r in refusals
      ensures exists s :: s in sessions && s.date == r.date && r in s.refusals
    {
      RefusalsOnAre(refusals, r.date);
      RefusalIsDated(rows, refusals, r);
      SessionOfDate(rows, refusals, sessions, r.date);
    }
    forall s | s in sessions
      ensures s.rows != [] || s.refusals != []
      ensures forall r :: r in s.rows ==> r in rows && r.date == s.date
      ensures forall r :: r in s.refusals ==> r in refusals && r.date == s.date
    {
      RowsOnAre(rows, s.date);
      RefusalsOnAre(refusals, s.date);
      DateHasContent(rows, refusals, s.date);
    }
  }

  lemma DayHasSession(rows: seq<Row>, refusals: seq<Refusal>, sessions: seq<DaySession>, d: string)
    requires IsDaySplit(rows, refusals, sessions)
    ensures (exists s :: s in sessions && s.date == d)
       <==> (exists r :: r in rows && r.date == d) || (exists r :: r in refusals && r.date == d)
  {
    SplitPlaces(rows, refusals, sessions);
    hide IsDaySplit;
    if s :| s in sessions && s.date == d {
      if s.rows != [] {
        assert s.rows[0] in s.rows;
        assert s.rows[0] in rows;
      } else {
        assert s.refusals[0] in s.refusals;
        assert s.refusals[0] in refusals;
      }
    }
  }

  lemma RowIsDated(rows: seq<Row>, refusals: seq<Refusal>, r: Row)
    requires r in rows
    ensures r.date in DatesOf(rows, refusals)
  {
    var m :| 0 <= m < |rows| && rows[m] == r;
    assert DatesOf(rows, refusals)[m] == r.date;
  }

  lemma RefusalIsDated(rows: seq<Row>, refusals: seq<Refusal>, r: Refusal)
    requires r in refusals
    ensures r.date in DatesOf(rows, refusals)
  {
    var m :| 0 <= m < |refusals| && refusals[m] == r;
    assert DatesOf(rows, refusals)[|rows| + m] == r.date;
  }

  lemma SessionOfDate(rows: seq<Row>, refusals: seq<Refusal>, sessions: seq<DaySession>, d: string)
    requires IsDaySplit(rows, refusals, sessions) && d in FirstDates(DatesOf(rows, refusals))
    ensures DaySession(d, RowsOn(rows, d), RefusalsOn(refusals, d)) in sessions
  {
    var dates := FirstDates(DatesOf(rows, refusals));
    hide FirstDates, RowsOn, RefusalsOn;
    var k :| 0 <= k < |dates| && dates[k] == d;
    assert sessions[k] in sessions;
  }

  lemma DateHasContent(rows: seq<Row>, refusals: seq<Refusal>, d: string)
    requires d in DatesOf(rows, refusals)
    ensures RowsOn(rows, d) != [] || RefusalsOn(refusals, d) != []
  {
    RowsOnAre(rows, d);
    RefusalsOnAre(refusals, d);
    var all := DatesOf(rows, refusals);
    var m :| 0 <= m < |all| && all[m] == d;
    hide RowsOn, RefusalsOn;
    if m < |rows| {
      assert rows[m] in RowsOn(rows, d);
    } else {
      assert refusals[m - |rows|] in RefusalsOn(refusals, d);
    }
  }

  lemma {:induction false} RowsOnAre(rows: seq<Row>, date: string)
    ensures forall r :: r in RowsOn(rows, date) <==> r in rows && r.date == date
  {
    if rows != [] {
      RowsOnAre(rows[..|rows| - 1], date);
      assert rows == rows[..|rows| - 1] + [rows[|rows| - 1]];
    }
  }

  lemma {:induction false} RefusalsOnAre(refusals: seq<Refusal>, date: string)
    ensures forall r :: r in RefusalsOn(refusals, date) <==> r in refusals && r.date == date
  {
    if refusals != [] {
      RefusalsOnAre(refusals[..|refusals| - 1], date);
      assert refusals == refusals[..|refusals| - 1] + [refusals[|refusals| - 1]];
    }
  }

  // ---------- what the split conserves ----------

  function Flat<T>(groups: seq<seq<T>>): seq<T> {
    if groups == [] then [] else groups[0] + Flat(groups[1..])
  }

  function RowGroups(sessions: seq<DaySession>): (groups: seq<seq<Row>>)
    ensures |groups| == |sessions|
  {
    seq(|sessions|, k requires 0 <= k < |sessions| => sessions[k].rows)
  }

  function RefusalGroups(sessions: seq<DaySession>): (groups: seq<seq<Refusal>>)
    ensures |groups| == |sessions|
  {
    seq(|sessions|, k requires 0 <= k < |sessions| => sessions[k].refusals)
  }

  /** `picked` lists the entries of `all` dated `date`, each as often as there and in the order there. */
  ghost predicate PicksDate<T(!new)>(all: seq<T>, dateOf: T -> string, date: string, picked: seq<T>) {
    exists at: seq<nat> :: PicksAt(all, dateOf, date, picked, at)
  }

  ghost predicate PicksAt<T>(all: seq<T>, dateOf: T -> string, date: string, picked: seq<T>, at: seq<nat>) {
    && |at| == |picked|
    && (forall m :: 0 <= m < |at| ==> at[m] < |all| && picked[m] == all[at[m]])
    && (forall m, n :: 0 <= m < n < |at| ==> at[m] < at[n])
    && (forall i: nat :: i in at <==> i < |all| && dateOf(all[i]) == date)
  }

  function RowDate(r: Row): string {
    r.date
  }

  function RefusalDate(r: Refusal): string {
    r.date
  }

  lemma NothingPicked<T>(dateOf: T -> string, date: string)
    ensures PicksAt([], dateOf, date, [], [])
  {
  }

  lemma PickNext<T>(all: seq<T>, dateOf: T -> string, date: string, picked: seq<T>, at: seq<nat>)
    returns (next: seq<nat>)
    requires all != []
    requires PicksAt(all[..|all| - 1], dateOf, date, picked, at)
    ensures var x := all[|all| - 1];
      PicksAt(all, dateOf, date, picked + if dateOf(x) == date then [x] else [], next)
  {
    var n: nat := |all| - 1;
    if dateOf(all[n]) == date {
      next := at + [n];
      assert forall i :: i in next <==> i in at || i == n;
      assert forall m :: 0 <= m < |at| ==> at[m] in at;
    } else {
      next := at;
      assert picked + [] == picked;
    }
  }

  lemma {:induction false} RowsOnPicks(rows: seq<Row>, date: string)
    ensures PicksDate(rows, RowDate, date, RowsOn(rows, date))
  {
    if rows == [] {
      NothingPicked(RowDate, date);
    } else {
      var before := rows[..|rows| - 1];
      RowsOnPicks(before, date);
      var at: seq<nat> :| PicksAt(before, RowDate, date, RowsOn(before, date), at);
      var next := PickNext(rows, RowDate, date, RowsOn(before, date), at);
    }
  }

  lemma {:induction false} RefusalsOnPicks(refusals: seq<Refusal>, date: string)
    ensures PicksDate(refusals, RefusalDate, date, RefusalsOn(refusals, date))
  {
    if refusals == [] {
      NothingPicked(RefusalDate, date);
    } else {
      var before := refusals[..|refusals| - 1];
      RefusalsOnPicks(before, date);
      var at: seq<nat> :| PicksAt(before, RefusalDate, date, RefusalsOn(before, date), at);
      var next := PickNext(refusals, RefusalDate, date, RefusalsOn(before, date), at);
    }
  }

  /** What is picked holds each entry of that date as often as the whole list does. */
  lemma {:induction false} PickedCounts<T(!new)>(all: seq<T>, dateOf: T -> string, date: string, picked: seq<T>,
                                                 at: seq<nat>, x: T)
    requires PicksAt(all, dateOf, date, picked, at)
    ensures multiset(picked)[x] == if dateOf(x) == date then multiset(all)[x] else 0
  {
    if all != [] {
      var n: nat := |all| - 1;
      assert all == all[..n] + [all[n]];
      if dateOf(all[n]) == date {
        LastPicked(all, dateOf, date, picked, at);
        var k := |at| - 1;
        assert picked == picked[..k] + [picked[k]];
        PickedCounts(all[..n], dateOf, date, picked[..k], at[..k], x);
      } else {
        PickedCounts(all[..n], dateOf, date, picked, at, x);
      }
    }
  }

  lemma LastIsPicked<T>(all: seq<T>, dateOf: T -> string, date: string, picked: seq<T>, at: seq<nat>)
    requires all != [] && dateOf(all[|all| - 1]) == date && PicksAt(all, dateOf, date, picked, at)
    ensures at != [] && at[|at| - 1] == |all| - 1
  {
    var n: nat := |all| - 1;
    assert n in at;
    var m :| 0 <= m < |at| && at[m] == n;
    assert at[|at| - 1] <= n;
    assert m == |at| - 1;
  }

  lemma LastPicked<T>(all: seq<T>, dateOf: T -> string, date: string, picked: seq<T>, at: seq<nat>)
    requires all != [] && dateOf(all[|all| - 1]) == date && PicksAt(all, dateOf, date, picked, at)
    ensures at != [] && at[|at| - 1] == |all| - 1
    ensures PicksAt(all[..|all| - 1], dateOf, date, picked[..|picked| - 1], at[..|at| - 1])
  {
    LastIsPicked(all, dateOf, date, picked, at);
    var n: nat, rest := |all| - 1, at[..|at| - 1];
    forall i: nat
      ensures i in rest <==> i < n && dateOf(all[i]) == date
    {
      assert i in at <==> i in rest || i == n by {
        assert at == rest + [n];
      }
      if i in rest {
        var j :| 0 <= j < |rest| && rest[j] == i;
        assert at[j] < at[|at| - 1];
      }
    }
  }

  /** One group a date: together they hold what has one of those dates, as often as the whole list. */
  lemma {:induction false} GroupsCount<T(!new)>(all: seq<T>, dateOf: T -> string, dates: seq<string>,
                                                groups: seq<seq<T>>, x: T)
    requires |groups| == |dates| && Distinct(dates)
    requires forall k :: 0 <= k < |dates| ==> PicksDate(all, dateOf, dates[k], groups[k])
    ensures multiset(Flat(groups))[x] == if dateOf(x) in dates then multiset(all)[x] else 0
  {
    if dates != [] {
      var rest, others := dates[1..], groups[1..];
      FirstGroupCounts(groups, x);
      DateCounts(all, dateOf, dates[0], groups[0], x);
      hide PicksDate, Flat;
      forall k | 0 <= k < |rest|
        ensures PicksDate(all, dateOf, rest[k], others[k])
      {
        assert PicksDate(all, dateOf, dates[k + 1], groups[k + 1]);
      }
      GroupsCount(all, dateOf, rest, others, x);
      FirstDateOnly(dates, dateOf(x));
    }
  }

  lemma FirstGroupCounts<T>(groups: seq<seq<T>>, x: T)
    requires groups != []
    ensures multiset(Flat(groups))[x] == multiset(groups[0])[x] + multiset(Flat(groups[1..]))[x]
  {
  }

  lemma DateCounts<T(!new)>(all: seq<T>, dateOf: T -> string, date: string, picked: seq<T>, x: T)
    requires PicksDate(all, dateOf, date, picked)
    ensures multiset(picked)[x] == if dateOf(x) == date then multiset(all)[x] else 0
  {
    var at: seq<nat> :| PicksAt(all, dateOf, date, picked, at);
    hide PicksAt;
    PickedCounts(all, dateOf, date, picked, at, x);
  }

  lemma FirstDateOnly(dates: seq<string>, d: string)
    requires dates != [] && Distinct(dates)
    ensures d in dates <==> d == dates[0] || d in dates[1..]
    ensures dates[0] !in dates[1..] && Distinct(dates[1..])
  {
    assert dates == [dates[0]] + dates[1..];
  }

  lemma CountsAgree<T(!new)>(all: seq<T>, dateOf: T -> string, dates: seq<string>, groups: seq<seq<T>>)
    requires |groups| == |dates| && Distinct(dates)
    requires forall k :: 0 <= k < |dates| ==> PicksDate(all, dateOf, dates[k], groups[k])
    requires forall x :: x in all ==> dateOf(x) in dates
    ensures multiset(Flat(groups)) == multiset(all)
  {
    forall x
      ensures multiset(Flat(groups))[x] == multiset(all)[x]
    {
      GroupsCount(all, dateOf, dates, groups, x);
      assert x in multiset(all) <==> x in all;
    }
  }

  /**
    Every date has one session at most. A session lists the rows of its date in their order, and the
    sessions together hold each row exactly as often as the list did; the refusals likewise.
   */
  lemma SplitConserves(rows: seq<Row>, refusals: seq<Refusal>, sessions: seq<DaySession>)
    requires IsDaySplit(rows, refusals, sessions)
    ensures forall i, k :: 0 <= i < k < |sessions| ==> sessions[i].date != sessions[k].date
    ensures multiset(Flat(RowGroups(sessions))) == multiset(rows)
    ensures multiset(Flat(RefusalGroups(sessions))) == multiset(refusals)
    ensures forall s :: s in sessions ==>
      PicksDate(rows, RowDate, s.date, s.rows) && PicksDate(refusals, RefusalDate, s.date, s.refusals)
  {
    var dates := FirstDates(DatesOf(rows, refusals));
    FirstDatesAre(DatesOf(rows, refusals));
    forall k | 0 <= k < |dates|
      ensures PicksDate(rows, RowDate, dates[k], RowGroups(sessions)[k])
      ensures PicksDate(refusals, RefusalDate, dates[k], RefusalGroups(sessions)[k])
    {
      RowsOnPicks(rows, dates[k]);
      RefusalsOnPicks(refusals, dates[k]);
    }
    hide FirstDates, RowsOn, RefusalsOn, DatesOf, Flat, PicksDate;
    forall r | r in rows
      ensures RowDate(r) in dates
    {
      RowIsDated(rows, refusals, r);
    }
    forall r | r in refusals
      ensures RefusalDate(r) in dates
    {
      RefusalIsDated(rows, refusals, r);
    }
    CountsAgree(rows, RowDate, dates, RowGroups(sessions));
    CountsAgree(refusals, RefusalDate, dates, RefusalGroups(sessions));
  }

  type Groups<T> = map<string, seq<T>>

  function Group<T>(groups: Groups<T>, date: string): seq<T> {
    if date in groups then groups[date] else []
  }

  lemma GroupPut<T>(groups: Groups<T>, date: string, x: T, other: string)
    ensures Group(groups[date := Group(groups, date) + [x]], other)
         == Group(groups, other) + if other == date then [x] else []
  {
  }

  /** The dates met, in order, are the keys of the groups. */
  ghost predicate OrderOk(dates: seq<string>, order: seq<string>, byDate: Groups<Row>) {
    order == FirstDates(dates) && forall d :: d in byDate <==> d in order
  }

  ghost predicate HoldsRows(byDate: Groups<Row>, rows: seq<Row>) {
    forall d :: Group(byDate, d) == RowsOn(rows, d)
  }

  ghost predicate HoldsRefusals(refused: Groups<Refusal>, refusals: seq<Refusal>) {
    forall d :: Group(refused, d) == RefusalsOn(refusals, d)
  }

  lemma FirstDatesAppend(dates: seq<string>, d: string)
    ensures FirstDates(dates + [d]) == if d in FirstDates(dates) then FirstDates(dates) else FirstDates(dates) + [d]
  {
    assert (dates + [d])[..|dates|] == dates;
  }

  lemma RowsOnAppend(rows: seq<Row>, r: Row, date: string)
    ensures RowsOn(rows + [r], date) == RowsOn(rows, date) + if r.date == date then [r] else []
  {
    assert (rows + [r])[..|rows|] == rows;
  }

  lemma RefusalsOnAppend(refusals: seq<Refusal>, r: Refusal, date: string)
    ensures RefusalsOn(refusals + [r], date) == RefusalsOn(refusals, date) + if r.date == date then [r] else []
  {
    assert (refusals + [r])[..|refusals|] == refusals;
  }

  lemma RowGrouped(rows: seq<Row>, m: nat, byDate: Groups<Row>)
    requires m < |rows| && HoldsRows(byDate, rows[..m])
    ensures var d := rows[m].date; HoldsRows(byDate[d := Group(byDate, d) + [rows[m]]], rows[..m + 1])
  {
    var d := rows[m].date;
    assert rows[..m + 1] == rows[..m] + [rows[m]];
    hide RowsOn, Group;
    var next, more := byDate[d := Group(byDate, d) + [rows[m]]], rows[..m + 1];
    forall date
      ensures Group(next, date) == RowsOn(more, date)
    {
      RowsOnAppend(rows[..m], rows[m], date);
      GroupPut(byDate, d, rows[m], date);
    }
  }

  lemma RefusalGrouped(refusals: seq<Refusal>, m: nat, refused: Groups<Refusal>)
    requires m < |refusals| && HoldsRefusals(refused, refusals[..m])
    ensures var r := refusals[m]; HoldsRefusals(refused[r.date := Group(refused, r.date) + [r]], refusals[..m + 1])
  {
    var r := refusals[m];
    assert refusals[..m + 1] == refusals[..m] + [r];
    hide RefusalsOn, Group;
    var next, more := refused[r.date := Group(refused, r.date) + [r]], refusals[..m + 1];
    forall date
      ensures Group(next, date) == RefusalsOn(more, date)
    {
      RefusalsOnAppend(refusals[..m], r, date);
      GroupPut(refused, r.date, r, date);
    }
  }

  lemma DateMet(dates: seq<string>, n: nat, order: seq<string>, byDate: Groups<Row>, group: seq<Row>)
    requires n < |dates| && OrderOk(dates[..n], order, byDate)
    ensures var d := dates[n];
      OrderOk(dates[..n + 1], if d in order then order else order + [d], byDate[d := group])
  {
    assert dates[..n + 1] == dates[..n] + [dates[n]];
    FirstDatesAppend(dates[..n], dates[n]);
    hide FirstDates;
  }

  lemma EmptyGroup(byDate: Groups<Row>, d: string, rows: seq<Row>)
    requires HoldsRows(byDate, rows) && d !in byDate
    ensures HoldsRows(byDate[d := []], rows)
  {
    hide RowsOn;
    forall date
      ensures Group(byDate[d := []], date) == RowsOn(rows, date)
    {
      assert Group(byDate, date) == RowsOn(rows, date);
    }
  }

  method SplitByDay(rows: seq<Row>, refusals: seq<Refusal>) returns (sessions: seq<DaySession>)
    ensures IsDaySplit(rows, refusals, sessions)
  {
    hide FirstDates, RowsOn, RefusalsOn, OrderOk, HoldsRows, HoldsRefusals;
    ghost var dates := DatesOf(rows, refusals);
    var order: seq<string>, byDate: Groups<Row>, refused: Groups<Refusal> := [], map[], map[];
    NothingGrouped(dates, rows, refusals);
    for m := 0 to |rows|
      invariant OrderOk(dates[..m], order, byDate) && HoldsRows(byDate, rows[..m])
    {
      var d := rows[m].date;
      assert dates[m] == d;
      RowGrouped(rows, m, byDate);
      DateMet(dates, m, order, byDate, Group(byDate, d) + [rows[m]]);
      if d !in order {
        order := order + [d];
      }
      byDate := byDate[d := Group(byDate, d) + [rows[m]]];
    }
    assert rows[..|rows|] == rows;
    for m := 0 to |refusals|
      invariant OrderOk(dates[..|rows| + m], order, byDate) && HoldsRows(byDate, rows)
      invariant HoldsRefusals(refused, refusals[..m])
    {
      var r := refusals[m];
      assert dates[|rows| + m] == r.date;
      RefusalGrouped(refusals, m, refused);
      DateMet(dates, |rows| + m, order, byDate, Group(byDate, r.date));
      SetDefault(byDate, r.date);
      OrderIsKeys(dates[..|rows| + m], order, byDate);
      if r.date !in byDate {
        EmptyGroup(byDate, r.date, rows);
        order, byDate := order + [r.date], byDate[r.date := []];
      }
      refused := refused[r.date := Group(refused, r.date) + [r]];
    }
    assert refusals[..|refusals|] == refusals && dates[..|dates|] == dates;
    OrderIsKeys(dates, order, byDate);
    sessions := [];
    for k := 0 to |order|
      invariant |sessions| == k
      invariant forall i :: 0 <= i < k ==>
        sessions[i] == DaySession(order[i], RowsOn(rows, order[i]), RefusalsOn(refusals, order[i]))
    {
      var d := order[k];
      GroupsHold(rows, refusals, byDate, refused, d);
      sessions := sessions + [DaySession(d, byDate[d], Group(refused, d))];
    }
  }

  lemma SetDefault(byDate: Groups<Row>, d: string)
    ensures byDate[d := Group(byDate, d)] == if d in byDate then byDate else byDate[d := []]
  {
  }

  lemma OrderIsKeys(dates: seq<string>, order: seq<string>, byDate: Groups<Row>)
    requires OrderOk(dates, order, byDate)
    ensures order == FirstDates(dates) && forall d :: d in byDate <==> d in order
  {
  }

  lemma GroupsHold(rows: seq<Row>, refusals: seq<Refusal>, byDate: Groups<Row>, refused: Groups<Refusal>, d: string)
    requires HoldsRows(byDate, rows) && HoldsRefusals(refused, refusals)
    ensures Group(byDate, d) == RowsOn(rows, d) && Group(refused, d) == RefusalsOn(refusals, d)
  {
  }

  lemma NothingGrouped(dates: seq<string>, rows: seq<Row>, refusals: seq<Refusal>)
    ensures OrderOk(dates[..0], [], map[]) && HoldsRows(map[], rows[..0]) && HoldsRefusals(map[], refusals[..0])
  {
  }
}
