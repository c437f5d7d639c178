/**
  The folder folds whatever it can: a row that continues its run is held as a repeat exactly when
  expansion would put it back where it was, and pending repeats are unfolded exactly when it would not.
 */
module FoldingGreedy {
  import opened Wrappers
  import opened ClockTime
  import opened CaptureRows
  import opened FoldingDecoder
  import opened FoldingMerge
  import opened FoldingState
  import opened FoldingInvariant
  import opened FoldingRuns
  import opened FoldingLaw

  // ---------- the last row emitted ----------

  /** What entries expand to. */
  function Emitted(es: seq<Entry>): seq<Item> {
    Run(es).out + QueuedItems(Run(es).heap)
  }

  lemma BeforeChains(a: Key, b: Key, c: Key)
    requires Before(a, b) && Before(b, c)
    ensures Before(a, c)
  {
  }

  lemma KeysCompare(a: Key, b: Key)
    ensures Before(a, b) || Before(b, a) || a == b
    ensures !(Before(a, b) && Before(b, a)) && (a == b ==> !Before(a, b))
  {
  }

  /** A repeat with a key below the stored row's comes out just before it or earlier, and is gone. */
  lemma {:induction false} InsertFlushed(heap: seq<Queued>, q: Queued, key: Key)
    requires Before(q.key, key)
    ensures var n := Ready(heap, key);
      && Ready(Insert(heap, q), key) == n + 1
      && Insert(heap, q)[n + 1..] == heap[n..]
  {
    if heap != [] && !Before(q.key, heap[0].key) {
      KeysCompare(q.key, heap[0].key);
      if heap[0].key != q.key {
        BeforeChains(heap[0].key, q.key, key);
      }
      InsertFlushed(heap[1..], q, key);
      var n, r := Ready(heap[1..], key), Insert(heap[1..], q);
      assert Insert(heap, q)[n + 2..] == r[n + 1..];
      assert heap[n + 1..] == heap[1..][n..];
    } else {
      var n := Ready(heap, key);
      assert ([q] + heap)[n + 1..] == heap[n..];
      assert ([q] + heap)[1..] == heap;
    }
  }

  lemma {:induction false} InsertKeepsLast(heap: seq<Queued>, q: Queued)
    requires heap != [] && Before(q.key, heap[|heap| - 1].key)
    ensures Insert(heap, q)[|heap|] == heap[|heap| - 1]
  {
    if !Before(q.key, heap[0].key) {
      InsertKeepsLast(heap[1..], q);
    }
  }

  /** The two expansions have the same repeats pending and the same row out last. */
  ghost predicate EndAlike(a: Merge, b: Merge) {
    a.heap == b.heap && a.out != [] && b.out != [] && a.out[|a.out| - 1] == b.out[|b.out| - 1]
  }

  /** One entry, from two states with the same pending repeats: the same are left, and it comes out last. */
  lemma StepEndsAlike(a: Merge, b: Merge, pos: nat, e: Entry)
    requires a.heap == b.heap
    ensures EndAlike(Step(a, pos, e), Step(b, pos, e))
  {
    if e.Poll? {
      var n := Ready(a.heap, RowKey(e.row, pos));
      hide RowKey;
      var last := [Record(e.row)] + if e.inlined then RepeatItems(e.repeats) else [];
      assert Step(a, pos, e).out == a.out + QueuedItems(a.heap[..n]) + last;
      assert Step(b, pos, e).out == b.out + QueuedItems(b.heap[..n]) + last;
    }
  }

  lemma StepFlushes(m: Merge, q: Queued, pos: nat, e: Entry)
    requires e.Poll? && Before(q.key, RowKey(e.row, pos))
    ensures EndAlike(Step(m, pos, e), Step(m.(heap := Insert(m.heap, q)), pos, e))
  {
    var key := RowKey(e.row, pos);
    InsertFlushed(m.heap, q, key);
    var n, more := Ready(m.heap, key), Insert(m.heap, q);
    var last := [Record(e.row)] + if e.inlined then RepeatItems(e.repeats) else [];
    assert Step(m, pos, e).out == m.out + QueuedItems(m.heap[..n]) + last;
    assert Step(m.(heap := more), pos, e).out == m.out + QueuedItems(more[..n + 1]) + last;
  }

  lemma AlikeEmitAlike(es: seq<Entry>, more: seq<Entry>)
    requires EndAlike(Run(es), Run(more))
    ensures Emitted(es) != [] && Emitted(more) != []
    ensures Emitted(es)[|Emitted(es)| - 1] == Emitted(more)[|Emitted(more)| - 1]
  {
    hide Run;
  }

  lemma LastEntryRuns(es: seq<Entry>)
    requires es != []
    ensures Run(es) == Step(Run(es[..|es| - 1]), |es| - 1, es[|es| - 1])
  {
  }

  /** A merged repeat below a row stored later comes out before that row. */
  lemma {:induction false} EarlyRepeatEndsAlike(es: seq<Entry>, h: nat, rep: Repeat)
    requires h < |es| && es[h].Poll? && !es[h].inlined
    requires !LaterRowsBefore(es, h, Key(At(rep.at), h, |es[h].repeats|))
    ensures EndAlike(Run(es), Run(AddRepeat(es, h, rep)))
    decreases |es|
  {
    var n := |es| - 1;
    var key := Key(At(rep.at), h, |es[h].repeats|);
    var q := Queued(key, rep.row);
    LaterThan(es, h, key);
    AddRepeatBefore(es, h, rep);
    LastEntryRuns(es);
    hide *;
    if LaterRowsBefore(es[..n], h, key) {
      AddRepeatQueuesIt(es[..n], h, rep);
      StepFlushes(Run(es[..n]), q, n, es[n]);
    } else {
      EarlyRepeatEndsAlike(es[..n], h, rep);
      AlikeHeaps(Run(es[..n]), Run(AddRepeat(es[..n], h, rep)));
      StepEndsAlike(Run(es[..n]), Run(AddRepeat(es[..n], h, rep)), n, es[n]);
    }
  }

  lemma AlikeHeaps(a: Merge, b: Merge)
    requires EndAlike(a, b)
    ensures a.heap == b.heap
  {
  }

  /** The row that comes before the repeat is the last, or an earlier one. */
  lemma LaterThan(es: seq<Entry>, h: nat, key: Key)
    requires h < |es| && !LaterRowsBefore(es, h, key)
    requires key.pos == h && key.rep >= 0
    ensures h < |es| - 1
    ensures LaterRowsBefore(es[..|es| - 1], h, key) ==>
      es[|es| - 1].Poll? && Before(key, RowKey(es[|es| - 1].row, |es| - 1))
  {
    var j :| h < j < |es| && es[j].Poll? && !Before(RowKey(es[j].row, j), key);
    KeysCompare(key, RowKey(es[j].row, j));
    assert RowKey(es[j].row, j) != key;
    hide Before, RowKey;
    assert j < |es| - 1 ==> es[..|es| - 1][j] == es[j];
  }

  lemma AddRepeatBefore(es: seq<Entry>, h: nat, rep: Repeat)
    requires h < |es| - 1 && es[h].Poll?
    ensures var n := |es| - 1;
      Run(AddRepeat(es, h, rep)) == Step(Run(AddRepeat(es[..n], h, rep)), n, es[n])
  {
    var n := |es| - 1;
    assert AddRepeat(es, h, rep)[..n] == AddRepeat(es[..n], h, rep);
    LastEntryRuns(AddRepeat(es, h, rep));
    hide Step, Run;
  }

  function AddInline(es: seq<Entry>, h: nat, rep: Repeat): seq<Entry>
    requires h < |es| && es[h].Poll?
  {
    es[h := Poll(es[h].row, es[h].repeats + [rep], true)]
  }

  lemma LastInlineKeepsHeap(es: seq<Entry>, rep: Repeat)
    requires es != [] && es[|es| - 1].Poll? && (es[|es| - 1].inlined || es[|es| - 1].repeats == [])
    ensures Run(AddInline(es, |es| - 1, rep)).heap == Run(es).heap
  {
    var n := |es| - 1;
    assert AddInline(es, n, rep)[..n] == es[..n];
    StepInline(Run(es[..n]), n, es[n], rep);
  }

  lemma AddInlineEarlier(es: seq<Entry>, h: nat, rep: Repeat)
    requires h < |es| - 1 && es[h].Poll?
    ensures var n := |es| - 1;
      Run(AddInline(es, h, rep)) == Step(Run(AddInline(es[..n], h, rep)), n, es[n])
  {
    var n := |es| - 1;
    assert AddInline(es, h, rep)[..n] == AddInline(es[..n], h, rep);
    LastEntryRuns(AddInline(es, h, rep));
    hide Step, Run;
  }

  /** An inline repeat comes out with its run, before every row stored later. */
  lemma {:induction false} EarlyInlineEndsAlike(es: seq<Entry>, h: nat, rep: Repeat)
    requires h < |es| - 1 && es[h].Poll? && (es[h].inlined || es[h].repeats == [])
    ensures EndAlike(Run(es), Run(AddInline(es, h, rep)))
    decreases |es|
  {
    var n := |es| - 1;
    hide *;
    LastEntryRuns(es);
    AddInlineEarlier(es, h, rep);
    if h == n - 1 {
      LastInlineKeepsHeap(es[..n], rep);
    } else {
      EarlyInlineEndsAlike(es[..n], h, rep);
      AlikeHeaps(Run(es[..n]), Run(AddInline(es[..n], h, rep)));
    }
    StepEndsAlike(Run(es[..n]), Run(AddInline(es[..n], h, rep)), n, es[n]);
  }

  // ---------- where the row added last went ----------

  /** `key` carries the time of `row`. */
  predicate HasTimeOf(key: Key, row: Row) {
    TimeOf(row).Some? && key.time == At(TimeOf(row).value.0)
  }

  /** The last row ended the run of `tail`: stored there, folded inline into it, or pending for it. */
  ghost predicate TailTells(s: Session, rows: seq<Row>)
    requires s.Shaped()
  {
    && (rows != [] ==>
          && s.tail.Some? && RunKey(rows[|rows| - 1]) in s.open
          && s.open[RunKey(rows[|rows| - 1])] == s.tail.value)
    && (s.tail.Some? && s.pending == [] ==> s.tail.value == |s.stored| - 1)
    && (s.tail.Some? && !Continues(s, s.tail.value) ==>
          s.pending != [] && s.pending[|s.pending| - 1].h == s.tail.value)
    && (forall i :: 0 <= i < |s.pending| ==> HasTimeOf(s.pending[i].key, s.pending[i].row))
  }

  lemma StoredTells(s: Session, rows: seq<Row>, row: Row)
    requires s.Shaped()
    ensures TailTells(Store(s, row), rows + [row])
  {
    StoredLast(s, row);
    hide Store, RunKey, TimeOf;
  }

  lemma FoldedTells(s: Session, rows: seq<Row>, row: Row)
    requires s.Shaped() && CanFold(s, row) && TailTells(s, rows)
    ensures TailTells(FoldInto(s, row), rows + [row])
  {
    hide RunKey, TimeOf, Shape;
  }

  lemma {:induction false} LastRowTells(rows: seq<Row>)
    ensures TailTells(AddAll(rows), rows)
  {
    hide *;
    if rows == [] {
      NoRowTells();
    } else {
      var before, row := rows[..|rows| - 1], rows[|rows| - 1];
      LastRowTells(before);
      LastStep(rows);
      assert rows == before + [row];
      AddedTells(AddAll(before), before, row);
    }
  }

  lemma NoRowTells()
    ensures TailTells(AddAll([]), [])
  {
  }

  lemma AddedTells(s: Session, rows: seq<Row>, row: Row)
    requires s.Shaped() && TailTells(s, rows)
    ensures TailTells(Add(s, row), rows + [row])
  {
    hide TailTells, CanFold, FoldInto, Store;
    if CanFold(s, row) {
      FoldedTells(s, rows, row);
    } else {
      StoredTells(s, rows, row);
    }
  }

  // ---------- a misplaced repeat shows ----------

  lemma TailIsPlaced(es: seq<Entry>, ws: seq<Waiting>, key: Key)
    requires ws != [] && Undoable(es, ws) && KeysAscend(ws)
    requires Before(ws[|ws| - 1].key, key)
    ensures forall i :: 0 <= i < |ws| ==> Before(ws[i].key, key)
    ensures LaterRowsBefore(es, ws[|ws| - 1].h, key)
  {
    var w := ws[|ws| - 1];
    forall i | 0 <= i < |ws|
      ensures Before(ws[i].key, key)
    {
      if i < |ws| - 1 {
        BeforeChains(ws[i].key, w.key, key);
      }
    }
    assert IsRunTail(es, w);
    forall j | w.h < j < |es| && es[j].Poll?
      ensures Before(RowKey(es[j].row, j), key)
    {
      BeforeChains(RowKey(es[j].row, j), w.key, key);
    }
  }

  /** After a row with the same time in the same run, a repeat always comes out in place. */
  lemma SameTimeIsPlaced(s: Session, rows: seq<Row>, row: Row, shown: seq<Row>)
    requires Sound(s, {}, shown) && TailTells(s, rows) && PendingAreLast(s, rows) && rows != []
    requires Joins(s, row) && RunKey(rows[|rows| - 1]) == RunKey(row) && TimeOf(rows[|rows| - 1]) == TimeOf(row)
    ensures ComesOutHere(s, s.open[RunKey(row)], row)
  {
    hide RunKey, TimeOf, Shape, AllReadable, LastTimes, OpenRuns, WaitingOk, Explains;
    var h := s.open[RunKey(row)];
    assert s.tail == Some(h);
    if !Continues(s, h) {
      var es, w := EntriesOf(s), s.pending[|s.pending| - 1];
      PendingIsUndoable(s, shown);
      assert IsRunTail(es, w) && w.h == h && w.row == rows[|rows| - 1];
      GapsAreRepeats(s, h);
      assert Before(w.key, MergedKey(s, h, row));
      TailIsPlaced(es, s.pending, MergedKey(s, h, row));
    }
  }

  lemma GapsAreRepeats(s: Session, h: nat)
    requires s.Shaped() && AllReadable(s.stored, s.gaps, s.inlined) && h < |s.stored|
    ensures |EntriesOf(s)[h].repeats| == |s.gaps[h]|
  {
  }

  lemma CanonicalKeepsRun(row: Row, other: Row)
    requires SameDict(Canonical(row), other) || SameDict(row, other)
    ensures RunKey(row) == RunKey(other) && TimeOf(row) == TimeOf(other)
  {
    CanonicalReads(row);
    hide ParseMs, FormatMs, Canonical;
    assert row.Get("rx") == other.Get("rx") && row.Get("ecu") == other.Get("ecu") && row.Get("pid") == other.Get("pid");
  }

  lemma CanonicalReads(row: Row)
    ensures TimeOf(Canonical(row)) == TimeOf(row)
    ensures forall n :: n != "time" ==> Canonical(row).Get(n) == row.Get(n)
  {
    if TimeOf(row).Some? {
      var t := row.fields["time"].s;
      ParseThenFormat(t);
      FormatThenParse(TimeOf(row).value.0, TimeOf(row).value.1);
    }
  }

  lemma EmitsEmitted(s: Session, shown: seq<Row>)
    requires Sound(s, {}, shown)
    ensures Explains(Emitted(EntriesOf(s)), shown)
    ensures Run(EntriesOf(s)).heap == Recovered(EntriesOf(s), s.pending)
  {
    hide Run, Undo, Undoable, Recovered, QueuedItems, AllReadable, OpenRuns, LastTimes, WaitingOk;
    WaitingRepeatsArePending(EntriesOf(s), s.pending);
  }

  lemma LastQueuedIsLast(es: seq<Entry>, more: seq<Entry>)
    requires Run(es).heap != [] && Run(more).heap != []
    requires Run(es).heap[|Run(es).heap| - 1] == Run(more).heap[|Run(more).heap| - 1]
    ensures Emitted(es) != [] && Emitted(more) != []
    ensures Emitted(es)[|Emitted(es)| - 1] == Emitted(more)[|Emitted(more)| - 1]
  {
    hide Run;
  }

  ghost predicate LastOutAlike(es: seq<Entry>, more: seq<Entry>) {
    Emitted(es) != [] && Emitted(more) != []
    && Emitted(es)[|Emitted(es)| - 1] == Emitted(more)[|Emitted(more)| - 1]
  }

  lemma InlineMisplaced(s: Session, rows: seq<Row>, h: nat, rep: Repeat, shown: seq<Row>)
    requires Sound(s, {}, shown) && TailTells(s, rows) && rows != []
    requires h < |s.stored| && s.inlined[h] && s.tail != Some(h)
    ensures LastOutAlike(EntriesOf(s), AddInline(EntriesOf(s), h, rep))
  {
    hide AllReadable, OpenRuns, LastTimes, WaitingOk, Emits, RunKey, TimeOf, Run;
    var es := EntriesOf(s);
    var more := AddInline(es, h, rep);
    if h < |es| - 1 {
      EarlyInlineEndsAlike(es, h, rep);
      AlikeEmitAlike(es, more);
    } else {
      PendingIsUndoable(s, shown);
      EmitsEmitted(s, shown);
      LastInlineKeepsHeap(es, rep);
      LastQueuedIsLast(es, more);
    }
  }

  lemma QueuedMisplaced(s: Session, h: nat, rep: Repeat, shown: seq<Row>)
    requires Sound(s, {}, shown) && h < |s.stored| && !s.inlined[h]
    requires var es := EntriesOf(s); var key := Key(At(rep.at), h, |es[h].repeats|);
      LaterRowsBefore(es, h, key) && exists i :: 0 <= i < |s.pending| && !Before(s.pending[i].key, key)
    ensures LastOutAlike(EntriesOf(s), AddRepeat(EntriesOf(s), h, rep))
  {
    hide AllReadable, OpenRuns, LastTimes, WaitingOk, Explains, Run;
    var es := EntriesOf(s);
    var key := Key(At(rep.at), h, |es[h].repeats|);
    PendingIsUndoable(s, shown);
    EmitsEmitted(s, shown);
    var w := s.pending[|s.pending| - 1];
    if Before(w.key, key) {
      TailIsPlaced(es, s.pending, key);
    }
    assert IsRunTail(es, w);
    KeysCompare(w.key, key);
    AddRepeatQueuesIt(es, h, rep);
    InsertKeepsLast(Run(es).heap, Queued(key, rep.row));
    LastQueuedIsLast(es, AddRepeat(es, h, rep));
  }

  lemma MergedMisplaced(s: Session, row: Row, rep: Repeat, shown: seq<Row>)
    requires Sound(s, {}, shown) && Joins(s, row) && rep.at == TimeOf(row).value.0
    requires var h := s.open[RunKey(row)]; !Continues(s, h) && !ComesOutHere(s, h, row)
    ensures LastOutAlike(EntriesOf(s), AddRepeat(EntriesOf(s), s.open[RunKey(row)], rep))
  {
    hide AllReadable, OpenRuns, LastTimes, WaitingOk, Emits, RunKey, TimeOf, Shape, Run;
    var h, es := s.open[RunKey(row)], EntriesOf(s);
    PendingIsUndoable(s, shown);
    GapsAreRepeats(s, h);
    if LaterRowsBefore(es, h, MergedKey(s, h, row)) {
      assert forall j :: h < j < |s.stored| ==> es[j].row == s.stored[j];
      QueuedMisplaced(s, h, rep, shown);
    } else {
      EarlyRepeatEndsAlike(es, h, rep);
      AlikeEmitAlike(es, AddRepeat(es, h, rep));
    }
  }

  /** A repeat that does not come out in place is not the row that comes out last. */
  lemma MisplacedEndsAlike(s: Session, rows: seq<Row>, row: Row, shown: seq<Row>)
    requires Sound(s, {}, shown) && TailTells(s, rows) && rows != []
    requires Joins(s, row) && !ComesOutHere(s, s.open[RunKey(row)], row)
    ensures FoldInto(s, row).Shaped()
      && AllReadable(FoldInto(s, row).stored, FoldInto(s, row).gaps, FoldInto(s, row).inlined)
    ensures LastOutAlike(EntriesOf(s), EntriesOf(FoldInto(s, row)))
  {
    FoldEntries(s, row);
    hide AllReadable, OpenRuns, LastTimes, WaitingOk, Emits, RunKey, TimeOf, Shape, FoldInto, TailTells, MergedKey;
    var h, es := s.open[RunKey(row)], EntriesOf(s);
    var rep := NewRepeat(s.stored[h], row);
    if Continues(s, h) {
      InlineMisplaced(s, rows, h, rep, shown);
    } else {
      MergedMisplaced(s, row, rep, shown);
    }
  }

  // ---------- the folder's decisions ----------

  /** What is written for `s` expands to `shown`. */
  ghost predicate ExpandsAs(s: Session, shown: seq<Row>)
    requires s.Shaped()
  {
    Expand(ResultOf(s)).Success? && Explains(Expand(ResultOf(s)).value, shown)
  }

  /** Appending `row` to its open run expands to `shown` followed by it. */
  ghost predicate ComesBack(s: Session, row: Row, shown: seq<Row>)
    requires s.Shaped()
  {
    Joins(s, row) && FoldInto(s, row).Shaped() && ExpandsAs(FoldInto(s, row), shown + [Canonical(row)])
  }

  lemma ExpandsAsEmitted(s: Session, shown: seq<Row>)
    requires s.Shaped() && AllReadable(s.stored, s.gaps, s.inlined)
    ensures ExpandsAs(s, shown) <==> Explains(Emitted(EntriesOf(s)), shown)
  {
    hide Expand, AllReadable, ResultOf, EntriesOf;
    ResultExpands(s);
  }

  lemma JoinsIffMarked(s: Session, row: Row)
    requires s.Shaped()
    ensures Joins(s, row) <==> TimeOf(row).Some? && OpenMark(s, RunKey(row)) == Some(MarkOf(row))
  {
    hide RunKey;
  }

  /** Nothing holds a run open but its last row: a row joins one exactly when it continues its run. */
  lemma JoinsIffContinues(rows: seq<Row>, row: Row)
    ensures Joins(AddAll(rows), row) <==> ContinuesRun(rows + [row], |rows|)
  {
    AddAllMarks(rows);
    JoinsIffMarked(AddAll(rows), row);
    hide AddAll, LastMark, RunKey, OpenMark, MarkOf, TimeOf, PendingMarked, Joins;
    assert (rows + [row])[..|rows|] == rows;
  }

  lemma ShownLast(rows: seq<Row>)
    requires rows != []
    ensures var last, shown := rows[|rows| - 1], Shown(rows, HeldAsRepeat(rows));
      shown[|shown| - 1] == last || shown[|shown| - 1] == Canonical(last)
  {
    hide Canonical, HeldAsRepeat;
  }

  lemma LastExplained(es: seq<Entry>, more: seq<Entry>, shown: seq<Row>, row: Row)
    requires LastOutAlike(es, more) && Explains(Emitted(es), shown) && Explains(Emitted(more), shown + [row])
    ensures shown != [] && SameDict(shown[|shown| - 1], row)
  {
    hide Emitted;
  }

  lemma MisplacedShows(rows: seq<Row>, row: Row)
    requires (forall i :: 0 <= i < |rows| ==> IsPlain(rows[i])) && rows != []
    requires Joins(AddAll(rows), row) && !CanFold(AddAll(rows), row)
    ensures !ComesBack(AddAll(rows), row, Shown(rows, HeldAsRepeat(rows)))
  {
    var s, shown := AddAll(rows), Shown(rows, HeldAsRepeat(rows));
    AddAllIsSound(rows);
    LastRowTells(rows);
    MisplacedEndsAlike(s, rows, row, shown);
    EmitsEmitted(s, shown);
    ExpandsAsEmitted(FoldInto(s, row), shown + [Canonical(row)]);
    hide AddAll, Shown, Emitted, FoldInto, ExpandsAs, TailTells, Sound, PendingAreLast, ComesOutHere, AllReadable,
      HeldAsRepeat, Explains, RunKey, TimeOf, Canonical, EntriesOf;
    if ComesBack(s, row, shown) {
      LastExplained(EntriesOf(s), EntriesOf(FoldInto(s, row)), shown, Canonical(row));
      SameAsLast(rows, row);
      SameTimeIsPlaced(s, rows, row, shown);
    }
  }

  lemma SameAsLast(rows: seq<Row>, row: Row)
    requires rows != []
    requires var shown := Shown(rows, HeldAsRepeat(rows)); SameDict(shown[|shown| - 1], Canonical(row))
    ensures RunKey(rows[|rows| - 1]) == RunKey(row) && TimeOf(rows[|rows| - 1]) == TimeOf(row)
  {
    ShownLast(rows);
    hide Shown, HeldAsRepeat, RunKey, TimeOf, Canonical;
    var last := rows[|rows| - 1];
    CanonicalKeepsRun(last, Canonical(row));
    CanonicalKeepsRun(row, Canonical(row));
  }

  lemma FoldedExpands(rows: seq<Row>, row: Row)
    requires (forall i :: 0 <= i < |rows| ==> IsPlain(rows[i])) && IsPlain(row) && CanFold(AddAll(rows), row)
    ensures ComesBack(AddAll(rows), row, Shown(rows, HeldAsRepeat(rows)))
  {
    var s, shown := AddAll(rows), Shown(rows, HeldAsRepeat(rows));
    AddAllIsSound(rows);
    FoldKeeps(s, row, shown);
    EmitsEmitted(FoldInto(s, row), shown + [Canonical(row)]);
    ExpandsAsEmitted(FoldInto(s, row), shown + [Canonical(row)]);
  }

  /**
    A row is folded exactly when it agrees with the last row of its ECU and PID in every other field and
    in precision, and appending it to that run expands to the rows so far followed by it.
   */
  lemma FoldsIffItComesBack(rows: seq<Row>, row: Row)
    requires (forall i :: 0 <= i < |rows| ==> IsPlain(rows[i])) && IsPlain(row)
    ensures CanFold(AddAll(rows), row) <==>
      ContinuesRun(rows + [row], |rows|) && ComesBack(AddAll(rows), row, Shown(rows, HeldAsRepeat(rows)))
    ensures ContinuesRun(rows + [row], |rows|) <==> Joins(AddAll(rows), row)
  {
    hide *;
    JoinsIffContinues(rows, row);
    NoRunYet(row);
    FoldableJoins(AddAll(rows), row);
    if CanFold(AddAll(rows), row) {
      FoldedExpands(rows, row);
    } else if Joins(AddAll(rows), row) {
      MisplacedShows(rows, row);
    }
  }

  lemma FoldableJoins(s: Session, row: Row)
    requires s.Shaped()
    ensures CanFold(s, row) ==> Joins(s, row)
  {
  }

  lemma NoRunYet(row: Row)
    ensures !Joins(AddAll([]), row)
  {
  }

  // ---------- unfolding ----------

  lemma {:induction false} ReadyKeepsLast(heap: seq<Queued>, key: Key)
    requires heap != [] && !Before(heap[|heap| - 1].key, key)
    ensures Ready(heap, key) < |heap|
  {
    if |heap| > 1 {
      ReadyKeepsLast(heap[1..], key);
    }
  }

  lemma StoredBelowPending(es: seq<Entry>, row: Row)
    requires var heap := Run(es).heap; heap != [] && !Before(heap[|heap| - 1].key, RowKey(row, |es|))
    ensures LastOutAlike(es, es + [Poll(row, [], false)])
  {
    var heap, more := Run(es).heap, es + [Poll(row, [], false)];
    RunOneMore(es, Poll(row, [], false));
    ReadyKeepsLast(heap, RowKey(row, |es|));
    hide RowKey, Before;
    assert Run(more).heap == heap[Ready(heap, RowKey(row, |es|))..];
    LastQueuedIsLast(es, more);
  }

  lemma RunTailKey(es: seq<Entry>, ws: seq<Waiting>)
    requires ws != [] && Undoable(es, ws)
    ensures var w := ws[|ws| - 1]; w.key.pos == w.h < |es|
  {
    assert IsRunTail(es, ws[|ws| - 1]);
  }

  lemma EarlierKey(key: Key, w: Row, row: Row, pos: nat)
    requires HasTimeOf(key, w) && TimeOf(w) == TimeOf(row) && key.pos < pos
    ensures Before(key, RowKey(row, pos))
  {
  }

  /** A pending repeat comes out before a row with its time that is stored now. */
  lemma SameTimeNeedsNoUnfold(s: Session, rows: seq<Row>, row: Row)
    requires s.Shaped() && TailTells(s, rows) && PendingAreLast(s, rows)
    requires Undoable(EntriesOf(s), s.pending) && rows != [] && TimeOf(rows[|rows| - 1]) == TimeOf(row)
    ensures !MustUnfold(s, row)
  {
    hide RunKey, TimeOf, Undoable, HasTimeOf, Before, RowKey, Continues;
    if s.pending != [] {
      var w := s.pending[|s.pending| - 1];
      RunTailKey(EntriesOf(s), s.pending);
      EarlierKey(w.key, w.row, row, |s.stored|);
    }
  }

  lemma SameTimeAsLast(rows: seq<Row>, row: Row)
    requires rows != []
    requires var shown := Shown(rows, HeldAsRepeat(rows)); SameDict(shown[|shown| - 1], row)
    ensures TimeOf(rows[|rows| - 1]) == TimeOf(row)
  {
    ShownLast(rows);
    hide Shown, HeldAsRepeat, RunKey, TimeOf, Canonical;
    CanonicalKeepsRun(rows[|rows| - 1], row);
  }

  lemma NeededUnfoldShows(rows: seq<Row>, row: Row)
    requires (forall i :: 0 <= i < |rows| ==> IsPlain(rows[i])) && IsPlain(row) && MustUnfold(AddAll(rows), row)
    ensures !ExpandsAs(StoreOne(AddAll(rows), row), Shown(rows, HeldAsRepeat(rows)) + [row])
  {
    var s, shown := AddAll(rows), Shown(rows, HeldAsRepeat(rows));
    AddAllIsSound(rows);
    LastRowTells(rows);
    EmitsEmitted(s, shown);
    PendingIsUndoable(s, shown);
    StoreEntries(s, row);
    ExpandsAsEmitted(StoreOne(s, row), shown + [row]);
    PendingHeap(s, row);
    hide *;
    StoredBelowPending(EntriesOf(s), row);
    if ExpandsAs(StoreOne(s, row), shown + [row]) {
      LastExplained(EntriesOf(s), EntriesOf(StoreOne(s, row)), shown, row);
      SameTimeAsLast(rows, row);
      SameTimeNeedsNoUnfold(s, rows, row);
    }
  }

  lemma PendingHeap(s: Session, row: Row)
    requires s.Shaped() && MustUnfold(s, row) && Undoable(EntriesOf(s), s.pending)
    requires Run(EntriesOf(s)).heap == Recovered(EntriesOf(s), s.pending)
    ensures |EntriesOf(s)| == |s.stored|
    ensures var heap := Run(EntriesOf(s)).heap; heap != [] && !Before(heap[|heap| - 1].key, RowKey(row, |s.stored|))
  {
    hide Run, Undoable, Recovered, Before, RowKey;
  }

  lemma NeedlessUnfoldIsNone(rows: seq<Row>, row: Row)
    requires (forall i :: 0 <= i < |rows| ==> IsPlain(rows[i])) && IsPlain(row) && !MustUnfold(AddAll(rows), row)
    ensures ExpandsAs(StoreOne(AddAll(rows), row), Shown(rows, HeldAsRepeat(rows)) + [row])
  {
    var s, shown := AddAll(rows), Shown(rows, HeldAsRepeat(rows));
    AddAllIsSound(rows);
    PendingIsUndoable(s, shown);
    PendingFlushed(s, row);
    assert {} - {RunKey(row)} == {};
    StoreOneKeeps(s, {}, row, shown);
    EmitsEmitted(StoreOne(s, row), shown + [row]);
    StoreEntries(s, row) by {
      assert AllReadable(s.stored, s.gaps, s.inlined);
    }
    hide *;
    ExpandsAsEmitted(StoreOne(s, row), shown + [row]);
  }

  lemma PendingFlushed(s: Session, row: Row)
    requires s.Shaped() && KeysAscend(s.pending) && !MustUnfold(s, row)
    ensures forall i :: 0 <= i < |s.pending| ==> Before(s.pending[i].key, RowKey(row, |s.stored|))
  {
    forall i | 0 <= i < |s.pending|
      ensures Before(s.pending[i].key, RowKey(row, |s.stored|))
    {
      if i < |s.pending| - 1 {
        BeforeChains(s.pending[i].key, s.pending[|s.pending| - 1].key, RowKey(row, |s.stored|));
      }
    }
  }

  /**
    Pending repeats are unfolded exactly when storing the row without doing so would not expand to the
    rows so far followed by it.
   */
  lemma UnfoldsIffItMust(rows: seq<Row>, row: Row)
    requires (forall i :: 0 <= i < |rows| ==> IsPlain(rows[i])) && IsPlain(row)
    ensures MustUnfold(AddAll(rows), row) <==>
      !ExpandsAs(StoreOne(AddAll(rows), row), Shown(rows, HeldAsRepeat(rows)) + [row])
  {
    hide *;
    if MustUnfold(AddAll(rows), row) {
      NeededUnfoldShows(rows, row);
    } else {
      NeedlessUnfoldIsNone(rows, row);
    }
  }
}
