/**
  What every step of the folding pass keeps: expanding the state gives back the rows added so
  far. The last poll time of a run may be out of date only for runs that are being unfolded.
 */
module FoldingInvariant {
  import opened Wrappers
  import opened ClockTime
  import opened CaptureRows
  import opened FoldingDecoder
  import opened FoldingMerge
  import opened FoldingState

  predicate IsPlain(row: Row) {
    !HasRepeatField(Record(row))
  }

  ghost function EntriesOf(s: Session): seq<Entry>
    requires s.Shaped()
  {
    Entries(s.stored, s.gaps, s.inlined)
  }

  ghost predicate OpenRuns(s: Session)
    requires s.Shaped()
  {
    forall k :: k in s.open ==> RunKey(s.stored[s.open[k]]) == k
  }

  /** The recorded last poll of run `h` is its last repeat's time. */
  ghost predicate LastTimeOk(s: Session, h: nat)
    requires s.Shaped() && h < |s.stored|
  {
    s.lastMs[h] == LastAt(OwnMs(s.stored[h]), RepeatsOf(h, s.stored[h], s.gaps[h]))
  }

  ghost predicate LastTimes(s: Session, stale: set<(Value, Value)>)
    requires s.Shaped()
  {
    forall k :: k in s.open && k !in stale ==> LastTimeOk(s, s.open[k])
  }

  ghost predicate WaitingOk(s: Session)
    requires s.Shaped()
  {
    forall i :: 0 <= i < |s.pending| ==>
      RunKey(s.pending[i].row) == RunKey(s.stored[s.pending[i].h]) && IsPlain(s.pending[i].row)
  }

  ghost predicate Sound(s: Session, stale: set<(Value, Value)>, shown: seq<Row>) {
    && s.Shaped()
    && AllReadable(s.stored, s.gaps, s.inlined)
    && OpenRuns(s) && LastTimes(s, stale) && WaitingOk(s)
    && Emits(EntriesOf(s), s.pending, shown)
  }

  /** A tail that could still take an inline repeat is the last stored row, with nothing pending. */
  ghost predicate TailOk(s: Session)
    requires s.Shaped()
  {
    s.tail.Some? && Continues(s, s.tail.value) ==> s.tail.value == |s.stored| - 1 && s.pending == []
  }

  // ---------- folding ----------

  /** The gap folding appends brings back exactly the new repeat. */
  lemma FoldGap(s: Session, row: Row)
    requires s.Shaped() && AllReadable(s.stored, s.gaps, s.inlined) && LastTimes(s, {})
    requires Joins(s, row)
    ensures var h := s.open[RunKey(row)];
      var more := s.gaps[h] + [TimeOf(row).value.0 - s.lastMs[h]];
      && Readable(h, s.stored[h], more)
      && RepeatsOf(h, s.stored[h], more)
         == RepeatsOf(h, s.stored[h], s.gaps[h]) + [NewRepeat(s.stored[h], row)]
  {
    hide FormatMs, ReadGaps, Dict.With, Canonical, Shape, RunKey, Readable, RepeatsOf, OwnMs, LastAt, ComesOutHere;
    var h := s.open[RunKey(row)];
    var rep := NewRepeat(s.stored[h], row);
    assert LastTimeOk(s, h);
    GapAppended(h, s.stored[h], s.gaps[h], RepeatsOf(h, s.stored[h], s.gaps[h]), rep.at - s.lastMs[h], rep.at,
                FormatMs(rep.at, TimeOf(row).value.1).value);
  }

  lemma FoldEntries(s: Session, row: Row)
    requires s.Shaped() && AllReadable(s.stored, s.gaps, s.inlined) && LastTimes(s, {})
    requires Joins(s, row)
    ensures var h := s.open[RunKey(row)];
      var s' := FoldInto(s, row);
      var es := EntriesOf(s);
      && s'.Shaped()
      && AllReadable(s'.stored, s'.gaps, s'.inlined)
      && EntriesOf(s') == es[h := Poll(es[h].row, es[h].repeats + [NewRepeat(s.stored[h], row)], Continues(s, h))]
  {
    hide FormatMs, ReadGaps, Dict.With, Canonical, Shape, RunKey, Readable, RepeatsOf, ComesOutHere, AllReadable,
      TimeOf, SameDict;
    var h := s.open[RunKey(row)];
    FoldGap(s, row);
    GapExtends(s.stored, s.gaps, s.inlined, h, TimeOf(row).value.0 - s.lastMs[h], Continues(s, h),
               NewRepeat(s.stored[h], row));
  }

  lemma FoldLastTimes(s: Session, row: Row)
    requires s.Shaped() && AllReadable(s.stored, s.gaps, s.inlined) && LastTimes(s, {})
    requires CanFold(s, row)
    ensures FoldInto(s, row).Shaped() && LastTimes(FoldInto(s, row), {})
  {
    hide FormatMs, ReadGaps, Dict.With, Canonical, Shape, RunKey, ComesOutHere, Readable, RepeatsOf;
    FoldEntries(s, row);
    var h := s.open[RunKey(row)];
    var s' := FoldInto(s, row);
    assert EntriesOf(s')[h].repeats == EntriesOf(s)[h].repeats + [NewRepeat(s.stored[h], row)];
    assert LastTimeOk(s', h);
    forall k | k in s'.open
      ensures LastTimeOk(s', s'.open[k])
    {
      assert LastTimeOk(s, s.open[k]);
    }
  }

  lemma FoldEmits(s: Session, row: Row, shown: seq<Row>)
    requires s.Shaped() && AllReadable(s.stored, s.gaps, s.inlined) && LastTimes(s, {}) && TailOk(s)
    requires Emits(EntriesOf(s), s.pending, shown)
    requires CanFold(s, row)
    ensures var s' := FoldInto(s, row); s'.Shaped() && Emits(EntriesOf(s'), s'.pending, shown + [Canonical(row)])
  {
    hide FormatMs, ReadGaps, Dict.With, Canonical, Shape, RunKey, Readable, RepeatsOf, Run, Undo, Undoable, Emits;
    FoldEntries(s, row);
    var h := s.open[RunKey(row)];
    var es := EntriesOf(s);
    var rep := NewRepeat(s.stored[h], row);
    if Continues(s, h) {
      EmitsInline(es, shown, rep, Canonical(row));
    } else {
      EmitsMerged(es, s.pending, shown, rep, Waiting(MergedKey(s, h, row), h, row), Canonical(row));
    }
  }

  lemma FoldTail(s: Session, row: Row)
    requires s.Shaped() && TailOk(s) && CanFold(s, row)
    ensures FoldInto(s, row).Shaped() && TailOk(FoldInto(s, row))
  {
    hide RunKey, Shape, TimeOf;
  }

  lemma FoldWaiting(s: Session, row: Row)
    requires s.Shaped() && OpenRuns(s) && WaitingOk(s) && CanFold(s, row) && IsPlain(row)
    ensures var s' := FoldInto(s, row); s'.Shaped() && OpenRuns(s') && WaitingOk(s')
  {
    hide RunKey, Shape, TimeOf, IsPlain, ComesOutHere, MergedKey, Continues;
    ShapeDeterminesRunKey(row, s.stored[s.open[RunKey(row)]]);
  }

  /** Folding a row keeps the invariant. */
  lemma FoldKeeps(s: Session, row: Row, shown: seq<Row>)
    requires Sound(s, {}, shown) && TailOk(s) && CanFold(s, row) && IsPlain(row)
    ensures Sound(FoldInto(s, row), {}, shown + [Canonical(row)]) && TailOk(FoldInto(s, row))
  {
    assert Joins(s, row);
    hide Emits, LastTimes, Shape, RunKey, AllReadable, OpenRuns, WaitingOk, TailOk, FoldInto, CanFold;
    FoldEntries(s, row);
    FoldLastTimes(s, row);
    FoldEmits(s, row, shown);
    FoldTail(s, row);
    FoldWaiting(s, row);
  }

  // ---------- storing ----------

  lemma StoreEntries(s: Session, row: Row)
    requires s.Shaped() && AllReadable(s.stored, s.gaps, s.inlined) && IsPlain(row)
    ensures var s' := StoreOne(s, row);
      && s'.Shaped()
      && AllReadable(s'.stored, s'.gaps, s'.inlined)
      && EntriesOf(s') == EntriesOf(s) + [Poll(row, [], false)]
      && LastTimeOk(s', |s.stored|)
  {
    assert Readable(|s.stored|, row, []) && RepeatsOf(|s.stored|, row, []) == [];
  }

  /** Storing a row above everything pending keeps the invariant, and its run is up to date again. */
  lemma StoreOneKeeps(s: Session, stale: set<(Value, Value)>, row: Row, shown: seq<Row>)
    requires Sound(s, stale, shown) && IsPlain(row)
    requires forall i :: 0 <= i < |s.pending| ==> Before(s.pending[i].key, RowKey(row, |s.stored|))
    ensures Sound(StoreOne(s, row), stale - {RunKey(row)}, shown + [row]) && TailOk(StoreOne(s, row))
  {
    hide Emits, Readable, RepeatsOf, RunKey;
    var s' := StoreOne(s, row);
    StoreEntries(s, row);
    EmitsStored(EntriesOf(s), s.pending, shown, row);
    forall k | k in s'.open && k !in stale - {RunKey(row)}
      ensures LastTimeOk(s', s'.open[k])
    {
      if k != RunKey(row) {
        assert LastTimeOk(s, s.open[k]);
      }
    }
  }

  // ---------- unfolding ----------

  lemma {:induction false} PopGapsUndoes(stored: seq<Row>, gaps: seq<seq<int>>, inlined: seq<bool>, ws: seq<Waiting>)
    requires AllReadable(stored, gaps, inlined) && Undoable(Entries(stored, gaps, inlined), ws)
    ensures AllReadable(stored, PopGaps(gaps, ws), inlined)
    ensures Entries(stored, PopGaps(gaps, ws), inlined) == Undo(Entries(stored, gaps, inlined), ws)
    decreases |ws|
  {
    if ws != [] {
      var h := ws[|ws| - 1].h;
      PopOne(stored, gaps, inlined, h);
      PopGapsUndoes(stored, gaps[h := gaps[h][..|gaps[h]| - 1]], inlined, ws[..|ws| - 1]);
    }
  }

  lemma PopOne(stored: seq<Row>, gaps: seq<seq<int>>, inlined: seq<bool>, h: nat)
    requires AllReadable(stored, gaps, inlined) && h < |stored| && !inlined[h]
    requires Entries(stored, gaps, inlined)[h].repeats != []
    ensures gaps[h] != []
    ensures var gaps' := gaps[h := gaps[h][..|gaps[h]| - 1]];
      && AllReadable(stored, gaps', inlined)
      && Entries(stored, gaps', inlined) == PopRepeat(Entries(stored, gaps, inlined), h)
  {
    hide Readable, RepeatsOf;
    GapPopped(h, stored[h], gaps[h]);
  }

  lemma PopNothing(gaps: seq<seq<int>>)
    ensures PopGaps(gaps, []) == gaps
  {
  }

  /** Popping the last waiting repeat: the rest can still be popped, to the same end. */
  lemma PopLast(stored: seq<Row>, gaps: seq<seq<int>>, inlined: seq<bool>, ws: seq<Waiting>)
    requires AllReadable(stored, gaps, inlined) && Undoable(Entries(stored, gaps, inlined), ws) && ws != []
    ensures var h := ws[|ws| - 1].h;
      && h < |gaps| && gaps[h] != []
      && var popped := gaps[h := gaps[h][..|gaps[h]| - 1]];
         && AllReadable(stored, popped, inlined)
         && Undoable(Entries(stored, popped, inlined), ws[..|ws| - 1])
         && PopGaps(popped, ws[..|ws| - 1]) == PopGaps(gaps, ws)
  {
    hide Readable, RepeatsOf, LaterRowsBefore;
    PopOne(stored, gaps, inlined, ws[|ws| - 1].h);
  }

  lemma {:induction false} PopGapsTouchesOnly(gaps: seq<seq<int>>, ws: seq<Waiting>, j: nat)
    requires j < |gaps| && forall i :: 0 <= i < |ws| ==> ws[i].h != j
    ensures PopGaps(gaps, ws)[j] == gaps[j]
    decreases |ws|
  {
    if ws != [] {
      var h := ws[|ws| - 1].h;
      PopGapsTouchesOnly(if h < |gaps| && gaps[h] != [] then gaps[h := gaps[h][..|gaps[h]| - 1]] else gaps,
                         ws[..|ws| - 1], j);
    }
  }

  function RunKeys(ws: seq<Waiting>): set<(Value, Value)> {
    set i | 0 <= i < |ws| :: RunKey(ws[i].row)
  }

  /** Popping the pending repeats leaves the rows before them, with their runs out of date. */
  lemma UnfoldKeeps(s: Session, shown: seq<Row>)
    requires Sound(s, {}, shown)
    ensures |s.pending| <= |shown| && Unfold(s).Shaped() && Unfold(s).pending == []
    ensures Sound(Unfold(s), RunKeys(s.pending), shown[..|shown| - |s.pending|])
  {
    hide Emits, RunKey, AllReadable, Undo, Undoable;
    PendingIsUndoable(s, shown);
    PopGapsUndoes(s.stored, s.gaps, s.inlined, s.pending);
    EmitsUndone(EntriesOf(s), s.pending, shown);
    var s' := Unfold(s);
    forall k | k in s'.open && k !in RunKeys(s.pending)
      ensures LastTimeOk(s', s'.open[k])
    {
      assert LastTimeOk(s, s.open[k]);
      PopGapsTouchesOnly(s.gaps, s.pending, s.open[k]);
    }
  }

  lemma PendingIsUndoable(s: Session, shown: seq<Row>)
    requires Sound(s, {}, shown)
    ensures s.Shaped() && AllReadable(s.stored, s.gaps, s.inlined)
    ensures Undoable(EntriesOf(s), s.pending) && |s.pending| <= |shown| && KeysAscend(s.pending)
    ensures forall i :: 0 <= i < |s.pending| ==> IsPlain(s.pending[i].row)
  {
    hide Run, Undo, Undoable, Recovered;
  }

  function RowsOf(ws: seq<Waiting>): (r: seq<Row>)
    ensures |r| == |ws|
  {
    seq(|ws|, i requires 0 <= i < |ws| => ws[i].row)
  }

  lemma {:induction false} StoreAllKeeps(s: Session, ws: seq<Waiting>, stale: set<(Value, Value)>, shown: seq<Row>)
    requires Sound(s, stale, shown) && s.pending == []
    requires forall i :: 0 <= i < |ws| ==> IsPlain(ws[i].row)
    ensures Sound(StoreAll(s, ws), stale - RunKeys(ws), shown + RowsOf(ws))
    ensures StoreAll(s, ws).pending == []
    decreases |ws|
  {
    hide Emits, RunKey, AllReadable, OpenRuns, LastTimes, WaitingOk, StoreOne, TailOk;
    if ws == [] {
      assert shown + RowsOf(ws) == shown;
      assert stale - RunKeys(ws) == stale;
    } else {
      var n := |ws| - 1;
      StoreAllKeeps(s, ws[..n], stale, shown);
      StoreOneKeeps(StoreAll(s, ws[..n]), stale - RunKeys(ws[..n]), ws[n].row, shown + RowsOf(ws[..n]));
      assert shown + RowsOf(ws) == shown + RowsOf(ws[..n]) + [ws[n].row];
      assert RunKeys(ws) == RunKeys(ws[..n]) + {RunKey(ws[n].row)};
      assert stale - RunKeys(ws[..n]) - {RunKey(ws[n].row)} == stale - RunKeys(ws);
    }
  }

  lemma StoreAllClears(s: Session, ws: seq<Waiting>, shown: seq<Row>)
    requires Sound(s, RunKeys(ws), shown) && s.pending == []
    requires forall i :: 0 <= i < |ws| ==> IsPlain(ws[i].row)
    ensures Sound(StoreAll(s, ws), {}, shown + RowsOf(ws))
  {
    hide Sound, StoreAll, RunKeys, RowsOf;
    StoreAllKeeps(s, ws, RunKeys(ws), shown);
    assert RunKeys(ws) - RunKeys(ws) == {};
  }

  /** The rows shown once the pending repeats are stored as rows of their own. */
  function Released(s: Session, shown: seq<Row>): seq<Row>
    requires |s.pending| <= |shown|
  {
    shown[..|shown| - |s.pending|] + RowsOf(s.pending)
  }

  lemma UnfoldedRows(s: Session, shown: seq<Row>)
    requires Sound(s, {}, shown)
    ensures |s.pending| <= |shown| && Unfold(s).Shaped()
    ensures StoreAll(Unfold(s), s.pending).pending == []
    ensures Sound(StoreAll(Unfold(s), s.pending), {}, Released(s, shown))
  {
    hide Sound, StoreAll, Unfold, IsPlain, RunKeys, RowsOf, EntriesOf;
    PendingIsUndoable(s, shown);
    UnfoldKeeps(s, shown);
    StoreAllClears(Unfold(s), s.pending, shown[..|shown| - |s.pending|]);
  }

  lemma StoreUnfolded(s: Session, row: Row, shown: seq<Row>)
    requires Sound(s, {}, shown) && IsPlain(row)
    ensures |s.pending| <= |shown| && Unfold(s).Shaped()
    ensures Sound(StoreOne(StoreAll(Unfold(s), s.pending), row), {}, Released(s, shown) + [row])
    ensures TailOk(StoreOne(StoreAll(Unfold(s), s.pending), row))
  {
    hide Sound, StoreAll, StoreOne, Unfold, Released, IsPlain, TailOk, RunKey;
    UnfoldedRows(s, shown);
    assert {} - {RunKey(row)} == {};
    StoreOneKeeps(StoreAll(Unfold(s), s.pending), {}, row, Released(s, shown));
  }

  /** Storing a row keeps the invariant: whatever would come out after it is unfolded first. */
  lemma StoreKeeps(s: Session, row: Row, shown: seq<Row>)
    requires Sound(s, {}, shown) && IsPlain(row)
    ensures Sound(Store(s, row), {}, (if MustUnfold(s, row) then Released(s, shown) else shown) + [row])
    ensures TailOk(Store(s, row))
  {
    hide Emits, RunKey, AllReadable, OpenRuns, LastTimes, StoreOne, StoreAll, WaitingOk, TailOk;
    PendingIsUndoable(s, shown);
    if MustUnfold(s, row) {
      StoreUnfolded(s, row, shown);
    } else {
      StoreOneKeeps(s, {}, row, shown);
      assert {} - {RunKey(row)} == {};
    }
  }

  lemma EmptyIsSound()
    ensures Sound(EMPTY, {}, []) && TailOk(EMPTY)
  {
    assert EntriesOf(EMPTY) == [];
  }

  // ---------- every run ----------

  /** The rows as expansion shows them: those held as repeats have their time written canonically. */
  function Shown(rows: seq<Row>, held: seq<bool>): (shown: seq<Row>)
    requires |held| == |rows|
    ensures |shown| == |rows|
  {
    seq(|rows|, i requires 0 <= i < |rows| => if held[i] then Canonical(rows[i]) else rows[i])
  }

  /** The pending repeats are the rows added last. */
  predicate PendingAreLast(s: Session, rows: seq<Row>) {
    && |s.pending| <= |rows|
    && forall i :: 0 <= i < |s.pending| ==> s.pending[i].row == rows[|rows| - |s.pending| + i]
  }

  lemma PendingStayLast(s: Session, rows: seq<Row>, row: Row)
    requires s.Shaped() && TailOk(s) && PendingAreLast(s, rows)
    ensures PendingAreLast(Add(s, row), rows + [row])
  {
    hide RunKey, Shape, TimeOf, MustUnfold;
    if CanFold(s, row) && Continues(s, s.open[RunKey(row)]) {
      assert s.pending == [];
    }
  }

  lemma ShownOneMore(rows: seq<Row>, held: seq<bool>, row: Row, h: bool)
    requires |held| == |rows|
    ensures Shown(rows + [row], held + [h]) == Shown(rows, held) + [if h then Canonical(row) else row]
  {
    hide Canonical;
  }

  lemma ShownReleased(s: Session, rows: seq<Row>, held: seq<bool>)
    requires |held| == |rows| && PendingAreLast(s, rows)
    ensures Shown(rows, ReleaseLast(held, |s.pending|)) == Released(s, Shown(rows, held))
  {
    hide Canonical;
  }

  lemma HeldOneMore(rows: seq<Row>, row: Row)
    ensures var s, held := AddAll(rows), HeldAsRepeat(rows);
      HeldAsRepeat(rows + [row]) ==
        if CanFold(s, row) then held + [true]
        else (if MustUnfold(s, row) then ReleaseLast(held, |s.pending|) else held) + [false]
  {
    hide CanFold, MustUnfold, AddAll, ReleaseLast;
    assert (rows + [row])[..|rows|] == rows;
  }

  lemma ShownAfterAdd(rows: seq<Row>, row: Row)
    requires PendingAreLast(AddAll(rows), rows)
    ensures var s, shown := AddAll(rows), Shown(rows, HeldAsRepeat(rows));
      Shown(rows + [row], HeldAsRepeat(rows + [row])) ==
        if CanFold(s, row) then shown + [Canonical(row)]
        else (if MustUnfold(s, row) then Released(s, shown) else shown) + [row]
  {
    hide CanFold, MustUnfold, AddAll, Canonical, Shown, ReleaseLast, Released, HeldAsRepeat;
    var s, held := AddAll(rows), HeldAsRepeat(rows);
    HeldOneMore(rows, row);
    if CanFold(s, row) {
      ShownOneMore(rows, held, row, true);
    } else if MustUnfold(s, row) {
      ShownReleased(s, rows, held);
      ShownOneMore(rows, ReleaseLast(held, |s.pending|), row, false);
    } else {
      ShownOneMore(rows, held, row, false);
    }
  }

  /** Every list of rows is held so that expansion gives it back. */
  lemma {:induction false} AddAllIsSound(rows: seq<Row>)
    requires forall i :: 0 <= i < |rows| ==> IsPlain(rows[i])
    ensures Sound(AddAll(rows), {}, Shown(rows, HeldAsRepeat(rows)))
    ensures TailOk(AddAll(rows)) && PendingAreLast(AddAll(rows), rows)
  {
    hide Sound, CanFold, FoldInto, Store, TailOk, HeldAsRepeat, Shown, PendingAreLast, MustUnfold, Released;
    if rows == [] {
      EmptyIsSound();
      NothingShown();
    } else {
      var n := |rows| - 1;
      AddAllIsSound(rows[..n]);
      assert rows == rows[..n] + [rows[n]];
      var s, shown := AddAll(rows[..n]), Shown(rows[..n], HeldAsRepeat(rows[..n]));
      ShownAfterAdd(rows[..n], rows[n]);
      PendingStayLast(s, rows[..n], rows[n]);
      if CanFold(s, rows[n]) {
        FoldKeeps(s, rows[n], shown);
      } else {
        StoreKeeps(s, rows[n], shown);
      }
    }
  }

  lemma NothingShown()
    ensures Shown([], HeldAsRepeat([])) == [] && PendingAreLast(EMPTY, [])
  {
  }
}
