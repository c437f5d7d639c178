/**
  Which rows can be held as repeats, told from the rows alone: only one that agrees with the row of its
  ECU and PID before it, and always one that directly follows the start of its run.
 */
module FoldingRuns {
  import opened Wrappers
  import opened CaptureRows
  import opened FoldingMerge
  import opened FoldingState

  type RunId = (Value, Value)

  /** What the polls of a run share: every field but the time, and the time's precision. */
  datatype Mark = Mark(names: seq<string>, fields: map<string, Value>, precision: Option<bool>)

  function MarkOf(row: Row): Mark {
    var shape := Shape(row);
    Mark(shape.0, shape.1, match TimeOf(row) case Some(t) => Some(t.1) case None => None)
  }

  /** The mark of the last row of a run key. */
  function LastMark(rows: seq<Row>, key: RunId): Option<Mark> {
    if rows == [] then None
    else if RunKey(rows[|rows| - 1]) == key then Some(MarkOf(rows[|rows| - 1]))
    else LastMark(rows[..|rows| - 1], key)
  }

  /** Row `i` has a readable time and agrees with the last row before it of its ECU and PID. */
  predicate ContinuesRun(rows: seq<Row>, i: nat)
    requires i < |rows|
  {
    TimeOf(rows[i]).Some? && LastMark(rows[..i], RunKey(rows[i])) == Some(MarkOf(rows[i]))
  }

  /** Row `i` directly follows a row that starts the run it continues. */
  predicate FollowsRunStart(rows: seq<Row>, i: nat)
    requires i < |rows|
  {
    i > 0 && TimeOf(rows[i]).Some? && MarkOf(rows[i]) == MarkOf(rows[i - 1]) && !ContinuesRun(rows, i - 1)
  }

  // ---------- the open runs have the marks of the rows ----------

  function OpenMark(s: Session, key: RunId): Option<Mark>
    requires s.Shaped()
  {
    if key in s.open then Some(MarkOf(s.stored[s.open[key]])) else None
  }

  ghost predicate PendingMarked(s: Session, ws: seq<Waiting>)
    requires s.Shaped()
  {
    forall i :: 0 <= i < |ws| ==> OpenMark(s, RunKey(ws[i].row)) == Some(MarkOf(ws[i].row))
  }

  ghost predicate MarksAgree(s: Session, rows: seq<Row>)
    requires s.Shaped()
  {
    PendingMarked(s, s.pending) && forall key :: OpenMark(s, key) == LastMark(rows, key)
  }

  lemma StoreOneMarks(s: Session, row: Row, key: RunId)
    requires s.Shaped()
    ensures OpenMark(StoreOne(s, row), key) == if key == RunKey(row) then Some(MarkOf(row)) else OpenMark(s, key)
  {
  }

  /** Storing the pending rows again leaves every run with the mark it had. */
  lemma {:induction false} StoreAllMarks(s: Session, ws: seq<Waiting>, key: RunId)
    requires s.Shaped() && PendingMarked(s, ws)
    ensures OpenMark(StoreAll(s, ws), key) == OpenMark(s, key)
    decreases |ws|
  {
    if ws != [] {
      var n := |ws| - 1;
      StoreAllMarks(s, ws[..n], key);
      StoreOneMarks(StoreAll(s, ws[..n]), ws[n].row, key);
      hide OpenMark, StoreOne;
      assert OpenMark(s, RunKey(ws[n].row)) == Some(MarkOf(ws[n].row));
    }
  }

  lemma UnfoldMarks(s: Session, key: RunId)
    requires s.Shaped()
    ensures Unfold(s).Shaped() && OpenMark(Unfold(s), key) == OpenMark(s, key)
  {
  }

  lemma StoreMarks(s: Session, row: Row, key: RunId)
    requires s.Shaped() && PendingMarked(s, s.pending)
    ensures OpenMark(Store(s, row), key) == if key == RunKey(row) then Some(MarkOf(row)) else OpenMark(s, key)
  {
    if MustUnfold(s, row) {
      UnfoldMarks(s, key);
      forall i | 0 <= i < |s.pending|
        ensures OpenMark(Unfold(s), RunKey(s.pending[i].row)) == Some(MarkOf(s.pending[i].row))
      {
        UnfoldMarks(s, RunKey(s.pending[i].row));
      }
      StoreAllMarks(Unfold(s), s.pending, key);
      StoreOneMarks(StoreAll(Unfold(s), s.pending), row, key);
    } else {
      StoreOneMarks(s, row, key);
    }
  }

  lemma FoldedAgrees(s: Session, row: Row)
    requires s.Shaped() && CanFold(s, row)
    ensures OpenMark(s, RunKey(row)) == Some(MarkOf(row)) && TimeOf(row).Some?
  {
  }

  lemma FoldMarks(s: Session, row: Row, key: RunId)
    requires s.Shaped() && CanFold(s, row)
    ensures OpenMark(FoldInto(s, row), key) == OpenMark(s, key)
  {
  }

  lemma FoldPending(s: Session, row: Row)
    requires s.Shaped() && CanFold(s, row) && PendingMarked(s, s.pending)
    ensures PendingMarked(FoldInto(s, row), FoldInto(s, row).pending)
  {
    var after := FoldInto(s, row);
    FoldedAgrees(s, row);
    forall i | 0 <= i < |after.pending|
      ensures OpenMark(after, RunKey(after.pending[i].row)) == Some(MarkOf(after.pending[i].row))
    {
      FoldMarks(s, row, RunKey(after.pending[i].row));
      hide OpenMark, CanFold, MarkOf, RunKey;
    }
  }

  lemma {:induction false} AddAllMarks(rows: seq<Row>)
    ensures MarksAgree(AddAll(rows), rows)
  {
    hide OpenMark, CanFold, FoldInto, Store, RunKey, MarkOf, MustUnfold;
    if rows == [] {
      NothingOpen();
    } else {
      var before, row := rows[..|rows| - 1], rows[|rows| - 1];
      var s := AddAll(before);
      AddAllMarks(before);
      forall key
        ensures OpenMark(AddAll(rows), key) == LastMark(rows, key)
      {
        if CanFold(s, row) {
          FoldMarks(s, row, key);
          FoldedAgrees(s, row);
        } else {
          StoreMarks(s, row, key);
        }
      }
      if CanFold(s, row) {
        FoldPending(s, row);
      } else {
        StoredHasNothingPending(s, row);
      }
    }
  }

  lemma NothingOpen()
    ensures forall key :: OpenMark(EMPTY, key) == None
  {
  }

  lemma StoredHasNothingPending(s: Session, row: Row)
    requires s.Shaped()
    ensures Store(s, row).pending == []
  {
  }

  // ---------- what is held ----------

  lemma {:induction false} HeldWasFolded(rows: seq<Row>, i: nat)
    requires i < |rows| && HeldAsRepeat(rows)[i]
    ensures CanFold(AddAll(rows[..i]), rows[i])
  {
    hide CanFold, AddAll, MustUnfold;
    var n := |rows| - 1;
    if i < n {
      assert rows[..n][..i] == rows[..i];
      HeldWasFolded(rows[..n], i);
    }
  }

  /** Only a row that agrees with the one of its ECU and PID before it is held as a repeat. */
  lemma HeldContinuesRun(rows: seq<Row>, i: nat)
    requires i < |rows| && HeldAsRepeat(rows)[i]
    ensures ContinuesRun(rows, i)
  {
    HeldWasFolded(rows, i);
    AddAllMarks(rows[..i]);
    FoldedAgrees(AddAll(rows[..i]), rows[i]);
  }

  /** A row that does not continue its run is stored. */
  lemma RunStartIsStored(rows: seq<Row>)
    requires rows != [] && !ContinuesRun(rows, |rows| - 1)
    ensures AddAll(rows) == Store(AddAll(rows[..|rows| - 1]), rows[|rows| - 1])
  {
    var before, row := rows[..|rows| - 1], rows[|rows| - 1];
    AddAllMarks(before);
    if CanFold(AddAll(before), row) {
      FoldedAgrees(AddAll(before), row);
    }
  }

  lemma SharedMarks(a: Row, b: Row)
    requires MarkOf(a) == MarkOf(b)
    ensures Shape(a) == Shape(b) && RunKey(a) == RunKey(b)
    ensures TimeOf(a).Some? <==> TimeOf(b).Some?
    ensures TimeOf(a).Some? ==> TimeOf(a).value.1 == TimeOf(b).value.1
  {
    ShapeDeterminesRunKey(a, b);
  }

  /** The row stored last ends its run, and can take an inline repeat. */
  lemma StoredLast(s: Session, first: Row)
    requires s.Shaped()
    ensures var r := Store(s, first);
      && r.pending == [] && r.stored != [] && r.stored[|r.stored| - 1] == first
      && RunKey(first) in r.open && r.open[RunKey(first)] == |r.stored| - 1 && Continues(r, |r.stored| - 1)
      && r.tail == Some(|r.stored| - 1 as nat)
  {
    hide RunKey, MustUnfold, StoreAll, Unfold, OwnMs;
  }

  /** A row that agrees with it joins its run inline. */
  lemma NextJoinsInline(s: Session, first: Row, row: Row)
    requires s.Shaped() && MarkOf(first) == MarkOf(row) && TimeOf(row).Some?
    ensures CanFold(Store(s, first), row) && FoldInto(Store(s, first), row).pending == []
  {
    SharedMarks(first, row);
    StoredLast(s, first);
    hide MarkOf, Shape, RunKey, TimeOf, Store, Continues;
  }

  /** A row whose pending list is empty once it is added stays as it is held. */
  lemma {:induction false} StaysHeld(rows: seq<Row>, i: nat)
    requires i < |rows| && AddAll(rows[..i + 1]).pending == [] && HeldAsRepeat(rows[..i + 1])[i]
    ensures HeldAsRepeat(rows)[i] && |AddAll(rows).pending| < |rows| - i
  {
    hide Add, AddAll, HeldAsRepeat;
    var n := |rows| - 1;
    if i < n {
      var before := rows[..n];
      assert before[..i + 1] == rows[..i + 1];
      StaysHeld(before, i);
      LastStep(rows);
      PendingGrowsByOne(AddAll(before), rows[n]);
      NotReleased(rows, i);
    } else {
      assert rows[..i + 1] == rows;
    }
  }

  lemma NotReleased(rows: seq<Row>, i: nat)
    requires i < |rows| - 1 && HeldAsRepeat(rows[..|rows| - 1])[i]
    requires |AddAll(rows[..|rows| - 1]).pending| < |rows| - 1 - i
    ensures HeldAsRepeat(rows)[i]
  {
    hide CanFold, MustUnfold, AddAll;
  }

  lemma LastStep(rows: seq<Row>)
    requires rows != []
    ensures AddAll(rows) == Add(AddAll(rows[..|rows| - 1]), rows[|rows| - 1])
  {
    hide Add;
  }

  lemma PendingGrowsByOne(s: Session, row: Row)
    requires s.Shaped()
    ensures |Add(s, row).pending| <= |s.pending| + 1
  {
    hide CanFold, MustUnfold;
    StoredHasNothingPending(s, row);
  }

  /** A row that directly follows the start of its run is held as a repeat of it. */
  lemma FollowerIsHeld(rows: seq<Row>, i: nat)
    requires i < |rows| && FollowsRunStart(rows, i)
    ensures HeldAsRepeat(rows)[i]
  {
    hide AddAll, HeldAsRepeat, Store, CanFold, FoldInto, MarkOf, RunKey, TimeOf;
    var upTo := rows[..i + 1];
    assert upTo[..i] == rows[..i];
    StartIsStored(rows, i - 1);
    NextJoinsInline(AddAll(rows[..i - 1]), rows[i - 1], rows[i]);
    HeldAtOnce(upTo);
    StaysHeld(rows, i);
  }

  lemma StartIsStored(rows: seq<Row>, i: nat)
    requires i < |rows| && !ContinuesRun(rows, i)
    ensures AddAll(rows[..i + 1]) == Store(AddAll(rows[..i]), rows[i])
  {
    assert rows[..i + 1][..i] == rows[..i];
    RunStartIsStored(rows[..i + 1]);
    hide AddAll, Store;
  }

  lemma HeldAtOnce(rows: seq<Row>)
    requires rows != []
    requires var s, row := AddAll(rows[..|rows| - 1]), rows[|rows| - 1];
      CanFold(s, row) && FoldInto(s, row).pending == []
    ensures HeldAsRepeat(rows)[|rows| - 1] && AddAll(rows).pending == []
  {
    hide CanFold, FoldInto, MustUnfold;
  }
}
