/**
  How much folding saves: one stored entry for each row that is not held as a repeat, which for polls in
  turn, each later than the one before, is one for each row that starts a run.
 */
module FoldingCount {
  import opened Wrappers
  import opened CaptureRows
  import opened FoldingDecoder
  import opened FoldingMerge
  import opened FoldingState
  import opened FoldingInvariant
  import opened FoldingRuns
  import opened FoldingLaw
  import opened FoldingGreedy

  function Count(flags: seq<bool>): nat {
    if flags == [] then 0 else Count(flags[..|flags| - 1]) + if flags[|flags| - 1] then 1 else 0
  }

  lemma CountAppend(flags: seq<bool>, b: bool)
    ensures Count(flags + [b]) == Count(flags) + if b then 1 else 0
  {
    assert (flags + [b])[..|flags|] == flags;
  }

  lemma {:induction false} CountReleased(held: seq<bool>, k: nat)
    requires k <= |held| && forall i :: |held| - k <= i < |held| ==> held[i]
    ensures Count(ReleaseLast(held, k)) + k == Count(held)
  {
    if |held| == 0 {
    } else {
      var n := |held| - 1;
      var less := ReleaseLast(held, k);
      if k > 0 {
        CountReleased(held[..n], k - 1);
        assert less[..n] == ReleaseLast(held[..n], k - 1);
      } else {
        assert less == held;
      }
    }
  }

  lemma {:induction false} StoreAllCount(s: Session, ws: seq<Waiting>)
    requires s.Shaped()
    ensures |StoreAll(s, ws).stored| == |s.stored| + |ws|
    decreases |ws|
  {
    if ws != [] {
      StoreAllCount(s, ws[..|ws| - 1]);
    }
  }

  lemma StoreCount(s: Session, row: Row)
    requires s.Shaped()
    ensures |Store(s, row).stored| == |s.stored| + 1 + if MustUnfold(s, row) then |s.pending| else 0
    ensures Store(s, row).pending == []
  {
    hide MustUnfold;
    if MustUnfold(s, row) {
      StoreAllCount(Unfold(s), s.pending);
    }
  }

  /** The pending rows are held, and every row is held or stored. */
  ghost predicate Accounts(s: Session, held: seq<bool>) {
    && |s.stored| + Count(held) == |held|
    && |s.pending| <= |held|
    && forall i :: |held| - |s.pending| <= i < |held| ==> held[i]
  }

  lemma FoldAccounts(s: Session, row: Row, held: seq<bool>)
    requires s.Shaped() && CanFold(s, row) && Accounts(s, held)
    ensures Accounts(FoldInto(s, row), held + [true])
  {
    hide CanFold, Continues, RunKey, TimeOf, Count;
    CountAppend(held, true);
  }

  lemma StoreAccounts(s: Session, row: Row, held: seq<bool>)
    requires s.Shaped() && Accounts(s, held)
    ensures Accounts(Store(s, row), (if MustUnfold(s, row) then ReleaseLast(held, |s.pending|) else held) + [false])
  {
    StoreCount(s, row);
    hide Store, MustUnfold, Count, ReleaseLast;
    if MustUnfold(s, row) {
      CountReleased(held, |s.pending|);
      CountAppend(ReleaseLast(held, |s.pending|), false);
    } else {
      CountAppend(held, false);
    }
  }

  lemma AddAccounts(s: Session, row: Row, held: seq<bool>)
    requires s.Shaped() && Accounts(s, held)
    ensures Accounts(Add(s, row),
                     if CanFold(s, row) then held + [true]
                     else (if MustUnfold(s, row) then ReleaseLast(held, |s.pending|) else held) + [false])
  {
    hide Accounts, CanFold, MustUnfold, FoldInto, Store, ReleaseLast;
    if CanFold(s, row) {
      FoldAccounts(s, row, held);
    } else {
      StoreAccounts(s, row, held);
    }
  }

  lemma NoRowAccounts()
    ensures Accounts(AddAll([]), HeldAsRepeat([]))
  {
  }

  lemma {:induction false} RowsAreAccounted(rows: seq<Row>)
    ensures Accounts(AddAll(rows), HeldAsRepeat(rows))
  {
    hide *;
    if rows == [] {
      NoRowAccounts();
    } else {
      var before, row := rows[..|rows| - 1], rows[|rows| - 1];
      RowsAreAccounted(before);
      LastStep(rows);
      HeldOneMore(before, row);
      assert before + [row] == rows;
      AddAccounts(AddAll(before), row, HeldAsRepeat(before));
    }
  }

  /** Every row is stored as an entry of its own or held as a repeat. */
  lemma EveryRowIsStoredOrHeld(rows: seq<Row>)
    ensures |AddAll(rows).stored| + Count(HeldAsRepeat(rows)) == |rows|
  {
    RowsAreAccounted(rows);
    hide AddAll, HeldAsRepeat, Count;
  }

  /** The list folding returns has an entry for each row not held, unless the round-trip check fires. */
  lemma FoldedLength(rows: seq<Row>)
    requires Plain(Records(rows))
    ensures Fold(Records(rows)).Success?
    ensures |Fold(Records(rows)).value| == |rows| - if FoldsALooseTime(rows) then 0 else Count(HeldAsRepeat(rows))
  {
    EveryRowIsStoredOrHeld(rows);
    GuardPassesExactly(rows);
    RowsInRecords(rows);
    hide Plain, Expand, SameItems, FoldsALooseTime, Count, AddAll, HeldAsRepeat, RowsIn, ResultItem;
    assert |ResultOf(AddAll(rows))| == |AddAll(rows).stored|;
  }

  lemma RowsInRecords(rows: seq<Row>)
    ensures AllRows(Records(rows)) && RowsIn(Records(rows)) == rows
  {
  }

  // ---------- polls in turn ----------

  /** Every row has a readable time, later than the row before it. */
  ghost predicate Climbs(rows: seq<Row>) {
    && (forall i :: 0 <= i < |rows| ==> TimeOf(rows[i]).Some?)
    && (forall i :: 0 <= i < |rows| - 1 ==> OwnMs(rows[i]) < OwnMs(rows[i + 1]))
  }

  /** No two rows of one ECU and PID are next to each other. */
  ghost predicate TakesTurns(rows: seq<Row>) {
    forall i :: 0 <= i < |rows| - 1 ==> RunKey(rows[i]) != RunKey(rows[i + 1])
  }

  /** Nothing is inline, and nothing stored or pending is later than `t`. */
  ghost predicate UpTo(s: Session, t: int)
    requires s.Shaped()
  {
    && (forall j :: 0 <= j < |s.stored| ==> !s.inlined[j] && TimeOf(s.stored[j]).Some? && OwnMs(s.stored[j]) <= t)
    && (forall i :: 0 <= i < |s.pending| ==> TimeOf(s.pending[i].row).Some? && OwnMs(s.pending[i].row) <= t)
  }

  lemma TurnIsMerged(s: Session, rows: seq<Row>, row: Row)
    requires s.Shaped() && OpenRuns(s) && TailTells(s, rows) && rows != [] && UpTo(s, OwnMs(rows[|rows| - 1]))
    requires Joins(s, row) && RunKey(rows[|rows| - 1]) != RunKey(row)
    ensures !Continues(s, s.open[RunKey(row)])
  {
    hide RunKey, TimeOf, Shape;
  }

  lemma LaterFolds(s: Session, rows: seq<Row>, row: Row, t: int)
    requires s.Shaped() && TailTells(s, rows) && UpTo(s, t) && Joins(s, row) && t < OwnMs(row)
    requires !Continues(s, s.open[RunKey(row)])
    ensures CanFold(s, row) && UpTo(FoldInto(s, row), OwnMs(row))
  {
    hide RunKey, Shape;
  }

  lemma LaterStores(s: Session, rows: seq<Row>, row: Row, t: int)
    requires s.Shaped() && TailTells(s, rows) && UpTo(s, t) && TimeOf(row).Some? && t < OwnMs(row)
    ensures !MustUnfold(s, row) && UpTo(Store(s, row), OwnMs(row))
  {
    hide RunKey, Shape;
  }

  lemma ClimbsBefore(rows: seq<Row>)
    requires Climbs(rows) && TakesTurns(rows) && rows != []
    ensures Climbs(rows[..|rows| - 1]) && TakesTurns(rows[..|rows| - 1])
  {
  }

  /** The run of a first part of the rows continues in the whole as it does there. */
  lemma ContinuesAlike(rows: seq<Row>, n: nat, i: nat)
    requires i < n <= |rows|
    ensures ContinuesRun(rows[..n], i) <==> ContinuesRun(rows, i)
  {
    assert rows[..n][..i] == rows[..i];
  }

  lemma NothingYet(row: Row)
    requires TimeOf(row).Some?
    ensures !CanFold(EMPTY, row) && !MustUnfold(EMPTY, row) && UpTo(Store(EMPTY, row), OwnMs(row))
  {
  }

  lemma TurnIsTaken(rows: seq<Row>)
    requires rows != [] && Climbs(rows) && TakesTurns(rows) && forall i :: 0 <= i < |rows| ==> IsPlain(rows[i])
    requires var n := |rows| - 1; n > 0 ==> UpTo(AddAll(rows[..n]), OwnMs(rows[n - 1]))
    ensures var n := |rows| - 1; var s := AddAll(rows[..n]);
      && (CanFold(s, rows[n]) <==> ContinuesRun(rows, n))
      && (!CanFold(s, rows[n]) ==> !MustUnfold(s, rows[n]))
      && UpTo(Add(s, rows[n]), OwnMs(rows[n]))
  {
    var n := |rows| - 1;
    var before, row := rows[..n], rows[n];
    var s := AddAll(before);
    JoinsIffContinues(before, row);
    assert before + [row] == rows;
    if n == 0 {
      NothingYet(row);
      FoldableJoins(EMPTY, row);
      assert before == [] && AddAll([]) == EMPTY;
      hide *;
      NoRunYet(row);
    } else {
      AddAllIsSound(before);
      LastRowTells(before);
      assert before[n - 1] == rows[n - 1];
      FoldableJoins(s, row);
      hide AddAll, CanFold, Joins, FoldInto, Store, MustUnfold, TailTells, UpTo, RunKey, TimeOf, ContinuesRun,
        Continues, AllReadable, LastTimes, WaitingOk, Emits, IsPlain;
      if Joins(s, row) {
        TurnIsMerged(s, before, row);
        LaterFolds(s, before, row, OwnMs(rows[n - 1]));
      } else {
        LaterStores(s, before, row, OwnMs(rows[n - 1]));
      }
    }
  }

  /** With polls in turn, each later than the one before, exactly the rows that continue a run are held. */
  lemma {:induction false} TurnsAreHeldIff(rows: seq<Row>)
    requires Climbs(rows) && TakesTurns(rows) && forall i :: 0 <= i < |rows| ==> IsPlain(rows[i])
    ensures forall i :: 0 <= i < |rows| ==> (HeldAsRepeat(rows)[i] <==> ContinuesRun(rows, i))
    ensures rows != [] ==> UpTo(AddAll(rows), OwnMs(rows[|rows| - 1]))
  {
    if rows != [] {
      var n := |rows| - 1;
      ClimbsBefore(rows);
      TurnsAreHeldIff(rows[..n]);
      HeldInTurn(rows);
    }
  }

  lemma HeldInTurn(rows: seq<Row>)
    requires rows != [] && Climbs(rows) && TakesTurns(rows) && forall i :: 0 <= i < |rows| ==> IsPlain(rows[i])
    requires var before := rows[..|rows| - 1];
      && (forall i :: 0 <= i < |before| ==> (HeldAsRepeat(before)[i] <==> ContinuesRun(before, i)))
      && (before != [] ==> UpTo(AddAll(before), OwnMs(before[|before| - 1])))
    ensures forall i :: 0 <= i < |rows| ==> (HeldAsRepeat(rows)[i] <==> ContinuesRun(rows, i))
    ensures UpTo(AddAll(rows), OwnMs(rows[|rows| - 1]))
  {
    hide *;
    var n := |rows| - 1;
    var before := rows[..n];
    TurnIsTaken(rows);
    LastStep(rows);
    HeldOneMore(before, rows[n]);
    assert before + [rows[n]] == rows;
    forall i | 0 <= i < |rows|
      ensures HeldAsRepeat(rows)[i] <==> ContinuesRun(rows, i)
    {
      if i < n {
        ContinuesAlike(rows, n, i);
      }
    }
  }

  /** Which rows start a run. */
  function RunStarts(rows: seq<Row>): (starts: seq<bool>)
    ensures |starts| == |rows|
  {
    seq(|rows|, i requires 0 <= i < |rows| => !ContinuesRun(rows, i))
  }

  lemma {:induction false} CountOpposite(a: seq<bool>, b: seq<bool>)
    requires |a| == |b| && forall i :: 0 <= i < |a| ==> a[i] == !b[i]
    ensures Count(a) + Count(b) == |a|
  {
    if a != [] {
      CountOpposite(a[..|a| - 1], b[..|b| - 1]);
    }
  }

  /** Folding polls in turn leaves one entry for each run. */
  lemma TurnsFoldToRuns(rows: seq<Row>)
    requires Climbs(rows) && TakesTurns(rows) && Plain(Records(rows))
    requires forall i :: 0 <= i < |rows| ==> !HasLooseTime(rows[i])
    ensures Fold(Records(rows)).Success? && |Fold(Records(rows)).value| == Count(RunStarts(rows))
  {
    PlainRecords(rows);
    NoLooseTime(rows);
    FlagsAreOpposite(rows);
    hide *;
    FoldedLength(rows);
    CountOpposite(HeldAsRepeat(rows), RunStarts(rows));
  }

  lemma PlainRecords(rows: seq<Row>)
    requires Plain(Records(rows))
    ensures forall i :: 0 <= i < |rows| ==> IsPlain(rows[i])
  {
    forall i | 0 <= i < |rows|
      ensures IsPlain(rows[i])
    {
      assert !HasRepeatField(Records(rows)[i]);
    }
  }

  lemma NoLooseTime(rows: seq<Row>)
    requires forall i :: 0 <= i < |rows| ==> !HasLooseTime(rows[i])
    ensures !FoldsALooseTime(rows)
  {
    hide HasLooseTime;
  }

  lemma FlagsAreOpposite(rows: seq<Row>)
    requires Climbs(rows) && TakesTurns(rows) && forall i :: 0 <= i < |rows| ==> IsPlain(rows[i])
    ensures forall i :: 0 <= i < |rows| ==> HeldAsRepeat(rows)[i] == !RunStarts(rows)[i]
  {
    TurnsAreHeldIff(rows);
    hide ContinuesRun, HeldAsRepeat, AddAll, Climbs, TakesTurns;
  }
}
