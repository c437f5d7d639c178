/**
  The inverse law of folding: what `fold_captures` returns expands back to what it was given.
 */
module FoldingLaw {
  import opened Wrappers
  import opened ClockTime
  import opened CaptureRows
  import opened FoldingDecoder
  import opened FoldingMerge
  import opened FoldingState
  import opened FoldingInvariant
  import opened FoldingRuns

  function Records(rows: seq<Row>): seq<Item> {
    seq(|rows|, i requires 0 <= i < |rows| => Record(rows[i]))
  }

  // ---------- what the folder writes is what the decoder reads ----------

  lemma RemoveLastName(names: seq<string>, name: string)
    requires name !in names
    ensures RemoveName(names + [name], name) == names
    ensures RemoveName(names, name) == names
  {
    if names != [] {
      assert (names + [name])[1..] == names[1..] + [name];
      RemoveLastName(names[1..], name);
    }
  }

  lemma PlainRowIsKept(row: Row)
    requires IsPlain(row)
    ensures row.Without(MERGED_FIELD).Without(INLINE_FIELD) == row
  {
    RemoveLastName(row.names, MERGED_FIELD);
    RemoveLastName(row.names, INLINE_FIELD);
  }

  lemma AddThenRemove(row: Row, f: string, g: string, v: Value)
    requires f !in row.names && g !in row.names && f != g
    ensures row.With(f, v).Without(f).Without(g) == row
    ensures row.With(f, v).Without(g).Without(f) == row
  {
    hide RemoveName;
    RemoveLastName(row.names, f);
    RemoveLastName(row.names, g);
    RemoveLastName(row.names + [f], g);
    assert row.fields[f := v] - {f} - {g} == row.fields;
    assert row.fields[f := v] - {g} - {f} == row.fields;
  }

  lemma AddedFieldIsRemoved(row: Row, field: string, v: Value)
    requires IsPlain(row) && (field == MERGED_FIELD || field == INLINE_FIELD)
    ensures row.With(field, v).Without(MERGED_FIELD).Without(INLINE_FIELD) == row
  {
    hide Dict.With, Dict.Without;
    AddThenRemove(row, field, if field == MERGED_FIELD then INLINE_FIELD else MERGED_FIELD, v);
  }

  lemma ResultItemIsRead(pos: nat, row: Row, gaps: seq<int>, inlined: bool)
    requires Readable(pos, row, gaps) && IsPlain(row) && (inlined ==> gaps != [])
    ensures ReadEntry(pos, ResultItem(row, gaps, inlined)) == Success(Poll(row, RepeatsOf(pos, row, gaps), inlined))
  {
    hide ReadGaps, Dict.With, Dict.Without, GapValues;
    PlainRowIsKept(row);
    if gaps != [] {
      WrittenFieldIsRead(row, gaps, inlined);
      AddedFieldIsRemoved(row, if inlined then INLINE_FIELD else MERGED_FIELD, List(GapValues(gaps)));
    } else {
      EmptyGapsAreRead(pos, row);
    }
  }

  lemma EmptyGapsAreRead(pos: nat, row: Row)
    requires IsPlain(row)
    ensures RepeatsOf(pos, row, []) == []
    ensures row.GetOr(MERGED_FIELD, Null) == Null && row.GetOr(INLINE_FIELD, Null) == Null
  {
  }

  lemma WrittenFieldIsRead(row: Row, gaps: seq<int>, inlined: bool)
    requires IsPlain(row)
    ensures var cap := row.With(if inlined then INLINE_FIELD else MERGED_FIELD, List(GapValues(gaps)));
      && cap.GetOr(INLINE_FIELD, Null) == (if inlined then List(GapValues(gaps)) else Null)
      && cap.GetOr(MERGED_FIELD, Null) == (if inlined then Null else List(GapValues(gaps)))
  {
  }

  lemma {:induction false} ReadEach(items: seq<Item>, es: seq<Entry>)
    requires |items| == |es|
    requires forall j :: 0 <= j < |items| ==> ReadEntry(j, items[j]) == Success(es[j])
    ensures ReadEntries(items) == Success(es)
  {
    hide ReadEntry;
    if items != [] {
      var n := |items| - 1;
      ReadEach(items[..n], es[..n]);
      assert es == es[..n] + [es[n]];
      ReadOneGoodEntry(items, n);
      assert items[..n + 1] == items;
    }
  }

  lemma ResultIsRead(s: Session)
    requires s.Shaped() && AllReadable(s.stored, s.gaps, s.inlined)
    ensures ReadEntries(ResultOf(s)) == Success(EntriesOf(s))
  {
    hide ReadEntry, RepeatsOf, ResultItem;
    forall j | 0 <= j < |s.stored|
      ensures ReadEntry(j, ResultOf(s)[j]) == Success(EntriesOf(s)[j])
    {
      ResultItemIsRead(j, s.stored[j], s.gaps[j], s.inlined[j]);
    }
    ReadEach(ResultOf(s), EntriesOf(s));
  }

  /** Entries without repeats expand to themselves. */
  lemma {:induction false} NothingFolded(es: seq<Entry>)
    requires forall j :: 0 <= j < |es| ==> es[j].Poll? && es[j].repeats == [] && !es[j].inlined
    ensures |Run(es).out| == |es| && Run(es).heap == []
    ensures forall j :: 0 <= j < |es| ==> Run(es).out[j] == Record(es[j].row)
  {
    hide RowKey;
    if es != [] {
      NothingFolded(es[..|es| - 1]);
    }
  }

  lemma PlainResultIsStored(s: Session)
    requires s.Shaped() && AllReadable(s.stored, s.gaps, s.inlined) && Plain(ResultOf(s))
    ensures ResultOf(s) == Run(EntriesOf(s)).out + QueuedItems(Run(EntriesOf(s)).heap)
  {
    forall j | 0 <= j < |s.stored|
      ensures s.gaps[j] == [] && RepeatsOf(j, s.stored[j], s.gaps[j]) == []
    {
      assert !HasRepeatField(ResultOf(s)[j]);
    }
    NothingFolded(EntriesOf(s));
    assert QueuedItems([]) == [];
  }

  /** What the folder holds always expands, and to the merge of its entries. */
  lemma ResultExpands(s: Session)
    requires s.Shaped() && AllReadable(s.stored, s.gaps, s.inlined)
    ensures Expand(ResultOf(s)) == Success(Run(EntriesOf(s)).out + QueuedItems(Run(EntriesOf(s)).heap))
  {
    hide Run, RepeatsOf, ResultItem, ReadEntry, QueuedItems, HasRepeatField;
    ResultIsRead(s);
    if Plain(ResultOf(s)) {
      PlainResultIsStored(s);
    }
  }

  /**
    For every row list, expanding what the folder holds gives exactly those rows, in order; the
    rows held as repeats have their time written canonically.
   */
  lemma FolderRoundTrips(rows: seq<Row>)
    requires Plain(Records(rows))
    ensures Expand(ResultOf(AddAll(rows))).Success?
    ensures Explains(Expand(ResultOf(AddAll(rows))).value, Shown(rows, HeldAsRepeat(rows)))
  {
    hide Run, EntriesOf, AllReadable, Undo, Undoable, Recovered, Expand, AddAll, OpenRuns, LastTimes, WaitingOk,
      Shown, HeldAsRepeat;
    forall i | 0 <= i < |rows|
      ensures IsPlain(rows[i])
    {
      assert !HasRepeatField(Records(rows)[i]);
    }
    AddAllIsSound(rows);
    ResultExpands(AddAll(rows));
    WaitingRepeatsArePending(EntriesOf(AddAll(rows)), AddAll(rows).pending);
  }

  /** A row with a loose time is held as a repeat. */
  predicate FoldsALooseTime(rows: seq<Row>) {
    exists i :: 0 <= i < |rows| && HeldAsRepeat(rows)[i] && HasLooseTime(rows[i])
  }

  /** The round-trip guard passes exactly when no folded row has a loose time. */
  lemma GuardPassesExactly(rows: seq<Row>)
    requires Plain(Records(rows))
    ensures Expand(ResultOf(AddAll(rows))).Success?
    ensures SameItems(Expand(ResultOf(AddAll(rows))).value, Records(rows)) <==> !FoldsALooseTime(rows)
  {
    hide Expand, ResultOf, AddAll, SameDict, HasLooseTime, Canonical, HeldAsRepeat;
    FolderRoundTrips(rows);
    var out := Expand(ResultOf(AddAll(rows))).value;
    forall i | 0 <= i < |rows|
      ensures SameItem(out[i], Records(rows)[i]) <==> !(HeldAsRepeat(rows)[i] && HasLooseTime(rows[i]))
    {
      SameAsShown(out[i].row, rows[i], HeldAsRepeat(rows)[i]);
    }
    if !SameItems(out, Records(rows)) {
      var i :| 0 <= i < |rows| && !SameItem(out[i], Records(rows)[i]);
      assert FoldsALooseTime(rows);
    }
  }

  /** It can fail: two polls at a time ending in a newline, the second held as a repeat. */
  lemma GuardCanFire()
    ensures var poll: Row := Dict(["time"], map["time" := Text("12:00:00\n")]);
      Plain(Records([poll, poll])) && FoldsALooseTime([poll, poll])
  {
    hide FormatMs, FoldInto;
    var poll: Row := Dict(["time"], map["time" := Text("12:00:00\n")]);
    var rows := [poll, poll];
    LoosePollParses();
    var s := AddAll([poll]);
    assert AddAll([]) == EMPTY;
    assert [poll][..0] == [];
    assert s == StoreOne(EMPTY, poll);
    assert CanFold(s, poll);
    assert rows[..1] == [poll];
    assert HeldAsRepeat(rows)[1];
  }

  lemma LoosePollParses()
    ensures ParseMs("12:00:00\n") == Some((43_200_000, false))
  {
    var t := "12:00:00\n";
    assert EndsInNewline(t) && t[..|t| - 1] == "12:00:00";
    assert ReadTwo("12:00:00", 0) == 12 && ReadTwo("12:00:00", 3) == 0 && ReadTwo("12:00:00", 6) == 0;
  }

  lemma SameAsShown(a: Row, row: Row, held: bool)
    requires SameDict(a, if held then Canonical(row) else row)
    ensures SameDict(a, row) <==> !(held && HasLooseTime(row))
  {
    CanonicalChangesOnlyLooseTimes(row);
  }

  /** Without loose times the guard never fires. */
  lemma GuardNeverFires(rows: seq<Row>)
    requires Plain(Records(rows))
    requires forall i :: 0 <= i < |rows| ==> !HasLooseTime(rows[i])
    ensures Expand(ResultOf(AddAll(rows))).Success?
    ensures SameItems(Expand(ResultOf(AddAll(rows))).value, Records(rows))
  {
    hide HasLooseTime, SameItems, Expand;
    GuardPassesExactly(rows);
  }

  /** The guard passes when no loose time is on a row that continues the run of its ECU and PID. */
  lemma GuardPassesOnRunStarts(rows: seq<Row>)
    requires Plain(Records(rows))
    requires forall i :: 0 <= i < |rows| && HasLooseTime(rows[i]) ==> !ContinuesRun(rows, i)
    ensures Expand(ResultOf(AddAll(rows))).Success?
    ensures SameItems(Expand(ResultOf(AddAll(rows))).value, Records(rows))
  {
    hide HasLooseTime, SameItems, Expand, ContinuesRun;
    GuardPassesExactly(rows);
    if FoldsALooseTime(rows) {
      var i :| 0 <= i < |rows| && HeldAsRepeat(rows)[i] && HasLooseTime(rows[i]);
      HeldContinuesRun(rows, i);
    }
  }

  /** It fires when a loose time is on a row that directly follows the start of its run. */
  lemma GuardFiresAfterRunStart(rows: seq<Row>, i: nat)
    requires Plain(Records(rows)) && i < |rows| && HasLooseTime(rows[i]) && FollowsRunStart(rows, i)
    ensures Expand(ResultOf(AddAll(rows))).Success?
    ensures !SameItems(Expand(ResultOf(AddAll(rows))).value, Records(rows))
  {
    hide HasLooseTime, SameItems, Expand, FollowsRunStart;
    GuardPassesExactly(rows);
    FollowerIsHeld(rows, i);
  }

  // ---------- the public law ----------

  predicate AllRows(items: seq<Item>) {
    forall i :: 0 <= i < |items| ==> items[i].Record?
  }

  function RowsIn(items: seq<Item>): (rows: seq<Row>)
    requires AllRows(items)
    ensures Records(rows) == items
  {
    seq(|items|, i requires 0 <= i < |items| => items[i].row)
  }

  /** Expanding `stored` gives lists equal to `items`. */
  predicate ExpandsTo(stored: seq<Item>, items: seq<Item>) {
    Expand(stored).Success? && SameItems(Expand(stored).value, items)
  }

  function Fold(items: seq<Item>): Result<seq<Item>, FormatError> {
    if !AllRows(items) then Success(items)
    else if !Plain(items) then Failure(AlreadyFolded)
    else
      var folded := ResultOf(AddAll(RowsIn(items)));
      if |folded| == |items| then Success(items)
      else
        match Expand(folded)
        case Failure(e) => Failure(e)
        case Success(out) => Success(if SameItems(out, items) then folded else items)
  }

  lemma PlainExpandsToItself(items: seq<Item>)
    requires Plain(items)
    ensures ExpandsTo(items, items)
  {
  }

  /**
    Folding then expanding gives the captures back exactly when none of them carries a repeat
    field. A list of rows that does is refused; one with an entry that is not a row is passed
    through unfolded, and then expansion changes it or fails.
   */
  lemma FoldThenExpand(items: seq<Item>)
    ensures Fold(items).Success? && ExpandsTo(Fold(items).value, items) <==> Plain(items)
  {
    hide Expand, AddAll, ResultOf, HasRepeatField;
    if Plain(items) {
      PlainExpandsToItself(items);
      if AllRows(items) {
        FolderRoundTrips(RowsIn(items));
      }
    } else if !AllRows(items) {
      if ExpandsTo(items, items) {
        ExpandIsPlain(items);
        SameItemsArePlain(Expand(items).value, items);
      }
    }
  }

  /** A bare entry beside a row with a gap list: folding leaves the list as it is, and expansion changes it. */
  lemma FoldThenExpandCanFail()
    ensures var poll: Row := Dict(["time"], map["time" := Text("12:00:00")]);
      var folded := poll.With(MERGED_FIELD, List([]));
      && Fold([Bare(0), Record(folded)]) == Success([Bare(0), Record(folded)])
      && Expand([Bare(0), Record(folded)]) == Success([Bare(0), Record(poll)])
      && !ExpandsTo([Bare(0), Record(folded)], [Bare(0), Record(folded)])
  {
    var poll: Row := Dict(["time"], map["time" := Text("12:00:00")]);
    var folded := poll.With(MERGED_FIELD, List([]));
    StrictPollParses();
    hide ParseMs;
    assert IsPlain(poll);
    PassedThroughAndChanged(0, poll, folded);
  }

  lemma PassedThroughAndChanged(id: int, poll: Row, folded: Row)
    requires IsPlain(poll) && TimeOf(poll).Some? && folded == poll.With(MERGED_FIELD, List([]))
    ensures var items := [Bare(id), Record(folded)];
      && Fold(items) == Success(items) && Expand(items) == Success([Bare(id), Record(poll)])
      && !ExpandsTo(items, items)
  {
    var items := [Bare(id), Record(folded)];
    var out := [Bare(id), Record(poll)];
    BareIsPassedThrough(id, folded);
    FieldIsDropped(id, poll, folded);
    hide Fold, Expand, Dict.With;
    assert !SameItem(out[1], items[1]);
  }

  lemma BareIsPassedThrough(id: int, row: Row)
    ensures Fold([Bare(id), Record(row)]) == Success([Bare(id), Record(row)])
  {
    hide Plain, AddAll, ResultOf, Expand;
    assert ![Bare(id), Record(row)][0].Record?;
  }

  lemma FieldIsDropped(id: int, poll: Row, folded: Row)
    requires IsPlain(poll) && TimeOf(poll).Some? && folded == poll.With(MERGED_FIELD, List([]))
    ensures Expand([Bare(id), Record(folded)]) == Success([Bare(id), Record(poll)])
    ensures MERGED_FIELD in folded.fields && MERGED_FIELD !in poll.fields
  {
    AddedFieldIsRemoved(poll, MERGED_FIELD, List([]));
    EmptyListIsRead(poll, folded);
    hide ReadEntry, Dict.Without;
    TwoItemsExpand(id, poll, folded);
  }

  lemma TwoItemsExpand(id: int, poll: Row, folded: Row)
    requires HasRepeatField(Record(folded)) && ReadEntry(1, Record(folded)) == Success(Poll(poll, [], false))
    ensures Expand([Bare(id), Record(folded)]) == Success([Bare(id), Record(poll)])
  {
    var items, es := [Bare(id), Record(folded)], [Foreign(id), Poll(poll, [], false)];
    assert ReadEntry(0, items[0]) == Success(es[0]);
    assert HasRepeatField(items[1]);
    hide ReadEntry, Run, HasRepeatField, QueuedItems;
    ReadEach(items, es);
    TwoEntriesRun(id, poll);
    hide ReadEntries;
    NothingQueued([Bare(id), Record(poll)]);
  }

  lemma NothingQueued(out: seq<Item>)
    ensures out + QueuedItems([]) == out
  {
    assert QueuedItems([]) == [];
  }

  lemma EmptyListIsRead(poll: Row, folded: Row)
    requires IsPlain(poll) && TimeOf(poll).Some? && folded == poll.With(MERGED_FIELD, List([]))
    requires folded.Without(MERGED_FIELD).Without(INLINE_FIELD) == poll
    ensures ReadEntry(1, Record(folded)) == Success(Poll(poll, [], false))
  {
    WrittenFieldIsRead(poll, [], false);
    assert GapValues([]) == [];
    hide Dict.With, Dict.Without;
  }

  lemma StrictPollParses()
    ensures ParseMs("12:00:00").Some?
  {
    var t := "12:00:00";
    assert ReadTwo(t, 0) == 12 && ReadTwo(t, 3) == 0 && ReadTwo(t, 6) == 0;
  }

  lemma TwoEntriesRun(id: int, row: Row)
    ensures var r := Run([Foreign(id), Poll(row, [], false)]); r.out == [Bare(id), Record(row)] && r.heap == []
  {
    var es := [Foreign(id), Poll(row, [], false)];
    assert es[..1] == [Foreign(id)] && es[..1][..0] == [];
    assert Run(es[..1]).out == [Bare(id)] && Run(es[..1]).heap == [];
  }

  lemma SameItemsArePlain(a: seq<Item>, b: seq<Item>)
    requires SameItems(a, b) && Plain(a)
    ensures Plain(b)
  {
    forall i | 0 <= i < |b|
      ensures !HasRepeatField(b[i])
    {
      assert SameItem(a[i], b[i]) && !HasRepeatField(a[i]);
    }
  }
}
