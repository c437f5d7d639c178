/**
  The one-pass folding of a session's rows, as functions on the folder's state, and the invariant
  that ties the state to the rows added so far: expanding it gives those rows back.
 */
module FoldingState {
  import opened Wrappers
  import opened ClockTime
  import opened CaptureRows
  import opened FoldingDecoder
  import opened FoldingMerge

  // ---------- gap lists ----------

  function GapValues(gaps: seq<int>): seq<Value> {
    seq(|gaps|, i requires 0 <= i < |gaps| => Int(gaps[i]))
  }

  /** A row's own milliseconds, 0 when it has no readable time. */
  function OwnMs(row: Row): int {
    match TimeOf(row) case Some(t) => t.0 case None => 0
  }

  ghost predicate Readable(pos: nat, row: Row, gaps: seq<int>) {
    match TimeOf(row)
    case None => gaps == []
    case Some(t) => ReadGaps(pos, row, t.0, t.1, GapValues(gaps)).Success?
  }

  ghost function RepeatsOf(pos: nat, row: Row, gaps: seq<int>): (r: seq<Repeat>)
    ensures Readable(pos, row, gaps) ==> |r| == |gaps|
  {
    match TimeOf(row)
    case None => []
    case Some(t) =>
      match ReadGaps(pos, row, t.0, t.1, GapValues(gaps))
      case Success(rs) => rs
      case Failure(_) => []
  }

  lemma ReadGapsOneMore(pos: nat, row: Row, start: int, hasMs: bool, gaps: seq<int>, at: int)
    requires ReadGaps(pos, row, start, hasMs, GapValues(gaps)).Success?
    requires FormatMs(at, hasMs).Some?
    ensures var rs := ReadGaps(pos, row, start, hasMs, GapValues(gaps)).value;
      ReadGaps(pos, row, start, hasMs, GapValues(gaps + [at - LastAt(start, rs)]))
        == Success(rs + [Repeat(at, row.With("time", Text(FormatMs(at, hasMs).value)))])
  {
    hide FormatMs;
    var rs := ReadGaps(pos, row, start, hasMs, GapValues(gaps)).value;
    var more := GapValues(gaps + [at - LastAt(start, rs)]);
    assert more[..|gaps|] == GapValues(gaps) && more[|gaps|] == Int(at - LastAt(start, rs));
    assert NextRepeat(pos, |gaps|, row, LastAt(start, rs), hasMs, more[|gaps|])
        == Success(Repeat(at, row.With("time", Text(FormatMs(at, hasMs).value))));
  }

  lemma RepeatsAre(pos: nat, row: Row, gaps: seq<int>, rs: seq<Repeat>)
    requires TimeOf(row).Some?
    requires ReadGaps(pos, row, OwnMs(row), TimeOf(row).value.1, GapValues(gaps)) == Success(rs)
    ensures Readable(pos, row, gaps) && RepeatsOf(pos, row, gaps) == rs
  {
  }

  lemma GapAppended(pos: nat, row: Row, gaps: seq<int>, rs: seq<Repeat>, gap: int, at: int, time: string)
    requires Readable(pos, row, gaps) && TimeOf(row).Some? && rs == RepeatsOf(pos, row, gaps)
    requires gap == at - LastAt(OwnMs(row), rs)
    requires FormatMs(at, TimeOf(row).value.1) == Some(time)
    ensures Readable(pos, row, gaps + [gap])
    ensures RepeatsOf(pos, row, gaps + [gap]) == rs + [Repeat(at, row.With("time", Text(time)))]
  {
    hide FormatMs, ReadGaps, LastAt, Dict.With;
    ReadGapsOneMore(pos, row, OwnMs(row), TimeOf(row).value.1, gaps, at);
    RepeatsAre(pos, row, gaps + [gap], rs + [Repeat(at, row.With("time", Text(time)))]);
  }

  lemma GapPopped(pos: nat, row: Row, gaps: seq<int>)
    requires Readable(pos, row, gaps) && gaps != []
    ensures Readable(pos, row, gaps[..|gaps| - 1])
    ensures RepeatsOf(pos, row, gaps[..|gaps| - 1]) == RepeatsOf(pos, row, gaps)[..|gaps| - 1]
  {
    assert GapValues(gaps)[..|gaps| - 1] == GapValues(gaps[..|gaps| - 1]);
  }

  /** The repeat a row of `first`'s run decodes to: `first` with the row's time. */
  ghost function NewRepeat(first: Row, row: Row): (rep: Repeat)
    requires TimeOf(row).Some? && TimeOf(first).Some? && Shape(row) == Shape(first)
    ensures FormatMs(TimeOf(row).value.0, TimeOf(row).value.1).Some?
    ensures rep == Repeat(TimeOf(row).value.0,
                          first.With("time", Text(FormatMs(TimeOf(row).value.0, TimeOf(row).value.1).value)))
    ensures SameDict(rep.row, Canonical(row))
  {
    RestampedFirstRow(first, row);
    Repeat(TimeOf(row).value.0,
           first.With("time", Text(FormatMs(TimeOf(row).value.0, TimeOf(row).value.1).value)))
  }

  // ---------- what the folder's lists stand for ----------

  ghost predicate AllReadable(stored: seq<Row>, gaps: seq<seq<int>>, inlined: seq<bool>) {
    && |stored| == |gaps| == |inlined|
    && (forall j :: 0 <= j < |stored| ==> Readable(j, stored[j], gaps[j]))
    && (forall j :: 0 <= j < |stored| ==> !HasRepeatField(Record(stored[j])))
    && (forall j :: 0 <= j < |stored| && inlined[j] ==> gaps[j] != [])
  }

  ghost function Entries(stored: seq<Row>, gaps: seq<seq<int>>, inlined: seq<bool>): (es: seq<Entry>)
    requires |stored| == |gaps| == |inlined|
    ensures |es| == |stored|
    ensures forall j :: 0 <= j < |es| ==> es[j] == Poll(stored[j], RepeatsOf(j, stored[j], gaps[j]), inlined[j])
  {
    seq(|stored|, j requires 0 <= j < |stored| => Poll(stored[j], RepeatsOf(j, stored[j], gaps[j]), inlined[j]))
  }

  /** `out` is the list of rows `shown`, up to the order of their fields. */
  predicate Explains(out: seq<Item>, shown: seq<Row>) {
    && |out| == |shown|
    && forall i :: 0 <= i < |out| ==> out[i].Record? && SameDict(out[i].row, shown[i])
  }

  /** The entries, less the waiting repeats, decode to the earlier rows; the waiting ones follow. */
  ghost predicate Emits(es: seq<Entry>, ws: seq<Waiting>, shown: seq<Row>) {
    && Undoable(es, ws) && KeysAscend(ws)
    && Run(Undo(es, ws)).heap == []
    && |ws| <= |shown|
    && Explains(Run(Undo(es, ws)).out + QueuedItems(Recovered(es, ws)), shown)
  }

  lemma NothingToUndo(es: seq<Entry>)
    ensures Undoable(es, []) && Undo(es, []) == es && Recovered(es, []) == []
  {
  }

  lemma EmitsInline(es: seq<Entry>, shown: seq<Row>, rep: Repeat, row: Row)
    requires Emits(es, [], shown)
    requires es != [] && es[|es| - 1].Poll? && (es[|es| - 1].inlined || es[|es| - 1].repeats == [])
    requires SameDict(rep.row, row)
    ensures var n := |es| - 1;
      Emits(es[n := Poll(es[n].row, es[n].repeats + [rep], true)], [], shown + [row])
  {
    hide Undo, Undoable, Recovered, Run;
    var n := |es| - 1;
    var more := es[n := Poll(es[n].row, es[n].repeats + [rep], true)];
    NothingToUndo(es);
    NothingToUndo(more);
    FoldInline(es, rep);
    assert Run(es).out + QueuedItems([]) == Run(es).out;
    assert Run(more).out + QueuedItems([]) == Run(more).out;
  }

  lemma ExplainsOneMore(out: seq<Item>, heap: seq<Queued>, q: Queued, shown: seq<Row>, row: Row)
    requires Explains(out + QueuedItems(heap), shown)
    requires SameDict(q.row, row)
    ensures Explains(out + QueuedItems(heap + [q]), shown + [row])
  {
    assert QueuedItems(heap + [q]) == QueuedItems(heap) + [Record(q.row)];
    assert out + QueuedItems(heap + [q]) == (out + QueuedItems(heap)) + [Record(q.row)];
  }

  lemma KeysAscendOneMore(ws: seq<Waiting>, w: Waiting)
    requires KeysAscend(ws) && forall i :: 0 <= i < |ws| ==> Before(ws[i].key, w.key)
    ensures KeysAscend(ws + [w])
  {
  }

  lemma EmitsMerged(es: seq<Entry>, ws: seq<Waiting>, shown: seq<Row>, rep: Repeat, w: Waiting, row: Row)
    requires Emits(es, ws, shown)
    requires w.h < |es| && es[w.h].Poll? && !es[w.h].inlined
    requires w.key == Key(At(rep.at), w.h, |es[w.h].repeats|)
    requires LaterRowsBefore(es, w.h, w.key)
    requires forall i :: 0 <= i < |ws| ==> Before(ws[i].key, w.key)
    requires SameDict(rep.row, row)
    ensures Emits(AddRepeat(es, w.h, rep), ws + [w], shown + [row])
  {
    FoldOneMore(es, ws, rep, w);
    var more, ws' := AddRepeat(es, w.h, rep), ws + [w];
    KeysAscendOneMore(ws, w);
    ExplainsOneMore(Run(Undo(es, ws)).out, Recovered(es, ws), Queued(w.key, rep.row), shown, row);
    assert Explains(Run(Undo(more, ws')).out + QueuedItems(Recovered(more, ws')), shown + [row]);
  }

  lemma RunAfterStore(es: seq<Entry>, ws: seq<Waiting>, row: Row)
    requires Undoable(es, ws) && KeysAscend(ws) && Run(Undo(es, ws)).heap == []
    requires forall i :: 0 <= i < |ws| ==> Before(ws[i].key, RowKey(row, |es|))
    ensures Run(es + [Poll(row, [], false)])
         == Merge(Run(Undo(es, ws)).out + QueuedItems(Recovered(es, ws)) + [Record(row)], [])
  {
    hide Undo, Undoable, RowKey, Before, Run, QueuedItems;
    WaitingRepeatsArePending(es, ws);
    StoreFlushes(es, row);
  }

  lemma EmitsStored(es: seq<Entry>, ws: seq<Waiting>, shown: seq<Row>, row: Row)
    requires Emits(es, ws, shown)
    requires forall i :: 0 <= i < |ws| ==> Before(ws[i].key, RowKey(row, |es|))
    ensures Emits(es + [Poll(row, [], false)], [], shown + [row])
  {
    hide Undo, Undoable, Recovered, RowKey, Before, Run;
    NothingToUndo(es + [Poll(row, [], false)]);
    RunAfterStore(es, ws, row);
    var out := Run(es + [Poll(row, [], false)]).out;
    assert out + QueuedItems([]) == out;
  }

  lemma EmitsUndone(es: seq<Entry>, ws: seq<Waiting>, shown: seq<Row>)
    requires Emits(es, ws, shown)
    ensures Emits(Undo(es, ws), [], shown[..|shown| - |ws|])
  {
    var out := Run(Undo(es, ws)).out;
    assert out + QueuedItems([]) == out;
    assert out == (out + QueuedItems(Recovered(es, ws)))[..|out|];
  }

  /** One gap more on row `h`: its entry gets one repeat more, every other entry is as it was. */
  lemma GapExtends(stored: seq<Row>, gaps: seq<seq<int>>, inlined: seq<bool>, h: nat, gap: int, direct: bool,
                   rep: Repeat)
    requires AllReadable(stored, gaps, inlined) && h < |stored|
    requires inlined[h] ==> direct
    requires Readable(h, stored[h], gaps[h] + [gap])
    requires RepeatsOf(h, stored[h], gaps[h] + [gap]) == RepeatsOf(h, stored[h], gaps[h]) + [rep]
    ensures var es := Entries(stored, gaps, inlined);
      var gaps' := gaps[h := gaps[h] + [gap]];
      var inlined' := inlined[h := direct];
      && AllReadable(stored, gaps', inlined')
      && Entries(stored, gaps', inlined') == es[h := Poll(stored[h], es[h].repeats + [rep], direct)]
  {
    hide Readable, RepeatsOf;
  }

  // ---------- the state, and one step of the pass ----------

  datatype Session = Session(
    stored: seq<Row>,
    gaps: seq<seq<int>>,                // per stored row, its repeat gaps
    inlined: seq<bool>,                 // per stored row, whether its repeats are inline
    lastMs: seq<int>,                   // per stored row, absolute time of its run's last poll
    open: map<(Value, Value), nat>,     // run key -> the stored row a repeat may fold into
    tail: Option<nat>,                  // the stored row whose run the previous row ended
    pending: seq<Waiting>)              // merged repeats folded since the last stored row, in order
  {
    predicate Shaped() {
      && |stored| == |gaps| == |inlined| == |lastMs|
      && (forall k :: k in open ==> open[k] < |stored|)
      && (tail.Some? ==> tail.value < |stored|)
      && (forall i :: 0 <= i < |pending| ==> pending[i].h < |stored|)
    }
  }

  const EMPTY := Session([], [], [], [], map[], None, [])

  /** The previous row ended `h`'s run, and `h` has inline repeats or none at all. */
  predicate Continues(s: Session, h: nat)
    requires s.Shaped() && h < |s.stored|
  {
    s.inlined[h] || (s.gaps[h] == [] && s.tail == Some(h))
  }

  function MergedKey(s: Session, h: nat, row: Row): Key
    requires s.Shaped() && h < |s.stored| && TimeOf(row).Some?
  {
    Key(At(TimeOf(row).value.0), h, |s.gaps[h]|)
  }

  /** `row` is a later poll of the open run of stored row `h`: same shape, same precision. */
  predicate Repeats(s: Session, h: nat, row: Row)
    requires s.Shaped()
  {
    && RunKey(row) in s.open && s.open[RunKey(row)] == h
    && TimeOf(row).Some? && TimeOf(s.stored[h]).Some?
    && TimeOf(row).value.1 == TimeOf(s.stored[h]).value.1
    && Shape(row) == Shape(s.stored[h])
  }

  /** Expansion puts a repeat of `h` back where `row` is. */
  predicate ComesOutHere(s: Session, h: nat, row: Row)
    requires s.Shaped() && h < |s.stored| && TimeOf(row).Some?
  {
    if Continues(s, h) then s.tail == Some(h)
    else
      && (forall i :: 0 <= i < |s.pending| ==> Before(s.pending[i].key, MergedKey(s, h, row)))
      && (forall j :: h < j < |s.stored| ==> Before(RowKey(s.stored[j], j), MergedKey(s, h, row)))
  }

  /** `row` is a later poll of its open run. */
  predicate Joins(s: Session, row: Row)
    requires s.Shaped()
  {
    RunKey(row) in s.open && Repeats(s, s.open[RunKey(row)], row)
  }

  predicate CanFold(s: Session, row: Row)
    requires s.Shaped()
  {
    Joins(s, row) && ComesOutHere(s, s.open[RunKey(row)], row)
  }

  /** The row as a repeat of its open run, inline or merged as that run goes. */
  function FoldInto(s: Session, row: Row): Session
    requires s.Shaped() && Joins(s, row)
  {
    var h := s.open[RunKey(row)];
    var at := TimeOf(row).value.0;
    s.(gaps := s.gaps[h := s.gaps[h] + [at - s.lastMs[h]]],
       inlined := s.inlined[h := Continues(s, h)],
       lastMs := s.lastMs[h := at],
       tail := Some(h),
       pending := if Continues(s, h) then s.pending else s.pending + [Waiting(MergedKey(s, h, row), h, row)])
  }

  /** A new stored row; expansion emits every pending repeat before it. */
  function StoreOne(s: Session, row: Row): (r: Session)
    requires s.Shaped()
    ensures r.Shaped() && r.pending == []
  {
    var idx := |s.stored|;
    Session(s.stored + [row], s.gaps + [[]], s.inlined + [false], s.lastMs + [OwnMs(row)],
            s.open[RunKey(row) := idx], Some(idx), [])
  }

  /** The gap lists with the waiting repeats popped, last one first. */
  function PopGaps(gaps: seq<seq<int>>, ws: seq<Waiting>): (r: seq<seq<int>>)
    ensures |r| == |gaps|
    decreases |ws|
  {
    if ws == [] then gaps
    else
      var h := ws[|ws| - 1].h;
      PopGaps(if h < |gaps| && gaps[h] != [] then gaps[h := gaps[h][..|gaps[h]| - 1]] else gaps, ws[..|ws| - 1])
  }

  function Unfold(s: Session): Session {
    s.(gaps := PopGaps(s.gaps, s.pending), pending := [])
  }

  function StoreAll(s: Session, ws: seq<Waiting>): (r: Session)
    requires s.Shaped()
    ensures r.Shaped() && (s.pending == [] ==> r.pending == [])
    decreases |ws|
  {
    if ws == [] then s else StoreOne(StoreAll(s, ws[..|ws| - 1]), ws[|ws| - 1].row)
  }

  /** Some pending repeat would come out after `row`, were it stored now. */
  predicate MustUnfold(s: Session, row: Row) {
    s.pending != [] && !Before(s.pending[|s.pending| - 1].key, RowKey(row, |s.stored|))
  }

  function Store(s: Session, row: Row): (r: Session)
    requires s.Shaped()
  {
    StoreOne(if MustUnfold(s, row) then StoreAll(Unfold(s), s.pending) else s, row)
  }

  function Add(s: Session, row: Row): (r: Session)
    requires s.Shaped()
    ensures r.Shaped()
  {
    if CanFold(s, row) then FoldInto(s, row) else Store(s, row)
  }

  function AddAll(rows: seq<Row>): (r: Session)
    ensures r.Shaped()
  {
    if rows == [] then EMPTY else Add(AddAll(rows[..|rows| - 1]), rows[|rows| - 1])
  }

  /** The last `k` rows are no longer held as repeats. */
  function ReleaseLast(held: seq<bool>, k: nat): (r: seq<bool>)
    ensures |r| == |held|
  {
    seq(|held|, i requires 0 <= i < |held| => held[i] && i < |held| - k)
  }

  /** Which rows are held as repeats after adding them all; unfolding releases the pending ones. */
  function HeldAsRepeat(rows: seq<Row>): (held: seq<bool>)
    ensures |held| == |rows|
  {
    if rows == [] then []
    else
      var n := |rows| - 1;
      var s, held := AddAll(rows[..n]), HeldAsRepeat(rows[..n]);
      if CanFold(s, rows[n]) then held + [true]
      else (if MustUnfold(s, rows[n]) then ReleaseLast(held, |s.pending|) else held) + [false]
  }

  /** A stored row with its gap list written out. */
  function ResultItem(row: Row, gaps: seq<int>, inlined: bool): Item {
    if gaps == [] then Record(row)
    else Record(row.With(if inlined then INLINE_FIELD else MERGED_FIELD, List(GapValues(gaps))))
  }

  function ResultOf(s: Session): seq<Item>
    requires s.Shaped()
  {
    seq(|s.stored|, j requires 0 <= j < |s.stored| => ResultItem(s.stored[j], s.gaps[j], s.inlined[j]))
  }
}
