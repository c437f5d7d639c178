/**
  What appending to a gap list does to the expansion, stated on entries rather than on the
  folder's fields: a merged repeat with a large enough key only joins the pending repeats, an
  inline repeat is emitted at once, and a stored row flushes every smaller pending repeat.
 */
module FoldingMerge {
  import opened CaptureRows
  import opened FoldingDecoder

  /** A merged repeat folded since the last stored row: its key, its run's stored row, itself. */
  datatype Waiting = Waiting(key: Key, h: nat, row: Row)

  ghost predicate KeysAscend(ws: seq<Waiting>) {
    forall i, j :: 0 <= i < j < |ws| ==> Before(ws[i].key, ws[j].key)
  }

  function AddRepeat(es: seq<Entry>, h: nat, rep: Repeat): seq<Entry>
    requires h < |es| && es[h].Poll?
  {
    es[h := es[h].(repeats := es[h].repeats + [rep])]
  }

  function PopRepeat(es: seq<Entry>, h: nat): seq<Entry>
    requires h < |es| && es[h].Poll? && es[h].repeats != []
  {
    es[h := es[h].(repeats := es[h].repeats[..|es[h].repeats| - 1])]
  }

  ghost predicate LaterRowsBefore(es: seq<Entry>, h: nat, key: Key) {
    forall j :: h < j < |es| && es[j].Poll? ==> Before(RowKey(es[j].row, j), key)
  }

  /** `w` is the last repeat of its run, and sorts after every row stored since. */
  ghost predicate IsRunTail(es: seq<Entry>, w: Waiting) {
    && w.h < |es| && es[w.h].Poll? && !es[w.h].inlined && es[w.h].repeats != []
    && w.key == Key(At(es[w.h].repeats[|es[w.h].repeats| - 1].at), w.h, |es[w.h].repeats| - 1)
    && LaterRowsBefore(es, w.h, w.key)
  }

  /** The waiting repeats are the tails of their runs: they can be popped again, last one first. */
  ghost predicate Undoable(es: seq<Entry>, ws: seq<Waiting>)
    decreases |ws|
  {
    ws == [] || (
      var w := ws[|ws| - 1];
      IsRunTail(es, w) && Undoable(PopRepeat(es, w.h), ws[..|ws| - 1]))
  }

  ghost function Undo(es: seq<Entry>, ws: seq<Waiting>): (r: seq<Entry>)
    requires Undoable(es, ws)
    ensures |r| == |es|
    decreases |ws|
  {
    if ws == [] then es else Undo(PopRepeat(es, ws[|ws| - 1].h), ws[..|ws| - 1])
  }

  /** The waiting repeats as the decoder queues them. */
  ghost function Recovered(es: seq<Entry>, ws: seq<Waiting>): (r: seq<Queued>)
    requires Undoable(es, ws)
    ensures |r| == |ws| && forall i :: 0 <= i < |ws| ==> r[i].key == ws[i].key
    decreases |ws|
  {
    if ws == [] then []
    else
      var w := ws[|ws| - 1];
      Recovered(PopRepeat(es, w.h), ws[..|ws| - 1]) + [Queued(w.key, LastRepeat(es, w.h).row)]
  }

  // ---------- insertion into the heap ----------

  lemma {:induction false} InsertPast(heap: seq<Queued>, q: Queued, key: Key)
    requires Before(key, q.key)
    ensures var n := Ready(heap, key);
      && Ready(Insert(heap, q), key) == n
      && Insert(heap, q)[..n] == heap[..n]
      && Insert(heap, q)[n..] == Insert(heap[n..], q)
  {
    var n := Ready(heap, key);
    if n > 0 {
      InsertPast(heap[1..], q, key);
      var r := Insert(heap[1..], q);
      assert Insert(heap, q) == [heap[0]] + r;
      assert heap[..n] == [heap[0]] + heap[1..][..n - 1];
      assert Insert(heap, q)[n..] == r[n - 1..];
      assert heap[n..] == heap[1..][n - 1..];
    }
  }

  lemma {:induction false} InsertsCommute(heap: seq<Queued>, a: Queued, b: Queued)
    requires a.key != b.key
    ensures Insert(Insert(heap, a), b) == Insert(Insert(heap, b), a)
  {
    if heap != [] && !Before(a.key, heap[0].key) && !Before(b.key, heap[0].key) {
      InsertsCommute(heap[1..], a, b);
    }
  }

  lemma {:induction false} PushAllCommutes(heap: seq<Queued>, q: Queued, pos: int, repeats: seq<Repeat>)
    requires q.key.pos != pos
    ensures PushAll(Insert(heap, q), pos, repeats) == Insert(PushAll(heap, pos, repeats), q)
  {
    if repeats != [] {
      var k := |repeats| - 1;
      PushAllCommutes(heap, q, pos, repeats[..k]);
      InsertsCommute(PushAll(heap, pos, repeats[..k]), q,
                     Queued(Key(At(repeats[k].at), pos, k), repeats[k].row));
    }
  }

  lemma {:induction false} InsertLargest(heap: seq<Queued>, q: Queued)
    requires forall i :: 0 <= i < |heap| ==> Before(heap[i].key, q.key)
    ensures Insert(heap, q) == heap + [q]
  {
    if heap != [] {
      InsertLargest(heap[1..], q);
    }
  }

  lemma {:induction false} AllReady(heap: seq<Queued>, key: Key)
    requires forall i :: 0 <= i < |heap| ==> Before(heap[i].key, key)
    ensures Ready(heap, key) == |heap|
  {
    if heap != [] {
      AllReady(heap[1..], key);
    }
  }

  // ---------- the four effects ----------

  lemma StepAfterInsert(m: Merge, q: Queued, pos: nat, e: Entry)
    requires q.key.pos != pos
    requires e.Poll? ==> Before(RowKey(e.row, pos), q.key)
    ensures Step(m.(heap := Insert(m.heap, q)), pos, e)
         == Step(m, pos, e).(heap := Insert(Step(m, pos, e).heap, q))
  {
    if e.Poll? {
      var key := RowKey(e.row, pos);
      InsertPast(m.heap, q, key);
      if !e.inlined {
        PushAllCommutes(m.heap[Ready(m.heap, key)..], q, pos, e.repeats);
      }
    }
  }

  lemma StepQueuesLast(m: Merge, pos: nat, e: Entry, rep: Repeat)
    requires e.Poll? && !e.inlined
    ensures var q := Queued(Key(At(rep.at), pos, |e.repeats|), rep.row);
      Step(m, pos, e.(repeats := e.repeats + [rep]))
        == Step(m, pos, e).(heap := Insert(Step(m, pos, e).heap, q))
  {
    assert (e.repeats + [rep])[..|e.repeats|] == e.repeats;
  }

  lemma AddRepeatAtTheEnd(es: seq<Entry>, rep: Repeat)
    requires es != [] && es[|es| - 1].Poll? && !es[|es| - 1].inlined
    ensures var h := |es| - 1;
      var q := Queued(Key(At(rep.at), h, |es[h].repeats|), rep.row);
      Run(AddRepeat(es, h, rep)) == Run(es).(heap := Insert(Run(es).heap, q))
  {
    var n := |es| - 1;
    assert AddRepeat(es, n, rep)[..n] == es[..n];
    StepQueuesLast(Run(es[..n]), n, es[n], rep);
  }

  lemma AddRepeatEarlier(es: seq<Entry>, h: nat, rep: Repeat, q: Queued)
    requires h < |es| - 1 && es[h].Poll? && q.key.pos == h
    requires Run(AddRepeat(es[..|es| - 1], h, rep))
          == Run(es[..|es| - 1]).(heap := Insert(Run(es[..|es| - 1]).heap, q))
    requires es[|es| - 1].Poll? ==> Before(RowKey(es[|es| - 1].row, |es| - 1), q.key)
    ensures Run(AddRepeat(es, h, rep)) == Run(es).(heap := Insert(Run(es).heap, q))
  {
    var n := |es| - 1;
    assert AddRepeat(es, h, rep)[..n] == AddRepeat(es[..n], h, rep);
    StepAfterInsert(Run(es[..n]), q, n, es[n]);
  }

  /** A merged repeat above every later row only adds itself to what is still pending. */
  lemma {:induction false} AddRepeatQueuesIt(es: seq<Entry>, h: nat, rep: Repeat)
    requires h < |es| && es[h].Poll? && !es[h].inlined
    requires LaterRowsBefore(es, h, Key(At(rep.at), h, |es[h].repeats|))
    ensures var q := Queued(Key(At(rep.at), h, |es[h].repeats|), rep.row);
      Run(AddRepeat(es, h, rep)) == Run(es).(heap := Insert(Run(es).heap, q))
    decreases |es|
  {
    if h == |es| - 1 {
      AddRepeatAtTheEnd(es, rep);
    } else {
      AddRepeatQueuesIt(es[..|es| - 1], h, rep);
      AddRepeatEarlier(es, h, rep, Queued(Key(At(rep.at), h, |es[h].repeats|), rep.row));
    }
  }

  function LastRepeat(es: seq<Entry>, h: nat): Repeat
    requires h < |es| && es[h].Poll? && es[h].repeats != []
  {
    es[h].repeats[|es[h].repeats| - 1]
  }

  /** Putting back the tail of a run queues it. */
  lemma PutBack(es: seq<Entry>, w: Waiting)
    requires IsRunTail(es, w)
    ensures var before := Run(PopRepeat(es, w.h));
      Run(es) == before.(heap := Insert(before.heap, Queued(w.key, LastRepeat(es, w.h).row)))
  {
    var rs := es[w.h].repeats;
    var before := PopRepeat(es, w.h);
    assert rs == rs[..|rs| - 1] + [rs[|rs| - 1]];
    assert AddRepeat(before, w.h, LastRepeat(es, w.h)) == es;
    AddRepeatQueuesIt(before, w.h, LastRepeat(es, w.h));
  }

  /** With the waiting repeats put back, the expansion is the same and they are what is pending. */
  lemma {:induction false} WaitingRepeatsArePending(es: seq<Entry>, ws: seq<Waiting>)
    requires Undoable(es, ws) && KeysAscend(ws)
    requires Run(Undo(es, ws)).heap == []
    ensures Run(es) == Merge(Run(Undo(es, ws)).out, Recovered(es, ws))
    decreases |ws|
  {
    if ws != [] {
      var w := ws[|ws| - 1];
      WaitingRepeatsArePending(PopRepeat(es, w.h), ws[..|ws| - 1]);
      PutBack(es, w);
      InsertLargest(Recovered(PopRepeat(es, w.h), ws[..|ws| - 1]), Queued(w.key, LastRepeat(es, w.h).row));
    }
  }

  /** Folding one more repeat: undoing it again gives the entries from before. */
  lemma FoldOneMore(es: seq<Entry>, ws: seq<Waiting>, rep: Repeat, w: Waiting)
    requires w.h < |es| && es[w.h].Poll? && !es[w.h].inlined
    requires w.key == Key(At(rep.at), w.h, |es[w.h].repeats|)
    requires LaterRowsBefore(es, w.h, w.key)
    requires Undoable(es, ws)
    ensures var more := AddRepeat(es, w.h, rep);
      && Undoable(more, ws + [w])
      && Undo(more, ws + [w]) == Undo(es, ws)
      && Recovered(more, ws + [w]) == Recovered(es, ws) + [Queued(w.key, rep.row)]
  {
    var more := AddRepeat(es, w.h, rep);
    var rs := es[w.h].repeats;
    assert (rs + [rep])[..|rs|] == rs;
    assert PopRepeat(more, w.h) == es;
    assert (ws + [w])[..|ws|] == ws;
    assert IsRunTail(more, w);
  }

  lemma StepInline(m: Merge, pos: nat, e: Entry, rep: Repeat)
    requires e.Poll? && (e.inlined || e.repeats == [])
    ensures Step(m, pos, Poll(e.row, e.repeats + [rep], true))
         == Merge(Step(m, pos, e).out + [Record(rep.row)], Step(m, pos, e).heap)
  {
    assert RepeatItems(e.repeats + [rep]) == RepeatItems(e.repeats) + [Record(rep.row)];
    var heap := m.heap;
    var n := Ready(heap, RowKey(e.row, pos));
    var front := m.out + QueuedItems(heap[..n]) + [Record(e.row)];
    assert Step(m, pos, e).out == front + RepeatItems(e.repeats);
  }

  /** A repeat that directly continues the last stored row's run is emitted at once. */
  lemma FoldInline(es: seq<Entry>, rep: Repeat)
    requires es != [] && es[|es| - 1].Poll?
    requires es[|es| - 1].inlined || es[|es| - 1].repeats == []
    requires Run(es).heap == []
    ensures var n := |es| - 1;
      Run(es[n := Poll(es[n].row, es[n].repeats + [rep], true)])
        == Merge(Run(es).out + [Record(rep.row)], [])
  {
    var n := |es| - 1;
    var more := es[n := Poll(es[n].row, es[n].repeats + [rep], true)];
    assert more[..n] == es[..n];
    StepInline(Run(es[..n]), n, es[n], rep);
  }

  /** A row stored above everything that is pending comes out after all of it. */
  lemma StoreFlushes(es: seq<Entry>, row: Row)
    requires forall i :: 0 <= i < |Run(es).heap| ==> Before(Run(es).heap[i].key, RowKey(row, |es|))
    ensures Run(es + [Poll(row, [], false)])
         == Merge(Run(es).out + QueuedItems(Run(es).heap) + [Record(row)], [])
  {
    RunOneMore(es, Poll(row, [], false));
    var heap := Run(es).heap;
    AllReady(heap, RowKey(row, |es|));
    assert heap[..|heap|] == heap && heap[|heap|..] == [];
  }
}
