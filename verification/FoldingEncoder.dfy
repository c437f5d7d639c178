/**
  `Folder`, the class that folds a session's rows one at a time, and `FoldCaptures` on top of it.
  The class is proved to go through exactly the states of `FoldingState.AddAll`.
 */
module FoldingEncoder {
  import opened Wrappers
  import opened CaptureRows
  import opened FoldingDecoder
  import opened FoldingMerge
  import opened FoldingState
  import opened FoldingInvariant
  import opened FoldingLaw

  // ---------- the monotonic stack ----------

  /** `key` is not smaller than the key of any row stored after `h`. */
  ghost predicate BoundsAfter(stored: seq<Row>, h: nat, key: Key) {
    forall j :: h < j < |stored| ==> !Before(key, RowKey(stored[j], j))
  }

  ghost predicate StackOk(stored: seq<Row>, idx: seq<nat>, keys: seq<Key>) {
    && |idx| == |keys|
    && (forall i :: 0 <= i < |idx| ==> idx[i] < |stored| && keys[i] == RowKey(stored[idx[i]], idx[i]))
    && (forall i, j :: 0 <= i < j < |idx| ==> idx[i] < idx[j])
    && (forall i, j :: 0 <= i < j < |idx| ==> Before(keys[j], keys[i]))
    && (forall j :: 0 <= j < |stored| ==> Covered(stored, idx, keys, j))
  }

  /** A stack entry at or after `j` has a key at least as large as row `j`'s. */
  ghost predicate Covered(stored: seq<Row>, idx: seq<nat>, keys: seq<Key>, j: nat)
    requires |idx| == |keys| && j < |stored|
  {
    exists i :: 0 <= i < |idx| && j <= idx[i] && !Before(keys[i], RowKey(stored[j], j))
  }

  /** The first stack entry after `h` holds the largest key stored after `h`. */
  lemma FirstAboveIsLargest(stored: seq<Row>, idx: seq<nat>, keys: seq<Key>, h: nat, i: nat)
    requires StackOk(stored, idx, keys)
    requires i <= |idx| && (forall k :: 0 <= k < i ==> idx[k] <= h) && (forall k :: i <= k < |idx| ==> h < idx[k])
    ensures i == |idx| ==> |stored| <= h + 1
    ensures i < |idx| ==> BoundsAfter(stored, h, keys[i])
  {
    if h + 1 < |stored| {
      assert Covered(stored, idx, keys, h + 1);
    }
    forall j: nat | h < j < |stored|
      ensures i < |idx| && !Before(keys[i], RowKey(stored[j], j))
    {
      assert Covered(stored, idx, keys, j);
      var k :| 0 <= k < |idx| && j <= idx[k] && !Before(keys[k], RowKey(stored[j], j));
      assert i <= k;
    }
  }

  lemma CoveredAfterPush(stored: seq<Row>, idx: seq<nat>, keys: seq<Key>, row: Row, n: nat, j: nat)
    requires StackOk(stored, idx, keys) && n <= |idx| && j <= |stored|
    requires forall i :: n <= i < |idx| ==> !Before(RowKey(row, |stored|), keys[i])
    ensures Covered(stored + [row], idx[..n] + [|stored|], keys[..n] + [RowKey(row, |stored|)], j)
  {
    hide RowKey;
    var idx', keys' := idx[..n] + [|stored|], keys[..n] + [RowKey(row, |stored|)];
    var stored' := stored + [row];
    if j == |stored| {
      assert !Before(keys'[n], RowKey(stored'[j], j));
    } else {
      assert Covered(stored, idx, keys, j);
      var i :| 0 <= i < |idx| && j <= idx[i] && !Before(keys[i], RowKey(stored[j], j));
      if i < n {
        assert idx'[i] == idx[i] && keys'[i] == keys[i];
      } else {
        assert !Before(keys'[n], RowKey(stored'[j], j));
      }
    }
  }

  lemma PushOnStack(stored: seq<Row>, idx: seq<nat>, keys: seq<Key>, row: Row, n: nat)
    requires StackOk(stored, idx, keys) && n <= |idx|
    requires forall i :: 0 <= i < n ==> Before(RowKey(row, |stored|), keys[i])
    requires forall i :: n <= i < |idx| ==> !Before(RowKey(row, |stored|), keys[i])
    ensures StackOk(stored + [row], idx[..n] + [|stored|], keys[..n] + [RowKey(row, |stored|)])
  {
    hide RowKey, Covered, Before;
    forall j: nat | j <= |stored|
      ensures Covered(stored + [row], idx[..n] + [|stored|], keys[..n] + [RowKey(row, |stored|)], j)
    {
      CoveredAfterPush(stored, idx, keys, row, n, j);
    }
  }

  /** `bisect.bisect_right` on an ascending list. */
  method BisectRight(a: seq<nat>, x: nat) returns (i: nat)
    requires forall j, k :: 0 <= j < k < |a| ==> a[j] < a[k]
    ensures i <= |a| && (forall k :: 0 <= k < i ==> a[k] <= x) && (forall k :: i <= k < |a| ==> x < a[k])
  {
    var lo, hi := 0, |a|;
    while lo < hi
      invariant 0 <= lo <= hi <= |a|
      invariant forall k :: 0 <= k < lo ==> a[k] <= x
      invariant forall k :: hi <= k < |a| ==> x < a[k]
    {
      var mid := (lo + hi) / 2;
      if x < a[mid] {
        hi := mid;
      } else {
        lo := mid + 1;
      }
    }
    return lo;
  }

  class Folder {
    var stored: seq<Row>
    var gaps: seq<seq<int>>
    var inlined: seq<bool>
    var lastMs: seq<int>
    var open: map<(Value, Value), nat>
    var tail: Option<nat>
    var pending: seq<Waiting>
    // Stored-row keys as a monotonic stack (index ascending, key descending).
    var stackIdx: seq<nat>
    var stackKey: seq<Key>
    ghost var rows: seq<Row>

    function Current(): Session
      reads this
    {
      Session(stored, gaps, inlined, lastMs, open, tail, pending)
    }

    /** The folder is in the state the rows added so far lead to. */
    ghost predicate Valid()
      reads this
    {
      && Current() == AddAll(rows)
      && StackOk(stored, stackIdx, stackKey)
      && (forall i :: 0 <= i < |rows| ==> IsPlain(rows[i]))
    }

    constructor ()
      ensures Valid() && rows == []
    {
      stored, gaps, inlined, lastMs := [], [], [], [];
      open, tail, pending := map[], None, [];
      stackIdx, stackKey := [], [];
      rows := [];
    }

    /** The largest key of any row stored after `h`. */
    method MaxKeyAfter(h: nat) returns (r: Option<Key>)
      requires StackOk(stored, stackIdx, stackKey)
      ensures r.None? <==> |stored| <= h + 1
      ensures r.Some? ==> BoundsAfter(stored, h, r.value)
      ensures r.Some? ==> exists j :: h < j < |stored| && RowKey(stored[j], j) == r.value
    {
      hide RowKey, Before;
      var i := BisectRight(stackIdx, h);
      FirstAboveIsLargest(stored, stackIdx, stackKey, h, i);
      return if i < |stackIdx| then Some(stackKey[i]) else None;
    }

    /** Folds `row` into its run's stored row if expansion would put it back here. */
    method TryFold(row: Row) returns (ok: bool)
      requires Current().Shaped() && StackOk(stored, stackIdx, stackKey)
      requires forall i, j :: 0 <= i < j < |pending| ==> Before(pending[i].key, pending[j].key)
      modifies this
      ensures ok <==> CanFold(old(Current()), row)
      ensures Current() == if ok then FoldInto(old(Current()), row) else old(Current())
      ensures stored == old(stored) && stackIdx == old(stackIdx) && stackKey == old(stackKey) && rows == old(rows)
    {
      hide RunKey, TimeOf, Shape, StackOk;
      if RunKey(row) !in open {
        return false;
      }
      var h := open[RunKey(row)];
      var first := stored[h];
      var parsed, head := TimeOf(row), TimeOf(first);
      if parsed.None? || head.None? || parsed.value.1 != head.value.1 {
        return false;
      }
      if Shape(row) != Shape(first) {
        return false;
      }
      var at := parsed.value.0;
      ghost var before := Current();
      ok := FitsHere(h, at);
      assert ok <==> ComesOutHere(before, h, row);
      if !ok {
        return false;
      }
      if gaps[h] == [] && tail == Some(h) {
        inlined := inlined[h := true];
      }
      if !inlined[h] {
        pending := pending + [Waiting(Key(At(at), h, |gaps[h]|), h, row)];
      }
      assert inlined == before.inlined[h := Continues(before, h)];
      gaps := gaps[h := gaps[h] + [at - lastMs[h]]];
      lastMs := lastMs[h := at];
      tail := Some(h);
      return true;
    }

    /** A repeat of `h` at `at` would come out here: inline, or merged above everything it must follow. */
    method FitsHere(h: nat, at: int) returns (ok: bool)
      requires Current().Shaped() && StackOk(stored, stackIdx, stackKey) && h < |stored|
      requires forall i, j :: 0 <= i < j < |pending| ==> Before(pending[i].key, pending[j].key)
      ensures ok <==>
        if Continues(Current(), h) then tail == Some(h)
        else
          var key := Key(At(at), h, |gaps[h]|);
          && (forall i :: 0 <= i < |pending| ==> Before(pending[i].key, key))
          && (forall j :: h < j < |stored| ==> Before(RowKey(stored[j], j), key))
    {
      hide StackOk, RowKey;
      if inlined[h] || (gaps[h] == [] && tail == Some(h)) {
        return tail == Some(h);
      }
      var key := Key(At(at), h, |gaps[h]|);
      if pending != [] && !Before(pending[|pending| - 1].key, key) {
        return false;
      }
      var later := MaxKeyAfter(h);
      if later.Some? && !Before(later.value, key) {
        return false;
      }
      return true;
    }

    /** Stores `row`; pending repeats that would come out after it become rows of their own first. */
    method StoreRow(row: Row)
      requires Current().Shaped() && StackOk(stored, stackIdx, stackKey)
      requires pending == [] || exists shown :: Sound(Current(), {}, shown)
      modifies this
      ensures Current() == Store(old(Current()), row)
      ensures StackOk(stored, stackIdx, stackKey) && rows == old(rows)
      decreases |pending|, 1
    {
      hide RunKey, StackOk, Sound, OwnMs, RowKey, Before, StoreAll, Unfold;
      if pending != [] && !Before(pending[|pending| - 1].key, RowKey(row, |stored|)) {
        StorePending();
      }
      pending := [];
      var idx := |stored|;
      PushKey(row);
      stored := stored + [row];
      gaps := gaps + [[]];
      inlined := inlined + [false];
      lastMs := lastMs + [OwnMs(row)];
      open := open[RunKey(row) := idx];
      tail := Some(idx);
    }

    /** Undoes the pending folds and stores their rows instead. */
    method StorePending()
      requires Current().Shaped() && StackOk(stored, stackIdx, stackKey)
      requires pending != [] && exists shown :: Sound(Current(), {}, shown)
      modifies this
      ensures Current() == StoreAll(Unfold(old(Current())), old(pending))
      ensures StackOk(stored, stackIdx, stackKey) && rows == old(rows)
      decreases |pending|, 0
    {
      hide RunKey, StackOk, Sound, OwnMs, RowKey, Before, StoreOne, PopGaps;
      var unfold := pending;
      PopPending();
      pending := [];
      assert Current() == Unfold(old(Current()));
      for i := 0 to |unfold|
        invariant pending == []
        invariant Current().Shaped() && Unfold(old(Current())).Shaped()
        invariant Current() == StoreAll(Unfold(old(Current())), unfold[..i])
        invariant StackOk(stored, stackIdx, stackKey) && rows == old(rows)
      {
        assert unfold[..i + 1][..i] == unfold[..i];
        StoreRow(unfold[i].row);
      }
      assert unfold[..|unfold|] == unfold;
    }

    /** Takes the pending repeats back out of their gap lists, last one first. */
    method PopPending()
      requires Current().Shaped() && exists shown :: Sound(Current(), {}, shown)
      modifies this`gaps
      ensures gaps == PopGaps(old(gaps), pending)
    {
      hide AllReadable, Undoable, Entries, PopGaps, Sound, RunKey, KeysAscend;
      ghost var shown :| Sound(Current(), {}, shown);
      PendingIsUndoable(Current(), shown);
      var i := |pending|;
      assert pending[..i] == pending;
      while i > 0
        invariant 0 <= i <= |pending| && |stored| == |gaps| == |inlined|
        invariant AllReadable(stored, gaps, inlined)
        invariant Undoable(Entries(stored, gaps, inlined), pending[..i])
        invariant PopGaps(gaps, pending[..i]) == PopGaps(old(gaps), pending)
      {
        PopLast(stored, gaps, inlined, pending[..i]);
        i := i - 1;
        var h := pending[i].h;
        assert pending[..i + 1][..i] == pending[..i];
        gaps := gaps[h := gaps[h][..|gaps[h]| - 1]];
      }
      assert pending[..0] == [];
      PopNothing(gaps);
    }

    /** Puts the key of the row stored next on the stack, dropping every smaller key. */
    method PushKey(row: Row)
      requires StackOk(stored, stackIdx, stackKey)
      modifies this`stackIdx, this`stackKey
      ensures StackOk(stored + [row], stackIdx, stackKey)
    {
      hide RowKey;
      var key := RowKey(row, |stored|);
      ghost var n := |stackIdx|;
      while stackKey != [] && !Before(key, stackKey[|stackKey| - 1])
        invariant |stackIdx| == |stackKey| <= n
        invariant stackIdx == old(stackIdx)[..|stackIdx|] && stackKey == old(stackKey)[..|stackIdx|]
        invariant forall i :: |stackIdx| <= i < n ==> !Before(key, old(stackKey)[i])
        decreases |stackKey|
      {
        stackIdx, stackKey := stackIdx[..|stackIdx| - 1], stackKey[..|stackKey| - 1];
      }
      PushOnStack(stored, old(stackIdx), old(stackKey), row, |stackIdx|);
      stackIdx := stackIdx + [|stored|];
      stackKey := stackKey + [key];
    }

    method AddRow(row: Row)
      requires Valid() && IsPlain(row)
      modifies this
      ensures Valid() && rows == old(rows) + [row]
    {
      hide StackOk, AddAll, CanFold, FoldInto, Store, IsPlain, Sound, EntriesOf;
      AddAllIsSound(rows);
      PendingIsUndoable(Current(), Shown(rows, HeldAsRepeat(rows)));
      var ok := TryFold(row);
      if !ok {
        StoreRow(row);
      }
      AddAllOneMore(rows, row);
      rows := rows + [row];
    }

    /** The folded session. */
    method Result() returns (out: seq<Item>)
      requires Valid()
      ensures out == ResultOf(AddAll(rows))
    {
      hide ResultItem, AddAll, StackOk, IsPlain;
      out := [];
      for j := 0 to |stored|
        invariant out == ResultOf(AddAll(rows))[..j]
      {
        out := out + [ResultItem(stored[j], gaps[j], inlined[j])];
      }
    }
  }

  lemma AddAllOneMore(rows: seq<Row>, row: Row)
    ensures AddAll(rows + [row]) == Add(AddAll(rows), row)
  {
    hide Add;
    assert (rows + [row])[..|rows|] == rows;
  }

  /** Folds a session's captures for storage, or returns them as they are. */
  method FoldCaptures(items: seq<Item>) returns (r: Result<seq<Item>, FormatError>)
    ensures r == Fold(items)
    ensures r.Success? && ExpandsTo(r.value, items) <==> Plain(items)
  {
    hide AddAll, ResultOf, Expand, SameItems, HasRepeatField, ExpandsTo;
    FoldThenExpand(items);
    if exists i :: 0 <= i < |items| && !items[i].Record? {
      return Success(items);
    }
    if exists i :: 0 <= i < |items| && HasRepeatField(items[i]) {
      return Failure(AlreadyFolded);
    }
    var folder := new Folder();
    for i := 0 to |items|
      invariant fresh(folder) && folder.Valid() && folder.rows == RowsIn(items)[..i]
    {
      folder.AddRow(items[i].row);
    }
    assert RowsIn(items)[..|items|] == RowsIn(items);
    var folded := folder.Result();
    if |folded| == |items| {
      return Success(items);
    }
    FolderRoundTrips(RowsIn(items));
    var out := ExpandCaptures(folded);
    return Success(if SameItems(out.value, items) then folded else items);
  }
}
