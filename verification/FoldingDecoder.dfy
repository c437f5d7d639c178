/**
  Expansion of a folded session: every gap list becomes one row per poll again.

  `Expand` is the specification; `ExpandCaptures` is the one-pass loop over a heap of pending
  repeats. The heap is kept as the list of its entries in key order, so its head is its minimum.
 */
module FoldingDecoder {
  import opened Wrappers
  import opened ClockTime
  import opened CaptureRows

  const MERGED_FIELD := "repeat_ms"
  const INLINE_FIELD := "repeat_inline_ms"

  datatype FormatError =
    | AlreadyFolded
    | BothFields(pos: nat)
    | NeedsListAndTime(pos: nat)
    | GapNotInteger(pos: nat, k: nat)
    | OutsideTheDay(pos: nat, k: nat)

  /** The time a stored row sorts at; rows without a readable time sort last. */
  datatype SortTime = At(ms: int) | Untimed

  /** (time, stored position, repeat number); a stored row itself has repeat number -1. */
  datatype Key = Key(time: SortTime, pos: int, rep: int)

  predicate Before(a: Key, b: Key) {
    if a.time != b.time then a.time.At? && (b.time.At? ==> a.time.ms < b.time.ms)
    else a.pos < b.pos || (a.pos == b.pos && a.rep < b.rep)
  }

  function RowKey(row: Row, pos: int): Key {
    Key(match TimeOf(row) case Some(t) => At(t.0) case None => Untimed, pos, -1)
  }

  predicate HasRepeatField(item: Item) {
    item.Record? && (MERGED_FIELD in item.row.fields || INLINE_FIELD in item.row.fields)
  }

  datatype Repeat = Repeat(at: int, row: Row)

  /** A stored entry with its gap list read. */
  datatype Entry = Poll(row: Row, repeats: seq<Repeat>, inlined: bool) | Foreign(id: int)

  function LastAt(start: int, repeats: seq<Repeat>): int {
    if repeats == [] then start else repeats[|repeats| - 1].at
  }

  /** The repeat `gap` milliseconds after the poll at `at`. */
  function NextRepeat(pos: nat, k: nat, row: Row, at: int, hasMs: bool, gap: Value): Result<Repeat, FormatError> {
    if !gap.Int? then Failure(GapNotInteger(pos, k))
    else
      match FormatMs(at + gap.n, hasMs)
      case None => Failure(OutsideTheDay(pos, k))
      case Some(t) => Success(Repeat(at + gap.n, row.With("time", Text(t))))
  }

  /** The repeats a gap list encodes, counted from the row's own time. */
  function ReadGaps(pos: nat, row: Row, start: int, hasMs: bool, gaps: seq<Value>)
    : (r: Result<seq<Repeat>, FormatError>)
    ensures r.Success? ==> |r.value| == |gaps|
  {
    if gaps == [] then Success([])
    else
      var k := |gaps| - 1;
      match ReadGaps(pos, row, start, hasMs, gaps[..k])
      case Failure(e) => Failure(e)
      case Success(rs) =>
        match NextRepeat(pos, k, row, LastAt(start, rs), hasMs, gaps[k])
        case Failure(e) => Failure(e)
        case Success(r) => Success(rs + [r])
  }

  function Repeats(pos: nat, row: Row, gaps: Value): Result<seq<Repeat>, FormatError> {
    if TimeOf(row).None? || !gaps.List? then Failure(NeedsListAndTime(pos))
    else ReadGaps(pos, row, TimeOf(row).value.0, TimeOf(row).value.1, gaps.items)
  }

  function ReadEntry(pos: nat, item: Item): Result<Entry, FormatError> {
    match item
    case Bare(id) => Success(Foreign(id))
    case Record(cap) =>
      var row := cap.Without(MERGED_FIELD).Without(INLINE_FIELD);
      var merged := cap.GetOr(MERGED_FIELD, Null);
      var inlined := cap.GetOr(INLINE_FIELD, Null);
      if merged != Null && inlined != Null then Failure(BothFields(pos))
      else if merged == Null && inlined == Null then Success(Poll(row, [], false))
      else
        match Repeats(pos, row, if inlined != Null then inlined else merged)
        case Failure(e) => Failure(e)
        case Success(rs) => Success(Poll(row, rs, inlined != Null))
  }

  function ReadEntries(items: seq<Item>): (r: Result<seq<Entry>, FormatError>)
    ensures r.Success? ==> |r.value| == |items|
  {
    if items == [] then Success([])
    else
      var n := |items| - 1;
      match ReadEntries(items[..n])
      case Failure(e) => Failure(e)
      case Success(es) =>
        match ReadEntry(n, items[n])
        case Failure(e) => Failure(e)
        case Success(e) => Success(es + [e])
  }

  lemma {:induction false} ReadEntriesFailsEarly(items: seq<Item>, n: nat)
    requires n <= |items| && ReadEntries(items[..n]).Failure?
    ensures ReadEntries(items) == ReadEntries(items[..n])
    decreases |items|
  {
    if n < |items| {
      assert items[..|items| - 1][..n] == items[..n];
      ReadEntriesFailsEarly(items[..|items| - 1], n);
    } else {
      assert items[..n] == items;
    }
  }

  // ---------- the merge ----------

  datatype Queued = Queued(key: Key, row: Row)

  function Insert(heap: seq<Queued>, q: Queued): (r: seq<Queued>)
    ensures |r| == |heap| + 1
  {
    if heap == [] || Before(q.key, heap[0].key) then [q] + heap
    else [heap[0]] + Insert(heap[1..], q)
  }

  function PushAll(heap: seq<Queued>, pos: int, repeats: seq<Repeat>): seq<Queued> {
    if repeats == [] then heap
    else
      var k := |repeats| - 1;
      Insert(PushAll(heap, pos, repeats[..k]), Queued(Key(At(repeats[k].at), pos, k), repeats[k].row))
  }

  /** How many heap entries come out before a row with key `key`. */
  function Ready(heap: seq<Queued>, key: Key): (n: nat)
    ensures n <= |heap|
  {
    if heap == [] || !Before(heap[0].key, key) then 0 else 1 + Ready(heap[1..], key)
  }

  function QueuedItems(heap: seq<Queued>): seq<Item> {
    seq(|heap|, i requires 0 <= i < |heap| => Record(heap[i].row))
  }

  function RepeatItems(repeats: seq<Repeat>): seq<Item> {
    seq(|repeats|, i requires 0 <= i < |repeats| => Record(repeats[i].row))
  }

  /** What is emitted so far, and the repeats still pending. */
  datatype Merge = Merge(out: seq<Item>, heap: seq<Queued>)

  function Step(m: Merge, pos: nat, e: Entry): Merge {
    match e
    case Foreign(id) => m.(out := m.out + [Bare(id)])
    case Poll(row, repeats, inlined) =>
      var n := Ready(m.heap, RowKey(row, pos));
      Merge(m.out + QueuedItems(m.heap[..n]) + [Record(row)] + if inlined then RepeatItems(repeats) else [],
            if inlined then m.heap[n..] else PushAll(m.heap[n..], pos, repeats))
  }

  function Run(es: seq<Entry>): Merge {
    if es == [] then Merge([], []) else Step(Run(es[..|es| - 1]), |es| - 1, es[|es| - 1])
  }

  function Expand(items: seq<Item>): Result<seq<Item>, FormatError> {
    if forall i :: 0 <= i < |items| ==> !HasRepeatField(items[i]) then Success(items)
    else
      match ReadEntries(items)
      case Failure(e) => Failure(e)
      case Success(es) => Success(Run(es).out + QueuedItems(Run(es).heap))
  }

  // ---------- the heap is in key order, so its head is its minimum ----------

  ghost predicate InOrder(heap: seq<Queued>) {
    forall i, j :: 0 <= i < j < |heap| ==> Before(heap[i].key, heap[j].key) || heap[i].key == heap[j].key
  }

  lemma {:induction false} InsertKeepsOrder(heap: seq<Queued>, q: Queued)
    requires InOrder(heap)
    ensures InOrder(Insert(heap, q))
    ensures multiset(Insert(heap, q)) == multiset(heap) + multiset{q}
  {
    if heap != [] && !Before(q.key, heap[0].key) {
      InsertKeepsOrder(heap[1..], q);
      assert heap == [heap[0]] + heap[1..];
      var r := Insert(heap[1..], q);
      forall i | 0 <= i < |r|
        ensures Before(heap[0].key, r[i].key) || heap[0].key == r[i].key
      {
        assert r[i] in multiset(r);
        assert r[i] == q || r[i] in heap[1..];
      }
    }
  }

  /** The pending repeats come out smallest key first, whatever the stored rows are. */
  lemma {:induction false} HeapStaysInOrder(es: seq<Entry>)
    ensures InOrder(Run(es).heap)
  {
    if es != [] {
      HeapStaysInOrder(es[..|es| - 1]);
      var m, e := Run(es[..|es| - 1]), es[|es| - 1];
      if e.Poll? && !e.inlined {
        PushAllKeepsOrder(m.heap[Ready(m.heap, RowKey(e.row, |es| - 1))..], |es| - 1, e.repeats);
      }
    }
  }

  lemma {:induction false} PushAllKeepsOrder(heap: seq<Queued>, pos: int, repeats: seq<Repeat>)
    requires InOrder(heap)
    ensures InOrder(PushAll(heap, pos, repeats))
  {
    if repeats != [] {
      var k := |repeats| - 1;
      PushAllKeepsOrder(heap, pos, repeats[..k]);
      InsertKeepsOrder(PushAll(heap, pos, repeats[..k]),
                       Queued(Key(At(repeats[k].at), pos, k), repeats[k].row));
    }
  }

  /** Before a stored row, exactly the pending repeats that sort before it are emitted. */
  lemma {:induction false} ReadyIsExactlyTheSmaller(heap: seq<Queued>, key: Key)
    requires InOrder(heap)
    ensures forall i :: 0 <= i < |heap| ==> (i < Ready(heap, key) <==> Before(heap[i].key, key))
  {
    if heap != [] && Before(heap[0].key, key) {
      ReadyIsExactlyTheSmaller(heap[1..], key);
      forall i | 0 < i < |heap|
        ensures i < Ready(heap, key) <==> Before(heap[i].key, key)
      {
        assert heap[i] == heap[1..][i - 1];
      }
    }
  }

  // ---------- no expanded row carries a repeat field ----------

  predicate Plain(items: seq<Item>) {
    forall i :: 0 <= i < |items| ==> !HasRepeatField(items[i])
  }

  ghost predicate PlainEntry(e: Entry) {
    e.Poll? ==> !HasRepeatField(Record(e.row)) && Plain(RepeatItems(e.repeats))
  }

  lemma {:induction false} RepeatsArePlain(pos: nat, row: Row, start: int, hasMs: bool, gaps: seq<Value>)
    requires !HasRepeatField(Record(row))
    ensures var r := ReadGaps(pos, row, start, hasMs, gaps);
      r.Success? ==> Plain(RepeatItems(r.value))
  {
    if gaps != [] {
      RepeatsArePlain(pos, row, start, hasMs, gaps[..|gaps| - 1]);
      var r := ReadGaps(pos, row, start, hasMs, gaps);
      if r.Success? {
        var rs := ReadGaps(pos, row, start, hasMs, gaps[..|gaps| - 1]).value;
        forall i | 0 <= i < |r.value|
          ensures !HasRepeatField(RepeatItems(r.value)[i])
        {
          if i < |rs| {
            assert r.value[i] == rs[i];
            assert !HasRepeatField(RepeatItems(rs)[i]);
          }
        }
      }
    }
  }

  lemma EntryIsPlain(pos: nat, item: Item)
    requires ReadEntry(pos, item).Success?
    ensures PlainEntry(ReadEntry(pos, item).value)
  {
    if item.Record? {
      var row: Row := item.row.Without(MERGED_FIELD).Without(INLINE_FIELD);
      assert !HasRepeatField(Record(row));
      var merged := item.row.GetOr(MERGED_FIELD, Null);
      var inlined := item.row.GetOr(INLINE_FIELD, Null);
      var gaps := if inlined != Null then inlined else merged;
      if TimeOf(row).Some? && gaps.List? {
        RepeatsArePlain(pos, row, TimeOf(row).value.0, TimeOf(row).value.1, gaps.items);
      }
    }
  }

  lemma {:induction false} EntriesArePlain(items: seq<Item>)
    requires ReadEntries(items).Success?
    ensures forall i :: 0 <= i < |items| ==> PlainEntry(ReadEntries(items).value[i])
  {
    if items != [] {
      EntriesArePlain(items[..|items| - 1]);
      EntryIsPlain(|items| - 1, items[|items| - 1]);
    }
  }

  lemma {:induction false} PushAllIsPlain(heap: seq<Queued>, pos: int, repeats: seq<Repeat>)
    requires Plain(QueuedItems(heap)) && Plain(RepeatItems(repeats))
    ensures Plain(QueuedItems(PushAll(heap, pos, repeats)))
  {
    if repeats != [] {
      var k := |repeats| - 1;
      assert RepeatItems(repeats[..k]) == RepeatItems(repeats)[..k];
      PushAllIsPlain(heap, pos, repeats[..k]);
      assert !HasRepeatField(RepeatItems(repeats)[k]);
      InsertIsPlain(PushAll(heap, pos, repeats[..k]), Queued(Key(At(repeats[k].at), pos, k), repeats[k].row));
    }
  }

  lemma {:induction false} InsertIsPlain(heap: seq<Queued>, q: Queued)
    requires Plain(QueuedItems(heap)) && !HasRepeatField(Record(q.row))
    ensures Plain(QueuedItems(Insert(heap, q)))
  {
    if heap != [] && !Before(q.key, heap[0].key) {
      assert QueuedItems(heap[1..]) == QueuedItems(heap)[1..];
      InsertIsPlain(heap[1..], q);
      assert QueuedItems(Insert(heap, q)) == [QueuedItems(heap)[0]] + QueuedItems(Insert(heap[1..], q));
    } else {
      assert QueuedItems([q] + heap) == [Record(q.row)] + QueuedItems(heap);
    }
  }

  lemma StepIsPlain(m: Merge, pos: nat, e: Entry)
    requires Plain(m.out) && Plain(QueuedItems(m.heap)) && PlainEntry(e)
    ensures Plain(Step(m, pos, e).out) && Plain(QueuedItems(Step(m, pos, e).heap))
  {
    if e.Poll? {
      var n := Ready(m.heap, RowKey(e.row, pos));
      assert QueuedItems(m.heap[..n]) == QueuedItems(m.heap)[..n];
      assert QueuedItems(m.heap[n..]) == QueuedItems(m.heap)[n..];
      if !e.inlined {
        PushAllIsPlain(m.heap[n..], pos, e.repeats);
      }
    }
  }

  lemma {:induction false} RunIsPlain(es: seq<Entry>)
    requires forall i :: 0 <= i < |es| ==> PlainEntry(es[i])
    ensures Plain(Run(es).out) && Plain(QueuedItems(Run(es).heap))
  {
    if es != [] {
      RunIsPlain(es[..|es| - 1]);
      StepIsPlain(Run(es[..|es| - 1]), |es| - 1, es[|es| - 1]);
    }
  }

  /** Expansion leaves no gap list behind. */
  lemma ExpandIsPlain(items: seq<Item>)
    requires Expand(items).Success?
    ensures Plain(Expand(items).value)
  {
    if !Plain(items) {
      EntriesArePlain(items);
      RunIsPlain(ReadEntries(items).value);
    }
  }

  // ---------- the loop of the source ----------

  method ReadRepeats(pos: nat, row: Row, gaps: Value) returns (r: Result<seq<Repeat>, FormatError>)
    ensures r == Repeats(pos, row, gaps)
  {
    if TimeOf(row).None? || !gaps.List? {
      return Failure(NeedsListAndTime(pos));
    }
    var (at, hasMs) := TimeOf(row).value;
    ghost var start := at;
    var out: seq<Repeat> := [];
    for k := 0 to |gaps.items|
      invariant ReadGaps(pos, row, start, hasMs, gaps.items[..k]) == Success(out)
      invariant at == LastAt(start, out)
    {
      ReadOneGap(pos, row, start, hasMs, gaps.items, k);
      var next := NextRepeat(pos, k, row, at, hasMs, gaps.items[k]);
      if next.Failure? {
        return Failure(next.error);
      }
      at := next.value.at;
      out := out + [next.value];
    }
    assert gaps.items[..|gaps.items|] == gaps.items;
    return Success(out);
  }

  /** One more gap, read after the gaps before it; the first bad gap fails the whole list. */
  lemma ReadOneGap(pos: nat, row: Row, start: int, hasMs: bool, gaps: seq<Value>, k: nat)
    requires k < |gaps| && ReadGaps(pos, row, start, hasMs, gaps[..k]).Success?
    ensures var rs := ReadGaps(pos, row, start, hasMs, gaps[..k]).value;
      match NextRepeat(pos, k, row, LastAt(start, rs), hasMs, gaps[k])
      case Failure(e) => ReadGaps(pos, row, start, hasMs, gaps) == Failure(e)
      case Success(r) => ReadGaps(pos, row, start, hasMs, gaps[..k + 1]) == Success(rs + [r])
  {
    assert gaps[..k + 1][..k] == gaps[..k];
    if ReadGaps(pos, row, start, hasMs, gaps[..k + 1]).Failure? {
      ReadGapsFailsEarly(pos, row, start, hasMs, gaps, k + 1);
    }
  }

  lemma {:induction false} ReadGapsFailsEarly(pos: nat, row: Row, start: int, hasMs: bool, gaps: seq<Value>, n: nat)
    requires n <= |gaps| && ReadGaps(pos, row, start, hasMs, gaps[..n]).Failure?
    ensures ReadGaps(pos, row, start, hasMs, gaps) == ReadGaps(pos, row, start, hasMs, gaps[..n])
    decreases |gaps|
  {
    if n < |gaps| {
      assert gaps[..|gaps| - 1][..n] == gaps[..n];
      ReadGapsFailsEarly(pos, row, start, hasMs, gaps[..|gaps| - 1], n);
    } else {
      assert gaps[..n] == gaps;
    }
  }

  /** Emits the pending repeats that sort before `key`, smallest first. */
  method Drain(heap: seq<Queued>, key: Key) returns (out: seq<Item>, rest: seq<Queued>)
    ensures out == QueuedItems(heap[..Ready(heap, key)]) && rest == heap[Ready(heap, key)..]
  {
    out, rest := [], heap;
    ghost var n: nat := 0;
    while rest != [] && Before(rest[0].key, key)
      invariant n <= |heap| && rest == heap[n..] && out == QueuedItems(heap[..n])
      invariant n + Ready(rest, key) == Ready(heap, key)
    {
      out, rest, n := out + [Record(rest[0].row)], rest[1..], n + 1;
    }
  }

  /** Splits the gap list off a stored row and reads it. */
  method ReadStored(pos: nat, item: Item) returns (r: Result<Entry, FormatError>)
    ensures r == ReadEntry(pos, item)
  {
    if item.Bare? {
      return Success(Foreign(item.id));
    }
    var row: Row := item.row.Without(MERGED_FIELD).Without(INLINE_FIELD);
    var merged := item.row.GetOr(MERGED_FIELD, Null);
    var inlined := item.row.GetOr(INLINE_FIELD, Null);
    if merged != Null && inlined != Null {
      return Failure(BothFields(pos));
    }
    if merged == Null && inlined == Null {
      return Success(Poll(row, [], false));
    }
    var read := ReadRepeats(pos, row, if inlined != Null then inlined else merged);
    if read.Failure? {
      return Failure(read.error);
    }
    return Success(Poll(row, read.value, inlined != Null));
  }

  method PushRepeats(heap: seq<Queued>, pos: int, repeats: seq<Repeat>) returns (r: seq<Queued>)
    ensures r == PushAll(heap, pos, repeats)
  {
    r := heap;
    for k := 0 to |repeats|
      invariant r == PushAll(heap, pos, repeats[..k])
    {
      assert repeats[..k + 1][..k] == repeats[..k];
      r := Insert(r, Queued(Key(At(repeats[k].at), pos, k), repeats[k].row));
    }
    assert repeats[..|repeats|] == repeats;
  }

  lemma ReadOneGoodEntry(items: seq<Item>, j: nat)
    requires j < |items| && ReadEntries(items[..j]).Success? && ReadEntry(j, items[j]).Success?
    ensures ReadEntries(items[..j + 1])
         == Success(ReadEntries(items[..j]).value + [ReadEntry(j, items[j]).value])
  {
    assert items[..j + 1][..j] == items[..j];
  }

  lemma ReadOneBadEntry(items: seq<Item>, j: nat)
    requires j < |items| && ReadEntries(items[..j]).Success? && ReadEntry(j, items[j]).Failure?
    ensures ReadEntries(items[..j + 1]) == Failure(ReadEntry(j, items[j]).error)
  {
    assert items[..j + 1][..j] == items[..j];
  }

  lemma RunOneMore(es: seq<Entry>, e: Entry)
    ensures Run(es + [e]) == Step(Run(es), |es|, e)
  {
    assert (es + [e])[..|es|] == es;
  }

  method ExpandCaptures(stored: seq<Item>) returns (r: Result<seq<Item>, FormatError>)
    ensures r == Expand(stored)
  {
    hide FormatMs, ParseMs, ReadGaps, Before, TimeOf, ReadEntry, RowKey, Insert, PushAll, Dict.With, Dict.Without;
    if forall i :: 0 <= i < |stored| ==> !HasRepeatField(stored[i]) {
      return Success(stored);
    }
    var out: seq<Item>, heap: seq<Queued> := [], [];
    ghost var es: seq<Entry> := [];
    for j := 0 to |stored|
      invariant ReadEntries(stored[..j]) == Success(es)
      invariant Merge(out, heap) == Run(es)
    {
      var read := ReadStored(j, stored[j]);
      if read.Failure? {
        ReadOneBadEntry(stored, j);
        ReadEntriesFailsEarly(stored, j + 1);
        return Failure(read.error);
      }
      ReadOneGoodEntry(stored, j);
      RunOneMore(es, read.value);
      es := es + [read.value];
      match read.value {
        case Foreign(id) =>
          out := out + [Bare(id)];
        case Poll(row, repeats, inlined) =>
          var drained, rest := Drain(heap, RowKey(row, j));
          out := out + drained + [Record(row)] + if inlined then RepeatItems(repeats) else [];
          heap := rest;
          if !inlined {
            heap := PushRepeats(heap, j, repeats);
          }
      }
    }
    assert stored[..|stored|] == stored;
    while heap != []
      invariant out + QueuedItems(heap) == Run(es).out + QueuedItems(Run(es).heap)
    {
      assert QueuedItems(heap) == [Record(heap[0].row)] + QueuedItems(heap[1..]);
      out, heap := out + [Record(heap[0].row)], heap[1..];
    }
    assert out + QueuedItems(heap) == out;
    return Success(out);
  }

  // ---------- times and order in plain terms ----------

  /** The first `n` gaps together. */
  function GapSum(gaps: seq<Value>, n: nat): int
    requires n <= |gaps|
  {
    if n == 0 then 0 else GapSum(gaps, n - 1) + if gaps[n - 1].Int? then gaps[n - 1].n else 0
  }

  lemma {:induction false} GapSumOfFirst(gaps: seq<Value>, k: nat, n: nat)
    requires n <= k <= |gaps|
    ensures GapSum(gaps[..k], n) == GapSum(gaps, n)
  {
    if n > 0 {
      GapSumOfFirst(gaps, k, n - 1);
    }
  }

  /** The `k`-th repeat is the stored row, all the gaps up to it later. */
  lemma {:induction false} RepeatsAddGaps(pos: nat, row: Row, start: int, hasMs: bool, gaps: seq<Value>, k: nat)
    requires ReadGaps(pos, row, start, hasMs, gaps).Success? && k < |gaps|
    ensures var r := ReadGaps(pos, row, start, hasMs, gaps).value[k];
      && r.at == start + GapSum(gaps, k + 1)
      && FormatMs(r.at, hasMs).Some? && r.row == row.With("time", Text(FormatMs(r.at, hasMs).value))
  {
    hide *;
    var n := |gaps| - 1;
    LastGapIsRead(pos, row, start, hasMs, gaps);
    if k < n {
      RepeatsAddGaps(pos, row, start, hasMs, gaps[..n], k);
      GapSumOfFirst(gaps, n, k + 1);
    } else if n > 0 {
      RepeatsAddGaps(pos, row, start, hasMs, gaps[..n], n - 1);
      GapSumOfFirst(gaps, n, n);
    }
  }

  lemma LastGapIsRead(pos: nat, row: Row, start: int, hasMs: bool, gaps: seq<Value>)
    requires ReadGaps(pos, row, start, hasMs, gaps).Success? && gaps != []
    ensures var n := |gaps| - 1; var before := ReadGaps(pos, row, start, hasMs, gaps[..n]);
      && before.Success?
      && var rs, all := before.value, ReadGaps(pos, row, start, hasMs, gaps).value; var r := all[n];
      && all[..n] == rs && (forall k :: 0 <= k < n ==> all[k] == rs[k])
      && r.at == (if n == 0 then start else rs[n - 1].at) + (GapSum(gaps, n + 1) - GapSum(gaps, n))
      && FormatMs(r.at, hasMs).Some? && r.row == row.With("time", Text(FormatMs(r.at, hasMs).value))
      && GapSum(gaps, 0) == 0
  {
    hide FormatMs, Dict.With;
  }

  /**
    Repeats come out by time, at one time in the order of their stored rows; and before a row stored after
    theirs that has no readable time or is no earlier.
   */
  lemma OrderOfRepeats(a: int, h: nat, k: nat, b: int, i: nat, l: nat, row: Row, j: nat)
    requires h <= i
    ensures Before(Key(At(a), h, k), Key(At(b), i, l)) <==> a < b || (a == b && (h < i || k < l))
    ensures h < j ==>
      (Before(Key(At(a), h, k), RowKey(row, j)) <==> TimeOf(row).None? || a <= TimeOf(row).value.0)
  {
  }
}
