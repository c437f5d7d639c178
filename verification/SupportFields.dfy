/**
  Legal splits of a record into the parameters its support bitmaps announce, stated without any
  search: what one parameter may be, and what a whole split is.
 */
module SupportFields {
  import opened Wrappers

  const MAX_FIELD_BYTES := 4
  const MAX_RECORD_BYTES := 512

  datatype Order = Msb | Lsb

  /** Bytes `start..end` that a defined signal reads. */
  datatype Span = Span(start: nat, end: nat)

  datatype Problem = Problem(rows: seq<seq<nat>>, known: seq<Span>, at: nat, length: nat, order: Order) {

    /** The bytes every row has. */
    function Width(): (w: nat)
      requires rows != []
      ensures forall k :: 0 <= k < |rows| ==> w <= |rows[k]|
    {
      ShortestRow(rows)
    }

    function First(): nat {
      at + length
    }

    function BlockSize(): nat {
      8 * length
    }

    predicate Constant(o: nat)
      requires rows != [] && o < Width()
    {
      forall k :: 0 <= k < |rows| ==> rows[k][o] == rows[0][o]
    }

    predicate ConstantOn(i: nat, j: nat)
      requires rows != [] && j <= Width()
    {
      forall o :: i <= o < j ==> Constant(o)
    }

    /** The rows hold a bitmap that never changes, and something after it. */
    predicate Readable() {
      && rows != [] && First() < Width() <= MAX_RECORD_BYTES
      && ConstantOn(at, First())
    }

    /** The defined signal that owns byte `o`: the last known span over it. */
    function Owner(o: nat): Option<Span> {
      if First() <= o then OwnerIn(known, o) else None
    }

    predicate Owned(o: nat) {
      Owner(o).Some?
    }

    /** Whether the bitmap at `ms` marks parameter `f + 1` of its block. */
    predicate MaskBit(ms: nat, f: nat)
      requires rows != [] && ms + length <= |rows[0]| && f < BlockSize()
    {
      match order
      case Msb => rows[0][ms + f / 8] / Pow2(7 - f % 8) % 2 == 1
      case Lsb => BigEndian(rows[0][ms..ms + length]) / Pow2(f) % 2 == 1
    }
  }

  function ShortestRow(rows: seq<seq<nat>>): (w: nat)
    requires rows != []
    ensures forall k :: 0 <= k < |rows| ==> w <= |rows[k]|
    ensures exists k :: 0 <= k < |rows| && w == |rows[k]|
  {
    if |rows| == 1 then |rows[0]|
    else
      var w := ShortestRow(rows[1..]);
      assert forall k :: 1 <= k < |rows| ==> rows[k] == rows[1..][k - 1];
      if |rows[0]| < w then |rows[0]| else w
  }

  function OwnerIn(known: seq<Span>, o: nat): Option<Span> {
    if known == [] then None
    else
      var s := known[|known| - 1];
      if s.start <= o < s.end then Some(s) else OwnerIn(known[..|known| - 1], o)
  }

  function Pow2(n: nat): (r: nat)
    ensures r > 0
  {
    if n == 0 then 1 else 2 * Pow2(n - 1)
  }

  function BigEndian(bytes: seq<nat>): nat {
    if bytes == [] then 0 else 256 * BigEndian(bytes[..|bytes| - 1]) + bytes[|bytes| - 1]
  }

  /** Next byte `i`, parameter index `f` in its block, and where that block's bitmap is. */
  datatype State = State(i: nat, f: nat, ms: nat)

  /** One parameter: where it ends, and whether it is the next block's bitmap. */
  datatype Step = Step(end: nat, isMap: bool)

  predicate InRecord(p: Problem, st: State) {
    && p.Readable() && p.First() <= st.i <= p.Width() && st.f <= p.BlockSize() && st.ms + p.length <= p.Width()
  }

  predicate Marked(p: Problem, st: State)
    requires InRecord(p, st) && st.f < p.BlockSize()
  {
    p.MaskBit(st.ms, st.f)
  }

  /** A parameter may begin here: the block and the record go on, and no defined field is cut. */
  predicate MayBegin(p: Problem, st: State) {
    && InRecord(p, st) && st.f < p.BlockSize() && st.i < p.Width()
    && (p.Owned(st.i) ==> st.i <= p.Owner(st.i).value.start)
  }

  predicate OneOwner(p: Problem, i: nat, j: nat) {
    forall a, b :: i <= a < j && i <= b < j && p.Owned(a) && p.Owned(b) ==> p.Owner(a) == p.Owner(b)
  }

  predicate EndsWithOwner(p: Problem, i: nat, j: nat) {
    forall o :: i <= o < j && p.Owned(o) ==> p.Owner(o).value.end <= j
  }

  /** At most four bytes, or no wider than the defined field it holds. */
  predicate NarrowEnough(p: Problem, i: nat, j: nat) {
    j - i <= MAX_FIELD_BYTES
    || exists o :: i <= o < j && p.Owned(o) && j - i <= p.Owner(o).value.end - p.Owner(o).value.start
  }

  /** Bytes `st.i..j` may be the next data parameter. */
  predicate LegalData(p: Problem, st: State, j: nat) {
    && MayBegin(p, st) && st.i < j <= p.Width()
    && OneOwner(p, st.i, j) && EndsWithOwner(p, st.i, j) && NarrowEnough(p, st.i, j)
    && (!Marked(p, st) ==> p.ConstantOn(st.i, j))
    && (st.f == p.BlockSize() - 1 ==> j == p.Width())
  }

  /** The last parameter of a block may be the next bitmap: marked, constant, read by no signal. */
  predicate LegalMap(p: Problem, st: State) {
    && MayBegin(p, st) && st.f == p.BlockSize() - 1 && Marked(p, st)
    && st.i + p.length < p.Width() && p.ConstantOn(st.i, st.i + p.length)
    && forall o :: st.i <= o < st.i + p.length ==> !p.Owned(o)
  }

  predicate Legal(p: Problem, st: State, s: Step) {
    if s.isMap then LegalMap(p, st) && s.end == st.i + p.length else LegalData(p, st, s.end)
  }

  function Next(p: Problem, st: State, s: Step): State {
    if s.isMap then State(s.end, 0, st.i) else State(s.end, st.f + 1, st.ms)
  }

  /** The record is used up and its last bitmap marks no parameter beyond. */
  predicate Done(p: Problem, st: State) {
    && InRecord(p, st) && st.i == p.Width()
    && forall k :: st.f <= k < p.BlockSize() ==> !p.MaskBit(st.ms, k)
  }

  /** `path` splits what is left of the record from `st` on. */
  predicate IsSplit(p: Problem, st: State, path: seq<Step>)
    decreases |path|
  {
    if path == [] then Done(p, st)
    else Legal(p, st, path[0]) && IsSplit(p, Next(p, st, path[0]), path[1..])
  }

  function Start(p: Problem): State {
    State(p.First(), 0, p.at)
  }

  /** How many data parameters a split has. */
  function DataCount(path: seq<Step>): nat {
    if path == [] then 0 else (if path[0].isMap then 0 else 1) + DataCount(path[1..])
  }

  /** Some data parameter of the split covers byte `o`, and the map marks it (or not): `marked`. */
  predicate Covers(p: Problem, st: State, path: seq<Step>, o: nat, marked: bool)
    requires IsSplit(p, st, path)
    decreases |path|
  {
    path != [] && (
      || (!path[0].isMap && st.i <= o < path[0].end && Marked(p, st) == marked)
      || Covers(p, Next(p, st, path[0]), path[1..], o, marked))
  }

  // ---------- every step moves on inside the record ----------

  lemma StepMovesOn(p: Problem, st: State, s: Step)
    requires Legal(p, st, s)
    ensures InRecord(p, Next(p, st, s)) && st.i < Next(p, st, s).i
  {
  }

  lemma {:induction false} CountIsBounded(p: Problem, st: State, path: seq<Step>)
    requires InRecord(p, st) && IsSplit(p, st, path)
    ensures DataCount(path) <= p.Width() - st.i
    decreases |path|
  {
    hide Legal, Done;
    if path != [] {
      StepMovesOn(p, st, path[0]);
      CountIsBounded(p, Next(p, st, path[0]), path[1..]);
    }
  }

  // ---------- what the early stops of the search rely on ----------

  /** Two owners in `i..j` are two owners in any longer run: no longer field is legal. */
  lemma TwoOwnersStay(p: Problem, st: State, j: nat, k: nat)
    requires j <= k && !OneOwner(p, st.i, j)
    ensures !LegalData(p, st, k)
  {
  }

  lemma {:induction false} OwnerInCovers(known: seq<Span>, o: nat)
    ensures OwnerIn(known, o).Some? ==>
      OwnerIn(known, o).value in known && OwnerIn(known, o).value.start <= o < OwnerIn(known, o).value.end
    ensures forall s :: s in known && s.start <= o < s.end ==> OwnerIn(known, o).Some?
  {
    if known != [] {
      OwnerInCovers(known[..|known| - 1], o);
    }
  }

  /** The bytes an owner reads are owned, by it or by a later span. */
  lemma OwnerCovers(p: Problem, o: nat, b: nat)
    requires p.Owned(o) && p.First() <= b
    ensures var s := p.Owner(o).value;
      s.start <= o < s.end && (s.start <= b < s.end ==> p.Owned(b))
  {
    OwnerInCovers(p.known, o);
    OwnerInCovers(p.known, b);
  }

  lemma WideOwnerBegins(p: Problem, i: nat, j: nat, k: nat, o: nat)
    requires p.First() <= i < j <= o < k && p.Owned(o)
    requires forall b :: i <= b < j ==> !p.Owned(b)
    ensures j <= p.Owner(o).value.start <= o
  {
    var start := p.Owner(o).value.start;
    OwnerCovers(p, o, if start < i then i else start);
  }

  /** A run too wide for the owner it has, which it does not cut, stays too wide. */
  lemma TooWideStays(p: Problem, st: State, j: nat, k: nat)
    requires MayBegin(p, st) && st.i < j <= k && EndsWithOwner(p, st.i, j)
    requires !NarrowEnough(p, st.i, j)
    ensures !LegalData(p, st, k)
  {
    hide Marked, Problem.ConstantOn, Problem.Owner;
    if LegalData(p, st, k) {
      var o :| st.i <= o < k && p.Owned(o) && k - st.i <= p.Owner(o).value.end - p.Owner(o).value.start;
      if forall b :: st.i <= b < j ==> !p.Owned(b) {
        WideOwnerBegins(p, st.i, j, k, o);
      }
    }
  }

  // ---------- defined fields stay whole ----------

  predicate Reads(s: Span, o: nat) {
    s.start <= o < s.end
  }

  ghost predicate DisjointSpans(known: seq<Span>) {
    forall a, b, o :: a in known && b in known && Reads(a, o) && Reads(b, o) ==> a == b
  }

  /** One data parameter of the split holds all of `span`, and no byte of another defined field. */
  predicate HoldsWhole(p: Problem, st: State, path: seq<Step>, span: Span)
    requires IsSplit(p, st, path)
    decreases |path|
  {
    path != [] && (
      || (!path[0].isMap && st.i <= span.start && span.end <= path[0].end
          && forall o :: st.i <= o < path[0].end && p.Owned(o) ==> p.Owner(o) == Some(span))
      || HoldsWhole(p, Next(p, st, path[0]), path[1..], span))
  }

  /** Every split keeps every defined field in one parameter of its own. */
  lemma {:induction false} DefinedFieldsStayWhole(p: Problem, st: State, path: seq<Step>, span: Span)
    requires InRecord(p, st) && IsSplit(p, st, path)
    requires DisjointSpans(p.known) && span in p.known && st.i <= span.start < span.end <= p.Width()
    ensures HoldsWhole(p, st, path, span)
    decreases |path|
  {
    hide Marked, Problem.ConstantOn, Problem.MaskBit, DisjointSpans;
    OwnedBy(p, span, span.start);
    assert p.Owned(span.start);
    if path[0].end <= span.start {
      StepMovesOn(p, st, path[0]);
      DefinedFieldsStayWhole(p, Next(p, st, path[0]), path[1..], span);
    }
  }

  lemma OwnedBy(p: Problem, span: Span, o: nat)
    requires DisjointSpans(p.known) && span in p.known && Reads(span, o) && p.First() <= o
    ensures p.Owner(o) == Some(span)
  {
    OwnerInCovers(p.known, o);
    assert Reads(p.Owner(o).value, o);
  }
}
