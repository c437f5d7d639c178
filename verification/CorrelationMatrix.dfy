/**
  The pairwise correlation sweep, bucketed by clock.

  `IsSweep` is the pair-at-a-time sweep stated outright: which pairs hit, with what numbers, in what
  order. `CorrelateMatrix` reaches the same list with one join per pair of clocks.
 */
module CorrelationMatrix {
  import opened Wrappers
  import opened Lists
  import opened Statistics
  import opened Ranks
  import opened TimeJoin

  datatype Series = Series(ts: Clock, values: Vector, hold: Holds) {
    ghost predicate Valid() {
      TimeJoin.Sorted(ts) && |values| == |ts| && (hold.Some? ==> |hold.value| == |ts|)
    }

    function Key(): ClockKey {
      ClockKey(ts, hold)
    }
  }

  /** What a join depends on. */
  datatype ClockKey = ClockKey(ts: Clock, hold: Holds)

  datatype Coefficient =
    | Product(root: real -> real)
    | Ranked(root: real -> real)
    | Categorical(association: (Vector, Vector) -> Option<real>)

  ghost predicate IsCoefficient(c: Coefficient) {
    !c.Categorical? ==> IsRoot(c.root)
  }

  ghost function CoefficientOf(c: Coefficient, xs: Vector, ys: Vector): Option<real>
    requires |xs| == |ys| && IsCoefficient(c)
  {
    match c
    case Product(root) => Pearson(root, xs, ys)
    case Ranked(root) => SpearmanOf(root, xs, ys)
    case Categorical(association) => association(xs, ys)
  }

  /** The part of a label naming where its bytes come from: two fields of three or more, else the first. */
  function GroupKey(signal: string): string {
    var first := FieldEnd(signal, 0);
    if first == |signal| then signal
    else
      var second := FieldEnd(signal, first + 1);
      if second == |signal| then signal[..first] else signal[..second]
  }

  function FieldEnd(signal: string, from: nat): (end: nat)
    requires from <= |signal|
    ensures from <= end <= |signal|
    decreases |signal| - from
  {
    if from == |signal| || signal[from] == ':' then from else FieldEnd(signal, from + 1)
  }

  // ---------- what a label's source is ----------

  ghost predicate NoColon(s: string) {
    forall i :: 0 <= i < |s| ==> s[i] != ':'
  }

  ghost predicate IsTwoFields(key: string) {
    exists ecu, pid :: NoColon(ecu) && NoColon(pid) && key == ecu + ":" + pid
  }

  /** `id` names itself, `id:field` names `id`, and `ecu:pid:signal` names `ecu:pid`, whatever the signal. */
  ghost predicate NamesSource(signal: string, key: string) {
    || (NoColon(signal) && key == signal)
    || (NoColon(key) && key + ":" <= signal && NoColon(signal[|key| + 1..]))
    || (IsTwoFields(key) && key + ":" <= signal)
  }

  ghost predicate SharesSource(a: string, b: string) {
    exists key :: NamesSource(a, key) && NamesSource(b, key)
  }

  lemma {:induction false} FieldEndIs(signal: string, from: nat)
    requires from <= |signal|
    ensures var end := FieldEnd(signal, from);
      && NoColon(signal[from..end]) && (end < |signal| ==> signal[end] == ':')
    decreases |signal| - from
  {
    if from < |signal| && signal[from] != ':' {
      FieldEndIs(signal, from + 1);
      var end := FieldEnd(signal, from);
      assert signal[from..end] == [signal[from]] + signal[from + 1..end];
    }
  }

  lemma {:induction false} FieldEndAt(signal: string, from: nat, end: nat)
    requires from <= end <= |signal| && NoColon(signal[from..end]) && (end < |signal| ==> signal[end] == ':')
    ensures FieldEnd(signal, from) == end
    decreases |signal| - from
  {
    if from < end {
      assert signal[from..end][0] == signal[from];
      assert signal[from + 1..end] == signal[from..end][1..];
      FieldEndAt(signal, from + 1, end);
    }
  }

  lemma KeyOfPlain(id: string, field: string)
    requires NoColon(id)
    ensures GroupKey(id) == id
    ensures NoColon(field) ==> GroupKey(id + ":" + field) == id
  {
    FieldEndAt(id, 0, |id|) by {
      assert id[0..|id|] == id;
    }
    if NoColon(field) {
      var signal := id + ":" + field;
      assert signal[0..|id|] == id && signal[|id| + 1..|signal|] == field;
      FieldEndAt(signal, 0, |id|);
      FieldEndAt(signal, |id| + 1, |signal|);
      assert signal[..|id|] == id;
    }
  }

  /** An ECU's label is keyed by ECU and PID together. */
  lemma KeyOfSignal(ecu: string, pid: string, name: string)
    requires NoColon(ecu) && NoColon(pid)
    ensures GroupKey(ecu + ":" + pid + ":" + name) == ecu + ":" + pid
  {
    var key := ecu + ":" + pid;
    var signal := key + ":" + name;
    assert signal[0..|ecu|] == ecu && signal[|ecu| + 1..|key|] == pid;
    FieldEndAt(signal, 0, |ecu|);
    FieldEndAt(signal, |ecu| + 1, |key|);
    assert signal[..|key|] == key;
  }

  lemma KeyNamesSource(signal: string)
    ensures NamesSource(signal, GroupKey(signal))
  {
    var first := FieldEnd(signal, 0);
    FieldEndIs(signal, 0);
    if first == |signal| {
      assert signal[0..first] == signal;
    } else {
      var second := FieldEnd(signal, first + 1);
      FieldEndIs(signal, first + 1);
      var ecu, pid := signal[..first], signal[first + 1..second];
      assert ecu == signal[0..first] && NoColon(ecu) && NoColon(pid);
      if second == |signal| {
        assert signal == ecu + ":" + pid;
        assert signal[|ecu| + 1..] == pid;
      } else {
        var rest := signal[second + 1..];
        assert signal == ecu + ":" + pid + ":" + rest;
        assert signal[..second] == ecu + ":" + pid;
        assert IsTwoFields(ecu + ":" + pid);
      }
    }
  }

  lemma SourceIsKey(signal: string, key: string)
    requires NamesSource(signal, key)
    ensures GroupKey(signal) == key
  {
    if NoColon(signal) && key == signal {
      KeyOfPlain(signal, "");
    } else if NoColon(key) && key + ":" <= signal && NoColon(signal[|key| + 1..]) {
      assert signal == key + ":" + signal[|key| + 1..];
      KeyOfPlain(key, signal[|key| + 1..]);
    } else {
      var ecu, pid :| NoColon(ecu) && NoColon(pid) && key == ecu + ":" + pid;
      assert signal == ecu + ":" + pid + ":" + signal[|key| + 1..];
      KeyOfSignal(ecu, pid, signal[|key| + 1..]);
    }
  }

  /** Signals of one PID share their source; those of two PIDs of one ECU do not. */
  lemma SourcesOfSignals(ecu: string, pid: string, other: string, a: string, b: string)
    requires NoColon(ecu) && NoColon(pid) && NoColon(other)
    ensures SharesSource(ecu + ":" + pid + ":" + a, ecu + ":" + other + ":" + b) <==> pid == other
  {
    var s, t := ecu + ":" + pid + ":" + a, ecu + ":" + other + ":" + b;
    KeyOfSignal(ecu, pid, a);
    KeyOfSignal(ecu, other, b);
    SharedKey(s, t);
    if pid != other && |pid| == |other| {
      assert (ecu + ":" + pid)[|ecu| + 1..] == pid && (ecu + ":" + other)[|ecu| + 1..] == other;
    }
  }

  lemma SharedKey(a: string, b: string)
    ensures SharesSource(a, b) <==> GroupKey(a) == GroupKey(b)
  {
    KeyNamesSource(a);
    KeyNamesSource(b);
    hide GroupKey, NamesSource;
    if key :| NamesSource(a, key) && NamesSource(b, key) {
      SourceIsKey(a, key);
      SourceIsKey(b, key);
    }
  }

  datatype Study = Study(names: seq<string>, prepared: map<string, Series>, coefficient: Coefficient,
                         tol: real, minR: real, minN: int, intra: bool)
  {
    ghost predicate Valid() {
      && Distinct(names) && IsCoefficient(coefficient)
      && forall name :: name in names ==> name in prepared && prepared[name].Valid()
    }
  }

  datatype Hit = Hit(a: string, b: string, r: real, n: nat, filled: int)

  // ---------- the pair-at-a-time sweep ----------

  function Pick(values: Vector, idx: seq<nat>): (sub: Vector)
    requires forall m :: 0 <= m < |idx| ==> idx[m] < |values|
    ensures |sub| == |idx| && forall m :: 0 <= m < |idx| ==> sub[m] == values[idx[m]]
  {
    seq(|idx|, m requires 0 <= m < |idx| => values[idx[m]])
  }

  ghost predicate InRange(idx: seq<nat>, n: nat) {
    forall m :: 0 <= m < |idx| ==> idx[m] < n
  }

  /** How many of a join's rows were carried forward. */
  ghost predicate IsFilledCount(a: ClockKey, b: ClockKey, tol: real, rows: nat, filled: int) {
    if b.hold.None? then filled == 0
    else exists strict, strictCand :: IsJoin(a.ts, b.ts, tol, None, strict, strictCand) && filled == rows - |strict|
  }

  /** The hit a join's rows give a pair, the first of them the reference. */
  ghost predicate IsHitOn(s: Study, a: string, b: string, refIdx: seq<nat>, candIdx: seq<nat>, h: Hit)
    requires s.Valid() && a in s.names && b in s.names
  {
    var sa, sb := s.prepared[a], s.prepared[b];
    && |refIdx| == |candIdx| >= 2 && |refIdx| >= s.minN
    && InRange(refIdx, |sa.ts|) && InRange(candIdx, |sb.ts|)
    && CoefficientOf(s.coefficient, Pick(sa.values, refIdx), Pick(sb.values, candIdx)) == Some(h.r)
    && Abs(h.r) >= s.minR
    && h.a == a && h.b == b && h.n == |refIdx|
    && IsFilledCount(sa.Key(), sb.Key(), s.tol, |refIdx|, h.filled)
  }

  ghost predicate IsHitOfJoin(s: Study, a: string, b: string, h: Hit)
    requires s.Valid() && a in s.names && b in s.names
  {
    exists refIdx, candIdx ::
      IsJoin(s.prepared[a].ts, s.prepared[b].ts, s.tol, s.prepared[b].hold, refIdx, candIdx)
      && IsHitOn(s, a, b, refIdx, candIdx, h)
  }

  /** Pairs of one source are left out unless asked for. */
  predicate Crosses(intra: bool, a: string, b: string): (yes: bool)
    ensures yes <==> intra || !SharesSource(a, b)
  {
    SharedKey(a, b);
    intra || GroupKey(a) != GroupKey(b)
  }

  /** The guard leaves out two clocks too far apart. */
  predicate Overlaps(a: ClockKey, b: ClockKey, tol: real) {
    a == b || !TimestampsDisjoint(a.ts, b.ts, tol)
  }

  predicate Precedes(s: Study, a: string, b: string) {
    a in s.names && b in s.names && IndexOf(s.names, a) < IndexOf(s.names, b)
  }

  /** The pair's earlier name is the reference. */
  ghost predicate IsHit(s: Study, a: string, b: string, h: Hit)
    requires s.Valid()
  {
    && Precedes(s, a, b) && Crosses(s.intra, a, b)
    && Overlaps(s.prepared[a].Key(), s.prepared[b].Key(), s.tol)
    && IsHitOfJoin(s, a, b, h)
  }

  /** Strongest first; among equals, the pair met first when every name meets every later one. */
  ghost predicate Outranks(s: Study, g: Hit, h: Hit) {
    && g.a in s.names && g.b in s.names && h.a in s.names && h.b in s.names
    && (|| Abs(g.r) > Abs(h.r)
        || (Abs(g.r) == Abs(h.r) && (|| IndexOf(s.names, g.a) < IndexOf(s.names, h.a)
                                     || (g.a == h.a && IndexOf(s.names, g.b) < IndexOf(s.names, h.b)))))
  }

  ghost predicate IsSweep(s: Study, hits: seq<Hit>)
    requires s.Valid()
  {
    && (forall h :: h in hits <==> IsHit(s, h.a, h.b, h))
    && Ascending(hits, (g, h) => Outranks(s, g, h))
  }

  /** The sweep has one answer. */
  lemma SweepIsUnique(s: Study, hits: seq<Hit>, others: seq<Hit>)
    requires s.Valid() && IsSweep(s, hits) && IsSweep(s, others)
    ensures hits == others
  {
    AscendingIsUnique(hits, others, (g, h) => Outranks(s, g, h));
  }

  // ---------- the guard ----------

  /** Without forward fill the guard leaves out no hit. */
  lemma GuardIsExactWhenStrict(s: Study, a: string, b: string, h: Hit)
    requires s.Valid() && a in s.names && b in s.names && s.prepared[b].hold.None?
    requires IsHitOfJoin(s, a, b, h)
    ensures Overlaps(s.prepared[a].Key(), s.prepared[b].Key(), s.tol)
  {
    var x, y := s.prepared[a], s.prepared[b];
    var refIdx, candIdx :| IsJoin(x.ts, y.ts, s.tol, y.hold, refIdx, candIdx) && IsHitOn(s, a, b, refIdx, candIdx, h);
    hide Matched, TimestampsDisjoint;
    var k, j := refIdx[0], candIdx[0];
    assert Matched(y.ts, s.tol, None, x.ts[k], j);
    forall c | TimestampsDisjoint(x.ts, y.ts, s.tol)
      ensures !Matched(y.ts, s.tol, None, x.ts[k], c)
    {
      DisjointMeansNoStrictRow(x.ts, y.ts, s.tol, k, c);
    }
  }

  lemma DisjointIsSymmetric(a: Clock, b: Clock, tol: real)
    ensures TimestampsDisjoint(a, b, tol) == TimestampsDisjoint(b, a, tol)
  {
  }
}
