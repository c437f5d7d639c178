/**
  Splitting stored multi-DID replies into one row per DID, without breaking what a deduplicated
  session promises.

  `Rebuilt` says which split rows are written; `Rebuild` keeps the two tables that decide it.
 */
module UnsplitBatches {
  import opened Wrappers

  /** `rx` is the parsed response address; `rest` every other field but the round-trip time. */
  datatype Row = Row(rx: Option<int>, pid: string, payload: string, elapsed: Option<int>, rest: string)

  datatype KeepMode = Changes | Unique | Other

  /** A DID and its single-DID reply, both as hex. */
  datatype Part = Part(did: string, reply: string)

  function UpperChar(c: char): char {
    if 'a' <= c <= 'z' then 'A' + (c - 'a') else c
  }

  function Upper(s: string): (u: string)
    ensures |u| == |s|
  {
    seq(|s|, i requires 0 <= i < |s| => UpperChar(s[i]))
  }

  predicate SameLetter(c: char, d: char) {
    c == d || ('a' <= c <= 'z' && c as int - 32 == d as int) || ('a' <= d <= 'z' && d as int - 32 == c as int)
  }

  /** Equal but for the case of letters. */
  predicate SameLetters(s: string, t: string) {
    |s| == |t| && forall i :: 0 <= i < |s| ==> SameLetter(s[i], t[i])
  }

  lemma UpperTells(s: string, t: string)
    ensures Upper(s) == Upper(t) <==> SameLetters(s, t)
    ensures SameLetters(Upper(s), s)
  {
    if |s| == |t| {
      forall i | 0 <= i < |s|
        ensures Upper(s)[i] == Upper(t)[i] <==> SameLetter(s[i], t[i])
      {
      }
      hide UpperChar, SameLetter;
    }
  }

  /** One row per DID, with that DID's payload and no round-trip time. */
  function PerDidRows(row: Row, parts: seq<Part>): (rows: seq<Row>)
    ensures |rows| == |parts|
  {
    seq(|parts|, i requires 0 <= i < |parts| =>
      row.(pid := "22" + parts[i].did, payload := Upper(parts[i].reply), elapsed := None))
  }

  type Source = (int, string)
  type Value = (int, string, string)

  /** The value a row stores, as recording compares it; none without address, PID or payload. */
  function ValueOf(r: Row): Option<Value> {
    if r.rx.None? || r.pid == "" || r.payload == "" then None
    else Some((r.rx.value, Upper(r.pid), Upper(r.payload)))
  }

  /** A part is a read of its DID from the same ECU, with its reply but for case, and no time of its own. */
  lemma PartReadsItsDid(row: Row, parts: seq<Part>, i: nat)
    requires i < |parts|
    ensures var r := PerDidRows(row, parts)[i];
      && r.pid == "22" + parts[i].did && SameLetters(r.payload, parts[i].reply)
      && r.rx == row.rx && r.rest == row.rest && r.elapsed.None?
  {
    UpperTells(parts[i].reply, parts[i].reply);
  }

  /** Two rows store one value: same address, and the same PID and payload but for case. */
  lemma SameValueIff(a: Row, b: Row)
    ensures ValueOf(a).Some? && ValueOf(a) == ValueOf(b) <==>
      && a.rx.Some? && a.rx == b.rx && a.pid != "" && a.payload != ""
      && SameLetters(a.pid, b.pid) && SameLetters(a.payload, b.payload)
    ensures ValueOf(a).Some? <==> a.rx.Some? && a.pid != "" && a.payload != ""
  {
    UpperTells(a.pid, b.pid);
    UpperTells(a.payload, b.payload);
    hide Upper, SameLetters;
    SameLength(a.pid, b.pid);
    SameLength(a.payload, b.payload);
  }

  /** Values come from one source when their address and PID agree. */
  lemma SameSourceIff(a: Row, b: Row)
    requires ValueOf(a).Some? && ValueOf(b).Some?
    ensures SourceOf(ValueOf(a).value) == SourceOf(ValueOf(b).value) <==> a.rx == b.rx && SameLetters(a.pid, b.pid)
  {
    UpperTells(a.pid, b.pid);
    hide Upper, SameLetters;
  }

  lemma SameLength(s: string, t: string)
    ensures SameLetters(s, t) ==> |s| == |t|
  {
  }

  function SourceOf(v: Value): Source {
    (v.0, v.1)
  }

  /** The last value stored for a source. */
  function Holding(rows: seq<Row>, source: Source): Option<string> {
    if rows == [] then None
    else
      var v := ValueOf(rows[|rows| - 1]);
      if v.Some? && SourceOf(v.value) == source then Some(v.value.2) else Holding(rows[..|rows| - 1], source)
  }

  predicate IsStored(rows: seq<Row>, v: Value) {
    exists r :: r in rows && ValueOf(r) == Some(v)
  }

  /** A session of this keep mode that holds `rows` would not store `r` after them. */
  predicate IsRedundant(keep: KeepMode, rows: seq<Row>, r: Row) {
    var v := ValueOf(r);
    && v.Some?
    && match keep
       case Changes => Holding(rows, SourceOf(v.value)) == Some(v.value.2)
       case Unique => IsStored(rows, v.value)
       case Other => false
  }

  /** What a deduplicated session promises: no row it would not have stored. */
  ghost predicate KeepsPromise(keep: KeepMode, rows: seq<Row>) {
    forall i :: 0 <= i < |rows| ==> !IsRedundant(keep, rows[..i], rows[i])
  }

  // ---------- the rewrite ----------

  /** The parts of a split row that are written after `out`. */
  function Written(keep: KeepMode, out: seq<Row>, parts: seq<Row>): seq<Row> {
    if parts == [] then out
    else
      var before, r := Written(keep, out, parts[..|parts| - 1]), parts[|parts| - 1];
      if IsRedundant(keep, before, r) then before else before + [r]
  }

  /** The PIDs of the parts left out. */
  function LeftOut(keep: KeepMode, out: seq<Row>, parts: seq<Row>): seq<string> {
    if parts == [] then []
    else
      var before, r := parts[..|parts| - 1], parts[|parts| - 1];
      LeftOut(keep, out, before) + if IsRedundant(keep, Written(keep, out, before), r) then [Upper(r.pid)] else []
  }

  type Found = map<nat, seq<Part>>

  /** The rows after the first `n`: untouched ones as they are, split ones by the parts that say something new. */
  function Rebuilt(keep: KeepMode, captures: seq<Row>, found: Found, n: nat): seq<Row>
    requires n <= |captures|
  {
    if n == 0 then []
    else
      var out := Rebuilt(keep, captures, found, n - 1);
      if n - 1 in found then Written(keep, out, PerDidRows(captures[n - 1], found[n - 1])) else out + [captures[n - 1]]
  }

  ghost predicate AreLeftOut(keep: KeepMode, captures: seq<Row>, found: Found, n: nat, omitted: map<nat, seq<string>>)
    requires n <= |captures|
  {
    && (forall ci: nat :: ci in omitted <==> ci < n && ci in found && LeftOutAt(keep, captures, found, ci) != [])
    && (forall ci: nat :: ci in omitted && ci < n && ci in found ==>
          omitted[ci] == LeftOutAt(keep, captures, found, ci))
  }

  function LeftOutAt(keep: KeepMode, captures: seq<Row>, found: Found, ci: nat): seq<string>
    requires ci < |captures| && ci in found
  {
    LeftOut(keep, Rebuilt(keep, captures, found, ci), PerDidRows(captures[ci], found[ci]))
  }

  /** The two tables say what the rows written so far hold and store. */
  ghost predicate TablesOk(rows: seq<Row>, last: map<Source, string>, seen: set<Value>) {
    && (forall s :: if s in last then Holding(rows, s) == Some(last[s]) else Holding(rows, s).None?)
    && (forall v :: v in seen <==> IsStored(rows, v))
  }

  lemma TablesAfter(rows: seq<Row>, last: map<Source, string>, seen: set<Value>, r: Row)
    requires TablesOk(rows, last, seen)
    ensures var v := ValueOf(r);
      if v.Some? then TablesOk(rows + [r], last[SourceOf(v.value) := v.value.2], seen + {v.value})
      else TablesOk(rows + [r], last, seen)
  {
    hide ValueOf;
    assert (rows + [r])[..|rows|] == rows;
    forall v
      ensures IsStored(rows + [r], v) <==> IsStored(rows, v) || ValueOf(r) == Some(v)
    {
      StoredAppend(rows, r, v);
    }
    hide IsStored;
  }

  lemma StoredAppend(rows: seq<Row>, r: Row, v: Value)
    ensures IsStored(rows + [r], v) <==> IsStored(rows, v) || ValueOf(r) == Some(v)
  {
    hide ValueOf;
    var more := rows + [r];
    assert r in more;
    assert forall x :: x in more <==> x in rows || x == r;
  }

  lemma TablesTell(keep: KeepMode, rows: seq<Row>, last: map<Source, string>, seen: set<Value>, v: Value, r: Row)
    requires TablesOk(rows, last, seen) && ValueOf(r) == Some(v)
    ensures IsRedundant(keep, rows, r) <==>
      || (keep == Changes && SourceOf(v) in last && last[SourceOf(v)] == v.2)
      || (keep == Unique && v in seen)
  {
    hide ValueOf, IsStored, Holding;
  }

  lemma OneMoreCapture(keep: KeepMode, captures: seq<Row>, found: Found, ci: nat, omitted: map<nat, seq<string>>)
    requires ci < |captures| && AreLeftOut(keep, captures, found, ci, omitted)
    ensures ci !in found ==>
      && Rebuilt(keep, captures, found, ci + 1) == Rebuilt(keep, captures, found, ci) + [captures[ci]]
      && AreLeftOut(keep, captures, found, ci + 1, omitted)
    ensures ci in found ==>
      var left := LeftOutAt(keep, captures, found, ci);
      && Rebuilt(keep, captures, found, ci + 1)
         == Written(keep, Rebuilt(keep, captures, found, ci), PerDidRows(captures[ci], found[ci]))
      && AreLeftOut(keep, captures, found, ci + 1, if left == [] then omitted else omitted[ci := left])
  {
    hide Written, PerDidRows, LeftOutAt;
  }

  method Rebuild(keep: KeepMode, captures: seq<Row>, found: Found)
    returns (out: seq<Row>, omitted: map<nat, seq<string>>)
    ensures out == Rebuilt(keep, captures, found, |captures|)
    ensures AreLeftOut(keep, captures, found, |captures|, omitted)
  {
    hide TablesOk, ValueOf, AreLeftOut, PerDidRows, Rebuilt, Written, LeftOut;
    var last: map<Source, string>, seen: set<Value> := map[], {};
    out, omitted := [], map[];
    NoRows();
    NoCaptures(keep, captures, found);
    for ci := 0 to |captures|
      invariant out == Rebuilt(keep, captures, found, ci) && TablesOk(out, last, seen)
      invariant AreLeftOut(keep, captures, found, ci, omitted)
    {
      var cap := captures[ci];
      OneMoreCapture(keep, captures, found, ci, omitted);
      if ci !in found {
        TablesAfter(out, last, seen, cap);
        var v := ValueOf(cap);
        if v.Some? {
          last, seen := last[SourceOf(v.value) := v.value.2], seen + {v.value};
        }
        out := out + [cap];
      } else {
        var leftOut;
        out, last, seen, leftOut := WriteParts(keep, out, PerDidRows(cap, found[ci]), last, seen);
        if leftOut != [] {
          omitted := omitted[ci := leftOut];
        }
      }
    }
  }

  lemma NoCaptures(keep: KeepMode, captures: seq<Row>, found: Found)
    ensures Rebuilt(keep, captures, found, 0) == [] && AreLeftOut(keep, captures, found, 0, map[])
  {
  }

  lemma NoRows()
    ensures TablesOk([], map[], {})
  {
  }

  method WriteParts(keep: KeepMode, before: seq<Row>, parts: seq<Row>, lastBefore: map<Source, string>,
                    seenBefore: set<Value>)
    returns (out: seq<Row>, last: map<Source, string>, seen: set<Value>, leftOut: seq<string>)
    requires TablesOk(before, lastBefore, seenBefore)
    ensures out == Written(keep, before, parts) && TablesOk(out, last, seen)
    ensures leftOut == LeftOut(keep, before, parts)
  {
    hide TablesOk, IsRedundant, Upper;
    out, last, seen, leftOut := before, lastBefore, seenBefore, [];
    assert parts[..0] == [];
    for m := 0 to |parts|
      invariant out == Written(keep, before, parts[..m]) && TablesOk(out, last, seen)
      invariant leftOut == LeftOut(keep, before, parts[..m])
    {
      hide ValueOf;
      var r := parts[m];
      assert parts[..m + 1][..m] == parts[..m];
      var v := ValueOf(r);
      TablesAfter(out, last, seen, r);
      if v.Some? {
        ValueHasPid(r);
        TablesTell(keep, out, last, seen, v.value, r);
        var source := SourceOf(v.value);
        if (keep == Changes && source in last && last[source] == v.value.2) || (keep == Unique && v.value in seen) {
          leftOut := leftOut + [v.value.1];
        } else {
          last, seen := last[source := v.value.2], seen + {v.value};
          out := out + [r];
        }
      } else {
        NoValueIsKept(keep, out, r);
        out := out + [r];
      }
    }
    assert parts[..|parts|] == parts;
  }

  lemma ValueHasPid(r: Row)
    requires ValueOf(r).Some?
    ensures ValueOf(r).value.1 == Upper(r.pid)
  {
  }

  lemma NoValueIsKept(keep: KeepMode, rows: seq<Row>, r: Row)
    requires ValueOf(r).None?
    ensures !IsRedundant(keep, rows, r)
  {
  }

  // ---------- what the rewrite keeps ----------

  /** Every part of every found row, nothing left out. */
  function Expanded(captures: seq<Row>, found: Found, n: nat): seq<Row>
    requires n <= |captures|
  {
    if n == 0 then []
    else
      Expanded(captures, found, n - 1)
      + if n - 1 in found then PerDidRows(captures[n - 1], found[n - 1]) else [captures[n - 1]]
  }

  /** An untouched row is written, after what the rows before it became. */
  lemma {:induction false} UntouchedRowsStay(keep: KeepMode, captures: seq<Row>, found: Found, ci: nat, n: nat)
    requires ci < n <= |captures| && ci !in found
    ensures Rebuilt(keep, captures, found, ci) + [captures[ci]] <= Rebuilt(keep, captures, found, n)
  {
    if ci < n - 1 {
      UntouchedRowsStay(keep, captures, found, ci, n - 1);
      if n - 1 in found {
        WrittenGrows(keep, Rebuilt(keep, captures, found, n - 1), PerDidRows(captures[n - 1], found[n - 1]));
      }
    }
  }

  lemma {:induction false} WrittenGrows(keep: KeepMode, out: seq<Row>, parts: seq<Row>)
    ensures out <= Written(keep, out, parts)
  {
    hide IsRedundant;
    if parts != [] {
      WrittenGrows(keep, out, parts[..|parts| - 1]);
    }
  }

  /** The values two lists hold, or store, are the same. */
  ghost predicate SaysTheSame(keep: KeepMode, a: seq<Row>, b: seq<Row>) {
    match keep
    case Changes => forall s :: Holding(a, s) == Holding(b, s)
    case Unique => forall v :: IsStored(a, v) <==> IsStored(b, v)
    case Other => a == b
  }

  lemma HoldingAppend(rows: seq<Row>, r: Row, s: Source)
    ensures var v := ValueOf(r);
      Holding(rows + [r], s) == if v.Some? && SourceOf(v.value) == s then Some(v.value.2) else Holding(rows, s)
  {
    assert (rows + [r])[..|rows|] == rows;
  }

  lemma SaysTheSameAfter(keep: KeepMode, a: seq<Row>, b: seq<Row>, r: Row)
    requires SaysTheSame(keep, a, b)
    ensures SaysTheSame(keep, a + [r], b + [r])
    ensures IsRedundant(keep, a, r) <==> IsRedundant(keep, b, r)
    ensures IsRedundant(keep, a, r) ==> SaysTheSame(keep, a, b + [r])
  {
    hide ValueOf, Holding, IsStored;
    forall s
      ensures Holding(a + [r], s) ==
        if ValueOf(r).Some? && SourceOf(ValueOf(r).value) == s then Some(ValueOf(r).value.2) else Holding(a, s)
      ensures Holding(b + [r], s) ==
        if ValueOf(r).Some? && SourceOf(ValueOf(r).value) == s then Some(ValueOf(r).value.2) else Holding(b, s)
    {
      HoldingAppend(a, r, s);
      HoldingAppend(b, r, s);
    }
    forall v
      ensures IsStored(a + [r], v) <==> IsStored(a, v) || ValueOf(r) == Some(v)
      ensures IsStored(b + [r], v) <==> IsStored(b, v) || ValueOf(r) == Some(v)
    {
      StoredAppend(a, r, v);
      StoredAppend(b, r, v);
    }
  }

  lemma {:induction false} WrittenSaysTheSame(keep: KeepMode, a: seq<Row>, b: seq<Row>, parts: seq<Row>)
    requires SaysTheSame(keep, a, b)
    ensures SaysTheSame(keep, Written(keep, a, parts), b + parts)
  {
    hide SaysTheSame, IsRedundant;
    if parts == [] {
      assert b + parts == b;
    } else {
      var before, r := parts[..|parts| - 1], parts[|parts| - 1];
      WrittenSaysTheSame(keep, a, b, before);
      SaysTheSameAfter(keep, Written(keep, a, before), b + before, r);
      assert (b + before) + [r] == b + parts;
    }
  }

  /** Leaving parts out loses no reading: the rows written say what all of them would. */
  lemma {:induction false} NothingIsLost(keep: KeepMode, captures: seq<Row>, found: Found, n: nat)
    requires n <= |captures|
    ensures SaysTheSame(keep, Rebuilt(keep, captures, found, n), Expanded(captures, found, n))
  {
    if n == 0 {
    } else {
      hide SaysTheSame;
      NothingIsLost(keep, captures, found, n - 1);
      var a, b := Rebuilt(keep, captures, found, n - 1), Expanded(captures, found, n - 1);
      if n - 1 in found {
        WrittenSaysTheSame(keep, a, b, PerDidRows(captures[n - 1], found[n - 1]));
      } else {
        SaysTheSameAfter(keep, a, b, captures[n - 1]);
      }
    }
  }

  // ---------- the promise ----------

  lemma PromiseAppend(keep: KeepMode, rows: seq<Row>, r: Row)
    ensures KeepsPromise(keep, rows + [r]) <==> KeepsPromise(keep, rows) && !IsRedundant(keep, rows, r)
  {
    hide IsRedundant;
    var more := rows + [r];
    assert more[..|rows|] == rows && more[|rows|] == r;
    assert forall i :: 0 <= i < |rows| ==> more[..i] == rows[..i] && more[i] == rows[i];
  }

  lemma {:induction false} WrittenKeepsPromise(keep: KeepMode, out: seq<Row>, parts: seq<Row>)
    ensures KeepsPromise(keep, Written(keep, out, parts)) <==> KeepsPromise(keep, out)
  {
    hide KeepsPromise, IsRedundant;
    if parts != [] {
      var before, r := parts[..|parts| - 1], parts[|parts| - 1];
      WrittenKeepsPromise(keep, out, before);
      PromiseAppend(keep, Written(keep, out, before), r);
    }
  }

  /** An untouched row repeats what the rows and parts before it already said. */
  ghost predicate UntouchedRepeats(keep: KeepMode, captures: seq<Row>, found: Found, ci: nat)
    requires ci < |captures|
  {
    ci !in found && IsRedundant(keep, Expanded(captures, found, ci), captures[ci])
  }

  /** Split parts never break the promise; it holds exactly when no untouched row repeats what came before it. */
  lemma {:induction false} PromiseKeptIff(keep: KeepMode, captures: seq<Row>, found: Found, n: nat)
    requires n <= |captures|
    ensures KeepsPromise(keep, Rebuilt(keep, captures, found, n))
       <==> forall ci :: 0 <= ci < n ==> !UntouchedRepeats(keep, captures, found, ci)
  {
    if n > 0 {
      PromiseKeptIff(keep, captures, found, n - 1);
      PromiseStep(keep, captures, found, n);
      hide KeepsPromise, UntouchedRepeats, Rebuilt;
    }
  }

  lemma PromiseStep(keep: KeepMode, captures: seq<Row>, found: Found, n: nat)
    requires 0 < n <= |captures|
    ensures KeepsPromise(keep, Rebuilt(keep, captures, found, n)) <==>
      KeepsPromise(keep, Rebuilt(keep, captures, found, n - 1)) && !UntouchedRepeats(keep, captures, found, n - 1)
  {
    hide KeepsPromise, IsRedundant, SaysTheSame;
    var out := Rebuilt(keep, captures, found, n - 1);
    if n - 1 in found {
      WrittenKeepsPromise(keep, out, PerDidRows(captures[n - 1], found[n - 1]));
    } else {
      NothingIsLost(keep, captures, found, n - 1);
      SaysTheSameAfter(keep, out, Expanded(captures, found, n - 1), captures[n - 1]);
      PromiseAppend(keep, out, captures[n - 1]);
    }
  }

  /**
    A split part followed by an untouched row of the same value: both are written, in a session whose
    rows all differed before the split.
   */
  lemma SplitCanBreakThePromise()
    ensures var captures := [Row(Some(7), "22AAAA", "62AAAA01BBBB02", None, ""),
                             Row(Some(7), "22BBBB", "62BBBB02", None, "")];
      var found := map[0 := [Part("AAAA", "62AAAA01"), Part("BBBB", "62BBBB02")]];
      KeepsPromise(Changes, captures) && !KeepsPromise(Changes, Rebuilt(Changes, captures, found, 2))
  {
    var batch := Row(Some(7), "22AAAA", "62AAAA01BBBB02", None, "");
    var single := Row(Some(7), "22BBBB", "62BBBB02", None, "");
    var captures, found := [batch, single], map[0 := [Part("AAAA", "62AAAA01"), Part("BBBB", "62BBBB02")]];
    SingleRepeats(captures, found, batch, single);
    PromiseKeptIff(Changes, captures, found, 2);
    assert UntouchedRepeats(Changes, captures, found, 1);
  }

  lemma SingleRepeats(captures: seq<Row>, found: Found, batch: Row, single: Row)
    requires captures == [batch, single] && found == map[0 := [Part("AAAA", "62AAAA01"), Part("BBBB", "62BBBB02")]]
    requires batch == Row(Some(7), "22AAAA", "62AAAA01BBBB02", None, "")
    requires single == Row(Some(7), "22BBBB", "62BBBB02", None, "")
    ensures KeepsPromise(Changes, captures) && UntouchedRepeats(Changes, captures, found, 1)
  {
    assert captures[..0] == [] && captures[..1] == [batch];
    assert "22" + "BBBB" == "22BBBB" && "22" + "AAAA" == "22AAAA";
    assert Upper("22BBBB")[2] == 'B' && Upper("22AAAA")[2] == 'A';
    assert Holding([batch], (7, Upper("22BBBB"))).None? by {
      assert [batch][..0] == [];
    }
    var rows := PerDidRows(batch, found[0]);
    assert Upper("62BBBB02") == "62BBBB02";
    assert rows[1] == single;
    assert Expanded(captures, found, 1) == rows;
  }
}
