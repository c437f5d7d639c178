/**
  A session's stored captures: insertion-ordered dictionaries of JSON values, and the few
  stored entries that are not dictionaries at all.
 */
module CaptureRows {
  import opened Wrappers
  import opened ClockTime

  datatype Value =
    | Null
    | Bool(b: bool)
    | Int(n: int)
    | Text(s: string)
    | List(items: seq<Value>)
    | Other(id: int)

  /** A dictionary: its keys in insertion order, and the value of each key. */
  datatype Dict = Dict(names: seq<string>, fields: map<string, Value>) {

    ghost predicate WellFormed() {
      && Distinct(names)
      && (forall n :: n in names <==> n in fields)
    }

    function Get(name: string): Option<Value> {
      if name in fields then Some(fields[name]) else None
    }

    function GetOr(name: string, default: Value): Value {
      if name in fields then fields[name] else default
    }

    /** `{**row, name: v}`: an existing key keeps its place, a new one goes last. */
    function With(name: string, v: Value): (r: Dict)
      ensures WellFormed() ==> r.WellFormed()
    {
      Dict(if name in fields then names else names + [name], fields[name := v])
    }

    /** `row.pop(name, None)`: the row that remains. */
    function Without(name: string): (r: Dict)
      ensures WellFormed() ==> r.WellFormed()
    {
      var rest := RemoveName(names, name);
      RemoveNameKeepsOrder(names, name);
      Dict(rest, fields - {name})
    }
  }

  type Row = d: Dict | d.WellFormed() witness Dict([], map[])

  /** One entry of a session's `captures` list. */
  datatype Item = Record(row: Row) | Bare(id: int)

  predicate Distinct(names: seq<string>) {
    forall i, j :: 0 <= i < j < |names| ==> names[i] != names[j]
  }

  function RemoveName(names: seq<string>, name: string): (r: seq<string>)
    ensures forall n :: n in r <==> n in names && n != name
  {
    if names == [] then []
    else if names[0] == name then RemoveName(names[1..], name)
    else [names[0]] + RemoveName(names[1..], name)
  }

  lemma {:induction false} RemoveNameKeepsOrder(names: seq<string>, name: string)
    ensures Distinct(names) ==> Distinct(RemoveName(names, name))
  {
    if names != [] {
      RemoveNameKeepsOrder(names[1..], name);
      if Distinct(names) && names[0] != name {
        assert names[0] !in names[1..];
        assert names[0] !in RemoveName(names[1..], name);
      }
    }
  }

  /** Milliseconds and precision of a row's time, when it is a canonical (or loose) time. */
  function TimeOf(row: Dict): Option<(int, bool)> {
    match row.Get("time")
    case Some(Text(s)) => ParseMs(s)
    case _ => None
  }

  predicate HasLooseTime(row: Dict) {
    TimeOf(row).Some? && EndsInNewline(row.fields["time"].s)
  }

  /** Every field but `time`, in order: what a repeat must share with its run's first row. */
  function Shape(row: Dict): (seq<string>, map<string, Value>) {
    (RemoveName(row.names, "time"), row.fields - {"time"})
  }

  /** Key of the run a row belongs to: its response address (or ECU) and PID. */
  function RunKey(row: Dict): (Value, Value) {
    (row.GetOr("rx", row.GetOr("ecu", Null)), row.GetOr("pid", Null))
  }

  /** The row with its time written canonically; a row without a readable time is itself. */
  function Canonical(row: Row): Row {
    match TimeOf(row)
    case None => row
    case Some(t) =>
      match FormatMs(t.0, t.1)
      case None => row
      case Some(s) => row.With("time", Text(s))
  }

  /** Python equality of two dictionaries: same keys and values, in any order. */
  predicate SameDict(a: Dict, b: Dict) {
    a.fields == b.fields
  }

  predicate SameItem(a: Item, b: Item) {
    match (a, b)
    case (Record(x), Record(y)) => SameDict(x, y)
    case (Bare(x), Bare(y)) => x == y
    case _ => false
  }

  /** Python equality of two lists of captures. */
  predicate SameItems(a: seq<Item>, b: seq<Item>) {
    |a| == |b| && forall i :: 0 <= i < |a| ==> SameItem(a[i], b[i])
  }

  /** Only a loose time is changed by writing it canonically. */
  lemma CanonicalChangesOnlyLooseTimes(row: Row)
    ensures SameDict(Canonical(row), row) <==> !HasLooseTime(row)
  {
    if TimeOf(row).Some? {
      var t := row.fields["time"].s;
      ParseThenFormat(t);
      if EndsInNewline(t) {
        assert |t[..|t| - 1]| < |t|;
        assert Canonical(row).fields["time"] != row.fields["time"];
      } else {
        assert Canonical(row).fields == row.fields;
      }
    }
  }

  /** Rows of one shape belong to one run. */
  lemma ShapeDeterminesRunKey(a: Dict, b: Dict)
    requires Shape(a) == Shape(b)
    ensures RunKey(a) == RunKey(b)
  {
    forall n | n != "time"
      ensures a.Get(n) == b.Get(n)
    {
      assert n in a.fields <==> n in Shape(a).1;
      assert n in b.fields <==> n in Shape(b).1;
      if n in a.fields {
        assert a.fields[n] == Shape(a).1[n] == Shape(b).1[n] == b.fields[n];
      }
    }
    assert a.Get("rx") == b.Get("rx") && a.Get("ecu") == b.Get("ecu") && a.Get("pid") == b.Get("pid");
  }

  /** A run's first row stamped with another time is the row of that time. */
  lemma RestampedFirstRow(first: Row, row: Row)
    requires Shape(row) == Shape(first)
    requires TimeOf(row).Some? && TimeOf(first).Some?
    ensures FormatMs(TimeOf(row).value.0, TimeOf(row).value.1).Some?
    ensures SameDict(first.With("time", Text(FormatMs(TimeOf(row).value.0, TimeOf(row).value.1).value)),
                     Canonical(row))
  {
    ParseThenFormat(row.fields["time"].s);
    var t := Text(FormatMs(TimeOf(row).value.0, TimeOf(row).value.1).value);
    assert first.fields - {"time"} == row.fields - {"time"};
    assert forall n :: n in first.fields && n != "time" ==>
      n in first.fields - {"time"} && first.fields[n] == (first.fields - {"time"})[n];
    assert forall n :: n in row.fields && n != "time" ==>
      n in row.fields - {"time"} && row.fields[n] == (row.fields - {"time"})[n];
    assert first.fields["time" := t] == row.fields["time" := t];
  }

  // ---------- runs and shapes in plain terms ----------

  /** Rows with a response address are of one run when it and the PID agree, whatever ECU names they carry. */
  lemma RunsShareAddressAndPid(a: Dict, b: Dict)
    ensures "rx" in a.fields && "rx" in b.fields ==>
      (RunKey(a) == RunKey(b) <==> a.fields["rx"] == b.fields["rx"] && a.GetOr("pid", Null) == b.GetOr("pid", Null))
    ensures "rx" !in a.fields && "rx" !in b.fields ==>
      (RunKey(a) == RunKey(b) <==>
        a.GetOr("ecu", Null) == b.GetOr("ecu", Null) && a.GetOr("pid", Null) == b.GetOr("pid", Null))
  {
  }

  /** Rows that list the same fields are of one shape when all but their times agree. */
  lemma ShapesAgree(a: Dict, b: Dict)
    requires a.names == b.names
    ensures Shape(a) == Shape(b) <==> forall n :: n != "time" ==> a.Get(n) == b.Get(n)
  {
    var x, y := a.fields - {"time"}, b.fields - {"time"};
    if forall n :: n != "time" ==> a.Get(n) == b.Get(n) {
      forall n
        ensures n in x <==> n in y
        ensures n in x ==> x[n] == y[n]
      {
        if n != "time" {
          assert a.Get(n) == b.Get(n);
        }
      }
      assert x == y;
    }
    if x == y {
      forall n | n != "time"
        ensures a.Get(n) == b.Get(n)
      {
        assert (n in a.fields <==> n in x) && (n in b.fields <==> n in y);
        if n in x {
          assert x[n] == a.fields[n] && y[n] == b.fields[n];
        }
      }
    }
  }
}
