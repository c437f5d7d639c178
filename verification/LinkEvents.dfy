/**
  A journal's link events paired into intervals and split by calendar day.

  Days are numbers, times seconds since midnight. `DayList` says what each day holds; `EventsByDate`
  is the pass that places the starts and then splits what ended on a later day.
 */
module LinkEvents {
  import opened Wrappers
  import opened Lists
  import opened Sorting

  const DAY: real := 86400.0

  datatype Kind = Disconnect | Paused | EcuSilent | Unpolled | Backoff | Resync

  datatype Event = Event(kind: Kind, at: real, until: Option<real>, rx: Option<string>, pid: Option<string>)

  /** A journal line: an event, with the id its end repeats, or such an end. */
  datatype Record = Opens(id: Option<int>, day: int, event: Event) | Closes(ends: int, day: int, at: real) | Other

  /** Only an interval event with an id can be ended. */
  predicate CanEnd(r: Record) {
    r.Opens? && r.id.Some? && r.event.kind != Resync
  }

  // ---------- what the lines say ----------

  datatype Moment = Moment(day: int, at: real)

  /** The last line starting `id`, and the last ending it. */
  function StartOf(records: seq<Record>, id: int): (i: Option<nat>)
    ensures i.Some? ==> i.value < |records| && CanEnd(records[i.value]) && records[i.value].id == Some(id)
  {
    if records == [] then None
    else
      var n := |records| - 1;
      if CanEnd(records[n]) && records[n].id == Some(id) then Some(n) else StartOf(records[..n], id)
  }

  function EndOf(records: seq<Record>, id: int): Option<Moment> {
    if records == [] then None
    else
      var r := records[|records| - 1];
      if r.Closes? && r.ends == id then Some(Moment(r.day, r.at)) else EndOf(records[..|records| - 1], id)
  }

  /** The ids started, by first appearance. */
  function Ids(records: seq<Record>): seq<int> {
    if records == [] then []
    else
      var before, r := Ids(records[..|records| - 1]), records[|records| - 1];
      if CanEnd(r) && r.id.value !in before then before + [r.id.value] else before
  }

  /** The event of line `i` as placed on its own day: closed there when its end is on the same day. */
  function PlacedEvent(records: seq<Record>, i: nat): Event
    requires i < |records| && records[i].Opens?
  {
    var r := records[i];
    if CanEnd(r) && StartOf(records, r.id.value) == Some(i) then
      match EndOf(records, r.id.value)
      case Some(Moment(day, at)) => if day == r.day then r.event.(until := Some(at)) else r.event
      case None => r.event
    else r.event
  }

  /** The piece of interval `id` on a day after it began, up to and including the day it ended. */
  function Continuation(records: seq<Record>, id: int, day: int): Option<Event> {
    match StartOf(records, id)
    case None => None
    case Some(i) =>
      match EndOf(records, id)
      case None => None
      case Some(Moment(endDay, at)) =>
        if records[i].day < day <= endDay then
          Some(records[i].event.(at := 0.0, until := if day == endDay then Some(at) else records[i].event.until))
        else None
  }

  function PlacedOn(records: seq<Record>, day: int, n: nat): seq<Event>
    requires n <= |records|
  {
    if n == 0 then []
    else
      var before := PlacedOn(records, day, n - 1);
      if records[n - 1].Opens? && records[n - 1].day == day then before + [PlacedEvent(records, n - 1)] else before
  }

  function ContinuedOn(records: seq<Record>, day: int, ids: seq<int>): seq<Event> {
    if ids == [] then []
    else
      var before := ContinuedOn(records, day, ids[..|ids| - 1]);
      match Continuation(records, ids[|ids| - 1], day)
      case Some(e) => before + [e]
      case None => before
  }

  function DayList(records: seq<Record>, day: int): seq<Event> {
    PlacedOn(records, day, |records|) + ContinuedOn(records, day, Ids(records))
  }

  predicate StartsNoLater(a: Event, b: Event) {
    a.at <= b.at
  }

  /** Each day holds its list, sorted by start, events that start together in list order. */
  ghost predicate AreByDay(records: seq<Record>, byDay: map<int, seq<Event>>) {
    && (forall d :: d in byDay <==> DayList(records, d) != [])
    && (forall d :: d in byDay ==> exists order :: IsStablySorted(DayList(records, d), byDay[d], order, StartsNoLater))
  }

  // ---------- intervals and their pieces ----------

  function Absolute(day: int, at: real): real {
    day as real * DAY + at
  }

  /** A piece with no end lasts to midnight. */
  predicate Covers(day: int, e: Event, t: real) {
    Absolute(day, e.at) <= t < (if e.until.Some? then Absolute(day, e.until.value) else Absolute(day + 1, 0.0))
  }

  /** The one piece of interval `id` on a day, if any. */
  function PieceOn(records: seq<Record>, id: int, day: int): Option<Event> {
    match StartOf(records, id)
    case None => None
    case Some(i) => if day == records[i].day then Some(PlacedEvent(records, i)) else Continuation(records, id, day)
  }

  predicate IsClosed(records: seq<Record>, id: int) {
    && StartOf(records, id).Some? && EndOf(records, id).Some?
    && var r, end := records[StartOf(records, id).value], EndOf(records, id).value;
    && r.event.until.None? && 0.0 <= r.event.at < DAY && 0.0 <= end.at < DAY
    && Absolute(r.day, r.event.at) <= Absolute(end.day, end.at)
  }

  lemma DayOrder(day: int, at: real, endDay: int, end: real)
    requires 0.0 <= at < DAY && 0.0 <= end < DAY
    ensures day < endDay ==> Absolute(day + 1, 0.0) <= Absolute(endDay, end)
    ensures day < endDay ==> Absolute(day, at) < Absolute(endDay, end)
    ensures endDay < day ==> Absolute(endDay, end) < Absolute(day, at)
  {
  }

  /** A closed interval has a piece on each day from its first to its last, and on no other. */
  lemma OnePieceADay(records: seq<Record>, id: int, day: int)
    requires IsClosed(records, id)
    ensures var r, end := records[StartOf(records, id).value], EndOf(records, id).value;
      r.day <= end.day && (PieceOn(records, id, day).Some? <==> r.day <= day <= end.day)
  {
    var r, end := records[StartOf(records, id).value], EndOf(records, id).value;
    DayOrder(r.day, r.event.at, end.day, end.at);
    hide StartOf, EndOf;
  }

  /** The piece on day `d` takes in the instant `t`. */
  predicate Takes(records: seq<Record>, id: int, d: int, t: real) {
    PieceOn(records, id, d).Some? && Covers(d, PieceOn(records, id, d).value, t)
  }

  /** The pieces together cover exactly the interval, and no instant twice. */
  lemma PiecesCoverTheInterval(records: seq<Record>, id: int, t: real)
    requires IsClosed(records, id)
    ensures var r, end := records[StartOf(records, id).value], EndOf(records, id).value;
      Absolute(r.day, r.event.at) <= t < Absolute(end.day, end.at) <==> exists d :: Takes(records, id, d, t)
    ensures forall c, d :: Takes(records, id, c, t) && Takes(records, id, d, t) ==> c == d
  {
    var r, end := records[StartOf(records, id).value], EndOf(records, id).value;
    forall d
      ensures Takes(records, id, d, t) <==>
        PieceOn(records, id, d).Some? && Absolute(r.day, r.event.at) <= t < Absolute(end.day, end.at) && d == DayOf(t)
    {
      if PieceOn(records, id, d).Some? {
        PieceCovers(records, id, d, t);
      }
    }
    if Absolute(r.day, r.event.at) <= t < Absolute(end.day, end.at) {
      DayOfBetween(r.day, r.event.at, end.day, end.at, t);
      OnePieceADay(records, id, DayOf(t));
    }
    hide PieceOn, Covers;
  }

  function DayOf(t: real): int {
    (t / DAY).Floor
  }

  lemma DayOfIs(t: real, d: int)
    ensures Absolute(d, 0.0) <= t < Absolute(d + 1, 0.0) <==> d == DayOf(t)
  {
    var q := t / DAY;
    assert q * DAY == t;
    assert d as real <= q < (d + 1) as real <==> d == q.Floor;
  }

  lemma DayOfBetween(day: int, at: real, endDay: int, end: real, t: real)
    requires 0.0 <= at < DAY && 0.0 <= end < DAY && Absolute(day, at) <= t < Absolute(endDay, end)
    ensures day <= DayOf(t) <= endDay
  {
    var d := DayOf(t);
    DayOfIs(t, d);
    var rest := t - d as real * DAY;
    DayOrder(day, at, d, rest);
    DayOrder(d, rest, endDay, end);
  }

  lemma PieceCovers(records: seq<Record>, id: int, d: int, t: real)
    requires IsClosed(records, id) && PieceOn(records, id, d).Some?
    ensures var r, end := records[StartOf(records, id).value], EndOf(records, id).value;
      Covers(d, PieceOn(records, id, d).value, t) <==>
        Absolute(r.day, r.event.at) <= t < Absolute(end.day, end.at) && d == DayOf(t)
  {
    var r, end := records[StartOf(records, id).value], EndOf(records, id).value;
    DayOfIs(t, d);
    OnePieceADay(records, id, d);
    hide StartOf, EndOf, DayOf;
    DayOrder(d, 0.0, end.day, end.at);
    DayOrder(r.day, r.event.at, d, 0.0);
  }

  // ---------- the algorithm ----------

  /** The tables, read as functions of the lines. */
  ghost predicate TellStartsAndEnds(records: seq<Record>, ids: seq<int>, starts: map<int, nat>,
                                    ends: map<int, Moment>) {
    && ids == Ids(records)
    && (forall id :: if id in starts then StartOf(records, id) == Some(starts[id]) else StartOf(records, id).None?)
    && (forall id :: if id in ends then EndOf(records, id) == Some(ends[id]) else EndOf(records, id).None?)
    && (forall id :: id in ids <==> id in starts)
  }

  /** The events of the first `n` lines, by line. */
  ghost predicate AreEvents(records: seq<Record>, n: nat, events: map<nat, Event>)
    requires n <= |records|
  {
    && (forall i: nat :: i in events <==> i < n && records[i].Opens?)
    && (forall i: nat :: i < n && records[i].Opens? ==> i in events && events[i] == records[i].event)
  }

  lemma LineRead(records: seq<Record>, n: nat, id: int)
    requires n < |records|
    ensures var r := records[n];
      && StartOf(records[..n + 1], id) == (if CanEnd(r) && r.id == Some(id) then Some(n) else StartOf(records[..n], id))
      && EndOf(records[..n + 1], id) ==
         if r.Closes? && r.ends == id then Some(Moment(r.day, r.at)) else EndOf(records[..n], id)
  {
    assert records[..n + 1][..n] == records[..n];
  }

  lemma IdsRead(records: seq<Record>, n: nat)
    requires n < |records|
    ensures var r, ids := records[n], Ids(records[..n]);
      Ids(records[..n + 1]) == if CanEnd(r) && r.id.value !in ids then ids + [r.id.value] else ids
  {
    assert records[..n + 1][..n] == records[..n];
  }

  lemma StartRead(records: seq<Record>, n: nat, ids: seq<int>, starts: map<int, nat>, ends: map<int, Moment>)
    requires n < |records| && TellStartsAndEnds(records[..n], ids, starts, ends) && !records[n].Closes?
    ensures var r := records[n];
      if CanEnd(r) then
        TellStartsAndEnds(records[..n + 1], if r.id.value in starts then ids else ids + [r.id.value],
                          starts[r.id.value := n], ends)
      else TellStartsAndEnds(records[..n + 1], ids, starts, ends)
  {
    IdsRead(records, n);
    hide StartOf, EndOf, Ids;
    var r, more := records[n], records[..n + 1];
    if CanEnd(r) {
      var key := r.id.value;
      var after := starts[key := n];
      forall id
        ensures if id in after then StartOf(more, id) == Some(after[id]) else StartOf(more, id).None?
        ensures if id in ends then EndOf(more, id) == Some(ends[id]) else EndOf(more, id).None?
      {
        LineRead(records, n, id);
      }
    } else {
      forall id
        ensures if id in starts then StartOf(more, id) == Some(starts[id]) else StartOf(more, id).None?
        ensures if id in ends then EndOf(more, id) == Some(ends[id]) else EndOf(more, id).None?
      {
        LineRead(records, n, id);
      }
    }
  }

  lemma EndRead(records: seq<Record>, n: nat, ids: seq<int>, starts: map<int, nat>, ends: map<int, Moment>)
    requires n < |records| && TellStartsAndEnds(records[..n], ids, starts, ends) && records[n].Closes?
    ensures var r := records[n]; TellStartsAndEnds(records[..n + 1], ids, starts, ends[r.ends := Moment(r.day, r.at)])
  {
    var r := records[n];
    assert records[..n + 1][..n] == records[..n];
    forall id
      ensures EndOf(records[..n + 1], id) == if r.ends == id then Some(Moment(r.day, r.at)) else EndOf(records[..n], id)
      ensures StartOf(records[..n + 1], id) == StartOf(records[..n], id)
    {
    }
    hide StartOf, EndOf;
  }

  method ReadLines(records: seq<Record>)
    returns (ids: seq<int>, starts: map<int, nat>, ends: map<int, Moment>, events: map<nat, Event>)
    ensures TellStartsAndEnds(records, ids, starts, ends) && AreEvents(records, |records|, events)
  {
    hide TellStartsAndEnds, StartOf, EndOf, Ids;
    ids, starts, ends, events := [], map[], map[], map[];
    NothingRead(records);
    for n := 0 to |records|
      invariant TellStartsAndEnds(records[..n], ids, starts, ends) && AreEvents(records, n, events)
    {
      var r := records[n];
      if r.Closes? {
        EndRead(records, n, ids, starts, ends);
        ends := ends[r.ends := Moment(r.day, r.at)];
      } else {
        StartRead(records, n, ids, starts, ends);
        if r.Opens? {
          if CanEnd(r) {
            if r.id.value !in starts {
              ids := ids + [r.id.value];
            }
            starts := starts[r.id.value := n];
          }
          events := events[n := r.event];
        }
      }
    }
    assert records[..|records|] == records;
  }

  lemma NothingRead(records: seq<Record>)
    ensures TellStartsAndEnds(records[..0], [], map[], map[])
  {
  }

  /** Same-day ends set on the events of the ids done so far. */
  ghost predicate AreClosed(records: seq<Record>, done: seq<int>, events: map<nat, Event>) {
    && (forall i: nat :: i in events <==> i < |records| && records[i].Opens?)
    && (forall i: nat :: i < |records| && records[i].Opens? ==>
          i in events
          && events[i] ==
             if CanEnd(records[i]) && records[i].id.value in done then PlacedEvent(records, i) else records[i].event)
  }

  lemma CloseOne(records: seq<Record>, ids: seq<int>, m: nat, starts: map<int, nat>, ends: map<int, Moment>,
                 events: map<nat, Event>)
    requires TellStartsAndEnds(records, ids, starts, ends) && m < |ids| && AreClosed(records, ids[..m], events)
    requires Distinct(ids)
    ensures var id := ids[m];
      && id in starts && starts[id] < |records| && records[starts[id]].Opens? && starts[id] in events
      && AreClosed(records, ids[..m + 1],
                   if id in ends && ends[id].day == records[starts[id]].day
                   then events[starts[id] := events[starts[id]].(until := Some(ends[id].at))] else events)
  {
    var id := ids[m];
    assert id in ids;
    assert ids[..m + 1] == ids[..m] + [id];
    assert id !in ids[..m];
    hide StartOf, EndOf;
    var i := starts[id];
    assert StartOf(records, id) == Some(i);
  }

  lemma AllClosed(records: seq<Record>, ids: seq<int>, starts: map<int, nat>, ends: map<int, Moment>,
                  events: map<nat, Event>)
    requires TellStartsAndEnds(records, ids, starts, ends) && AreClosed(records, ids, events)
    ensures forall i: nat :: i < |records| && records[i].Opens? ==> i in events && events[i] == PlacedEvent(records, i)
  {
    hide StartOf, EndOf;
  }

  type Days = map<int, seq<Event>>

  function On(days: Days, day: int): seq<Event> {
    if day in days then days[day] else []
  }

  function Put(days: Days, day: int, e: Event): Days {
    days[day := On(days, day) + [e]]
  }

  /** No day is listed without an event. */
  predicate NoneEmpty(days: Days) {
    forall d :: d in days ==> days[d] != []
  }

  lemma PutTells(days: Days, day: int, e: Event, other: int)
    requires NoneEmpty(days)
    ensures NoneEmpty(Put(days, day, e))
    ensures On(Put(days, day, e), other) == if other == day then On(days, day) + [e] else On(days, other)
  {
  }

  ghost predicate HoldsPlaced(records: seq<Record>, n: nat, days: Days)
    requires n <= |records|
  {
    NoneEmpty(days) && forall d :: On(days, d) == PlacedOn(records, d, n)
  }

  lemma PlaceOne(records: seq<Record>, n: nat, days: Days)
    requires n < |records| && HoldsPlaced(records, n, days)
    ensures var r := records[n];
      HoldsPlaced(records, n + 1, if r.Opens? then Put(days, r.day, PlacedEvent(records, n)) else days)
  {
    hide PlacedEvent;
    var r := records[n];
    if r.Opens? {
      var e := PlacedEvent(records, n);
      var after := Put(days, r.day, e);
      PutTells(days, r.day, e, r.day);
      forall d
        ensures On(after, d) == PlacedOn(records, d, n + 1)
      {
        PutTells(days, r.day, e, d);
        assert On(days, d) == PlacedOn(records, d, n);
      }
    } else {
      forall d
        ensures On(days, d) == PlacedOn(records, d, n + 1)
      {
        assert On(days, d) == PlacedOn(records, d, n);
      }
    }
  }

  method PlaceEvents(records: seq<Record>, events: map<nat, Event>) returns (days: Days)
    requires forall i: nat :: i < |records| && records[i].Opens? ==> i in events && events[i] == PlacedEvent(records, i)
    ensures HoldsPlaced(records, |records|, days)
  {
    hide PlacedEvent, Put, HoldsPlaced;
    days := map[];
    NothingPlaced(records);
    for n := 0 to |records|
      invariant HoldsPlaced(records, n, days)
    {
      PlaceOne(records, n, days);
      if records[n].Opens? {
        days := Put(days, records[n].day, events[n]);
      }
    }
  }

  lemma NothingPlaced(records: seq<Record>)
    ensures HoldsPlaced(records, 0, map[])
  {
  }

  /** Placed events, the pieces of the first `m` ids, and of the next one those before `upTo`. */
  ghost predicate HoldsContinued(records: seq<Record>, ids: seq<int>, m: nat, upTo: int, days: Days)
    requires m <= |ids|
  {
    && NoneEmpty(days)
    && forall d :: On(days, d) == PlacedOn(records, d, |records|)
                                + ContinuedOn(records, d, if m < |ids| && d < upTo then ids[..m + 1] else ids[..m])
  }

  lemma ContinueOne(records: seq<Record>, ids: seq<int>, m: nat, day: int, days: Days)
    requires m < |ids| && HoldsContinued(records, ids, m, day, days)
    ensures var c := Continuation(records, ids[m], day);
      HoldsContinued(records, ids, m, day + 1, if c.Some? then Put(days, day, c.value) else days)
  {
    hide Continuation, PlacedOn;
    var c := Continuation(records, ids[m], day);
    ContinuedStep(records, day, ids, m);
    forall d | c.Some? {
      PutTells(days, day, c.value, d);
    }
    hide ContinuedOn, On, Put;
    var after := if c.Some? then Put(days, day, c.value) else days;
    forall d
      ensures On(after, d) == PlacedOn(records, d, |records|)
                              + ContinuedOn(records, d, if d < day + 1 then ids[..m + 1] else ids[..m])
    {
      assert On(days, d) == PlacedOn(records, d, |records|)
                            + ContinuedOn(records, d, if d < day then ids[..m + 1] else ids[..m]);
    }
  }

  lemma ContinuedStep(records: seq<Record>, day: int, ids: seq<int>, m: nat)
    requires m < |ids|
    ensures var c := Continuation(records, ids[m], day);
      ContinuedOn(records, day, ids[..m + 1])
        == ContinuedOn(records, day, ids[..m]) + if c.Some? then [c.value] else []
  {
    assert ids[..m + 1][..m] == ids[..m];
  }

  /** Outside the days after its start up to its end, an id adds nothing. */
  lemma NothingElsewhere(records: seq<Record>, ids: seq<int>, m: nat, from: int, upTo: int, days: Days)
    requires m < |ids|
    requires forall d :: Continuation(records, ids[m], d).Some? ==> from <= d < upTo
    ensures HoldsContinued(records, ids, m, from, days) <==> HoldsContinuedFlat(records, ids, m, days)
    ensures HoldsContinued(records, ids, m, upTo, days) <==> HoldsContinuedFlat(records, ids, m + 1, days)
  {
    hide Continuation, PlacedOn, On;
    forall d
      ensures !(from <= d < upTo) ==> ContinuedOn(records, d, ids[..m + 1]) == ContinuedOn(records, d, ids[..m])
    {
      ContinuedStep(records, d, ids, m);
    }
    hide ContinuedOn;
  }

  ghost predicate HoldsContinuedFlat(records: seq<Record>, ids: seq<int>, m: nat, days: Days)
    requires m <= |ids|
  {
    NoneEmpty(days) && forall d :: On(days, d) == PlacedOn(records, d, |records|) + ContinuedOn(records, d, ids[..m])
  }

  lemma {:induction false} IdsAreDistinct(records: seq<Record>)
    ensures Distinct(Ids(records))
  {
    if records != [] {
      IdsAreDistinct(records[..|records| - 1]);
    }
  }

  /** An interval's pieces on the days after its start, through the day it ended. */
  method ContinueEvents(records: seq<Record>, ids: seq<int>, starts: map<int, nat>, ends: map<int, Moment>,
                        placed: Days)
    returns (days: Days)
    requires TellStartsAndEnds(records, ids, starts, ends) && HoldsPlaced(records, |records|, placed)
    ensures HoldsContinuedFlat(records, ids, |ids|, days)
  {
    hide Continuation, PlacedOn, ContinuedOn, StartOf, EndOf, On, Put, HoldsContinued, Ids;
    days := placed;
    StartFlat(records, ids, placed);
    for m := 0 to |ids|
      invariant HoldsContinuedFlat(records, ids, m, days)
    {
      hide HoldsContinuedFlat;
      var id := ids[m];
      assert id in ids;
      StartsAreLines(records, id);
      var r := records[starts[id]];
      if id !in ends || ends[id].day <= r.day {
        NoContinuation(records, id);
        NothingElsewhere(records, ids, m, 0, 0, days);
      } else {
        var end := ends[id];
        ContinuationDays(records, id);
        NothingElsewhere(records, ids, m, r.day + 1, end.day + 1, days);
        var day := r.day + 1;
        while day <= end.day
          invariant r.day + 1 <= day <= end.day + 1
          invariant HoldsContinued(records, ids, m, day, days)
        {
          ContinuationIs(records, id, day);
          ContinueOne(records, ids, m, day, days);
          var copy := r.event.(at := 0.0);
          if day == end.day {
            copy := copy.(until := Some(end.at));
          }
          days := Put(days, day, copy);
          day := day + 1;
        }
        NothingElsewhere(records, ids, m, r.day + 1, end.day + 1, days);
      }
    }
  }

  lemma StartFlat(records: seq<Record>, ids: seq<int>, days: Days)
    requires HoldsPlaced(records, |records|, days)
    ensures HoldsContinuedFlat(records, ids, 0, days)
  {
    forall d
      ensures On(days, d) == PlacedOn(records, d, |records|) + ContinuedOn(records, d, ids[..0])
    {
      assert ContinuedOn(records, d, ids[..0]) == [];
      assert On(days, d) == PlacedOn(records, d, |records|);
    }
  }

  lemma StartsAreLines(records: seq<Record>, id: int)
    ensures StartOf(records, id).Some? ==>
      StartOf(records, id).value < |records| && records[StartOf(records, id).value].Opens?
  {
  }

  lemma NoContinuation(records: seq<Record>, id: int)
    requires StartOf(records, id).Some?
    requires EndOf(records, id).None? || EndOf(records, id).value.day <= records[StartOf(records, id).value].day
    ensures forall d :: Continuation(records, id, d).None?
  {
  }

  lemma ContinuationDays(records: seq<Record>, id: int)
    requires StartOf(records, id).Some? && EndOf(records, id).Some?
    ensures forall d :: Continuation(records, id, d).Some? ==>
      records[StartOf(records, id).value].day + 1 <= d < EndOf(records, id).value.day + 1
  {
  }

  lemma ContinuationIs(records: seq<Record>, id: int, day: int)
    requires StartOf(records, id).Some? && EndOf(records, id).Some?
    requires records[StartOf(records, id).value].day < day <= EndOf(records, id).value.day
    ensures var r, end := records[StartOf(records, id).value], EndOf(records, id).value;
      Continuation(records, id, day)
        == Some(r.event.(at := 0.0, until := if day == end.day then Some(end.at) else r.event.until))
  {
  }

  lemma StartsNoLaterIsTotal()
    ensures IsTotal(StartsNoLater)
  {
  }

  lemma SomeDay(days: set<int>)
    ensures days == {} || exists d :: d in days
  {
    if forall d :: d !in days {
      assert days == {};
    }
  }

  method SortDays(days: Days) returns (sorted: Days)
    ensures sorted.Keys == days.Keys
    ensures forall d :: d in days ==> exists order :: IsStablySorted(days[d], sorted[d], order, StartsNoLater)
  {
    hide IsStablySorted, Sorting.InOrder;
    sorted := days;
    var left := days.Keys;
    StartsNoLaterIsTotal();
    while left != {}
      invariant left <= days.Keys && sorted.Keys == days.Keys
      invariant forall d :: d in left ==> sorted[d] == days[d]
      invariant forall d :: d in days.Keys - left ==>
        exists order :: IsStablySorted(days[d], sorted[d], order, StartsNoLater)
      decreases |left|
    {
      SomeDay(left);
      var d :| d in left;
      var list, order := SortBy(days[d], StartsNoLater);
      sorted := sorted[d := list];
      left := left - {d};
    }
  }

  method EventsByDate(records: seq<Record>) returns (byDay: map<int, seq<Event>>)
    ensures AreByDay(records, byDay)
  {
    hide TellStartsAndEnds, AreEvents, AreClosed, HoldsPlaced, HoldsContinuedFlat, IsStablySorted, DayList;
    var ids, starts, ends, events := ReadLines(records);
    IdsAre(records, ids, starts, ends);
    NoneClosed(records, events);
    for m := 0 to |ids|
      invariant AreClosed(records, ids[..m], events)
    {
      CloseOne(records, ids, m, starts, ends, events);
      var id := ids[m];
      if id in ends && ends[id].day == records[starts[id]].day {
        events := events[starts[id] := events[starts[id]].(until := Some(ends[id].at))];
      }
    }
    assert ids[..|ids|] == ids;
    AllClosed(records, ids, starts, ends, events);
    var days := PlaceEvents(records, events);
    days := ContinueEvents(records, ids, starts, ends, days);
    DaysAreLists(records, ids, days);
    byDay := SortDays(days);
  }

  lemma IdsAre(records: seq<Record>, ids: seq<int>, starts: map<int, nat>, ends: map<int, Moment>)
    requires TellStartsAndEnds(records, ids, starts, ends)
    ensures ids == Ids(records) && Distinct(ids)
  {
    IdsAreDistinct(records);
  }

  lemma NoneClosed(records: seq<Record>, events: map<nat, Event>)
    requires AreEvents(records, |records|, events)
    ensures forall ids: seq<int> :: AreClosed(records, ids[..0], events)
  {
  }

  lemma DaysAreLists(records: seq<Record>, ids: seq<int>, days: Days)
    requires ids == Ids(records) && HoldsContinuedFlat(records, ids, |ids|, days)
    ensures forall d :: d in days <==> DayList(records, d) != []
    ensures forall d :: d in days ==> days[d] == DayList(records, d)
  {
    assert ids[..|ids|] == ids;
    hide PlacedOn, ContinuedOn, Ids;
    forall d
      ensures On(days, d) == DayList(records, d)
    {
    }
  }

  // ---------- every piece is listed, and nothing else moves ----------

  lemma {:induction false} PlacedIsListed(records: seq<Record>, n: nat, i: nat)
    requires i < n <= |records| && records[i].Opens?
    ensures PlacedEvent(records, i) in PlacedOn(records, records[i].day, n)
  {
    hide PlacedEvent;
    if i < n - 1 {
      PlacedIsListed(records, n - 1, i);
    }
  }

  lemma {:induction false} ContinuationIsListed(records: seq<Record>, ids: seq<int>, id: int, day: int)
    requires id in ids && Continuation(records, id, day).Some?
    ensures Continuation(records, id, day).value in ContinuedOn(records, day, ids)
  {
    hide Continuation;
    var before := ids[..|ids| - 1];
    assert ids == before + [ids[|ids| - 1]];
    if id in before {
      ContinuationIsListed(records, before, id, day);
    }
  }

  lemma {:induction false} StartedIsAnId(records: seq<Record>, id: int)
    ensures StartOf(records, id).Some? <==> id in Ids(records)
  {
    if records != [] {
      StartedIsAnId(records[..|records| - 1], id);
    }
  }

  /** Each piece of an interval is on its day's list. */
  lemma PieceIsListed(records: seq<Record>, id: int, day: int)
    requires PieceOn(records, id, day).Some?
    ensures PieceOn(records, id, day).value in DayList(records, day)
  {
    StartedIsAnId(records, id);
    var i := StartOf(records, id).value;
    if day == records[i].day {
      PlacedIsListed(records, |records|, i);
    } else {
      ContinuationIsListed(records, Ids(records), id, day);
    }
  }

  lemma {:induction false} LineStarts(records: seq<Record>, i: nat)
    requires i < |records| && CanEnd(records[i])
    ensures StartOf(records, records[i].id.value).Some?
  {
    if i < |records| - 1 {
      LineStarts(records[..|records| - 1], i);
    }
  }

  lemma {:induction false} PlacedStays(records: seq<Record>, end: Record, day: int, n: nat)
    requires n <= |records| && end.Closes? && StartOf(records, end.ends).None?
    ensures PlacedOn(records + [end], day, n) == PlacedOn(records, day, n)
  {
    if n > 0 {
      PlacedStays(records, end, day, n - 1);
      var r := records[n - 1];
      if r.Opens? {
        EventStays(records, end, n - 1);
      }
      hide PlacedEvent;
    }
  }

  lemma EventStays(records: seq<Record>, end: Record, i: nat)
    requires i < |records| && records[i].Opens? && end.Closes? && StartOf(records, end.ends).None?
    ensures PlacedEvent(records + [end], i) == PlacedEvent(records, i)
  {
    assert (records + [end])[..|records|] == records;
    if CanEnd(records[i]) {
      LineStarts(records, i);
    }
  }

  lemma {:induction false} ContinuedStays(records: seq<Record>, end: Record, day: int, ids: seq<int>)
    requires end.Closes? && StartOf(records, end.ends).None?
    ensures ContinuedOn(records + [end], day, ids) == ContinuedOn(records, day, ids)
  {
    assert (records + [end])[..|records|] == records;
    if ids != [] {
      ContinuedStays(records, end, day, ids[..|ids| - 1]);
    }
  }

  /** An end whose start the journal does not hold changes no day. */
  lemma UnmatchedEndChangesNothing(records: seq<Record>, end: Record, day: int)
    requires end.Closes? && StartOf(records, end.ends).None?
    ensures DayList(records + [end], day) == DayList(records, day)
  {
    var more := records + [end];
    assert more[..|records|] == records;
    PlacedStays(records, end, day, |records|);
    ContinuedStays(records, end, day, Ids(records));
    assert Ids(more) == Ids(records);
    assert PlacedOn(more, day, |more|) == PlacedOn(more, day, |records|);
  }

  /** A start whose end never came has one piece, open on the day it began. */
  lemma UnmatchedStartStaysOpen(records: seq<Record>, id: int, day: int)
    requires StartOf(records, id).Some? && EndOf(records, id).None?
    ensures var r := records[StartOf(records, id).value];
      PieceOn(records, id, day) == if day == r.day then Some(r.event) else None
  {
  }

  // ---------- what can be ended ----------

  /** An event with an id starts an interval, unless it is an instant: a resync. */
  lemma EveryKindButResyncStarts(records: seq<Record>, r: Record, id: int)
    requires r.Opens?
    ensures StartOf(records + [r], id) ==
      if r.id == Some(id) && r.event.kind != Resync then Some(|records|) else StartOf(records, id)
    ensures EndOf(records + [r], id) == EndOf(records, id)
  {
    assert (records + [r])[..|records|] == records;
  }

  /** An instant is placed as it was recorded, whatever ends carry its id. */
  lemma ResyncIsNeverEnded(records: seq<Record>, i: nat)
    requires i < |records| && records[i].Opens? && records[i].event.kind == Resync
    ensures PlacedEvent(records, i) == records[i].event
    ensures records[i].event in DayList(records, records[i].day)
  {
    PlacedIsListed(records, |records|, i);
  }
}
