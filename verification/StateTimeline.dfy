/**
  When a vehicle was in which state, rebuilt from a session's decoded cycles.

  `Latched` says outright which states hold after a cycle; `StatesAt` reads a timeline at an instant.
 */
module StateTimeline {
  import opened Wrappers
  import opened Sorting

  type State = string
  type Signal = string

  // ---------- timelines ----------

  /** The states holding from `at` until the next span. */
  datatype Span = Span(at: real, states: set<State>)

  predicate Chronological(spans: seq<Span>) {
    forall i, k :: 0 <= i < k < |spans| ==> spans[i].at <= spans[k].at
  }

  /** The last span begun by `t`. */
  function StatesAt(spans: seq<Span>, t: real): Option<set<State>> {
    if spans == [] then None
    else if spans[|spans| - 1].at <= t then Some(spans[|spans| - 1].states)
    else StatesAt(spans[..|spans| - 1], t)
  }

  /** Looking a time up by halving. */
  method FindStatesAt(spans: seq<Span>, t: real) returns (r: Option<set<State>>)
    requires Chronological(spans)
    ensures r == StatesAt(spans, t)
  {
    var lo, hi := 0, |spans|;
    while lo < hi
      invariant 0 <= lo <= hi <= |spans|
      invariant forall k :: 0 <= k < lo ==> spans[k].at <= t
      invariant forall k :: hi <= k < |spans| ==> t < spans[k].at
    {
      var mid := (lo + hi) / 2;
      if spans[mid].at <= t {
        lo := mid + 1;
      } else {
        hi := mid;
      }
    }
    LaterSpansAreNot(spans, t, lo);
    if lo == 0 {
      return None;
    }
    return Some(spans[lo - 1].states);
  }

  lemma {:induction false} LaterSpansAreNot(spans: seq<Span>, t: real, n: nat)
    requires n <= |spans| && forall k :: n <= k < |spans| ==> t < spans[k].at
    ensures StatesAt(spans, t) == StatesAt(spans[..n], t)
    decreases |spans|
  {
    if n < |spans| {
      var before := spans[..|spans| - 1];
      LaterSpansAreNot(before, t, n);
      assert before[..n] == spans[..n];
    } else {
      assert spans[..n] == spans;
    }
  }

  /** An observation at a time that may not be readable. */
  datatype Observation = Observation(at: Option<real>, states: set<State>)

  function Readable(observations: seq<Observation>): (spans: seq<Span>) {
    if observations == [] then []
    else
      var o := observations[|observations| - 1];
      var before := Readable(observations[..|observations| - 1]);
      if o.at.Some? then before + [Span(o.at.value, o.states)] else before
  }

  predicate NotLater(a: Span, b: Span) {
    a.at <= b.at
  }

  ghost predicate HoldTheSame(observed: seq<Span>, spans: seq<Span>) {
    forall t :: StatesAt(spans, t) == StatesAt(observed, t)
  }

  function SetsIn(spans: seq<Span>): set<set<State>> {
    set s | s in spans :: s.states
  }

  function LastSet(spans: seq<Span>): Option<set<State>> {
    if spans == [] then None else Some(spans[|spans| - 1].states)
  }

  /** The spans' sets are the observed ones, and no two in a row are equal. */
  ghost predicate NameTheSame(observed: seq<Span>, spans: seq<Span>) {
    && SetsIn(spans) == SetsIn(observed) && LastSet(spans) == LastSet(observed)
    && (forall k :: 0 < k < |spans| ==> spans[k].states != spans[k - 1].states)
  }

  ghost predicate Coalesces(observed: seq<Span>, spans: seq<Span>) {
    HoldTheSame(observed, spans) && NameTheSame(observed, spans)
  }

  lemma StatesAtAppend(spans: seq<Span>, s: Span, t: real)
    ensures StatesAt(spans + [s], t) == if s.at <= t then Some(s.states) else StatesAt(spans, t)
  {
    assert (spans + [s])[..|spans|] == spans;
  }

  /** Once a list is past `t`, its last span is what holds. */
  lemma LastHolds(spans: seq<Span>, t: real)
    requires spans != [] && spans[|spans| - 1].at <= t
    ensures StatesAt(spans, t) == Some(spans[|spans| - 1].states)
  {
  }

  function Coalesced(spans: seq<Span>, o: Span): seq<Span> {
    if LastSet(spans) == Some(o.states) then spans else spans + [o]
  }

  lemma CoalesceStep(observed: seq<Span>, m: nat, spans: seq<Span>)
    requires m < |observed| && Chronological(observed) && Coalesces(observed[..m], spans)
    ensures Coalesces(observed[..m + 1], Coalesced(spans, observed[m]))
  {
    var before, o := observed[..m], observed[m];
    assert observed[..m + 1] == before + [o];
    assert m > 0 ==> before[m - 1] == observed[m - 1] && before[m - 1].at <= o.at;
    HoldsStep(before, o, spans);
    NamesStep(before, o, spans);
    hide HoldTheSame, NameTheSame;
  }

  lemma HoldsStep(before: seq<Span>, o: Span, spans: seq<Span>)
    requires HoldTheSame(before, spans) && LastSet(before) == LastSet(spans)
    requires before != [] ==> before[|before| - 1].at <= o.at
    ensures HoldTheSame(before + [o], Coalesced(spans, o))
  {
    var after, observed := Coalesced(spans, o), before + [o];
    forall t
      ensures StatesAt(after, t) == StatesAt(observed, t)
    {
      assert StatesAt(spans, t) == StatesAt(before, t);
      StatesAtAppend(before, o, t);
      StatesAtAppend(spans, o, t);
      if before != [] && o.at <= t {
        LastHolds(before, t);
      }
    }
    hide StatesAt;
  }

  lemma NamesStep(before: seq<Span>, o: Span, spans: seq<Span>)
    requires NameTheSame(before, spans)
    ensures NameTheSame(before + [o], Coalesced(spans, o))
  {
    SetsAppend(before, o);
    SetsAppend(spans, o);
    LastIsIn(spans);
    hide SetsIn;
  }

  lemma SetsAppend(spans: seq<Span>, o: Span)
    ensures SetsIn(spans + [o]) == SetsIn(spans) + {o.states}
  {
  }

  lemma LastIsIn(spans: seq<Span>)
    ensures LastSet(spans).Some? ==> LastSet(spans).value in SetsIn(spans)
  {
  }

  /** Equal states in a row become one span; what holds at each instant is what was last observed by then. */
  method BuildSpans(observations: seq<Observation>)
    returns (spans: seq<Span>, ghost sorted: seq<Span>, ghost order: seq<nat>)
    ensures IsStablySorted(Readable(observations), sorted, order, NotLater) && Chronological(sorted)
    ensures Coalesces(sorted, spans) && Chronological(spans)
  {
    hide Coalesces, IsStablySorted;
    var timed: seq<Span> := [];
    for m := 0 to |observations|
      invariant timed == Readable(observations[..m])
    {
      var o := observations[m];
      assert observations[..m + 1][..m] == observations[..m];
      if o.at.Some? {
        timed := timed + [Span(o.at.value, o.states)];
      }
    }
    assert observations[..|observations|] == observations;
    var inOrder;
    inOrder, order := SortBy(timed, NotLater);
    sorted := inOrder;
    spans := [];
    NothingObserved();
    for m := 0 to |inOrder|
      invariant Coalesces(inOrder[..m], spans)
      invariant Chronological(spans) && (spans != [] ==> m > 0 && spans[|spans| - 1].at <= inOrder[m - 1].at)
    {
      CoalesceStep(inOrder, m, spans);
      if LastSet(spans) != Some(inOrder[m].states) {
        spans := spans + [inOrder[m]];
      }
    }
    assert inOrder[..|inOrder|] == inOrder;
  }

  lemma NothingObserved()
    ensures Coalesces([], [])
  {
  }

  // ---------- cycles ----------

  datatype When = Absent | Unreadable | At(time: real)

  /** What one pseudo-cycle's decoded values say; `seen` are the signals decoded. */
  datatype Cycle = Cycle(at: When, seen: set<Signal>, matched: set<State>, refuted: set<State>)

  type References = map<State, set<Signal>>

  predicate IsInformative(c: Cycle) {
    !c.at.Absent? && c.seen != {} && (c.matched != {} || c.refuted != {})
  }

  function SignalsOf(refs: References, s: State): set<Signal> {
    if s in refs then refs[s] else {}
  }

  /** A cycle speaks against a state: it did not match, and was refuted or one of its signals was decoded. */
  predicate Retracts(refs: References, c: Cycle, s: State) {
    s !in c.matched && (s in c.refuted || SignalsOf(refs, s) * c.seen != {})
  }

  /** Matched in some informative cycle of the first `n`, and retracted in none after it. */
  ghost predicate Latched(refs: References, cycles: seq<Cycle>, n: nat, s: State)
    requires n <= |cycles|
  {
    exists i :: 0 <= i < n && IsInformative(cycles[i]) && s in cycles[i].matched
      && forall k :: i < k < n && IsInformative(cycles[k]) ==> !Retracts(refs, cycles[k], s)
  }

  ghost predicate Holds(refs: References, cycles: seq<Cycle>, n: nat, held: set<State>)
    requires n <= |cycles|
  {
    forall s :: s in held <==> Latched(refs, cycles, n, s)
  }

  lemma LatchedStep(refs: References, cycles: seq<Cycle>, n: nat, s: State)
    requires n < |cycles|
    ensures Latched(refs, cycles, n + 1, s) <==>
      if IsInformative(cycles[n]) then
        s in cycles[n].matched || (Latched(refs, cycles, n, s) && !Retracts(refs, cycles[n], s))
      else Latched(refs, cycles, n, s)
  {
    hide IsInformative;
    if IsInformative(cycles[n]) && s in cycles[n].matched {
      assert Latched(refs, cycles, n + 1, s);
    }
    if Latched(refs, cycles, n, s) && (IsInformative(cycles[n]) ==> !Retracts(refs, cycles[n], s)) {
      var i :| 0 <= i < n && IsInformative(cycles[i]) && s in cycles[i].matched
        && forall k :: i < k < n && IsInformative(cycles[k]) ==> !Retracts(refs, cycles[k], s);
      assert forall k :: i < k < n + 1 && IsInformative(cycles[k]) ==> !Retracts(refs, cycles[k], s);
    }
    if Latched(refs, cycles, n + 1, s) {
      var i :| 0 <= i < n + 1 && IsInformative(cycles[i]) && s in cycles[i].matched
        && forall k :: i < k < n + 1 && IsInformative(cycles[k]) ==> !Retracts(refs, cycles[k], s);
      assert i < n ==> Latched(refs, cycles, n, s);
    }
  }

  lemma LatchedBefore(refs: References, cycles: seq<Cycle>, c: Cycle, s: State)
    ensures Latched(refs, cycles + [c], |cycles|, s) <==> Latched(refs, cycles, |cycles|, s)
  {
    var more := cycles + [c];
    assert forall i :: 0 <= i < |cycles| ==> more[i] == cycles[i];
    hide IsInformative, Retracts;
  }

  /**
    What one more cycle does to a state. Without a time slot, without a decoded signal, or with nothing matched
    and nothing refuted, nothing; else a match holds the state, a refutation or a decoded signal of
    its own without a match drops it, and otherwise it stays as it was.
   */
  lemma OneCycleSays(refs: References, cycles: seq<Cycle>, c: Cycle, s: State)
    ensures Latched(refs, cycles + [c], |cycles| + 1, s) <==>
      if c.at == Absent || c.seen == {} || (c.matched == {} && c.refuted == {}) then Latched(refs, cycles, |cycles|, s)
      else if s in c.matched then true
      else if s in c.refuted then false
      else if s in refs && exists x :: x in refs[s] && x in c.seen then false
      else Latched(refs, cycles, |cycles|, s)
  {
    LatchedStep(refs, cycles + [c], |cycles|, s);
    LatchedBefore(refs, cycles, c, s);
    if s in refs {
      SharedSignal(refs[s], c.seen);
    }
    hide Latched;
  }

  lemma SharedSignal(a: set<Signal>, b: set<Signal>)
    ensures a * b != {} <==> exists x :: x in a && x in b
  {
    if x :| x in a && x in b {
      assert x in a * b;
    }
  }

  function TimeOf(w: When): Option<real> {
    if w.At? then Some(w.time) else None
  }

  /** One observation per informative cycle, of the states held after it. */
  ghost predicate AreObservations(refs: References, cycles: seq<Cycle>, n: nat, observations: seq<Observation>)
    requires n <= |cycles|
    decreases n
  {
    if n == 0 then observations == []
    else if IsInformative(cycles[n - 1]) then
      && observations != []
      && AreObservations(refs, cycles, n - 1, observations[..|observations| - 1])
      && observations[|observations| - 1].at == TimeOf(cycles[n - 1].at)
      && Holds(refs, cycles, n, observations[|observations| - 1].states)
    else AreObservations(refs, cycles, n - 1, observations)
  }

  datatype Inference = Inference(spans: seq<Span>, union: set<State>)

  ghost predicate IsTimeline(refs: References, cycles: seq<Cycle>, observations: seq<Observation>,
                             sorted: seq<Span>, order: seq<nat>, spans: seq<Span>) {
    && AreObservations(refs, cycles, |cycles|, observations)
    && IsStablySorted(Readable(observations), sorted, order, NotLater) && Chronological(sorted)
    && Coalesces(sorted, spans) && Chronological(spans)
  }

  ghost predicate IsInference(refs: References, cycles: seq<Cycle>, r: Inference) {
    && (exists observations, sorted, order :: IsTimeline(refs, cycles, observations, sorted, order, r.spans))
    && (forall s :: s in r.union <==> exists p :: p in r.spans && s in p.states)
  }

  method InferStateSpans(cycles: seq<Cycle>, refs: References) returns (r: Inference)
    ensures IsInference(refs, cycles, r)
  {
    hide IsTimeline, Holds, Retracts, Latched, Coalesces, IsStablySorted, Chronological, AreObservations;
    var observations: seq<Observation>, held: set<State> := [], {};
    NothingHeld(refs, cycles);
    for n := 0 to |cycles|
      invariant AreObservations(refs, cycles, n, observations) && Holds(refs, cycles, n, held)
    {
      var c := cycles[n];
      HeldStep(refs, cycles, n, held);
      ObservationStep(refs, cycles, n, observations, HeldAfter(refs, c, held));
      if IsInformative(c) {
        held := held + c.matched;
        held := held - set s | s in held && s !in c.matched && (s in c.refuted || SignalsOf(refs, s) * c.seen != {});
        observations := observations + [Observation(TimeOf(c.at), held)];
      }
    }
    var spans;
    ghost var sorted, order;
    spans, sorted, order := BuildSpans(observations);
    r := Inference(spans, UnionOf(spans));
    TimelineIs(refs, cycles, observations, sorted, order, r.spans);
  }

  lemma ObservationStep(refs: References, cycles: seq<Cycle>, n: nat, observations: seq<Observation>, held: set<State>)
    requires n < |cycles| && AreObservations(refs, cycles, n, observations) && Holds(refs, cycles, n + 1, held)
    ensures AreObservations(refs, cycles, n + 1,
              if IsInformative(cycles[n]) then observations + [Observation(TimeOf(cycles[n].at), held)]
              else observations)
  {
    hide Holds;
    var more := observations + [Observation(TimeOf(cycles[n].at), held)];
    assert more[..|more| - 1] == observations;
  }

  lemma TimelineIs(refs: References, cycles: seq<Cycle>, observations: seq<Observation>,
                   sorted: seq<Span>, order: seq<nat>, spans: seq<Span>)
    requires AreObservations(refs, cycles, |cycles|, observations)
    requires IsStablySorted(Readable(observations), sorted, order, NotLater) && Chronological(sorted)
    requires Coalesces(sorted, spans) && Chronological(spans)
    ensures IsTimeline(refs, cycles, observations, sorted, order, spans)
  {
  }

  lemma NothingHeld(refs: References, cycles: seq<Cycle>)
    ensures Holds(refs, cycles, 0, {}) && AreObservations(refs, cycles, 0, [])
  {
  }

  /** The held set after one more cycle, as the loop computes it. */
  function HeldAfter(refs: References, c: Cycle, held: set<State>): set<State> {
    if IsInformative(c) then
      var more := held + c.matched;
      more - set s | s in more && s !in c.matched && (s in c.refuted || SignalsOf(refs, s) * c.seen != {})
    else held
  }

  lemma HeldStep(refs: References, cycles: seq<Cycle>, n: nat, held: set<State>)
    requires n < |cycles| && Holds(refs, cycles, n, held)
    ensures Holds(refs, cycles, n + 1, HeldAfter(refs, cycles[n], held))
  {
    hide Latched;
    forall s
      ensures s in HeldAfter(refs, cycles[n], held) <==> Latched(refs, cycles, n + 1, s)
    {
      LatchedStep(refs, cycles, n, s);
    }
  }

  function UnionOf(spans: seq<Span>): (u: set<State>)
    ensures forall s :: s in u <==> exists p :: p in spans && s in p.states
  {
    set p, s | p in spans && s in p.states :: s
  }

  // ---------- what a timeline says ----------

  /** `r` is what the last informative cycle of the first `n` begun by `t` left latched. */
  ghost predicate IsHeldBy(refs: References, cycles: seq<Cycle>, n: nat, t: real, r: Option<set<State>>)
    requires n <= |cycles|
    decreases n
  {
    if n == 0 then r.None?
    else if IsInformative(cycles[n - 1]) && cycles[n - 1].at.At? && cycles[n - 1].at.time <= t then
      r.Some? && Holds(refs, cycles, n, r.value)
    else IsHeldBy(refs, cycles, n - 1, t, r)
  }

  predicate InTimeOrder(cycles: seq<Cycle>) {
    forall i, k :: 0 <= i < k < |cycles| && cycles[i].at.At? && cycles[k].at.At? ==>
      cycles[i].at.time <= cycles[k].at.time
  }

  lemma {:induction false} ReadableIsHeld(refs: References, cycles: seq<Cycle>, n: nat,
                                          observations: seq<Observation>, t: real)
    requires n <= |cycles| && AreObservations(refs, cycles, n, observations)
    ensures IsHeldBy(refs, cycles, n, t, StatesAt(Readable(observations), t))
    decreases n
  {
    hide Holds, Latched;
    if n > 0 {
      if IsInformative(cycles[n - 1]) {
        var before, o := observations[..|observations| - 1], observations[|observations| - 1];
        ReadableIsHeld(refs, cycles, n - 1, before, t);
        if o.at.Some? {
          StatesAtAppend(Readable(before), Span(o.at.value, o.states), t);
        }
      } else {
        ReadableIsHeld(refs, cycles, n - 1, observations, t);
      }
    }
  }

  /** Every readable observation of the first `n` cycles is at the time of one of them. */
  lemma {:induction false} ReadableTimes(refs: References, cycles: seq<Cycle>, n: nat, observations: seq<Observation>)
    requires n <= |cycles| && AreObservations(refs, cycles, n, observations)
    ensures forall s :: s in Readable(observations) ==> exists i :: 0 <= i < n && cycles[i].at == At(s.at)
    decreases n
  {
    hide Holds, IsInformative;
    if n > 0 {
      if IsInformative(cycles[n - 1]) {
        var before, o := observations[..|observations| - 1], observations[|observations| - 1];
        ReadableTimes(refs, cycles, n - 1, before);
        forall s | s in Readable(observations)
          ensures exists i :: 0 <= i < n && cycles[i].at == At(s.at)
        {
          if s !in Readable(before) {
            assert cycles[n - 1].at == At(s.at);
          }
        }
      } else {
        ReadableTimes(refs, cycles, n - 1, observations);
      }
    }
  }

  lemma {:induction false} ReadableInOrder(refs: References, cycles: seq<Cycle>, n: nat, observations: seq<Observation>)
    requires n <= |cycles| && AreObservations(refs, cycles, n, observations) && InTimeOrder(cycles)
    ensures Sorting.InOrder(Readable(observations), NotLater)
    decreases n
  {
    hide Holds, IsInformative;
    if n > 0 {
      if IsInformative(cycles[n - 1]) {
        var before, o := observations[..|observations| - 1], observations[|observations| - 1];
        ReadableInOrder(refs, cycles, n - 1, before);
        ReadableTimes(refs, cycles, n - 1, before);
        var spans := Readable(before);
        forall i | 0 <= i < |spans| && o.at.Some?
          ensures spans[i].at <= o.at.value
        {
          assert spans[i] in spans;
        }
      } else {
        ReadableInOrder(refs, cycles, n - 1, observations);
      }
    }
  }

  lemma NotLaterIsTotal()
    ensures IsTotal(NotLater)
  {
  }

  /** At every instant of a session in time order, the timeline names exactly the states latched by then. */
  lemma TimelineTellsWhatHeld(refs: References, cycles: seq<Cycle>, r: Inference, t: real)
    requires IsInference(refs, cycles, r) && InTimeOrder(cycles)
    ensures IsHeldBy(refs, cycles, |cycles|, t, StatesAt(r.spans, t))
  {
    var observations, sorted, order :| IsTimeline(refs, cycles, observations, sorted, order, r.spans);
    hide AreObservations, Holds, IsStablySorted, StatesAt, IsHeldBy, NotLater;
    ReadableInOrder(refs, cycles, |cycles|, observations);
    NotLaterIsTotal();
    SortedAlready(Readable(observations), sorted, order, NotLater);
    ReadableIsHeld(refs, cycles, |cycles|, observations, t);
    assert StatesAt(r.spans, t) == StatesAt(sorted, t);
  }

  // ---------- the spans to store ----------

  function CarryInto(spans: seq<Span>, carried: set<State>): (r: seq<Span>)
    ensures |r| == |spans|
    ensures forall k :: 0 <= k < |spans| ==> r[k] == Span(spans[k].at, spans[k].states + carried)
  {
    seq(|spans|, k requires 0 <= k < |spans| => Span(spans[k].at, spans[k].states + carried))
  }

  /** The spans to store, and the recorded states carried into every one because nothing places them. */
  ghost predicate AreStored(recorded: set<State>, inferable: set<State>, inference: Inference,
                            spans: seq<Span>, carried: set<State>) {
    && carried == (set s | s in recorded && !(s in inferable && s in inference.union))
    && spans == CarryInto(inference.spans, carried)
  }

  method SessionStateSpans(recorded: set<State>, cycles: seq<Cycle>, refs: References, inferable: set<State>)
    returns (spans: seq<Span>, carried: set<State>, inference: Inference)
    ensures IsInference(refs, cycles, inference) && AreStored(recorded, inferable, inference, spans, carried)
  {
    hide IsInference;
    inference := InferStateSpans(cycles, refs);
    carried := set s | s in recorded && !(s in inferable && s in inference.union);
    spans := inference.spans;
    if carried != {} {
      spans := CarryInto(inference.spans, carried);
    } else {
      CarryNothing(spans);
    }
  }

  lemma CarryNothing(spans: seq<Span>)
    ensures CarryInto(spans, {}) == spans
  {
    forall k | 0 <= k < |spans|
      ensures CarryInto(spans, {})[k] == spans[k]
    {
      assert spans[k].states + {} == spans[k].states;
    }
  }

  /** A back-fill loses no recorded state: each is in some span, and one the evidence cannot place is in all. */
  lemma NoRecordedStateIsLost(recorded: set<State>, cycles: seq<Cycle>, refs: References, inferable: set<State>,
                              spans: seq<Span>, carried: set<State>, inference: Inference, s: State)
    requires IsInference(refs, cycles, inference) && AreStored(recorded, inferable, inference, spans, carried)
    requires spans != [] && s in recorded
    ensures exists k :: 0 <= k < |spans| && s in spans[k].states
    ensures !(s in inferable && s in inference.union) ==> forall k :: 0 <= k < |spans| ==> s in spans[k].states
  {
    hide IsTimeline;
    if s in carried {
      assert s in spans[0].states;
    } else {
      var p :| p in inference.spans && s in p.states;
      var k :| 0 <= k < |inference.spans| && inference.spans[k] == p;
      assert s in spans[k].states;
    }
  }

  /** At every instant, storing adds the carried states to what was inferred and takes none away. */
  lemma {:induction false} CarryAtEveryInstant(spans: seq<Span>, carried: set<State>, t: real)
    ensures StatesAt(CarryInto(spans, carried), t)
         == match StatesAt(spans, t) case None => None case Some(states) => Some(states + carried)
  {
    if spans != [] {
      var before := spans[..|spans| - 1];
      CarryAtEveryInstant(before, carried, t);
      assert CarryInto(spans, carried)[..|spans| - 1] == CarryInto(before, carried);
    }
  }
}
