# Verified model of canair's algorithms

canair records what a car's ECUs answer and analyses the recordings offline. This project models the
device-free algorithms behind that and proves what they promise: the folding of repeated polls in
capture files, the merge of capture logs, the write-ahead journal, the time joins with forward fill,
the correlation sweep, the support-bitmap solver, the state timeline, and the import-graph checks of
the repository itself. `dafny verify dfyconfig.toml` checks all of it.

Each algorithm has a specification that says outright what its result is, without the algorithm: a
legal split, the nearest candidate, a connected component, the states that hold after a cycle. Where
the program loops over state, the model is a method or a class with that loop, proved against the
specification; what the documentation promises is then a lemma about the specification.

| files | program |
|---|---|
| `ClockTime`, `CaptureRows`, `FoldingDecoder`, `FoldingMerge`, `FoldingState`, `FoldingInvariant`, `FoldingRuns`, `FoldingLaw`, `FoldingGreedy`, `FoldingCount`, `FoldingEncoder` | lossless folding of repeated polls |
| `Graphs`, `TarjanState`, `TarjanFinish`, `ImportGraph`, `DeferredImports` | import cycles, and which deferred imports can be hoisted |
| `SupportFields`, `SupportBits`, `SplitTally`, `SplitWalk`, `FieldSolver`, `KnownFields` | splitting a record by its support bitmap |
| `TimeJoin`, `HoldWindows`, `CarriedValues` | nearest-time joins and validity windows |
| `Statistics`, `ExplainedVariance`, `Ranks`, `CorrelationMatrix`, `PairSweep`, `MatrixSweep`, `Clusters` | coefficients, the correlation sweep, co-linear groups |
| `Sessions`, `SessionMerge`, `Overlay` | three-way merge and overlay of capture logs |
| `CaptureLog`, `JournalLines`, `CaptureJournal`, `JournalKeepAll`, `UnsplitBatches`, `LinkEvents` | journal, dedup, day splitting, batch repair, link events |
| `CycleBuckets`, `StateTimeline` | pseudo-cycles and the state timeline |
| `Wrappers`, `Lists`, `Sorting` | shared types, list facts, the stable sort |

Floats are reals, JSON values and rows are datatypes compared by equality, and times of day are
milliseconds (folding) or real seconds (everything else).

## Where the program and its documentation differ

* `expand_captures(fold_captures(rows)) == rows` is promised for every input. It fails for a list that
  mixes an entry that is not a row with a row already carrying a gap list: folding passes such a list
  through and expansion changes it. `FoldingLaw.FoldThenExpand` is the exact condition,
  `FoldingLaw.FoldThenExpandCanFail` such a list.
* The round-trip check is described as one that never fires. It can, because `$` in the time pattern
  also matches before a final newline; `FoldingLaw.GuardPassesExactly` says exactly when. Told from the
  rows alone: only a row that continues the run of its ECU and PID can make it fire
  (`FoldingLaw.GuardPassesOnRunStarts`), and one that directly follows the start of its run always does
  (`FoldingLaw.GuardFiresAfterRunStart`).
* The pruning guard of the sweep is described as safe because every join is empty. With forward fill it
  can drop joins that have rows; `TimeJoin.DisjointDropsNothingIff` is the exact condition, and
  `CorrelationMatrix.GuardIsExactWhenStrict` shows the guard exact without fill. The sweep is modelled
  with the guard.
* On a tie the join takes the candidate before the instant, as documented; of several candidates with
  one timestamp before it, the last of them.
* Swapping the sides of a merge is said to give byte-identical output. That holds exactly when sessions
  with one sort key are listed in one order by both (`SessionMerge.SameListIffTiesAgree`);
  `SessionMerge.TiesCanDisagree` is an example.
* Splitting batched rows is said to keep a deduplicated session's promise. It holds exactly when no
  untouched row repeats what the parts before it said (`UnsplitBatches.PromiseKeptIff`,
  `UnsplitBatches.SplitCanBreakThePromise`).
* A journal spanning midnight is said to give one session a calendar day. Run-length dedup runs before
  the split, so a date has a session exactly when one of its rows says something new or a refusal falls
  on it (`JournalLines.DayHasSessionIff`); `CaptureJournal.MidnightCanLeaveADayOut` is a journal of two
  days with one session.
* A journal is said to be reconciled into its sessions once. A date is saved once exactly when no session
  is saved after the process died between a first save and the unlink (`CaptureJournal.SavedOnceIff`);
  `CaptureJournal.RecoveryCanSaveTwice` is a run that saves one twice.

## Model

| member | source | states |
|---|---|---|
| ClockTime.FormatThenParse | src/canair/captures/folding.py:56-76 | a time that can be written is read back as the same milliseconds and precision |
| ClockTime.ParseThenFormat | src/canair/captures/folding.py:47-76 | a time that can be read is written back as it was, less a final newline |
| ClockTime.ClockSaysTime | src/canair/captures/folding.py:56-65 | `HH:MM:SS` in decimal digits is that many hours, minutes and seconds after midnight, none when out of range |
| ClockTime.ClockSaysMilliseconds | src/canair/captures/folding.py:56-65 | `.mmm` after it adds that many milliseconds |
| CaptureRows.CanonicalChangesOnlyLooseTimes | src/canair/captures/folding.py:85-87 | rewriting a row's time canonically changes the row exactly when the time ends in a newline |
| CaptureRows.ShapeDeterminesRunKey | src/canair/captures/folding.py:85-91 | rows equal in every field but the time, in order, belong to one run |
| CaptureRows.RunsShareAddressAndPid | src/canair/captures/folding.py:90-91 | rows with a response address are of one run when it and the PID agree, rows without one when ECU and PID do |
| CaptureRows.ShapesAgree | src/canair/captures/folding.py:85-87 | rows listing the same fields are of one shape exactly when all but their times agree |
| CaptureRows.RestampedFirstRow | src/canair/captures/folding.py:112 | a run's first row stamped with a repeat's time is that repeat, written canonically |
| FoldingDecoder.ExpandCaptures | src/canair/captures/folding.py:116-144 | the heap-driven loop computes the expansion, with its errors, that every folding lemma is about |
| FoldingDecoder.ReadRepeats | src/canair/captures/folding.py:94-113 | the gap loop reads the repeats a gap list encodes, or fails on the first gap that is no integer or lands outside the day |
| FoldingDecoder.HeapStaysInOrder | src/canair/captures/folding.py:140-143 | whatever the stored rows, the pending repeats come out smallest key first |
| FoldingDecoder.ReadyIsExactlyTheSmaller | src/canair/captures/folding.py:129-130 | before a stored row exactly the pending repeats with a smaller key are emitted |
| FoldingDecoder.ExpandIsPlain | src/canair/captures/folding.py:132-138 | no expanded row carries a gap list |
| FoldingDecoder.RepeatsAddGaps | src/canair/captures/folding.py:94-113 | the k-th repeat is the stored row, later by the sum of the gaps up to it |
| FoldingDecoder.OrderOfRepeats | src/canair/captures/folding.py:125-140 | repeats come out by time, then stored place, and before a later stored row that is untimed or no earlier |
| FoldingMerge.AddRepeatQueuesIt | src/canair/captures/folding.py:187-198 | a merged repeat above every row stored after its run changes the decoder's run only by being pending |
| FoldingMerge.WaitingRepeatsArePending | src/canair/captures/folding.py:157-158 | the repeats folded since the last stored row are exactly what the decoder has pending, in order |
| FoldingMerge.FoldInline | src/canair/captures/folding.py:179-185 | a repeat directly continuing the last run is emitted at once and leaves nothing pending |
| FoldingMerge.StoreFlushes | src/canair/captures/folding.py:202-221 | a row stored above everything pending comes out after all of it |
| FoldingInvariant.FoldKeeps | src/canair/captures/folding.py:168-200 | folding a row keeps the invariant that the decoder would give back exactly the rows so far |
| FoldingInvariant.StoreKeeps | src/canair/captures/folding.py:202-226 | storing a row keeps the invariant, with whatever would have come out late unfolded first |
| FoldingInvariant.UnfoldKeeps | src/canair/captures/folding.py:204-211 | taking the pending repeats back out of their gap lists restores the state before them |
| FoldingInvariant.AddAllIsSound | src/canair/captures/folding.py:228-250 | the invariant holds after every list of rows |
| FoldingEncoder.FirstAboveIsLargest | src/canair/captures/folding.py:160-166 | the first entry after h of the monotonic stack is the largest key stored after h |
| FoldingEncoder.Folder.MaxKeyAfter | src/canair/captures/folding.py:164-166 | the result is the largest key of any row stored after h, none when there is no such row |
| FoldingEncoder.BisectRight | src/canair/captures/folding.py:165 | the insertion point splits the list into entries up to x and entries above |
| FoldingEncoder.Folder.FitsHere | src/canair/captures/folding.py:179-195 | true exactly when a repeat there comes out in place: directly continuing an inline run, or above everything pending and every later stored row |
| FoldingEncoder.Folder.TryFold | src/canair/captures/folding.py:168-200 | folds exactly when the specification can, with the whole new state, else changes nothing |
| FoldingEncoder.Folder.StoreRow | src/canair/captures/folding.py:202-226 | the new state is the specification's, the stack still yields the maxima |
| FoldingEncoder.Folder.StorePending | src/canair/captures/folding.py:204-212 | the unfolded repeats are stored as rows of their own, recursively |
| FoldingEncoder.Folder.PopPending | src/canair/captures/folding.py:208-209 | popping in reverse takes exactly the pending repeats out of the gap lists |
| FoldingEncoder.Folder.PushKey | src/canair/captures/folding.py:222-226 | dropping smaller keys and pushing keeps the stack's meaning with one more row stored |
| FoldingEncoder.Folder.AddRow | src/canair/captures/folding.py:228-230 | the folder holds the specification's state for one more row |
| FoldingEncoder.Folder.Result | src/canair/captures/folding.py:232-236 | the items written are those of the folded state |
| FoldingEncoder.FoldCaptures | src/canair/captures/folding.py:239-255 | folding computes the specification, and expanding the result gives the captures back exactly when none carries a gap list |
| FoldingLaw.FolderRoundTrips | src/canair/captures/folding.py:147-236 | for every row list, expanding what the folder produces gives those rows in order, held repeats written canonically |
| FoldingLaw.GuardPassesExactly | src/canair/captures/folding.py:253 | the round-trip check passes exactly when no folded row has a time ending in a newline |
| FoldingLaw.GuardNeverFires | src/canair/captures/folding.py:253 | without such times the check never fires |
| FoldingLaw.GuardCanFire | src/canair/captures/folding.py:47-253 | two polls for which the check does fire |
| FoldingRuns.HeldContinuesRun | src/canair/captures/folding.py:168-178 | a row held as a repeat agrees with the row of its ECU and PID before it in every field but the time and in precision |
| FoldingRuns.FollowerIsHeld | src/canair/captures/folding.py:180-200 | a row that directly follows the start of its run is held as a repeat, whatever comes later |
| FoldingLaw.GuardPassesOnRunStarts | src/canair/captures/folding.py:253 | the check passes when no loose time is on a row that continues its run |
| FoldingLaw.GuardFiresAfterRunStart | src/canair/captures/folding.py:253 | the check fires when a loose time is on a row that directly follows the start of its run |
| FoldingLaw.FoldThenExpand | src/canair/captures/folding.py:239-255 | folding then expanding is the identity exactly on lists without gap lists |
| FoldingLaw.FoldThenExpandCanFail | src/canair/captures/folding.py:245-246 | a list with a bare entry that folding leaves alone and expansion changes |
| FoldingGreedy.EarlyRepeatEndsAlike | src/canair/captures/folding.py:124-144 | a merged repeat below a later stored row comes out before it, so the row that comes out last stays the same |
| FoldingGreedy.LastRowTells | src/canair/captures/folding.py:147-236 | after every list of rows, the tail is the run of the last row, which is stored, inline or the last pending one |
| FoldingGreedy.FoldsIffItComesBack | src/canair/captures/folding.py:168-200 | after any rows, a row is folded exactly when it continues its run and appending it there expands to the rows so far followed by it |
| FoldingGreedy.UnfoldsIffItMust | src/canair/captures/folding.py:202-212 | after any rows, pending repeats are unfolded exactly when storing the row without that would not expand to the rows so far followed by it |
| FoldingCount.EveryRowIsStoredOrHeld | src/canair/captures/folding.py:147-236 | the stored entries and the rows held as repeats together are all rows |
| FoldingCount.FoldedLength | src/canair/captures/folding.py:239-255 | the list returned is shorter by the number of rows held, or as long as the input when the check fires |
| FoldingCount.TurnsAreHeldIff | src/canair/captures/folding.py:180-200 | with times that strictly rise and no two neighbours of one ECU and PID, exactly the rows that continue a run are held |
| FoldingCount.TurnsFoldToRuns | src/canair/captures/folding.py:239-255 | such rows fold to one entry for each row that starts a run |
| ImportGraph.BuildUnitGraph | scripts/check/import_graph.py:98-118 | the graph has an edge exactly where a module in or below one second-level name imports one in or below another, the package root left out |
| ImportGraph.UnitOfDotted | scripts/check/import_graph.py:98-100 | the unit of a dotted name is its second name, whatever comes before and after; an undotted name is the package |
| ImportGraph.UnitIs | scripts/check/import_graph.py:98-100 | outside the package root, the unit of a module is u exactly when the module is or lies below a name u under an undotted one |
| ImportGraph.ComponentSearch.Visit | scripts/check/import_graph.py:127-148 | a visit ends with every newly numbered node closed into its component or left on the stack with a low value that reaches below |
| ImportGraph.ComponentSearch.LookAt | scripts/check/import_graph.py:132-137 | one successor, visited or not, keeps the low value exact for the edges seen |
| ImportGraph.ComponentSearch.Finish | scripts/check/import_graph.py:138-147 | a node whose low value is its own number closes exactly one component |
| ImportGraph.ComponentSearch.PopTo | scripts/check/import_graph.py:139-145 | popping removes exactly the nodes above and including the root |
| TarjanFinish.PoppedIsComponent | scripts/check/import_graph.py:138-145 | what is popped at such a node is a strongly connected component |
| ImportGraph.Search | scripts/check/import_graph.py:119-151 | the search terminates and lists exactly the strongly connected components of more than one node, each once |
| ImportGraph.SortBySize | scripts/check/import_graph.py:152 | the same components, largest first, those of one size in the order they were found |
| ImportGraph.Cycles | scripts/check/import_graph.py:113-152 | the cycles reported are exactly those components of that graph, each once, largest first |
| ImportGraph.ListedTogether | scripts/check/import_graph.py:113-114 | two units share a reported cycle exactly when each reaches the other |
| DeferredImports.Parents | scripts/check/deferred_scan.py:120-122 | the packages above a module |
| DeferredImports.ReachFrom | scripts/check/deferred_scan.py:234-253 | the queue computes exactly the modules loaded by importing the start: closed under imports and parent packages, except into the importer |
| DeferredImports.NewTargets | scripts/check/deferred_imports.py:117-119 | the targets that are neither the module nor a package above it |
| DeferredImports.HoistAll | scripts/check/deferred_imports.py:141-147 | hoisting adds exactly the edges to new targets and their parents |
| DeferredImports.FirstKind | scripts/check/deferred_imports.py:131-139 | the verdict before cycles are considered |
| DeferredImports.JoinsACycle | scripts/check/deferred_imports.py:150-151 | an import joins a cycle exactly when what it leads to loads its module again |
| DeferredImports.Classify | scripts/check/deferred_imports.py:122-153 | an import loaded already is a suspect exactly when it joins a cycle with all such imports hoisted |
| DeferredImports.ParentIsPrefix | scripts/check/deferred_imports.py:117-119 | a package is above a module exactly when the module is its name, a dot and more |
| DeferredImports.VerdictSays | scripts/check/deferred_imports.py:130-139 | in a try block always other; loaded or a suspect exactly when every target is loaded; heavy only when a target loads a heavy package, and otherwise none does |
| DeferredImports.SuspectIffCycle | scripts/check/deferred_imports.py:141-151 | with all imports loaded already hoisted, a suspect is exactly one whose new edges lead back to its module |
| DeferredImports.HoistingSurvivorsClosesNoCycle | scripts/check/deferred_imports.py:141-142 | hoisting any subset of the imports that stay loaded puts no added edge to another module on a cycle; the edge of a module to itself, added when a target lies below it, is left out |
| KnownFields.RunByCount | src/canair/analysis/support_fields.py:56 | as many bytes as the extent is wide means the bytes lie side by side |
| KnownFields.KnownFields | src/canair/analysis/support_fields.py:47-69 | the fields are disjoint, cover exactly the bytes of the kept signals, and hold two neighbouring bytes together exactly when one kept signal reads both |
| SupportFields.TwoOwnersStay | src/canair/analysis/support_fields.py:175-177 | breaking off at two owners loses no legal parameter |
| SupportFields.TooWideStays | src/canair/analysis/support_fields.py:182-185 | breaking off at a run too wide loses no legal parameter |
| SupportFields.CountIsBounded | src/canair/analysis/support_fields.py:203-210 | no split has more data parameters than bytes, so the search's starting bounds are no answer |
| SupportFields.DefinedFieldsStayWhole | src/canair/analysis/support_fields.py:163-181 | every split keeps every defined field inside one parameter, with no byte of another |
| SupportBits.MarksSpellTheBitmap | src/canair/analysis/support_fields.py:72-76 | first byte first, a byte is the sum of 128 down to 1 over the eight parameters it marks; read as one number, the last byte comes first and is the sum of 1 up to 128 |
| SupportBits.FirstByteWeighs | src/canair/analysis/support_fields.py:76 | read as one number, a byte weighs 256 for each byte after it |
| FieldSolver.Steps | src/canair/analysis/support_fields.py:160-191 | the loop with its breaks lists exactly the legal next parameters, each once |
| SplitTally.AfterDescribes | src/canair/analysis/support_fields.py:203-209 | the tally of the splits beginning with a step, from the tally after it |
| SplitTally.BothDescribes | src/canair/analysis/support_fields.py:207-209 | joining the tallies of disjoint families gives the count, capped at two, and the true fewest and most |
| FieldSolver.Solver.TallyFrom | src/canair/analysis/support_fields.py:196-210 | the memoised search counts the legal splits from a state, capped, with their fewest and most data parameters |
| SplitWalk.CoveredBothWays | src/canair/analysis/support_fields.py:227-247 | a byte is covered by some whole split exactly when a step reached and completable covers it |
| SplitWalk.RecordsAreComplete | src/canair/analysis/support_fields.py:227-247 | at the end of the walk the marks and bitmaps recorded are those of all splits |
| FieldSolver.Solver.Walk | src/canair/analysis/support_fields.py:227-247 | the frontier walk records exactly how splits cover each byte, and every bitmap a split places |
| FieldSolver.Solver.FollowPath | src/canair/analysis/support_fields.py:253-260 | following completable steps ends in a legal split |
| FieldSolver.SolveFields | src/canair/analysis/support_fields.py:124-265 | broken, exact or consistent exactly for none, one or more legal splits; the exact split; true bounds; a byte is fill exactly when some split covers it with data and every such parameter is unmarked |
| TimeJoin.BisectLeft | src/canair/analysis/align.py:705 | the insertion point splits the clock into instants before and from x |
| TimeJoin.BestNeighbourIsNearest | src/canair/analysis/align.py:705-718 | the better of the two neighbours is the nearest candidate of all, and within tolerance exactly when any is |
| TimeJoin.NearestInPlainTerms | src/canair/analysis/align.py:705-718 | the nearest is the last of its instant before, or the first of its instant at or after, the reference; on a tie the one before |
| TimeJoin.MatchIsUnique | src/canair/analysis/align.py:669-726 | a reference instant is joined to at most one candidate |
| TimeJoin.JoinIndices | src/canair/analysis/align.py:669-726 | the bisecting join lists exactly the matched reference rows in order, each with the nearest candidate in tolerance, else the last one before it still valid |
| TimeJoin.JoinIsUnique | src/canair/analysis/align.py:669-726 | two clocks have one join |
| TimeJoin.JoinIsMonotone | src/canair/analysis/align.py:669-726 | sorted references are joined to non-decreasing candidates, filled rows included |
| TimeJoin.FillOnlyAdds | src/canair/analysis/align.py:691-697 | a hold vector changes no row of the strict join |
| TimeJoin.CarriesAreLong | src/canair/analysis/align.py:719-725 | every carry exceeds the tolerance and lies within the value's window |
| TimeJoin.JoinFillStats | src/canair/analysis/align.py:773-799 | direct and filled rows partition the filled join; the longest carry is the longest, zero when there is none |
| TimeJoin.DisjointMeansNoStrictRow | src/canair/analysis/align.py:646-656 | clocks the guard calls disjoint have no strict row, whichever is the reference |
| TimeJoin.DisjointIff | src/canair/analysis/align.py:646-656 | clocks are disjoint exactly when all of one lies further than the tolerance before all of the other |
| TimeJoin.DisjointDropsNothingIff | src/canair/analysis/align.py:646-656 | with fill, the guard drops no row exactly when no reference lies past the candidates' end while the last value still holds |
| TimeJoin.DisjointCanDropFilledRows | src/canair/analysis/align.py:646-666 | clocks the guard drops although the filled join has a row |
| HoldWindows.GapIntervals | src/canair/captures/link_events.py:224-259 | the gaps covering one ECU and PID, all of them, by start |
| HoldWindows.SessionEndTimes | src/canair/analysis/fill.py:128-147 | each session with a timed row has its last instant |
| HoldWindows.RunEnds | src/canair/analysis/fill.py:180-190 | each row's run ends at the first later row of its session, or at the session's end |
| HoldWindows.NextGapStarts | src/canair/analysis/fill.py:211-240 | each row has the first gap start not before it, among the gaps of the cached row of its scope |
| HoldWindows.GapsAreTheRowsOwn | src/canair/analysis/fill.py:218-239 | when a session's rows carry its events and day, the cached gaps are the row's own |
| HoldWindows.HoldUntilVector | src/canair/analysis/fill.py:150-208 | a row that may be held gets the least of all its bounds, when that leaves any width |
| CarriedValues.PrepareSeries | src/canair/analysis/align.py:630-643 | the points by time, a point without a window held for its own instant only |
| CarriedValues.CarriedWithinBounds | src/canair/analysis/fill.py:194-207 | with nothing in tolerance, the last row before an instant is carried to it exactly when it may be held, is bounded, and every bound is at the instant or later |
| CarriedValues.CarriedValueWasKnown | src/canair/analysis/fill.py:165-171 | a carried value crosses no covering gap and no later row of its session, is not past the session's end, and respects the hold limit |
| Statistics.FitExists | src/canair/analysis/stats.py:91-110 | a fit exists exactly when two references differ, and its residual is zero exactly when every point is on it |
| Statistics.DenominatorSign | src/canair/analysis/stats.py:104-106 | the denominator is never negative and zero exactly for constant references |
| Statistics.FitIsLeast | src/canair/analysis/stats.py:91-110 | no line has a smaller squared error, and no other line the same |
| Statistics.CauchySchwarz | src/canair/analysis/stats.py:78-83 | the covariance squared is at most the product of the spreads, equal exactly when one series is a multiple of the other |
| Statistics.PearsonInRange | src/canair/analysis/stats.py:60-88 | the coefficient exists exactly when neither series is constant, and lies in [-1, 1] |
| Statistics.PearsonIsSymmetric | src/canair/analysis/stats.py:60-88 | it does not depend on which series comes first |
| Statistics.PearsonIsOneOnALine | src/canair/analysis/stats.py:60-110 | it is 1 or -1 exactly when the least-squares line has no residual |
| ExplainedVariance.SlopeIs | src/canair/analysis/stats.py:91-110 | the fitted slope is the covariance over the spread of the references |
| ExplainedVariance.PearsonIsShareExplained | src/canair/analysis/stats.py:60-110 | the fitted line leaves 1 - r² of the squared error of the level line, and r is positive exactly when the line rises |
| Ranks.Rank | src/canair/analysis/stats.py:113-129 | the run-by-run loop gives every value the mean of the places its ties take |
| Ranks.RunRank | src/canair/analysis/stats.py:124-127 | the average written for a run of ties is the rank by counting smaller and equal values |
| Ranks.RanksKeepOrder | src/canair/analysis/stats.py:113-129 | ranks are equal exactly for equal values and smaller exactly for smaller ones |
| Ranks.RanksAddUp | src/canair/analysis/stats.py:113-129 | ranks add up to n(n+1)/2 whatever ties |
| Ranks.RanksIgnoreScale | src/canair/analysis/stats.py:113-129 | values in the same order have the same ranks |
| Ranks.Spearman | src/canair/analysis/stats.py:132-142 | the coefficient of the ranks |
| Ranks.SpearmanSeesOrderOnly | src/canair/analysis/stats.py:132-142 | it depends on the order of each series alone |
| Ranks.SameOrderIsOne | src/canair/analysis/stats.py:132-142 | series in one order have coefficient 1 |
| CorrelationMatrix.SweepIsUnique | src/canair/analysis/corrmatrix.py:213-217 | the pair-at-a-time sweep, as a set of hits and an order, has one answer |
| CorrelationMatrix.KeyOfPlain | src/canair/analysis/corrmatrix.py:109-110 | a label without a colon keys on itself, one with a single colon on what is before it |
| CorrelationMatrix.KeyOfSignal | src/canair/analysis/corrmatrix.py:109-110 | a label of ECU, PID and more keys on ECU and PID, whatever follows |
| CorrelationMatrix.SourcesOfSignals | src/canair/analysis/corrmatrix.py:113-115 | two signals of one ECU share their source exactly when their PIDs are one |
| CorrelationMatrix.Crosses | src/canair/analysis/corrmatrix.py:179-193 | a pair is compared when asked for, or when its labels name different sources |
| CorrelationMatrix.GuardIsExactWhenStrict | src/canair/analysis/corrmatrix.py:249-250 | without forward fill the guard leaves out no hit |
| PairSweep.SubStatsOf | src/canair/analysis/corrmatrix.py:126-159 | a joined sub-vector's deviations and their sum of squares, none without spread |
| PairSweep.HoistedIsTheCoefficient | src/canair/analysis/corrmatrix.py:323-341 | the coefficient from per-side statistics is the one recomputed from the pair |
| PairSweep.NumericCoefficient | src/canair/analysis/corrmatrix.py:323-340 | the cached path gives the pair's coefficient and keeps both caches right |
| PairSweep.RankBucketPair | src/canair/analysis/corrmatrix.py:282-353 | one join serves all pairs of two clocks: exactly the pairs' hits, each at its own place |
| MatrixSweep.MakeBuckets | src/canair/analysis/corrmatrix.py:225-229 | each clock's bucket holds exactly its signals, in order |
| MatrixSweep.PairsWithin | src/canair/analysis/corrmatrix.py:179-184 | the pairs of one bucket to compare, each once |
| MatrixSweep.PairsBetween | src/canair/analysis/corrmatrix.py:185-193 | the pairs of two buckets, each once, the lower-indexed name as reference |
| MatrixSweep.ShortReference | src/canair/analysis/corrmatrix.py:259-260 | skipping a reference shorter than the row minimum loses no hit |
| MatrixSweep.SweepCell | src/canair/analysis/corrmatrix.py:248-276 | one pair of buckets gives exactly the hits between them |
| MatrixSweep.CorrelateMatrix | src/canair/analysis/corrmatrix.py:196-279 | the bucketed sweep returns the hits of the pair-at-a-time sweep with the same guard, in its order |
| Clusters.CompressedIsForest | src/canair/analysis/corrmatrix.py:377-378 | hanging an entry from its root leaves every root as it was |
| Clusters.IsStrong | src/canair/analysis/corrmatrix.py:382 | a coefficient counts as strongly downwards as upwards |
| Clusters.UnionFind.Find | src/canair/analysis/corrmatrix.py:372-379 | terminates, returns the root, and changes no entry's root |
| Clusters.UnionFind.Union | src/canair/analysis/corrmatrix.py:383-385 | exactly the entries of one tree move to the other's root |
| Clusters.RootsTellComponents | src/canair/analysis/corrmatrix.py:381-388 | names share a root exactly when strong hits connect them |
| Clusters.ColinearClusters | src/canair/analysis/corrmatrix.py:362-389 | exactly the connected components of at least three names of the graph of strong hits, each once |
| Sessions.UniqueAnchorsAre | src/canair/captures/merge.py:111-121 | an anchor is listed exactly when one session holds it, with that session's place |
| Sessions.AnchorsAgree | src/canair/captures/merge.py:84-108 | two sessions share an anchor exactly when day, label, version and the first capture's time, address and PID agree; a tag makes no difference |
| Sessions.StringLessIff | src/canair/captures/merge.py:148-155 | a string comes first when it is the start of the other or has the smaller character where they first differ |
| SessionMerge.Replacement | src/canair/captures/merge.py:158-174 | the edited copy of a base session on a side: paired by an anchor unique in both, and not in the base |
| SessionMerge.ReplacementIsSameRecording | src/canair/captures/merge.py:158-174 | a replacement is the one session of the recording on its side, as the replaced one is in the base, and not itself in the base |
| SessionMerge.HasConflict | src/canair/captures/merge.py:211-223 | a conflict exactly when a base session is on neither side and not replaced by one copy on both |
| SessionMerge.UnionOf | src/canair/captures/merge.py:231-241 | both loops collect exactly the surviving sessions, once each, in the order first met |
| SessionMerge.MergeSessions | src/canair/captures/merge.py:177-243 | the merge is (ours and theirs) or (ours or theirs, not in base), less untagged twins, in canonical order; otherwise the conflict |
| SessionMerge.MergedInDayOrder | src/canair/captures/merge.py:148-155 | a merged list runs by day, then by the first capture's time, then by label |
| SessionMerge.MergeIsUnique | src/canair/captures/merge.py:243 | that describes one list |
| SessionMerge.MergeIsSymmetric | src/canair/captures/merge.py:151-153 | swapping the sides changes neither the conflict nor the set of sessions |
| SessionMerge.SameListIffTiesAgree | src/canair/captures/merge.py:148-155 | swapping the sides gives the same list exactly when sessions with one sort key are listed in one order |
| SessionMerge.DistinctKeysAgree | src/canair/captures/merge.py:148-155 | distinct sort keys are enough for that |
| SessionMerge.TiesCanDisagree | src/canair/captures/merge.py:148-155 | two sessions with one sort key for which the order depends on the sides |
| SessionMerge.UntouchedSide | src/canair/captures/merge.py:187-193 | a side equal to the base gives the other side's sessions, and no conflict |
| SessionMerge.NothingIsLost | src/canair/captures/merge.py:246-262 | a surviving session is merged, or its tagged copy is |
| SessionMerge.MergeIsStable | src/canair/captures/merge.py:18-20 | merging the result again with the other side as base changes nothing |
| Overlay.Target | src/canair/captures/merge.py:343-344 | a source session replaces the upstream one with its anchor exactly when that anchor is unique in both |
| Overlay.ReplacesSameRecording | src/canair/captures/merge.py:341-346 | a session replaces the upstream copy exactly when each is the only one of that recording on its side and upstream does not know it |
| Overlay.Lay | src/canair/captures/merge.py:294-365 | each upstream place holds its edited copy or what it held, new sessions follow in order, and there is no document exactly when every source session is known |
| Overlay.PlacesAreKept | src/canair/captures/merge.py:304-316 | no upstream session is dropped or moved; a place changes exactly when reported, to a source session of the same recording |
| Overlay.EverySessionIsPlaced | src/canair/captures/merge.py:338-358 | every source session upstream did not know is in the result |
| Overlay.OnlyNewIsAdded | src/canair/captures/merge.py:338-346 | what follows the upstream places is each session once that upstream neither has nor holds an earlier copy of |
| Overlay.OverlayIsIdempotent | src/canair/captures/merge.py:294-365 | laying the same source again changes nothing |
| CaptureLog.Dedup | src/canair/captures/journal.py:341-365 | the loop drops exactly the rows that repeat what their PID holds |
| CaptureLog.RepeatsIff | src/canair/captures/journal.py:346-350 | a row repeats exactly when the row before it of its ECU and PID has its payload |
| CaptureLog.DedupActsPerPid | src/canair/captures/journal.py:341-365 | dedup of the whole list and dedup of one PID of one ECU by itself keep the same rows of it |
| CaptureLog.CompactHolds | src/canair/captures/journal.py:346-353 | after every row, the kept rows have each PID hold what all rows have it hold |
| CaptureLog.CompactTwice | src/canair/captures/journal.py:341-365 | dedup is idempotent |
| CaptureLog.NoRepeatIsKept | src/canair/captures/journal.py:346-350 | every kept row is a change |
| CaptureLog.KeptRowSpeaks | src/canair/captures/journal.py:346-350 | each row's value is in a kept row that holds until it |
| CaptureLog.SplitByDay | src/canair/captures/journal.py:465-490 | one session for each date in order of first appearance, holding that date's rows and refusals in order |
| CaptureLog.SplitPlaces | src/canair/captures/journal.py:465-490 | every row and refusal is in the session of its own date and nowhere else, and no session is empty |
| CaptureLog.SplitConserves | src/canair/captures/journal.py:465-490 | a date has one session at most, which lists its rows and refusals in their order; the sessions together hold each row and each refusal exactly as often as the journal did |
| JournalLines.BuildSessions | src/canair/captures/journal.py:368-490 | the sessions are the day split of the rows, deduplicated exactly when the caller says so or, saying nothing, the last keep mode the lines give is run-length; none exactly when there is no row and no refusal |
| JournalLines.LinesAreRows | src/canair/captures/journal.py:393-431 | each capture line is one row and each response line one refusal, in order, as they stand, under their own date or the last session date before them |
| JournalLines.KeepAllKeepsAll | src/canair/captures/journal.py:355-365 | unless deduplicated, the sessions hold every row and refusal exactly as often as the journal |
| JournalLines.ChangesKeepsChanges | src/canair/captures/journal.py:355-365 | deduplicated, they hold rows that repeat nothing and have each PID end on what it held |
| JournalLines.DayHasSessionIff | src/canair/captures/journal.py:378-381 | a date has a session exactly when one of its rows is kept by the dedup or a refusal falls on it |
| CaptureJournal.RunIsSafe | src/canair/captures/journal.py:141-178 | in every run of appends, flushes, crashes, reconciles and recoveries, each flushed line is in the journal or what it says in the saved sessions, and no row or refusal is saved that was not recorded under that date |
| JournalKeepAll.KeepAllRunLosesNothing | src/canair/captures/journal.py:355-365 | in every run in which no reconcile deduplicated, each flushed line is in the journal or its row or refusal saved, as often as flushed |
| JournalKeepAll.DedupsIff | src/canair/captures/journal.py:440 | a run has deduplicated exactly when one of its reconciles was told to, or told nothing found run-length as the last keep mode recorded |
| CaptureJournal.ReadKeeps | src/canair/captures/journal.py:506-514 | reading the journal, and dropping it when there is nothing to save, loses nothing |
| CaptureJournal.SaveKeeps | src/canair/captures/journal.py:515-517 | saving one session keeps the invariant |
| CaptureJournal.UnlinkKeeps | src/canair/captures/journal.py:518 | unlinking after the last save loses nothing |
| CaptureJournal.CrashKeeps | src/canair/captures/journal.py:164-180 | a crash at any step loses at most lines never flushed |
| CaptureJournal.Journal.Append | src/canair/captures/journal.py:141-209 | the line is buffered, the rest unchanged, as one step of a run |
| CaptureJournal.Journal.Flush | src/canair/captures/journal.py:164-180 | every line appended so far is in the journal for good |
| CaptureJournal.Journal.Crash | src/canair/captures/journal.py:164-180 | of the unflushed lines any first few stay, what is saved stays, and the run goes on |
| CaptureJournal.Journal.Reconcile | src/canair/captures/journal.py:493-519 | everything the journal held is represented in the saved sessions and the journal is gone, through steps of a run that deduplicates exactly when told to or recorded so |
| CaptureJournal.FirstSessionIsFirstDay | src/canair/captures/journal.py:465-470 | under either keep mode the first session is that of the first row, or without rows of the first refusal |
| CaptureJournal.SavedSoFarHolds | src/canair/captures/journal.py:141-519 | after every step of a run, the saved dates repeat exactly when saving was interrupted and something was saved since; until interrupted, what is saved is the first sessions of this reconcile |
| CaptureJournal.SavedOnceIff | src/canair/captures/journal.py:515-519 | over every run, the saved sessions have distinct dates exactly when none is saved after a crash between a first save and the unlink |
| CaptureJournal.RecoveryCanSaveTwice | src/canair/captures/journal.py:515-518 | a run in which a crash before the unlink makes recovery save one session twice, the failing case of SavedOnceIff |
| CaptureJournal.MidnightCanLeaveADayOut | src/canair/captures/journal.py:463-468 | a run-length journal of two days whose only session is that of the first, the failing case of DayHasSessionIff |
| UnsplitBatches.Rebuild | src/canair/analysis/unsplit_batches.py:213-246 | the tables decide exactly the specified rows, and what each split left out |
| UnsplitBatches.PartReadsItsDid | src/canair/analysis/unsplit_batches.py:188-200 | a part is a read of its DID from the same ECU, its reply in upper case, without a round-trip time |
| UnsplitBatches.SameValueIff | src/canair/analysis/unsplit_batches.py:203-210 | two rows store one value exactly when both have address, PID and payload and these agree but for case |
| UnsplitBatches.SameSourceIff | src/canair/analysis/unsplit_batches.py:233-241 | values come from one source exactly when address and PID agree but for case |
| UnsplitBatches.UntouchedRowsStay | src/canair/analysis/unsplit_batches.py:218-221 | a row that is not split is written, after what the rows before it became |
| UnsplitBatches.NothingIsLost | src/canair/analysis/unsplit_batches.py:218-221 | the rows written hold, or store, the values all parts together would |
| UnsplitBatches.PromiseKeptIff | src/canair/analysis/unsplit_batches.py:218-222 | the session's dedup promise holds exactly when no untouched row repeats what came before it |
| UnsplitBatches.SplitCanBreakThePromise | src/canair/analysis/unsplit_batches.py:218-221 | a session that keeps the promise before the split and not after |
| LinkEvents.ReadLines | src/canair/captures/link_events.py:152-167 | the tables of starts, ends and events say what the lines say |
| LinkEvents.EveryKindButResyncStarts | src/canair/captures/link_events.py:162-163 | an event line with an id starts that interval unless it is a resync |
| LinkEvents.ResyncIsNeverEnded | src/canair/captures/link_events.py:162-164 | a resync is placed on its day as recorded, whatever ends carry its id |
| LinkEvents.EventsByDate | src/canair/captures/link_events.py:143-187 | each day holds its placed events and the pieces of intervals begun before it, sorted stably by start |
| LinkEvents.OnePieceADay | src/canair/captures/link_events.py:148-150 | a closed interval has one piece on each day from its first to its last, and no other |
| LinkEvents.PiecesCoverTheInterval | src/canair/captures/link_events.py:146-150 | the pieces, open ones read to midnight, cover exactly the interval and no instant twice |
| LinkEvents.PieceIsListed | src/canair/captures/link_events.py:169-187 | every piece is on its day's list |
| LinkEvents.UnmatchedStartStaysOpen | src/canair/captures/link_events.py:146-147 | a start without an end is one open piece on its own day |
| LinkEvents.UnmatchedEndChangesNothing | src/canair/captures/link_events.py:147-148 | an end without a start changes no day |
| CycleBuckets.BucketCycles | src/canair/captures/state_inference.py:68-107 | the timed captures in order, cut into windows, and the untimed ones as one cycle at the end |
| CycleBuckets.SelectedOneByOne | src/canair/captures/state_inference.py:78-86 | captures are told apart one by one, in order, by whether their time can be read |
| CycleBuckets.CutIsUnique | src/canair/captures/state_inference.py:87-100 | there is one way to cut: each window opens further than the tolerance from the one before and reaches no further |
| StateTimeline.BuildSpans | src/canair/states/spans.py:75-101 | coalescing keeps what holds at every instant, every observed set, and no two equal spans in a row |
| StateTimeline.FindStatesAt | src/canair/states/spans.py:113-137 | the bisecting lookup gives the last span begun by an instant |
| StateTimeline.InferStateSpans | src/canair/captures/state_inference.py:211-287 | the held set after each informative cycle is exactly the states matched in one such cycle and retracted in none after it |
| StateTimeline.OneCycleSays | src/canair/captures/state_inference.py:256-277 | a cycle without time, decoded signal or verdict changes nothing; else a match holds a state, a refutation or an own signal decoded without a match drops it, and otherwise it stays |
| StateTimeline.TimelineTellsWhatHeld | src/canair/captures/state_inference.py:226-241 | at every instant the timeline names exactly the states latched by the last informative cycle begun by then |
| StateTimeline.SessionStateSpans | src/canair/captures/state_inference.py:311-349 | the spans to store are the inferred ones with the unplaceable recorded states added |
| StateTimeline.NoRecordedStateIsLost | src/canair/captures/state_inference.py:323-329 | if any span is stored, each recorded state is in some span, and one that cannot be placed in all |
| StateTimeline.CarryAtEveryInstant | src/canair/captures/state_inference.py:323-329 | at every instant storing adds the carried states and takes none away |
| Sorting.StableSort | src/canair/analysis/stats.py:118 | indices by key, equal keys in their first order |

## Left out

- Folding: Unicode digits in a time, unhashable run keys, the equality of `True` and `1`, and the document walk (`_map_sessions`); the heap is a sorted list, since only the order it yields matters.
- Import graph: parsing, the names sorted inside one component, and the recursion limit; a component is a set.
- Deferred imports: the import trial in a subprocess, which can only give a suspect's `cycle` verdict another reason.
- Support fields: block numbers of a parameter, the count of claimed bytes and the reason text.
- HoldWindows.GapIntervals: addresses and PIDs are taken already in the form `_same_rx` and upper-casing compare them in.
- HoldWindows: two timestamps are compared as reals, and the day of a session is its midnight as an instant.
- CarriedValues.CarriedValueWasKnown: rows of a session are taken to carry that session's events, as the loader attaches them.
- Statistics: rounding, overflow and non-finite values; the square root is any function that is one on the reals. `partial_correlation` and the categorical coefficients are not modelled; the sweep takes a categorical coefficient as a parameter.
- MatrixSweep.CorrelateMatrix: `fsum`'s exactness is that of the reals, and the finiteness tests are always met.
- Align: parsing of references, `align_many`, the three-way join, detrending and display.
- SessionMerge and Overlay: JSON text; content identity is equality of sessions, a session's other fields are one opaque field, and the changed fields reported for a replacement are not listed.
- CaptureJournal: the notes a recovered session is tagged with, the gate for sensitive PIDs, one-shot `session` records, `discard`, file names, and torn lines, which reading skips; replacing a capture file is one atomic step. Times missing from a row are not filled in.
- UnsplitBatches: finding the batches and their lengths (`find_unsplit_batches`, `split_chain`), shadowed and read-only layers; case is ASCII.
- LinkEvents.EventsByDate: validation of a record (`_event_from_record`), dates with a suffix or unreadable, and the sharing of one event object between the list and the table, which the model keeps by line number.
- StateTimeline: decoding and predicates; a cycle is what they say about it. State lists in vocabulary order are sets, and names are in upper case.
- Counter detection (`counters.py`), the browser's kernels (`analysis.js`), the WiCAN expressions, and the device and user interface: not part of this model.
