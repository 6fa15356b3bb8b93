# Gress, modelled in Dafny

Gress is a stream processor written in Go. This project models the parts of it whose correctness is hardest to see from
the code, and proves what they are for: the keyed streaming joins, the complex-event engine, the stream/table
conversion, the circuit breaker, retry and inference batching state machines, and four numerical kernels.

Each module follows one component. Where the Go code updates an object in place, there is a class whose methods have its
branches and loops and are proved to compute a specification function over values; whole-run theorems are then lemmas
about those functions. Concurrent code is a state machine with one step per critical section, and its theorems quantify
over every interleaving.

| file | component |
|---|---|
| `JoinState.dfy` | keyed join state: storage, expiry, eviction, metrics |
| `JoinOperator.dfy` | store-then-probe join; hash against nested loop |
| `KeyedJoin.dfy` | what a keyed join emits over a run, from arrivals and cleanups alone; the stream join |
| `ConcurrentJoin.dfy` | the same join with its calls interleaved |
| `IntervalJoin.dfy` | interval join and what retention it needs |
| `TemporalJoin.dfy` | versioned lookup with retention; the SQL temporal table |
| `WindowJoin.dfy` | windowed join with watermarks |
| `CepPattern.dfy`, `CepSoundness.dfy` | the event engine on values, and what every emitted match satisfies |
| `CepMatcher.dfy` | the rescanning matcher, and the engine as a refinement of it |
| `CepEngine.dfy` | the engine as objects |
| `StreamTable.dfy` | changelog emitter and materialiser |
| `CircuitBreaker.dfy`, `Retry.dfy`, `Batcher.dfy` | fault handling and batching |
| `ABSplit.dfy`, `RealSums.dfy`, `Regression.dfy`, `Anomaly.dfy` | statistics over reals |
| `Seqs.dfy` | sequences, multisets and maps of lists |

## What the proofs found

Some properties that the code, its tests or its documentation suggest do not hold. Each has a lemma with a concrete
input or run, and the exact condition under which the property does hold; where a condition goes one way only, it says
so.

- Two calls of the join that overlap emit a matching pair twice (`PairCanBeEmittedTwice`); exactly the overlapping ones
  do (`EmittedOnceOrTwice`).
- Nested loop and hash join differ as soon as events with different keys match (`StrategiesAgreeIff`).
- An interval join loses pairs exactly when some right event is kept for less than the allowed lateness of a partner
  (`LateRunLosesThePair`, `CompleteIffRetained`). StateRetention of at least the allowed lateness minus the lower bound
  prevents it (`RetentionFromBounds`).
- An outer interval join never pads a left event: a lone one leaves no row (`LoneLeftEventLeavesNoRow`), and one is in
  the output exactly when a partner arrives (`LeftAppearsIffPartnered`). A right event is padded on arrival because a
  match can no longer come (pkg/join/interval_join.go:130-131), but one can (`PaddedRightCanMatchIff`).
- The outer stream join pads an event on arrival and pairs it later all the same, exactly when its side is padded and the
  partner belongs to it (`PaddedCanMatchIff`).
- A late reference update makes the temporal lookup return the version before it (`LateUpdateIsMissed`); the lookup is
  right throughout a run exactly when updates arrive in order (`LookupIsAsOfIff`).
- The two temporal tables of the repository can then disagree (`TablesDifferOutOfOrder`). They agree wherever at most one
  version is valid (`TablesAgreeWhenOneCovers`); this goes one way, equal answers do not imply it.
- "A, then no B, then C" as the builder and the documentation write it (pkg/cep/dsl.go:326-343, pkg/cep/README.md:146-149)
  is never emitted: a negated step without a temporal constraint is never left (`SequenceWithNegationCanEmit`).
- `QuantifierZeroOrMore` needs one event unless the step is declared optional too (`StarCanBeEmptyIff`). No step ever
  consumes more than the least positive count its quantifier accepts (`LeastCounts`).
- A pattern of one step that one event completes, such as the frequency pattern, is not emitted when its event arrives
  but with the next event of any kind; it is lost if that lies outside the window, and its conditions are never checked
  (`OneStepRun`, `OneStepEmissions`).
- MaxConcurrentRequests bounds the requests in flight of a half-open era only if it is positive and one success closes the
  breaker: else a success left over from before the trip frees a slot (`LimitExceeded`, `LimitHoldsIff`). If it is zero
  and more than one success is needed, the breaker wedges until it is reset (`GetsStuck`, `StuckForever`, `NoWedgeIff`).
  The failure count is not reset when the breaker opens; it stays at the threshold until the breaker closes (`RunKeeps`).
- A changelog deletion leaves a nil entry in the materialised table (`MaterializedKeysAreReplayKeys`), and with a
  composite primary key it leaves the row (`DeletedRowStays`): materialising is replaying exactly without primary keys
  (`MaterializingReplaysIff`), or when rows keep the keys they were sent under (`ReplayedIffKeysAgree`).
- Polling a table that holds a map-valued row panics at the second tick, whether the row changed or not
  (`Streamifier.Tick`, `RowsArePolledOnce`).
- Composite keys tell rows apart only if no underscore occurs in their key fields (`KeysTellRowsApart`,
  `UnderscoresCollide`), and with two key fields or more all rows that lack them share one key (`RowsWithoutKeyFields`).
- When the batcher's ticker flushes a batch, the batch's own timer stays armed and flushes the next batch early
  (`FlushLeavesTimerArmed`); otherwise it cannot if timers are stopped in time (`OnlyRecordedTimerIsArmed`).
- The matcher of pkg/cep/pattern.go waits for an optional step, never leaves it out, and ignores quantifiers, negation,
  gaps and the window (`FindMatchesIff`).
- `UpdateVariant` neither validates nor loads: traffic then goes to the default unless the variant's effective weight does
  not fall and the variant either has a model or gets no residue (`UpdateIsServedIff`). Enabling a variant that was
  disabled at construction sends its share to the default (`NewlyEnabledFalls`). A split of whole weights stays exact only
  if that weight does not change (`UpdateKeepsExactIff`).
- An anomaly threshold of 3 cannot flag anything in the first ten values, although statistics start at ten
  (`CanFlagIff`).

## How the source is read

- Times and durations are integers; an open-ended `ValidTo` is `None`. Clock readings are parameters. Where a theorem
  needs the clock not to go back, it says so.
- Conditions and window assigners are arbitrary total functions. Event keys are strings: `Event.Key` has type
  `interface{}` in pkg/stream/types.go and is used as a string throughout pkg/join.
- A visit of a Go map is an arbitrary order: methods choose keys non-deterministically, and theorems hold for every
  enumeration.
- Stored events are pointers in Go. Here a stored event is addressed by side, key and position, which is what its
  pointer identifies while the lock is held.
- A firing window remembers matched events by pointer. Here it remembers their values: conditions see values only, so
  equal events of a window have the same partners.
- `ProcessLeft` and `ProcessRight` and their helpers mirror each other; where they do, one member takes the side as an
  argument.
- The nested structure of some Go methods is split over several Dafny methods; their names say which part each is.
- Go's unsigned counters are natural numbers. Those that drive decisions are bounded by their thresholds; the totals of
  the circuit breaker (64-bit) are taken not to wrap.
- Random draws, hash values, model outcomes and the room left in a channel are inputs.
- Where a comment and the code differ, the code is followed: `cleanup` in pkg/join/join.go:316 says it emits unmatched
  events but only logs them. The test `TestTemporalJoinLookupBeforeFirstVersion` expects no row before the first
  version, although its builder sets a left outer join, for which the code emits a padded row; the model pads.

## Model

| member | source | states |
|---|---|---|
| JoinStates.JoinState.AddLeftEvent | pkg/join/state.go:41-59 | storing a left event appends it under its key, counts it, and evicts the oldest events of that key beyond the limit; nothing else changes |
| JoinStates.JoinState.AddRightEvent | pkg/join/state.go:62-80 | the same on the right |
| JoinStates.JoinState.EnforceMaxStateSize | pkg/join/state.go:180-197 | one list is cut to its newest MaxStateSize events and the size counter falls by what was cut |
| JoinStates.JoinState.IncrementMatchCount | pkg/join/state.go:129-134 | the stored event and the match counter gain one, and nothing else moves |
| JoinStates.JoinState.RemoveExpiredEvents | pkg/join/state.go:137-148 | exactly the expired events leave both sides, and they are handed over in storage order per key |
| JoinStates.JoinState.RemoveExpiredFromSide | pkg/join/state.go:151-177 | the sweep over the keys, in any order, equals filtering every list; emptied keys disappear |
| JoinStates.JoinState.GetAllKeys | pkg/join/state.go:105-126 | the keys of a side, each once, in an arbitrary order |
| JoinStates.JoinState.Clear | pkg/join/state.go:207-214 | empties both sides and the size counter |
| JoinStates.JoinState.Size | pkg/join/state.go:217-229 | counts the stored events of both sides, which is the size counter |
| JoinStates.AccountsBalance | pkg/join/state.go:41-197 | over every run: size counter = live events, received = live + expired + evicted, no key has an empty list, no list exceeds a positive limit |
| JoinStates.ListsAreArrivalOrdered | pkg/join/state.go:41-197 | over every run each list is a subsequence, in order, of the arrivals of its key |
| JoinStates.ListIsNewestArrivals | pkg/join/state.go:41-197 | over every run from an empty state in which nothing expires, each list is the newest MaxStateSize of all arrivals of its key, in order, or all of them without a limit |
| JoinStates.MetricsCountOperations | pkg/join/state.go:41-148 | over every run each counter has counted its own kind of operation: left and right arrivals, recorded matches, cleanups |
| JoinStates.MatchCountCounts | pkg/join/state.go:129-134 | while nothing is removed, a stored event keeps its place and its match count has counted the matches recorded for it |
| JoinOperators.JoinOperator.Process | pkg/join/join.go:50-103 | store first, then probe with the configured strategy: new state and rows are those of the step function |
| JoinOperators.JoinOperator.HashProbe | pkg/join/join.go:106-173 | probes the one list with the event's own key, pads when there was no row and the type preserves the side |
| JoinOperators.JoinOperator.NestedLoopProbe | pkg/join/join.go:189-250 | probes every key of the other side in map order, pads likewise |
| JoinOperators.JoinOperator.VisitKey | pkg/join/join.go:112-126 | one row and one count per stored event that satisfies the condition, in storage order |
| JoinOperators.JoinOperator.Cleanup | pkg/join/join.go:317-349 | only removes what has expired; it emits nothing |
| JoinOperators.PartnersKeepOrder | pkg/join/join.go:113-127 | the rows of a probe name their partners in storage order |
| KeyedJoins.HashJoinRows | pkg/join/join.go:50-298 | over every run without evictions and with cleanups at any times: a pair with equal keys, the condition and the time distance is emitted once for each time its occurrences meet before StateRetention has run out; a left event is padded, in a left or full outer join, once for each arrival that meets nothing it joins; likewise a right event |
| KeyedJoins.HashJoinIsComplete | pkg/join/join.go:50-298 | if no cleanup comes after the retention of either event, such a pair is emitted exactly once per pair of occurrences, and any other pair never |
| KeyedJoins.NestedLoopRows | pkg/join/join.go:189-298 | the same for the nested loop, in any order of visiting the keys, without asking for equal keys |
| KeyedJoins.NestedLoopIsComplete | pkg/join/join.go:189-298 | and its completeness, whatever the keys |
| KeyedJoins.RowsAreWhole | pkg/join/join.go:274-298 | of either strategy, whatever is evicted or expires, every row is a pair with its later time and the left key, or one event with its own time and key |
| KeyedJoins.PaddedCanMatchIff | pkg/join/join.go:130-136 | on some run a left event is both padded and later paired with a right one, exactly when the join type pads left events and the two belong together |
| JoinOperators.RunsAgree | pkg/join/join.go:106-250 | if matching implies equal keys, both strategies give the same rows at every step and the same states, for every run, map order, join type, expiry and eviction |
| JoinOperators.StrategiesDiffer | pkg/join/join.go:189-250 | otherwise a two-event run tells them apart |
| JoinOperators.StrategiesAgreeIff | pkg/join/join.go:106-250 | the strategies agree on all runs if and only if matching events always have equal keys |
| ConcurrentJoins.EmittedOnceOrTwice | pkg/join/join.go:50-173 | under every interleaving of store, copy, visit and return steps of any number of calls, a matching pair is emitted once, or twice exactly when each call stored before the other copied; other pairs never |
| ConcurrentJoins.EmittedAtMostTwice | pkg/join/join.go:50-173 | with cleanups and evictions at any moment as well, and at every moment: a matching pair has been emitted at most twice, twice only if the calls overlap, and other pairs never |
| ConcurrentJoins.CountersAreExact | pkg/join/state.go:129-134 | at every moment, cleanups and evictions included, the match counter is the number of pairs found, and each stored event's count is how often it was found |
| ConcurrentJoins.UnfinishedCallCanStep | pkg/join/join.go:406-468 | no interleaving leaves a call without a step to take |
| ConcurrentJoins.PairCanBeEmittedTwice | pkg/join/join.go:406-468 | for every matching pair there is an interleaving that emits it twice |
| IntervalJoins.IntervalJoinOperator.ProcessLeft | pkg/join/interval_join.go:47-88 | stores with the left expiry, joins the stored right events inside the interval; never pads |
| IntervalJoins.IntervalJoinOperator.ProcessRight | pkg/join/interval_join.go:91-139 | stores with the right expiry, joins the left events whose interval holds it; pads for right and full outer |
| IntervalJoins.IntervalJoinOperator.Probe | pkg/join/interval_join.go:62-85 | the loop over one key equals the probe of that key: rows, counts and state |
| IntervalJoins.IntervalJoinOperator.Joins | pkg/join/interval_join.go:142-153 | both directions of the time test decide the same relation |
| IntervalJoins.BothChecksAgree | pkg/join/interval_join.go:142-153 | the right event lies in the left one's interval exactly when the left lies in the mirrored interval |
| IntervalJoins.IntervalJoinRows | pkg/join/interval_join.go:47-139 | over every run without evictions and with cleanups at any times: a pair with equal keys, the right time in the left interval and the condition is emitted once for each time its occurrences meet before they expire; a left event is never padded; a right event is padded, in a right or full outer join, once for each arrival at which no left event alive satisfies all three |
| IntervalJoins.IntervalJoinIsComplete | pkg/join/interval_join.go:47-153 | on every timely run without eviction and with enough retention, each pair that matches in key, interval and condition has been emitted exactly once per pair of occurrences |
| IntervalJoins.OnlyPairs | pkg/join/interval_join.go:47-139 | inner and left outer joins emit pairs that match in key, interval and condition, and nothing else |
| IntervalJoins.LeftIsNeverPadded | pkg/join/interval_join.go:62-87 | for all four join types and every run: each row is a matching pair or a padded right event, never a padded left one |
| IntervalJoins.LoneLeftEventLeavesNoRow | pkg/join/interval_join.go:62-87 | a left event that arrives alone leaves no row, whatever the join type |
| IntervalJoins.LeftAppearsIffPartnered | pkg/join/interval_join.go:47-139 | over timely runs a left event is in the output if and only if a partner arrives too |
| IntervalJoins.PaddedRightCanMatchIff | pkg/join/interval_join.go:127-136 | a right event that was padded is also paired on some timely run if and only if the join type pads and the two belong together |
| IntervalJoins.OutputIgnoresArrivalOrder | pkg/join/interval_join.go:47-153 | two timely runs with the same arrivals emit the same multiset, whatever the order and the cleanups |
| IntervalJoins.LateRunLosesThePair | pkg/join/join.go:317-319 | if a right event is kept for less than a partner's allowed lateness, a timely run misses the pair: a cleanup removes the right event before its late partner arrives |
| IntervalJoins.CompleteIffRetained | pkg/join/interval_join.go:91-100 | for every configuration, completeness on all timely runs without evictions holds if and only if each right event is kept until the allowed lateness of each of its partners has passed |
| IntervalJoins.RetentionFromBounds | pkg/join/interval_join.go:91-100 | StateRetention >= AllowedLateness - lower bound is enough for that, and necessary if some pair sits at the lower bound |
| TemporalJoins.TemporalJoinOperator.UpdateReference | pkg/join/temporal_join.go:64-101 | closes the newest version at the new event's time and appends an open one |
| TemporalJoins.TemporalJoinOperator.LookupVersion | pkg/join/temporal_join.go:145-190 | binary search, then the linear scan: the loops compute the specified lookup |
| TemporalJoins.TemporalJoinOperator.ProcessLeft | pkg/join/temporal_join.go:105-142 | the row is the as-of match, a padded row when there is none and the type preserves the left |
| TemporalJoins.TemporalJoinOperator.Cleanup | pkg/join/temporal_join.go:241-277 | keeps the newest version and the versions still valid after the cutoff, and never deletes a key |
| TemporalJoins.FoundIffOldEnough | pkg/join/temporal_join.go:145-190 | for updates in any order and no cleanup, a version is found exactly when some update is at or before the time asked for |
| TemporalJoins.BinarySearchSuffices | pkg/join/temporal_join.go:152-176 | on an in-order history the fallback scan never finds what the binary search missed |
| TemporalJoins.CleanupTrims | pkg/join/temporal_join.go:241-277 | a cleanup removes a prefix of an in-order history and never the newest version |
| TemporalJoins.CleanupLeavesUnended | pkg/join/temporal_join.go:241-277 | with updates in any order, a cleanup leaves, besides the newest version, exactly those that end after its cutoff, if no earlier one used a later cutoff |
| TemporalJoins.RunTrims | pkg/join/temporal_join.go:64-277 | after any mix of in-order updates and cleanups a history is the full chain less a prefix that ended by the latest cutoff |
| TemporalJoins.LookupIsAsOf | pkg/join/temporal_join.go:145-277 | with in-order updates and any cleanups, a lookup at or after all cutoffs returns the last update at or before its time, and earlier lookups return that or nothing |
| TemporalJoins.LookupIsAsOfIff | pkg/join/temporal_join.go:64-277 | the lookup is right at every moment of a run, for every time at or after the cutoffs so far, if and only if the updates of the key arrive in order |
| TemporalJoins.JoinsLastUpdate | pkg/join/temporal_join.go:105-190 | over every run with in-order updates of its key and cleanups up to its time, a main-stream event emits its pair with the last update at or before its time if the condition holds, and nothing if not; without such an update it is padded in a left or full outer join |
| TemporalJoins.JoinsSomeUpdate | pkg/join/temporal_join.go:105-190 | with updates in any order it is padded or dropped exactly when no update is at or before its time, and otherwise meets an update that is, and whose successor in arrival order is not |
| TemporalJoins.LookupFindsCrossing | pkg/join/temporal_join.go:145-277 | in any order of updates and with cleanups up to the time asked for, the lookup finds a version exactly when some update is old enough, and one whose successor is not |
| TemporalJoins.TablesAgreeInOrder | pkg/sql/stream_table.go:322-364 | on in-order logs the join's lookup and the SQL temporal table answer every query alike |
| TemporalJoins.TablesAgreeWhenOneCovers | pkg/sql/stream_table.go:345-364 | in any order of arrival they answer alike at every time at which at most one version is valid (one direction only) |
| TemporalJoins.TablesAgreeIff | pkg/sql/stream_table.go:345-364 | a remark in terms of the lookup itself: when every update carries its own value, the answers at a time are equal if and only if no version before the one the lookup settles on is valid then |
| TemporalJoins.TablesDifferOutOfOrder | pkg/sql/stream_table.go:354-361 | five out-of-order updates on which they answer differently |
| TemporalJoins.LateUpdateIsMissed | pkg/join/temporal_join.go:81-93 | one late update makes the lookup return the version before it |
| TemporalJoins.TemporalTable.Insert | pkg/sql/stream_table.go:322-342 | closes the last row only if it is open, then appends an open row |
| TemporalJoins.TemporalTable.QueryAsOf | pkg/sql/stream_table.go:345-364 | the first row valid at the time, or the error |
| WindowJoins.WindowJoinOperator.Process | pkg/join/window_join.go:55-118 | the event enters each assigned window and is matched there; nothing is emitted |
| WindowJoins.WindowJoinOperator.MatchInWindow | pkg/join/window_join.go:121-149 | appends the pairs with the other side's events that satisfy the condition |
| WindowJoins.WindowJoinOperator.OnWatermark | pkg/join/window_join.go:152-171 | fires exactly the windows whose end the watermark has reached, in some order, and forgets them |
| WindowJoins.WindowJoinOperator.FireWindow | pkg/join/window_join.go:174-276 | emits the matches, then the unmatched events of the preserved sides |
| WindowJoins.WindowJoinOperator.Unmatched | pkg/join/window_join.go:190-246 | the events found in no match are those without a partner, each occurrence padded once |
| WindowJoins.ArrivalKeepsAllCross | pkg/join/window_join.go:55-149 | each window's matches are, as a multiset, the condition-filtered cross product of its two sides, after every arrival |
| WindowJoins.FiringIsExact | pkg/join/window_join.go:174-276 | a firing window emits each matching pair of occurrences once, one padded row per left occurrence without a partner in a left or full outer join, and one per right occurrence without a partner in a right or full outer join, all under its key and end |
| WindowJoins.FiredRowsAreWhole | pkg/join/window_join.go:174-276 | it emits no other rows: each has an event on some side, the key and the end of the window |
| WindowJoins.EachPairAtMostOnce | pkg/join/window_join.go:55-276 | across any run with watermarks, emitted plus pending never exceed the pairs of occurrences a window ever received, and equal them when neither event is late |
| WindowJoins.PairOnTimeIsEmittedOnce | pkg/join/window_join.go:152-276 | once a window has fired, events that all reached it before are emitted once per pair of occurrences |
| WindowJoins.PaddedOnceIff | pkg/join/window_join.go:152-276 | over a whole run, an event that is never late is padded once per occurrence if no partner reached the window before it first fired and the join type is left or full outer for a left event, right or full outer for a right one; otherwise never |
| CepEngines.CEPEngine.TryAdvanceMatch | pkg/cep/engine.go:196-277 | the in-place update of one partial match, with its recursive skip of optional steps, reports and leaves what the step function says |
| CepEngines.CEPEngine.AdvancePartialMatches | pkg/cep/engine.go:156-193 | the surviving matches and the completed ones, in list order |
| CepEngines.CEPEngine.ProcessEvent | pkg/cep/engine.go:72-114 | every pattern takes one step, in any order; the matches are concatenated in that order; the buffer keeps its newest events |
| CepEngines.CEPEngine.CleanupTimedOutMatches | pkg/cep/engine.go:454-469 | every pattern drops its timed-out partial matches and nothing else |
| CepEngines.CEPEngine.RegisterPattern | pkg/cep/engine.go:49-54 | a (re)registered pattern starts without partial matches |
| CepEngines.CEPEngine.UnregisterPattern | pkg/cep/engine.go:57-62 | the pattern and its partial matches are gone |
| CepPatterns.StateIsTracks | pkg/cep/engine.go:156-193 | partial matches never influence one another: the list is, in start order, the independent tracks still active, and a step emits those it completes |
| CepSoundness.EmittedMatchesAreSound | pkg/cep/engine.go:133-312 | every emitted match of every run: events in arrival order from one start, blocks of non-decreasing steps, each satisfying its step and its gap constraint, required steps with exactly the least accepted count, the window, every negated step passed after its deadline and matched by no event seen while it was waited on, and (unless the pattern ends in an optional step or has one step) the conditions |
| CepSoundness.EmittedEventsMeetTheirSteps | pkg/cep/engine.go:196-384 | in every run the events of an emitted match belong to steps in order; each has the type of its step, a number above or below the operand where the step expects ">..." or "<...", the very value otherwise, lies in the window, and is no further from (or, for After, no closer to) the event before it than the step says |
| CepSoundness.TwoStepRun | pkg/cep/engine.go:117-384 | what a pattern of two plain steps emits on two events, exactly: types and expected values, the timeout, the window, the distance and the conditions decide |
| CepSoundness.ComparisonDecides | pkg/cep/engine.go:315-384 | if the first step expects ">..." or "<..." of a field, the two events are emitted exactly when the number in that field is above or below the operand |
| CepSoundness.TimesOutExactly | pkg/cep/engine.go:427-469 | in every run a partial match is dropped, by the cleanup or the next event, exactly when more than the timeout, or a shorter window, has passed since its last event |
| CepSoundness.LeastCounts | pkg/cep/engine.go:280-299 | the least positive count of each quantifier: MinOccurrences, or one |
| CepSoundness.RequiredStepHasEvent | pkg/cep/engine.go:235-299 | whatever its quantifier, a required step has an event in every emitted match |
| CepSoundness.StarCanBeEmptyIff | pkg/cep/engine.go:293-294 | some run emits A, any number of B, C without a B if and only if the `ZeroOrMore` step is declared optional as well |
| CepSoundness.TryAdvanceKeeps | pkg/cep/engine.go:196-312 | one event preserves the invariant of a partial match; the skip of optional steps terminates |
| CepSoundness.NegationWasWatched | pkg/cep/engine.go:208-232 | in every run, for every match still alive or emitted: no event that found it waiting at a negated step, or brought it there or past it, matched that step, and an event that took it past came after the deadline |
| CepSoundness.NegationWasPassed | pkg/cep/engine.go:222-230 | a match beyond a negated step was taken past it by some event of the run |
| CepSoundness.OneStepEmissions | pkg/cep/engine.go:133-204 | what a one-step pattern emits in every run, exactly: a matching event, alone, at the next arrival of any kind, if nothing timed it out before and that arrival lies in the window; the conditions play no part |
| CepSoundness.OneStepRun | pkg/cep/pattern.go:352-360 | the runs of one and two events: nothing is emitted for a matching event until the next one, which completes it inside the window and loses it outside |
| CepSoundness.NegationWithoutDeadlineNeverEmits | pkg/cep/dsl.go:52-57 | a pattern with a negated step that has no temporal constraint never emits, whatever arrives |
| CepSoundness.SequenceWithNegationCanEmit | pkg/cep/dsl.go:326-343 | "A, no B, then C" can be emitted if and only if the negated step has a deadline shorter than the window (or there is no window) |
| CepMatcher.PatternMatcher.AddEvent | pkg/cep/pattern.go:71-90 | the buffer after pruning and trimming, and the matches found in it |
| CepMatcher.PatternMatcher.PruneOldEvents | pkg/cep/pattern.go:93-111 | keeps exactly the events newer than the cutoff, in order |
| CepMatcher.PatternMatcher.TryMatch | pkg/cep/pattern.go:129-169 | the scan from one start, in which an unmet optional step stays expected |
| CepMatcher.FindMatchesIff | pkg/cep/pattern.go:114-188 | the matches found in a buffer, exactly and for any pattern: from some start each step is met by the first event that has no type or the expected one and literally the expected values, nothing lies in between unless the step is optional, and the conditions hold |
| CepMatcher.BufferHoldsRecent | pkg/cep/pattern.go:71-111 | while the clock does not go back and the limit is not reached, the buffer is exactly the events newer than the window before the last reading, in order |
| CepMatcher.BufferKeepsLimit | pkg/cep/pattern.go:71-90 | in any run the buffer keeps its limit and the order of arrival, and ends with the newest event if that is recent |
| CepMatcher.MatchersAgree | pkg/cep/pattern.go:172-188 | the two event tests agree on typed events and patterns without operator texts |
| CepMatcher.StateIsOpenStarts | pkg/cep/engine.go:72-193 | for plain patterns the partial matches are, in order, the starts whose suffix matches a proper prefix of the pattern |
| CepMatcher.EngineRefinesMatcher | pkg/cep/pattern.go:114-169 | for plain patterns, with arbitrary conditions and any window, the engine emits over a whole run exactly, and in order, those matches found by rescanning the full buffer whose events lie within the window of the first |
| CepMatcher.NoWindowNoFilter | pkg/cep/engine.go:168-172 | without a window these are all it finds |
| CepMatcher.AddEventFindsEmissions | pkg/cep/pattern.go:71-111 | while nothing seen is old enough to be pruned and the buffer holds it all, the answer of AddEvent is, up to the window, all that the engine has emitted |
| StreamTables.Streamifier.Tick | pkg/sql/stream_table.go:135-183 | whatever sends are dropped, replaying the changelog gives the snapshot; a tick sends each differing key once, except the dropped ones, and moves exactly the sent keys to the table's entry; it panics if and only if some key holds a row in both the snapshot and the table, and then the keys not reached are as they were |
| StreamTables.Streamifier.UpdateTable | pkg/sql/stream_table.go:226-251 | nil deletes, anything else writes |
| StreamTables.PolledAll | pkg/sql/stream_table.go:142-181 | after a tick, snapshot and table disagree exactly on the dropped keys; with no drop they are equal |
| StreamTables.RowsArePolledOnce | pkg/sql/stream_table.go:144-146 | after a complete tick and any changes to the table, the next one panics if and only if some key holds a row then as it did before, changed or not |
| StreamTables.Materializer.Materialize | pkg/sql/stream_table.go:58-89 | the loop writes the event value under its primary key, deletions included |
| StreamTables.Materializer.BuildPrimaryKey | pkg/sql/stream_table.go:272-294 | the composite key, or the event key when there is none |
| StreamTables.KeysTellRowsApart | pkg/sql/stream_table.go:272-294 | rows without underscores in their key fields get the same composite key exactly when they agree on every key field |
| StreamTables.UnderscoresCollide | pkg/sql/stream_table.go:281-287 | with underscores two different rows get the same key, and the later one overwrites the other |
| StreamTables.RowsWithoutKeyFields | pkg/sql/stream_table.go:281-291 | a row without any key field keeps its own key with one key field at most; with more, all such rows go to one key of underscores |
| StreamTables.MaterializedIsReplay | pkg/sql/stream_table.go:58-89 | materialising any consumed prefix gives its replay, apart from nil entries, when rows keep the key they were sent under |
| StreamTables.MaterializedKeysAreReplayKeys | pkg/sql/stream_table.go:72-80 | the materialised table has the right keys if and only if no key's last change is a deletion |
| StreamTables.DeletedRowStays | pkg/sql/stream_table.go:272-294 | with a composite key a deletion leaves the row in place |
| StreamTables.MaterializingReplaysIff | pkg/sql/stream_table.go:58-89 | every changelog materialises to its replay if and only if there are no primary keys |
| StreamTables.ReplayedIffKeysAgree | pkg/sql/stream_table.go:272-294 | with primary keys, every changelog drawn from a set of events materialises to its replay if and only if each of those events keeps the key it was sent under |
| StreamTables.DualityRoundTrip | pkg/sql/stream_table.go:58-184 | after a tick without drops, materialising everything sent gives the source table |
| CircuitBreakers.CircuitBreaker.BeforeRequest | pkg/errors/circuit_breaker.go:123-161 | the verdict and the whole new state of admitting or rejecting a request |
| CircuitBreakers.CircuitBreaker.AfterRequest | pkg/errors/circuit_breaker.go:164-221 | the whole new state after a success or a failure in each state |
| CircuitBreakers.CircuitBreaker.Execute | pkg/errors/circuit_breaker.go:107-120 | the operation counts only when the request was admitted |
| CircuitBreakers.CircuitBreaker.Reset | pkg/errors/circuit_breaker.go:275-289 | closed, with the counters of the states at zero and the totals kept |
| CircuitBreakers.CircuitBreaker.IsAvailable | pkg/errors/circuit_breaker.go:292-306 | true exactly when a request made now would be admitted |
| CircuitBreakers.RunKeeps | pkg/errors/circuit_breaker.go:123-289 | in every interleaving: successCount and halfOpenRequests are zero outside half-open, failureCount is the current failure streak while closed and the threshold otherwise, halfOpenRequests never exceeds the era's own requests in flight |
| CircuitBreakers.RequestsBalance | pkg/errors/circuit_breaker.go:123-213 | requests = successes + failures + rejected + in flight |
| CircuitBreakers.TotalsCountSteps | pkg/errors/circuit_breaker.go:123-213 | in every interleaving each total has counted its own kind of step: requests, successes, failures, rejected ones and resets included |
| CircuitBreakers.AnswersExactly | pkg/errors/circuit_breaker.go:123-161 | in every reachable state: closed admits; open rejects until more than the timeout has passed since the last failure of the run; half-open, without stale successes, admits exactly while fewer than MaxConcurrentRequests of its own are in flight |
| CircuitBreakers.TripsExactly | pkg/errors/circuit_breaker.go:202-213 | a closed breaker opens on a step exactly when it is a failure that makes FailureThreshold consecutive ones |
| CircuitBreakers.ClosesExactly | pkg/errors/circuit_breaker.go:184-198 | a half-open breaker closes on a completion exactly when it is the era's SuccessThreshold-th and none failed |
| CircuitBreakers.NoWedge | pkg/errors/circuit_breaker.go:129-157 | past the timeout a request is admitted whenever the half-open era has none of its own in flight, if half-open has a slot or one success closes the breaker |
| CircuitBreakers.NoWedgeIff | pkg/errors/circuit_breaker.go:129-157 | that holds in every run if and only if MaxConcurrentRequests is at least one or SuccessThreshold at most one |
| CircuitBreakers.GetsStuck | pkg/errors/circuit_breaker.go:148-197 | otherwise some run leaves the breaker half-open with nothing in flight |
| CircuitBreakers.StuckForever | pkg/errors/circuit_breaker.go:148-157 | from then on every request is rejected, until a reset |
| CircuitBreakers.ProbesBounded | pkg/errors/circuit_breaker.go:148-197 | the era's requests in flight are at most MaxConcurrentRequests (one if that is zero) plus the stale successes it received |
| CircuitBreakers.LimitHoldsIff | pkg/errors/circuit_breaker.go:45-46 | MaxConcurrentRequests is respected in every run if and only if it is at least one and SuccessThreshold is at most one |
| Retries.Execute | pkg/errors/retry.go:70-123 | stops at the first call that ends it; the operation is called exactly once per attempt, up to that call; result as specified |
| Retries.ExecuteWithCallback | pkg/errors/retry.go:129-191 | the same result, and the exact list of callback invocations |
| Retries.CalculateBackoff | pkg/errors/retry.go:194-214 | grow, cap, jitter, truncate |
| Retries.LastCallIsUnique | pkg/errors/retry.go:70-191 | there is one last call, whatever ends an unlimited loop, so both loops return the same result on the same outcomes, cancellations and draws |
| Retries.ResultMeans | pkg/errors/retry.go:70-123 | every call before the last failed, could be retried and was waited out; the last one succeeded, or could not be retried, or was the last allowed, or was cut short; with the result in each case |
| Retries.AttemptsBounded | pkg/errors/retry.go:85-106 | at most MaxAttempts + 1 attempts |
| Retries.EveryFailureReported | pkg/errors/retry.go:129-191 | the callback hears of each failed call once, in order, with its number, its error and its wait, which is zero after a failure that ends the loop |
| Retries.ReportsAddUp | pkg/errors/retry.go:129-191 | the waits the callback is told of add up to the total that is returned |
| Retries.BackoffIs | pkg/errors/retry.go:194-214 | one backoff exactly, for any parameters: the capped exponential, moved by at most the jitter fraction of it, without its fraction; a negative delay gives way to the initial backoff |
| Retries.BackoffGrows | pkg/errors/retry.go:194-205 | without jitter the waits never get shorter until they stay at the cap |
| Retries.TotalWithinCap | pkg/errors/retry.go:194-214 | after w waits the total backoff is between 0 and (1+J) w MaxBackoff |
| Retries.TotalWithinGeometric | pkg/errors/retry.go:194-214 | and at most (1+J) InitialBackoff (m^w - 1)/(m - 1), stated multiplied out by m - 1 |
| Batchers.InferenceOperator.constructor | pkg/ml/inference.go:154-167 | a batch size that is not positive becomes 1, a concurrency that is not positive becomes 10 |
| Batchers.InferenceOperator.Submit | pkg/ml/inference.go:201-225 | the locked section: append, flush when full, else arm a timer if none is recorded |
| Batchers.InferenceOperator.FlushBatchLocked | pkg/ml/inference.go:283-297 | hands the pending batch over and clears the timer, or does nothing |
| Batchers.InferenceOperator.TimerCallback | pkg/ml/inference.go:219-223 | a timer flushes whatever is pending when it gets the lock |
| Batchers.InferenceOperator.ProcessBatch | pkg/ml/inference.go:333-353 | one reply per item: its response, the batch error, or the missing-response error |
| Batchers.BatchesAreSubmissions | pkg/ml/inference.go:189-377 | in every interleaving: flushed batches followed by the pending one are the submissions in order, batches stay within BatchSize, at most MaxConcurrency run, and a batch is pending exactly when an unfired timer is recorded |
| Batchers.EveryItemAnsweredOnce | pkg/ml/inference.go:300-353 | no item ever gets two messages, and exactly one once all batches are done |
| Batchers.DoneBatchAnswers | pkg/ml/inference.go:333-353 | each item of a finished batch received its own response, the error of the batch, or the missing-response error |
| Batchers.BatchesAreFull | pkg/ml/inference.go:198-215 | while neither a timer nor the ticker flushes, every batch handed over is exactly full, and their number is that of the submissions divided by BatchSize |
| Batchers.OnlyRecordedTimerIsArmed | pkg/ml/inference.go:208-224 | if every stop of a timer comes in time and the ticker flushes nothing, the only timer that can still fire is the recorded one |
| Batchers.FlushLeavesTimerArmed | pkg/ml/inference.go:356-373 | a flush by the ticker leaves the timer of its batch armed: it then flushes the next batch early |
| Batchers.NothingWedges | pkg/ml/inference.go:300-310 | while a batch is unfinished some worker can move |
| Batchers.PendingBatchWillFlush | pkg/ml/inference.go:217-224 | the recorded timer of a pending batch can fire and flushes it |
| ABSplit.ABTestOperator.Validate | pkg/ml/abtest.go:129-143 | valid exactly if there are variants and the enabled ones total between 99.9 and 100.1; else which error |
| ABSplit.ABTestOperator.Load | pkg/ml/abtest.go:146-169 | loads the models of the enabled variants, or names one that has none |
| ABSplit.ABTestOperator.constructor | pkg/ml/abtest.go:173-187 | keeps the loaded variants; without a configured default any of them becomes it |
| ABSplit.ABTestOperator.Serve | pkg/ml/abtest.go:191-210 | a selected variant that is not loaded gives way to the default; without a loaded default it panics |
| ABSplit.ABTestOperator.SelectHashedVariant | pkg/ml/abtest.go:287-309 | the first enabled variant whose cumulative weight reaches the percentage, else the default |
| ABSplit.ABTestOperator.UpdateVariant | pkg/ml/abtest.go:362-375 | changes the first variant of that name only |
| ABSplit.ServedExactly | pkg/ml/abtest.go:191-210 | hash by hash: the variant that the residue plus one is routed to handles the event if it has a model, else the default; without a split value always the default |
| ABSplit.ServedByWeight | pkg/ml/abtest.go:191-306 | of the hundred residues of the hash, an enabled variant handles exactly as many as its weight says, for loaded variants with different names and whole weights that sum to 100 |
| ABSplit.ShareSize | pkg/ml/abtest.go:293-306 | the share of each variant for weights of any sign |
| ABSplit.SplitIsProportional | pkg/ml/abtest.go:293-306 | with non-negative weights the share is the step of min(100, floor(C)) |
| ABSplit.WholeWeightsSplitExactly | pkg/ml/abtest.go:293-306 | whole weights that sum to 100 are split exactly and leave nothing to the default |
| ABSplit.ValidationLeavesAtMostOne | pkg/ml/abtest.go:134-143 | any validated weights leave the default at most one residue; non-negative ones exactly one when they total less than 100 |
| ABSplit.SplitsExactlyIff | pkg/ml/abtest.go:293-306 | whole weights are split exactly if and only if they sum to 100 |
| ABSplit.NothingFallsIff | pkg/ml/abtest.go:191-204 | after any number of updates, nothing is served by the default in place of another if and only if the weights reach 100 and every variant that gets some residue has a model |
| ABSplit.UpdateUnbalances | pkg/ml/abtest.go:362-375 | after an update of a split totalling 100 the default gets exactly what the variant gave up, and the whole share of a variant that was not loaded |
| ABSplit.UpdateIsServedIff | pkg/ml/abtest.go:362-375 | nothing falls to the default after an update if and only if the variant brings at least as much as before, and is loaded or still gets no residue |
| ABSplit.NewlyEnabledFalls | pkg/ml/abtest.go:146-150 | enabling a variant that was disabled when the operator was built sends its 30 residues to the default although every residue has a variant |
| ABSplit.SwitchedOffGoesToDefault | pkg/ml/abtest.go:362-375 | of whole weights, a variant that is switched off leaves the default all it had |
| ABSplit.UpdateKeepsExactIff | pkg/ml/abtest.go:362-375 | a split of whole weights that is served exactly stays so if and only if the update leaves the variant's effective weight as it was |
| Regression.LinearRegression | pkg/iot/sensor.go:421-446 | the accumulating loop and both branches compute the specified line |
| Regression.DenominatorPositive | pkg/iot/sensor.go:437-440 | the denominator is n^2(n^2-1)/12 > 0 for two readings or more, so the zero branch is dead |
| Regression.FitIsBest | pkg/iot/sensor.go:421-446 | no line has a smaller sum of squared errors, and every other line has a larger one |
| Regression.LineIsRecovered | pkg/iot/sensor.go:421-446 | readings on a line give that line back |
| Anomalies.AnomalyDetector.AddValue | pkg/fraud/detector.go:59-86 | the window slides, the verdict is the z-score test, equally the test without the root, the squared z-score is at most the window length less one |
| Anomalies.WindowIsNewest | pkg/fraud/detector.go:63-66 | at every moment the window is the newest WindowSize of all values added, in order |
| Anomalies.AnomalyDetector.UpdateStats | pkg/fraud/detector.go:89-103 | the two loops compute mean and standard deviation |
| Anomalies.Samuelson | pkg/fraud/detector.go:82-101 | the newest value's squared deviation is at most n - 1 variances |
| Anomalies.SpikeIsExtreme | pkg/fraud/detector.go:82-101 | a spike reaches that bound |
| Anomalies.FlagsIsTheTest | pkg/fraud/detector.go:82-85 | comparing squares with the variance decides exactly as comparing the z-score with the threshold |
| Anomalies.CanFlagIff | pkg/fraud/detector.go:77-85 | some window of n values is flagged if and only if n - 1 exceeds the squared threshold |

## Left out

- Sources and sinks, metrics export, tracing, the operator for Kubernetes, SQL parsing, the optimiser stubs and the
  checkpoint format: input/output, foreign calls or stubs with nothing to preserve.
- IEEE rounding: the statistics and the backoff are modelled over reals, and the square root is a function assumed to be
  exact, which no executable function on Dafny's reals is for every argument.
- HashJoinRows, NestedLoopRows, IntervalJoinRows: for runs without evictions; with evictions the lists are those of
  ListIsNewestArrivals and LeftIsNeverPadded still holds, but rows are not counted.
- `SortMergeJoin`: the code delegates to the hash join (pkg/join/join.go:176-186).
- EmittedOnceOrTwice: covers interleavings of storing and probing only. With cleanups and evictions in between a pair can
  be lost, and EmittedAtMostTwice keeps the upper half.
- Window assigners, triggers and late-event policies of pkg/window; a window is keyed by key, start and end instead of
  the formatted string, which truncates to seconds.
- `GetVersionHistory`, metrics getters and other read-outs, and the builders: copies of fields.
- The engine's callback, severity and metadata, and the time stamp given to events that have none.
- Conditions between events as such: the engine and the matcher evaluate them alike, so they are one arbitrary function
  of the matched events. Nothing is claimed of them for patterns that end in an optional step, which can complete without
  checking them.
- Predicates on fields: the number in an operator text is read by a library call and stands as a function; maps
  and slices as field values of events, on which Go's comparison panics, are not modelled.
- Streamifier.Tick: values that Go cannot compare, other than maps, are not modelled; two slices panic as two rows do.
- The context of a submitter: a cancelled submitter of the batcher stops waiting, which changes no state of the batcher.
- Submission: the metrics, the features and the event value that the result is written into are not modelled.
- `MultiSensorAggregator.AddReading`, the degradation rate, the health score and the time to failure: running counts,
  extremes and averages that would only add easy members.
- `selectRandomVariant`, shadow mode, predictions, and the hash function itself. The model registry is a predicate on
  variants.
- The state backend behind the materialiser, and the catalog: errors of lookups by name are not modelled.
- The tick's clock: a `Tick` is one atomic step under the read lock, as in the code; the events' time stamps are left out.
