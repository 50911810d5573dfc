# RVF Malinois: verified model of the well-test, trend, alarm and realtime logic

A Dafny model of the stateful and branching logic of the repository, with proofs. It has four parts.

- **Well tests.** `WellTests.dfy` is the lifecycle service: a class over the table of rows, one method per
  transition, plus whole runs of calls. `WellTestWindow.dfy` is the window derivation of the trend drawer and
  what reachability of a row says about it. `WellTestHistory.dfy` tells rows, answers and windows by the calls
  of the run alone.
- **Bucketed trends.** `BucketedTrends.dfy` is the grid, the binning and the left join, with the width policy
  of the client; `BucketMeaning.dfy` says what the numbers of a bucket report of the rows; `BucketHierarchy.dfy`
  relates bucket sizes to each other; `BinArithmetic.dfy` holds the division facts.
- **Alarm evaluation.** `AlarmEvaluation.dfy` is the backend evaluator over runs; `EvaluatorAgreement.dfy`
  compares it with the web evaluator.
- **Realtime.** `RingBuffer.dfy`, `TelemetryStore.dfy`, `ListenerRegistry.dfy`, `Notifications.dfy`,
  `MessageRuns.dfy` and `HistoryHook.dfy` are the store, its subscriptions, its messages and the history hook; `TagState.dfy`, `UnitBadge.dfy` and `AlarmViews.dfy` are the stale detector, the
  evaluator and the three views of it; `RealtimeSlots.dfy` is the slot map and its merge with REST.

`Prelude.dfy`, `ReadingQuality.dfy` and `Telemetry.dfy` hold shared types. `dafny verify dfyconfig.toml` checks everything.

## Conventions

- Each service call and each `evaluate` is one atomic step. Clocks, fresh ids, and the job row the database
  holds are parameters of a call. Errors are `Result` values.
- Well-test and telemetry times are integer milliseconds, trend times integer microseconds in UTC. Values are
  reals. `date_bin` floors to 2000-01-01, `generate_series` includes its stop.
- `applyUpdate` includes the table's own CHECK constraints on status and timestamps; a refused update is the
  error `CheckViolation`.
- An alarm event's id is its index in the table, and creation appends. Between evaluations others may take
  events out of `active` and change them then; an event still active is unchanged.
- Two rows with the same timestamp rank in table order for `first` and `last`.
- A listener is a number, `fired` the trace of calls, and listeners do not call back into the store. A handle
  remembers the very set its listener was added to, as the closure does.
- In the history hook `T` is a stored reading and its equality the identity JavaScript compares by.

## What the proofs found

The table below names the lemmas with the inputs and the exact conditions.

- Only one CHECK constraint is ever needed: no guard of the service compares the clock of
  `startStabilization` with `connectedAt`.
- The width policy of the client has no bucket coarser than 15 minutes, so a Full Test trend wider than 15 days
  15 hours is refused. For an active test, the only kind the trend drawer is given, that is once so much time
  has passed since the connection.
- The window derivation itself also covers tests that are over, which no caller passes it. There the Full Test
  window of an aborted test, and the Stabilization window of a test aborted while stabilizing, keep growing with
  the viewer's clock.
- With the hook's clock rounded down to 15 s a window can be inverted, and a phase can stick out of Full Test, by
  up to 14 999 ms.
- The cap of 1500 buckets is on the span, so an accepted request can return 1501.
- Web and backend evaluators differ at bounds (`>=` against `>`) and, off every bound, only when an alarm-low
  lies above a warning-high.
- A tag without thresholds is `disabled` while its data is fresh and usable, and `no_data` once it is not.
- The documented reading of `live` as "younger than the delayed limit" needs the delayed limit not to exceed
  the other two; overrides are not checked for it.
- The priority table ranks no data above normal, so it is reported as worst over it, though its comment says it
  ranks as low as normal; the model follows the table.
- A tag mapped twice is one tile on the card but up to two entries in header and panel.
- Using an unsubscribe handle twice can silence a listener that subscribed in between, and subscribing the same
  listener twice under one key lets the first unsubscribe end both.

## Model

| member | source | states |
|---|---|---|
| WellTests.WellTestsService.CreateTest | apps/backend/src/well-tests/well-tests.service.ts:119-154 | answers and leaves the table as the lifecycle step for `create`: unknown or foreign job, mismatched well or unit, taken id, else a scheduled row without timestamps |
| WellTests.WellTestsService.ConnectTest | apps/backend/src/well-tests/well-tests.service.ts:160-174 | is the `connect` step, one-active-per-unit guard included; a refused call leaves the table as it was |
| WellTests.WellTestsService.StartStabilizationPhase | apps/backend/src/well-tests/well-tests.service.ts:176-189 | is the `startStabilization` step |
| WellTests.WellTestsService.StartOfficialWindow | apps/backend/src/well-tests/well-tests.service.ts:191-211 | is the `startOfficial` step, clock-skew guard included |
| WellTests.WellTestsService.EndOfficialWindow | apps/backend/src/well-tests/well-tests.service.ts:213-231 | is the `endOfficial` step, clock-skew guard included |
| WellTests.WellTestsService.AbortTest | apps/backend/src/well-tests/well-tests.service.ts:233-248 | is the `abort` step, from any of the first four states |
| WellTests.WellTestsService.CloseTest | apps/backend/src/well-tests/well-tests.service.ts:250-260 | is the `close` step; keeps an earlier report marker when none is given |
| WellTests.WellTestsService.GetActive | apps/backend/src/well-tests/well-tests.service.ts:97-113 | null exactly when the caller sees no active row of the unit, else a newest one |
| WellTests.ReachableInvariant | apps/backend/src/well-tests/well-tests.service.ts:119-260 | in every run, for any clock: each row's set timestamps are exactly those of its status (aborted: a prefix), stabilizationEndedAt = officialStartedAt, the chain up to officialEndedAt is ordered, and each (tenant, unit) has at most one active row |
| WellTests.CheckRejectsExactlyEarlyStabilization | apps/backend/prisma/migrations/20260530000000_f4_7_well_tests/migration.sql:134-194 | on reachable tables the CHECK constraints refuse a guarded transition exactly for startStabilization with a clock before connectedAt |
| WellTests.EarlyStabilizationIsRejected | apps/backend/src/well-tests/well-tests.service.ts:176-189 | the run that needs the constraint: connected at 10, stabilization started by a clock at 5 |
| WellTests.ScopedGetActiveIsUnique | apps/backend/src/well-tests/well-tests.service.ts:97-113 | a tenant-scoped getActive can only return the one active row of that tenant's unit |
| WellTests.MonotoneClockGivesFullChain | apps/backend/src/well-tests/well-tests.service.ts:160-260 | if the clock never goes back, the chain is ordered through disconnectedAt, and abortedAt is last |
| WellTests.TransitionRaisesRank | apps/backend/src/well-tests/well-tests.service.ts:284-295 | every successful transition strictly raises the lifecycle rank |
| WellTests.AtMostFiveTransitions | apps/backend/src/well-tests/well-tests.service.ts:160-260 | no run contains more than five successful transitions of one test |
| WellTests.TimestampsAreWriteOnce | apps/backend/src/well-tests/well-tests.service.ts:160-260 | from any point of any run on, timestamps, identity and plan columns never change once set, rank never falls, and closed or aborted rows never change |
| WellTests.ScopedCallersAreIsolated | apps/backend/src/well-tests/well-tests.service.ts:119-281 | any number of calls by one tenant's callers neither adds, changes nor removes a row of another tenant |
| WellTestHistory.TransitionAnswersExactly | apps/backend/src/well-tests/well-tests.service.ts:160-324 | after any run a transition succeeds exactly when the caller sees the row, it is the next milestone by the timestamps, no other open test stands on the unit of a test to be connected, and the clock is not early; and which error it is otherwise |
| WellTestHistory.CreateAnswersExactly | apps/backend/src/well-tests/well-tests.service.ts:119-154 | `create` makes a row without milestones exactly when the caller sees the job, well and unit are the job's, and the id is new; and which error it is otherwise |
| WellTestHistory.StampComesFromItsCall | apps/backend/src/well-tests/well-tests.service.ts:160-260 | in any run every set timestamp is the clock of a successful call of its own kind on that id |
| WellTestHistory.SuccessLeavesItsStamp | apps/backend/src/well-tests/well-tests.service.ts:160-260 | the clock of every successful call stands in its column at the end of the run, with the abort reason and the report marker it gave |
| WellTestHistory.ReasonAndReportAreGiven | apps/backend/src/well-tests/well-tests.service.ts:233-260 | an abort reason or a report marker is there only because a successful abort or close gave it |
| WellTestHistory.RowComesFromItsCreate | apps/backend/src/well-tests/well-tests.service.ts:137-154 | every row was made by exactly one successful create, whose tenant, job, well, unit, plan and creation time it keeps |
| WellTestHistory.NotesAreTheLastGiven | apps/backend/src/well-tests/well-tests.service.ts:137-260 | a row's notes are the last non-empty ones a successful call brought, none if none did |
| WellTestHistory.OneOpenTestPerUnit | apps/backend/src/well-tests/well-tests.service.ts:304-324 | in any run at most one row of a tenant's unit has connectedAt set and officialEndedAt and abortedAt not |
| WellTestHistory.GetActiveReturnsTheOpenTest | apps/backend/src/well-tests/well-tests.service.ts:97-113 | getActive answers with the newest such row the caller sees, none exactly when there is none; a caller with a tenant has no other |
| WellTestWindow.WindowsAreWellFormed | apps/web/lib/hooks/useWellTestWindow.ts:147-355 | reachable row, monotone clock, viewer not behind the row: no enabled window is inverted, Stabilization ends where Official begins, both lie inside Full Test |
| WellTestWindow.QuantisedInversionIsUnder15s | apps/web/lib/hooks/useWellTestWindow.ts:424-430 | with the hook's rounded clock an inversion, or a phase overhanging Full Test, is under 15 000 ms |
| WellTestWindow.QuantisedInversionReaches14999 | apps/web/lib/hooks/useWellTestWindow.ts:49-51 | a two-call run on which the rounded clock inverts Full Test by 14 999 ms: the bound is sharp |
| WellTestWindow.WindowInvertedExactlyWhen | apps/web/lib/hooks/useWellTestWindow.ts:147-355 | for every pill and any clocks, exactly when the window is inverted: never for Last Hour; else a viewer behind the start of a window still open, an abort stamped before officialStartedAt, or a disconnection stamped before connectedAt |
| WellTestWindow.PhaseOverhangsExactlyWhen | apps/web/lib/hooks/useWellTestWindow.ts:147-355 | for any clocks: a phase never begins before Full Test, and ends after it exactly when the disconnection is stamped before the phase's end, or Full Test still ends at a viewer's clock that is behind it; Stabilization always ends where Official begins |
| WellTestWindow.StabilizationOverhangs14999 | apps/web/lib/hooks/useWellTestWindow.ts:49-51 | a run on which, under the rounded clock, Stabilization sticks out of Full Test by 14 999 ms: that bound is sharp too |
| WellTestWindow.DefaultPillIsEnabled | apps/web/lib/hooks/useWellTestWindow.ts:390-405 | the default pill is enabled for every reachable row and when there is no test; it is the Official Window exactly when that is on show, else Stabilization exactly while stabilizing |
| WellTestWindow.DefensiveBranchesAreUnreachable | apps/web/lib/hooks/useWellTestWindow.ts:234-301 | on reachable rows a pill is disabled exactly when its phase has not begun; the invalid-timestamp, missing-end and pre-measuring branches are dead |
| WellTestWindow.DefensiveBranchesAreExact | apps/web/lib/hooks/useWellTestWindow.ts:147-355 | on any row off the wire: when a start that does not parse, a missing official end or an early official start is reported, and as what |
| WellTestWindow.NoTestNoWindows | apps/web/lib/hooks/useWellTestWindow.ts:147-355 | without an active test only Last Hour is on, the others say why not |
| WellTestWindow.OfficialWindowIsFrozen | apps/web/lib/hooks/useWellTestWindow.ts:234-282 | once completed, closed or aborted, the Official Window is identical in every later state and at every moment |
| WellTestWindow.WindowStandsStillExactlyWhenSettled | apps/web/lib/hooks/useWellTestWindow.ts:147-355 | exactly which windows do not move with the clock, and `endsAtNow` says so; Full Test of an aborted, once connected test never settles |
| WellTestHistory.StabilizationRunsBetweenCalls | apps/web/lib/hooks/useWellTestWindow.ts:147-185 | Stabilization runs from the clock of the startStabilization call to that of startOfficial, or to the viewer's |
| WellTestHistory.OfficialRunsBetweenCalls | apps/web/lib/hooks/useWellTestWindow.ts:187-304 | the Official Window runs from the clock of startOfficial to that of endOfficial or abort, or to the viewer's |
| WellTestHistory.FullTestRunsBetweenCalls | apps/web/lib/hooks/useWellTestWindow.ts:306-355 | Full Test runs from the clock of connect to that of close, else of endOfficial, else to the viewer's |
| WellTestWindow.AbortedFullTestGrows | apps/web/lib/hooks/useWellTestWindow.ts:306-355 | a run whose aborted test has a Full Test window that ends at the viewer's clock, whatever it is |
| WellTestWindow.AbortedStabilizationGrows | apps/web/lib/hooks/useWellTestWindow.ts:147-185 | a run whose test, aborted while stabilizing, has a Stabilization window that does so too |
| WellTestWindow.FullTestTrendIsRefusedExactlyWhen | apps/backend/src/telemetry/contracts/trends.ts:149-156 | for every row ever connected, the Full Test trend is refused exactly when the window is wider than 1500 quarter-hours; the window of an active test ends at the viewer's clock |
| WellTestWindow.LongConnectedTestIsRefused | apps/backend/src/telemetry/contracts/trends.ts:149-156 | a test left connected a millisecond longer than that, whose request is refused |
| WellTestWindow.LastHourIsTheWidestRawWindow | apps/web/lib/hooks/useWellTestWindow.ts:106-124 | Last Hour is always on, ends now, and is the widest window still fetched in raw mode |
| BucketedTrends.DateBinIsTheEdgeBelow | apps/backend/src/telemetry/trends.service.ts:170-180 | a time's bin is exactly the edge at most one width below it, before and after the origin |
| BucketedTrends.GridCovers | apps/backend/src/telemetry/trends.service.ts:167-174 | buckets start before `to`, abut, and cover [from, to) |
| BucketedTrends.BucketCountIsExact | apps/backend/src/telemetry/trends.service.ts:167-174 | the grid has ceil(W / width) buckets, plus one exactly when offset and remainder together pass a bin edge |
| BucketedTrends.PolicyBoundsBuckets | apps/web/lib/hooks/useOperationsTrendSeries.ts:60-113 | the width policy keeps ranges up to 24 h within 361 buckets and up to 7 days within 673; each fixed window has the policy of its width |
| BucketedTrends.PolicyByWidth | apps/web/lib/hooks/useOperationsTrendSeries.ts:106-113 | the bucket by the width in milliseconds |
| BucketedTrends.FixedWindowCounts | apps/web/lib/hooks/useOperationsTrendSeries.ts:60-91 | the fixed windows give 360, 288 and 672 buckets on a bin edge and one more off it; the two shorter ones are raw |
| BucketedTrends.SixHoursOffTheMinuteGives361 | apps/web/lib/hooks/useOperationsTrendSeries.ts:106-113 | six hours at one minute give 361 buckets exactly when they start off the minute, else 360 |
| BucketedTrends.CapIsExceededExactlyWhen | apps/backend/src/telemetry/contracts/trends.ts:149-156 | an accepted request returns at most 1501 buckets, and more than 1500 exactly when its span needs 1500 and it is misaligned |
| BucketedTrends.AcceptedRequestReturns1501 | apps/backend/src/telemetry/contracts/trends.ts:149-156 | an accepted request with 1501 buckets: 1500 minutes at one minute from a half minute |
| BucketedTrends.PolicyIsAcceptedExactlyWhen | apps/web/lib/hooks/useOperationsTrendSeries.ts:106-113 | a request with the bucket of the width policy is accepted exactly up to 1500 quarter-hours |
| BucketedTrends.EachRowInExactlyOneBucket | apps/backend/src/telemetry/trends.service.ts:175-203 | every qualifying row lies in one bucket and belongs to the group of that one only |
| BucketedTrends.BucketsPartitionRows | apps/backend/src/telemetry/trends.service.ts:175-208 | the groups along the grid are the qualifying rows, none lost or repeated; sample counts add up to their number; value is null exactly at count 0 |
| BucketMeaning.OneMoreRow | apps/backend/src/telemetry/trends.service.ts:175-208 | one more row anywhere in the table raises the count of the bucket it feeds by one and, averaging, its value times count by the row's value; every other bucket stays; a row feeds exactly when it is in range, equals every set filter and has an admitted quality |
| BucketMeaning.NoRowsNoValues | apps/backend/src/telemetry/trends.service.ts:198-208 | without rows every bucket is empty |
| BucketMeaning.ChangedValueMovesItsBucket | apps/backend/src/telemetry/trends.service.ts:236-237 | a value changed by d moves value times count of its own bucket by d, and no other bucket |
| BucketMeaning.AverageOfEqualValues | apps/backend/src/telemetry/trends.service.ts:236-237 | the average of equal values is that value |
| BucketMeaning.BucketReportsItsRows | apps/backend/src/telemetry/trends.service.ts:236-249 | a bucket has a value exactly when a row feeds it; min and max are values of rows that feed it and bound them all; first and last are those of the first and last row by time; count is the sample count |
| BucketMeaning.BucketsAreWallClockUnits | apps/backend/src/telemetry/trends.service.ts:167-180 | buckets last 1, 5, 15, 60 or 1440 minutes and start on the UTC clock's own minute, hour or midnight |
| BucketedTrends.PoliciesConserveSamples | apps/backend/src/telemetry/trends.service.ts:255-264 | include_all counts good + uncertain + bad, include_uncertain drops the bad, good_only the uncertain too |
| BucketedTrends.ForeignRowsDoNotInterfere | apps/backend/src/telemetry/trends.service.ts:182-192 | a row that differs from a set filter or lies outside the range changes nothing in the response, wherever it stands in the table |
| BucketHierarchy.EarliestIsMember | apps/backend/src/telemetry/trends.service.ts:244-245 | `first` is the value of a row with the least timestamp |
| BucketHierarchy.LatestIsMember | apps/backend/src/telemetry/trends.service.ts:246-247 | `last` is the value of a row with the greatest timestamp |
| BucketHierarchy.ExtremesAreAttained | apps/backend/src/telemetry/trends.service.ts:238-241 | `min` and `max` are values of rows and bound all of them |
| BucketHierarchy.CoarseBucketCombinesFineOnes | apps/backend/src/telemetry/trends.service.ts:167-249 | for any two sizes and any aggregate, each coarse bucket's count and value are the combination of the finer buckets inside it (avg count-weighted) |
| AlarmEvaluation.AlarmEvaluationService.EvaluateReading | apps/backend/src/alarms/alarm-evaluation.service.ts:134-231 | the loop leaves the events and outcomes of the fold over the eligible rules |
| AlarmEvaluation.EligibleIsExact | apps/backend/src/alarms/alarm-evaluation.service.ts:150-158 | exactly the enabled, current rules of the reading's unit and tag are evaluated, each as often as the table holds it |
| AlarmEvaluation.EligibleIsSorted | apps/backend/src/alarms/alarm-evaluation.service.ts:150-158 | they come in ascending order of severity name |
| AlarmEvaluation.EvaluationIsExact | apps/backend/src/alarms/alarm-evaluation.service.ts:134-231 | any reading: unless it is good the answer is SkippedQuality and nothing changes; else one outcome per eligible rule, existing events untouched, one new event per trigger with the reading's tenant, unit, tag, value and time and the rule's id and severity, and exactly one active event for every eligible violated rule |
| AlarmEvaluation.BandIsExact | apps/backend/src/alarms/alarm-evaluation.service.ts:243-265 | which band a value violates for any four bounds, none exactly within all |
| AlarmEvaluation.EvaluationsOnlyAdd | apps/backend/src/alarms/alarm-evaluation.service.ts:134-231 | in every run an evaluation of whatever quality removes and changes no event |
| AlarmEvaluation.RepeatedReadingIsIdempotent | apps/backend/src/alarms/alarm-evaluation.service.ts:150-206 | the same reading again, the rules in any order, creates nothing and reports for each rule the same event id |
| AlarmEvaluation.RunsKeepAtMostOneActive | apps/backend/src/alarms/alarm-evaluation.service.ts:182-206 | in every run, with rule tables changing and others retiring events in between, each (unit, tag, rule) has at most one active event |
| AlarmEvaluation.ActiveEventsReplay | apps/backend/src/alarms/alarm-evaluation.service.ts:272-302 | in every run each active event's band follows from its own frozen snapshot |
| AlarmEvaluation.SnapshotFreezesRule | apps/backend/src/alarms/alarm-evaluation.service.ts:272-302 | the rule can be rebuilt in full from an event's snapshot, with the reading that triggered it |
| EvaluatorAgreement.DifferExactlyWhen | apps/web/lib/alarms/evaluator.ts:73-89 | for every value and any four bounds, crossed or not, exactly when web and backend differ |
| EvaluatorAgreement.OffBoundsPrecedenceIsTheOnlyDifference | apps/web/lib/alarms/evaluator.ts:73-89 | for all bounds and values off every bound, web and backend differ exactly above warning-high, below alarm-low and not above alarm-high |
| EvaluatorAgreement.SaneBoundsDifferExactlyAtBounds | apps/backend/src/alarms/alarm-evaluation.service.ts:243-265 | with lows below highs they differ exactly at a bound not overtaken by a more severe one of its side |
| EvaluatorAgreement.CrossedBoundsDisagree | apps/web/lib/alarms/evaluator.ts:73-89 | a value off every bound that crossed bounds classify differently |
| RingBuffers.RingBuffer.Create | apps/web/lib/realtime/ringBuffer.ts:12-17 | refuses exactly the non-positive capacities, else an empty buffer |
| RingBuffers.RingBuffer.Push | apps/web/lib/realtime/ringBuffer.ts:19-23 | the contents become the last `capacity` of the old contents and the value |
| RingBuffers.RingBuffer.Latest | apps/web/lib/realtime/ringBuffer.ts:26-30 | the newest retained value, or none when empty |
| RingBuffers.RingBuffer.ToArray | apps/web/lib/realtime/ringBuffer.ts:33-42 | the retained values, oldest first |
| RingBuffers.RingBuffer.Clear | apps/web/lib/realtime/ringBuffer.ts:48-52 | empties the buffer in place |
| Telemetry.TagKeyIsInjective | apps/web/lib/realtime/telemetryStore.ts:37 | keys of '#'-free job ids determine job and tag |
| Telemetry.JobsCollideExactlyWhenPrefixed | apps/web/lib/realtime/telemetryStore.ts:37 | two job ids share a key for some tags exactly when one with its '#' begins the other with its '#' |
| TelemetryStores.TelemetryStore.Ingest | apps/web/lib/realtime/telemetryStore.ts:61-100 | readings and frames are recorded and notified in order, alarms and status replaced, other kinds ignored; throws exactly when a reading meets a non-positive capacity, and then changes nothing |
| MessageRuns.FrameRecordsItsReadings | apps/web/lib/realtime/telemetryStore.ts:66-68 | a frame anywhere in a run leaves the histories and known keys its readings would leave one by one |
| MessageRuns.OneMoreReadingMessage | apps/web/lib/realtime/telemetryStore.ts:87-97 | one more reading makes its key's history the last `capacity` of the old one and itself, makes the key known at the end, and leaves other keys alone |
| MessageRuns.OtherKindsRecordNothing | apps/web/lib/realtime/telemetryStore.ts:69-84 | the other kinds change no history and no key |
| MessageRuns.MessageCallsInOrder | apps/web/lib/realtime/telemetryStore.ts:61-97 | a reading or alarm calls the open listeners of its tag and then of its job, each in the order they subscribed; a connection message the connection's; the rest nobody |
| MessageRuns.FrameCallsAsItsReadings | apps/web/lib/realtime/telemetryStore.ts:66-68 | a frame anywhere in a run makes the very calls its readings would one by one |
| TelemetryStores.TelemetryStore.GetLatestReading | apps/web/lib/realtime/telemetryStore.ts:103-105 | answers from the feed of last retained readings |
| TelemetryStores.TelemetryStore.GetHistory | apps/web/lib/realtime/telemetryStore.ts:107-109 | the retained readings of the key, empty when unknown |
| TelemetryStores.TelemetryStore.KnownTagsForJob | apps/web/lib/realtime/telemetryStore.ts:115-125 | lists a tag exactly when the job makes a known key with it, in the order the keys came |
| TelemetryStores.HistoryByKey | apps/web/lib/realtime/telemetryStore.ts:61-109 | for any ids at all: what is kept under a key is the last `capacity` of the readings with that key |
| TelemetryStores.HistoryIsLastReadings | apps/web/lib/realtime/telemetryStore.ts:61-109 | after any run of messages a pair's history is the last `capacity` of its own readings, in order |
| TelemetryStores.LatestIsLastReading | apps/web/lib/realtime/telemetryStore.ts:61-105 | after any run of messages a pair's latest reading is the last of its own readings, none if it has none |
| TelemetryStores.KnownTagsAreThoseSeen | apps/web/lib/realtime/telemetryStore.ts:87-125 | after any run of messages with '#'-free job ids, the known tags of a job are its own, each once, in the order its readings first brought them |
| TelemetryStores.StoreFeedIsCoherent | apps/web/lib/realtime/telemetryStore.ts:87-105 | after any run with '#'-free job ids every latest reading sits under its own key |
| Notifications.CallsOverRunAreDue | apps/web/lib/realtime/telemetryStore.ts:61-170 | over any run that interleaves tag, job and connection subscriptions with messages, a listener has been called once per open subscription of it and reading or alarm that subscription is about, and never otherwise |
| Notifications.FiringsAreExact | apps/web/lib/realtime/telemetryStore.ts:61-97 | after any such run, for a listener with one subscription: a job listener fires once per reading or alarm of its job, a tag listener once per one of its key, a connection listener once per connection message, a listener without one never |
| Notifications.ConnectionOpenExactly | apps/web/lib/realtime/telemetryStore.ts:163-168 | over any run a connection listener is in the set exactly while it is subscribed |
| TelemetryStores.TelemetryStore.SubscribeTag | apps/web/lib/realtime/telemetryStore.ts:135-147 | makes the set if the key has none; the key's members gain the listener, every other key keeps its own, and the handle names key, listener and that very set |
| TelemetryStores.TelemetryStore.SubscribeJob | apps/web/lib/realtime/telemetryStore.ts:149-161 | the same for a job's set |
| TelemetryStores.TelemetryStore.UnsubscribeTag | apps/web/lib/realtime/telemetryStore.ts:143-146 | deletes from the handle's own set and drops the key when that is left empty; with a current handle the key's members lose the listener and every other key keeps its own |
| TelemetryStores.TelemetryStore.UnsubscribeJob | apps/web/lib/realtime/telemetryStore.ts:157-160 | the same for a job's set |
| ListenerRegistry.SubscribedExactlyWhileOpen | apps/web/lib/realtime/telemetryStore.ts:135-161 | over any run of disciplined subscriptions a listener is in a key's set exactly while subscribed to it |
| ListenerRegistry.UnsubscribeDropsOthersExactlyWhen | apps/web/lib/realtime/telemetryStore.ts:143-146 | an unsubscribe silences somebody else exactly when its own set is left empty while the key has another, inhabited set |
| ListenerRegistry.RepeatedUnsubscribeSilencesAnother | apps/web/lib/realtime/telemetryStore.ts:143-146 | a handle used twice silences a listener subscribed in between |
| ListenerRegistry.FirstUnsubscribeEndsBoth | apps/web/lib/realtime/telemetryStore.ts:135-147 | one listener subscribed twice under one key: the first unsubscribe ends both |
| HistoryHooks.HistoriesEqual | apps/web/lib/hooks/useHistoryBuffer.ts:46-58 | true exactly for element-wise identical histories |
| HistoryHooks.HistoryHook.GetSnapshot | apps/web/lib/hooks/useHistoryBuffer.ts:69-77 | returns the ring's contents; the reference differs from the last one exactly when the contents do; every empty history is one reference |
| HistoryHooks.PushLeavesHistoryExactlyWhen | apps/web/lib/hooks/useHistoryBuffer.ts:46-77 | a push leaves contents and reference alone exactly when the ring is full of that very reading |
| TagState.StatusOnlyAges | apps/web/lib/quality/stale.ts:50-99 | with no new reading the status only moves live, delayed, stale, offline, whatever the timings |
| TagState.StatusIsExact | apps/web/lib/quality/stale.ts:50-99 | the status by age in milliseconds; offline without a time, age 0 for a time ahead of the clock |
| TagState.LiveMeansBelowDelayedExactlyWhen | apps/web/lib/quality/stale.ts:6-9 | live means younger than the delayed limit at every age exactly when that limit is not past the other two |
| TagState.YoungerThanDelayedCanBeStale | apps/web/lib/quality/stale.ts:36-71 | an override with which a reading younger than the delayed limit is stale |
| TagState.OverridesArePerTagAndField | apps/web/lib/quality/stale.ts:36-48 | any override replaces each limit it names and leaves the default of each it does not; other tags keep theirs, and a tag without an override has 10, 30 and 120 s |
| TagState.SelectUnitTelemetrySnapshot | apps/web/lib/realtime/telemetrySelectors.ts:84-117 | the card's map shows every tag of the snapshot and no other, by its last mapping |
| MessageRuns.TileShowsLastReading | apps/web/lib/realtime/telemetrySelectors.ts:84-117 | after any run of messages a card shows for each tag the last of the pair's own readings, as stale as that is |
| TagState.FindMappingIsFirst | apps/web/lib/alarms/evaluator.ts:47-58 | the evaluator goes by the first place that maps the tag |
| TagState.BandIsExact | apps/web/lib/alarms/evaluator.ts:47-91 | the band by the mapping, the quality and the bounds |
| TagState.QuietTileExactlyWhenTrustworthy | apps/web/lib/alarms/evaluator.ts:47-91 | a mapping's tile reports without alarm exactly when it is on, the mapping the evaluator looks up is on, and the latest reading is fresh by both limits, usable, with thresholds, strictly inside the alarm bounds |
| TagState.DisabledExactlyWhen | apps/web/lib/realtime/telemetrySelectors.ts:101-108 | a view is `disabled` exactly when its mapping is off, or its reading is fresh and either the mapping the evaluator looks up is off or the reading is usable without thresholds |
| TagState.UnratedTagTurnsNoData | apps/web/lib/realtime/telemetrySelectors.ts:101-108 | one tag without thresholds, `disabled` at 10 s and `no_data` at 30 s |
| TagState.SelectorsDisagreeExactlyWhen | apps/web/lib/realtime/telemetrySelectors.ts:39-65 | the single-tag selector has no answer exactly without a reading; else it and the unit snapshot differ exactly when the mapping is off and the selector says something else; for the mapping the selector looks up, exactly when the reading is no longer fresh |
| UnitBadge.RollUpUnitStatus | apps/web/components/operations/viewModel.ts:162-207 | ALARM exactly when a considered tag is in alarm, else OFFLINE if none is live, else DEGRADED if one is stale, else TESTING; with the counts, and as worst state that of the first tag of the greatest rank |
| UnitBadge.WorstIsDetermined | apps/web/components/operations/viewModel.ts:175-191 | that leaves one possible worst state |
| UnitBadge.WorstIsGravest | apps/web/lib/alarms/priority.ts:10-29 | the worst state is that of the first tile in alarm, else of the first with a warning, else no data if a tile shows that, else normal |
| UnitBadge.BadgeReadsTiles | apps/web/components/operations/viewModel.ts:162-207 | the badge by the alarm and staleness of the tiles |
| UnitBadge.TallyCountsPositions | apps/web/components/operations/viewModel.ts:175-191 | the live and stale counts are numbers of considered tags |
| UnitBadge.RollupIgnoresOrder | apps/web/components/operations/viewModel.ts:162-207 | reordering the tags changes neither status, nor counts, nor the rank of the worst state |
| UnitBadge.TestingExactlyWhen | apps/web/components/operations/viewModel.ts:162-207 | for any snapshot, also one that maps a tag twice: TESTING exactly when every considered tag is known and disabled or trustworthy, and one at least is not disabled |
| UnitBadge.RollupOnlyDegrades | apps/web/components/operations/viewModel.ts:175-191 | as time passes without ingest the live count never grows, the stale count never shrinks, and no ALARM appears |
| AlarmViews.DeriveEntries | apps/web/components/operations/LiveActiveAlarmsPanel.tsx:63-124 | the rows are a permutation of the derived entries, sorted by severity, each severity in walk order |
| AlarmViews.JobEntriesWalk | apps/web/components/operations/LiveActiveAlarmsPanel.tsx:63-121 | within a job the entries come in the order of its mappings, each mapping giving its own or none |
| AlarmViews.EntriesWalk | apps/web/components/operations/LiveActiveAlarmsPanel.tsx:63-121 | across jobs they come in the order of the jobs |
| AlarmViews.EntryReadsItsReading | apps/web/components/operations/LiveActiveAlarmsPanel.tsx:63-121 | an entry's job, well and tag, and its title by the latest reading and its bounds |
| AlarmViews.SortIsTheStableSort | apps/web/components/operations/LiveActiveAlarmsPanel.tsx:122-123 | a severity-sorted list is determined by its rows per severity: the order above is the only one possible |
| AlarmViews.SummarizeAlarms | apps/web/components/operations/alarmSummary.ts:56-95 | the header counts exactly the panel's entries of each severity |
| AlarmViews.ToneIsThatOfFirstRow | apps/web/components/operations/alarmSummary.ts:91-92 | the header's tone is that of the panel's first row, normal exactly when there is none |
| AlarmViews.CardAgreesExactlyWhen | apps/web/components/operations/alarmSummary.ts:56-95 | per job, whatever it maps, each count is at least the number of enabled tags the card shows in that state, and equal exactly when no tag gives two entries and the mapping the card goes by is on |
| AlarmViews.DoubledTagCountsTwice | apps/web/components/operations/alarmSummary.ts:56-95 | a tag mapped twice without a reading: two stale signals, one tile |
| AlarmViews.CardAgrees | apps/web/components/operations/alarmSummary.ts:56-95 | with unique tags count and card always agree |
| AlarmViews.HeaderIsSumOfCards | apps/web/components/operations/alarmSummary.ts:56-95 | over all jobs the header's count is at least the sum over the cards, and equal to it exactly when the two agree on every job |
| AlarmViews.HeaderCountsOnlyAge | apps/web/components/operations/alarmSummary.ts:66-88 | as time passes without ingest alarm and warning counts never grow and the stale count never shrinks |
| RealtimeSlots.RealtimeHook.constructor | apps/web/lib/hooks/useOperationsRealtimeF4.ts:178-188 | no slots yet; the index holds the keys of exactly the tracked pairs of UUID-shaped ids |
| RealtimeSlots.RealtimeHook.Rescope | apps/web/lib/hooks/useOperationsRealtimeF4.ts:178-188 | with another tenant or other tracked pairs the index is that of the new pairs, and the slots stay |
| RealtimeSlots.RealtimeHook.HandleLiveReading | apps/web/lib/hooks/useOperationsRealtimeF4.ts:204-232 | is the slot step of one arrival under the scope in force; the receipt time advances exactly on accepted payloads |
| RealtimeSlots.SlotKeyIsInjective | apps/web/lib/hooks/useOperationsRealtimeF4.ts:70-83 | a key of two UUID-shaped ids is made by no other pair of strings |
| RealtimeSlots.UuidShapeIsFiveGroups | apps/web/lib/hooks/useOperationsRealtimeF4.ts:70-83 | a UUID-shaped id is five dash-joined groups of 8, 4, 4, 4 and 12 hexadecimal digits, and nothing else is |
| RealtimeSlots.AcceptedMeansTracked | apps/web/lib/hooks/useOperationsRealtimeF4.ts:213-215 | a payload is accepted exactly when its tenant matches and its very pair is tracked and UUID-shaped |
| RealtimeSlots.SlotHoldsWinner | apps/web/lib/hooks/useOperationsRealtimeF4.ts:216-230 | after any arrivals, under tenants and tracked pairs that may change in between, a slot holds every field of the payload accepted for it with the greatest timestamp, the first received of equals, and when that came |
| RealtimeSlots.SlotsConverge | apps/web/lib/hooks/useOperationsRealtimeF4.ts:213-230 | the same accepted payloads in any order and multiplicity, timestamps distinct, whatever was rejected, leave the same slots up to receipt time |
| RealtimeSlots.TileShowsNewest | apps/web/components/operations/LiveVariableTile.tsx:135-166 | after any arrivals the tile shows the newest of REST and all accepted payloads, REST on a tie |

## Left out

- Interleaving below one service call: `connect` reads, guards and updates in separate statements without a transaction.
- CHECK constraints on text lengths, test type and duration; the request schemas refuse those inputs first.
- Read-only parts of the well-test service (`list`, `getById`, wire shapes, derived duration) and the audit column `updatedAt`.
- ISO mirrors, labels and `Kind` of a derived window; they follow from its pill and bounds.
- Raw-mode trends, time zones and daylight saving, decimal and floating-point rounding.
- Lifecycle transitions of alarm events beyond leaving `active`, and the fields `deadband` and `delaySeconds` beyond being frozen.
- `reset`, `getLatestAlarm` and `getConnectionStatus` of the store: field resets and reads.
- Listeners that subscribe, unsubscribe or ingest while being notified.
- UnitBadge.RollUpUnitStatus: takes the considered tags as a list, because the order of an object's own keys is not modelled; order is proved not to matter.
- `selectLiveValue`, `selectStaleState`, and the age, source and icon texts of a panel row: reads and formatting.
- RealtimeSlots.SlotHoldsWinner: assumes timestamps parse, as the backend only emits ISO dates; a timestamp that does not parse would always overwrite.
- The socket envelope around a payload, subscription and reconnect effects, the alarm counter, React rendering and caching.
- Ingestion, live-reading projection, the alarm center, simulators, controllers, gateways and seed data.
