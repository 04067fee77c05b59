# Anomaly engine: a verified model

This project models the parts of the nxs-anomaly alerting engine whose correctness depends on
state, arithmetic or interleaving, and proves what the engine's documentation promises of them.
`dafny verify dfyconfig.toml` checks all of it.

- **On-call schedules.** `Instants`, `Rotations` and `OnCall` give the pointwise answer to "who is
  on call now" with its loops, and `OnCallMeaning` what it means in terms of the
  calendar; `Boundaries`, `Timeline` and `Coverage` the fast timeline, the gap report, the preview and
  the end of a stretch, all proved against the pointwise answer.
  `ExactnessLimits` and `StretchLimits` show where the promises stop. `RotationText` is the stored
  form.
- **Notification delivery.** `Notifications` is one row and `SavedOutcomes` what its status says over
  every run; `DeliveryProtocol` the claim, deliver, save and reclaim protocol of many workers; `Recovery` what it takes to get over a crash;
  `OverlappingRetries` what a second retry call does to it; `StageBound` the bounded runner against
  the claim timeout, and `LiveWork` the two together; `CircuitBreaker` the breaker in front of each
  target.
- **Shared objects.** `RefCache` and `CacheFreshness` are the single-flight reference cache,
  `IngestGate` and `GateSafety` the per-integration gate.
- **Escalation.** `Escalation` and `EscalationLife` are the chain interpreter over many resumes and
  operator actions, `EscalationMeaning` what it does said without the interpreter, `PolicyRuns` the
  personal notification policies.
- **Ingest.** `Ingest` and `IngestLife` are grouping on a narrowed load and the life of the store.
- **Handoff notices and buttons.** `HandoffNotices` and `HandoffRuns`; `Text`, `Buttons` and
  `Keyboards`.

Instants are nanoseconds since the zero time; escalation, policies and the stage bound use whole
seconds. Objects the source updates in place are classes and loops are methods, proved against
functions; goroutines and replicas are transition systems whose steps are the source's critical
sections and transactions, with history fields that no step reads.

Conditions under which the timeline is exact (`Boundaries.Tracked`): every override has
`start_at`, as the writer guarantees; the rotation's zero-th handoff is not before its start; and
around a restricted window the zone keeps one offset. `Rotation.Regular` asks that the zone's
offsets spread less than one period.

Where the code does less than its documentation says, the code is modelled, the failing case is
given and the exact condition proved:

- A rotation that starts in the second pass of a repeated hour, or an override that relies on its
  `created_at` fallback, changes the answer at an instant the timeline does not look at.
- `ShiftEndFor` reports the end of an unchanged answer, which comes before the end of the user's
  duty where colleagues join or leave a shift, or where people override their own turn.
- `require` may put rows into the cache that an invalidation has already overtaken; a call whose
  clock finds them young enough is served them.
- POST /api/v1/escalations/run can overlap the worker's own retry stage in one process, and then
  an outcome can land on a later claim, unless no retry is ever scheduled.
- With the claim timeout off, a crash strands the rows its worker had claimed.
- With more than a thousand concurrent deliveries the default claim timeout can be shorter than one
  slow call.
- `Unresolve` keeps the spent repeats, and can leave two open groups for one key.
- Switching handoff notices off and on again compares with the roster of before.
- A user with two targets on one channel is told of a shift at the first of them only.
- A rotation's start loses its fraction of a second, and a start at the zero time or outside the
  years 0 to 9999 does not survive being stored.

## Model

| member | source | states |
|---|---|---|
| `Rotations.HandoffSpacing` | internal/engine/schedule.go:235-246 | Two handoffs are as far apart as their numbers say, give or take less than one period, in any zone whose offsets spread less than a period; hour handoffs are exactly that far apart |
| `Rotations.HandoffsIncrease` | internal/engine/schedule.go:235-246 | Handoff times strictly increase |
| `Rotations.HandoffDrift` | internal/engine/schedule.go:235-246 | The n-th handoff is less than one period away from start + n periods |
| `Rotations.PeriodUnique` | internal/engine/schedule.go:249-272 | An instant lies in at most one period |
| `Rotations.EstimateIsClose` | internal/engine/schedule.go:252-262 | The truncated-division estimate is less than two periods off on either side |
| `Rotations.PeriodIndex` | internal/engine/schedule.go:252-272 | The two loops of at most eight corrections always reach the one period holding the instant, before or after the start |
| `OnCall.OverrideWinnerIsLatest` | internal/engine/schedule.go:377-409 | An override answers exactly when one is active, and it is the active one created last, ties going to the later entry |
| `OnCallMeaning.LatestCreationWins` | internal/engine/schedule.go:396-404 | Among active overrides the one with the latest created_at wins, the later entry on a tie, and an unreadable creation time loses to every readable one |
| `OnCall.ActiveOverrideUsers` | internal/engine/schedule.go:377-409 | The loop returns that override's user |
| `OnCall.ActiveShiftUsers` | internal/engine/schedule.go:411-424 | The loop returns the users of the active shifts, in order |
| `OnCall.FindParticipant` | internal/engine/schedule.go:276-291 | The method computes the participant that OnCallMeaning describes: the one whose turn the period is, or nobody |
| `OnCall.ResolveScheduleAt` | internal/engine/schedule.go:345-369 | The method computes the pointwise answer that OnCallMeaning describes layer by layer |
| `OnCall.EmptyAnswerIsNobody` | internal/engine/schedule.go:345-369 | An answer without users never carries a source |
| `OnCallMeaning.TurnIsNamed` | internal/engine/schedule.go:276-291 | In its n-th period a started, open rotation with no override active puts the n-th participant on call, counting round the list, said through the period alone |
| `OnCallMeaning.TurnsGoRound` | internal/engine/schedule.go:286-291 | Neighbouring periods name neighbours in the list, the last followed by the first, and the turns repeat after the whole of it |
| `OnCallMeaning.OffDutyIsNobody` | internal/engine/schedule.go:276-291 | Before its start, outside its window or switched off, a rotation leaves nobody on call, shifts or not |
| `OnCallMeaning.SwitchedOffNamesNobody` | internal/engine/schedule.go:276-279 | A rotation that is switched off names nobody, whatever schedule asks it |
| `OnCallMeaning.LayersInOrder` | internal/engine/schedule.go:345-369 | A disabled schedule never answers, the winning override answers before anything else, and without a rotation the users of exactly the active shifts do, in order |
| `OnCallMeaning.WindowMeans` | internal/engine/schedule.go:296-330 | A reading is allowed exactly if a window that opened on an allowed weekday holds it, overnight windows counting for the day they open on |
| `OnCallMeaning.WeekdaysFollow` | internal/engine/schedule.go:31-34 | Weekdays follow each other at midnight, and 1970-01-01 was a Thursday |
| `OnCallMeaning.HandoffKeepsWallClock` | internal/engine/schedule.go:235-246 | Where the zone shows the intended reading, the n-th daily or weekly handoff stands at the start's time of day, n times the interval in days or weeks later; hours are counted absolutely |
| `OnCallMeaning.ShiftMeans` | internal/engine/engine.go:559-588 | A shift is active from start to end, and a daily or weekly one again after every 24 hours or seven days, never past its next start |
| `Boundaries.PeriodKeeps` | internal/engine/schedule.go:489-500 | With no handoff in between, two instants lie in the same period, or both before the first |
| `Boundaries.WindowKeeps` | internal/engine/schedule.go:296-318 | With no window edge in between two readings get the same verdict, so midnight needs no boundary of its own even for an overnight window limited to weekdays |
| `Boundaries.RecurringKeeps` | internal/engine/engine.go:559-588 | A recurring shift turns on or off only at the start or end of one of its occurrences |
| `Boundaries.QuietKeepsAnswer` | internal/engine/schedule.go:436-440 | With no change point in between, the answer at two instants is the same: no source of change is missed |
| `Boundaries.OverridePoints` | internal/engine/schedule.go:476-487 | Collects exactly the override starts and ends of the window |
| `Boundaries.HandoffGuard` | internal/engine/schedule.go:53-58 | In a window of at most 180 days the 50000-point guard of the handoff loop cannot trip |
| `Boundaries.HandoffPoints` | internal/engine/schedule.go:489-500 | Collects handoffs only, and every handoff of a window of at most 180 days |
| `Boundaries.RestrictionPoints` | internal/engine/schedule.go:501-511 | Collects every window edge, with a day of slack on each side, where the zone keeps one offset |
| `Boundaries.ShiftPoints` | internal/engine/schedule.go:513-547 | Collects every start and end of every occurrence of a shift in the window |
| `Boundaries.RecurringPoints` | internal/engine/schedule.go:536-546 | The occurrence loop starts at the occurrence holding the window start and, within 180 days, walks past its end before the guard trips |
| `Timeline.SortAndDedup` | internal/engine/schedule.go:550-558 | The boundaries come out strictly increasing with the same members |
| `Timeline.DedupInPlace` | internal/engine/schedule.go:551-557 | The in-place pass over a sorted slice leaves its distinct members, in order |
| `Timeline.ScheduleBoundaries` | internal/engine/schedule.go:467-559 | Strictly increasing from `from` to `to`, holding every change point of the window; for overrides over an unrestricted rotation or over nothing, every other point is a change point |
| `Timeline.ConstantBetween` | internal/engine/schedule.go:436-463 | Between neighbouring boundaries the answer is the one at the first |
| `Timeline.ScheduleTimeline` | internal/engine/schedule.go:441-463 | The segments tile [from, to) without hole or overlap, neighbours differ, and at every instant the segment holding it carries exactly the pointwise answer, for every tracked schedule and window of at most 180 days and wherever else the collected points suffice |
| `Timeline.PlainTimelineExactIff` | internal/engine/schedule.go:436-463 | For overrides over an unrestricted rotation or over nothing, the segments drawn are exact if and only if the answer never changes away from a change point in the window |
| `Timeline.TimelineUnique` | internal/engine/schedule.go:441-463 | Those three properties leave exactly one list of segments |
| `Coverage.ApplyRoster` | internal/engine/schedule.go:580-607 | Turns the timeline of the answer into the timeline of what the roster leaves of it, merging neighbours that become equal; without a roster nothing changes |
| `Coverage.ShownMeans` | internal/engine/schedule.go:580-607 | What the roster leaves at an instant are exactly the known users of the pointwise answer, in order, with its source, and no source when nobody is left |
| `Coverage.ScheduleGaps` | internal/engine/schedule.go:611-619 | An instant lies in a gap exactly when no user of the pointwise answer is known; the gaps are separated, and empty exactly when every instant has somebody known |
| `Coverage.CollectGaps` | internal/engine/schedule.go:611-619 | The empty segments of a timeline are separated and hold exactly the uncovered instants |
| `Coverage.Accumulate` | internal/engine/crud_schedules.go:225-245 | Gaps, overlaps and covered time of a timeline: gaps and overlaps hold exactly the instants with nobody and with several people, covered time counts the covered instants, and with the gap time it adds up to the window |
| `Coverage.PreviewSchedule` | internal/engine/crud_schedules.go:188-245 | 28 days by default, at most 180, an empty window refused; the segments hold exactly the known people of every instant, gaps and overlaps exactly the instants with none and with several, covered time counts the others, and the times add up to the window |
| `Coverage.ShiftEndFor` | internal/engine/schedule.go:653-668 | Found exactly when the user is on call; the answer is the same throughout [at, end), so the user is on call at each of its instants, and it changes at the end unless the week's horizon came first |
| `ExactnessLimits.RotationTimelineExactIff` | internal/engine/schedule.go:489-500 | For a plain rotation the segments drawn for a window are exact if and only if the zero-th handoff is not before the start or the window does not hold the start strictly inside |
| `ExactnessLimits.RepeatedHourStart` | internal/engine/schedule.go:235-246 | A start in the second pass of a repeated hour puts the zero-th handoff an hour before it, so a window around it is drawn wrong |
| `ExactnessLimits.OverrideTimelineExactIff` | internal/engine/schedule.go:385-388 | For a lone override the segments drawn for a window are exact if and only if it has start_at, never becomes active, or its created_at fallback is not strictly inside the window |
| `ExactnessLimits.LateFallbackIsDrawnWrong` | internal/engine/schedule.go:385-388 | Whatever is drawn for the day of an override created in its tenth hour without start_at is not exact |
| `ExactnessLimits.HiddenStartsDecide` | internal/engine/schedule.go:436-463 | For any overrides over any unrestricted rotation or over nothing, the segments drawn are exact if and only if the answer does not change at any of the finitely many starts the timeline does not collect: created_at fallbacks, and a rotation start after its zero-th handoff |
| `StretchLimits.RotationEndsEarlyIff` | internal/engine/schedule.go:643-668 | Under a rotation the answer changes while a user stays on call exactly where an override of that user begins or ends, nothing overrides on the other side, and the rotation names the user there |
| `StretchLimits.ShiftsEndEarlyIff` | internal/engine/schedule.go:643-668 | Under shifts it does so exactly where the list of people on shift changes while the user is on shift before and after, or an override of the user begins or ends next to a shift of the same user |
| `StretchLimits.ReportedEndIsEarlyIff` | internal/engine/schedule.go:653-668 | The end that ShiftEndFor reports, short of its horizon, comes before the end of the duty if and only if that condition holds there |
| `StretchLimits.JoinedStretchEndsEarly` | internal/engine/schedule.go:653-668 | Whatever ShiftEndFor reports for a ten-hour shift that a colleague joins after five is that fifth hour, with the user still on call |
| `StretchLimits.SelfCoveredEndsEarly` | internal/engine/schedule.go:653-668 | It happens under a rotation, too, where an override names the participant whose turn it is |
| `RotationText.ClockReadsBack` | internal/engine/schedule.go:196-206 | HH:MM and minutes are inverse on 0..1439 |
| `RotationText.ClockReadsIff` | internal/engine/schedule.go:196-202 | A clock text is read as a minute exactly if, spaces aside, it is the HH:MM of that minute, or its H:MM before ten |
| `RotationText.NormaliseDays` | internal/engine/schedule.go:172-191 | Day names in any case, spacing and length are refused exactly if one is no weekday; otherwise the result holds exactly the days named, from Monday to Sunday, none twice |
| `RotationText.OrderedIsCanonical` | internal/engine/schedule.go:36-38 | What is stored stands in strictly increasing order from Monday to Sunday and holds exactly the days named |
| `RotationText.CanonicalIsOrdered` | internal/engine/schedule.go:36-38 | A list already in that order is left as it is |
| `RotationText.AcceptedIsNormal` | internal/engine/schedule.go:108-193 | An accepted rotation has an interval of at least one, a valid window and canonical days |
| `RotationText.FieldsAreRead` | internal/engine/schedule.go:108-148 | The interval or one, weeks unless told otherwise, enabled unless switched off, the participants as listed and the start the text denotes |
| `RotationText.RestrictionReadsBack` | internal/engine/schedule.go:150-193 | Every stored restriction reads back as itself |
| `RotationText.StoredFormReads` | internal/engine/schedule.go:209-230 | What reading the stored form of any accepted rotation gives, error cases included |
| `RotationText.RoundTripIff` | internal/engine/schedule.go:108-230 | Parsing the stored form gives the rotation back exactly when its start is a whole second of a four-digit year and is not the zero time, unless there is nothing it would lose |
| `RotationText.SubSecondStartIsLost` | internal/utils/utils.go:52-83 | A payload accepted with a fraction of a second in start_at does not survive |
| `RotationText.NormalisingTwiceIsOnce` | internal/engine/schedule.go:108-230 | Storing what was read back changes nothing more, except exactly where the start becomes or already is the zero time |
| `Notifications.ApplyVerdict` | internal/engine/delivery.go:294-330 | No verdict leaves a row in a claim or touches whose claim it was |
| `SavedOutcomes.SavedRowIs` | internal/engine/delivery.go:294-330 | A saved batch leaves each row still under the claim as its verdict says: delivered, skipped, failed, due for retry after the wait of that attempt, or pending again in its own stage with its counters kept |
| `SavedOutcomes.OutcomeDecidesStatus` | internal/engine/delivery.go:369-382 | In every run a row is delivered, or skipped, exactly if the last outcome written to it was a delivery, or a skip; before its first delivery it has had none, and it waits for a retry only after a failure |
| `SavedOutcomes.RetryWaitsOut` | internal/model/notification.go:337-362 | In every run no retry is claimed before the wait of the provider, or the minutes of that attempt, have passed since its latest failure |
| `Notifications.SaveResults` | internal/engine/delivery.go:288-332 | The mutator loop writes each result that is still this worker's, in order, and skips the others |
| `Notifications.SaveOneKeepsBalance` | internal/engine/delivery.go:294-330 | A row's attempt records stay equal to its counted failures plus one if a provider settled it |
| `DeliveryProtocol.RunKeeps` | internal/engine/delivery.go:197-337 | The invariant over every interleaving: whatever a desk still holds was taken by that desk, and is current if the row still looks claimed by it |
| `DeliveryProtocol.ClaimSafety` | internal/engine/delivery.go:197-316 | Over every run of any number of workers with panics, crashes, failed saves, lost acknowledgements, deletions and reaper passes, an outcome is written only under the claim it was computed for, and each claim gets at most one |
| `DeliveryProtocol.AttemptConservation` | internal/engine/delivery.go:294-330 | In every reachable state attempt records match the provider outcomes applied, short-circuited and context-less results adding none, and never exceed the retry budget |
| `DeliveryProtocol.SaveKeepsOtherRows` | internal/engine/delivery.go:288-332 | A save leaves every row alone that no result names |
| `DeliveryProtocol.SaveWritesItsOwnRow` | internal/engine/delivery.go:294-330 | A save applies each result to its own row exactly when that row is still under this worker's claim |
| `DeliveryProtocol.SaveTwiceIsSaveOnce` | internal/engine/delivery.go:258-272 | Saving a batch again after a lost acknowledgement changes nothing |
| `DeliveryProtocol.NoNotificationIsLost` | internal/engine/worker.go:233-242 | With the reaper on, from every state and for every row that is not settled some continuation delivers it: the reaper returns what a crash, panic or failed save left claimed |
| `Recovery.CrashedClaimRecoversIff` | internal/engine/worker.go:233-242 | A row whose worker crashed while it was claimed can still be delivered if and only if the claim timeout is on |
| `Recovery.OrphanStaysForGood` | internal/engine/worker.go:236-239 | With the claim timeout off, a claimed row that nobody holds is never touched again but to be deleted |
| `Recovery.SaveCountsOutcome` | internal/engine/delivery.go:294-330 | Saving a provider outcome for a row still under the claim counts exactly one more attempt |
| `Recovery.SettledWithinBudget` | internal/model/notification.go:337-362 | In every run a row that is not settled has been given fewer outcomes than its retry budget, so that many saved outcomes settle it whatever failed in between |
| `Recovery.OutcomesAddUp` | internal/engine/delivery.go:294-330 | Over every run the attempts of a row grow by exactly the provider outcomes committed for it |
| `Recovery.EveryContinuationSettles` | internal/model/notification.go:337-362 | From every reachable state, every continuation that commits as many outcomes for a row as its budget has left settles it, whatever crashes, fails or is reaped in between, and none commits more |
| `OverlappingRetries.OverlapIsSafeIff` | internal/engine/worker.go:18-31 | With further calls of the retry stage overlapping the worker's own in one process, claim safety holds in every run from the start if and only if the settings never schedule a retry, maxRetries <= 1 |
| `OverlappingRetries.LostAckLandsLate` | internal/engine/delivery.go:591-623 | From every reachable state with a retry out, with or without a reaper, a lost acknowledgement makes an outcome land on the later claim of the overlapping call |
| `OverlappingRetries.ReapedRetryLandsLate` | internal/engine/worker.go:233-242 | With the reaper on a slow retry does the same, every save acknowledged |
| `StageBound.StageIsBounded` | internal/engine/delivery.go:25-58 | Over every interleaving: at most c tasks at once, item i started by floor(i/c)*T, every item run once and over by ceil(N/c)*T, every kept result kept once |
| `StageBound.StageMovesOn` | internal/engine/delivery.go:25-58 | The runner never gets stuck before the batch is over |
| `StageBound.BoundIsReached` | internal/engine/delivery.go:25-58 | The bound is tight: some run is still out at ceil(N/c)*T |
| `StageBound.TimeoutCoversIff` | internal/engine/delivery_config.go:340-358 | The default timeout covers a full batch exactly when c <= 1000, T <= 300, or T*(c-1000) < c |
| `StageBound.WideSlowBatchIsOvertaken` | internal/engine/delivery_config.go:340-358 | With two thousand places and a limit of 301 seconds the timeout is 300, and live work can be taken |
| `StageBound.ReapedIff` | internal/store/store_lookups.go:245-263 | The reaper leaves a claimed row alone exactly while its age is within the timeout |
| `LiveWork.ReaperNeverTakesLiveWork` | internal/engine/delivery_config.go:334-358 | The protocol and the runner together on one clock: under the covered settings, in every run with crashes, panics and failed saves, the reaper leaves every row alone that is out for delivery, and no notification is out at two desks at once |
| `LiveWork.RunKeeps` | internal/engine/delivery.go:197-337 | The invariant behind it: every row that is out is under the very claim its batch took when it began |
| `StageBound.ReaperSparesLiveWorkIff` | internal/engine/delivery_config.go:334-358 | With the default timeout the reaper can never take live work exactly under those settings |
| `RefCache.LandedRowsAreServed` | internal/engine/refcache.go:68-76 | Rows the registered flight lands are what every caller gets exactly until they outlive the TTL, whatever else is invalidated, and not once their own collection is invalidated; what is too old once stays so |
| `RefCache.SharedCache.constructor` | internal/engine/refcache.go:52-54 | Starts empty |
| `RefCache.SharedCache.Get` | internal/engine/refcache.go:68-76 | Serves an entry until its age exceeds the TTL and changes nothing |
| `RefCache.SharedCache.JoinOrStart` | internal/engine/refcache.go:111-124 | Joins the flight under way or registers a new one |
| `RefCache.SharedCache.Finish` | internal/engine/refcache.go:127-135 | Only the flight still registered is removed and caches its rows |
| `RefCache.SharedCache.Invalidate` | internal/engine/refcache.go:97-106 | Drops entry and flight of every collection named |
| `RefCache.SharedCache.PutEntry` | internal/engine/refcache.go:82-86 | Writes the entry whatever flight is under way |
| `CacheFreshness.RunKeeps` | internal/engine/refcache.go:97-153 | The invariant over every interleaving of callers, loads, commits and invalidations |
| `CacheFreshness.CacheIsFresh` | internal/engine/refcache.go:97-153 | With every putEntry of require harmless in that sense, a call never returns rows of a load begun before an invalidation that preceded it, so it reflects every write acknowledged before it began; cached rows were read at most one TTL ago |
| `CacheFreshness.SupersededFlightLeavesNoTrace` | internal/engine/refcache.go:127-135 | A superseded flight neither caches its rows nor removes its successor |
| `CacheFreshness.OneLoadAtATime` | internal/engine/refcache.go:111-124 | In every interleaving at most one load of a collection that no invalidation has overtaken is under way |
| `CacheFreshness.WaitersShareRows` | internal/engine/refcache.go:111-138 | Whoever waited for a load that read its rows gets those very rows |
| `CacheFreshness.PutMisleadsIff` | internal/engine/refcache.go:220-247 | In every reachable world a putEntry of require can serve some call rows loaded before an invalidation that preceded the call if and only if an invalidation overtook it and its rows are young enough for a clock still to be taken or for one taken by such a call that has yet to look |
| `CacheFreshness.OvertakenPutIsReached` | internal/engine/refcache.go:220-247 | Such a put is reached in three steps |
| `IngestGate.IngestSlot.constructor` | internal/engine/ingest_gate.go:117-121 | A new slot has two free places |
| `IngestGate.IngestSlot.TryTake` | internal/engine/ingest_gate.go:136-141 | Takes a free place exactly when there is one |
| `IngestGate.IngestSlot.Return` | internal/engine/ingest_gate.go:131-134 | Gives one place back |
| `IngestGate.Gate.constructor` | internal/engine/ingest_gate.go:106-108 | Starts without slots |
| `IngestGate.Gate.Admit` | internal/engine/ingest_gate.go:114-128 | Finds or creates the slot of the key and counts the caller in, unless 130 are inside |
| `IngestGate.Gate.Leave` | internal/engine/ingest_gate.go:165-172 | Counts the caller out and drops the slot with its last user |
| `GateSafety.RunKeeps` | internal/engine/ingest_gate.go:114-172 | The invariant over every interleaving: a slot counts exactly those inside, free places plus holders are two, and a slot in use is the one in the map |
| `GateSafety.GateIsSafe` | internal/engine/ingest_gate.go:114-172 | At most two ingests of a key hold a place and at most 130 are inside, across every slot the key ever had, and all of them share the slot in the map |
| `GateSafety.RefusedIffFull` | internal/engine/ingest_gate.go:124-128 | An ingest is refused, and nothing changes, exactly when 130 of its key are inside |
| `GateSafety.ReleaseNeverBlocks` | internal/engine/ingest_gate.go:131-134 | The send of a release always finds room, and a leave always has a user to count out |
| `GateSafety.FreePlaceIsTakeable` | internal/engine/ingest_gate.go:136-152 | A waiting ingest can take a place exactly when fewer than two are held |
| `GateSafety.MapHoldsBusyKeys` | internal/engine/ingest_gate.go:165-172 | The map holds a slot for exactly the keys with somebody inside |
| `CircuitBreaker.Breaker.constructor` | internal/engine/circuit_breaker.go:34-46 | Starts closed for every key; a cooldown that is not positive becomes thirty seconds |
| `CircuitBreaker.Breaker.Allow` | internal/engine/circuit_breaker.go:49-65 | Admits unless open, and re-arms the cooldown for a trial |
| `CircuitBreaker.Breaker.Record` | internal/engine/circuit_breaker.go:68-87 | A success forgets the key; a failure is counted and opens at the threshold |
| `CircuitBreaker.CountsFailures` | internal/engine/circuit_breaker.go:68-87 | After every run the counter is the number of failures since the last success, and the breaker is open exactly when that has reached the threshold |
| `CircuitBreaker.TrialsAreSpaced` | internal/engine/circuit_breaker.go:49-87 | With clock readings in order, from opening until the next success an admitted call, or a failure, and the next admitted call are at least a cooldown apart |
| `CircuitBreaker.AdmittedAfterCooldown` | internal/engine/circuit_breaker.go:49-65 | A key is admitted again once a cooldown has passed with no further admission or failure |
| `Escalation.AdvanceGroupLocked` | internal/engine/steps.go:14-149 | The loop computes one stretch of the chain and the row it leaves behind |
| `Escalation.WalkRefines` | internal/engine/steps.go:14-149 | One call executes the next stretch of the one-shot run and leaves the row pointing at exactly what remains, for forward, self-targeting and out-of-range repeats and repeats sharing a counter |
| `Escalation.WalkTimed` | internal/engine/steps.go:44-51 | A call schedules a resume exactly for the delay of its last step, and only if that step holds the chain back |
| `EscalationMeaning.OneShotFollows` | internal/engine/steps.go:14-149 | The one-shot run begins with the first step there is, follows each step with the one its kind sends it to, jumps at most as often as a REPEAT allows, and stops only where nothing follows |
| `EscalationMeaning.FollowsUnique` | internal/engine/steps.go:14-149 | There is only one such run |
| `EscalationMeaning.LivesWaitOut` | internal/engine/steps.go:44-51 | In every life whatever follows a WAIT or a jump comes at least its minutes, of sixty seconds, later |
| `EscalationMeaning.WalkResolvesIff` | internal/engine/steps.go:104-109 | A call leaves the group resolved exactly when the last step it executed is a RESOLVE, and open otherwise |
| `EscalationMeaning.ChainResolvesIff` | internal/engine/steps.go:104-109 | Left to worker cycles and repeat firings, a group whose chain has run out is resolved exactly when the one-shot run ends in a RESOLVE step |
| `EscalationMeaning.AcknowledgeStops` | internal/model/alertgroup.go:556-567 | After an acknowledgement no worker cycle and no repeat firing executes a step |
| `EscalationMeaning.SilenceStops` | internal/model/alertgroup.go:674-692 | After a silence none does before its end, and without an end none ever |
| `EscalationMeaning.ResolveStops` | internal/model/alertgroup.go:572-579 | After a resolve none does |
| `EscalationMeaning.ChainStartsOver` | internal/model/alertgroup.go:450-455 | An unacknowledged group, one whose silence has run out and one that a firing reopens run the chain from the top with all its repeats |
| `EscalationLife.ActKeeps` | internal/engine/worker.go:380-405 | Every worker cycle, firing and operator action keeps executed plus remaining equal to the one-shot run, and its timing |
| `EscalationLife.PassRefinesOneShot` | internal/engine/worker.go:380-405 | However actions interleave and however late each resume runs, a pass has executed a prefix of the one-shot run, all of it once ended, and no step follows a WAIT or REPEAT before its delay has passed |
| `EscalationLife.EffectiveCycleProgresses` | internal/engine/worker.go:389-402 | Every due resume leaves strictly less of the one-shot run |
| `EscalationLife.UndisturbedTerminates` | internal/engine/steps.go:111-131 | Left alone, an escalation ends within as many due resumes as the one-shot run has steps, having executed exactly it, and until then has a resume scheduled |
| `EscalationLife.SpentRunsIff` | internal/engine/steps.go:111-131 | Starting with repeats already spent never adds a step, and loses none exactly when the chain has that many to spare |
| `EscalationLife.UnresolveRestartsFullyIff` | internal/model/alertgroup.go:581-600 | An unresolve runs the steps of a first pass exactly when the chain has the spent repeats to spare, because it keeps repeat_count |
| `EscalationLife.UnresolveKeepsSpentRepeats` | internal/model/alertgroup.go:581-600 | A reachable group whose unresolve pages once instead of twice |
| `PolicyRuns.RunPolicySteps` | internal/engine/notification_policy.go:156-178 | The loop fires from the stored index through every zero-wait step and stores where it stopped |
| `PolicyRuns.RunStepsFires` | internal/engine/notification_policy.go:156-178 | One pass fires consecutive steps of its list; it stops only before a step held back by a positive wait, due exactly that many minutes, of sixty seconds, later |
| `PolicyRuns.PolicyRunInOrder` | internal/engine/notification_policy.go:234-276 | For any sequence of cycles and edits of the policy, the steps fired are 0..k in order, each once, each from the list in force at its cycle, none sooner than the wait that list configures after the one before |
| `PolicyRuns.FixedListWaits` | internal/engine/notification_policy.go:164-172 | With a list nobody edits, consecutive steps are at least the configured minutes apart |
| `PolicyRuns.StopsOnResponse` | internal/engine/notification_policy.go:245-262 | Nothing fires from a cycle that finds the group not open, nor ever after it |
| `PolicyRuns.PolicyRunCompletes` | internal/engine/notification_policy.go:118-178 | With a fixed list, an open group and a worker that keeps coming, every step fires, each at least its configured wait after the last |
| `Ingest.FindGroup` | internal/engine/ingest.go:382-400 | The scan finds a matching unresolved group exactly when there is one |
| `IngestLife.FindsUnlessResolved` | internal/engine/ingest.go:382-410 | The scan comes back empty exactly when every group of that integration and key is resolved |
| `Ingest.NarrowedLoadIsExact` | internal/engine/ingest.go:248-295 | Loading only the groups whose key occurs in the envelope leaves the store exactly as scanning every group would |
| `Ingest.IngestPrepared` | internal/engine/ingest.go:276-357 | Collects the keys, loads what they match, applies the alerts in order and writes back; the result is that of a full scan |
| `IngestLife.RunKeeps` | internal/engine/ingest.go:361-577 | The invariant over every run of alerts, operator actions, worker cycles and deletions |
| `IngestLife.IngestKeepsItsBooks` | internal/engine/ingest.go:382-450 | At most one unresolved group per integration and dedupe key, every group counting exactly the firing alerts attached to it, and every firing alert attached once |
| `IngestLife.ResolvingAlertLeavesNone` | internal/engine/ingest.go:430-449 | After a resolving alert no unresolved group of its integration and key is left, and no other group has changed |
| `IngestLife.FiringAlertAttaches` | internal/engine/ingest.go:451-565 | A firing alert goes to the unresolved group of its key or to a new one with its own chain, silenced in maintenance, which counts one more; nothing else changes, and a group not acknowledged is not moved along its chain |
| `IngestLife.RepeatFiringsHonourWaits` | internal/engine/ingest.go:541-565 | Whatever alerts keep arriving, a group has executed a well-timed prefix of its chain: a repeat firing never cuts a WAIT short |
| `IngestLife.UnresolveKeepsOneOpenIff` | internal/engine/escalation.go:156-189 | An unresolve keeps one open group per key exactly when no newer group has opened for that key |
| `IngestLife.UnresolveOpensTwo` | internal/engine/escalation.go:156-189 | A run from an empty store reaches a resolved group whose key has a newer open one, and unresolving it leaves two open |
| `HandoffNotices.ShiftNotificationTargets` | internal/engine/schedule_notify.go:200-230 | The usable targets of a user, blank addresses filled from the profile, in order |
| `HandoffNotices.NotifyNewcomers` | internal/engine/schedule_notify.go:102-124 | The loops of one handoff, repeated idempotency keys dropped |
| `HandoffNotices.HandoffTells` | internal/engine/schedule_notify.go:102-124 | A handoff tells exactly the existing newcomers, once on each channel they can be reached on, at the first usable target there, and nobody already on call |
| `HandoffNotices.EveryTargetIsToldIff` | internal/engine/schedule_notify.go:113-123 | A newcomer is told at every usable target if and only if no channel has two of them with different addresses |
| `HandoffNotices.SecondMailboxIsNotTold` | internal/engine/schedule_notify.go:113-123 | A user with two mailboxes is such a newcomer |
| `HandoffNotices.NoticesReach` | internal/engine/schedule_notify.go:200-230 | Every notice goes to an address the profile has for its channel: the stored one, or for a blank target on email, telegram or call the field that channel uses |
| `HandoffNotices.OptedOutIsLeftAlone` | internal/engine/schedule_notify.go:70-73 | A schedule that has not opted in is neither recorded nor told about |
| `HandoffNotices.HandleRow` | internal/engine/schedule_notify.go:69-124 | A row is recorded and its newcomers told in one step, or left unchanged when nothing changed or a newcomer was not loaded |
| `HandoffNotices.ProcessShiftNotifications` | internal/engine/schedule_notify.go:62-132 | A cycle does that to every loaded schedule, in any order, from any pre-pass, as if all users had been loaded |
| `HandoffNotices.PendingShiftHandoffs` | internal/engine/schedule_notify.go:151-177 | The pre-pass names exactly the opted-in schedules whose roster changed and everyone on those rosters |
| `HandoffNotices.FreshCycleSettlesAll` | internal/engine/schedule_notify.go:82-92 | A pre-pass that was not stale defers nothing |
| `HandoffNotices.EnablingTellsNobodyIff` | internal/engine/schedule_notify.go:21-26 | A cycle that records tells nobody exactly when no roster was recorded before or no newcomer can be reached |
| `HandoffRuns.HandoffsAreTold` | internal/engine/schedule_notify.go:62-132 | Over every run, with arbitrarily stale pre-passes, a notice exists exactly if some recorded change after the first recording made that person a reachable newcomer |
| `HandoffRuns.NewcomersAreNeverLost` | internal/engine/schedule_notify.go:82-101 | Whoever the recorded roster names now was in the first recording or was told on every channel open to them when they entered |
| `HandoffRuns.ReenabledRowIsPending` | internal/engine/schedule_notify.go:21-26 | A schedule switched off, handed over and switched on again is still compared with its old roster |
| `Text.FieldsOfLine` | internal/engine/crud_chatops.go:234 | A line of words reads back as those words |
| `Buttons.TapRoundTrip` | internal/engine/delivery_adapters.go:797-834 | Every button's callback parses to a command whose words are exactly the intended verb, id and minutes, colons in the id or not |
| `Buttons.DistinctButtonsDistinctCommands` | internal/engine/delivery_adapters.go:743-834 | Distinct buttons never mean the same command |
| `Buttons.SilenceUnderstoodIff` | internal/engine/delivery_adapters.go:750-758 | A silence is understood exactly for a positive number of minutes and some group |
| `Keyboards.ActionRow` | internal/engine/delivery_adapters.go:541-555 | The known actions that fit, in the order given |
| `Keyboards.GroupRows` | internal/engine/delivery_adapters.go:515-535 | The two verdicts and three silences that fit |
| `Keyboards.GroupKeyboardIs` | internal/engine/delivery_adapters.go:426-432 | Under an alert: acknowledge, resolve, and silence for one, four and eight hours |
| `Keyboards.GroupListRows` | internal/engine/delivery_adapters.go:892-907 | A pair of buttons for each listed group whose two callbacks fit |
| `Keyboards.ListingRows` | internal/engine/delivery_adapters.go:892-919 | The listed groups, the bulk row when there are any, and the pager |
| `Keyboards.ListingKeyboardIs` | internal/engine/delivery_adapters.go:892-919 | A listing offers each group that fits its details and an acknowledgement, acting on all of them when there are any, the neighbouring pages, and nothing else |
| `Keyboards.PagerRow` | internal/engine/delivery_adapters.go:932-948 | A button for the page before and one for the page after, where there are such |
| `Keyboards.PagerReachesNeighbours` | internal/engine/crud_chatops.go:664-676 | Whatever page was asked for, the page shown is one there is, and the pager offers exactly its neighbours among the pages |
| `Keyboards.ShiftRows` | internal/engine/delivery_adapters.go:499-511 | The duty buttons, and the schedule button when it fits |
| `Keyboards.EmittedAre` | internal/engine/delivery_adapters.go:541-555 | What a row emits is exactly the buttons of its list that fit 64 bytes |
| `Keyboards.EveryTapWorks` | internal/engine/delivery_adapters.go:499-555 | Every button of every keyboard fits 64 bytes and comes back as the words it stands for |
| `Keyboards.GroupButtonsDiffer` | internal/engine/delivery_adapters.go:515-535 | No two buttons under an alert mean the same command |

## Left out

- The tz database: a zone is any function from instants to offsets; days with a transition are left out for restriction windows only.
- A schedule in a zone whose offsets spread a whole period or more: the search for the period is not shown to succeed there.
- A missing schedule row, unreadable rotations and unknown zones: they are read as no answer, no rotation and UTC before the model begins.
- 64-bit overflow of durations for intervals of centuries.
- Coverage.ShiftEndFor: the documentation speaks of the end of the user's stretch; the code, and the contract, of the end of the unchanged answer.
- ISO timestamp parsing, Unicode case folding and the JSON types of payload fields: a start_at text is what it denotes, and day and unit names are ASCII.
- PostgreSQL, advisory locks and LISTEN/NOTIFY: a transaction is one atomic step and a claim is exclusive.
- Stages as running code: deliveries, retries and the bounded runner are transition systems over values, so their mutexes, channels and goroutines appear only as what a step may do.
- DeliveryProtocol.NoNotificationIsLost: states that some continuation delivers the row, since no scheduler forces cycles to happen; that every continuation with enough committed outcomes settles it is Recovery.EveryContinuationSettles.
- StageBound.StageIsBounded: takes dispatching a free place and finishing a save as instantaneous; the doubled estimate is the source's margin for both.
- StageBound.TimeoutCoversIff: takes the estimate as an exact quotient, not a rounded 64-bit float, and settings as whole seconds.
- Cancelled contexts inside a delivery, dead-letter events, skip reasons and latency metrics.
- Rows created by batch flushing against concurrent attaches: a batched row is flushed in one step.
- Cache visibility across replicas beyond the TTL, setTTL, the verified flag of require, and store writes the wrapper does not cover.
- The wait limit of the gate: a waiting ingest may give up at any time.
- What escalation steps send to whom, group logs, analytics events, the epic threshold and issue creation; negative step positions and delays.
- How policy steps are read from a user and which address a channel resolves to.
- Alert normalising, routing, labels, maintenance matching and notification batches in ingest: an alert comes with its key, verdict and chain.
- The count that ProcessScheduleShiftNotifications returns, which includes notices dropped as repeats.
- How a roster at an instant is resolved inside handoff notices: a schedule there carries whom it names now, which any step may change, so clock and edits are both covered.
- Labels, URL buttons, Slack and Mattermost payloads; command execution after a tap.
- HTTP, SMTP, Asterisk and proxy adapters, templates, pipelines, CRUD, audit, reports, retention, roles and sessions, the web client and the command line: input and output, or properties of one branch.
