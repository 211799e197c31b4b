# summarybot: a verified model of its core

summarybot collects chat exports, summarizes them with language models under a cost cap, and does so
on schedules for signed-in users. This project models the parts of it where getting a step wrong is
easy and costly, and proves what they promise over every input and every run.

- **Calling the models** (`TokenBuckets`, `CircuitBreakers`, `RateLimiter`, `RetryPolicies`, `Engine`):
  a token bucket per provider, one shared circuit breaker, a limiter whose operations run under one
  lock, and a retry engine that waits, calls, classifies and backs off. Server hints are the
  `Retry-After` of section 10.2.3 of RFC 9110 on status 429 of section 4 of RFC 6585.
- **Scheduling** (`Calendar`, `Zones`, `Schedules`, `Scheduler`, `Rolling`): the recurrence engine, the
  executor over the stored schedules, and rolling summary periods, on the Gregorian calendar of
  section 5.7 and Appendices B and C of RFC 3339.
- **Coverage** (`Coverage`): merging imported date ranges and reporting the gaps, judged against sets
  of seconds.
- **Summarization** (`Allocation`, `Summarization`): splitting input over context windows, and the loop
  that escalates and downgrades over a ladder of models under a cost cap.
- **WhatsApp** (`Text`, `Stamps`, `WhatsAppParser`, `WhatsAppIngest`): the export parser, participant
  resolution, fingerprints and idempotent storage.
- **Sessions** (`Sessions`): sign-in, single-use refresh tokens, revocation and pruning.

`Numbers` holds the machine arithmetic written out (saturation, truncating division), `Wrappers` the
two carrier types. Objects the program changes in place are classes; each has a value type with the
transitions as functions, every method is proved to perform its transition, and the results over
runs are lemmas about those transitions.

What lies outside is an arbitrary input: the clock and its drift, the callers that share the limiter,
the model's answers, the structural check of a summary, the schedule runner, random tokens, hashes,
and a zone's offset function. Tokens are reals, so rounding of floating point is not modelled.

## What the code does that its documentation does not say

- A success also closes an open breaker, and half-open lets every caller through, not one probe
  (`crates/host/src/llm/ratelimit.rs:171-203`). A later 429 sets the end of the open window anew and
  may bring it forward (`crates/host/src/llm/ratelimit.rs:213-215`); `OpenWindowIsExact` is about the
  latest one.
- The wait reported with a refusal is exact unless the clock is behind the bucket's refill mark or the
  priority's reserve leaves no room for a token (`ReportedWaitIsExact`).
- The backoff is the documented capped doubling but where the held shift or the 64-bit range shows:
  one corner, if the base is not negative (`BackoffIsCappedDoubling`).
- An interval schedule's next run is documented as the next multiple; for a negative instant between
  two multiples it is the one after (`NextIntervalIsExact`).
- Resuming a one-shot schedule can fire it again, for the same due time (`ResumedOnceFiresAgain`); it
  does exactly if a tick inside the grace period finds it still resumed (`OnceFiresWhenHit`,
  `OnceFiresAtMostOnce`).
- A tick that finds a schedule past its grace moves it past that tick, and with it past a later occurrence
  whose own grace still runs (`LateTickSkipsBoth`, `RunsAreThoseTickedInTime`). No occurrence is missed
  if each has a tick inside its grace and before the next (`EveryOccurrenceFires`).
- An import of a single instant covers nothing and still splits a gap in two
  (`OnlyIsolatedInstantsSplitGaps`).
- The comment on the ladder loop (`crates/host/src/summarize.rs:129`) promises at most one visit per
  rung in each direction. It holds exactly if the loop turns up only to end, and then below where the
  climb began (`OneVisitPerDirection`). Escalating after a downgrade is futile, as a skipped model
  never fits again (`SkippedModelIsACeiling`), and it can use up the turns, which is reported as an
  unavailable service (`AlternatingExhaustsTheBudget`).
- A monthly schedule on the 29th, 30th or 31st can find no next run, and is then disabled: one skipped
  local time is enough (`MonthEndRunsDry`). Up to the 28th one missed day never is
  (`MonthlySurvivesOneMissedDay`), nor for daily and weekly schedules (`OneMissedDayIsHarmless`).
- Participant ids do not depend on the chat but are unique in the whole table: once a contact has
  written in one chat, every import of another chat they write in fails (`SecondChatIsRefused`,
  `SucceedsUnlessIdsClash`).
- Two exports put together are parsed as their parts unless the first ends in a newline after a
  message, or in a carriage return after the text of a header line (`ExportsCompose`).
- A planned chunk fits its window for every input exactly if the window leaves room for input and at
  least 256 output tokens are wanted; below that the floor on a chunk's output overruns the window for
  some input (`FloorIsSafeFrom256`).

## Model

| member | source | states |
|---|---|---|
| TokenBuckets.TokenBucket.PerMinute | crates/host/src/llm/ratelimit.rs:36-44 | a new bucket is full, holds at least one token and refills its capacity in a minute |
| TokenBuckets.TokenBucket.Refill | crates/host/src/llm/ratelimit.rs:46-52 | refill changes the bucket as `Bucket.Refilled` says; a clock behind the mark changes nothing |
| TokenBuckets.TokenBucket.TryAcquireReserving | crates/host/src/llm/ratelimit.rs:62-70 | a token is granted exactly when one is available above the reserve, negative or not, and the reserve then remains |
| TokenBuckets.TokenBucket.Drain | crates/host/src/llm/ratelimit.rs:86-89 | draining refills, then empties |
| TokenBuckets.DrainedMustRefill | crates/host/src/llm/ratelimit.rs:86-89 | a drained bucket grants a token exactly once it and the reserve have accrued since the drain, and fit |
| TokenBuckets.RefillIsPathIndependent | crates/host/src/llm/ratelimit.rs:46-52 | what accrues does not depend on how often it was observed on the way |
| TokenBuckets.AskingPays | crates/host/src/llm/ratelimit.rs:46-89 | every granted token is paid for out of tokens held and accrued; draining only gives away |
| TokenBuckets.GrantedFrom | crates/host/src/llm/ratelimit.rs:62-100 | a refused request that fits is granted on an untouched bucket exactly from the mark plus the reported wait on |
| TokenBuckets.RefusalWaitIsPositive | crates/host/src/llm/ratelimit.rs:93-100 | a refused caller is never told to wait zero milliseconds |
| TokenBuckets.ReportedWaitIsExact | crates/host/src/llm/ratelimit.rs:93-100 | the reported wait is enough if and only if the request fits and the clock is not behind; nothing earlier ever is |
| TokenBuckets.OversizedRequestNeverGranted | crates/host/src/llm/ratelimit.rs:62-70 | a reserve that leaves no room for a token is refused at every instant |
| CircuitBreakers.CircuitBreaker.Allows | crates/host/src/llm/ratelimit.rs:171-184 | only an open breaker before its end refuses; asking after it turns to half-open |
| CircuitBreakers.CircuitBreaker.OnSuccess | crates/host/src/llm/ratelimit.rs:188-203 | a success counts in half-open and closes the breaker otherwise |
| CircuitBreakers.CircuitBreaker.OnRateLimit | crates/host/src/llm/ratelimit.rs:208-217 | a 429 counts, and in half-open or at the threshold opens the breaker for the longer of cooldown and hint |
| CircuitBreakers.ClosedIffRunBelowThreshold | crates/host/src/llm/ratelimit.rs:119-217 | in every history the breaker is closed exactly while fewer than the threshold of 429s came since the last success that left it closed |
| CircuitBreakers.HalfOpenCountsItsSuccesses | crates/host/src/llm/ratelimit.rs:171-203 | half-open began with an allowed question and holds the successes since, fewer than the threshold |
| CircuitBreakers.SuccessClosesAtTheThreshold | crates/host/src/llm/ratelimit.rs:188-203 | in every history a success closes the breaker, unless it is half-open with fewer than the threshold of successes since the last probe, this one included |
| CircuitBreakers.RecoveryTakesTheThreshold | crates/host/src/llm/ratelimit.rs:171-203 | after a probe and no 429 the breaker is half-open exactly while fewer successes than the threshold have come, and closed from then on |
| CircuitBreakers.OpenWindowIsExact | crates/host/src/llm/ratelimit.rs:171-217 | after a 429 that opened the breaker a question is allowed exactly when it or an earlier one came at the end of the pause or later |
| CircuitBreakers.PauseIsTheLonger | crates/host/src/llm/ratelimit.rs:208-217 | an opened breaker pauses for the longer of the cooldown and the server's hint |
| CircuitBreakers.ReportedOpenWaitIsExact | crates/host/src/llm/ratelimit.rs:161-184 | an open breaker's reported wait is the least after which it allows a request |
| RateLimiter.GlobalRateLimiter.TryAcquire | crates/host/src/llm/limiter.rs:104-126 | the verdict asks the circuit first, then the provider's bucket less the priority's reserve; the state changes just so, and a refusal names a positive wait |
| RateLimiter.GlobalRateLimiter.RecordSuccess | crates/host/src/llm/limiter.rs:129-131 | a success reaches the shared breaker and no bucket |
| RateLimiter.GlobalRateLimiter.RecordRateLimit | crates/host/src/llm/limiter.rs:135-146 | a 429 reaches the shared breaker and drains that provider's bucket only |
| RateLimiter.GlobalRateLimiter.Status | crates/host/src/llm/limiter.rs:149-162 | the snapshot lists what each bucket would hold, once each and sorted by name, and changes nothing |
| RateLimiter.GlobalRateLimiter.WithProvider | crates/host/src/llm/limiter.rs:92-99 | seeding a provider replaces its bucket by a full one at its own limit |
| RateLimiter.CircuitFollowsItsHistory | crates/host/src/llm/limiter.rs:104-146 | over any interleaving of callers the shared circuit is the breaker after the history of what they told it |
| RateLimiter.SharedCircuitClosedIffRunBelowThreshold | crates/host/src/llm/limiter.rs:104-146 | in every run of a new limiter the circuit is closed exactly while fewer 429s than the threshold, of all providers together, came since the last success that left it closed |
| RateLimiter.SharedCircuitRecovers | crates/host/src/llm/limiter.rs:104-146 | in every run of a new limiter a success told to it closes the circuit, unless it is half-open short of the threshold |
| RateLimiter.RunPaysForGrants | crates/host/src/llm/limiter.rs:104-146 | over any interleaving of callers, grants are paid for out of a bucket's credit |
| RateLimiter.SharedRateBound | crates/host/src/llm/limiter.rs:104-146 | grants to a provider and tokens left never exceed tokens held plus rate times the advance of the refill mark, with any clock |
| RateLimiter.ElapsedRateBound | crates/host/src/llm/limiter.rs:104-146 | grants between two instants never exceed the capacity plus rate times the elapsed time, however long the bucket sat idle before, and even when it is created on the way |
| RateLimiter.BelowCapacityNothingIsLost | crates/host/src/llm/limiter.rs:104-126 | while the bucket never fills, a grant costs exactly one token, and refusals, snapshots and other providers cost none |
| RateLimiter.HigherPriorityIsNeverWorse | crates/host/src/llm/limiter.rs:165-173 | where a lower priority is let through, so is a higher one |
| RateLimiter.GrantLeavesTheReserve | crates/host/src/llm/limiter.rs:115-126 | a grant takes one token and leaves one configured share of the capacity for each priority that outranks the caller's |
| RateLimiter.BurstIsGrantedDownToTheReserve | crates/host/src/llm/limiter.rs:104-126 | a burst at one instant is granted exactly the whole tokens above the reserve; at a provider's first use that is its whole minute's limit less the reserve |
| RateLimiter.RateLimitedMustRefill | crates/host/src/llm/limiter.rs:135-146 | after a 429 the provider's next grant comes exactly once the circuit allows it and a token and the reserve have accrued since |
| RateLimiter.RefusedCallerReturnsOnTime | crates/host/src/llm/limiter.rs:115-125 | on an untouched limiter a refused caller is granted after the reported wait, and not before, exactly when its reserve leaves room and the clock was not behind |
| RetryPolicies.BackoffIsCappedDoubling | crates/host/src/llm/failure.rs:57-61 | the delay after failure k is base times 2^(k-1) capped, if and only if neither the held shift nor the 64-bit range shows, for bases of either sign |
| RetryPolicies.BackoffIsMonotone | crates/host/src/llm/failure.rs:57-61 | delays never shrink at a base that is not negative, never grow at one that is not positive, and never pass the cap |
| RetryPolicies.DecisionIsAsDocumented | crates/host/src/llm/failure.rs:63-79 | exactly overload and unavailability are retried while attempts are left, after the larger of the capped doubling and the server's hint and no later |
| Engine.ResilientLlm.Acquire | crates/host/src/llm/engine.rs:168-189 | a slot is returned exactly when the last attempt is the limiter's grant to it, its first; the timeout exactly when every attempt was refused, past the deadline, with the last wait as hint; no attempt comes before the wait it was told or the deadline, and no sleep is longer than that wait or the timeout |
| Engine.ResilientLlm.Tell | crates/host/src/llm/engine.rs:138-151 | the limiter is told of a success, or of a 429 with its hint for that provider, and of nothing else |
| Engine.ResilientLlm.Attempt | crates/host/src/llm/engine.rs:134-164 | one round makes one call on one granted token, or none on none, sleeps no longer than the timeout, records the outcome at the breaker, and leaves the bucket of a 429 empty |
| Engine.ResilientLlm.Complete | crates/host/src/llm/engine.rs:134-164 | a request ends after at most max(1, attempts) calls, each on a token granted for it, all but the last a transient failure, spaced by the policy, sleeping no more than a timeout per attempt and the pauses; the result is the last answer, the error that ended it, or the timeout of a wait in which every attempt was refused |
| Engine.AccountsJoin | crates/host/src/llm/engine.rs:134-189 | over any number of requests, by one engine or several, the calls to a provider are the tokens granted to the engines |
| Engine.CallsAreWithinTheRate | crates/host/src/llm/limiter.rs:104-126 | so the engines' calls never exceed the capacity plus rate times the elapsed time, and are all the limiter granted if no one else uses it |
| Engine.LoneCallerIsServed | crates/host/src/llm/engine.rs:168-189 | a caller alone at the limiter, refused by a bucket with room for its reserve, is granted at its second attempt unless the deadline cut its wait short |
| Engine.CallMade | crates/host/src/llm/engine.rs:138-161 | after each call the request either ends as it should or goes on once the chosen delay has passed |
| Engine.CallsBackOff | crates/host/src/llm/failure.rs:63-79 | call k+1 comes at least the capped doubling, and at least the server's hint, after failure k |
| Engine.QuietLogGrows | crates/host/src/llm/engine.rs:137-151 | with a single engine calls come one after another, each on a breaker that is not open and has only settled since the last |
| Engine.NoCallInsideOpenWindow | crates/host/src/llm/engine.rs:137-151 | with a single engine none of the later calls starts before both the cooldown and the seconds of a 429's hint are over |
| Calendar.NumberOfDate | crates/domain/src/schedule.rs:195-202 | numbering the date of a day gives the day back |
| Calendar.DateOfNumber | crates/domain/src/schedule.rs:195-202 | every calendar date has exactly one day number |
| Calendar.DatesAreConsecutive | crates/domain/src/schedule.rs:198-198 | the day after a date is the calendar's next date, on both sides of 1970 |
| Calendar.WeekdayIsOfTheStandard | crates/domain/src/schedule.rs:110-121 | the weekday of every date is that of the formula in Appendix B of RFC 3339 |
| Calendar.DayComesRound | crates/domain/src/schedule.rs:191-202 | every day number up to 31 comes round within 61 days |
| Zones.ResolveIsEarliest | crates/domain/src/schedule.rs:209-210 | resolving a local time gives the earliest instant that reads it, or none if no instant does |
| Schedules.NextWallclock | crates/domain/src/schedule.rs:194-217 | the day-by-day loop returns the first selected day's fire time after the instant |
| Schedules.SelectsWhatIsNamed | crates/domain/src/schedule.rs:199-204 | the days selected are those whose date has a weekday of the list, from Monday as 0, or the day of the month |
| Schedules.OccurrencesReadTheClock | crates/domain/src/schedule.rs:195-215 | a schedule occurs when the local clock reads its hour and minute, and no second, on a day it names |
| Schedules.WallclockIsSound | crates/domain/src/schedule.rs:194-217 | in any zone a computed run is later, reads the time of day on a selected date, and is the first instant to read its local time |
| Schedules.WallclockIsExact | crates/domain/src/schedule.rs:194-217 | in a fixed zone there is a run exactly when the schedule selects a day and a time, and it is the very next such instant: the 62-day scan never comes up empty |
| Schedules.RunExistsWhenADayIsUsable | crates/domain/src/schedule.rs:194-217 | in any zone there is a run exactly when the scan meets a selected day whose time of day exists and is yet to come |
| Schedules.FirstUsableDayRuns | crates/domain/src/schedule.rs:194-217 | in any zone the run is the fire time of the first such day |
| Schedules.OneMissedDayIsHarmless | crates/domain/src/schedule.rs:191-217 | daily, weekly and monthly schedules up to the 28th survive one missed day in 62 in any zone |
| Schedules.MonthEndRunsDry | crates/domain/src/schedule.rs:191-217 | a monthly schedule on the 29th, 30th or 31st that fired in January of a common year has no next run when the zone skips its time in March |
| Schedules.MonthlySurvivesOneMissedDay | crates/domain/src/schedule.rs:191-217 | one missed day never leaves a monthly schedule without a run if and only if its day is at most the 28th |
| Schedules.NextIntervalIsExact | crates/domain/src/schedule.rs:220-223 | the next interval run is a later multiple, and the least one if and only if the instant is not negative between multiples |
| Schedules.PeriodsFillTheDay | crates/domain/src/schedule.rs:176-190 | 96 quarter hours, 24 hours or 6 times four hours make a day, two half weeks a week, and a custom interval is as given |
| Schedules.NextRunIsLater | crates/domain/src/schedule.rs:174-189 | for every kind and zone the next run lies strictly after the instant |
| Schedules.NextRunIsNext | crates/domain/src/schedule.rs:174-223 | for every kind, in a fixed zone, the next run is the very next time the schedule comes round, exactly but for a negative instant between multiples; there is none exactly when it never comes round again |
| Schedules.WhatRepeats | crates/domain/src/schedule.rs:174-217 | which schedules never run out of runs, exactly: in any zone those that meet a usable day from every instant, in a fixed zone the well-formed ones |
| Scheduler.ScheduleStore.UpdateRuntime | crates/repository/src/schedule.rs:133-146 | execution state of one row is replaced; an unknown id changes nothing |
| Scheduler.ScheduleStore.SetEnabled | crates/repository/src/schedule.rs:148-154 | pausing or resuming touches one row of one workspace and tells whether there was one |
| Scheduler.SchedulerService.Reschedule | crates/host/src/scheduler.rs:100-110 | a row moves to its next run, which `TickMovesToTheNextOccurrence` says is the next occurrence, or is disabled and keeps its old time |
| Scheduler.SchedulerService.Tick | crates/host/src/scheduler.rs:57-98 | a tick does to every row what the policy says, each by itself, and the report counts the rows fired, failed, skipped and disabled |
| Scheduler.TickMovesToTheNextOccurrence | crates/host/src/scheduler.rs:57-110 | a tick that fires or skips moves a row to the very next occurrence, passing over none, and disables it exactly if there is none |
| Scheduler.TickLeavesNothingDue | crates/host/src/scheduler.rs:57-110 | after a tick an enabled schedule is due strictly later |
| Scheduler.TickAgainFiresNothing | crates/host/src/scheduler.rs:57-110 | a tick repeated at the same instant fires no schedule of the table |
| Scheduler.FiresAreInTime | crates/domain/src/schedule.rs:239-258 | over every run of events each start lies between the due time and the end of its grace |
| Scheduler.DueTimesIncrease | crates/host/src/scheduler.rs:57-110 | over every run each start of a repeating or never resumed schedule was due after the previous one had started |
| Scheduler.DueFollowsTheLatestTick | crates/host/src/scheduler.rs:57-110 | over every run of ticks, pauses and resumes a repeating schedule is on as last switched, and due at the very next occurrence after the latest tick it was on for |
| Scheduler.RunsAreThoseTickedInTime | crates/host/src/scheduler.rs:57-110 | over every such run exactly those runs start for which a tick in time finds the schedule on and due |
| Scheduler.LateTickSkipsBoth | crates/domain/src/schedule.rs:239-258 | a tick too late for one occurrence skips the next one too, though it is inside that one's grace |
| Scheduler.EveryOccurrenceFires | crates/host/src/scheduler.rs:57-110 | an enabled repeating schedule below the failure limit, ticked inside the grace of each occurrence before the next, starts a run for every one |
| Scheduler.OnceFiresWhenHit | crates/host/src/scheduler.rs:57-110 | over every run a one-shot below the failure limit fires exactly when a tick in its grace period finds it armed: for a fired one, resumed and neither paused nor ticked past its due time since |
| Scheduler.OnceFiresAtMostOnce | crates/host/src/scheduler.rs:100-110 | over every run a one-shot fires at most once if and only if it is not so hit again after its first run, and surely if it is never resumed; its due time never changes |
| Scheduler.ResumedOnceFiresAgain | crates/host/src/scheduler.rs:105-107 | a run in which a resumed one-shot fires twice for the same due time |
| Scheduler.IntervalFiresOncePerMultiple | crates/domain/src/schedule.rs:176-189 | an interval schedule fires only for multiples and at most once for each |
| Scheduler.FailuresAreTheFailedRuns | crates/host/src/scheduler.rs:82-94 | the failure count is the number of failed starts since the last success, and never passes the limit |
| Scheduler.FailedOutNeverFiresAgain | crates/domain/src/schedule.rs:248-250 | at the failure limit a schedule never fires again under any pauses and resumes, and the next tick disables it |
| Scheduler.RowsRunIndependently | crates/host/src/scheduler.rs:57-98 | in any run of the table each schedule follows its own events, read off the table's, ending in the same row and starting the same runs |
| Rolling.PeriodsTileDays | crates/domain/src/rolling.rs:69-95 | a period contains its day, all its days share it, and the next starts where it ends |
| Rolling.WeekEndsOn | crates/domain/src/rolling.rs:72-78 | a weekly period ends on the one day of the coming week that is the end day |
| Rolling.FortnightsBeginOnMondays | crates/domain/src/rolling.rs:79-85 | biweekly periods begin on every other Monday from 1970-01-05 |
| Rolling.WindowsPartitionTime | crates/domain/src/rolling.rs:69-109 | in a fixed zone the windows of every cadence partition all of time |
| Rolling.WindowLength | crates/domain/src/rolling.rs:69-100 | windows last exactly 7 or 14 days or as many as the calendar's month has |
| Coverage.MergeSpans | crates/domain/src/coverage.rs:124-135 | the merged list is sorted, strictly separated, and covers exactly what the spans that are not inverted cover |
| Coverage.AnalyzeCoverage | crates/domain/src/coverage.rs:65-121 | the report is read off a correct merge of the imports |
| Coverage.EndsAreExtremes | crates/domain/src/coverage.rs:72-82 | the reported ends are the first and last points any import reaches, missing only when no import is sound |
| Coverage.MergeIsUnique | crates/domain/src/coverage.rs:124-135 | there is only one correct merge |
| Coverage.ReportIsDetermined | crates/domain/src/coverage.rs:65-121 | reordering, repeating or adding inverted spans changes nothing in the report |
| Coverage.MergingAgainChangesNothing | crates/domain/src/coverage.rs:60-64 | reporting on merged coverage, alone or on top of the imports, gives the same report |
| Coverage.CoveredSecsCountsSeconds | crates/domain/src/coverage.rs:83-83 | the covered total is the number of distinct seconds covered |
| Coverage.GapsAreTheUnreached | crates/domain/src/coverage.rs:66-113 | with or without a creation time, the reported gaps are exactly the longest unreached stretches above the floor, from creation or the first import to now or the last, each classified by where it lies; without imports there are none |
| Coverage.GapsAreOrdered | crates/domain/src/coverage.rs:85-113 | with or without a creation time, gaps come in time order without overlap |
| Coverage.CoverageAndGapsMakeUpTime | crates/domain/src/coverage.rs:66-113 | with no floor covered seconds and gaps add up to all of that time |
| Coverage.OnlyIsolatedInstantsSplitGaps | crates/domain/src/coverage.rs:85-113 | gaps are the longest uncovered runs of seconds if and only if no single-instant import stands alone |
| Allocation.PlanIsFewestEqualChunks | crates/domain/src/summarize/allocate.rs:30-62 | the chunks hold the input, each takes at most what a window has room for, or one token where it has none, could not be fewer, and none is empty |
| Allocation.OutputIsShared | crates/domain/src/summarize/allocate.rs:46-61 | one chunk gets all the wanted output, several as much each as it holds so many times, and 256 at least |
| Allocation.FloorIsSafeFrom256 | crates/domain/src/summarize/allocate.rs:51-61 | every input gives a chunk that fits the window with its output and the prompt, if and only if the window leaves room for input and at least 256 output tokens are wanted |
| Allocation.TwoWindowsOverrun | crates/domain/src/summarize/allocate.rs:58-60 | below 256 wanted output tokens two windows of input overrun every window that leaves room |
| Summarization.CostGuard.Record | crates/domain/src/summarize/cost.rs:75-78 | spend grows by the actual cost, saturating |
| Summarization.CostGrowsWithOutput | crates/domain/src/summarize/cost.rs:19-29 | cost is monotone in output along the sign of its price, saturation and truncation included |
| Summarization.CostIsPerThousand | crates/domain/src/summarize/cost.rs:19-29 | a cost is the price of input and output by the thousand tokens, less under two micro-dollars of rounding |
| Summarization.Summarize | crates/host/src/summarize.rs:116-200 | the loop returns what the ladder's turns lead to; what those do is stated by the rows below |
| Summarization.EntrySplitsTheLadder | crates/domain/src/summarize/model.rs:62-73 | a brief summary enters at the cheapest model, a comprehensive one at the strongest, a detailed one in the middle |
| Summarization.LoopStaysOnLadder | crates/host/src/summarize.rs:127-200 | the index stays on the ladder and moves one rung at a time, and there are at most two turns per model |
| Summarization.DegradedMeansDowngraded | crates/host/src/summarize.rs:151-158 | the outcome is flagged degraded exactly when a downgrade happened |
| Summarization.LedgerIsKept | crates/host/src/summarize.rs:139-180 | every request had spend plus estimate within the cap, every downgrade did not, and the outcome's cost is the sum over all completed calls |
| Summarization.ChargeIsPerThousand | crates/host/src/summarize.rs:166-168 | a completed call is charged for its input and its answer at the model's price |
| Summarization.EstimateIsAQuarter | crates/host/src/summarize.rs:268-270 | a text counts a token for every four bytes of UTF-8, and one at least |
| Summarization.NeverOverspends | crates/host/src/summarize.rs:139-180 | if no answer is longer than planned the total never exceeds the cap |
| Summarization.RoomyLoopOnlyClimbs | crates/domain/src/summarize/model.rs:66-99 | with no effective cap, or one with room for the estimates of all models from the start up, the loop asks each of them at most once |
| Summarization.SkippedModelIsACeiling | crates/host/src/summarize.rs:149-158 | a model skipped for the cap is never asked later, and the loop never goes above it again |
| Summarization.OneVisitPerDirection | crates/host/src/summarize.rs:127-200 | at most one visit per rung in each direction, as the comment promises, if and only if the loop turns up only to end, below where its climb began |
| Summarization.RungsRepeatWhenItTurns | crates/host/src/summarize.rs:132-200 | no rung at all is visited twice if and only if the walk never turns before its last step |
| Summarization.FailuresAreEarned | crates/host/src/summarize.rs:134-200 | the loop goes on after every downgrade, rejected answer and unavailable model while there is a model to turn to and a turn left, ends at once on any other failure, and its result is the one its last step leaves it |
| Summarization.UnavailableIsTheLastResort | crates/domain/src/summarize/model.rs:91-97 | the service is reported unavailable only by the strongest model, or when the turns have run out |
| Summarization.RepliesAreTheModels | crates/host/src/summarize.rs:160-166 | the replies are the engine's own, one request after another, each to the model of its step |
| Summarization.CapTooLowAtTheCheapest | crates/host/src/summarize.rs:149-158 | the cap is reported too low only when the cheapest model does not fit what is left |
| Summarization.AlternatingExhaustsTheBudget | crates/host/src/summarize.rs:130-136 | a run that turns back and forth between two rungs and ends as an unavailable service |
| Text.EnclosedLineFound | crates/repository/src/whatsapp.rs:161-168 | looking an alias up among newline-delimited ones finds exactly the same line |
| Stamps.StampParses | crates/domain/src/whatsapp/datetime.rs:23-82 | every local time written in any style is read back: either order, years of four digits or of two from 2000 on, any separator, padded or not, either clock, with seconds or without |
| Stamps.DateParses | crates/domain/src/whatsapp/datetime.rs:39-58 | a date of two-digit numbers is read as written if it exists and rejected if not, two-digit years as of this century |
| Stamps.TimeParses | crates/domain/src/whatsapp/datetime.rs:60-82 | every time of either clock is read back right, midnight and noon included |
| Stamps.ImpossibleTimesAreRejected | crates/domain/src/whatsapp/datetime.rs:60-82 | a time of two-digit numbers is read as written if it exists and rejected if not |
| WhatsAppParser.ParseExport | crates/domain/src/whatsapp/mod.rs:69-120 | the line loop reads the export as `Parsed` says; what that is, is stated by the rows below |
| WhatsAppParser.ComputeRange | crates/domain/src/whatsapp/mod.rs:206-215 | folding the instants gives their extent |
| WhatsAppParser.ExtentIsTight | crates/domain/src/whatsapp/mod.rs:206-215 | the range reaches from the least to the greatest instant, and is missing only when there is none |
| WhatsAppParser.MessagesAreWellBuilt | crates/domain/src/whatsapp/mod.rs:73-110 | every message has a non-empty one-line sender of at most 80 characters or is a system line, and is flagged as media exactly when its whole body holds a placeholder |
| WhatsAppParser.OneMessagePerOpening | crates/domain/src/whatsapp/mod.rs:69-112 | every line that opens a message makes exactly one, of its instant, sender and text and the lines below that are no headers |
| WhatsAppParser.MarksDoNotMatter | crates/domain/src/whatsapp/mod.rs:122-138 | a direction or zero-width mark anywhere in a line changes nothing, and a no-break space is read as a space |
| WhatsAppParser.CarriageReturnsDoNotMatter | crates/domain/src/whatsapp/mod.rs:74-75 | a carriage return before a newline changes nothing in what is parsed |
| WhatsAppParser.LinesCompose | crates/domain/src/whatsapp/mod.rs:69-112 | lines that begin with a header are parsed the same whatever precedes them |
| WhatsAppParser.ExportsCompose | crates/domain/src/whatsapp/mod.rs:69-120 | two exports joined by a newline give the messages, events and hull of both, if and only if the first ends tidily |
| WhatsAppParser.RenderingIsReadBack | crates/domain/src/whatsapp/mod.rs:69-178 | parsing the iOS or Android rendering of exportable messages, in any style of stamps, gives back exactly those messages, their events and the format |
| WhatsAppParser.OneLineTextIsExportable | crates/domain/src/whatsapp/mod.rs:140-178 | in a fixed zone any one-line text from a plain sender, or a system line, survives the round trip at any instant the style of stamps can write |
| WhatsAppParser.RenderedMessageOpens | crates/domain/src/whatsapp/mod.rs:140-164 | a rendered message starts with a header, so exports compose before it |
| WhatsAppIngest.WhatsAppRepository.CreateParticipant | crates/repository/src/whatsapp.rs:179-201 | a participant is refused when its id, or its phone hash in the chat, is taken |
| WhatsAppIngest.WhatsAppRepository.SaveMessage | crates/repository/src/whatsapp.rs:228-254 | a message is inserted, or ignored when its id is known |
| WhatsAppIngest.WhatsAppIngestor.ResolveAuthor | crates/host/src/whatsapp.rs:96-150 | a sender resolves to the system, the uploader, a known participant or a new one |
| WhatsAppIngest.WhatsAppIngestor.Ingest | crates/host/src/whatsapp.rs:61-92 | the batch loop does what `IngestAll` says, and keeps what it stored when it fails |
| WhatsAppIngest.FramingIsInjective | crates/host/src/whatsapp.rs:180-189 | length-prefixed parts can be told apart again |
| WhatsAppIngest.FingerprintsIdentify | crates/host/src/whatsapp.rs:170-192 | messages share a fingerprint exactly when chat, instant, author and content are the same |
| WhatsAppIngest.LookupFindsThePerson | crates/repository/src/whatsapp.rs:133-177 | a lookup finds the participant the sender stands for and no other |
| WhatsAppIngest.NumbersAreNeverAliases | crates/host/src/whatsapp.rs:113-150 | a phone number is never stored as an alias, whether a batch goes through or not |
| WhatsAppIngest.OneNumberIsOnePerson | crates/host/src/whatsapp.rs:113-168 | two spellings of a number are one person exactly if their digits are the same, and a name is never that person |
| WhatsAppIngest.SeparatorsDoNotMatter | crates/host/src/whatsapp.rs:162-163 | a character that is no digit makes no difference to a number |
| WhatsAppIngest.IngestIsUnion | crates/host/src/whatsapp.rs:61-92 | a batch that goes through adds exactly the new messages and the new people, and stored plus duplicates is its length |
| WhatsAppIngest.StoredAsWritten | crates/host/src/whatsapp.rs:67-86 | of a new message the chat, text, instant and kind are stored as written, under its author's pseudonym |
| WhatsAppIngest.SucceedsUnlessIdsClash | crates/host/src/whatsapp.rs:96-158 | a batch goes through if and only if no writer shares an id with someone else |
| WhatsAppIngest.OnlyTheSetMatters | crates/host/src/whatsapp.rs:61-92 | order and repetition in a batch make no difference to the tables, nor to what is stored and who is created |
| WhatsAppIngest.BatchesConcatenate | crates/host/src/whatsapp.rs:61-92 | two batches in a row are one batch |
| WhatsAppIngest.ReingestChangesNothing | crates/repository/src/whatsapp.rs:228-254 | ingesting again stores nothing, creates no one and counts only duplicates |
| WhatsAppIngest.SecondChatIsRefused | crates/host/src/whatsapp.rs:96-158 | once a contact has written in one chat, every batch of another chat they write in fails, whatever else is stored or in it, and nothing of theirs is stored there |
| WhatsAppIngest.GrownExportAddsTheRest | crates/host/src/whatsapp.rs:61-92 | ingesting an export and later the grown one leaves what the grown one alone would |
| Sessions.AuthRepository.CreateSession | crates/repository/src/session.rs:34-48 | a session is refused when its id or refresh hash is taken |
| Sessions.AuthRepository.RevokeSession | crates/repository/src/session.rs:70-76 | one session is revoked, and the result says whether that changed anything |
| Sessions.AuthRepository.RevokeAllForUser | crates/repository/src/session.rs:78-84 | all of a user's sessions are revoked and no one else's, and counted |
| Sessions.AuthRepository.PruneExpired | crates/repository/src/session.rs:86-92 | exactly the sessions expired on or before the instant go, revoked ones stay till then |
| Sessions.AuthRepository.LinkIdentity | crates/repository/src/identity.rs:91-114 | a bound identity is never bound again |
| Sessions.AuthService.IssuePair | crates/host/src/auth/mod.rs:228-262 | a session is opened and its tokens handed out, or nothing changes |
| Sessions.AuthService.Login | crates/host/src/auth/mod.rs:122-148 | a bound identity signs its user in, an unbound one provisions and binds a new one |
| Sessions.AuthService.Refresh | crates/host/src/auth/mod.rs:154-171 | a valid token is traded for a new pair and its session revoked, which it stays if the new session is refused; otherwise the reason is told and nothing changes |
| Sessions.AuthService.Link | crates/host/src/auth/mod.rs:177-218 | an identity is bound to the acting user unless it is someone else's |
| Sessions.HandedOutRow | crates/host/src/auth/mod.rs:228-262 | the stored session behind a pair, open for its lifetime, and the access claims that point to it and grant the workspaces given |
| Sessions.VerdictIsTheHistory | crates/domain/src/session.rs:140-152 | the verdict on a stored token over every run: unknown after a prune, revoked after a use or revocation, else by the clock |
| Sessions.PresentedTokenVerdict | crates/domain/src/session.rs:140-152 | presenting a token that was handed out gets exactly the verdict its history since then earns |
| Sessions.NeverAgain | crates/host/src/auth/mod.rs:150-171 | a replayed token is reported revoked until its session is pruned and unknown after |
| Sessions.TokensAreSingleUse | crates/host/src/auth/mod.rs:150-171 | over any run with fresh tokens a refresh token is accepted at most once |
| Sessions.ChainKeepsUser | crates/host/src/auth/mod.rs:150-171 | a chain of refreshes keeps its user |
| Sessions.RotationIsOneForOne | crates/host/src/auth/mod.rs:162-168 | an accepted refresh leaves the number of sessions not revoked unchanged |
| Sessions.SessionsComeFromSignIns | crates/host/src/auth/mod.rs:122-171 | over any run the sessions not revoked never outnumber those at the start and the sign-ins |
| Sessions.BindingsAreForGood | crates/repository/src/identity.rs:91-114 | a bound identity keeps its user over any run |
| Sessions.SameIdentitySameUser | crates/host/src/auth/mod.rs:117-148 | signing in twice with one identity is signing in as one user |
| Sessions.BindingIsTheFirst | crates/host/src/auth/mod.rs:117-218 | over every run an identity belongs to whom the first sign-in or link bound it |
| Sessions.SignInIsAsTheFirst | crates/host/src/auth/mod.rs:117-148 | every sign-in is as the user its identity was bound to first |
| Sessions.StrangersStayApart | crates/host/src/auth/mod.rs:122-148 | two identities no one links sign in as two users, if user ids are drawn fresh |
| Sessions.LinkedIdentitySignsIn | crates/host/src/auth/mod.rs:177-218 | an identity linked to a user signs in as that user ever after |

## Left out

- TokenBuckets.TokenBucket.TryAcquireReserving: tokens are reals, so rounding, infinities and the saturating cast of the reported wait are not modelled; a negative reserve fraction is excluded.
- CircuitBreakers.CircuitBreaker.OnRateLimit: the failure and success counters are unbounded, so 32-bit overflow is not modelled; nor is the overflow of a hint turned into milliseconds.
- Schedules.WallclockIsExact: stated for fixed-offset zones; in a zone with transitions the run is exact by days (`RunExistsWhenADayIsUsable`, `FirstUsableDayRuns`) but need not be the next instant to read its local time, because a time read twice counts at its first reading only.
- Schedules.NextRunIsNext: stated for fixed-offset zones, and with it `TickMovesToTheNextOccurrence` and the runs of repeating schedules; a zone with transitions may skip an occurrence.
- Rolling.WindowsPartitionTime: stated for fixed-offset zones, because a skipped midnight leaves a window undefined.
- Schedules.NextWallclock: instants beyond the date library's years, where the program returns none, are not modelled.
- Scheduler.SchedulerService.Tick: the runner is an arbitrary function of schedule and instant, and schedules are visited in any order; a storage error that ends a tick early is not modelled.
- Summarization.Summarize: the engine is an arbitrary oracle by request number, and parsing an answer and checking its structure another; the filtering of trivial messages and the assembly of the prompt are taken as given.
- Sessions.AuthService.Login: drawing tokens and ids is an input, so failing entropy is not modelled, and normalizing provider claims is given as its result.
- Sessions.TokensAreSingleUse: freshness is asked of the hashes of the tokens drawn, which fresh tokens have under a hash without collisions.
- WhatsAppIngest.IngestIsUnion: full hashes and UTF-8 are taken to be injective; nothing is assumed of truncated ones.
- WhatsAppIngest.WhatsAppRepository.Lookup: when several rows match, the first created is returned; the database may return any, but rows that ingestion made never match together.
- WhatsAppParser.ParseExport: case folding covers ASCII letters, which decides every phrase looked for.
- The HTTP layer, handlers and correlation middleware: thin plumbing over the services.
- SQL text, SQLite and file handling: each table is a map or a sequence with its unique keys.
- Cryptography, JWT framing and signatures: calls into libraries.
- The OpenRouter client, status classification and rate-limit header parsing: foreign calls and single lookups.
- The IANA zone database: a zone is an arbitrary offset function of less than a day.
- Job lifecycle, roles, invites, delivery, `decide_rolling`, import records by file hash and alias merging: each is settled by reading one match.
- Rendering, content cleaning and the extraction of an answer's parts: little depth beside the above.
- The audit log: it never influences an outcome.
