# A verified model of the WhatsApp receptionist's core

This project models, in Dafny, the parts of the receptionist backend whose correctness depends on
order, interleaving or arithmetic, and proves what they keep over every run. `dafny verify
dfyconfig.toml` checks all of it.

Code that updates rows, maps or fields in place is a class whose methods are proved against
specification functions; the theorems are about those functions, and about transition systems that
interleave them. Code made of expressions is functions and lemmas. What a specification function
means is also stated without it, column by column and in plain numbers, in the methods' own
contracts or in lemmas beside them (`BookingRows`, `TenantAnswers`); and where a call is modelled
twice, in one step and as single writes, the one is proved to be a run of the other
(`BookingRefinement`, `TurnRefinement`, `TenantCache.RequestIsRun`).

| Files | What they model |
|---|---|
| `TurnJobs`, `TurnProtocol`, `TurnRefinement`, `TurnGuarantees`, `TurnLeases`, `TurnStalls` | the AI-turn job queue: claims under a five-minute lease, the run lookup, `succeed`, the two halves of `fail`, crashes anywhere |
| `CacheKeys`, `CacheProtocol`, `TenantCache` | the generation-versioned cache: key families, readers, slow loaders and invalidators interleaved, Redis failing at any call, and the same over the string-keyed store |
| `LocalTime`, `ZoneConversion` | the two-pass conversion of local time to UTC, for any offset function |
| `Availability`, `SlotGuarantees`, `Recurrence` | the slot grid of a local day and the expansion of recurrence rules |
| `Bookings`, `AppointmentEngine`, `BookingRows`, `BookingGuarantees`, `BookingConflicts`, `BookingInterleavings`, `BookingRefinement`, `BookingChecks` | the appointment tables, the service calls as atomic sequences, and the same calls one database write at a time |
| `TenantRows`, `TenantScope`, `TenantAnswers`, `TenantIsolation`, `TenantKeys` | the scoped Prisma client: rewriting of every operation, what each answers and leaves, non-interference between tenants, and what unique keys add |
| `RateLimit`, `RateLimitGuarantees` | the fixed-window limiter over memory, PostgreSQL and Redis |
| `Erasure`, `ErasureGuarantees` | contact erasure driven by the redaction registry, through the scoped client |
| `TurnEngine`, `TurnEngineGuarantees` | one turn of the AI engine: guard, retries, outcome, budget, escalation flag |
| `DailySeries` | revenue rows bucketed by UTC day and filled over a range |
| `Outcomes`, `Whitespace` | optional values, the error classes the services throw, and what `trim` removes |

What comes from outside is a parameter: the database clock, what Redis answers or whether it
answers, what the provider replies, the matches of the guard patterns, the offset function of a
zone, the caller's predicates (any test of a row) and everything computed from selected rows.

## Where the code and its documentation part

The model follows the code. Each point below is proved, with the exact condition where there is one.

- `src/workflows/ai-turn.worker.ts:21-23` says recovery links an existing run "instead of invoking the
  provider twice". In any run, the provider is called for a job that already has its run exactly when
  another worker wrote that run between this claim's vain lookup and its call (`SecondCallExactly`); as
  long as everyone acts within its lease, that means one of the two has outlived its own
  (`CrossingOutlivesLease`), and such a state is reachable (`SlowWorkerCallsTwice`). A slow worker can
  also leave a queued job without attempts, by one step and no other (`OnlyStaleRequeueStrands`).
- The exclusion constraint covers booked and confirmed rows only
  (`prisma/migrations/20260802034500_constraints/migration.sql:79-85`), while availability counts every
  row that is not cancelled as busy. Booked and confirmed rows never overlap in any interleaving;
  rows that merely are not cancelled can, in exactly two ways (`OnlyTwoWaysToOverlap`). Within one
  call only a recurring series can do it (`BookKeepsBlocking`, `SeriesLandsOnRescheduled`).
- Not every offered slot can be booked at once. An offered slot is accepted exactly when it is also an
  open cell of the same resource on the local day its start falls on (`OfferBookableExactly`). Where
  clocks go back over midnight while the resource is open, as in America/St_Johns until 2011, a slot is
  offered and refused (`FallBackOfferRefused`).
- Rescheduling one appointment twice books the new hour and then fails on the unique link; the extra
  row stays (`SecondRescheduleLeavesRow`). Rescheduling can also bring back a row that was cancelled
  in between (`MarkingBlocks`, `RescheduleRevives`).
- A scheduled reminder can be left on a cancelled or rescheduled appointment, in exactly two ways: it is
  created after the appointment was closed with nobody left to drop it, or a call stops between closing
  an appointment and dropping its reminders (`LosesRemindersExactly`, `CancelInsideBooking`).
- `src/lib/db/erasure.ts:33-34` says registering a table is the whole change needed. A registered model
  without an entry in the target table of `eraseContact` is skipped without an error
  (`RegisteredWithoutTarget`). A scope narrowed to a branch misses what other branches hold of the
  contact; the privacy service uses a scope without a branch (`BranchErasureComplete`).
- A turn that ends `escalated` does not always flag the conversation: not when an assignee guarded it
  (`FlagExactly`, `AssigneeIsNoLatch`). A turn already in flight when the flag is set may still answer: it
  is silent exactly if it started on a flagged or assigned conversation (`SilentByItsStart`). A `refused`
  turn promises a teammate and hands nothing over (`RefusalHandsNothingOver`).
- `src/lib/db/scoped-prisma.ts` keeps other tenants' rows out of every answer but one: a request can be
  refused because another tenant's row holds a unique key of what it writes. Sequences of requests are
  answered alike exactly when that happens alike (`KeyedNonInterference`); reads and deletions are never
  refused that way (`OthersNeverRefuseRest`), nor is anything under keys that contain the tenant columns
  (`InsideKeysNeverRefuse`).
- The three rate-limit stores agree exactly for rules that allow something: with a limit of zero,
  memory lets the first request of each window through (`AgreeOnlyWithAnAllowance`). The wait a refused
  caller is told covers the window in memory and the database, but need not when Redis reports it in
  whole seconds (`WaitingSufficesExactly`, `ReportedWaitMayFallShort`).

## Model

Lemmas that only spell one specification function out in plain terms, such as `TurnJobs.RowsWritten` or
`BookingRows.LinkedExactly`, stand beside the members below and have no row of their own.

| member | source | states |
|---|---|---|
| TurnJobs.JobStore.Enqueue | src/features/ai/repositories/turn-jobs.repository.ts:32-65 | only inbound contact messages with text left after trimming start a job, each error case exactly; one job per message is kept, a second enqueue returns the existing row unchanged, and a new row is queued for its organization and message with three attempts |
| TurnJobs.JobStore.Claim | src/lib/db/system-discovery.repository.ts:49-65 | takes the oldest row of the organization that is not locked, has an attempt left, and is queued or was claimed more than 300,000 ms ago, and writes nothing else; returns nothing exactly when there is no such row |
| TurnJobs.JobStore.Succeed | src/features/ai/repositories/turn-jobs.repository.ts:94-99 | links the run and clears lease and error of a running row, and changes no other row |
| TurnJobs.JobStore.Fail | src/features/ai/repositories/turn-jobs.repository.ts:101-111 | requeues or fails a running row by its attempts, with the error cut to a thousand characters |
| TurnJobs.JobStore.ProcessNext | src/workflows/ai-turn.worker.ts:13-42 | one undisturbed worker turn: the provider is called exactly when no run carries the job's id, the job always leaves `running`, and it is retried only while attempts are left |
| TurnProtocol.StepKeepsConsistent | src/workflows/ai-turn.worker.ts:13-42 | every step of any worker keeps the invariant: claims count attempts, successes are linked, claims carry distinct tickets, calls are counted, one job per message |
| TurnProtocol.RunKeepsConsistent | src/workflows/ai-turn.worker.ts:13-42 | the invariant in every run, crashes and expired leases included |
| TurnRefinement.TurnIsRun | src/workflows/ai-turn.worker.ts:13-42 | an undisturbed turn, however the engine ends, is a run of the protocol's single steps: one claim, a provider call exactly without an earlier run, and the row ended as that engine ended |
| TurnGuarantees.FinalForever | src/features/ai/repositories/turn-jobs.repository.ts:94-111 | `succeeded` and `failed` rows never change again, in any run |
| TurnGuarantees.SucceededIsLinked | src/workflows/ai-turn.worker.ts:20-34 | in every run a succeeded job names its own id as its run, and that run row exists |
| TurnGuarantees.CallsBounded | src/lib/db/system-discovery.repository.ts:49-65 | in every run: provider calls of a job at most its claims, claims equal its attempts, attempts at most the maximum |
| TurnGuarantees.FoundRunNeverCalls | src/workflows/ai-turn.worker.ts:24-27 | a worker whose lookup finds the run never calls the provider under that claim, whatever happens later |
| TurnGuarantees.LaterClaimsNeverCall | src/workflows/ai-turn.worker.ts:20-34 | once the run row exists, no later claim of the job ever calls the provider |
| TurnGuarantees.StepRemaining | src/lib/db/system-discovery.repository.ts:51-57 | each claim lowers the attempts left in the whole table by one; no other step but enqueueing changes them |
| TurnGuarantees.ClaimsRunOut | src/lib/db/system-discovery.repository.ts:49-65 | in every run the claims are at most three per enqueued job |
| TurnStalls.ChangesExactlyUnlessStuck | src/lib/db/system-discovery.repository.ts:49-65 | in every reachable state a job row can still change exactly when it is neither final nor stuck: out of attempts and queued, or out of attempts and running without a holder |
| TurnGuarantees.LastAttemptCrashStays | src/lib/db/system-discovery.repository.ts:56-57 | a crash under the last attempt is never resolved: the row stays `running` in every continuation |
| TurnLeases.LeasedSafety | src/lib/db/system-discovery.repository.ts:49-65 | when nobody acts after its lease, at most one live worker holds a job and every queued job has an attempt left, in every run |
| TurnLeases.LeasedCallsPrecedeRun | src/workflows/ai-turn.worker.ts:20-34 | in every leased run the provider is only called while the job has no run row, and writing the run never meets an existing one |
| TurnLeases.LeasedInputFound | src/features/ai/repositories/turn-jobs.repository.ts:82-92 | in every leased run a live worker whose lookup found no run always finds its input |
| TurnLeases.InputLostExactly | src/features/ai/repositories/turn-jobs.repository.ts:82-92 | in any run, a worker loses its input exactly when another holder of the job ends it first |
| TurnLeases.CrossedExactly | src/workflows/ai-turn.worker.ts:20-33 | a worker between its vain lookup and its call comes to stand over an existing run exactly when another worker writes the run of the same job |
| TurnLeases.SecondCallExactly | src/workflows/ai-turn.worker.ts:20-33 | in any run, the provider is called over an existing run exactly when another worker wrote that run between this claim's vain lookup and its call |
| TurnLeases.CrossingOutlivesLease | src/workflows/ai-turn.worker.ts:20-33 | while everyone has acted within its lease, such a crossing means one of the two has outlived its own |
| TurnLeases.OnlyStaleRequeueStrands | src/features/ai/repositories/turn-jobs.repository.ts:101-111 | in any run, a step leaves a queued job without attempts exactly when it is a requeue decided from an outdated count |
| TurnLeases.SlowFailureStrandsJob | src/features/ai/repositories/turn-jobs.repository.ts:101-111 | a reachable state with a queued job that has no attempt left |
| TurnLeases.SlowWorkerCallsTwice | src/workflows/ai-turn.worker.ts:20-33 | a reachable state in which a slow worker is about to call the provider over an existing run |
| CacheKeys.FamiliesMeetExactly | src/lib/cache.ts:5-76 | two different keys of a namespace share a name exactly when one is the fallback of an identifier that is the other's name, or they are the namespace counter and the counter of the empty identifier |
| CacheKeys.PlainWithoutColon | src/lib/cache.ts:66-76 | an identifier without a colon is safe exactly when it is neither empty nor the namespace counter's name |
| CacheKeys.PlainWithColon | src/lib/cache.ts:32-32 | an identifier with colons is safe unless what follows the last one could end a body's or a counter's name |
| CacheKeys.NamesApart | src/lib/cache.ts:5-32 | over identifiers that are the name of no body and no counter, different bodies, fallbacks and counters never share a key |
| CacheKeys.TenantsApart | src/lib/cache.ts:5-15 | two organizations share a key exactly when the kept parts of their digests are equal and so are the names |
| CacheKeys.FamiliesCollide | src/lib/cache.ts:66-76 | each of those ways to share a key, at an input |
| CacheProtocol.StepKeepsSound | src/lib/cache.ts:17-64 | every step keeps the load of every cached body no older than both generations it is stored under |
| CacheProtocol.ReadsAreFresh | src/lib/cache.ts:17-64 | a read that begins after an invalidation of its namespace or identifier never returns a body whose load began before it, in every interleaving of slow loaders, other invalidations, expiries and Redis failures |
| CacheProtocol.LoadsBeganBefore | src/lib/cache.ts:39-49 | in every run, whatever is cached, loading or returned began its load by now |
| CacheProtocol.LostInvalidationIsStale | src/lib/cache.ts:61-63 | when the increment fails and is swallowed, the next read can return a body whose load began before the write |
| TenantCache.Cache.GetOrLoad | src/lib/cache.ts:17-50 | exactly when the loader is called, what is returned, and what is stored under which key, for every combination of Redis failures; without one, whatever is returned stays under the name made of the identifier and both generations |
| TenantCache.Cache.Invalidate | src/lib/cache.ts:52-64 | increments one counter and changes nothing else; nothing at all without Redis or on an error |
| TenantCache.HealthyMissIsKept | src/lib/cache.ts:28-44 | what a miss loads while Redis works is stored under the generations it read, every counter is as before, and the next such request finds it |
| TenantCache.StepMirrors | src/lib/cache.ts:17-64 | over identifiers that name no body and no counter, every step on the string-keyed store, failures and expiries included, is the protocol's step and reads the same |
| TenantCache.StoredReadsAreFresh | src/lib/cache.ts:17-64 | freshness of every interleaving on the string-keyed store over identifiers that name no body and no counter |
| TenantCache.RequestIsRun | src/lib/cache.ts:17-50 | a whole request with any faults is a run of single steps with the value and store `GetOrLoad` gives |
| TenantCache.StoreRepresents | src/lib/cache.ts:42-44 | storing into the string-keyed store is the protocol's store step |
| TenantCache.InvalidateRepresents | src/lib/cache.ts:60-60 | incrementing a string-keyed counter is the protocol's invalidation |
| LocalTime.ZonedDateTimeToUtc | src/features/appointments/services/timezone.ts:27-63 | the two-pass loop and the round-trip check; an unknown zone, date or clock field is refused |
| LocalTime.PartsOfWall | src/features/appointments/services/timezone.ts:65-84 | calendar fields come back from a wall time exactly when they are clock fields |
| LocalTime.ClockReads | src/features/appointments/services/timezone.ts:65-84 | the fields a zone shows at an instant, and the local date, in plain milliseconds |
| LocalTime.WeekdaysFollow | src/features/appointments/services/timezone.ts:23-25 | 1970-01-01 is a Thursday, each day has the weekday after the one before, with period seven |
| ZoneConversion.ConvertsExactlyShown | src/features/appointments/services/timezone.ts:37-63 | with at most one offset change in reach, the conversion succeeds exactly when some instant shows the local time |
| ZoneConversion.ConvertsBack | src/features/appointments/services/timezone.ts:51-62 | what is returned shows exactly the requested local date and time |
| ZoneConversion.ChoosesByWall | src/features/appointments/services/timezone.ts:35-49 | which of two instants showing the same wall time is chosen |
| ZoneConversion.ConvertsInOrder | src/features/appointments/services/timezone.ts:27-63 | later wall times convert to later instants, across a change too |
| ZoneConversion.ConvertsExactlyWhenSettled | src/features/appointments/services/timezone.ts:34-62 | for any whole-minute zone and any number of changes, the conversion succeeds exactly when the fields are clock fields and the second correction lands where its own offset is in force |
| ZoneConversion.RefusedThoughShown | src/features/appointments/services/timezone.ts:37-61 | exactly when a local time the zone does show is refused |
| Availability.SlotsForResource | src/features/appointments/services/availability.ts:90-132 | nothing exactly for want of a rule of the weekday; otherwise the first such rule, wherever it stands, opens in order exactly the free cells between its hours and minutes, or one of its conversions fails |
| Availability.GridSlots | src/features/appointments/services/availability.ts:116-128 | the cursor loop yields the free cells of the grid |
| Availability.GroupByResource | src/features/appointments/services/availability.ts:61-71 | the busy map holds exactly each resource's rows, appointments and exceptions alike |
| Availability.ComputeSlots | src/features/appointments/services/availability.ts:38-88 | the answer of one day for the wanted resources, or the first conversion error |
| Availability.FailsExactly | src/features/appointments/services/availability.ts:73-87 | a day's answer fails exactly if the conversion for one of the resources does |
| Availability.AnswersExactly | src/features/appointments/services/availability.ts:73-87 | otherwise it lists every resource, in order, with its own slots |
| Availability.FreeCellsExact | src/features/appointments/services/availability.ts:116-136 | exactly the duration-grid cells inside the window that overlap nothing busy |
| Availability.FreeCellsApart | src/features/appointments/services/availability.ts:116-128 | slots come in increasing order and never overlap |
| SlotGuarantees.FirstRuleIn | src/features/appointments/services/availability.ts:98-100 | the rule used is the first of that weekday |
| SlotGuarantees.LoadedRowsDecide | src/features/appointments/services/availability.ts:54-59 | inside the loaded range the loaded rows decide the same as all rows |
| SlotGuarantees.DayLoadSuffices | src/features/appointments/services/availability.ts:47-59 | loading only rows that meet the local day gives the same slots as loading every row |
| SlotGuarantees.OfferedIsFree | src/features/appointments/services/availability.ts:38-88 | an offered slot is one service long, belongs to a listed resource and overlaps no row of it at all |
| SlotGuarantees.OfferedOnItsDay | src/features/appointments/services/availability.ts:105-128 | unless the clocks go back in opening hours, a slot starts on the local day it is offered on |
| Recurrence.ExpandRecurrence | src/features/appointments/services/recurrence.ts:37-55 | the expansion loop: at most twenty occurrences, at most the count or ten, a whole number of days or weeks apart in milliseconds, none past the bound and its whole day, and fewer only because the next would be past it |
| Recurrence.ExpansionHolds | src/features/appointments/services/recurrence.ts:37-84 | occurrences are spaced by the step, within the bound, and stop only at the bound or the maximum |
| Recurrence.ExpansionExact | src/features/appointments/services/recurrence.ts:46-52 | with a positive interval, exactly the allowed indices whose time is within the bound |
| BookingRows.InsertExactly | prisma/migrations/20260802034500_constraints/migration.sql:79-85 | a row is refused exactly when it ends by its start, or overlaps a booked or confirmed row of its resource |
| Bookings.InsertKeepsActive | prisma/migrations/20260802034500_constraints/migration.sql:79-85 | an accepted insert keeps booked and confirmed rows of a resource apart |
| Bookings.InsertKeepsBlocking | src/features/appointments/repositories/bookings.repository.ts:34-51 | an accepted insert keeps all rows availability counts as busy apart exactly when it does not land on a rescheduled, completed or no-show row |
| AppointmentEngine.AppointmentStore.InsertRow | src/features/appointments/repositories/bookings.repository.ts:53-94 | the insert and its refusal by the exclusion constraint |
| AppointmentEngine.AppointmentStore.Book | src/features/appointments/services/appointments.service.ts:151-221 | the whole new state and result of a booking, series and reminders included, with every failure |
| AppointmentEngine.AppointmentStore.BookEach | src/features/appointments/services/appointments.service.ts:203-218 | children are booked one by one and what was booked stays on a failure |
| AppointmentEngine.AppointmentStore.Cancel | src/features/appointments/services/appointments.service.ts:223-230 | the whole new state of a cancellation and its two refusals |
| AppointmentEngine.AppointmentStore.Reschedule | src/features/appointments/services/appointments.service.ts:232-281 | the whole new state of a reschedule at every point where it can stop |
| AppointmentEngine.AppointmentStore.RecordDelivery | src/features/appointments/repositories/bookings.repository.ts:172-177 | only a reminder still scheduled changes |
| BookingRows.BlockingExactly | src/features/appointments/repositories/bookings.repository.ts:34-51 | what a day's availability counts for a branch: its rows of any status but cancelled |
| BookingRows.VerdictExactly | src/features/appointments/services/appointments.service.ts:165-180 | the availability check passes exactly for a cell of the start's local day that overlaps no exception and no row that is not cancelled of its resource |
| BookingRows.OpenCellExactly | src/features/appointments/services/availability.ts:98-128 | such a cell, for the first rule of the weekday: a whole number of its lengths after the opening, over by the closing |
| BookingRows.BookedFields | src/features/appointments/services/appointments.service.ts:182-192 | the row of a successful booking, column by column, with its end in milliseconds |
| BookingRows.BookedSeries | src/features/appointments/services/appointments.service.ts:203-218 | every further row of it: the same but for a start a whole number of days or weeks later and the link to the first |
| BookingRows.RescheduledFields | src/features/appointments/services/appointments.service.ts:259-280 | the row a finished reschedule adds, column by column, and that no row but the original changes |
| BookingRows.CancelledExactly | src/features/appointments/services/appointments.service.ts:223-230 | a cancellation of any row, confirmed ones included: its two refusals, the row and its scheduled reminders, and nothing else |
| BookingRefinement.BookIsRun | src/features/appointments/services/appointments.service.ts:182-221 | a booking whose check passed is a run of its single writes, wherever it stops |
| BookingRefinement.CancelIsRun | src/features/appointments/services/appointments.service.ts:223-230 | a cancellation is a run of its two writes |
| BookingRefinement.RescheduleIsRun | src/features/appointments/services/appointments.service.ts:259-281 | a reschedule whose check passed is a run of its single writes, wherever it stops |
| BookingGuarantees.CallsKeepHealthy | src/features/appointments/services/appointments.service.ts:151-281 | after any sequence of calls, failed ones included: booked and confirmed rows apart, every row in its resource's branch, every scheduled reminder on an appointment neither cancelled nor rescheduled |
| BookingGuarantees.CallsSettleReminders | src/features/appointments/repositories/bookings.repository.ts:127-177 | over any sequence of calls a reminder leaves `scheduled` at most once and never changes otherwise |
| BookingConflicts.FreeMeansApart | src/features/appointments/services/appointments.service.ts:165-180 | after a free verdict the new row overlaps no row of its resource that is not cancelled |
| BookingConflicts.FreeNeverRefused | src/features/appointments/services/appointments.service.ts:165-192 | with a single writer an insert after a free verdict is never refused |
| BookingConflicts.OfferedIsBookable | src/features/appointments/services/appointments.service.ts:117-192 | a slot offered on its own local day is accepted by an immediate booking |
| BookingConflicts.OfferBookableExactly | src/features/appointments/services/appointments.service.ts:117-192 | an offered slot is accepted by an immediate booking exactly when it is also an open cell of the same resource on the local day its start falls on |
| BookingConflicts.FreeVerdictExactly | src/features/appointments/services/appointments.service.ts:165-180 | for a slot nothing occupies, the availability check passes exactly for an open cell of the start's local day |
| BookingConflicts.FallBackOfferRefused | src/features/appointments/services/appointments.service.ts:166-180 | in any zone whose clocks go back from 00:01 to 23:01, a slot offered for the new day is refused by an immediate booking |
| BookingConflicts.BookedExactly | src/features/appointments/services/appointments.service.ts:151-221 | when exactly a booking succeeds, and that it then adds its row, one linked child an occurrence, its reminders and nothing else |
| BookingConflicts.RemindersExactly | src/features/appointments/services/appointments.service.ts:194-200 | reminders 24 hours and one hour ahead, each exactly when its moment is still to come |
| BookingConflicts.CancelUndoesBooking | src/features/appointments/services/appointments.service.ts:223-230 | cancelling a single booking restores every availability verdict and every acceptance by the constraint, drops its reminders, and refuses a second cancellation |
| BookingConflicts.RescheduledExactly | src/features/appointments/services/appointments.service.ts:259-280 | a finished reschedule closes the original and its reminders, links the replacement, announces it, and changes no other row |
| BookingConflicts.SeriesBooksPrefix | src/features/appointments/services/appointments.service.ts:203-218 | a series books a prefix of its children, all of them or those before the first refusal, and nothing else changes |
| BookingConflicts.BookTakes | src/features/appointments/services/appointments.service.ts:182-218 | a booking inserts exactly the planned rows the constraint accepts before its first refusal, and succeeds exactly when that is all of them |
| BookingConflicts.BookKeepsBlocking | src/features/appointments/services/appointments.service.ts:151-221 | a booking keeps all busy rows apart exactly when none of the rows it plans and the constraint accepts lands on one the constraint ignores; for a booking that succeeds, none of the planned rows |
| BookingConflicts.SingleBookingKeepsBlocking | src/features/appointments/services/appointments.service.ts:165-192 | a booking without recurrence always keeps all busy rows apart |
| BookingConflicts.RescheduleKeepsBlocking | src/features/appointments/services/appointments.service.ts:232-281 | an undisturbed reschedule keeps all busy rows apart, the original still counting |
| BookingConflicts.SeriesLandsOnRescheduled | src/features/appointments/services/appointments.service.ts:203-218 | a weekly series is accepted although a child overlaps a rescheduled row that still blocks availability |
| BookingConflicts.SecondRescheduleLeavesRow | src/features/appointments/services/appointments.service.ts:259-280 | a reschedule fails after booking exactly when the original is already linked, and then leaves the extra row and nothing else |
| BookingInterleavings.RunKeepsSafe | src/features/appointments/services/appointments.service.ts:151-281 | in every interleaving of single writes, stops included: booked and confirmed rows apart, rows in their resource's branch, no original replaced twice |
| BookingInterleavings.OnlyTwoWaysToOverlap | src/features/appointments/repositories/bookings.repository.ts:34-125 | in every interleaving busy rows come to overlap exactly when an insert lands on an unguarded row or a reschedule revives a cancelled one |
| BookingInterleavings.RescheduleRevives | src/features/appointments/services/appointments.service.ts:223-281 | from any tables with a booked appointment that can be rescheduled, a run on which marking a cancelled original puts it back on top of a new booking |
| BookingInterleavings.MarkingBlocks | src/features/appointments/repositories/bookings.repository.ts:116-125 | marking an original rescheduled keeps busy rows apart exactly when it does not revive a cancelled row onto another |
| BookingInterleavings.RunSettlesReminders | src/features/appointments/repositories/bookings.repository.ts:127-177 | in every interleaving a reminder leaves `scheduled` at most once |
| BookingInterleavings.LosesRemindersExactly | src/features/appointments/services/appointments.service.ts:182-280 | a step leaves a scheduled reminder on a closed appointment with nobody to drop it exactly when it adds one to a closed appointment or stops the last call that would drop it |
| BookingInterleavings.RemindersAccounted | src/features/appointments/services/appointments.service.ts:151-281 | over any interleaving scheduled reminders stay accounted for throughout exactly when no such step occurs; with nothing pending they are then on open appointments only |
| BookingChecks.CheckedMeetsOnlyNewer | src/features/appointments/services/appointments.service.ts:165-192 | however late a row is inserted after its check, it overlaps only rows written since, or cancelled then and revived |
| BookingInterleavings.CancelInsideBooking | src/features/appointments/services/appointments.service.ts:182-230 | from any tables on which a booking can start, a cancellation between its insert and its reminders leaves them scheduled on the cancelled row with nothing left to drop them |
| TenantScope.Classify | src/lib/db/scope.ts:31-55 | each model is branch-scoped, organization-scoped and soft-deletable exactly by its fields, exempt models never scoped |
| TenantScope.ScopedClient.AllOperations | src/lib/db/scoped-prisma.ts:70-120 | the step-by-step rewriting does what the rewriting function says, then the query, or refuses and changes nothing |
| TenantAnswers.SelectedExactly | src/lib/db/scoped-prisma.ts:91-105 | the rewritten predicate selects exactly the tenant's rows that match the caller's and are not deleted, or deleted ones too when asked for |
| TenantAnswers.FilteringExactly | src/lib/db/scoped-prisma.ts:91-105 | every operation that selects: what it answers and what it leaves, computed from exactly those rows in table order, every other row in its place |
| TenantAnswers.CreatedExactly | src/lib/db/scoped-prisma.ts:107-141 | a creation appends what the caller gave with the scope's own columns over it, and nothing else over it |
| TenantIsolation.NarrowedInTenant | src/lib/db/scoped-prisma.ts:91-105 | whatever predicate the caller passes, the rewritten one selects only the tenant's rows |
| TenantIsolation.NarrowedHidesDeleted | src/lib/db/scoped-prisma.ts:160-162 | soft-deleted rows are hidden unless asked for, and the caller's predicate still holds |
| TenantIsolation.AnswersComeFromTenant | src/lib/db/scoped-prisma.ts:91-105 | everything a filtering request answers is computed from rows of the tenant that match the caller's predicate |
| TenantIsolation.ForeignRowsSurvive | src/lib/db/scoped-prisma.ts:70-120 | no row of another tenant is changed or deleted by any request |
| TenantIsolation.CreatedRowsCarryScope | src/lib/db/scoped-prisma.ts:107-141 | every created row carries the scope's organization and branch, and a missing branch is refused exactly on branch-scoped models |
| TenantKeys.KeyedExactly | src/lib/db/scoped-prisma.ts:70-120 | a table respects its unique keys exactly when no two of its rows agree on all columns of one, null agreeing with nothing |
| TenantKeys.AnsweredAlikeExactly | src/lib/db/scoped-prisma.ts:70-120 | a request is answered alike on databases that agree on the tenant's rows exactly when, in both or in neither, another tenant's row holds a unique key of what the request would make of the tenant's own rows |
| TenantKeys.KeyedNonInterference | src/lib/db/scoped-prisma.ts:70-120 | under any unique keys, databases that agree on the tenant's rows answer a whole sequence of requests identically exactly when others' keys hinder both alike all along |
| TenantKeys.CreationRefusedExactly | src/lib/db/scoped-prisma.ts:107-117 | a creation fine among the tenant's rows is refused by others exactly when a created row has a unique key another tenant's row holds |
| TenantKeys.RefusedExactly | src/lib/db/scoped-prisma.ts:70-120 | the unique keys refuse an operation exactly when its result on the tenant's own rows breaks them or another tenant's row holds a key of that result |
| TenantKeys.UpdateRefusedExactly | src/lib/db/scoped-prisma.ts:91-105 | an update fine among the tenant's rows is refused by others exactly when an updated row has a unique key another tenant's row holds |
| TenantKeys.OthersNeverRefuseRest | src/lib/db/scoped-prisma.ts:91-105 | other tenants' keys never refuse a read or a deletion |
| TenantKeys.InsideKeysNeverRefuse | src/lib/db/scoped-prisma.ts:70-120 | unique keys that contain the tenant columns never let other tenants' rows refuse a request that leaves those columns alone |
| TenantKeys.InsideNonInterference | src/lib/db/scoped-prisma.ts:70-120 | with unique keys that contain the tenant columns, requests that leave those columns alone are always answered identically on databases that agree on the tenant's rows |
| RateLimit.MemoryLimiter.Sweep | src/lib/rate-limit.ts:58-67 | exactly the expired buckets go, or all of them when too many are left |
| RateLimit.MemoryLimiter.Consume | src/lib/rate-limit.ts:75-104 | the decision and the new map, after an optional sweep; a request that opens a window leaves it ending 1000 ms a second later, and a refusal tells the least sufficient wait |
| RateLimit.DurableLimiter.Increment | src/lib/db/redis-rate-limit.ts:3-8 | the script counts up, and the first increment starts a window of 1000 ms a second |
| RateLimit.DurableLimiter.Upsert | src/lib/db/rate-limit.repository.ts:7-22 | the upsert opens a window of 1000 ms a second over an expired row and otherwise counts up to one past the limit |
| RateLimit.DurableLimiter.Consume | src/lib/rate-limit.ts:108-143 | the decision and both stores' new contents, whether Redis answers, loses its reply or never runs |
| RateLimitGuarantees.StoresAgree | src/lib/rate-limit.ts:75-143 | every ordered history gets the same decisions from memory and the database, and the same answer and allowance from Redis |
| RateLimitGuarantees.AgreeOnlyWithAnAllowance | src/lib/rate-limit.ts:84-87 | the stores agree on a first request exactly when the rule allows something |
| RateLimitGuarantees.SweepsChangeNothing | src/lib/rate-limit.ts:58-79 | sweeps anywhere in a history change no decision while the map is not over capacity |
| RateLimitGuarantees.OverflowForgives | src/lib/rate-limit.ts:63-66 | a sweep changes a decision exactly when the map is over capacity and the key had used up its window |
| RateLimitGuarantees.OpenedWindow | src/lib/rate-limit.ts:84-103 | after a request that opens a window, exactly the first `limit` requests before its reset are allowed |
| RateLimitGuarantees.WindowExact | src/lib/rate-limit.ts:84-143 | from any state, of the requests before the reset as many are allowed as the window has left |
| RateLimitGuarantees.SlidingBound | src/lib/rate-limit.ts:75-143 | from any state of any store, at most twice the limit in any interval of one window's length, both ends included |
| RateLimitGuarantees.RemainingIsKept | src/lib/rate-limit.ts:84-143 | what a caller is told remains is kept: exactly that many of the key's later requests pass before the reset, or all if fewer ask |
| RateLimitGuarantees.RetryAfterExact | src/lib/rate-limit.ts:139-141 | the wait reaches the reset, in whole seconds, at least one and none more than needed |
| RateLimitGuarantees.AllowedAgainExactly | src/lib/rate-limit.ts:75-143 | after a refusal by any of the three stores the key's next request passes exactly once the window is over |
| RateLimitGuarantees.WaitingSufficesExactly | src/lib/rate-limit.ts:84-142 | for any of the three stores, waiting as told is enough exactly when the wait told covers the rest of the window |
| RateLimitGuarantees.ComputedWaitSuffices | src/lib/rate-limit.ts:89-142 | the wait memory and the database compute always does |
| RateLimitGuarantees.ReportedWaitMayFallShort | src/lib/db/redis-rate-limit.ts:5-20 | Redis may report a wait that does not, and the caller is refused again |
| RateLimitGuarantees.SlidingBoundIsMet | src/lib/rate-limit.ts:75-143 | a history on which any store allows twice the limit in one window's length |
| RateLimitGuarantees.SharesAdd | src/lib/rate-limit.ts:116-142 | the durable limiter allows what Redis and the database each allow of the calls they count, and no more when replies are lost |
| RateLimitGuarantees.OutagesAtMostDouble | src/lib/rate-limit.ts:116-142 | whatever the pattern of Redis outages and lost replies, at most four limits in one window's length, and two when there is no switch |
| RateLimitGuarantees.OutageBoundIsMet | src/lib/rate-limit.ts:116-142 | a history with outages on which four limits are allowed in one window's length |
| Erasure.BuildData | src/lib/db/erasure.ts:237-261 | the data of one redaction, an error exactly when a per-row value is wanted without a row |
| Erasure.Redact | src/lib/db/erasure.ts:169-221 | one registry entry: nothing for no targets, row by row for per-row values, one update otherwise, with its count |
| Erasure.RedactAll | src/lib/db/erasure.ts:169-221 | the registry loop, ended by the unique index on phone numbers |
| Erasure.EraseContact | src/lib/db/erasure.ts:124-225 | the whole new state and counts of an erasure, or every table as it was |
| ErasureGuarantees.ErasesExactlyReached | src/lib/db/erasure.ts:124-225 | for any sound registry: exactly the rows reachable from the contact are redacted, soft-deleted ones included, counts are exact, every other row and model is untouched |
| ErasureGuarantees.ErasesAsGathered | src/lib/db/erasure.ts:131-221 | when rows are written between gathering the targets and the updates, exactly the rows reachable through what had been gathered are redacted |
| ErasureGuarantees.RedactedColumns | src/lib/db/erasure.ts:237-261 | a redacted row holds each replacement and the stamp, and every other column as before |
| ErasureGuarantees.ReachedRowsArePurged | src/lib/db/erasure.ts:62-106 | after an erasure no reachable contact, conversation, message, attachment, transcription or note holds a personal column |
| ErasureGuarantees.HitIsReached | src/lib/db/erasure.ts:143-186 | the gathered ids and the per-model match columns hit exactly the rows reachable through conversations and messages |
| ErasureGuarantees.RegisteredWithoutTarget | src/lib/db/erasure.ts:160-175 | a registered model without a target entry is skipped with a count of zero |
| ErasureGuarantees.PlaceholderDecides | src/lib/db/erasure.ts:63-71 | redacting a contact breaks the unique index exactly when another contact holds its placeholder |
| ErasureGuarantees.ErasureOutcome | src/lib/db/erasure.ts:131-141 | an erasure fails exactly when the tenant has no such contact or its placeholder is taken |
| ErasureGuarantees.ErasuresNeverCollide | src/lib/db/erasure.ts:37-44 | any sequence of erasures: each succeeds exactly when its tenant has the contact, the index refuses none, and phone numbers stay unique |
| ErasureGuarantees.BranchErasureComplete | src/lib/db/erasure.ts:128-158 | a branch scope reaches everything of the contact exactly when all of it that carries a branch is in that branch |
| TurnEngine.SanitizeReply | src/features/ai/services/guardrails.ts:63-70 | a sanitized reply is the redacted text without the white space around it, cut to a thousand characters |
| Whitespace.TrimmedIsMiddle | src/features/ai/services/guardrails.ts:68-68 | trimming leaves exactly the stretch with nothing but white space around it that neither begins nor ends with any |
| TurnEngine.DraftReplyWithRetry | src/features/ai/services/provider-execution.ts:24-44 | the retry loop returns the first usable draft or the last complaint, and how many drafts were asked for |
| TurnEngine.AiEngine.Judge | src/features/ai/services/ai-engine.service.ts:162-201 | reply, outcome and token counts of a drafted turn, case by case: the sanitized holding reply, the refusal or the sanitized draft, and the holding reply over budget |
| TurnEngine.AiEngine.RunTurn | src/features/ai/services/ai-engine.service.ts:87-269 | result, provider calls, flag and run row of a turn with recording that may fail; for each case the very reply (empty, the holding reply, its sanitized form, the refusal, the sanitized draft), the tokens of prompt and reply, and that the run row carries them |
| TurnEngineGuarantees.RetriesStopAtFirstUsable | src/features/ai/services/provider-execution.ts:32-42 | a reply is the first usable draft with none asked for after it; giving up means all were unusable, with the last one's error |
| TurnEngineGuarantees.FailsAfterThree | src/features/ai/services/provider-execution.ts:3-42 | a turn fails exactly when three drafts in a row are unusable, and never asks for a fourth |
| TurnEngineGuarantees.CostWithinTokens | src/features/ai/services/guardrails.ts:36-44 | a short reply within a token ceiling costs at most three micro-dollars a token plus three thousand |
| TurnEngineGuarantees.CostGateNeverDecides | src/features/ai/services/guardrails.ts:47-52 | a drafted turn is over budget exactly when it is over the token ceiling, and otherwise costs at most 27,000 micro-dollars, a bound that is reached (`CostBoundIsMet`) |
| TurnEngineGuarantees.OutcomesExactly | src/features/ai/services/ai-engine.service.ts:97-201 | when exactly a turn answers, refuses or fails, with the source's own limits; every reply is short and an answer is the sanitized draft |
| TurnEngineGuarantees.FlagExactly | src/features/ai/services/ai-engine.service.ts:97-205 | after a turn the flag is set exactly if it was before, or the turn ended escalated or failed with nobody assigned |
| TurnEngineGuarantees.LatchHolds | src/features/ai/services/ai-engine.service.ts:97-107 | over any steps without a clearing, the flag stays set and every turn started since has read it set |
| TurnEngineGuarantees.SilentUntilCleared | src/features/ai/services/ai-engine.service.ts:97-107 | after a turn nobody was assigned to ends escalated or failed, every turn started later has an empty reply, outcome escalated and no drafting, until someone clears the flag, over any interleaving of turns and people |
| TurnEngineGuarantees.SilentByItsStart | src/features/ai/services/ai-engine.service.ts:91-107 | over any run a turn is silent exactly when the conversation was flagged or assigned at the moment it started, whatever happened before it ended |
| TurnEngineGuarantees.CrossingTurnStillAnswers | src/features/ai/services/ai-engine.service.ts:91-205 | a schedule on which a turn in flight answers after another one escalated the conversation |
| DailySeries.CollapseToDay | src/features/analytics/repositories/analytics-revenue.repository.ts:66-82 | one point for each day that has dated rows, in order of first appearance, with that day's sum |
| DailySeries.FillDailySeries | src/features/analytics/services/analytics-math.ts:28-50 | one entry for each consecutive UTC day of 86,400,000 ms of the range, with the last point of that day or zero |
| DailySeries.AmountIsLast | src/features/analytics/services/analytics-math.ts:36-38 | of several points of a day the last stands for it |
| DailySeries.DaysInExact | src/features/analytics/repositories/analytics-revenue.repository.ts:71-77 | the days are exactly those of dated rows, each once |
| DailySeries.DaysInOrder | src/features/analytics/repositories/analytics-revenue.repository.ts:71-77 | they come in order of first appearance |
| DailySeries.CollapsedAmounts | src/features/analytics/repositories/analytics-revenue.repository.ts:66-82 | looked up by day, the collapsed series says what that day's rows add up to |
| DailySeries.Chart | src/features/analytics/services/analytics.service.ts:51-60 | collapsing then filling: one entry a day, each that day's sum, and a total equal to all rows the query selects |

## Left out

- Calendar dates and times as strings: local dates are day numbers and clock times are numbers, so padding and the parsing itself are not modelled; what does not parse, and an unknown zone name, arrive as nothing.
- Zones are arbitrary offset functions; no IANA table is part of this model. The comment at `src/features/appointments/services/timezone.ts:37-38` about all IANA transitions is therefore neither proved nor refuted: the conversion is right with one change in reach, and `ZoneConversion.RefusedThoughShown` says exactly what a zone must do for it to fail (`TwoChangesMiss` is an offset function that does). Historic offsets with seconds are outside the theorems.
- CacheKeys.TenantsApart: two organizations with equal digests are not excluded, because the digest is any function.
- Redis evicting a generation counter, and JSON encoding of cached bodies. Expiry of bodies is modelled.
- RateLimitGuarantees.StoresAgree: compares only the answer and the allowance of Redis, because Redis rounds the time a key has left; what it reports is a parameter.
- Redis keys of the limiter are taken to vanish exactly when their window ends, and the clock never to go back.
- The polling loop of the worker and its list of at most fifty organizations; which organization is polled when is arbitrary in the protocol.
- TurnJobs.JobStore.Claim: rows locked by other claims are a parameter, and ties of the creation time are broken arbitrarily, as the query leaves them.
- Nested relation reads and writes, and raw SQL, are not rewritten by the scoped client and not modelled; neither are column types and foreign keys.
- TenantIsolation.NonInterference: leaves unique keys out and is a step towards `TenantKeys.KeyedNonInterference`, which has them.
- Updates of another tenant's future rows: an update may write any column of the tenant's own rows, the organization included; what is proved is that no other tenant's existing row changes.
- Soft-deleted appointments: no modelled call deletes one.
- Recurrence rules as text: the rule arrives parsed, and a bound that is not a date counts as no bound. Intervals are whole numbers.
- BookingInterleavings.RunKeepsSafe: a booking may enter whatever its check read, which only allows more runs (`BookingChecks` says what a check still rules out); cancelled and rescheduled marks are single writes as in the code.
- A Prisma error that is neither the exclusion constraint nor the unique link ends a call like any other stop.
- Erasure.EraseContact: nothing is written by others during the transaction (`ErasureGuarantees.ErasesAsGathered` says what happens if something is) and its stamps share one moment; a model name without a delegate is excluded by asking that the schema knows every registered model.
- Regular expressions of the guard rails: whether they match, and what the replacements give, are parameters.
- Text lengths count characters where the source counts UTF-16 units, so budgets differ for characters outside the basic plane.
- Money in micro-dollars and minor units instead of floating point; latency and the citations of a run.
- Classification, retrieval, memory and prompt rendering of a turn: their results are parameters of the turn.
- Percentages and formatting in the analytics; years beyond four digits, where the day key of a date would be cut differently.
- User interface, sessions, permissions, e-mail, storage, encryption and the other workers: no state machine of their own that a harder property here needs.
