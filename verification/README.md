# Shiden and swarmforge, verified

Shiden collects day-ahead electricity prices, exchange rates and generation
data into layered tables (Bronze as observed, Silver reconciled, Gold for
readers), derives battery signals from them and serves them over a rate-limited
API. Swarmforge, in the same repository, lets several agents hand work to each
other through files in inboxes and outboxes. This project models the parts of
both whose correctness the code itself decides, and proves what they are for.

Check everything with `dafny verify dfyconfig.toml`.

## What is modelled

- **Battery signals** (`BessSignals`, `ArbitrageWindows`). The signal rule is
  written twice in the repository, as a stable sort in Python and as two window
  ranks in Spark. Both give every slot the same signal, on every day and for
  every pair of slot counts, and the slots chosen are an optimal trade. The
  windows the API publishes stand for maximal runs of one signal.
- **The time axis** (`Calendar`, `TimeAxis`, `DeliveryKeys`, `DeliveryDays`). A zone is any list
  of transitions far enough apart; local time is converted as PEP 495 (section
  "Guidelines for New tzinfo Implementations") prescribes for `fold=0`. Rows of
  a date range are the UTC grid, each under its own date. One slot is fifteen
  minutes; instants and wall-clock readings count slots.
- **The rate limiter** (`RateLimiter`). Calls are atomic under the lock, but
  each brings a clock reading taken before it, so readings may be out of order.
- **Stores** (`Bronze`, `ProductionTypes`, `ExchangeRates`, `GoldBackfill`).
  Append with revision capture, keyed merge, range overwrite, forward-filled
  exchange rates, and the month-by-month backfill.
- **Handoffs**. `HandoffText` and `HandoffReaders` have the file format, its
  printer, parser, setters and readers, and `HandoffHeaders` says what decisions
  come down to in the headers. `HandoffProtocol` has the protocol as
  atomic steps of senders, daemon, operator and helpers on a tree of
  directories, and `HandoffFiles` the scripts moving file by file, proved to
  take those steps. `HandoffSafety`, `HandoffCards`, `HandoffJams`,
  `HandoffAccidents`, `HandoffContents` and `HandoffLedger` prove what holds
  over whole runs.

## Where the code and its promises differ

- **One task at a time.** A role that receives single tasks can end up with two
  in process: with nothing in process the send helper accepts any board task, so
  the master may have two handoffs held, and retrying both gives both back
  (`HandoffAccidents.TwoInProcess`, with handoffs as the send helper writes
  them). `RunIsSafeIff` gives the exact condition, step by step; `OneWorkIsSafe`
  and `OwnCardsAreSafe` give disciplines under which it always holds.
- **Getting stuck, and free.** A role is stuck on its current work when its
  completing helper refuses (`HandoffJams.JammedIff`). A second single task does
  that to a role for single tasks, and a single file to one for batches: the
  master, when it receives batches, is stuck after a single retry
  (`BatchMasterIsJammed`). Deleting an approval frees a stuck role if no jam
  remains without its task, and nothing else does (`StepJamsIff`,
  `JammedUntilDeleted`). But a deletion also jams: it can take the last file of
  a batch another role is working on, and no script removes the empty directory
  (`BatchEmptiedForGood`, `TroubleIsForever`). The same goes for a batch whose
  name a completed one has. `RunIsClearIff` lists the steps that jam.
- **Approval.** `with-approved` looks for its mark in the whole file. A handoff
  written by hand whose body has a line starting `approved: ` is held again
  after every approval (`ApprovalTakesIff`, `BodyCanBlockApproval`,
  `ApprovalReleasesIff`); the bodies the send helper generates have none.
- **The limiter is called exact** with one worker. With readings out of order
  it is so only for a limit of one (`WindowIsExactIff`); otherwise the window
  that is safe is shorter by the lag (`SkewedWindowBound`).
- **Newest observation.** A value that goes back to an earlier one is not shown
  (`ViewIsLatestFirstAppearance`, `RevertedValueStaysHidden`).
- **Chunked exchange rates** equal one run exactly when each month's first day
  is seeded (`ChunksAgreeIff`, `UnseededMonth`); gaps of at most fourteen days
  are enough.
- **Month slices** raise when a slice falls in December 9999
  (`GoldBackfill.MonthChunks`), and a date range that ends on the last date
  raises after its last element (`Calendar.DateRange`).
- **Midnight** is the border between two dates exactly when no transition
  carries the clock across it (`MidnightDividesDatesIff`). With transitions far
  apart, a skipped midnight leaves the keys of the axis unique, and a backward
  move over one does not (`KeysAreUniqueIff`).
- **Windows with a repeated hour.** The API sorts by a time_id that is not
  unique there; `WindowsDecodeIff` says when the windows still give the signals,
  and `RepeatedTimeIsMisread` has a day where they do not.

## Model

| member | source | states |
|---|---|---|
| BessSignals.RanksFollowOrder | src/shiden/processing/gold/gold_bess_signals.py:140-151 | in a day's price order (ties by time) slot k has ascending rank k+1, and its descending rank mirrors it although both windows put missing prices last |
| BessSignals.SignalFollowsOrder | src/shiden/processing/gold/gold_bess_signals.py:168-179 | the window rule gives a slot the signal its place in the price order earns, charging tested first |
| BessSignals.SortIsStable | src/shiden/processing/gold/gold_bess_signals.py:251-254 | sorting quotes by price alone leaves equal prices in time order and loses or adds none |
| BessSignals.AssignSignals | src/shiden/processing/gold/gold_bess_signals.py:224-262 | signals are -1, 0 and 1, and 0 without a price; whatever is cheaper (or as cheap and earlier) than a charged slot is charged, and dearer than a discharged one is discharged; their numbers are exact; and each is the window rule's signal |
| BessSignals.SignalStretches | src/shiden/processing/gold/gold_bess_signals.py:256-260 | the charged slots are the bottom stretch and the discharged ones the top stretch of the price order, with their exact lengths |
| BessSignals.CheapestSlots | src/shiden/processing/gold/gold_bess_signals.py:256-258 | no k priced slots cost less than the first k of the price order |
| BessSignals.DearestSlots | src/shiden/processing/gold/gold_bess_signals.py:259-260 | no choice of as many priced slots earns more than the last ones of the price order |
| BessSignals.OptimalArbitrage | src/shiden/processing/gold/gold_bess_signals.py:247-262 | exactly min(charge, priced) slots charge, min(discharge, rest) discharge, unpriced ones idle, and no other choice of those sizes earns more |
| ArbitrageWindows.GetArbitrageWindows | src/shiden/api/routers/bess.py:97-124 | the published windows are exactly those of the maximal runs of each signal, in order; on rows sorted by time_id they give the signals back iff rows sharing a time_id share the signal |
| ArbitrageWindows.TakeGroup | src/shiden/api/routers/bess.py:102-109 | a group runs to the next change of signal and averages the prices that are present |
| ArbitrageWindows.WindowsDecodeIff | src/shiden/api/routers/bess.py:92-124 | the windows give the day's signals back if and only if rows sharing a time_id share the signal |
| ArbitrageWindows.RepeatedTimeIsMisread | src/shiden/api/routers/bess.py:92-124 | two rows of one time_id of which one charges are misread from any windows published for them |
| ArbitrageWindows.SlotsAddUp | src/shiden/api/routers/bess.py:118 | the slot counts of the windows sum to the rows with their signal |
| ArbitrageWindows.SpanOfRun | src/shiden/api/routers/bess.py:113-118 | with distinct time_ids a window spans at least its slots, and exactly them iff the ids inside are consecutive |
| ArbitrageWindows.AverageWithin | src/shiden/api/routers/bess.py:107-109 | a window's average lies within any bounds of its prices, and is missing iff they all are |
| ArbitrageWindows.AverageIsMean | src/shiden/api/routers/bess.py:107-109 | the average is the mean of the prices present: of one row its price, and of two stretches the weighted mean of theirs |
| Calendar.OrdinalOrder | src/shiden/dates.py:13-18 | the civil order of dates is the order of their day numbers, injectively |
| Calendar.NextIsOneDayOn | src/shiden/dates.py:18 | the following civil date has the next day number |
| Calendar.IdOrder | src/shiden/dates.py:21-23 | the YYYYMMDD id is an order embedding of dates |
| Calendar.IdDigits | src/shiden/dates.py:21-23 | the digits of the id are the year, month and day |
| Calendar.ValidDates | src/shiden/dates.py:13-18 | the dates are those of the Gregorian calendar, years 1 to 9999 |
| Calendar.DateRange | src/shiden/dates.py:13-18 | the generator yields every date from start to end once, in order, and raises iff end is the last date there is |
| TimeAxis.SplitsAt | src/shiden/timeaxis.py:86-95 | a local reading no transition straddles separates the instants reading earlier from those reading at or after it |
| TimeAxis.StraddleBreaks | src/shiden/timeaxis.py:86-95 | a straddled reading puts some instant on the wrong side |
| TimeAxis.MidnightDividesDatesIff | src/shiden/timeaxis.py:86-95 | the midnight instant divides earlier from later dates iff no transition straddles that midnight |
| TimeAxis.EarliestReading | src/shiden/timeaxis.py:89-94 | of the instants that read a wall time the conversion takes the earliest |
| TimeAxis.DayIntervals | src/shiden/timeaxis.py:105-158 | the walk yields every slot between the two midnights, numbered from 1, with its local reading split into date, hour and quarter, hour start iff the reading is on the hour, peak iff its hour is, repeated iff its clock position occurred before |
| TimeAxis.DayOwnsItsDate | src/shiden/timeaxis.py:116-125 | on a day with unstraddled midnights the slots are exactly the instants with that local date |
| TimeAxis.SlotDrift | src/shiden/timeaxis.py:127-139 | clock position is interval number minus one plus what the offset has moved since midnight |
| TimeAxis.MakeRows | src/shiden/processing/silver/dimensions/dim_datetime.py:174-199 | the nested loop yields the days' axes one after another |
| TimeAxis.RowsAreTheGridIff | src/shiden/processing/silver/dimensions/dim_datetime.py:174-199 | the rows of a range are the whole UTC grid between its outer midnights, without gap, overlap or repeat, iff its midnights are in order |
| DeliveryKeys.FarMidnightsAscend | src/shiden/timeaxis.py:86-95 | with transitions far apart they always are |
| TimeAxis.RowBelongs | src/shiden/timeaxis.py:80-83 | every row carries its own local date and its number counted from that date's midnight |
| DeliveryKeys.KeysAreUniqueIff | src/shiden/processing/silver/fact_price.py:119-131 | with transitions far apart no two rows of a range share (local date, interval number) iff no transition carries the clock back over a midnight inside it |
| DeliveryKeys.JoinKeysAreUnique | src/shiden/processing/silver/fact_price.py:119-131 | no two rows share (date_id, interval number) or an instant, so the price join cannot merge two intervals, on such ranges and on all whose midnights no transition straddles |
| DeliveryKeys.DateIdSpells | src/shiden/timeaxis.py:80-83 | the date_id of a row spells the date its local reading falls on |
| TimeAxis.JoinFindsEveryInterval | src/shiden/processing/silver/fact_price.py:119-131 | every interval number of every day in range has its row, at the right instant |
| DeliveryKeys.CarriedBackCollides | src/shiden/timeaxis.py:86-95 | any transition that carries the clock back over a midnight inside the range makes two of its rows share a key |
| DeliveryKeys.SkippedNumbers | src/shiden/timeaxis.py:86-95 | where the clock skips a midnight, slots walked with the old date that read the new one are numbered past the new day's end |
| DeliveryDays.TransitionDay | src/shiden/timeaxis.py:98-102 | any transition of a zone makes a one-shift day when its effect lies within the day and its neighbours' without |
| DeliveryDays.QuietDay | src/shiden/timeaxis.py:98-102 | any day between the effects of two transitions has one offset and no shift |
| DeliveryDays.DayLength | src/shiden/timeaxis.py:98-102 | a day with one shift has 96 intervals less what the clock gains |
| DeliveryDays.PeakShift | src/shiden/timeaxis.py:161-171 | after an early shift of delta slots the peak is unbroken and its numbers move back by exactly delta |
| DeliveryDays.RepeatedSlots | src/shiden/timeaxis.py:145-149 | exactly the slots following a backward move, up to its length, are flagged repeated |
| DeliveryDays.RepeatFlagSeparates | src/shiden/timeaxis.py:145-154 | clock position and repeat flag identify a slot; clock positions coincide for exactly the repeated pairs |
| DeliveryDays.HourBucket | src/shiden/processing/gold/gold_price_hourly.py:76-99 | in a whole-hour zone all four quarters of a UTC hour lie in the day, share one label and hold one hour start |
| DeliveryDays.OneHourStart | src/shiden/processing/gold/gold_price_hourly.py:85-99 | in a whole-hour zone exactly one row of each UTC hour of a day is flagged as hour start, the one at its first instant, and it carries the date and hour of all four |
| DeliveryDays.HourlyRows | src/shiden/processing/gold/gold_price_hourly.py:72-83 | a day has as many UTC hours as it is long |
| DeliveryDays.GroupingByLabelMergesIff | src/shiden/processing/delta_io.py:155-176 | grouping on the local label would merge two delivery hours iff the day's clock repeats |
| DeliveryDays.MergesOnBackwardDaysOnly | src/shiden/processing/silver/fact_generation.py:150-171 | on a one-shift day that is iff the clock moves back |
| DeliveryDays.LabelConstantIff | src/shiden/processing/silver/fact_generation.py:157-165 | labels are constant within UTC hours iff the offset is a whole number of hours |
| RateLimiter.SlidingWindowLimiter.Check | src/shiden/api/auth/ratelimit.py:45-70 | one call pops the expired hits of its key, admits iff fewer than the limit are left, reports the exact slack, and touches no other key |
| RateLimiter.SlidingWindowLimiter.Reset | src/shiden/api/auth/ratelimit.py:72-78 | the limiter is as if the key had never called |
| RateLimiter.RetryAfterIsExact | src/shiden/api/auth/ratelimit.py:55-56 | a quiet refused key gets through after a wait iff so many of its oldest hits have expired that fewer than the limit remain: never more than a second before the advertised time, and always after it if it held no more than the limit |
| RateLimiter.DequeWithinLimit | src/shiden/api/auth/ratelimit.py:55-64 | a key whose limit never changes holds no more hits than its limit, in every interleaving |
| RateLimiter.RefusedIffWindowIsFull | src/shiden/api/auth/ratelimit.py:45-70 | with readings in lock order a request is refused iff the window ending with it holds as many admitted ones as the limit |
| RateLimiter.WithoutForgets | src/shiden/api/auth/ratelimit.py:72-78 | deleting a key's attempts from a run gives the deques of that run without the key |
| RateLimiter.DequeIsSuffix | src/shiden/api/auth/ratelimit.py:51-53 | the deque is a suffix of the admitted stamps and every dropped one had left the window, even with readings out of order |
| RateLimiter.DequeIsTheWindow | src/shiden/api/auth/ratelimit.py:50-55 | with readings in lock order the pruned deque is exactly the admitted history of the window |
| RateLimiter.SkewedWindowBound | src/shiden/api/auth/ratelimit.py:47-64 | if no reading lags an earlier-processed one by more than lag, every window of length W - lag holds at most limit admissions |
| RateLimiter.SingleSlotSpacing | src/shiden/api/auth/ratelimit.py:47-64 | with a limit of one, admissions are a full window apart however far readings lag |
| RateLimiter.SkewOvershoots | src/shiden/api/auth/ratelimit.py:47-64 | for every limit above one and every positive lag up to W a run admits limit + 1 within one window |
| RateLimiter.WindowIsExactIff | src/shiden/api/auth/ratelimit.py:3-17 | the documented exactness holds of every interleaving iff the lag is zero or the limit is one |
| Bronze.BronzeTable.AppendNewObservations | src/shiden/processing/delta_io.py:55-72 | the table grows by a suffix: the rows whose (key, value) is not stored, or the whole first batch |
| Bronze.NewRowIsNew | src/shiden/processing/delta_io.py:63-67 | a row of the batch is written iff its pair is not stored |
| Bronze.PairsStayDistinctIff | src/shiden/processing/delta_io.py:41-52 | one append keeps the stored pairs distinct iff the rows it writes are distinct among themselves |
| Bronze.PairsAreDistinct | src/shiden/processing/delta_io.py:41-52 | over any sequence of batches, one row per key in each, no (key, value) pair is stored twice |
| Bronze.ReingestIsNoOp | src/shiden/processing/delta_io.py:47-48 | fetching stored data again, with new lineage, writes nothing |
| Bronze.HistoryIsFirstAppearances | src/shiden/processing/delta_io.py:41-48 | over all batches a key's stored values are its observed ones in order of first appearance |
| Bronze.ViewIsLatestFirstAppearance | src/shiden/processing/delta_io.py:137-152 | the newest-row view shows the value whose first appearance is latest, which is the last observed one iff that one first appeared last |
| Bronze.RevisionIsShownIff | src/shiden/processing/delta_io.py:41-48 | one append makes its value the one shown iff it is new for the key or shown already |
| Bronze.RevertedValueStaysHidden | src/shiden/processing/delta_io.py:41-48 | of a value corrected and set back every newest-row view shows the correction |
| ProductionTypes.CanonicalIds | src/shiden/processing/silver/dimensions/dim_production_type.py:48-70 | the canonical names have exactly the ids 1 to 21 |
| ProductionTypes.BuildRows | src/shiden/processing/silver/dimensions/dim_production_type.py:158-215 | canonical names keep their id, stored names theirs, and new ones get the ids just above every id ever given, in name order by their first differing character |
| ProductionTypes.DimProductionType.Process | src/shiden/processing/silver/dimensions/dim_production_type.py:89-99 | one run merges those rows into the stored ids and drops none |
| ProductionTypes.MergeKeepsStable | src/shiden/processing/silver/dimensions/dim_production_type.py:133-138 | a run keeps ids injective, canonical ids fixed, and every stored name's id |
| ProductionTypes.IdsAreForever | src/shiden/processing/silver/dimensions/dim_production_type.py:133-138 | over all runs no id changes, vanishes or is shared, and a later discovery's id exceeds every earlier one |
| ExchangeRates.LatestIsLatest | src/shiden/processing/silver/exchange_rates.py:250-254 | nothing is observed after the observation the fill uses, back to the start of the walk if there is none |
| ExchangeRates.FillAt | src/shiden/processing/silver/exchange_rates.py:250-254 | a day has a row iff it is emitted and something was observed on or before it within the walk, and the row is that observation |
| ExchangeRates.ReconcileAndFill | src/shiden/processing/silver/exchange_rates.py:238-274 | in date order: a day the primary source published has its rate and name, one only the secondary published that one's, and any other the last rate published before it in the walk, marked FORWARD_FILLED, or no row |
| ExchangeRates.RowsAreUnique | src/shiden/processing/silver/exchange_rates.py:250-254 | no other table of rows fits that description |
| ExchangeRates.ExchangeRatesTable.Process | src/shiden/processing/silver/exchange_rates.py:93-150 | one run merges by day the rows so described of a walk from fourteen days back, and leaves all other days |
| ExchangeRates.LaterWalk | src/shiden/processing/silver/exchange_rates.py:257-261 | a walk that starts later finds the same latest observation or none |
| ExchangeRates.ChunkAgreesIff | src/shiden/processing/silver/exchange_rates.py:93-125 | one chunk's rows are those of the whole run iff its first day is seeded |
| ExchangeRates.ChunksAgreeIff | src/shiden/backfill.py:151-155 | the month-by-month rows are those of one run iff every month's first day is seeded |
| ExchangeRates.UnseededMonth | src/shiden/backfill.py:151-155 | with one observation at the start of a month and none up to the next month the month-by-month rows differ from one run's |
| ExchangeRates.ShortGapsSeedAll | src/shiden/processing/silver/exchange_rates.py:85-91 | with no more than fourteen days unobserved in a row every chunk is seeded |
| ExchangeRates.StageSilverFx | src/shiden/backfill.py:151-155 | with such gaps the backfill leaves the table one whole run would; if slicing raises nothing is written |
| GoldBackfill.MonthChunks | src/shiden/backfill.py:49-61 | terminates with adjoining single-month slices from start to end, or raises iff one would fall in December 9999 |
| GoldBackfill.SlicesPartition | src/shiden/backfill.py:49-61 | every day of the range is in exactly one slice |
| GoldBackfill.GoldTable.ReplaceDateRange | src/shiden/processing/delta_io.py:104-134 | inside the id range the market has exactly the given days, stale ones gone, with their rows; outside it, and in other markets, what it had |
| GoldBackfill.RebuildAbsorbs | src/shiden/processing/delta_io.py:113-117 | a rebuild absorbs an earlier one of part of its range, so repeating one changes nothing |
| GoldBackfill.RebuildJoins | src/shiden/backfill.py:172-178 | adjacent date ranges rebuilt in turn are one range rebuilt at once |
| GoldBackfill.StageGold | src/shiden/backfill.py:162-178 | the month loop leaves, id by id, the computed days between the ids of start and end and nothing else there, and what was stored elsewhere; if slicing raises nothing is written |
| HandoffText.RenderMessage | swarmforge/scripts/handoffd.bb:89-102 | prints every header, preferred ones first and the rest in name order, and what it prints of printable headers is parsed back to the same message |
| HandoffText.RoundTrip | swarmforge/scripts/handoffd.bb:77-102 | parsing undoes printing for every header map of one-line entries without ": " in a name, any body and any order |
| HandoffText.ReturnsAreDropped | swarmforge/scripts/handoffd.bb:77-82 | a carriage return before a line break is no part of the line |
| HandoffText.RecipientsReadBack | swarmforge/scripts/handoffd.bb:142-147 | names joined with commas are read back as the recipients, in order |
| HandoffText.RecipientsAre | swarmforge/scripts/handoffd.bb:142-147 | whatever stands between the commas is read as its pieces, in order |
| HandoffText.NamedPieces | swarmforge/scripts/handoffd.bb:145-147 | of these the blank ones are left out and the others trimmed |
| HandoffText.TrimTakesSpace | swarmforge/scripts/handoffd.bb:145 | trimming takes the space off both ends and nothing else |
| HandoffText.SettersAgree | swarmforge/scripts/handoff_lib.bb:114-119 | the helpers' rewriting loop and the library's header setter write the same lines for every file |
| HandoffText.LoopRewrites | swarmforge/scripts/ready_for_next_task.bb:61-79 | the loop, from any intermediate state, writes out the rewritten header block and then the rest |
| HandoffText.SetHeaderSets | swarmforge/scripts/handoff_lib.bb:109-125 | setting a header changes that header's value and no other, and leaves everything from the first blank line on |
| HandoffReaders.FieldIsSet | swarmforge/scripts/handoff_lib.bb:91-97 | get after set: the helpers' first-match reader finds the value set, on any file |
| HandoffReaders.OtherFieldIsKept | swarmforge/scripts/handoff_lib.bb:91-119 | that reader finds every other field as before |
| HandoffReaders.ReadersAgreeIff | swarmforge/scripts/ready_for_next_guard.bb:66-71 | on any file the helpers and the guard read one value of a field iff its first and its last line carry the same |
| HandoffReaders.ReadersAgree | swarmforge/scripts/ready_for_next_task.bb:43-48 | of what the daemon prints, daemon, guard and helpers read the same value of every field, the one printed |
| HandoffText.ApprovalTakesIff | swarmforge/scripts/pack_web.bb:1060-1063 | approving releases a file iff it was approved or has a blank line and no line anywhere that starts like the mark; the mark is the only header changed, and the body is kept |
| HandoffText.ApprovedLineIff | swarmforge/scripts/pack_web.bb:1061 | a line starting like the mark stands at the start of the text or after any of the five line ends |
| HandoffText.BodyCanBlockApproval | swarmforge/scripts/pack_web.bb:1060-1073 | a handoff written by hand whose body starts like the mark is never released |
| HandoffFiles.ApprovalReleasesIff | swarmforge/scripts/pack_web.bb:1060-1071 | after the approval of a held file the daemon's next pass holds it again iff its text has a line starting like the mark or no blank line |
| HandoffHeaders.HeldMeans | swarmforge/scripts/handoffd.bb:285-297 | held are git handoffs from the master of a pack with a specifier, to one recipient, without an approval |
| HandoffFiles.WhereItGoes | swarmforge/scripts/handoffd.bb:350-397 | with its names free a file is held iff it is one to hold, else sent iff it lists recipients, all are roles, the board takes the update and all notifications go out, else failed |
| HandoffFiles.CopyWrittenIff | swarmforge/scripts/handoffd.bb:359-368 | a recipient gets a copy iff it and all before it are roles and the notifications before its own went out |
| HandoffFiles.HandoffTree.ProcessOutboxFile | swarmforge/scripts/handoffd.bb:350-397 | the file is held unheard of, or sent with a file of its name at every recipient, or failed, with its content and overwriting nothing; inboxes gain only copies with its body and all its headers but recipient and enqueued_at; it stays only if both its failure names are taken |
| HandoffFiles.HandoffTree.MoveWithCollision | swarmforge/scripts/handoffd.bb:126-134 | the content arrives under a name that was free, its own or the dated one; it fails iff both are taken; nothing else changes |
| HandoffFiles.HandoffTree.CopyToRecipients | swarmforge/scripts/handoffd.bb:359-368 | the delivery loop writes the copies its recursive description says, stopping at the same failure |
| HandoffFiles.HandoffTree.Approve | swarmforge/scripts/pack_web.bb:1065-1071 | the held file is queued with its body and every header but the mark, and a marked one is no longer one to hold; nothing else changes |
| HandoffFiles.HandoffTree.DeleteApproval | swarmforge/scripts/pack_web.bb:1237-1254 | file by file, exactly the files of the held file's task go, from every directory |
| HandoffFiles.HandoffTree.RetryApproval | swarmforge/scripts/pack_web.bb:1196-1235 | the held file is discarded; its sender keeps what it is working on for the task, or else gets a completed file of it back as it was, single before batched, or else a note for it |
| HandoffHeaders.SameTaskMeans | swarmforge/scripts/pack_web.bb:1170-1174 | a file is of a task if its task_id, or without one its name, is the id or the name of it |
| HandoffHeaders.RetryNoteSays | swarmforge/scripts/pack_web.bb:1176-1194 | what the note says, header by header |
| HandoffHeaders.WordStays | swarmforge/scripts/pack_web.bb:1182 | in the note's file name letters and digits of the task stay |
| HandoffHeaders.GapIsOneUnderscore | swarmforge/scripts/pack_web.bb:1182 | and every run of other characters becomes one underscore |
| HandoffHeaders.WaitsMeans | swarmforge/scripts/ready_for_next_guard.bb:95-110 | a role waits iff a git handoff from it is in the outbox or pending |
| HandoffFiles.HandoffTree.ReadyForNextTask | swarmforge/scripts/ready_for_next_task.bb:112-147 | its outcome in each state; a task is taken iff nothing is in process or outbound and something is new: the least name, its body and all headers but the two stamps kept, nothing else changed |
| Lexicographic.AtMostIff | swarmforge/scripts/ready_for_next_task.bb:27-33 | a name comes before another iff it begins it, or has the smaller character where they first differ |
| HandoffFiles.LargerNameWaits | swarmforge/scripts/ready_for_next_task.bb:139 | of two new files the one with the larger character where their names first differ is not the one taken |
| HandoffFiles.HandoffTree.ReadyForNextBatch | swarmforge/scripts/ready_for_next_batch.bb:140-181 | its outcome in each state; a batch is exactly the new files with the least name's priority header, or 50 without one, stamped and otherwise as they were, and the others stay |
| HandoffFiles.HandoffTree.DoneWithCurrentTask | swarmforge/scripts/done_with_current_task.bb:68-93 | finishes iff one task and no batch is in process: it goes to completed, over a file of its name, stamped and otherwise as it was, and leaves in_process empty |
| HandoffFiles.HandoffTree.DoneWithCurrentBatch | swarmforge/scripts/done_with_current_batch.bb:68-104 | its outcome in each state; every file of the only batch goes stamped, and otherwise as it was, to a completed batch of its name, and the directory is gone |
| HandoffSafety.StepIsSafeIff | swarmforge/scripts/pack_web.bb:1196-1209 | any step leaves a role with at most one task in process iff it is not a retry that neither finds its work in process nor replaces all that is there |
| HandoffSafety.RunIsSafeIff | swarmforge/scripts/ready_for_next_task.bb:119-147 | in every run from empty directories a task role has at most one in process throughout iff every retry fits |
| HandoffSafety.OneWorkIsSafe | swarmforge/scripts/ready_for_next_guard.bb:100-110 | if a role's queued and held handoffs are for one work at a time, every run is safe, and all it has in process is for that work |
| HandoffSafety.RetryIsResumed | swarmforge/scripts/pack_web.bb:1215-1235 | after a retry that fits, the held file is gone and the sender's next task is the retried one |
| HandoffHeaders.SendsWithoutWork | swarmforge/scripts/swarm_handoff.bb:520-538 | with nothing in process a role may send for any task it names |
| HandoffHeaders.SendsForCurrentTask | swarmforge/scripts/swarm_handoff.bb:530-532 | with a task in process only for that one |
| HandoffHeaders.NoneSendsFromAmbiguousWork | swarmforge/scripts/swarm_handoff.bb:175-190 | and with ambiguous work for none |
| HandoffAccidents.TwoRetriesCollide | swarmforge/scripts/swarm_handoff.bb:520-538 | two tasks sent with nothing in process, held and retried, are both in process |
| HandoffAccidents.TwoInProcess | swarmforge/scripts/swarm_handoff.bb:803-847 | such a run exists for every pack with a specifier whose master takes single tasks, with handoffs that pass the helper's checks of headers |
| HandoffAccidents.RetryJamsBatchRole | swarmforge/scripts/ready_for_next_batch.bb:149-152 | a retry that gives work back to a role that receives batches leaves it with a file its helpers refuse |
| HandoffAccidents.BatchMasterIsJammed | swarmforge/scripts/pack_web.bb:1196-1209 | a master that receives batches gets there from empty directories by one send, one hold and one retry |
| HandoffAccidents.DeletionEmptiesBatch | swarmforge/scripts/pack_web.bb:912-914 | two handoffs of one task, the first taken in a batch by its recipient, the second held and its approval deleted, leave that batch without files |
| HandoffAccidents.BatchEmptiedForGood | swarmforge/scripts/done_with_current_batch.bb:86-93 | such a run exists with handoffs that pass the helper's checks of headers, and the role is stuck through every further step |
| HandoffJams.JammedIff | swarmforge/scripts/done_with_current_batch.bb:76-93 | the completing helper refuses iff the role is jammed: a second single task, or for batches a single file, two batches, one without files or one whose name is taken |
| HandoffJams.StepJamsIff | swarmforge/scripts/pack_web.bb:1196-1254 | which step of anyone jams a role that is not - a retry, a deletion that empties its batch, a batch name used before - and which frees one that is - a deletion that leaves no jam - each exactly |
| HandoffJams.RunIsClearIff | swarmforge/scripts/ready_for_next_batch.bb:147-157 | in every run from empty directories a role, of either kind, is never jammed iff no step of the run jams it |
| HandoffJams.JammedUntilDeleted | swarmforge/scripts/ready_for_next_task.bb:125-128 | a jammed role stays jammed iff no freeing deletion happens, and its completing helper refuses all the while |
| HandoffJams.TroubleIsForever | swarmforge/scripts/ready_for_next_batch.bb:98-103 | a batch without files, under a used name, or beside another stays through every further step of anyone |
| HandoffJams.TroubleTakesNothing | swarmforge/scripts/ready_for_next_batch.bb:157-160 | with such a batch the taking helper takes nothing, and refuses one without files |
| HandoffCards.OwnCardsAreSafe | swarmforge/constitution/articles/handoffs.prompt:28-36 | if handoffs name cards with clear names and a role sends only for the card it has in process, it never has two |
| HandoffLedger.ExactlyOnePlace | swarmforge/scripts/handoffd.bb:126-140 | with new file names every handoff ever sent is in exactly one of outbox, pending, sent, failed and discarded - by a retry, or with its task - and nothing else is |
| HandoffLedger.SentReachedAll | swarmforge/scripts/handoffd.bb:350-372 | a sent handoff is with every recipient it lists, in exactly one directory |
| HandoffLedger.CopyIsKept | swarmforge/scripts/done_with_current_batch.bb:86-103 | a role that has received a handoff has it, in exactly one directory, iff the handoff was not discarded, through any further steps |
| HandoffLedger.AllOrNone | swarmforge/scripts/pack_web.bb:893-914 | deleting an approval takes all files under a sender's name, the handoff's and its copies', or none of them |

## Left out

- Network ingestion, parsing of sources, landing files, logging, the key store, metering, wiring of the API and of schedulers.
- Spark and Delta internals, partitions and schemas; tables are sequences or maps, and only the operations used are modelled.
- Rounding: prices, rates and clock readings are reals.
- Locks: a limiter call is atomic, as its lock makes it. `limit >= 1` is what the key store enforces (src/shiden/api/auth/store.py:157-158).
- The contents of the time zone database; a zone is any well-formed list of transitions. Labels that are formatted text and the `is_dst` column are not modelled.
- Hour buckets of zones with half-hour offsets, beyond `DeliveryDays.LabelConstantIff`.
- The UTC pre-filter of the hourly facts. Its comment promises four extra hours, but `start` is a date, and subtracting hours from a date changes nothing (src/shiden/processing/silver/fact_generation.py:94).
- Silver merges other than exchange rates; of those, one currency pair stands for all, and the synthetic pair's constant rows are left out.
- The Gold stage rebuilds three tables in one loop; `GoldBackfill.StageGold` has one of them, since they share nothing.
- GoldBackfill.StageGold: takes the processor's rows for a day as a function of the day, so that a slice's rows are the whole range's rows for its days.
- Bronze.HistoryIsFirstAppearances: takes batches with one value per key and rising ingestion times; what repeated pairs in one batch do is `Bronze.PairsStayDistinctIff`.
- ExchangeRates: day numbers are not cut off at the first and last date a calendar has.
- HandoffText: characters beyond ASCII that count as white space when trimming, and the trailing line breaks that reading a file into lines drops and writing it adds.
- HandoffProtocol: outboxes of all roles are one directory, and so are the sent and failed ones, as file names are distinct; every step has one time stamp; scripts are atomic, and a crash inside one is not modelled.
- HandoffProtocol: every role has directories of its own. A role on worktree `none` would share the master's (swarmforge/scripts/swarmforge.bb:136-191).
- HandoffProtocol.MaySend: keeps of the send helper's checks those on the sender, the current work and the task id, so every run of the real helper is among the runs considered. Completing the current work after a send is a step of its own.
- HandoffFiles.HandoffTree.RetryApproval: a held handoff whose sender is not a role is only discarded; the project root's own inbox is not modelled.
- HandoffAccidents.TwoInProcess: the checks of the send helper that ask git or the board are not modelled; the run needs both tasks to be cards and the commit to be the sender's.
- DeliveryKeys.KeysAreUniqueIff: is for transitions that shift the clock by at most a day and leave a day of readings between them; closer ones are not characterised.
- Archives of rejected tasks, audits, the board, git, tmux and the dashboard.
- Liveness of the daemon and the agents.
