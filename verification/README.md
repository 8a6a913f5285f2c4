# Market data scraper: a verified model

The scraper keeps market data in one database per exchange and UTC year. It fills
history by paging a REST endpoint, checks its own work by counting rows, runs one live
collector per listed stream, and follows spot and futures klines with cursors. This
project models those parts in Dafny and proves what they promise.

| file | what it holds |
|---|---|
| `Calendar.dfy`, `Intervals.dfy`, `Klines.dfy` | UTC years over the leap rule of appendix C of RFC 3339, int64 nanosecond keys, text normalisation, the two interval parsers, the kline record |
| `Exchange.dfy`, `ClosedBars.dfy` | the exchange as an oracle over a fixed list of ascending disjoint bars; keeping the closed bars of a page |
| `CoverageSegments.dfy` | compressing open times into coverage segments and merging segments |
| `YearWindows.dfy`, `Storage.dfy`, `Backfill.dfy` | splitting a range by year, insert-or-ignore tables, paging a window, running a request |
| `Coverage.dfy`, `Readiness.dfy` | the verifier, what its Ready is worth, and when a finished backfill earns it |
| `ReconcileModel.dfy`, `Reconcile.dfy`, `ReconcileTheorems.dfy`, `ReconcileExact.dfy`, `Runtime.dfy` | the live runtime: a state machine of its mutex sections and of what goroutines do between them, its invariant, theorems over all runs, exact conditions for what can fail, and the classes whose methods take those steps |
| `LazyCreate.dfy`, `StoreCache.dfy` | create-on-first-failure and the store cache, for any number of concurrent callers |
| `WriteRouter.dfy` | grouping rows by writer domain, leases and delivery |
| `FuturesForward.dfy`, `SpotCatchUp.dfy` | the two live kline cursors |
| `WorkerTable.dfy`, `HistoricalRuntime.dfy` | historical workers in flight, a reconcile pass and what one worker reports |

How things are represented:

- Instants are unbounded integers of nanoseconds since 1970. Milliseconds are floored.
  `UnixNano` and the exchange's millisecond arithmetic wrap around at int64.
- Prices, volumes and counts are one opaque payload: nothing is computed from them.
- Foreign outcomes (fetching, statements, publishing, leases, factories, clocks) are
  parameters: functions of the call's number that may be anything. A failed insert may
  have written its row or not. A server is any function of the call's number and bounds;
  *faithful* means that it answers from a fixed list of bars, whenever it answers.
- A critical section of a mutex is one step, and looking at a context outside it
  another. A theorem about runs covers every interleaving of those steps; the class
  methods give each section as the program executes it and are proved to take exactly
  the model's step. Methods that chain several sections do so with nothing in between.
- A live collector reports stored bars only from inside its Run, as the Binance spot and
  futures scrapers, the only managed collectors, do (`cmd/scraper/main.go:263-280`).
- Go ranges over a map in any order; so do the loops here.

Where the code does less than a natural reading suggests, the model keeps the code, a
lemma gives an input or a run that shows it, and an if-and-only-if says exactly when the
claim holds:

| claim | input or run | exact condition |
|---|---|---|
| writer and verifier use one table | `Readiness.DashedSymbolIsNotReady` | the symbol is alphanumeric: `Coverage.TableNamesAgree` |
| paging misses no bar of a window | `Backfill.WindowEndInsideAMilli` | the end is on a millisecond, or no bar opens at the one it falls in: `Backfill.ServedIsComplete` |
| no open time is taken for a duplicate | `CoverageSegments.KeyClashDropsARow` | nanosecond keys tell the open times apart: `CoverageSegments.CoverIsComplete` |
| no stream has two live collectors, and none is lost | `ReconcileExact.StolenCollectorStaysLive`, `ReconcileExact.ShutdownOverlapsAStart` | no exit takes the mutex to find a handle created after it that has reached its version and holds a collector, and no listing starts a collector while one of its stream that a shutdown took out is live: `ReconcileTheorems.OneLiveExactly` |
| an old collector is not answered | `ReconcileExact.RecreatedHandleAnswersOldCollector` | of the handle's own collectors only the last started, unless handed over; of earlier handles' those with an equal version: `ReconcileExact.WhoIsAnswered` |
| a running stream has a collector | `ReconcileExact.OldCollectorRevivesStopped` | always for a stream that is never removed: `ReconcileExact.NeverRemovedNeverPhantom`; else, no stored bar of an earlier handle's or a stolen collector met a handle without one since the stream was last observed or removed: `ReconcileExact.PhantomRun` |
| a stopped, unwanted stream stays stopped | `ReconcileExact.OldCollectorRevivesStopped` | always for a stream that is never removed: `ReconcileExact.NeverRemovedStaysStopped`; else, no such bar is answered: `ReconcileExact.StaysStopped` |
| a historical worker ends with one terminal report | `Coverage.WrappedIntervalPanics` | it does not crash on an interval of no length: `HistoricalRuntime.RunRequest` |
| spot bars up to the cursor are stored | `SpotCatchUp.FailedLiveInsertLosesABar` | every live bar was stored and left no gap: `SpotCatchUp.ForwardRunKeepsFilled`, `SpotCatchUp.RunKeepsFilled` |
| every active historical worker is tracked | `WorkerTable.RelistingRunsTwo` | no worker finishes over another's entry: `WorkerTable.TrackedThroughout` |

## Model

| member | source | states |
|---|---|---|
| Calendar.DaysToYearClosedForm | internal/backfill/klines.go:394-396 | the year-by-year day count equals the Gregorian closed form, so years are the UTC calendar's |
| Calendar.YearOf | internal/backfill/klines.go:394-396 | a UTC year is the one whose first of January is at or before the instant and whose next is after it |
| Calendar.ZeroTimeIsYearOne | internal/backfill/coverage_segments.go:40-43 | Go's zero time is the first of January of the year 1 |
| Calendar.YearUnique | internal/backfill/klines.go:398-416 | no other year has that property |
| Calendar.UnixNanoInjective | internal/backfill/coverage_segments.go:39-49 | wrapped nanosecond keys tell apart any two instants less than 2^64 ns apart |
| Calendar.Wrap64Congruent | internal/backfill/klines.go:428-442 | int64 results are congruent modulo 2^64 to the exact ones, which with their range determines them |
| Intervals.IntervalParsersDiffer | internal/backfill/coverage_segments.go:93-114 | for any text, coverage accepts exactly what the request parser accepts of its trimmed form except weeks and months, with the same duration; the request parser accepts only trimmed text |
| Intervals.DurationOf | internal/backfill/klines.go:418-443 | the exact nanoseconds of any number of seconds, minutes, hours, days, weeks and months of 30 days; zero, negative and too large numbers and any other unit are refused by both parsers, weeks and months by the coverage parser |
| Intervals.AcceptedText | internal/backfill/klines.go:418-443 | whatever the request parser accepts is digits, after an optional plus sign, and one of the six units |
| Intervals.TrimSpaceKeeps | internal/backfill/klines.go:126-140 | trimming takes off the surrounding white space and keeps everything else |
| Intervals.CaseByLetter | internal/backfill/klines.go:126-140 | changing case exchanges the letters of two alphabets and keeps every other character in place |
| CoverageSegments.RunsIsCanonicalCover | internal/backfill/coverage_segments.go:65-91 | segments expand to exactly the given open times in order, each ends one step after its last bar, stays in one UTC year, and no neighbours can be merged |
| CoverageSegments.CanonicalCoverUnique | internal/backfill/coverage_segments.go:65-91 | there is only one such cover |
| CoverageSegments.RunsHomomorphism | internal/backfill/klines.go:234-254 | merging the segments of two lists of open times gives the segments of the joined list |
| CoverageSegments.CoverIsComplete | internal/backfill/coverage_segments.go:27-82 | for any order and any duplicates each distinct non-zero open time is covered exactly once, none missing if and only if the nanosecond keys tell them apart |
| CoverageSegments.KeyClashDropsARow | internal/backfill/coverage_segments.go:44-48 | two rows 2^64 ns apart: the second is left uncovered |
| CoverageSegments.RunsAscend | internal/backfill/coverage_segments.go:65-81 | segment starts strictly increase |
| CoverageSegments.PaginationHomomorphism | internal/backfill/klines.go:234-254 | pages in ascending order of open time merge into the segments of all rows built at once |
| CoverageSegments.AppendPagesJoin | internal/backfill/klines.go:80 | merging window by window equals merging page by page, also across years |
| CoverageSegments.PlainPagesCover | internal/backfill/klines.go:196-200 | ascending distinct rows, over any pages, merge into the runs of all their open times |
| CoverageSegments.PagesCover | internal/backfill/klines.go:196-200 | merged pages of any rows in any order stand for open times of those rows only, and for all non-zero ones when each page's keys tell them apart |
| CoverageSegments.AppendCoverageSegments | internal/backfill/klines.go:234-244 | editing the last element in place computes the merge fold |
| CoverageSegments.MergesExactly | internal/backfill/klines.go:246-254 | two segments become one exactly when all their labels and years agree and the second starts where the first ends; the one runs over both and counts the bars of both |
| CoverageSegments.BuildCoverageSegments | internal/backfill/coverage_segments.go:27-82 | succeeds if and only if the interval has a coverage step, with the canonical cover of the rows; every segment carries the lower-cased exchange and market, the upper-cased symbol, the trimmed interval and the source |
| CoverageSegments.CompressTimes | internal/backfill/coverage_segments.go:65-81 | the start, prev, count loop computes the unique canonical cover |
| YearWindows.YearWindowsTile | internal/backfill/klines.go:398-416 | windows are non-empty and contiguous from start to end, each within one UTC year, years strictly increasing |
| YearWindows.TilingUnique | internal/backfill/klines.go:398-416 | a range can be tiled that way only as the code does |
| YearWindows.SplitByYear | internal/backfill/klines.go:398-416 | the cursor loop yields that tiling |
| Exchange.PageAdvances | internal/backfill/klines.go:206-216 | reading from one past a page's last close continues exactly after the page |
| Storage.InsertRowsExtends | internal/storage/timescale.go:424-428 | inserting loses and changes no stored row, stores a row for every key, and adds nothing else |
| Storage.InsertRowsJoin | internal/storage/timescale.go:409-454 | inserting in batches equals inserting at once |
| Storage.TableSymbol | internal/storage/timescale.go:277-289 | the symbol part of a table name is letters and digits only, and unknown for a symbol without any |
| Storage.TableNamesTellApart | internal/storage/timescale.go:252-275 | table names are equal exactly when market class, symbol part and lower-cased interval are |
| Storage.RowsShareAKey | internal/storage/timescale.go:252-293 | two rows have one key exactly when time, normalised symbol, market class and interval agree, an absent interval counting as a minute |
| Storage.Cluster.OptimisticInsertWithLazyCreate | internal/storage/timescale.go:308-335 | which of insert, second insert, create and last insert run, and whether the call succeeds, for every outcome of the statements and whether or not the table is there; when only its absence makes a statement fail it succeeds; success has stored the row, the first row winning; failure has lost nothing and added at most that row and its table |
| Storage.Cluster.InsertKline | internal/storage/timescale.go:409-454 | success has stored all rows in order, failure a part of them, no other year is touched, and it succeeds when nothing but an absent table makes a statement fail |
| Backfill.FilterKlinesForWindow | internal/backfill/klines.go:220-232 | compacting in place keeps exactly the rows opened in [start, end), in order |
| Backfill.NormalRequestKept | internal/backfill/klines.go:126-140 | a normal request comes through normalisation unchanged, a normalised one too, and futures stay futures |
| Backfill.WellFormedIsValid | internal/backfill/klines.go:126-159 | the requests run are those with an empty or Binance exchange, the spot or futures market, a symbol, a non-empty range and an empty or valid interval |
| Backfill.KeptMembers | internal/backfill/klines.go:220-232 | a row is kept if and only if it was there and opened in the window |
| Backfill.SegmentsOfWindow | internal/backfill/klines.go:186-200 | every segment built from a window's rows carries the window's year, and its first and last bars open inside the window |
| Backfill.ServedMembers | internal/backfill/klines.go:161-180 | paging covers exactly the bars opened from the start to the millisecond of the end |
| Backfill.ServedIsComplete | internal/backfill/klines.go:161-180 | nothing of the window is missed if and only if its end is on a millisecond or no bar opens at the millisecond it falls in |
| Backfill.WindowEndInsideAMilli | internal/backfill/klines.go:167-169 | a window ending one nanosecond into a millisecond, whose last bar is never served |
| Backfill.StorePage | internal/backfill/klines.go:182-201 | a page's rows opened in the window are stored and its segments merged; a failure stores a part of them at most, and takes a malformed row, an interval without a step or a foreign failure |
| Backfill.BackfillWindow | internal/backfill/klines.go:161-218 | terminates against any server with an unreachable inner guard, stores only bars opened in the window, returns the merged segments of the stored pages, and against a faithful server a success has stored exactly the served bars; it succeeds when nothing foreign fails |
| Backfill.RunKlineRequest | internal/backfill/klines.go:49-86 | adds only rows of the market, symbol and interval asked for, opened in the range asked for, to their year's database; against any server the segments of a success stand for open times stored there and for every row added; against a faithful server every row added is a bar of the exchange with its open time, close time and prices, every bar that opens in the range is stored or its key was taken, every year is filled, and the segments are the canonical cover of all bars; it succeeds when the request is well formed and nothing foreign fails |
| Backfill.RecordedHoldsBars | internal/backfill/klines.go:520-573 | rows stored from a faithful server and the bars of the range correspond both ways, field by field |
| Backfill.RecordedCovers | internal/backfill/klines.go:56-84 | segments merged from stored pages cover exactly what was stored and added, the zero time aside |
| Coverage.TableNamesAgree | internal/backfill/klines.go:379-387 | writer and verifier use one table if and only if the symbol is alphanumeric |
| Coverage.NormalizedRequest | internal/backfill/klines.go:126-159 | a validated request is in the form writing normalises to |
| Coverage.QueryRows | internal/backfill/klines.go:281-300 | count, least and greatest open time of the rows queried |
| Coverage.ExpectedExactly | internal/backfill/klines.go:445-455 | the expected count is the truncated quotient for positive and for wrapped, negative durations, over a range cut at the longest int64 duration; it fails on a negative range and panics on no duration |
| Coverage.WrappedIntervalPanics | internal/backfill/klines.go:445-455 | 36028797018963968 seconds are a valid interval of length zero, and the division panics |
| Coverage.VerifyWindowCoverage | internal/backfill/klines.go:256-313 | ready exactly when the table exists, has a row in the window, and as many as the truncated quotient of window length and interval; covers from the first open time to one interval after the last; panics only, and never returns, when the table exists and the interval has no length; fails only if looking for the database, connecting or querying does |
| Coverage.VerifyKlineCoverage | internal/backfill/klines.go:88-124 | ready exactly when every year window is; least start and greatest end over all of them; panics only for an interval of no length and a window whose table exists; fails on every malformed request, and else only if a foreign call does |
| Readiness.WindowPointsCount | internal/backfill/klines.go:445-455 | a window has the expected count of lattice points or one more, and no more when its length is a multiple of the step |
| Readiness.ExpectedInOneYear | internal/backfill/klines.go:445-455 | within a year the saturating duration and truncating division are the plain quotient |
| Readiness.OneRowPerTime | internal/storage/timescale.go:356 | the primary key gives the verifier's count one row per open time |
| Readiness.ReadyExactly | internal/backfill/klines.go:308-312 | on one lattice Ready holds exactly when the window has a row and misses no more points than it has beyond the expected count: at most one, and none when its length is a multiple of the step |
| Readiness.FilledWindowReady | internal/backfill/klines.go:256-313 | a window filled from an exchange with every lattice bar, and at least one bar, is Ready |
| Readiness.ReadyWindowHasBar | internal/backfill/klines.go:308-312 | a Ready window of a filled year contains a bar of the exchange |
| Readiness.BackfillIsReady | internal/backfill/klines.go:49-124 | after a successful backfill of a lattice-complete exchange every year window with a bar is Ready, over any number of years and pages and whatever rows were stored before with equal time and open time, as every kline writer stores them; a window is Ready only if it has a bar, unless rows stored before are not bars |
| Readiness.PunctuationAddsNothing | internal/backfill/klines.go:379-387 | with punctuation in the symbol a backfill adds no row the verifier counts |
| Readiness.DashedSymbolIsNotReady | internal/backfill/klines.go:379-387 | one filled minute of BTC-USDT that is not Ready |
| Reconcile.StepKeepsInv | internal/controlplane/runtime.go:172-483 | every critical section, the context check between, and a shutdown at any time, keep the invariant: collector, cancel and gate together or absent together, a present collector starting, running or draining, running only with data, the gate on exactly under effective live delivery with a base publisher |
| Reconcile.RunKeepsInv | internal/controlplane/runtime.go:172-483 | so does every run |
| Reconcile.KeptRunningSound | internal/controlplane/runtime.go:252-262 | a present collector is never in a state the keep branch would repair |
| Reconcile.ExitFindsItself | internal/controlplane/runtime.go:371-395 | an exit that finds its version and a collector in the handle finds its own if and only if the handle is not younger than it |
| ReconcileTheorems.OneLiveExactly | internal/controlplane/runtime.go:172-395 | in every interleaving, with context checks and the stops of a shutdown apart from critical sections and a shutdown at any time, no collector is lost and no stream has two live ones in any state if and only if no exit steals a younger handle's collector and no listing starts one while another of its stream that a shutdown took out is live |
| ReconcileTheorems.LostExactly | internal/controlplane/runtime.go:371-395 | no collector is lost if and only if no exit of the run stole one |
| ReconcileExact.StolenCollectorStaysLive | internal/controlplane/runtime.go:371-395 | a run in which an exit steals a recreated stream's collector and two collectors end up live |
| ReconcileExact.ShutdownOverlapsAStart | internal/controlplane/runtime.go:172-186 | a run in which a shutdown without a cancelled context overlaps a start and two collectors end up live, none stolen |
| ReconcileTheorems.StartsAccountedFor | internal/controlplane/runtime.go:224-473 | starts of a stream equal its exits, its hand-overs for cancel and Stop, those taken out by another exit, and one if the handle has a collector; none is taken out so when no exit steals |
| ReconcileTheorems.WantedOutcome | internal/controlplane/runtime.go:240-293 | in every reachable state, observing a stream listed as running or leased leaves its collector as it was and no deadline, or starts one of the next version, starting, its gate and warning by the listing and the base publisher; a failing factory leaves the stream errored without one |
| ReconcileTheorems.DrainingOutcome | internal/controlplane/runtime.go:305-337 | in every reachable state, observing a stream neither listed as running nor leased keeps its collector draining before its deadline, kept or set to the grace period from now, and at the deadline takes it out, raises the version and hands it over to be stopped |
| ReconcileTheorems.RestingOutcome | internal/controlplane/runtime.go:295-303 | with no collector it never starts one and leaves the stream stopped |
| ReconcileTheorems.StoredOutcome | internal/controlplane/runtime.go:397-419 | a stored bar makes the stream running with that time as its last exactly when the versions agree, and changes nothing otherwise |
| ReconcileTheorems.ExitOutcome | internal/controlplane/runtime.go:380-394 | a collector that exits from its handle leaves the stream errored, without collector or gate, and counts as exited |
| ReconcileTheorems.DeadlineHasSeries | internal/controlplane/runtime.go:297-316 | a set deadline lies the grace period after the first of an unbroken series of idle observations still going on |
| ReconcileTheorems.StoppedOnlyAfterGrace | internal/controlplane/runtime.go:297-338 | an observation takes a collector out only at the end of an unbroken idle series whose first is at least the grace period old |
| ReconcileTheorems.DeadlineKept | internal/controlplane/runtime.go:297-316 | an unwanted listed stream keeps its deadline while its collector runs, whatever happens in between |
| ReconcileTheorems.StoppedAtDeadline | internal/controlplane/runtime.go:297-338 | the first idle observation at or past the deadline leaves the stream stopped |
| ReconcileExact.StaysStopped | internal/controlplane/runtime.go:297-338 | a stopped listed unwanted stream without a collector stays so throughout a run if and only if it answers no stored bar of an earlier handle's or a stolen collector |
| ReconcileExact.NeverRemovedStaysStopped | internal/controlplane/runtime.go:297-338 | a stopped stream that is never removed stays stopped while not wanted, whatever its collectors report |
| ReconcileExact.StoppedFromDeadlineOn | internal/controlplane/runtime.go:297-338 | the first idle observation at or past the deadline stops the stream, which then stays stopped if and only if it answers no outsider; it answers none, drained or exited by itself, unless an earlier handle's collector reports or one of its own was stolen |
| ReconcileExact.OnlyOutsidersAnswered | internal/controlplane/runtime.go:397-419 | a handle without a collector answers only collectors of earlier handles and stolen ones |
| ReconcileExact.OnlyEarlierRevive | internal/controlplane/runtime.go:397-419 | with none of its collectors stolen an unwanted stream without a collector answers only collectors of earlier handles |
| ReconcileExact.OutdatedOnlyEarlierRevive | internal/controlplane/runtime.go:397-419 | so does a drained one, even after a steal |
| ReconcileExact.PhantomExactly | internal/controlplane/runtime.go:386-409 | a step leaves a stream running without a collector exactly when it did and was neither observed nor removed, or when it had none and answers a stored bar of an earlier handle's or a stolen collector |
| ReconcileExact.NeverRemovedNeverPhantom | internal/controlplane/runtime.go:386-409 | a stream that is never removed never runs without a collector |
| ReconcileExact.PhantomRun | internal/controlplane/runtime.go:386-409 | a run ends so exactly when such a bar was answered and the stream neither observed nor removed since |
| ReconcileExact.WhoIsAnswered | internal/controlplane/runtime.go:397-419 | a callback is answered if and only if its collector is its handle's last start and not handed over, or of an earlier handle with an equal version |
| ReconcileTheorems.DrainedIsOutdated | internal/controlplane/runtime.go:318-329 | a drained collector is outdated at once |
| ReconcileTheorems.OutdatedIsHarmless | internal/controlplane/runtime.go:397-419 | while its handle persists an outdated collector stays so and nothing it reports, nor its exit, changes any handle |
| ReconcileTheorems.VersionsAreFresh | internal/controlplane/runtime.go:280-289 | versions of one handle's collectors strictly increase |
| ReconcileExact.RecreatedHandleAnswersOldCollector | internal/controlplane/runtime.go:234-236 | a run in which a removed and recreated stream is marked running by its old, cancelled collector |
| ReconcileExact.OldCollectorRevivesStopped | internal/controlplane/runtime.go:397-419 | a run in which a removed and recreated, stopped stream is turned to running with no collector by its old collector, still inside its Run |
| Runtime.Runtime.GateFollowsListing | internal/controlplane/runtime.go:240-248 | a managed stream has a gate exactly while it has a collector, and klines pass it exactly when there is a base publisher and the last listing asked for live delivery |
| Runtime.Runtime.ReconcileStream | internal/controlplane/runtime.go:224-338 | the section takes the model's step, returns the collector to stop, if any, and reports the new state, the last data time, and the trimmed factory error, the missing-publisher warning or nothing |
| Runtime.Runtime.RecordStored | internal/controlplane/runtime.go:397-419 | takes the model's step, and reports exactly when the version is the handle's: running, with the bar's time and the warning, if any |
| Runtime.Runtime.RunReturned | internal/controlplane/runtime.go:371-376 | the context check takes the model's step |
| Runtime.Runtime.CollectorExited | internal/controlplane/runtime.go:380-394 | the critical section takes the model's step, and reports exactly when the version is the handle's and it holds a collector: errored, exited unexpectedly |
| Runtime.Runtime.StopMissingStreams | internal/controlplane/runtime.go:340-369 | drops exactly the unlisted handles, in any order, and stops what they held |
| Runtime.Runtime.Shutdown | internal/controlplane/runtime.go:445-483 | drops every handle and stops what they held |
| Runtime.Runtime.ReconcileOnce | internal/controlplane/runtime.go:193-222 | an uninterrupted pass is a run of the state machine over the eligible streams, then the removal of the rest; a failed listing changes nothing |
| Runtime.PassManagesEligible | internal/controlplane/runtime.go:193-222 | after an uninterrupted pass the streams with a handle are exactly the eligible ones listed, whatever was managed before and whatever the factories did |
| Runtime.EligibleMembers | internal/controlplane/runtime.go:200-215 | the eligible ids are the positive ones listed with kind kline and an exchange that has a factory, up to case and surrounding white space |
| Runtime.NormalStreamKept | internal/controlplane/runtime.go:489-503 | normalising touches white space and case of texts only, once, and leaves a normal stream unchanged |
| LazyCreate.StepKeepsInv | internal/storage/timescale.go:299-335 | every step of every worker, failing or not, keeps lock ownership, table and row facts |
| LazyCreate.SafeWhateverFails | internal/storage/timescale.go:299-335 | under every schedule and whatever statements fail, each table comes into being at most once and no other table is there, at most one worker per table is between taking and releasing a lock, and a worker that reports success has its row stored |
| LazyCreate.RowsInTables | internal/storage/timescale.go:308-335 | no row or table is lost, and every row added is a worker's and in a table that is there |
| LazyCreate.SingleFlight | internal/storage/timescale.go:299-335 | when only absent tables make statements fail, CREATE runs at most once per table and never for a table that was there, and finished workers succeeded with their row stored |
| LazyCreate.SchedulesAreBounded | internal/storage/timescale.go:308-335 | no schedule outlasts the work left |
| LazyCreate.SomeoneCanStep | internal/storage/timescale.go:308-335 | while a worker is unfinished some worker can take a step, whatever fails: no deadlock |
| LazyCreate.FinishedSchedulesStoreEverything | internal/storage/timescale.go:308-335 | a schedule that cannot go on ends with every worker done and the rows of the successful ones stored, which are all when only absent tables make statements fail |
| StoreCache.RouteKeyStringInjective | internal/storage/write_router.go:294-296 | cache names are equal exactly when exchange and year are, whatever the exchange is called |
| StoreCache.InstallKeeps | internal/storage/write_router.go:266-276 | installing returns the store in the cache for the key and closes the new one exactly when another was there |
| StoreCache.CloseAllKeeps | internal/storage/write_router.go:106-122 | closing closes exactly the stores in the cache, each once, in any order, and empties it |
| StoreCache.OneStorePerKey | internal/storage/write_router.go:248-277 | between two calls of Close callers get one store exactly when they ask for one key, and a returned store is closed exactly when a Close came later |
| StoreCache.OnlyNamedAreServed | internal/storage/write_router.go:248-265 | a caller without an exchange is never given a store nor has one made, any other fails only if the factory failed it |
| StoreCache.CallsAreBounded | internal/storage/write_router.go:248-277 | a caller is done after at most three sections, however calls interleave |
| StoreCache.StoresAreAccountedFor | internal/storage/write_router.go:248-277 | every store made is exactly one of closed once, in the cache under its key, or held by exactly one caller that will install or close it |
| StoreCache.NoStoreLeaks | internal/storage/write_router.go:106-122 | with all callers done and the cache emptied every store made is closed |
| WriteRouter.NormalizeIdempotent | internal/storage/write_router.go:339-349 | normalising a domain twice changes nothing, so the lease is for the domain rows are grouped by |
| WriteRouter.RowRoute | internal/storage/write_router.go:298-307 | a row dated 1970 or later belongs to its normalised exchange and UTC year, any other to the clock's year |
| WriteRouter.RowDomain | internal/storage/write_router.go:298-356 | the group and lease of a row over its own fields: normalised exchange, market and symbol, kline or open interest, the interval or none, and the year of its open time, else of its time, else of the clock |
| WriteRouter.CollectorIDsTellApart | internal/storage/write_router.go:358-371 | without colons in the fields, normalised domains share a collector id exactly when equal up to an absent interval written as a dash |
| WriteRouter.GroupInInputOrder | internal/storage/write_router.go:124-133 | a group is exactly its domain's rows in input order |
| WriteRouter.GroupByDomain | internal/storage/write_router.go:124-133 | the grouping loop builds one such group for every domain that occurs |
| WriteRouter.Router.StoreFor | internal/storage/write_router.go:248-277 | returns an open store made for the key, the cached one if there is one; an error leaves the cache as it was, and takes a missing factory, an empty exchange, or a failing factory call for a key not in the cache |
| WriteRouter.Router.Close | internal/storage/write_router.go:106-122 | takes the cache's close step, in the order the map is visited |
| WriteRouter.Router.WriteGroup | internal/storage/write_router.go:134-148 | lease, store and write of one group, or exactly what a refusal leaves behind; it writes when nothing it calls fails |
| WriteRouter.Router.InsertBatch | internal/storage/write_router.go:124-149 | success delivers every group in the order visited, a failure those before the first group refused; it succeeds when nothing it calls fails and every row names an exchange |
| WriteRouter.RowsConserved | internal/storage/write_router.go:124-149 | a delivered batch stores the multiset of its input rows, whatever the order of its groups |
| WriteRouter.OneWritePerGroup | internal/storage/write_router.go:134-148 | one write for each group, of all its rows, to its store, right after a granted lease for its domain |
| WriteRouter.RowReachesItsStore | internal/storage/write_router.go:124-149 | each row is in the one write of its domain, to a store made for its normalised exchange and year |
| WriteRouter.LeaseBeforeWrite | internal/storage/write_router.go:225-237 | in every batch, delivered or refused, every write, even a failed one, directly follows a granted lease for its domain, and a domain refused its lease is not written |
| ClosedBars.FilterClosedKlines | internal/scraper/futureskline/kline.go:216-225 | keeps the bars closed by the clock |
| ClosedBars.ClosedSlice | internal/scraper/spotkline/kline.go:354-363 | of a page of consecutive bars these are the first ones, and the next bar is not closed |
| FuturesForward.Scraper.StoreKlinesWithPublish | internal/scraper/futureskline/kline.go:186-207 | inserts before it publishes, publishes nothing when the insert fails, and survives a failed publish |
| FuturesForward.Scraper.Forward | internal/scraper/futureskline/kline.go:103-139 | the polling loop is the fold of one tick over the ticks |
| FuturesForward.TickStores | internal/scraper/futureskline/kline.go:103-139 | a tick without a page or with no closed bar changes nothing; any other inserts exactly the closed bars, and if that works moves the cursor to the last one's close and tells the observer of that bar |
| FuturesForward.TickPublishesExactly | internal/scraper/futureskline/kline.go:186-236 | a tick publishes a bar, right after inserting it, if and only if there is a publisher, the cursor was set, the insert worked, and it is the page's only closed bar and closed at most 60 000 ms ago |
| FuturesForward.RunPublishesExactly | internal/scraper/futureskline/kline.go:103-139 | over any run the bars published are exactly those some tick publishes |
| FuturesForward.BatchIsSlice | internal/scraper/futureskline/kline.go:259-273 | what a tick stores is a row of consecutive closed bars, starting exactly after the cursor |
| FuturesForward.PublishesAreFresh | internal/scraper/futureskline/kline.go:186-236 | published bars were stored by the call before, are closed and at most 60 000 ms old, and close times strictly increase |
| FuturesForward.ForwardLosesNothing | internal/scraper/futureskline/kline.go:103-139 | whatever fails, every bar from the first seeded one up to the cursor is stored, and nothing of the bootstrap batch or older is ever published |
| SpotCatchUp.ClosedBatch | internal/scraper/spotkline/kline.go:262-276 | the closed bars of a page are the next ones; none is skipped, and a bar left out is not closed |
| SpotCatchUp.Scraper.CatchUpForward | internal/scraper/spotkline/kline.go:251-285 | terminates against any server, publishes nothing; against a faithful one the cursor never moves back, every bar between its start and end is stored, nothing else is added, and without an error no bar closed by the last clock reading is missing; it reports none when nothing foreign fails |
| SpotCatchUp.Scraper.HandleForwardKline | internal/scraper/spotkline/kline.go:244-334 | an open bar is ignored; a closed one moves the cursor past itself whether or not it is stored, and is given to the publisher exactly when it was inserted and there is one |
| SpotCatchUp.LiveKeepsFilled | internal/scraper/spotkline/kline.go:287-297 | bars up to the cursor stay complete if and only if none is missing before the live bar and the live bar is stored |
| SpotCatchUp.RunPublishes | internal/scraper/spotkline/kline.go:287-345 | over catch-ups and live bars in any order the publisher is given exactly the live bars inserted, in order |
| SpotCatchUp.RunKeepsFilled | internal/scraper/spotkline/kline.go:251-299 | over catch-ups and live bars in any order, bars from the first cursor to the last are all stored if and only if those live steps moved past are |
| SpotCatchUp.ForwardRunKeepsFilled | internal/scraper/spotkline/kline.go:251-299 | with no live bar behind the cursor, if and only if every live bar was stored and left no gap |
| SpotCatchUp.FailedLiveInsertLosesABar | internal/scraper/spotkline/kline.go:291-293 | a failed live insert leaves its bar behind the cursor, where no catch-up looks |
| WorkerTable.StepKeepsEntries | internal/controlplane/history_runtime.go:286-317 | an entry is always that of an unfinished, uncancelled worker for its id |
| WorkerTable.LosesTrackExactly | internal/controlplane/history_runtime.go:299-303 | the one step that loses track of an active worker is a worker finishing over another's entry |
| WorkerTable.TrackedThroughout | internal/controlplane/history_runtime.go:286-317 | a run always tracks every active worker if and only if that never happens |
| WorkerTable.OneEachThroughout | internal/controlplane/history_runtime.go:106-151 | no id ever has two unfinished workers if and only if no id is listed again while a worker of it is unfinished |
| WorkerTable.InFlightExactly | internal/controlplane/history_runtime.go:286-317 | without relisting the in-flight ids are exactly those with an unfinished uncancelled worker, and no id has two unfinished ones |
| WorkerTable.RelistingRunsTwo | internal/controlplane/history_runtime.go:299-303 | a run with relisting that ends with two active workers for one id |
| HistoricalRuntime.Runtime.WorkerFinished | internal/controlplane/history_runtime.go:299-303 | the finished worker's request id is free afterwards, every other entry as it was, and all active workers are still tracked exactly when no other worker's entry was under the id |
| HistoricalRuntime.Runtime.DropMissing | internal/controlplane/history_runtime.go:305-317 | cancels and forgets exactly the unlisted ids, in any order |
| HistoricalRuntime.Runtime.ReconcileOnce | internal/controlplane/history_runtime.go:106-151 | a pass takes the table's steps for its requests and afterwards exactly the runnable ids and the still-listed earlier ones are in flight |
| HistoricalRuntime.RunnableMeans | internal/controlplane/history_runtime.go:112-148 | a listed id is runnable exactly when a request of it is a kline request with both times and a configured exchange |
| HistoricalRuntime.RefusedMeans | internal/controlplane/history_runtime.go:112-140 | it is refused for its kind, else for a missing time, else for its exchange |
| HistoricalRuntime.RunRequest | internal/controlplane/history_runtime.go:153-246 | over the listed request's own fields: every row added is of its market, symbol and interval and opens in its range; ready means every year window of the range is, as the worker leaves it, and any segments were accepted; every report carries the covered range of the verification before it, and the segments reported are those stored; exactly one terminal report, the last, if and only if it does not crash, which takes an interval of no length and an existing table; against a faithful exchange that allows it there is no crash and coverage is never found incomplete, and when nothing foreign fails it ends ready |
| HistoricalRuntime.ReportAndVerify | internal/controlplane/history_runtime.go:200-246 | after a backfill: segments are reported first if there are any, a rejection ends the worker, and the second verification decides between ready, incomplete and failed |
| HistoricalRuntime.BackfillableBecomesReady | internal/controlplane/history_runtime.go:200-246 | a successful backfill of such an exchange makes the second verification Ready |

## Left out

- HTTP, WebSocket, gRPC, Kafka and SQL calls, JSON decoding, retries and rate limits: foreign or timed I/O, represented by oracles and arbitrary outcomes.
- Rows that do not parse: the backfill fails on one as the code does; the live scrapers skip one, and a faithful exchange sends none.
- Prices, volumes and trade counts: opaque payload.
- Database names and their templates: databases are told apart by exchange and year.
- Unicode text: letters, digits, case and white space are those of ASCII.
- The sorting algorithm of the standard library: open times are sorted by a specification function.
- Month and week intervals in coverage: the coverage parser rejects them, so a backfill with rows of such an interval fails.
- Live runtime: a zero drain deadline is represented as absent because clocks are past year 1, and the once-guards of Stop and shutdown are not modelled: shutdowns may come at any time and any number of times.
- Runtime.Runtime.ReconcileOnce: states a pass with no step of another goroutine in between; the interleavings are those of the state machine.
- LazyCreate.SingleFlight: states inserts that fail exactly when the table is absent and a CREATE that succeeds; LazyCreate.SafeWhateverFails covers all other failures.
- WriteRouter.Router.StoreFor: states a call with no other caller in between; concurrent calls are in StoreCache.
- WriteRouter: the wall clock shows 1970 or later and is read once per row; the nil router is not modelled; a batch of open interest rows takes the same method as a batch of klines.
- StoreCache: every store can be closed, and errors of closing are ignored as the code does.
- FuturesForward.ForwardLosesNothing: states the forward mode; the reverse mode adds one to its cursor twice and has no page completeness.
- SpotCatchUp: the reverse mode, the connection loop around the catch-up, message parsing and the observer.
- HistoricalRuntime.RunRequest: reports that fail to arrive are only logged by the code and are listed here as sent; the rewriting of segment keys for the report is not modelled.
- HistoricalRuntime.Runtime.ReconcileOnce: states a pass in which no worker finishes; the interleavings are those of WorkerTable.
- Order book, funding rate and open interest collectors, single-row routing, the planner, migrations and DDL text: easy members next to the rest.
