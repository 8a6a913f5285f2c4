/** The historical runtime: one reconcile pass over the listed requests, and what one
    worker does and reports. */
module HistoricalRuntime {
  import opened Wrappers
  import opened Calendar
  import opened Intervals
  import opened Klines
  import opened CoverageSegments
  import opened Exchange
  import opened Storage
  import opened YearWindows
  import opened Backfill
  import opened Coverage
  import opened Readiness
  import opened WorkerTable

  // ----- One reconcile pass -----

  datatype HistoricalRequest = HistoricalRequest(
    requestId: int,
    exchange: string,
    market: string,
    kind: string,
    symbol: string,
    interval: string,
    requestedStartAt: Option<Time>,
    requestedEndAt: Option<Time>)

  datatype Refusal = KindNotSupported | MissingTimeRange | ExchangeNotConfigured

  // Why a request is answered with an error instead of a worker.
  function RefusalOf(req: HistoricalRequest, configured: set<string>): Option<Refusal> {
    if req.kind != "kline" then Some(KindNotSupported)
    else if req.requestedStartAt.None? || req.requestedEndAt.None? then Some(MissingTimeRange)
    else if req.exchange !in configured then Some(ExchangeNotConfigured)
    else None
  }

  function SeenIds(requests: seq<HistoricalRequest>): set<int> {
    set req | req in requests && req.requestId > 0 :: req.requestId
  }

  function RunnableIds(requests: seq<HistoricalRequest>, configured: set<string>): set<int> {
    set req | req in requests && req.requestId > 0 && RefusalOf(req, configured).None? :: req.requestId
  }

  // What a pass starts and what it refuses, said of the fields of the listed requests.
  lemma RunnableMeans(requests: seq<HistoricalRequest>, configured: set<string>, id: int)
    ensures id in RunnableIds(requests, configured) <==>
            exists req :: req in requests && req.requestId == id && id > 0 && req.kind == "kline"
                          && req.requestedStartAt.Some? && req.requestedEndAt.Some? && req.exchange in configured
  {
  }

  lemma {:induction false} RefusedMeans(requests: seq<HistoricalRequest>, configured: set<string>, id: int,
                                        why: Refusal)
    ensures (id, why) in Refused(requests, configured) <==>
            exists req :: req in requests && req.requestId == id && id > 0
                          && match why
                             case KindNotSupported => req.kind != "kline"
                             case MissingTimeRange =>
                               req.kind == "kline" && (req.requestedStartAt.None? || req.requestedEndAt.None?)
                             case ExchangeNotConfigured =>
                               req.kind == "kline" && req.requestedStartAt.Some? && req.requestedEndAt.Some?
                               && req.exchange !in configured
  {
    if requests != [] {
      RefusedMeans(Front(requests), configured, id, why);
      assert requests == Front(requests) + [Last(requests)];
    }
  }

  // The table events of a pass, and the errors it reports.
  function Considered(requests: seq<HistoricalRequest>, configured: set<string>): seq<Event> {
    if requests == [] then []
    else
      var req := Last(requests);
      Considered(Front(requests), configured)
      + if req.requestId > 0 && RefusalOf(req, configured).None? then [Consider(req.requestId)] else []
  }

  function RefusedOne(req: HistoricalRequest, configured: set<string>): seq<(int, Refusal)> {
    match RefusalOf(req, configured)
    case None => []
    case Some(refusal) => [(req.requestId, refusal)]
  }

  function Refused(requests: seq<HistoricalRequest>, configured: set<string>): seq<(int, Refusal)> {
    if requests == [] then []
    else
      Refused(Front(requests), configured)
      + if Last(requests).requestId > 0 then RefusedOne(Last(requests), configured) else []
  }

  lemma {:induction false} RunSnoc(t: Table, events: seq<Event>, e: Event)
    requires CanRun(t, events) && Enabled(Run(t, events), e)
    ensures CanRun(t, events + [e]) && Run(t, events + [e]) == Step(Run(t, events), e)
    decreases |events|
  {
    hide Step, Enabled;
    if events == [] {
      assert events + [e] == [e];
      assert [e][1..] == [];
    } else {
      RunSnoc(Step(t, events[0]), events[1..], e);
      assert (events + [e])[1..] == events[1..] + [e];
    }
  }

  class Runtime {
    var table: Table
    var refused: seq<(int, Refusal)>
    const configured: set<string>

    constructor (configured: set<string>)
      ensures table == EMPTY && refused == [] && this.configured == configured
    {
      table, refused, this.configured := EMPTY, [], configured;
    }

    // untrack. Afterwards the request id is free for a new worker, whether the entry
    // was the finished worker's own or that of another one, which then runs on
    // without an entry.
    method WorkerFinished(w: nat)
      requires Enabled(table, Finish(w))
      modifies `table
      ensures table == Step(old(table), Finish(w))
      ensures table.workers[w].id !in table.inFlight
      ensures forall id :: id in table.inFlight <==> id in old(table).inFlight && id != table.workers[w].id
      ensures forall id :: id in table.inFlight ==> table.inFlight[id] == old(table).inFlight[id]
      ensures EntriesActive(old(table)) && Tracked(old(table)) ==>
                (Tracked(table) <==> !StaleFinish(old(table), Finish(w)))
    {
      LosesTrack(table, w);
      var workers := table.workers[w := table.workers[w].(finished := true)];
      table := Table(table.inFlight - {table.workers[w].id}, workers);
    }

    // cancelMissing; stopAll is the same with nothing seen.
    method DropMissing(seen: set<int>)
      modifies `table
      ensures table == Step(old(table), CancelMissing(seen))
    {
      hide Cancel, EntriesOf;
      ghost var was := table;
      var gone := table.inFlight.Keys - seen;
      var left, cancelled := gone, {};
      ghost var done: set<int> := {};
      NoEntries(was.inFlight);
      while left != {}
        invariant done + left == gone && done * left == {}
        invariant table.workers == was.workers && table.inFlight == was.inFlight - done
        invariant cancelled == EntriesOf(was.inFlight, done)
        decreases |left|
      {
        var id := PickAny(left);
        OneMoreEntry(was.inFlight, done, id);
        cancelled := cancelled + {table.inFlight[id]};
        table := table.(inFlight := table.inFlight - {id});
        left, done := left - {id}, done + {id};
      }
      assert done == gone;
      table := table.(workers := Cancel(table.workers, cancelled));
    }

    // One listed request: refused, or tracked with a new worker unless in flight.
    method ConsiderRequest(req: HistoricalRequest)
      requires req.requestId > 0
      modifies this
      ensures refused == old(refused) + RefusedOne(req, configured)
      ensures table == if RefusalOf(req, configured).None? then Step(old(table), Consider(req.requestId))
                       else old(table)
    {
      if req.kind != "kline" {
        refused := refused + [(req.requestId, KindNotSupported)];
        return;
      }
      if req.requestedStartAt.None? || req.requestedEndAt.None? {
        refused := refused + [(req.requestId, MissingTimeRange)];
        return;
      }
      if req.exchange !in configured {
        refused := refused + [(req.requestId, ExchangeNotConfigured)];
        return;
      }
      if req.requestId in table.inFlight {
        return;
      }
      table := Track(table, req.requestId);
    }

    // A pass in which no worker finishes: its sections in order. Afterwards exactly
    // the runnable ids listed, and those in flight before and still listed, are in
    // flight; a failed listing changes nothing.
    method ReconcileOnce(listing: Option<seq<HistoricalRequest>>) returns (ok: bool)
      modifies this
      ensures ok == listing.Some?
      ensures !ok ==> table == old(table) && refused == old(refused)
      ensures ok ==>
        && refused == old(refused) + Refused(listing.value, configured)
        && CanRun(old(table), Considered(listing.value, configured))
        && table == Drop(Run(old(table), Considered(listing.value, configured)), SeenIds(listing.value))
        && table.inFlight.Keys ==
           old(table).inFlight.Keys * SeenIds(listing.value) + RunnableIds(listing.value, configured)
    {
      hide Run, CanRun, RefusalOf, SeenIds, RunnableIds, Cancel, RefusedOne, Unlisted;
      if listing.None? {
        return false;
      }
      var requests := listing.value;
      ghost var was := table;
      var seen: set<int> := {};
      NothingConsidered(was, configured);
      for i := 0 to |requests|
        invariant seen == SeenIds(requests[..i])
        invariant refused == old(refused) + Refused(requests[..i], configured)
        invariant CanRun(was, Considered(requests[..i], configured))
        invariant table == Run(was, Considered(requests[..i], configured))
        invariant table.inFlight.Keys == was.inFlight.Keys + RunnableIds(requests[..i], configured)
      {
        assert Front(requests[..i + 1]) == requests[..i];
        assert Considered(requests[..i], configured) + [] == Considered(requests[..i], configured);
        var req := requests[i];
        IdsGrow(requests, i, configured);
        if req.requestId <= 0 {
          continue;
        }
        if RefusalOf(req, configured).None? {
          RunSnoc(was, Considered(requests[..i], configured), Consider(req.requestId));
        }
        seen := seen + {req.requestId};
        ConsiderRequest(req);
      }
      assert requests[..|requests|] == requests;
      DropMissing(seen);
      RunnableAreSeen(requests, configured);
      return true;
    }
  }

  lemma LosesTrack(t: Table, w: nat)
    requires Enabled(t, Finish(w))
    ensures EntriesActive(t) && Tracked(t) ==> (Tracked(Step(t, Finish(w))) <==> !StaleFinish(t, Finish(w)))
  {
    if EntriesActive(t) && Tracked(t) {
      LosesTrackExactly(t, Finish(w));
    }
  }

  lemma NoEntries(inFlight: map<int, nat>)
    ensures EntriesOf(inFlight, {}) == {}
  {
  }

  lemma OneMoreEntry(inFlight: map<int, nat>, ids: set<int>, id: int)
    requires id in inFlight
    ensures EntriesOf(inFlight, ids + {id}) == EntriesOf(inFlight, ids) + {inFlight[id]}
    ensures inFlight - ids - {id} == inFlight - (ids + {id})
  {
  }

  lemma NothingConsidered(t: Table, configured: set<string>)
    ensures CanRun(t, []) && Run(t, []) == t
    ensures SeenIds([]) == {} && RunnableIds([], configured) == {}
  {
  }

  lemma IdsGrow(requests: seq<HistoricalRequest>, i: nat, configured: set<string>)
    requires i < |requests|
    ensures SeenIds(requests[..i + 1]) ==
              SeenIds(requests[..i]) + if requests[i].requestId > 0 then {requests[i].requestId} else {}
    ensures RunnableIds(requests[..i + 1], configured) == RunnableIds(requests[..i], configured)
              + (if requests[i].requestId > 0 && RefusalOf(requests[i], configured).None? then {requests[i].requestId}
                 else {})
  {
    hide RefusalOf;
    assert requests[..i + 1] == requests[..i] + [requests[i]];
  }

  lemma RunnableAreSeen(requests: seq<HistoricalRequest>, configured: set<string>)
    ensures RunnableIds(requests, configured) <= SeenIds(requests)
  {
  }

  // ----- One worker -----

  datatype Failure =
    | VerificationFailed(message: string)
    | BackfillFailed(message: string)
    | SegmentsRejected
    | CoverageIncomplete

  datatype Report =
    | Running(start: Option<Time>, end: Option<Time>)
    | Segments(segments: seq<CoverageSegment>, accepted: bool)
    | Verifying(start: Option<Time>, end: Option<Time>)
    | Ready(start: Option<Time>, end: Option<Time>)
    | Error(failure: Failure, start: Option<Time>, end: Option<Time>)

  predicate Terminal(r: Report) {
    r.Ready? || r.Error?
  }

  function RequestOf(req: HistoricalRequest): KlineRequest
    requires req.requestedStartAt.Some? && req.requestedEndAt.Some?
  {
    KlineRequest(req.exchange, req.market, req.symbol, req.interval,
                 req.requestedStartAt.value, req.requestedEndAt.value)
  }

  // What a listed request asks of the exchange, once its texts are normalised.
  ghost function Asked(historical: HistoricalRequest): KlineRequest
    requires historical.requestedStartAt.Some? && historical.requestedEndAt.Some?
  {
    KlineRequest(
      "binance",
      ToLower(TrimSpace(historical.market)),
      ToUpper(TrimSpace(historical.symbol)),
      if TrimSpace(historical.interval) == "" then "1m" else TrimSpace(historical.interval),
      historical.requestedStartAt.value,
      historical.requestedEndAt.value)
  }

  lemma AskedIs(historical: HistoricalRequest)
    requires historical.requestedStartAt.Some? && historical.requestedEndAt.Some?
    ensures WellFormed(RequestOf(historical)) ==> NormalizeKlineRequest(RequestOf(historical)) == Asked(historical)
    ensures IntervalAsked(RequestOf(historical)) == Asked(historical).interval
  {
    hide TrimSpace, ToUpper, IntervalDuration;
    assert ToLower("binance") == "binance";
    hide ToLower;
  }

  // Every year window of the range asked for is Ready.
  ghost predicate AllReady(databases: map<int, Database>, historical: HistoricalRequest)
    requires historical.requestedStartAt.Some? && historical.requestedEndAt.Some?
  {
    forall w :: w in SplitYears(historical.requestedStartAt.value, historical.requestedEndAt.value) ==>
      WindowReady(databases, Asked(historical), w)
  }

  // The covered range of the rows stored in the range asked for: from the first open
  // time to one interval after the last.
  ghost predicate Covered(databases: map<int, Database>, historical: HistoricalRequest, start: Option<Time>,
                          end: Option<Time>)
    requires historical.requestedStartAt.Some? && historical.requestedEndAt.Some?
  {
    var req := Asked(historical);
    var times := AllStoredTimes(databases, req,
                                SplitYears(historical.requestedStartAt.value, historical.requestedEndAt.value));
    && IntervalDuration(req.interval).Success?
    && IsLeast(start, times) && EndsCoverage(end, times, IntervalDuration(req.interval).value)
  }

  // A report carries the covered range found by the latest verification before it, and
  // none if that failed.
  ghost predicate RangeReported(before: map<int, Database>, after: map<int, Database>, historical: HistoricalRequest,
                                report: Report)
    requires historical.requestedStartAt.Some? && historical.requestedEndAt.Some?
  {
    match report
    case Segments(_, _) => true
    case Ready(start, end) => Covered(after, historical, start, end)
    case Error(VerificationFailed(_), start, end) => start == None && end == None
    case Error(CoverageIncomplete, start, end) => Covered(after, historical, start, end)
    case _ => Covered(before, historical, report.start, report.end)
  }

  // Every row added is of the market, symbol and interval listed, and opens in the
  // range listed.
  ghost predicate AddsOnlyListed(before: map<int, Database>, after: map<int, Database>,
                                 historical: HistoricalRequest)
    requires historical.requestedStartAt.Some? && historical.requestedEndAt.Some?
  {
    forall y, key :: y in after && key in after[y].rows && IsNew(before, y, key) ==>
      var k := after[y].rows[key];
      && k.market == ToLower(TrimSpace(historical.market))
      && k.symbol == ToUpper(TrimSpace(historical.symbol))
      && k.interval == (if TrimSpace(historical.interval) == "" then "1m" else TrimSpace(historical.interval))
      && historical.requestedStartAt.value <= k.openTime < historical.requestedEndAt.value
  }

  lemma AddsOnlyListedIs(before: map<int, Database>, historical: HistoricalRequest)
    requires historical.requestedStartAt.Some? && historical.requestedEndAt.Some?
    ensures forall after :: AddsOnlyAsked(before, after, RequestOf(historical)) ==>
              AddsOnlyListed(before, after, historical)
  {
    hide TrimSpace, ToLower, ToUpper;
  }

  // The conditions under which a finished backfill earns a Ready answer: an interval
  // of fixed length, a millisecond-aligned end, an alphanumeric symbol, an exchange
  // with a bar at every lattice point, and at least one in every window, and rows
  // stored before with equal time and open time, as every writer stores them.
  ghost predicate Backfillable(before: map<int, Database>, bars: seq<Bar>, historical: HistoricalRequest, phase: Time,
                               step: int)
    requires historical.requestedStartAt.Some? && historical.requestedEndAt.Some?
    requires ValidBars(bars) && step > 0
  {
    var req := Asked(historical);
    && Alphanumeric(req.symbol)
    && IntervalDuration(req.interval) == Success(step)
    && FromMilli(FloorMilli(req.endAt)) == req.endAt
    && (forall y :: y in before ==> TimesAgree(before[y]))
    && (forall w :: w in SplitYears(req.startAt, req.endAt) ==>
          HoldsLattice(bars, w, phase, step) && HasBar(bars, w))
  }

  lemma {:induction false} BackfillableBecomesReady(before: map<int, Database>, after: map<int, Database>,
                                                    bars: seq<Bar>, historical: HistoricalRequest, phase: Time,
                                                    step: int)
    requires historical.requestedStartAt.Some? && historical.requestedEndAt.Some?
    requires ValidBars(bars) && step > 0 && Backfillable(before, bars, historical, phase, step)
    requires WellFormed(RequestOf(historical))
    requires OnlyAdds(before, after, Asked(historical))
    requires var req := Asked(historical);
             forall w :: w in SplitYears(req.startAt, req.endAt) ==>
               YearFilled(before, after, w, ServedRows(bars, req, w))
    ensures AllReady(after, historical)
  {
    hide NormalizeKlineRequest, ValidBars, ValidKlineRequest, OnlyAdds, YearFilled, ServedRows, HoldsLattice, HasBar;
    hide WindowReady, WellFormed, TrimSpace, ToLower, ToUpper;
    hide OldRowsAreBars, TimesAgree, SplitYears, FloorMilli, FromMilli, IntervalDuration, Alphanumeric, IsNormalized;
    AskedIs(historical);
    WellFormedIsValid(RequestOf(historical));
    NormalizedRequest(RequestOf(historical));
    BackfillIsReady(before, after, bars, Asked(historical), phase, step);
  }

  // Exactly one terminal report, and it is the last.
  predicate EndsOnce(reports: seq<Report>) {
    && reports != []
    && Terminal(Last(reports))
    && forall i :: 0 <= i < |reports| - 1 ==> !Terminal(reports[i])
  }

  // The orders in which a worker reports.
  predicate InOrder(reports: seq<Report>) {
    || |reports| == 1
    || (|reports| == 2 && reports[0].Running? && reports[1].Error?)
    || (|reports| == 3 && reports[0].Running? && reports[1].Segments? && !reports[1].accepted && reports[2].Error?)
    || (|reports| == 3 && reports[0].Running? && reports[1].Verifying?)
    || (|reports| == 4 && reports[0].Running? && reports[1].Segments? && reports[1].accepted && reports[2].Verifying?)
  }

  // A worker reports ready only when its latest verification was, over the databases
  // as it leaves them, and any segments its backfill produced were accepted; and
  // against a faithful exchange that allows it, it never finds the coverage
  // incomplete after a backfill. It ends with exactly one terminal report if and only
  // if it does not crash: only an interval of no length can make it, by a division by
  // zero once the table of a window is there. When nothing foreign fails, it ends ready.
  method RunRequest(cluster: Cluster, server: Server, accepts: seq<CoverageSegment> -> bool,
                    historical: HistoricalRequest, ghost bars: seq<Bar>, ghost phase: Time, ghost step: int)
    returns (reports: seq<Report>, crashed: bool, ghost produced: seq<CoverageSegment>)
    requires historical.requestedStartAt.Some? && historical.requestedEndAt.Some?
    requires ValidBars(bars) && step > 0
    modifies cluster
    ensures EndsOnce(reports) <==> !crashed
    ensures !crashed ==> InOrder(reports)
    ensures crashed ==> CanCrash(cluster.databases, historical)
    ensures OnlyAdds(old(cluster.databases), cluster.databases, NormalizeKlineRequest(RequestOf(historical)))
    ensures AddsOnlyListed(old(cluster.databases), cluster.databases, historical)
    ensures !crashed && Last(reports).Ready? ==>
              AllReady(cluster.databases, historical) && !CanCrash(cluster.databases, historical)
    ensures !crashed && Incomplete(Last(reports)) ==>
              !AllReady(cluster.databases, historical) && !CanCrash(cluster.databases, historical)
    ensures forall r :: r in reports ==> RangeReported(old(cluster.databases), cluster.databases, historical, r)
    ensures forall r :: r in reports && r.Segments? ==> r == Segments(produced, accepts(produced))
    ensures !crashed && Last(reports).Ready? && produced != [] ==> Segments(produced, true) in reports
    ensures |reports| <= 1 ==> produced == [] && cluster.databases == old(cluster.databases)
    ensures |reports| > 2 ==>
              CoversStored(old(cluster.databases), cluster.databases, Asked(historical), produced)
    ensures Faithful(server, bars) && Backfillable(old(cluster.databases), bars, historical, phase, step) ==>
              !crashed && !Incomplete(Last(reports))
    ensures Faithful(server, bars) && Backfillable(old(cluster.databases), bars, historical, phase, step) ==>
              WellFormed(RequestOf(historical)) && CoverageIntervalDuration(Asked(historical).interval).Success? ==>
              cluster.AllWork() && Responsive(server) && (forall segments :: accepts(segments)) ==>
              Last(reports).Ready?
  {
    hide NormalizeKlineRequest, ValidBars, OnlyAdds, YearFilled, ServedRows, WindowReady, Faithful, Asked, Base;
    hide SplitYears, IntervalDuration, IsLeast, EndsCoverage, AllStoredTimes, Runs, AppendPages, WellFormed;
    hide CoverageIntervalDuration, Queryable, CoversStored, AddsOnlyListed, AddsOnlyAsked, LabelledFor, HoldsBars;
    hide Responsive, Covered, AllReady, CanCrash, StepOf, OpenTimes, RequestOf;
    reports, crashed, produced := [], false, [];
    var request := RequestOf(historical);
    ghost var before := cluster.databases;
    AddsNothing(before, NormalizeKlineRequest(request));
    OnlyAddsAsked(before, request);
    AddsOnlyListedIs(before, historical);
    AskedIs(historical);
    if Backfillable(before, bars, historical, phase, step) {
      BackfillableCannotCrash(before, bars, historical, phase, step);
    }
    hide Backfillable;
    var verified := VerifyKlineCoverage(cluster, request);
    VerifiedMeans(cluster.databases, historical, verified);
    if verified.Panicked? {
      return [], true, produced;
    }
    if verified.Failed? {
      return [Error(VerificationFailed(verified.error), None, None)], false, produced;
    }
    var cov := verified.value;
    if cov.ready {
      return [Ready(cov.coveredStartAt, cov.coveredEndAt)], false, produced;
    }
    reports := [Running(cov.coveredStartAt, cov.coveredEndAt)];
    var ran, pages := RunKlineRequest(cluster, server, request, bars);
    if ran.Failure? {
      reports := reports + [Error(BackfillFailed(ran.error), cov.coveredStartAt, cov.coveredEndAt)];
      return;
    }
    var segments := ran.value;
    produced := segments;
    if Faithful(server, bars) && Backfillable(before, bars, historical, phase, step) {
      BackfillableBecomesReady(before, cluster.databases, bars, historical, phase, step);
    }
    var rest, panicked := ReportAndVerify(cluster, accepts, historical, segments, cov);
    crashed := panicked;
    ghost var after := cluster.databases;
    ghost var told := if segments == [] then [] else [Segments(segments, accepts(segments))];
    ReportsJoin(before, after, historical, reports[0], told, Verifying(cov.coveredStartAt, cov.coveredEndAt), rest,
                crashed);
    reports := reports + rest;
  }

  // The reports of a whole worker that ran its backfill.
  lemma ReportsJoin(before: map<int, Database>, after: map<int, Database>, historical: HistoricalRequest,
                    running: Report, told: seq<Report>, verifying: Report, rest: seq<Report>, crashed: bool)
    requires historical.requestedStartAt.Some? && historical.requestedEndAt.Some?
    requires running.Running? && verifying == Verifying(running.start, running.end)
    requires Covered(before, historical, running.start, running.end)
    requires told == [] || (|told| == 1 && told[0].Segments?)
    requires if told != [] && !told[0].accepted then
               !crashed && rest == told + [Error(SegmentsRejected, running.start, running.end)]
             else if crashed then
               rest == told + [verifying]
             else
               rest != [] && rest == told + [verifying] + [Last(rest)] && Concludes(after, historical, Last(rest))
    ensures var reports := [running] + rest;
            && (EndsOnce(reports) <==> !crashed) && (!crashed ==> InOrder(reports))
            && (forall r :: r in reports ==> RangeReported(before, after, historical, r))
            && (forall r :: r in reports && r.Segments? ==> told == [r])
            && (!crashed && Last(reports).Ready? && told != [] ==> told[0].accepted && told[0] in reports)
            && (!crashed && Last(reports).Ready? ==>
                  AllReady(after, historical) && !CanCrash(after, historical))
            && (!crashed && Incomplete(Last(reports)) ==>
                  !AllReady(after, historical) && !CanCrash(after, historical))
            && |reports| > 1 && Last(reports) == Last(rest)
  {
    hide Covered, AllReady, CanCrash;
  }

  // What a verification lets a worker conclude.
  ghost predicate Concludes(databases: map<int, Database>, historical: HistoricalRequest, last: Report)
    requires historical.requestedStartAt.Some? && historical.requestedEndAt.Some?
  {
    || (last.Error? && last.failure.VerificationFailed? && last.start == last.end == None)
    || (last.Ready? && AllReady(databases, historical) && !CanCrash(databases, historical)
        && Covered(databases, historical, last.start, last.end))
    || (Incomplete(last) && !AllReady(databases, historical) && !CanCrash(databases, historical)
        && Covered(databases, historical, last.start, last.end))
  }

  // After a backfill: its segments are reported, if there are any, and once accepted the
  // range is verified again.
  method ReportAndVerify(cluster: Cluster, accepts: seq<CoverageSegment> -> bool, historical: HistoricalRequest,
                         segments: seq<CoverageSegment>, cov: CoverageReport)
    returns (reports: seq<Report>, crashed: bool)
    requires historical.requestedStartAt.Some? && historical.requestedEndAt.Some?
    modifies cluster`calls
    ensures crashed ==> CanCrash(cluster.databases, historical)
    ensures var told := if segments == [] then [] else [Segments(segments, accepts(segments))];
            var verifying := [Verifying(cov.coveredStartAt, cov.coveredEndAt)];
            if segments != [] && !accepts(segments) then
              !crashed && reports == told + [Error(SegmentsRejected, cov.coveredStartAt, cov.coveredEndAt)]
            else if crashed then
              reports == told + verifying
            else
              reports != [] && reports == told + verifying + [Last(reports)]
              && Concludes(cluster.databases, historical, Last(reports))
    ensures WellFormed(RequestOf(historical)) && cluster.AllWork() && !crashed ==>
              segments == [] || accepts(segments) ==>
              Last(reports).Ready? || Incomplete(Last(reports))
  {
    hide NormalizeKlineRequest, WindowReady, SplitYears, IntervalDuration, IsLeast, EndsCoverage, AllStoredTimes;
    hide WellFormed, Queryable, Covered, AllReady, CanCrash, RequestOf;
    reports, crashed := [], false;
    if |segments| > 0 {
      var accepted := accepts(segments);
      reports := reports + [Segments(segments, accepted)];
      if !accepted {
        reports := reports + [Error(SegmentsRejected, cov.coveredStartAt, cov.coveredEndAt)];
        return;
      }
    }
    reports := reports + [Verifying(cov.coveredStartAt, cov.coveredEndAt)];
    var verified := VerifyKlineCoverage(cluster, RequestOf(historical));
    VerifiedMeans(cluster.databases, historical, verified);
    match verified
    case Panicked => crashed := true;
    case Failed(error) => reports := reports + [Error(VerificationFailed(error), None, None)];
    case Returned(found) =>
      reports := reports
        + [if found.ready then Ready(found.coveredStartAt, found.coveredEndAt)
           else Error(CoverageIncomplete, found.coveredStartAt, found.coveredEndAt)];
  }

  predicate Incomplete(r: Report) {
    r.Error? && r.failure.CoverageIncomplete?
  }

  // The interval has no length, and the table of some window is there.
  ghost predicate CanCrash(databases: map<int, Database>, historical: HistoricalRequest)
    requires historical.requestedStartAt.Some? && historical.requestedEndAt.Some?
  {
    var req := Asked(historical);
    && IntervalDuration(req.interval) == Success(0)
    && exists w :: w in SplitYears(req.startAt, req.endAt) && Queryable(databases, req, w)
  }

  // A verification, said of the listed request.
  lemma VerifiedMeans(databases: map<int, Database>, historical: HistoricalRequest, r: Verdict<CoverageReport>)
    requires historical.requestedStartAt.Some? && historical.requestedEndAt.Some?
    requires !WellFormed(RequestOf(historical)) ==> r.Failed?
    requires var req := NormalizeKlineRequest(RequestOf(historical));
             var windows := SplitYears(req.startAt, req.endAt);
             var times := AllStoredTimes(databases, req, windows);
             && (r.Returned? ==>
                   && IntervalDuration(req.interval).Success?
                   && (r.value.ready <==> forall w :: w in windows ==> WindowReady(databases, req, w))
                   && IsLeast(r.value.coveredStartAt, times)
                   && EndsCoverage(r.value.coveredEndAt, times, IntervalDuration(req.interval).value))
             && (r.Panicked? ==> IntervalDuration(req.interval) == Success(0)
                                 && exists w :: w in windows && Queryable(databases, req, w))
             && (r.Returned? && IntervalDuration(req.interval) == Success(0) ==>
                   forall w :: w in windows ==> !Queryable(databases, req, w))
    ensures r.Returned? ==>
              && (r.value.ready <==> AllReady(databases, historical)) && !CanCrash(databases, historical)
              && Covered(databases, historical, r.value.coveredStartAt, r.value.coveredEndAt)
    ensures r.Panicked? ==> CanCrash(databases, historical)
  {
    AskedIs(historical);
    hide NormalizeKlineRequest, SplitYears, AllStoredTimes, IntervalDuration, IsLeast, EndsCoverage, WindowReady;
    hide Queryable, WellFormed, TrimSpace, ToLower, ToUpper;
  }

  lemma BackfillableCannotCrash(before: map<int, Database>, bars: seq<Bar>, historical: HistoricalRequest, phase: Time,
                                step: int)
    requires historical.requestedStartAt.Some? && historical.requestedEndAt.Some?
    requires ValidBars(bars) && step > 0 && Backfillable(before, bars, historical, phase, step)
    ensures forall databases :: !CanCrash(databases, historical)
  {
    hide SplitYears, Queryable, IntervalDuration, Asked;
  }
}
