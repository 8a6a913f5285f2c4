/** Running a historical kline request: paging one year window at a time, keeping
    the rows opened inside it, storing them and recording their coverage. */
module Backfill {
  import opened Wrappers
  import opened Calendar
  import opened Intervals
  import opened Klines
  import opened CoverageSegments
  import opened Exchange
  import opened Storage
  import opened YearWindows

  datatype KlineRequest = KlineRequest(
    exchange: string,
    market: string,
    symbol: string,
    interval: string,
    startAt: Time,
    endAt: Time)

  function NormalizeKlineRequest(req: KlineRequest): KlineRequest {
    var exchange := ToLower(TrimSpace(req.exchange));
    var interval := TrimSpace(req.interval);
    KlineRequest(
      if exchange == "" then "binance" else exchange,
      ToLower(TrimSpace(req.market)),
      ToUpper(TrimSpace(req.symbol)),
      if interval == "" then "1m" else interval,
      req.startAt,
      req.endAt)
  }

  predicate ValidKlineRequest(req: KlineRequest) {
    && (req.market == "spot" || req.market == "futures")
    && req.symbol != ""
    && req.interval != ""
    && req.startAt < req.endAt
    && IntervalDuration(req.interval).Success?
  }

  // ----- What the exchange answers -----

  // One row of a response; a malformed row is one that restRowToKline rejects.
  datatype Row = Malformed | Row(bar: Bar)

  datatype Response = FetchError | Page(rows: seq<Row>)

  // Any server: the answer to the n-th call may depend on everything.
  type Server = (nat, int, int) -> Response

  function PageOf(bars: seq<Bar>): Response {
    Page(seq(|bars|, i requires 0 <= i < |bars| => Row(bars[i])))
  }

  // A server that lists a fixed set of bars, when it answers at all.
  ghost predicate Faithful(server: Server, bars: seq<Bar>)
    requires ValidBars(bars)
  {
    forall n, s, e :: server(n, s, e).FetchError? || AnswersFaithfully(server(n, s, e), bars, s, e)
  }

  // A server that always answers.
  ghost predicate Responsive(server: Server) {
    forall n, s, e :: server(n, s, e).Page?
  }

  ghost predicate AnswersFaithfully(response: Response, bars: seq<Bar>, startMs: int, endMs: int)
    requires ValidBars(bars)
  {
    exists page :: FaithfulPage(bars, startMs, endMs, page) && response == PageOf(page)
  }

  function BarToKline(bar: Bar, req: KlineRequest): Kline {
    Kline(FromMilli(bar.openMs), req.symbol, req.market, "binance", req.interval,
          FromMilli(bar.openMs), FromMilli(bar.closeMs), bar.payload)
  }

  function BarsToKlines(bars: seq<Bar>, req: KlineRequest): seq<Kline> {
    seq(|bars|, i requires 0 <= i < |bars| => BarToKline(bars[i], req))
  }

  // ----- Keeping the rows opened inside the window -----

  predicate InWindow(k: Kline, window: Window) {
    window.start <= k.openTime < window.end
  }

  function Kept(klines: seq<Kline>, window: Window): seq<Kline> {
    if klines == [] then []
    else Kept(Front(klines), window) + if InWindow(Last(klines), window) then [Last(klines)] else []
  }

  lemma {:induction false} KeptMembers(klines: seq<Kline>, window: Window)
    ensures |Kept(klines, window)| <= |klines|
    ensures forall k :: k in Kept(klines, window) <==> k in klines && InWindow(k, window)
  {
    if klines != [] {
      KeptMembers(Front(klines), window);
      assert klines == Front(klines) + [Last(klines)];
    }
  }

  // Compacts the buffer in place, as appending to klines[:0] does.
  method FilterKlinesForWindow(klines: array<Kline>, window: Window) returns (n: nat)
    modifies klines
    ensures n <= klines.Length
    ensures klines[..n] == Kept(old(klines[..]), window)
  {
    n := 0;
    ghost var was := klines[..];
    for i := 0 to klines.Length
      invariant n <= i
      invariant klines[..n] == Kept(was[..i], window)
      invariant forall j :: i <= j < klines.Length ==> klines[j] == was[j]
    {
      assert Front(was[..i + 1]) == was[..i] && Last(was[..i + 1]) == was[i];
      var kline := klines[i];
      if kline.openTime < window.start || !(kline.openTime < window.end) {
        continue;
      }
      ghost var kept := klines[..n];
      klines[n] := kline;
      n := n + 1;
      assert klines[..n] == kept + [kline];
    }
    assert was[..klines.Length] == was;
  }

  // ----- What a faithful server serves for a window -----

  function CeilMilli(t: Time): int {
    -((-t) / NANOS_PER_MILLI)
  }

  // Of the first n bars, those opened at or after start.
  function Since(bars: seq<Bar>, start: Time, n: nat): seq<Bar>
    requires ValidBars(bars) && n <= |bars|
  {
    var c := OpenedBefore(bars, CeilMilli(start));
    bars[if c <= n then c else n..n]
  }

  // The bars opened at or after start and before a millisecond.
  function Served(bars: seq<Bar>, start: Time, endMs: int): seq<Bar>
    requires ValidBars(bars)
  {
    Since(bars, start, OpenedBefore(bars, endMs))
  }

  lemma ServedMembers(bars: seq<Bar>, start: Time, endMs: int)
    requires ValidBars(bars)
    ensures forall b :: b in Served(bars, start, endMs) <==>
              b in bars && start <= FromMilli(b.openMs) && b.openMs < endMs
  {
    var n, c := OpenedBefore(bars, endMs), OpenedBefore(bars, CeilMilli(start));
    var lo := if c <= n then c else n;
    forall b | b in bars && start <= FromMilli(b.openMs) && b.openMs < endMs
      ensures b in bars[lo..n]
    {
      var i :| 0 <= i < |bars| && bars[i] == b;
      assert bars[i].openMs >= CeilMilli(start);
      assert lo <= i < n;
      assert bars[lo..n][i - lo] == b;
    }
  }

  // Paging asks for bars up to the millisecond the window's end falls in. Nothing
  // opened in the window is missed if and only if the end is on a millisecond, or
  // no bar of the window opens at the millisecond it falls in.
  lemma ServedIsComplete(bars: seq<Bar>, window: Window)
    requires ValidBars(bars)
    ensures (forall b :: b in bars && window.start <= FromMilli(b.openMs) < window.end ==>
               b in Served(bars, window.start, FloorMilli(window.end)))
       <==> (FromMilli(FloorMilli(window.end)) == window.end
             || forall b :: b in bars && window.start <= FromMilli(b.openMs) ==> b.openMs != FloorMilli(window.end))
  {
    hide ValidBars, Served;
    ServedMembers(bars, window.start, FloorMilli(window.end));
    MilliBefore(window.end);
  }

  // A window one nanosecond into a millisecond: the bar that opens at that millisecond
  // is opened in the window and never served.
  lemma WindowEndInsideAMilli() returns (bars: seq<Bar>, window: Window, missed: Bar)
    ensures ValidBars(bars) && missed in bars && window.start <= FromMilli(missed.openMs) < window.end
    ensures window.end == FromMilli(missed.openMs) + 1
    ensures missed !in Served(bars, window.start, FloorMilli(window.end))
  {
    bars := [Bar(0, 59_999, "a"), Bar(60_000, 119_999, "b")];
    missed := bars[1];
    window := Window(0, FromMilli(60_000) + 1);
    ServedMembers(bars, window.start, FloorMilli(window.end));
  }

  lemma MilliBefore(end: Time)
    ensures forall ms :: FromMilli(ms) < end <==>
              ms < FloorMilli(end) || (ms == FloorMilli(end) && FromMilli(FloorMilli(end)) != end)
  {
  }

  // Filtering a page keeps the bars of it opened in the window.
  lemma {:induction false} KeptSlice(bars: seq<Bar>, req: KlineRequest, window: Window, i: nat, j: nat)
    requires ValidBars(bars) && i <= j <= |bars|
    requires j > 0 ==> FromMilli(bars[j - 1].openMs) < window.end
    ensures var c := OpenedBefore(bars, CeilMilli(window.start));
            var lo := if c <= i then i else if c <= j then c else j;
            Kept(BarsToKlines(bars[i..j], req), window) == BarsToKlines(bars[lo..j], req)
    decreases j - i
  {
    hide CeilMilli, FromMilli, BarToKline, ValidBars, OpenedBefore, Kept, BarsToKlines, InWindow;
    var c := OpenedBefore(bars, CeilMilli(window.start));
    if i == j {
      NothingKept(req, window);
      assert bars[i..j] == [];
    } else {
      OpenIsMilli(bars, j, req, window);
      KeptSlice(bars, req, window, i, j - 1);
      KeptSnoc(bars, req, window, i, j);
      var lo := if c <= i then i else if c <= j then c else j;
      if c <= j - 1 {
        KlinesSnoc(bars, req, lo, j);
      } else {
        assert bars[lo..j] == bars[j - 1..j - 1];
      }
    }
  }

  lemma NothingKept(req: KlineRequest, window: Window)
    ensures BarsToKlines([], req) == [] && Kept([], window) == []
  {
  }

  lemma KlinesSnoc(bars: seq<Bar>, req: KlineRequest, i: nat, j: nat)
    requires i < j <= |bars|
    ensures BarsToKlines(bars[i..j], req) == BarsToKlines(bars[i..j - 1], req) + [BarToKline(bars[j - 1], req)]
  {
    hide BarToKline;
    assert bars[i..j] == bars[i..j - 1] + [bars[j - 1]];
    BarsToKlinesJoin(bars[i..j - 1], [bars[j - 1]], req);
  }

  lemma KeptSnoc(bars: seq<Bar>, req: KlineRequest, window: Window, i: nat, j: nat)
    requires i < j <= |bars|
    ensures var last := BarToKline(bars[j - 1], req);
            Kept(BarsToKlines(bars[i..j], req), window)
            == Kept(BarsToKlines(bars[i..j - 1], req), window) + if InWindow(last, window) then [last] else []
  {
    KlinesSnoc(bars, req, i, j);
    hide BarToKline, InWindow, BarsToKlines;
    var page, last := BarsToKlines(bars[i..j], req), BarToKline(bars[j - 1], req);
    assert Front(page) == BarsToKlines(bars[i..j - 1], req) && Last(page) == last;
  }

  lemma OpenIsMilli(bars: seq<Bar>, j: nat, req: KlineRequest, window: Window)
    requires ValidBars(bars) && 0 < j <= |bars|
    requires FromMilli(bars[j - 1].openMs) < window.end
    ensures InWindow(BarToKline(bars[j - 1], req), window) <==> OpenedBefore(bars, CeilMilli(window.start)) <= j - 1
    ensures j > 1 ==> FromMilli(bars[j - 2].openMs) < window.end
  {
    assert bars[j - 1].openMs >= CeilMilli(window.start) <==> FromMilli(bars[j - 1].openMs) >= window.start;
  }

  // ----- One window -----

  function Base(req: KlineRequest): CoverageSegment {
    NormalizedBase(req.exchange, req.market, req.symbol, req.interval)
  }

  // The step coverage is built with; building fails when the interval has none.
  function StepOf(req: KlineRequest): int {
    match CoverageIntervalDuration(req.interval)
    case Success(step) => step
    case Failure(_) => 0
  }

  // A row as this request stores it.
  predicate RowOfRequest(k: Kline, req: KlineRequest) {
    && k.time == k.openTime
    && k.symbol == req.symbol
    && k.market == req.market
    && k.exchange == "binance"
    && k.interval == req.interval
  }

  predicate RowsOfWindow(klines: seq<Kline>, req: KlineRequest, window: Window) {
    forall k :: k in klines ==> RowOfRequest(k, req) && InWindow(k, window)
  }

  method ParseRows(rows: seq<Row>, req: KlineRequest) returns (r: Result<seq<Kline>>)
    ensures r.Success? <==> forall i :: 0 <= i < |rows| ==> rows[i].Row?
    ensures r.Success? ==>
              |r.value| == |rows| && forall i :: 0 <= i < |rows| ==> r.value[i] == BarToKline(rows[i].bar, req)
  {
    var klines := [];
    for i := 0 to |rows|
      invariant |klines| == i
      invariant forall j :: 0 <= j < i ==> rows[j].Row? && klines[j] == BarToKline(rows[j].bar, req)
    {
      match rows[i]
      case Malformed => return Failure("parse row");
      case Row(bar) => klines := klines + [BarToKline(bar, req)];
    }
    return Success(klines);
  }

  predicate InOneYear(window: Window) {
    window.start < window.end <= Jan1(window.Year() + 1)
  }

  lemma ServedInAscendingOrder(bars: seq<Bar>, req: KlineRequest, window: Window, i: nat, j: nat)
    requires ValidBars(bars) && i <= j <= |bars| && InOneYear(window)
    requires forall k :: k in BarsToKlines(bars[i..j], req) ==> InWindow(k, window)
    ensures PlainPage(BarsToKlines(bars[i..j], req))
  {
    hide YearOf, Jan1;
    var page := BarsToKlines(bars[i..j], req);
    forall k | 0 <= k < |page| ensures page[k].openTime != ZERO_TIME && YearOf(page[k].openTime) == window.Year() {
      assert page[k] in page;
      SameYear(page[k].openTime, window.start);
    }
  }

  lemma {:induction false} InExpand(segs: seq<CoverageSegment>, i: nat, t: Time, step: int)
    requires i < |segs| && t in Points(segs[i], step)
    ensures t in Expand(segs, step)
  {
    hide Points;
    if i < |segs| - 1 {
      InExpand(Front(segs), i, t, step);
    }
  }

  // The segments of a window's rows, in whatever order and with whatever duplicates,
  // carry the window's year, and their first and last bars open inside the window.
  lemma {:induction false} SegmentsOfWindow(base: CoverageSegment, rows: seq<Kline>, step: int, window: Window, i: nat)
    requires InOneYear(window) && forall k :: k in rows ==> InWindow(k, window)
    requires i < |CoverOf(base, rows, step)|
    ensures var seg := CoverOf(base, rows, step)[i];
            && seg.year == window.Year()
            && window.start <= seg.startAt < window.end
            && window.start <= seg.endAt - step < window.end
  {
    hide InOneYear, YearOf, Jan1, Expand, Runs, SortTimes, KeptTimes, StrictlyAscending, Distinct, Keys, UnixNano;
    hide SegmentOk, Points, Unmergeable;
    var times, segs := SortTimes(KeptTimes(OpenTimes(rows))), CoverOf(base, rows, step);
    KeptTimesMembers(OpenTimes(rows));
    SortTimesAscends(KeptTimes(OpenTimes(rows)));
    RunsIsCanonicalCover(base, times, step);
    var seg := segs[i];
    assert SegmentOk(base, seg, step);
    forall t | t in Points(seg, step) ensures window.start <= t < window.end && YearOf(t) == window.Year() {
      InExpand(segs, i, t, step);
      assert t in OpenTimes(rows);
      var j :| 0 <= j < |rows| && rows[j].openTime == t;
      assert InWindow(rows[j], window);
      InWindowYear(t, window);
    }
    SegmentEnds(base, seg, step);
  }

  lemma {:induction false} SegmentEnds(base: CoverageSegment, seg: CoverageSegment, step: int)
    requires SegmentOk(base, seg, step)
    ensures seg.startAt in Points(seg, step) && seg.endAt - step in Points(seg, step)
    ensures YearOf(seg.startAt) == seg.year
  {
    hide YearOf;
    var points := Points(seg, step);
    assert seg.rowCount * step - step == (seg.rowCount - 1) * step;
    assert points[0] == seg.startAt && points[seg.rowCount - 1] == seg.endAt - step;
  }

  lemma InWindowYear(t: Time, window: Window)
    requires InOneYear(window) && window.start <= t < window.end
    ensures YearOf(t) == window.Year()
  {
    SameYear(t, window.start);
  }

  // What fetching and filtering one more faithful page adds.
  lemma {:induction false} PageFetched(bars: seq<Bar>, req: KlineRequest, window: Window, cur: int, page: seq<Bar>)
    requires ValidBars(bars) && InOneYear(window)
    requires FaithfulPage(bars, cur, FloorMilli(window.end) - 1, page) && page != []
    ensures var n := OpenedBefore(bars, cur);
            var next := page[|page| - 1].closeMs + 1;
            var kept := Kept(BarsToKlines(page, req), window);
            && n < OpenedBefore(bars, next) <= OpenedBefore(bars, FloorMilli(window.end))
            && cur < next && 0 < next <= MAX_INT64
            && BarsToKlines(Since(bars, window.start, n), req) + kept
               == BarsToKlines(Since(bars, window.start, OpenedBefore(bars, next)), req)
            && PlainPage(kept)
  {
    hide BarToKline, InWindow, PlainPage, InOneYear, Since, Kept, FloorMilli, BarsToKlines, OpenedBefore, FaithfulPage;
    var endMs := FloorMilli(window.end);
    PageAdvances(bars, cur, endMs - 1, page);
    SliceKept(bars, req, window, OpenedBefore(bars, cur), OpenedBefore(bars, cur) + |page|);
  }

  lemma {:induction false} SliceKept(bars: seq<Bar>, req: KlineRequest, window: Window, i: nat, j: nat)
    requires ValidBars(bars) && InOneYear(window)
    requires i <= j <= OpenedBefore(bars, FloorMilli(window.end))
    ensures var kept := Kept(BarsToKlines(bars[i..j], req), window);
            && BarsToKlines(Since(bars, window.start, i), req) + kept == BarsToKlines(Since(bars, window.start, j), req)
            && PlainPage(kept)
  {
    hide CeilMilli, BarToKline, InWindow, PlainPage, InOneYear, Kept, FloorMilli, ValidBars;
    LastListedInside(bars, window, j);
    KeptSlice(bars, req, window, i, j);
    var c := OpenedBefore(bars, CeilMilli(window.start));
    var lo := if c <= i then i else if c <= j then c else j;
    KeptMembers(BarsToKlines(bars[i..j], req), window);
    ServedInAscendingOrder(bars, req, window, lo, j);
    if c <= i {
      assert bars[c..i] + bars[i..j] == bars[c..j];
      BarsToKlinesJoin(bars[c..i], bars[i..j], req);
    } else {
      assert BarsToKlines(bars[i..i], req) == [];
    }
  }

  lemma BarsToKlinesJoin(a: seq<Bar>, b: seq<Bar>, req: KlineRequest)
    ensures BarsToKlines(a + b, req) == BarsToKlines(a, req) + BarsToKlines(b, req)
  {
  }

  lemma LastListedInside(bars: seq<Bar>, window: Window, j: nat)
    requires ValidBars(bars) && j <= OpenedBefore(bars, FloorMilli(window.end))
    ensures j > 0 ==> FromMilli(bars[j - 1].openMs) < window.end
  {
  }

  lemma NothingSinceStart(bars: seq<Bar>, start: Time)
    requires ValidBars(bars)
    ensures Since(bars, start, OpenedBefore(bars, FloorMilli(start))) == []
  {
    OpenedBeforeMonotone(bars, FloorMilli(start), CeilMilli(start));
  }

  // A faithful answer with rows, parsed and filtered.
  lemma {:induction false} AnswerFetched(server: Server, bars: seq<Bar>, call: nat, cur: int, req: KlineRequest,
                                         window: Window, rows: seq<Row>, parsed: seq<Kline>)
    requires ValidBars(bars) && InOneYear(window) && Faithful(server, bars)
    requires server(call, cur, FloorMilli(window.end) - 1) == Page(rows) && rows != []
    requires forall i :: 0 <= i < |rows| ==> rows[i].Row?
    requires |parsed| == |rows| && forall i :: 0 <= i < |rows| ==> parsed[i] == BarToKline(rows[i].bar, req)
    ensures var n := OpenedBefore(bars, cur);
            var next := rows[|rows| - 1].bar.closeMs + 1;
            && cur < next && 0 < next <= MAX_INT64
            && n <= OpenedBefore(bars, next) <= OpenedBefore(bars, FloorMilli(window.end))
            && BarsToKlines(Since(bars, window.start, n), req) + Kept(parsed, window)
               == BarsToKlines(Since(bars, window.start, OpenedBefore(bars, next)), req)
            && PlainPage(Kept(parsed, window))
  {
    hide ValidBars, OpenedBefore, FloorMilli, InOneYear, BarToKline, PlainPage, Kept, Since, FaithfulPage;
    assert server(call, cur, FloorMilli(window.end) - 1).Page?;
    assert AnswersFaithfully(server(call, cur, FloorMilli(window.end) - 1), bars, cur, FloorMilli(window.end) - 1);
    var page :| FaithfulPage(bars, cur, FloorMilli(window.end) - 1, page) && Page(rows) == PageOf(page);
    assert |page| == |rows|;
    assert forall i :: 0 <= i < |rows| ==> rows[i] == Row(page[i]);
    assert parsed == BarsToKlines(page, req);
    PageFetched(bars, req, window, cur, page);
  }

  // An empty faithful answer: nothing is left to list.
  lemma {:induction false} AnswerEmpty(server: Server, bars: seq<Bar>, call: nat, cur: int, endMs: int)
    requires ValidBars(bars) && Faithful(server, bars)
    requires cur <= endMs && server(call, cur, endMs - 1) == Page([])
    ensures OpenedBefore(bars, cur) == OpenedBefore(bars, endMs)
  {
    hide ValidBars, OpenedBefore;
    assert server(call, cur, endMs - 1).Page?;
    assert AnswersFaithfully(server(call, cur, endMs - 1), bars, cur, endMs - 1);
    var page :| FaithfulPage(bars, cur, endMs - 1, page) && Page([]) == PageOf(page);
    OpenedBeforeMonotone(bars, cur, endMs);
  }

  lemma ExtendsTransitive(a: Database, b: Database, c: Database)
    requires Extends(a, b) && Extends(b, c)
    ensures Extends(a, c)
  {
  }

  // The pages stored so far, when one more page keeps some of its rows.
  function WithPage(pages: seq<seq<Kline>>, page: seq<Kline>): seq<seq<Kline>> {
    if page == [] then pages else pages + [page]
  }

  // What the pages stored so far have led to.
  predicate StoredPages(db: Database, now: Database, req: KlineRequest, window: Window, pages: seq<seq<Kline>>) {
    && RowsOfWindow(Flatten(pages), req, window)
    && now == InsertRows(db, Flatten(pages))
    && Extends(db, now)
    && (pages != [] ==> CoverageIntervalDuration(req.interval).Success?)
  }

  // A page that could not be stored may be stored in part.
  predicate PartlyStored(db: Database, now: Database, req: KlineRequest, window: Window, pages: seq<seq<Kline>>) {
    && RowsOfWindow(Flatten(pages), req, window)
    && Extends(db, now)
    && Extends(now, InsertRows(db, Flatten(pages)))
  }

  lemma StoredIsPartlyStored(db: Database, now: Database, req: KlineRequest, window: Window, pages: seq<seq<Kline>>)
    requires StoredPages(db, now, req, window, pages)
    ensures PartlyStored(db, now, req, window, pages)
  {
    hide InsertRows, RowsOfWindow, Flatten, CoverageIntervalDuration;
  }

  lemma NothingStored(db: Database, req: KlineRequest, window: Window)
    ensures StoredPages(db, db, req, window, [])
  {
    InsertNothing(db);
  }

  lemma {:induction false} PageStored(db: Database, was: Database, now: Database, req: KlineRequest, window: Window,
                                      pages: seq<seq<Kline>>, page: seq<Kline>)
    requires StoredPages(db, was, req, window, pages) && RowsOfWindow(page, req, window)
    requires Extends(was, now) && Extends(now, InsertRows(was, page))
    ensures PartlyStored(db, now, req, window, pages + [page])
    ensures now == InsertRows(was, page) && CoverageIntervalDuration(req.interval).Success? ==>
              StoredPages(db, now, req, window, pages + [page])
  {
    hide InsertRows, Extends, InWindow, RowOfRequest, CoverageIntervalDuration;
    assert Front(pages + [page]) == pages;
    assert Flatten(pages + [page]) == Flatten(pages) + page;
    InsertRowsJoin(db, Flatten(pages), page);
    ExtendsTransitive(db, was, now);
  }

  // Parsing, filtering and storing one page.
  method StorePage(cluster: Cluster, rows: seq<Row>, req: KlineRequest, window: Window,
                   segments: seq<CoverageSegment>, ghost db: Database, ghost pages: seq<seq<Kline>>)
    returns (r: Result<seq<CoverageSegment>>, ghost parsed: seq<Kline>, ghost after: seq<seq<Kline>>)
    requires window.Year() in cluster.databases
    requires StoredPages(db, cluster.databases[window.Year()], req, window, pages)
    requires segments == AppendPages(Base(req), pages, StepOf(req))
    modifies cluster
    ensures window.Year() in cluster.databases
    ensures cluster.databases == old(cluster.databases)[window.Year() := cluster.databases[window.Year()]]
    ensures PartlyStored(db, cluster.databases[window.Year()], req, window, after)
    ensures r.Success? ==>
      && StoredPages(db, cluster.databases[window.Year()], req, window, after)
      && r.value == AppendPages(Base(req), after, StepOf(req))
      && |parsed| == |rows|
      && (forall i :: 0 <= i < |rows| ==> rows[i].Row? && parsed[i] == BarToKline(rows[i].bar, req))
      && after == WithPage(pages, Kept(parsed, window))
    ensures cluster.AllWork() && CoverageIntervalDuration(req.interval).Success? ==>
              (forall i :: 0 <= i < |rows| ==> rows[i].Row?) ==> r.Success?
  {
    hide InsertRows, Extends, Kept, InWindow, RowOfRequest, AppendPages, CoverOf, BarToKline, StoredPages, PartlyStored;
    hide YearOf, AppendAll, NormalizedBase, CoverageIntervalDuration;
    var year := window.Year();
    StoredIsPartlyStored(db, cluster.databases[year], req, window, pages);
    var klines := ParseRows(rows, req);
    if klines.Failure? {
      return Failure(klines.error), [], pages;
    }
    parsed := klines.value;
    var buffer := new Kline[|klines.value|](i requires 0 <= i < |klines.value| => klines.value[i]);
    assert buffer[..] == parsed;
    var n := FilterKlinesForWindow(buffer, window);
    var page := buffer[..n];
    KeptRows(rows, parsed, req, window);
    if |page| == 0 {
      return Success(segments), parsed, pages;
    }
    ghost var was := cluster.databases[year];
    var stored := cluster.InsertKline(year, page);
    PageStored(db, was, cluster.databases[year], req, window, pages, page);
    after := pages + [page];
    if !stored {
      return Failure("insert klines"), parsed, after;
    }
    var batch := BuildCoverageSegments(req.exchange, req.market, req.symbol, req.interval, page);
    if batch.Failure? {
      return Failure(batch.error), parsed, after;
    }
    NextPage(Base(req), pages, page, StepOf(req));
    var merged := AppendCoverageSegments(segments, batch.value);
    return Success(merged), parsed, after;
  }

  // What a faithful server has led to once the cursor has come to a millisecond.
  predicate ServedUpTo(bars: seq<Bar>, req: KlineRequest, window: Window, cur: int, pages: seq<seq<Kline>>)
    requires ValidBars(bars)
  {
    && OpenedBefore(bars, cur) <= OpenedBefore(bars, FloorMilli(window.end))
    && Flatten(pages) == BarsToKlines(Since(bars, window.start, OpenedBefore(bars, cur)), req)
    && forall i :: 0 <= i < |pages| ==> PlainPage(pages[i])
  }

  lemma NothingServedYet(bars: seq<Bar>, req: KlineRequest, window: Window)
    requires ValidBars(bars) && window.start <= window.end
    ensures ServedUpTo(bars, req, window, FloorMilli(window.start), [])
  {
    hide ValidBars, OpenedBefore, FloorMilli, Since, PlainPage, BarToKline;
    NothingSinceStart(bars, window.start);
    FloorMilliMonotone(window.start, window.end);
    OpenedBeforeMonotone(bars, FloorMilli(window.start), FloorMilli(window.end));
  }

  lemma {:induction false} ServedFurther(server: Server, bars: seq<Bar>, call: nat, cur: int, req: KlineRequest,
                                         window: Window, rows: seq<Row>, parsed: seq<Kline>, pages: seq<seq<Kline>>)
    requires ValidBars(bars) && InOneYear(window) && Faithful(server, bars)
    requires server(call, cur, FloorMilli(window.end) - 1) == Page(rows) && rows != []
    requires forall i :: 0 <= i < |rows| ==> rows[i].Row?
    requires |parsed| == |rows| && forall i :: 0 <= i < |rows| ==> parsed[i] == BarToKline(rows[i].bar, req)
    requires ServedUpTo(bars, req, window, cur, pages)
    ensures var next := rows[|rows| - 1].bar.closeMs + 1;
            && Wrap64(next) == next && cur < next
            && ServedUpTo(bars, req, window, next, WithPage(pages, Kept(parsed, window)))
  {
    hide ValidBars, OpenedBefore, FloorMilli, InOneYear, BarToKline, PlainPage, Kept, Since, Faithful, BarsToKlines;
    AnswerFetched(server, bars, call, cur, req, window, rows, parsed);
    var page := Kept(parsed, window);
    if page != [] {
      assert Front(pages + [page]) == pages;
    } else {
      assert Flatten(pages) + page == Flatten(pages);
    }
  }

  lemma FaithfulRows(server: Server, bars: seq<Bar>, call: nat, cur: int, endMs: int)
    requires ValidBars(bars) && Faithful(server, bars) && server(call, cur, endMs).Page?
    ensures forall i :: 0 <= i < |server(call, cur, endMs).rows| ==> server(call, cur, endMs).rows[i].Row?
  {
    hide ValidBars, FaithfulPage;
    assert AnswersFaithfully(server(call, cur, endMs), bars, cur, endMs);
  }

  lemma {:induction false} AllServed(bars: seq<Bar>, req: KlineRequest, window: Window, cur: int,
                                     pages: seq<seq<Kline>>)
    requires ValidBars(bars) && ServedUpTo(bars, req, window, cur, pages)
    requires OpenedBefore(bars, cur) >= OpenedBefore(bars, FloorMilli(window.end))
    ensures Flatten(pages) == ServedRows(bars, req, window)
    ensures forall i :: 0 <= i < |pages| ==> PlainPage(pages[i])
  {
    hide ValidBars, OpenedBefore, FloorMilli, PlainPage, Since, BarsToKlines, Flatten;
    ServedIsSince(bars, window.start, FloorMilli(window.end));
  }

  // Against any server the loop terminates, because the cursor must advance; only
  // rows opened inside the window are stored, and the segments returned are those
  // of the pages stored. Against a faithful server a success has stored exactly
  // the bars opened from the window's start to the millisecond of its end.
  method BackfillWindow(cluster: Cluster, server: Server, firstCall: nat, req: KlineRequest, window: Window,
                        ghost bars: seq<Bar>)
    returns (r: Result<seq<CoverageSegment>>, call: nat, ghost pages: seq<seq<Kline>>)
    requires window.Year() in cluster.databases
    requires InOneYear(window)
    requires ValidBars(bars)
    modifies cluster
    ensures window.Year() in cluster.databases
    ensures cluster.databases == old(cluster.databases)[window.Year() := cluster.databases[window.Year()]]
    ensures PartlyStored(old(cluster.databases)[window.Year()], cluster.databases[window.Year()], req, window, pages)
    ensures r.Success? ==>
              StoredPages(old(cluster.databases)[window.Year()], cluster.databases[window.Year()], req, window, pages)
    ensures r.Success? ==> r.value == AppendPages(Base(req), pages, StepOf(req))
    ensures r.Success? && Faithful(server, bars) ==> Flatten(pages) == ServedRows(bars, req, window)
    ensures r.Success? && Faithful(server, bars) ==> forall i :: 0 <= i < |pages| ==> PlainPage(pages[i])
    ensures cluster.AllWork() && Faithful(server, bars) && Responsive(server) ==>
              CoverageIntervalDuration(req.interval).Success? ==> r.Success?
  {
    hide CoverageIntervalDuration;
    hide StoredPages, PartlyStored, Faithful, AppendPages, PlainPage, BarToKline, Kept, ServedUpTo, ServedRows, Wrap64;
    hide ValidBars, OpenedBefore, FloorMilli, YearOf, Jan1, NormalizedBase, Flatten, WithPage;
    var year := window.Year();
    ghost var db := cluster.databases[year];
    var cur := FloorMilli(window.start);
    var endExclusiveMs := FloorMilli(window.end);
    var endInclusiveMs := FloorMilli(window.end - NANOS_PER_MILLI);
    OneMilliEarlier(window.end);
    var segments: seq<CoverageSegment> := [];
    pages := [];
    call := firstCall;
    NothingServedYet(bars, req, window);
    NothingStored(db, req, window);
    NoPages(Base(req), StepOf(req));
    while cur < endExclusiveMs
      invariant year in cluster.databases
      invariant cluster.databases == old(cluster.databases)[year := cluster.databases[year]]
      invariant StoredPages(db, cluster.databases[year], req, window, pages)
      invariant segments == AppendPages(Base(req), pages, StepOf(req))
      invariant Faithful(server, bars) ==> ServedUpTo(bars, req, window, cur, pages)
      decreases endExclusiveMs - cur
    {
      StoredIsPartlyStored(db, cluster.databases[year], req, window, pages);
      if endInclusiveMs < cur {
        assert false;
      }
      var response := server(call, cur, endInclusiveMs);
      call := call + 1;
      if response.FetchError? {
        return Failure("fetch klines"), call, pages;
      }
      var rows := response.rows;
      if |rows| == 0 {
        if Faithful(server, bars) {
          AnswerEmpty(server, bars, call - 1, cur, endExclusiveMs);
          AllServed(bars, req, window, cur, pages);
        }
        return Success(segments), call, pages;
      }
      if Faithful(server, bars) {
        FaithfulRows(server, bars, call - 1, cur, endInclusiveMs);
      }
      var page, parsed, after := StorePage(cluster, rows, req, window, segments, db, pages);
      if page.Failure? {
        return Failure(page.error), call, after;
      }
      if Faithful(server, bars) {
        ServedFurther(server, bars, call - 1, cur, req, window, rows, parsed, pages);
      }
      segments := page.value;
      pages := after;
      var next := Wrap64(rows[|rows| - 1].bar.closeMs + 1);
      if next <= cur {
        return Failure("pagination stuck"), call, pages;
      }
      cur := next;
      var goesOn := cluster.Call();
      if !goesOn {
        return Failure("context done"), call, pages;
      }
    }
    StoredIsPartlyStored(db, cluster.databases[year], req, window, pages);
    OpenedBeforeMonotone(bars, endExclusiveMs, cur);
    if Faithful(server, bars) {
      AllServed(bars, req, window, cur, pages);
    }
    r := Success(segments);
  }

  lemma ServedIsSince(bars: seq<Bar>, start: Time, endMs: int)
    requires ValidBars(bars)
    ensures Served(bars, start, endMs) == Since(bars, start, OpenedBefore(bars, endMs))
  {
  }

  lemma FloorMilliMonotone(s: Time, t: Time)
    requires s <= t
    ensures FloorMilli(s) <= FloorMilli(t)
  {
  }

  lemma NoPages(base: CoverageSegment, step: int)
    ensures AppendPages(base, [], step) == []
  {
  }

  lemma NextPage(base: CoverageSegment, pages: seq<seq<Kline>>, page: seq<Kline>, step: int)
    ensures AppendPages(base, pages + [page], step) ==
              AppendAll(AppendPages(base, pages, step), CoverOf(base, page, step))
  {
    assert Front(pages + [page]) == pages;
  }

  lemma {:induction false} KeptRows(rows: seq<Row>, parsed: seq<Kline>, req: KlineRequest, window: Window)
    requires |parsed| == |rows| && forall i :: 0 <= i < |rows| ==>
              rows[i].Row? && parsed[i] == BarToKline(rows[i].bar, req)
    ensures RowsOfWindow(Kept(parsed, window), req, window)
  {
    KeptMembers(parsed, window);
  }

  lemma OneMilliEarlier(t: Time)
    ensures FloorMilli(t - NANOS_PER_MILLI) == FloorMilli(t) - 1
  {
  }

  lemma InsertNothing(db: Database)
    ensures InsertRows(db, []) == db
    ensures Extends(db, db)
  {
  }

  // ----- The whole request -----

  // The bars of the request's range, as rows.
  function ServedRows(bars: seq<Bar>, req: KlineRequest, window: Window): seq<Kline>
    requires ValidBars(bars)
  {
    BarsToKlines(Served(bars, window.start, FloorMilli(window.end)), req)
  }

  // No row is lost or changed, and every new row is one of the request's, opened in
  // its range, in the database of its year.
  predicate OnlyAdds(before: map<int, Database>, after: map<int, Database>, req: KlineRequest) {
    && (forall y :: y in before ==> y in after && Extends(before[y], after[y]))
    && (forall y, key :: y in after && key in after[y].rows && !(y in before && key in before[y].rows) ==>
          var k := after[y].rows[key];
          KeyOf(k) == key && RowOfRequest(k, req) && req.startAt <= k.openTime < req.endAt && YearOf(k.openTime) == y)
  }

  // The database of the window's year has every row of the window's bars, and
  // apart from those only what it had before.
  predicate YearFilled(before: map<int, Database>, after: map<int, Database>, window: Window, rows: seq<Kline>) {
    var y := window.Year();
    && y in after
    && (forall k :: k in rows ==> TableOf(k) in after[y].tables && KeyOf(k) in after[y].rows)
    && (forall key :: key in after[y].rows && !(y in before && key in before[y].rows) ==> after[y].rows[key] in rows)
  }

  predicate YearUntouched(before: map<int, Database>, after: map<int, Database>, y: int) {
    (y in before <==> y in after) && (y in before ==> before[y] == after[y])
  }

  lemma {:induction false} ServedJoin(bars: seq<Bar>, start: Time, mid: Time, end: Time)
    requires ValidBars(bars) && start <= mid <= end
    requires mid == start || FromMilli(FloorMilli(mid)) == mid
    ensures Served(bars, start, FloorMilli(mid)) + Served(bars, mid, FloorMilli(end)) ==
              Served(bars, start, FloorMilli(end))
  {
    if mid == start {
      NothingSinceStart(bars, start);
    } else {
      assert CeilMilli(mid) == FloorMilli(mid);
      assert CeilMilli(start) <= FloorMilli(mid) <= FloorMilli(end);
      hide CeilMilli, FloorMilli, ValidBars;
      OpenedBeforeMonotone(bars, CeilMilli(start), FloorMilli(mid));
      OpenedBeforeMonotone(bars, FloorMilli(mid), FloorMilli(end));
    }
  }

  lemma Jan1IsOnAMilli(y: int)
    ensures FromMilli(FloorMilli(Jan1(y))) == Jan1(y)
  {
    var days := DaysToYear(y);
    assert days * NANOS_PER_DAY == days * 86_400_000 * NANOS_PER_MILLI;
  }

  // One successfully or partly stored window keeps OnlyAdds.
  lemma {:induction false} WindowOnlyAdds(before: map<int, Database>, mid: map<int, Database>,
                                          after: map<int, Database>, req: KlineRequest, window: Window,
                                          rows: seq<Kline>)
    requires OnlyAdds(before, mid, req)
    requires window.Year() in mid && window.Year() in after && after == mid[window.Year() := after[window.Year()]]
    requires InOneYear(window) && req.startAt <= window.start && window.end <= req.endAt
    requires RowsOfWindow(rows, req, window)
    requires Extends(mid[window.Year()], after[window.Year()])
    requires Extends(after[window.Year()], InsertRows(mid[window.Year()], rows))
    ensures OnlyAdds(before, after, req)
  {
    hide RowOfRequest, KeyOf, TableOf, YearOf, Jan1, InsertRows;
    var y := window.Year();
    InsertRowsExtends(mid[y], rows);
    forall key | key in after[y].rows && key !in mid[y].rows
      ensures var k := after[y].rows[key]; k in rows && KeyOf(k) == key && YearOf(k.openTime) == y
    {
      var k := after[y].rows[key];
      assert k in rows;
      SameYear(k.openTime, window.start);
    }
    forall z | z in before ensures z in after && Extends(before[z], after[z]) {
      if z == y {
        ExtendsTransitive(before[y], mid[y], after[y]);
      }
    }
  }

  lemma {:induction false} WindowFilled(before: map<int, Database>, mid: map<int, Database>,
                                        after: map<int, Database>, window: Window, rows: seq<Kline>)
    requires window.Year() in mid && window.Year() in after
    requires window.Year() in before ==> mid[window.Year()] == before[window.Year()]
    requires window.Year() !in before ==> mid[window.Year()] == Database({}, map[])
    requires after[window.Year()] == InsertRows(mid[window.Year()], rows)
    ensures YearFilled(before, after, window, rows)
  {
    hide KeyOf, TableOf, YearOf, InsertRows;
    InsertRowsExtends(mid[window.Year()], rows);
  }

  // Where a row of the request opened at an instant is stored.
  function KeyAt(req: KlineRequest, t: Time): RowKey {
    KeyOf(Kline(t, req.symbol, req.market, "binance", req.interval, t, t, ""))
  }

  predicate StoredAt(databases: map<int, Database>, req: KlineRequest, t: Time) {
    YearOf(t) in databases && KeyAt(req, t) in databases[YearOf(t)].rows
  }

  // The open times segments stand for are in range and stored, and every row that
  // was added is among them, but for Go's zero time.
  predicate CoversStored(before: map<int, Database>, after: map<int, Database>, req: KlineRequest,
                         segments: seq<CoverageSegment>) {
    && (forall t :: t in Expand(segments, StepOf(req)) ==> req.startAt <= t < req.endAt && StoredAt(after, req, t))
    && (forall y, key :: y in after && key in after[y].rows && !(y in before && key in before[y].rows) ==>
          var t := after[y].rows[key].openTime;
          t == ZERO_TIME || t in Expand(segments, StepOf(req)))
  }

  // Rows stored where the request stores them.
  predicate RowsStored(after: map<int, Database>, req: KlineRequest, rows: seq<Kline>) {
    forall k :: k in rows ==>
      && RowOfRequest(k, req) && req.startAt <= k.openTime < req.endAt
      && YearOf(k.openTime) in after && KeyOf(k) in after[YearOf(k.openTime)].rows
  }

  predicate AddedFrom(before: map<int, Database>, after: map<int, Database>, rows: seq<Kline>) {
    forall y, key :: y in after && key in after[y].rows && !(y in before && key in before[y].rows) ==>
        after[y].rows[key] in rows
  }

  predicate OneYearPages(pages: seq<seq<Kline>>) {
    forall i, k, l :: 0 <= i < |pages| && k in pages[i] && l in pages[i] ==> YearOf(k.openTime) == YearOf(l.openTime)
  }

  // All rows of the pages so far are stored, nothing else was added, and each page
  // lies in one year.
  predicate Recorded(before: map<int, Database>, after: map<int, Database>, req: KlineRequest, pages: seq<seq<Kline>>) {
    RowsStored(after, req, Flatten(pages)) && AddedFrom(before, after, Flatten(pages)) && OneYearPages(pages)
  }

  lemma NothingRecorded(before: map<int, Database>, req: KlineRequest)
    ensures Recorded(before, before, req, [])
  {
  }

  lemma {:induction false} MoreRowsStored(was: map<int, Database>, mid: map<int, Database>, after: map<int, Database>,
                                          req: KlineRequest, window: Window, rows: seq<Kline>, more: seq<Kline>)
    requires RowsStored(was, req, rows)
    requires mid == was || (window.Year() !in was && mid == was[window.Year() := Database({}, map[])])
    requires window.Year() in mid && window.Year() in after && after == mid[window.Year() := after[window.Year()]]
    requires after[window.Year()] == InsertRows(mid[window.Year()], more)
    requires RowsOfWindow(more, req, window)
    requires InOneYear(window) && req.startAt <= window.start && window.end <= req.endAt
    ensures RowsStored(after, req, rows + more)
  {
    hide RowOfRequest, KeyOf, TableOf, YearOf, Jan1, InsertRows, InOneYear;
    InsertRowsExtends(mid[window.Year()], more);
    forall k | k in more ensures YearOf(k.openTime) == window.Year() {
      InWindowYear(k.openTime, window);
    }
  }

  lemma {:induction false} MoreAddedFrom(before: map<int, Database>, was: map<int, Database>, mid: map<int, Database>,
                                         after: map<int, Database>, y: int, rows: seq<Kline>, more: seq<Kline>)
    requires AddedFrom(before, was, rows)
    requires mid == was || (y !in was && mid == was[y := Database({}, map[])])
    requires y in mid && y in after && after == mid[y := after[y]]
    requires after[y] == InsertRows(mid[y], more)
    ensures AddedFrom(before, after, rows + more)
  {
    hide KeyOf, TableOf, InsertRows;
    InsertRowsExtends(mid[y], more);
    forall z, key | z in after && key in after[z].rows && !(z in before && key in before[z].rows)
      ensures after[z].rows[key] in rows + more
    {
      if z in was && key in was[z].rows {
        assert after[z].rows[key] == was[z].rows[key];
      }
    }
  }

  lemma {:induction false} WindowPagesInOneYear(req: KlineRequest, window: Window, pages: seq<seq<Kline>>)
    requires InOneYear(window) && RowsOfWindow(Flatten(pages), req, window)
    ensures OneYearPages(pages)
  {
    hide YearOf, InOneYear, Flatten, RowOfRequest;
    FlattenMembers(pages);
    forall i, k | 0 <= i < |pages| && k in pages[i] ensures YearOf(k.openTime) == window.Year() {
      assert k in Flatten(pages);
      InWindowYear(k.openTime, window);
    }
  }

  lemma {:induction false} WindowRecorded(before: map<int, Database>, was: map<int, Database>,
                                          mid: map<int, Database>, after: map<int, Database>, req: KlineRequest,
                                          window: Window, pages: seq<seq<Kline>>, more: seq<seq<Kline>>)
    requires Recorded(before, was, req, pages)
    requires mid == was || (window.Year() !in was && mid == was[window.Year() := Database({}, map[])])
    requires window.Year() in mid && window.Year() in after && after == mid[window.Year() := after[window.Year()]]
    requires after[window.Year()] == InsertRows(mid[window.Year()], Flatten(more))
    requires RowsOfWindow(Flatten(more), req, window)
    requires InOneYear(window) && req.startAt <= window.start && window.end <= req.endAt
    ensures Recorded(before, after, req, pages + more)
  {
    hide RowsStored, AddedFrom, InsertRows, Flatten, RowsOfWindow, InOneYear, YearOf;
    MoreRowsStored(was, mid, after, req, window, Flatten(pages), Flatten(more));
    MoreAddedFrom(before, was, mid, after, window.Year(), Flatten(pages), Flatten(more));
    FlattenJoin(pages, more);
    WindowPagesInOneYear(req, window, more);
  }

  lemma {:induction false} YearKeysTellApart(page: seq<Kline>)
    requires forall k, l :: k in page && l in page ==> YearOf(k.openTime) == YearOf(l.openTime)
    ensures KeysTellApart(OpenTimes(page))
  {
    hide YearOf, UnixNano;
    OpenTimesMembers(page);
    forall s, t | s in OpenTimes(page) && t in OpenTimes(page) && UnixNano(s) == UnixNano(t) ensures s == t {
      SameYearGap(s, t);
      SameYearGap(t, s);
      UnixNanoInjective(s, t);
    }
  }

  lemma {:induction false} RecordedCovers(before: map<int, Database>, after: map<int, Database>, req: KlineRequest,
                                          pages: seq<seq<Kline>>)
    requires Recorded(before, after, req, pages)
    ensures CoversStored(before, after, req, AppendPages(Base(req), pages, StepOf(req)))
  {
    hide RowsStored, AddedFrom, OneYearPages, YearOf;
    assert RowsStored(after, req, Flatten(pages)) && AddedFrom(before, after, Flatten(pages)) && OneYearPages(pages);
    var times := PagesTimes(pages);
    PagesCover(Base(req), pages, StepOf(req));
    hide Recorded, CoversStored, AppendPages, Expand, PagesTimes, Flatten, OpenTimes, Base, StepOf, KeysTellApart;
    TimesAreStored(after, req, pages);
    RowsAreCovered(before, after, req, pages);
    TimesCover(before, after, req, AppendPages(Base(req), pages, StepOf(req)), times);
  }

  lemma {:induction false} TimesAreStored(after: map<int, Database>, req: KlineRequest, pages: seq<seq<Kline>>)
    requires RowsStored(after, req, Flatten(pages))
    ensures forall t :: t in PagesTimes(pages) ==> req.startAt <= t < req.endAt && StoredAt(after, req, t)
  {
    hide YearOf, KeysTellApart, PagesTimes, Flatten, OpenTimes, TableOf, KeyOf, KeyAt, RowOfRequest;
    PagesTimesMembers(pages);
    OpenTimesMembers(Flatten(pages));
    forall k | k in Flatten(pages) ensures KeyOf(k) == KeyAt(req, k.openTime) {
      KeyOfRow(req, k);
    }
  }

  lemma {:induction false} RowsAreCovered(before: map<int, Database>, after: map<int, Database>, req: KlineRequest,
                                          pages: seq<seq<Kline>>)
    requires AddedFrom(before, after, Flatten(pages)) && OneYearPages(pages)
    ensures forall y, key :: y in after && key in after[y].rows && !(y in before && key in before[y].rows) ==>
              var t := after[y].rows[key].openTime; t == ZERO_TIME || t in PagesTimes(pages)
  {
    forall i | 0 <= i < |pages| ensures KeysTellApart(OpenTimes(pages[i])) {
      hide YearOf;
      YearKeysTellApart(pages[i]);
    }
    hide YearOf, KeysTellApart, PagesTimes, Flatten, OpenTimes, OneYearPages;
    PagesTimesMembers(pages);
    OpenTimesMembers(Flatten(pages));
  }

  lemma TimesCover(before: map<int, Database>, after: map<int, Database>, req: KlineRequest,
                   segments: seq<CoverageSegment>, times: seq<Time>)
    requires Expand(segments, StepOf(req)) == times
    requires forall t :: t in times ==> req.startAt <= t < req.endAt && StoredAt(after, req, t)
    requires forall y, key :: y in after && key in after[y].rows && !(y in before && key in before[y].rows) ==>
               var t := after[y].rows[key].openTime; t == ZERO_TIME || t in times
    ensures CoversStored(before, after, req, segments)
  {
    hide Expand, StoredAt, StepOf;
  }

  lemma KeyOfRow(req: KlineRequest, k: Kline)
    requires RowOfRequest(k, req)
    ensures KeyOf(k) == KeyAt(req, k.openTime)
  {
    hide BuildTableName, NormalizeSymbolForWrite;
  }

  // What a caller may ask for, said of the request as given.
  predicate WellFormed(request: KlineRequest) {
    && ToLower(TrimSpace(request.exchange)) in {"", "binance"}
    && ToLower(TrimSpace(request.market)) in {"spot", "futures"}
    && TrimSpace(request.symbol) != ""
    && request.startAt < request.endAt
    && (TrimSpace(request.interval) == "" || IntervalDuration(TrimSpace(request.interval)).Success?)
  }

  lemma WellFormedIsValid(request: KlineRequest)
    ensures var req := NormalizeKlineRequest(request);
            WellFormed(request) <==> ValidKlineRequest(req) && req.exchange == "binance"
    ensures WellFormed(request) ==> request.startAt < request.endAt
    ensures var req := NormalizeKlineRequest(request); req.startAt == request.startAt && req.endAt == request.endAt
  {
    hide TrimSpace, ToLower;
    MinuteIsAnInterval();
    assert ToUpper(TrimSpace(request.symbol)) == "" <==> TrimSpace(request.symbol) == "";
  }

  lemma MinuteIsAnInterval()
    ensures IntervalDuration("1m") == CoverageIntervalDuration("1m") == Success(60_000_000_000)
  {
    assert "1m"[..1] == "1" && Digits("1") == Some(1);
    assert Trimmed("1m");
  }

  // A request already normal comes through unchanged, as a normalised one does; and
  // futures stay futures.
  lemma NormalRequestKept(request: KlineRequest)
    ensures request.exchange != "" && request.interval != "" ==>
              (forall s :: s in {request.exchange, request.market, request.symbol, request.interval} ==> Trimmed(s)) ==>
              (forall s :: s in {request.exchange, request.market} ==> ToLower(s) == s) ==>
              ToUpper(request.symbol) == request.symbol ==>
              NormalizeKlineRequest(request) == request
    ensures NormalizeKlineRequest(NormalizeKlineRequest(request)) == NormalizeKlineRequest(request)
    ensures NormalizeKlineRequest(request).market == "futures" <==> ToLower(TrimSpace(request.market)) == "futures"
  {
    LowerTrimmed(TrimSpace(request.exchange));
    LowerTrimmed(TrimSpace(request.market));
    UpperTrimmed(TrimSpace(request.symbol));
    assert ToLower("binance") == "binance" && Trimmed("binance") && Trimmed("1m");
    hide ToLower, ToUpper, Trimmed;
  }

  function IntervalAsked(request: KlineRequest): string {
    if TrimSpace(request.interval) == "" then "1m" else TrimSpace(request.interval)
  }

  // Every row added is of the market, symbol and interval asked for, and opens in the
  // range asked for.
  predicate AddsOnlyAsked(before: map<int, Database>, after: map<int, Database>, request: KlineRequest) {
    forall y, key :: y in after && key in after[y].rows && IsNew(before, y, key) ==>
      var k := after[y].rows[key];
      && k.market == ToLower(TrimSpace(request.market))
      && k.symbol == ToUpper(TrimSpace(request.symbol))
      && k.interval == (if TrimSpace(request.interval) == "" then "1m" else TrimSpace(request.interval))
      && request.startAt <= k.openTime < request.endAt
  }

  lemma OnlyAddsAsked(before: map<int, Database>, request: KlineRequest)
    ensures forall after :: OnlyAdds(before, after, NormalizeKlineRequest(request)) ==>
              AddsOnlyAsked(before, after, request)
  {
    hide TrimSpace, ToLower, ToUpper, KeyOf, YearOf;
  }

  predicate LabelledFor(seg: CoverageSegment, request: KlineRequest) {
    && seg.exchange == "binance" && seg.source == "historical_backfill"
    && seg.market == ToLower(TrimSpace(request.market))
    && seg.symbol == ToUpper(TrimSpace(request.symbol))
    && seg.interval == (if TrimSpace(request.interval) == "" then "1m" else TrimSpace(request.interval))
  }

  lemma {:induction false} SegmentsLabelled(request: KlineRequest, pages: seq<seq<Kline>>)
    requires NormalizeKlineRequest(request).exchange == "binance"
    ensures var req := NormalizeKlineRequest(request);
            forall seg :: seg in AppendPages(Base(req), pages, StepOf(req)) ==> LabelledFor(seg, request)
  {
    var req := NormalizeKlineRequest(request);
    AppendPagesAreRuns(Base(req), pages, StepOf(req));
    RunsLabelled(Base(req), PagesTimes(pages), StepOf(req));
    BaseLabels(request);
    hide AppendPages, Runs, StepOf, TrimSpace, ToLower, ToUpper, NormalizedBase;
  }

  lemma BaseLabels(request: KlineRequest)
    requires NormalizeKlineRequest(request).exchange == "binance"
    ensures LabelledFor(Base(NormalizeKlineRequest(request)), request)
  {
    LowerTrimmed(TrimSpace(request.market));
    UpperTrimmed(TrimSpace(request.symbol));
    assert ToLower("binance") == "binance" && Trimmed("binance") && Trimmed("1m");
    hide ToLower, ToUpper, Trimmed;
  }

  lemma IntervalIsAsked(request: KlineRequest)
    ensures NormalizeKlineRequest(request).interval == IntervalAsked(request)
  {
  }

  // A row is a bar of the exchange, as the request asks for it: its open time as time
  // and open time, its close time and its prices.
  predicate IsRowOf(k: Kline, b: Bar, request: KlineRequest) {
    && k.time == b.openMs * 1_000_000
    && k.openTime == b.openMs * 1_000_000
    && k.closeTime == b.closeMs * 1_000_000
    && k.payload == b.payload
    && k.exchange == "binance"
    && k.market == ToLower(TrimSpace(request.market))
    && k.symbol == ToUpper(TrimSpace(request.symbol))
    && k.interval == if TrimSpace(request.interval) == "" then "1m" else TrimSpace(request.interval)
  }

  predicate IsNew(before: map<int, Database>, y: int, key: RowKey) {
    !(y in before && key in before[y].rows)
  }

  // Every row added is a bar of the exchange opened in the request's range; and every
  // bar opened there has such a row, unless its key was taken before.
  ghost predicate HoldsBars(before: map<int, Database>, after: map<int, Database>, request: KlineRequest,
                            bars: seq<Bar>) {
    && (forall y, key :: y in after && key in after[y].rows && IsNew(before, y, key) ==>
          exists b :: b in bars && request.startAt <= b.openMs * 1_000_000 < request.endAt
                      && IsRowOf(after[y].rows[key], b, request))
    && (forall b, k :: b in bars && IsRowOf(k, b, request)
                       && request.startAt <= b.openMs * 1_000_000 && (b.openMs + 1) * 1_000_000 <= request.endAt ==>
          && YearOf(k.time) in after && KeyOf(k) in after[YearOf(k.time)].rows
          && (IsNew(before, YearOf(k.time), KeyOf(k)) ==> after[YearOf(k.time)].rows[KeyOf(k)] == k))
  }

  lemma IsRowOfIs(k: Kline, b: Bar, request: KlineRequest)
    ensures IsRowOf(k, b, request) <==> k == BarToKline(b, NormalizeKlineRequest(request))
  {
    hide TrimSpace, ToLower, ToUpper;
  }

  lemma {:induction false} ServedRow(bars: seq<Bar>, req: KlineRequest, window: Window, k: Kline) returns (b: Bar)
    requires ValidBars(bars) && k in ServedRows(bars, req, window)
    ensures b in bars && k == BarToKline(b, req)
    ensures window.start <= FromMilli(b.openMs) && b.openMs < FloorMilli(window.end)
  {
    hide ValidBars, BarToKline;
    var served := Served(bars, window.start, FloorMilli(window.end));
    ServedMembers(bars, window.start, FloorMilli(window.end));
    var i :| 0 <= i < |served| && BarsToKlines(served, req)[i] == k;
    b := served[i];
  }

  lemma {:induction false} BarServed(bars: seq<Bar>, req: KlineRequest, window: Window, b: Bar)
    requires ValidBars(bars) && b in bars && window.start <= FromMilli(b.openMs) && b.openMs < FloorMilli(window.end)
    ensures BarToKline(b, req) in ServedRows(bars, req, window)
  {
    hide ValidBars, BarToKline;
    var served := Served(bars, window.start, FloorMilli(window.end));
    ServedMembers(bars, window.start, FloorMilli(window.end));
    var i :| 0 <= i < |served| && served[i] == b;
    assert BarsToKlines(served, req)[i] == BarToKline(b, req);
  }

  lemma SameOpenSameBar(bars: seq<Bar>, a: Bar, b: Bar)
    requires ValidBars(bars) && a in bars && b in bars && a.openMs == b.openMs
    ensures a == b
  {
    var i :| 0 <= i < |bars| && bars[i] == a;
    var j :| 0 <= j < |bars| && bars[j] == b;
  }

  lemma {:induction false} RecordedHoldsBars(before: map<int, Database>, after: map<int, Database>,
                                             request: KlineRequest, bars: seq<Bar>, pages: seq<seq<Kline>>)
    requires var req := NormalizeKlineRequest(request);
             && ValidBars(bars) && Flatten(pages) == ServedRows(bars, req, Window(req.startAt, req.endAt))
             && Recorded(before, after, req, pages) && OnlyAdds(before, after, req)
    ensures HoldsBars(before, after, request, bars)
  {
    hide OneYearPages;
    var req := NormalizeKlineRequest(request);
    var window := Window(req.startAt, req.endAt);
    assert req.startAt == request.startAt && req.endAt == request.endAt;
    hide NormalizeKlineRequest, ValidBars, ServedRows, YearOf, KeyOf, TableOf, RowOfRequest, IsRowOf, BarToKline;
    hide FloorMilli;
    forall y, key | y in after && key in after[y].rows && IsNew(before, y, key)
      ensures exists b :: b in bars && request.startAt <= b.openMs * 1_000_000 < request.endAt
                          && IsRowOf(after[y].rows[key], b, request)
    {
      var b := ServedRow(bars, req, window, after[y].rows[key]);
      WholeMillis(b.openMs, window.end);
      IsRowOfIs(after[y].rows[key], b, request);
    }
    forall b, k | b in bars && IsRowOf(k, b, request)
                  && request.startAt <= b.openMs * 1_000_000 && (b.openMs + 1) * 1_000_000 <= request.endAt
      ensures YearOf(k.time) in after && KeyOf(k) in after[YearOf(k.time)].rows
      ensures IsNew(before, YearOf(k.time), KeyOf(k)) ==> after[YearOf(k.time)].rows[KeyOf(k)] == k
    {
      IsRowOfIs(k, b, request);
      WholeMillis(b.openMs, window.end);
      BarServed(bars, req, window, b);
      RowTimes(k, b, request);
      var y := YearOf(k.time);
      if IsNew(before, y, KeyOf(k)) {
        var stored := after[y].rows[KeyOf(k)];
        var other := ServedRow(bars, req, window, stored);
        assert KeyOf(stored) == KeyOf(k);
        SameKeySameOpen(other, b, req);
        SameOpenSameBar(bars, other, b);
      }
    }
  }

  lemma WholeMillis(ms: int, end: Time)
    ensures ms < FloorMilli(end) <==> (ms + 1) * 1_000_000 <= end
  {
  }

  lemma RowTimes(k: Kline, b: Bar, request: KlineRequest)
    requires IsRowOf(k, b, request)
    ensures k.time == k.openTime == b.openMs * 1_000_000
  {
  }

  lemma SameKeySameOpen(a: Bar, b: Bar, req: KlineRequest)
    requires KeyOf(BarToKline(a, req)) == KeyOf(BarToKline(b, req))
    ensures a.openMs == b.openMs
  {
    hide TableOf, NormalizeSymbolForWrite;
  }

  // Against any server, the segments of a success stand for open times stored in the
  // databases of their years, and for every row added. A success against a faithful
  // server has filled every year window with exactly
  // the exchange's bars, and its segments are the canonical cover of all of them.
  method RunKlineRequest(cluster: Cluster, server: Server, request: KlineRequest, ghost bars: seq<Bar>)
    returns (r: Result<seq<CoverageSegment>>, ghost pages: seq<seq<Kline>>)
    requires ValidBars(bars)
    modifies cluster
    ensures OnlyAdds(old(cluster.databases), cluster.databases, NormalizeKlineRequest(request))
    ensures var req := NormalizeKlineRequest(request);
            r.Success? ==> ValidKlineRequest(req) && req.exchange == "binance"
                           && r.value == AppendPages(Base(req), pages, StepOf(req))
                           && (pages != [] ==> CoverageIntervalDuration(req.interval).Success?)
                           && CoversStored(old(cluster.databases), cluster.databases, req, r.value)
    ensures var req := NormalizeKlineRequest(request);
            var rows := ServedRows(bars, req, Window(req.startAt, req.endAt));
            r.Success? && Faithful(server, bars) ==>
              && r.value == Runs(Base(req), OpenTimes(rows), StepOf(req))
              && forall w :: w in SplitYears(req.startAt, req.endAt) ==>
                   YearFilled(old(cluster.databases), cluster.databases, w, ServedRows(bars, req, w))
    ensures r.Success? ==> WellFormed(request)
    ensures AddsOnlyAsked(old(cluster.databases), cluster.databases, request)
    ensures r.Success? ==> forall seg :: seg in r.value ==> LabelledFor(seg, request)
    ensures r.Success? && Faithful(server, bars) ==>
              HoldsBars(old(cluster.databases), cluster.databases, request, bars)
    ensures cluster.AllWork() && Faithful(server, bars) && Responsive(server) ==>
              WellFormed(request) && CoverageIntervalDuration(IntervalAsked(request)).Success? ==> r.Success?
  {
    hide Extends, YearFilled, OnlyAdds, RowsOfWindow, InsertRows, Served, ValidBars, Faithful, YearOf, Jan1, FloorMilli;
    hide NormalizeKlineRequest, Tiles, IntervalDuration, AppendPages, AppendAll, Runs, BarsToKlines, PlainPage, Base;
    hide StepOf;
    hide CoverageIntervalDuration, SplitYears, Recorded, CoversStored, FilledUpTo, ValidKlineRequest, WellFormed;
    hide AddsOnlyAsked, LabelledFor, HoldsBars, IntervalAsked, ServedRows, Responsive;
    ghost var before := cluster.databases;
    WellFormedIsValid(request);
    IntervalIsAsked(request);
    OnlyAddsAsked(before, request);
    pages := [];
    assert OnlyAdds(before, before, NormalizeKlineRequest(request)) by {
      AddsNothing(before, NormalizeKlineRequest(request));
    }
    var req := NormalizeKlineRequest(request);
    if !ValidKlineRequest(req) {
      return Failure("invalid request"), pages;
    }
    if req.exchange != "binance" {
      return Failure("unsupported exchange"), pages;
    }
    var segments: seq<CoverageSegment> := [];
    var windows := SplitByYear(req.startAt, req.endAt);
    YearWindowsTile(req.startAt, req.endAt);
    var calls: nat := 0;
    NoPages(Base(req), StepOf(req));
    NothingFilled(bars, req, before, windows);
    NothingRecorded(before, req);
    for i := 0 to |windows|
      invariant Recorded(before, cluster.databases, req, pages)
      invariant OnlyAdds(before, cluster.databases, req)
      invariant Tiles(windows, req.startAt, req.endAt)
      invariant segments == AppendPages(Base(req), pages, StepOf(req))
      invariant pages != [] ==> CoverageIntervalDuration(req.interval).Success?
      invariant forall j :: i <= j < |windows| ==> YearUntouched(before, cluster.databases, windows[j].Year())
      invariant Faithful(server, bars) ==> FilledUpTo(bars, req, before, cluster.databases, windows, i, pages)
    {
      var window := windows[i];
      WindowFacts(windows, req.startAt, req.endAt, i);
      ghost var was := cluster.databases;
      var ensured := cluster.EnsureDatabaseExists(window.Year());
      ghost var mid := cluster.databases;
      DatabaseEnsured(before, was, mid, req, window.Year());
      if !ensured {
        return Failure("ensure year database"), pages;
      }
      var connected := cluster.Call();
      if !connected {
        return Failure("open year database"), pages;
      }
      var stored, call, windowPages := BackfillWindow(cluster, server, calls, req, window, bars);
      WindowOnlyAdds(before, mid, cluster.databases, req, window, Flatten(windowPages));
      if stored.Failure? {
        return Failure(stored.error), pages;
      }
      calls := call;
      segments := AppendCoverageSegments(segments, stored.value);
      ghost var pagesBefore := pages;
      pages := pages + windowPages;
      AppendPagesJoin(Base(req), pagesBefore, windowPages, StepOf(req));
      WindowRecorded(before, was, mid, cluster.databases, req, window, pagesBefore, windowPages);
      OthersUntouched(before, was, mid, cluster.databases, windows, i);
      WindowFilled(before, mid, cluster.databases, window, Flatten(windowPages));
      if Faithful(server, bars) {
        FilledFurther(bars, req, before, was, cluster.databases, windows, i, pagesBefore, windowPages);
      }
      var closed := cluster.Call();
      if !closed {
        return Failure("close year database"), pages;
      }
    }
    RecordedCovers(before, cluster.databases, req, pages);
    SegmentsLabelled(request, pages);
    if Faithful(server, bars) {
      AllFilled(bars, req, before, cluster.databases, windows, pages);
      RecordedHoldsBars(before, cluster.databases, request, bars, pages);
    }
    return Success(segments), pages;
  }

  // What a faithful server has led to after the first windows of a range.
  predicate FilledUpTo(bars: seq<Bar>, req: KlineRequest, before: map<int, Database>, now: map<int, Database>,
                       windows: seq<Window>, i: nat, pages: seq<seq<Kline>>)
    requires ValidBars(bars) && i <= |windows|
  {
    && (forall j :: 0 <= j < |pages| ==> PlainPage(pages[j]))
    && Flatten(pages) == BarsToKlines(Served(bars, req.startAt, FloorMilli(Reached(windows, i, req.startAt))), req)
    && (forall j :: 0 <= j < i ==> YearFilled(before, now, windows[j], ServedRows(bars, req, windows[j])))
  }

  lemma {:induction false} FilledFurther(bars: seq<Bar>, req: KlineRequest, before: map<int, Database>,
                                         was: map<int, Database>, after: map<int, Database>, windows: seq<Window>,
                                         i: nat, pages: seq<seq<Kline>>, more: seq<seq<Kline>>)
    requires ValidBars(bars) && i < |windows| && FilledUpTo(bars, req, before, was, windows, i, pages)
    requires Tiles(windows, req.startAt, req.endAt)
    requires forall y :: y != windows[i].Year() ==> YearUntouched(was, after, y)
    requires forall j :: 0 <= j < |more| ==> PlainPage(more[j])
    requires Flatten(more) == ServedRows(bars, req, windows[i])
    requires YearFilled(before, after, windows[i], Flatten(more))
    ensures FilledUpTo(bars, req, before, after, windows, i + 1, pages + more)
  {
    hide ValidBars, Tiles, YearUntouched, PlainPage, YearFilled, Served, BarsToKlines, Flatten, FloorMilli;
    hide FromMilli, YearOf;
    var window := windows[i];
    WindowFacts(windows, req.startAt, req.endAt, i);
    OthersFilled(bars, req, before, was, after, windows, i);
    FlattenJoin(pages, more);
    assert window.start < window.end by {
      WindowInside(windows, req.startAt, req.endAt, i);
    }
    ServedJoin(bars, req.startAt, window.start, window.end);
    BarsToKlinesJoin(Served(bars, req.startAt, FloorMilli(window.start)),
                     Served(bars, window.start, FloorMilli(window.end)), req);
  }

  lemma {:induction false} AllFilled(bars: seq<Bar>, req: KlineRequest, before: map<int, Database>,
                                     after: map<int, Database>, windows: seq<Window>, pages: seq<seq<Kline>>)
    requires ValidBars(bars) && FilledUpTo(bars, req, before, after, windows, |windows|, pages)
    requires Tiles(windows, req.startAt, req.endAt) && req.startAt < req.endAt
    ensures AppendPages(Base(req), pages, StepOf(req))
            == Runs(Base(req), OpenTimes(ServedRows(bars, req, Window(req.startAt, req.endAt))), StepOf(req))
    ensures forall w :: w in windows ==> YearFilled(before, after, w, ServedRows(bars, req, w))
    ensures Flatten(pages) == ServedRows(bars, req, Window(req.startAt, req.endAt))
  {
    hide ValidBars, Tiles, PlainPage, YearFilled, Served, BarsToKlines, Flatten, FloorMilli, AppendPages, Runs, Base;
    hide StepOf, OpenTimes;
    ReachedEnd(windows, req.startAt, req.endAt);
    PlainPagesCover(Base(req), pages, StepOf(req));
  }

  lemma NothingFilled(bars: seq<Bar>, req: KlineRequest, before: map<int, Database>, windows: seq<Window>)
    requires ValidBars(bars)
    ensures FilledUpTo(bars, req, before, before, windows, 0, [])
  {
    NothingServed(bars, req);
  }

  lemma ReachedEnd(windows: seq<Window>, start: Time, end: Time)
    requires Tiles(windows, start, end) && start < end
    ensures Reached(windows, |windows|, start) == end
  {
  }

  // Creating a missing year database loses nothing and adds no row.
  lemma {:induction false} DatabaseEnsured(before: map<int, Database>, was: map<int, Database>,
                                           mid: map<int, Database>, req: KlineRequest, y: int)
    requires OnlyAdds(before, was, req)
    requires YearUntouched(before, was, y)
    requires mid == was || (y !in was && mid == was[y := Database({}, map[])])
    ensures OnlyAdds(before, mid, req)
    ensures y in before ==> y in mid && mid[y] == before[y]
    ensures y !in before && y in mid ==> mid[y] == Database({}, map[])
  {
  }

  lemma NothingServed(bars: seq<Bar>, req: KlineRequest)
    requires ValidBars(bars)
    ensures BarsToKlines(Served(bars, req.startAt, FloorMilli(req.startAt)), req) == []
  {
    NothingSinceStart(bars, req.startAt);
  }

  lemma {:induction false} WindowFacts(windows: seq<Window>, start: Time, end: Time, i: nat)
    requires Tiles(windows, start, end) && i < |windows|
    ensures InOneYear(windows[i])
    ensures start <= windows[i].start && windows[i].end <= end
    ensures windows[i].start == Reached(windows, i, start)
    ensures windows[i].start == start || FromMilli(FloorMilli(windows[i].start)) == windows[i].start
    ensures forall j :: 0 <= j < |windows| && j != i ==> windows[j].Year() != windows[i].Year()
  {
    hide YearOf, Jan1, FloorMilli, FromMilli;
    WindowsInOneYear(windows, start, end, i);
    WindowInside(windows, start, end, i);
    if i > 0 {
      InnerStartsAreNewYears(windows, start, end, i);
      Jan1IsOnAMilli(windows[i].Year());
    }
  }

  lemma {:induction false} WindowInside(windows: seq<Window>, start: Time, end: Time, i: nat)
    requires Tiles(windows, start, end) && i < |windows|
    ensures start <= windows[i].start < windows[i].end <= end
  {
    hide YearOf, Jan1;
    EndsAscend(windows[..i]);
    EndsAscend(windows[i + 1..]);
    assert i > 0 ==> windows[i - 1].end == windows[i].start;
    assert i + 1 < |windows| ==> windows[i].end == windows[i + 1].start;
  }

  lemma {:induction false} OthersUntouched(before: map<int, Database>, was: map<int, Database>,
                                           mid: map<int, Database>, after: map<int, Database>, windows: seq<Window>,
                                           i: nat)
    requires i < |windows|
    requires forall j :: 0 <= j < |windows| && j != i ==> windows[j].Year() != windows[i].Year()
    requires forall j :: i <= j < |windows| ==> YearUntouched(before, was, windows[j].Year())
    requires mid == was || mid == was[windows[i].Year() := Database({}, map[])]
    requires windows[i].Year() in after && after == mid[windows[i].Year() := after[windows[i].Year()]]
    ensures forall j :: i < j < |windows| ==> YearUntouched(before, after, windows[j].Year())
  {
    hide YearOf;
  }

  lemma {:induction false} OthersFilled(bars: seq<Bar>, req: KlineRequest, before: map<int, Database>,
                                        was: map<int, Database>, after: map<int, Database>, windows: seq<Window>,
                                        i: nat)
    requires ValidBars(bars) && i < |windows|
    requires forall j :: 0 <= j < |windows| && j != i ==> windows[j].Year() != windows[i].Year()
    requires forall y :: y != windows[i].Year() ==> YearUntouched(was, after, y)
    requires forall j :: 0 <= j < i ==> YearFilled(before, was, windows[j], ServedRows(bars, req, windows[j]))
    ensures forall j :: 0 <= j < i ==> YearFilled(before, after, windows[j], ServedRows(bars, req, windows[j]))
  {
    hide YearOf, ServedRows, ValidBars, TableOf, KeyOf;
    forall j | 0 <= j < i ensures YearFilled(before, after, windows[j], ServedRows(bars, req, windows[j])) {
      assert YearUntouched(was, after, windows[j].Year());
    }
  }

  function Reached(windows: seq<Window>, i: nat, start: Time): Time
    requires i <= |windows|
  {
    if i == 0 then start else windows[i - 1].end
  }

  lemma AddsNothing(before: map<int, Database>, req: KlineRequest)
    ensures OnlyAdds(before, before, req)
  {
  }
}
