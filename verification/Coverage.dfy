/** Verifying a request: counting stored rows against the expected number of bars,
    and what a Ready answer is worth. */
module Coverage {
  import opened Wrappers
  import opened Calendar
  import opened Intervals
  import opened Klines
  import opened CoverageSegments
  import opened Exchange
  import opened Storage
  import opened YearWindows
  import opened Backfill

  // ----- The table the verifier reads and the table the writer fills -----

  function BuildKlineTableName(market: string, symbol: string, interval: string): string {
    var market := ToLower(TrimSpace(market));
    (if market != "futures" then "spot" else market) + "_klines_"
      + ToLower(TrimSpace(symbol)) + "_" + ToLower(TrimSpace(interval))
  }

  function QueryTable(req: KlineRequest): string {
    BuildKlineTableName(req.market, req.symbol, req.interval)
  }

  predicate IsNormalized(req: KlineRequest) {
    && Trimmed(req.symbol) && ToUpper(req.symbol) == req.symbol && req.symbol != ""
    && Trimmed(req.interval) && req.interval != ""
  }

  predicate Alphanumeric(s: string) {
    forall i :: 0 <= i < |s| ==> IsAlnum(s[i])
  }

  lemma NormalizedRequest(request: KlineRequest)
    requires ValidKlineRequest(NormalizeKlineRequest(request))
    ensures IsNormalized(NormalizeKlineRequest(request))
  {
    UpperTrimmed(TrimSpace(request.symbol));
  }

  lemma {:induction false} KeepAlnumShrinks(s: string)
    ensures |KeepAlnum(s)| <= |s|
    ensures KeepAlnum(s) == s <==> Alphanumeric(s)
    ensures Alphanumeric(KeepAlnum(s))
  {
    if s != "" {
      KeepAlnumShrinks(Front(s));
      assert s == Front(s) + [Last(s)];
      if KeepAlnum(s) == s {
        assert |KeepAlnum(Front(s))| == |Front(s)|;
        assert KeepAlnum(Front(s)) == s[..|s| - 1];
      }
    }
  }

  // The writer drops punctuation from the symbol in its table name, the verifier
  // does not: they name one table if and only if the symbol is alphanumeric.
  lemma TableNamesAgree(req: KlineRequest, k: Kline)
    requires IsNormalized(req) && RowOfRequest(k, req)
    ensures TableOf(k) == QueryTable(req) <==> Alphanumeric(req.symbol)
    ensures NormalizeSymbolForWrite(k.symbol) == req.symbol
  {
    UpperTrimmed(req.symbol);
    var lower := ToLower(req.symbol);
    assert ToLower(TrimSpace(NormalizeSymbolForWrite(k.symbol))) == lower;
    assert Alphanumeric(lower) <==> Alphanumeric(req.symbol) by {
      LowerAlnum(req.symbol);
    }
    KeepAlnumShrinks(lower);
    var kept := NormalizeSymbolForTable(NormalizeSymbolForWrite(k.symbol));
    assert kept == lower <==> Alphanumeric(req.symbol) by {
      assert "unknown" == lower ==> Alphanumeric(lower);
    }
    var prefix, suffix := NormalizeMarket(req.market) + "_klines_", "_" + ToLower(req.interval);
    assert TableOf(k) == prefix + kept + suffix;
    assert QueryTable(req) == prefix + lower + suffix;
    MiddleEqual(prefix, kept, lower, suffix);
  }

  lemma LowerAlnum(s: string)
    ensures Alphanumeric(ToLower(s)) <==> Alphanumeric(s)
  {
    assert forall i :: 0 <= i < |s| ==> (IsAlnum(ToLower(s)[i]) <==> IsAlnum(s[i]));
  }

  lemma MiddleEqual(prefix: string, a: string, b: string, suffix: string)
    ensures prefix + a + suffix == prefix + b + suffix <==> a == b
  {
    if prefix + a + suffix == prefix + b + suffix {
      assert |a| == |b|;
      assert a == (prefix + a + suffix)[|prefix|..|prefix| + |a|];
      assert b == (prefix + b + suffix)[|prefix|..|prefix| + |b|];
    }
  }

  // ----- Expected bars -----

  // time.Time.Sub saturates at the ends of int64.
  function Sub(end: Time, start: Time): int {
    var diff := end - start;
    if diff > MAX_INT64 then MAX_INT64 else if diff < MIN_INT64 then MIN_INT64 else diff
  }

  // Go's division truncates toward zero.
  function TruncDiv(a: int, b: int): int
    requires a >= 0 && b != 0
  {
    if b > 0 then a / b else -(a / -b)
  }

  // What a call ends in: a value, an error, or a panic that ends the process.
  datatype Verdict<+T> = Returned(value: T) | Failed(error: string) | Panicked

  // An interval whose duration wraps around to zero makes the division panic.
  function ExpectedBarCount(start: Time, end: Time, interval: string): Verdict<int> {
    match IntervalDuration(interval)
    case Failure(error) => Failed(error)
    case Success(dur) =>
      var diff := Sub(end, start);
      if diff < 0 then Failed("end must be >= start")
      else if dur == 0 then Panicked
      else Returned(TruncDiv(diff, dur))
  }

  // The expected count is the quotient truncated toward zero, negative for an interval
  // whose duration wrapped around to a negative one, of a range of at most the longest
  // duration int64 holds.
  lemma ExpectedExactly(start: Time, end: Time, interval: string)
    requires IntervalDuration(interval).Success?
    ensures var dur, span := IntervalDuration(interval).value, end - start;
            var r := ExpectedBarCount(start, end, interval);
            var reach := if span > 9_223_372_036_854_775_807 then 9_223_372_036_854_775_807 else span;
            if span < 0 then r.Failed?
            else if dur == 0 then r.Panicked?
            else r.Returned? && r.value * dur <= reach < r.value * dur + (if dur > 0 then dur else -dur)
  {
    var dur, diff := IntervalDuration(interval).value, Sub(end, start);
    hide IntervalDuration, TruncDiv;
    if diff >= 0 && dur != 0 {
      TruncDivIs(diff, dur);
    }
  }

  lemma TruncDivIs(a: int, b: int)
    requires a >= 0 && b != 0
    ensures TruncDiv(a, b) * b <= a < TruncDiv(a, b) * b + (if b > 0 then b else -b)
  {
    if b > 0 {
      DivMul(a, b);
    } else {
      DivMul(a, -b);
      var q := a / -b;
      assert -q * b == q * -b;
    }
  }

  lemma DivMul(a: int, b: int)
    requires b > 0
    ensures a / b * b <= a < a / b * b + b
  {
    assert a == a / b * b + a % b;
  }

  // 36028797018963968, 2^55, seconds are a multiple of 2^64 nanoseconds: a valid interval
  // of no length.
  lemma {:induction false} WrappedIntervalPanics(seconds: nat, start: Time, end: Time)
    requires seconds == 36028797018963968 && start <= end
    ensures IntervalDuration(Decimal(seconds) + "s") == Success(0)
    ensures ExpectedBarCount(start, end, Decimal(seconds) + "s").Panicked?
  {
    assert Wrap64(seconds * 1_000_000_000) == 0;
    hide Wrap64, IntervalDuration, CoverageIntervalDuration, Decimal;
    DurationOf(seconds, 's');
    assert BothParsers(Decimal(seconds) + "s", seconds * 1_000_000_000);
  }

  // ----- The rows of a window -----

  // The rows the verifier's query counts.
  function StoredKeys(db: Database, req: KlineRequest, window: Window): set<RowKey> {
    set key |
      key in db.rows && key.table == QueryTable(req) && key.symbol == req.symbol && InWindow(db.rows[key], window)
  }

  predicate Queryable(databases: map<int, Database>, req: KlineRequest, window: Window) {
    window.Year() in databases && QueryTable(req) in databases[window.Year()].tables
  }

  function StoredTimes(databases: map<int, Database>, req: KlineRequest, window: Window): set<Time> {
    if !Queryable(databases, req, window) then {}
    else
      var db := databases[window.Year()];
      OpenTimesOf(db, StoredKeys(db, req, window))
  }

  function OpenTimesOf(db: Database, keys: set<RowKey>): set<Time>
    requires forall key :: key in keys ==> key in db.rows
  {
    set key | key in keys :: db.rows[key].openTime
  }

  // The stored open times of all the windows.
  function AllStoredTimes(databases: map<int, Database>, req: KlineRequest, windows: seq<Window>): set<Time> {
    if windows == [] then {}
    else AllStoredTimes(databases, req, Front(windows)) + StoredTimes(databases, req, Last(windows))
  }

  predicate WindowReady(databases: map<int, Database>, req: KlineRequest, window: Window) {
    && Queryable(databases, req, window)
    && var keys := StoredKeys(databases[window.Year()], req, window);
       var expected := ExpectedBarCount(window.start, window.end, req.interval);
       keys != {} && expected.Returned? && |keys| >= expected.value
  }

  predicate IsLeast(t: Option<Time>, times: set<Time>) {
    match t
    case None => times == {}
    case Some(least) => least in times && forall x :: x in times ==> least <= x
  }

  predicate IsGreatest(t: Option<Time>, times: set<Time>) {
    match t
    case None => times == {}
    case Some(greatest) => greatest in times && forall x :: x in times ==> x <= greatest
  }

  // coveredEndFromMaxOpenTime: one interval after the last open time.
  predicate EndsCoverage(end: Option<Time>, times: set<Time>, dur: int) {
    match end
    case None => times == {}
    case Some(t) => IsGreatest(Some(t - dur), times)
  }

  // ----- The code -----

  datatype WindowCoverage = WindowCoverage(ready: bool, start: Option<Time>, end: Option<Time>)

  datatype CoverageReport = CoverageReport(ready: bool, coveredStartAt: Option<Time>, coveredEndAt: Option<Time>)

  function Lesser(a: Option<Time>, b: Option<Time>): Option<Time> {
    if b.Some? && (a.None? || b.value < a.value) then b else a
  }

  function Greater(a: Option<Time>, b: Option<Time>): Option<Time> {
    if b.Some? && (a.None? || b.value > a.value) then b else a
  }

  lemma LeastOfUnion(a: Option<Time>, s: set<Time>, b: Option<Time>, t: set<Time>)
    requires IsLeast(a, s) && IsLeast(b, t)
    ensures IsLeast(Lesser(a, b), s + t)
  {
  }

  lemma EndOfUnion(a: Option<Time>, s: set<Time>, b: Option<Time>, t: set<Time>, dur: int)
    requires EndsCoverage(a, s, dur) && EndsCoverage(b, t, dur)
    ensures EndsCoverage(Greater(a, b), s + t, dur)
  {
  }

  lemma OpenTimesOfAdd(db: Database, keys: set<RowKey>, key: RowKey)
    requires forall k :: k in keys ==> k in db.rows
    requires key in db.rows
    ensures OpenTimesOf(db, keys + {key}) == OpenTimesOf(db, keys) + {db.rows[key].openTime}
  {
  }

  // SELECT COUNT(*), MIN(open_time), MAX(open_time).
  method QueryRows(db: Database, keys: set<RowKey>) returns (count: nat, minOpen: Option<Time>, maxOpen: Option<Time>)
    requires forall key :: key in keys ==> key in db.rows
    ensures count == |keys|
    ensures IsLeast(minOpen, OpenTimesOf(db, keys))
    ensures EndsCoverage(maxOpen, OpenTimesOf(db, keys), 0)
  {
    count, minOpen, maxOpen := 0, None, None;
    var done: set<RowKey> := {};
    assert OpenTimesOf(db, {}) == {};
    hide OpenTimesOf, IsLeast, EndsCoverage;
    while done != keys
      invariant done <= keys
      invariant count == |done|
      invariant IsLeast(minOpen, OpenTimesOf(db, done))
      invariant EndsCoverage(maxOpen, OpenTimesOf(db, done), 0)
      decreases keys - done
    {
      var rest := keys - done;
      assert done + rest == keys;
      var key :| key in rest;
      var t := db.rows[key].openTime;
      OpenTimesOfAdd(db, done, key);
      OneTime(t);
      LeastOfUnion(minOpen, OpenTimesOf(db, done), Some(t), {t});
      EndOfUnion(maxOpen, OpenTimesOf(db, done), Some(t), {t}, 0);
      done := done + {key};
      count := count + 1;
      if minOpen.None? || t < minOpen.value {
        minOpen := Some(t);
      }
      if maxOpen.None? || t > maxOpen.value {
        maxOpen := Some(t);
      }
    }
  }

  lemma OneTime(t: Time)
    ensures IsLeast(Some(t), {t}) && EndsCoverage(Some(t), {t}, 0)
  {
  }

  // Some foreign call of a series failed.
  ghost predicate SomeCallFails(cluster: Cluster, first: nat, end: nat) {
    exists n :: first <= n < end && !cluster.outcome(n).Works?
  }

  // Looks for the database, connects and queries. An absent database or table is an
  // answer, not a failure: only a foreign call fails.
  method VerifyWindowCoverage(cluster: Cluster, req: KlineRequest, window: Window) returns (r: Verdict<WindowCoverage>)
    requires window.start < window.end && IntervalDuration(req.interval).Success?
    modifies cluster`calls
    ensures old(cluster.calls) <= cluster.calls
    ensures r.Failed? ==> SomeCallFails(cluster, old(cluster.calls), cluster.calls)
    ensures r.Returned? ==>
      && (r.value.ready <==> WindowReady(cluster.databases, req, window))
      && IsLeast(r.value.start, StoredTimes(cluster.databases, req, window))
      && EndsCoverage(r.value.end, StoredTimes(cluster.databases, req, window), IntervalDuration(req.interval).value)
    ensures r.Returned? ==> !(Queryable(cluster.databases, req, window) && IntervalDuration(req.interval) == Success(0))
    ensures r.Panicked? ==> Queryable(cluster.databases, req, window) && IntervalDuration(req.interval) == Success(0)
  {
    var found := cluster.Call();
    if !found {
      return Failed("database exists");
    }
    var year := window.Year();
    if year !in cluster.databases {
      return Returned(WindowCoverage(false, None, None));
    }
    var connected := cluster.Call();
    if !connected {
      return Failed("connect");
    }
    var queried := cluster.Call();
    if !queried {
      return Failed("query");
    }
    var db := cluster.databases[year];
    if QueryTable(req) !in db.tables {
      return Returned(WindowCoverage(false, None, None));
    }
    var keys := StoredKeys(db, req, window);
    var count, coveredStart, maxOpen := QueryRows(db, keys);
    ghost var times := StoredTimes(cluster.databases, req, window);
    assert times == OpenTimesOf(db, keys);
    var coveredEnd := None;
    if maxOpen.Some? {
      coveredEnd := Some(maxOpen.value + IntervalDuration(req.interval).value);
    }
    var expected := ExpectedBarCount(window.start, window.end, req.interval);
    if expected.Failed? {
      return Failed(expected.error);
    }
    if expected.Panicked? {
      return Panicked;
    }
    if keys != {} {
      var key :| key in keys;
      assert db.rows[key].openTime in times;
    }
    var ready := count >= expected.value && coveredStart.Some? && coveredEnd.Some?;
    return Returned(WindowCoverage(ready, coveredStart, coveredEnd));
  }

  lemma NothingCovered(dur: int)
    ensures IsLeast(None, {}) && EndsCoverage(None, {}, dur)
  {
  }

  lemma TilesNonEmpty(windows: seq<Window>, start: Time, end: Time)
    requires Tiles(windows, start, end)
    ensures forall w :: w in windows ==> w.start < w.end
  {
    hide YearOf;
  }

  // Ready when every year window is; the covered range runs from the first stored
  // open time to one interval after the last. It panics only, and never returns, when
  // the interval has no length and the table of a window it looks at is there; and it
  // fails if the request is malformed, and otherwise only if a foreign call does.
  method VerifyKlineCoverage(cluster: Cluster, request: KlineRequest) returns (r: Verdict<CoverageReport>)
    modifies cluster`calls
    ensures !WellFormed(request) ==> r.Failed?
    ensures r.Failed? ==> !WellFormed(request) || SomeCallFails(cluster, old(cluster.calls), cluster.calls)
    ensures var req := NormalizeKlineRequest(request);
            r.Returned? ==>
              var windows := SplitYears(req.startAt, req.endAt);
              var times := AllStoredTimes(cluster.databases, req, windows);
              && ValidKlineRequest(req) && req.exchange == "binance"
              && (r.value.ready <==> forall w :: w in windows ==> WindowReady(cluster.databases, req, w))
              && IsLeast(r.value.coveredStartAt, times)
              && EndsCoverage(r.value.coveredEndAt, times, IntervalDuration(req.interval).value)
    ensures var req := NormalizeKlineRequest(request);
            var windows := SplitYears(req.startAt, req.endAt);
            && (r.Panicked? ==> IntervalDuration(req.interval) == Success(0)
                                && exists w :: w in windows && Queryable(cluster.databases, req, w))
            && (r.Returned? && IntervalDuration(req.interval) == Success(0) ==>
                  forall w :: w in windows ==> !Queryable(cluster.databases, req, w))
  {
    hide NormalizeKlineRequest, WindowReady, StoredTimes, SplitYears, IntervalDuration, IsLeast, EndsCoverage, Tiles;
    hide Queryable, WellFormed;
    WellFormedIsValid(request);
    var req := NormalizeKlineRequest(request);
    if !ValidKlineRequest(req) {
      return Failed("invalid request");
    }
    if req.exchange != "binance" {
      return Failed("unsupported exchange");
    }
    var overallReady := true;
    var coveredStart, coveredEnd := None, None;
    var windows := SplitByYear(req.startAt, req.endAt);
    YearWindowsTile(req.startAt, req.endAt);
    ghost var dur := IntervalDuration(req.interval).value;
    NothingCovered(dur);
    assert forall w :: w in windows ==> w.start < w.end by {
      TilesNonEmpty(windows, req.startAt, req.endAt);
    }
    for i := 0 to |windows|
      invariant old(cluster.calls) <= cluster.calls
      invariant overallReady <==> forall j :: 0 <= j < i ==> WindowReady(cluster.databases, req, windows[j])
      invariant IntervalDuration(req.interval) == Success(0) ==>
                  forall j :: 0 <= j < i ==> !Queryable(cluster.databases, req, windows[j])
      invariant IsLeast(coveredStart, AllStoredTimes(cluster.databases, req, windows[..i]))
      invariant EndsCoverage(coveredEnd, AllStoredTimes(cluster.databases, req, windows[..i]), dur)
    {
      assert Front(windows[..i + 1]) == windows[..i];
      var segment := VerifyWindowCoverage(cluster, req, windows[i]);
      if segment.Failed? {
        return Failed(segment.error);
      }
      if segment.Panicked? {
        assert windows[i] in windows;
        return Panicked;
      }
      ghost var before := AllStoredTimes(cluster.databases, req, windows[..i]);
      ghost var here := StoredTimes(cluster.databases, req, windows[i]);
      LeastOfUnion(coveredStart, before, segment.value.start, here);
      EndOfUnion(coveredEnd, before, segment.value.end, here, dur);
      if !segment.value.ready {
        overallReady := false;
      }
      if segment.value.start.Some? && (coveredStart.None? || segment.value.start.value < coveredStart.value) {
        coveredStart := segment.value.start;
      }
      if segment.value.end.Some? && (coveredEnd.None? || segment.value.end.value > coveredEnd.value) {
        coveredEnd := segment.value.end;
      }
    }
    assert windows[..|windows|] == windows;
    assert forall w :: w in windows <==> exists j :: 0 <= j < |windows| && windows[j] == w;
    return Returned(CoverageReport(overallReady, coveredStart, coveredEnd));
  }
}
