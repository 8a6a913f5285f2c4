/** What a Ready answer guarantees, and when a finished backfill earns one. */
module Readiness {
  import opened Wrappers
  import opened Calendar
  import opened Intervals
  import opened Klines
  import opened CoverageSegments
  import opened Exchange
  import opened Storage
  import opened YearWindows
  import opened Backfill
  import opened Coverage

  // ----- Lattices of open times -----

  function LatticePoint(phase: Time, step: int, k: int): Time {
    phase + k * step
  }

  ghost predicate OnLattice(t: Time, phase: Time, step: int) {
    exists k :: t == LatticePoint(phase, step, k)
  }

  // The index of the first lattice point at or after t.
  function IndexFrom(t: Time, phase: Time, step: int): (k: int)
    requires step > 0
    ensures LatticePoint(phase, step, k) >= t
    ensures LatticePoint(phase, step, k - 1) < t
  {
    var q := (phase - t) / step;
    assert q * step <= phase - t < (q + 1) * step by {
      FloorDivision(phase - t, step);
    }
    assert LatticePoint(phase, step, -q) == phase - q * step;
    assert LatticePoint(phase, step, -q - 1) == phase - (q + 1) * step;
    -q
  }

  lemma FloorDivision(a: int, b: int)
    requires b > 0
    ensures (a / b) * b <= a < (a / b + 1) * b
  {
    assert (a / b + 1) * b == (a / b) * b + b;
  }

  lemma PointsOrdered(phase: Time, step: int, j: int, k: int)
    requires step > 0
    ensures LatticePoint(phase, step, j) < LatticePoint(phase, step, k) <==> j < k
    ensures LatticePoint(phase, step, k) == LatticePoint(phase, step, j) + (k - j) * step
  {
    var d := k - j;
    assert k * step == j * step + d * step;
    if d > 0 {
      assert d * step > 0;
    } else {
      assert d * step <= 0;
    }
  }

  function PointSet(phase: Time, step: int, lo: int, hi: int): set<Time> {
    set k | lo <= k < hi :: LatticePoint(phase, step, k)
  }

  lemma PointSetSnoc(phase: Time, step: int, lo: int, hi: int)
    requires step > 0 && lo < hi
    ensures PointSet(phase, step, lo, hi) == PointSet(phase, step, lo, hi - 1) + {LatticePoint(phase, step, hi - 1)}
    ensures LatticePoint(phase, step, hi - 1) !in PointSet(phase, step, lo, hi - 1)
  {
    hide LatticePoint;
    forall k | lo <= k < hi - 1 ensures LatticePoint(phase, step, k) != LatticePoint(phase, step, hi - 1) {
      PointsOrdered(phase, step, k, hi - 1);
    }
  }

  lemma {:induction false} PointSetSize(phase: Time, step: int, lo: int, hi: int)
    requires step > 0 && lo <= hi
    ensures |PointSet(phase, step, lo, hi)| == hi - lo
    decreases hi - lo
  {
    if lo == hi {
      assert PointSet(phase, step, lo, hi) == {};
    } else {
      PointSetSize(phase, step, lo, hi - 1);
      PointSetSnoc(phase, step, lo, hi);
    }
  }

  // The lattice points of a window.
  function WindowPoints(window: Window, phase: Time, step: int): set<Time>
    requires step > 0
  {
    PointSet(phase, step, IndexFrom(window.start, phase, step), IndexFrom(window.end, phase, step))
  }

  lemma {:induction false} WindowPointsMembers(window: Window, phase: Time, step: int, t: Time)
    requires step > 0
    ensures t in WindowPoints(window, phase, step) <==> window.start <= t < window.end && OnLattice(t, phase, step)
  {
    hide LatticePoint, IndexFrom;
    var lo, hi := IndexFrom(window.start, phase, step), IndexFrom(window.end, phase, step);
    forall k ensures lo <= k < hi <==> window.start <= LatticePoint(phase, step, k) < window.end {
      PointsOrdered(phase, step, lo, k);
      PointsOrdered(phase, step, lo - 1, k);
      PointsOrdered(phase, step, hi, k);
      PointsOrdered(phase, step, hi - 1, k);
      PointsOrdered(phase, step, k, lo);
      PointsOrdered(phase, step, k, hi);
    }
  }

  // A window holds the rounded-down number of lattice points or one more, and
  // exactly that number when its length is a multiple of the step.
  lemma {:induction false} WindowPointsCount(window: Window, phase: Time, step: int)
    requires step > 0 && window.start < window.end
    ensures var q := (window.end - window.start) / step;
            && q <= |WindowPoints(window, phase, step)| <= q + 1
            && (q * step == window.end - window.start ==> |WindowPoints(window, phase, step)| == q)
  {
    hide LatticePoint, IndexFrom;
    var lo, hi := IndexFrom(window.start, phase, step), IndexFrom(window.end, phase, step);
    var q := (window.end - window.start) / step;
    FloorDivision(window.end - window.start, step);
    assert q >= 0;
    PointsOrdered(phase, step, lo - 1, lo + q - 1);
    PointsOrdered(phase, step, lo + q - 1, hi);
    assert hi > lo + q - 1;
    PointsOrdered(phase, step, lo, lo + q + 1);
    PointsOrdered(phase, step, hi - 1, lo + q + 1);
    assert hi - 1 < lo + q + 1;
    PointsOrdered(phase, step, lo, lo + q);
    PointsOrdered(phase, step, hi - 1, lo + q);
    PointSetSize(phase, step, lo, hi);
  }

  // ----- What Ready is worth -----

  // The writer stores time and open_time as one instant.
  predicate TimesAgree(db: Database) {
    forall key :: key in db.rows ==> key.time == db.rows[key].openTime
  }

  lemma {:induction false} OneRowPerTime(db: Database, keys: set<RowKey>, table: string, symbol: string)
    requires TimesAgree(db)
    requires forall key :: key in keys ==> key in db.rows && key.table == table && key.symbol == symbol
    ensures |OpenTimesOf(db, keys)| == |keys|
    decreases |keys|
  {
    if keys == {} {
      assert OpenTimesOf(db, keys) == {};
    } else {
      var key :| key in keys;
      var rest := keys - {key};
      OneRowPerTime(db, rest, table, symbol);
      assert keys == rest + {key};
      OpenTimesOfAdd(db, rest, key);
      assert db.rows[key].openTime !in OpenTimesOf(db, rest) by {
        forall k | k in rest ensures db.rows[k].openTime != db.rows[key].openTime {
          assert k == RowKey(table, k.time, symbol) && key == RowKey(table, key.time, symbol);
        }
      }
    }
  }

  lemma ExpectedInOneYear(window: Window, interval: string, step: int)
    requires InOneYear(window)
    requires IntervalDuration(interval) == Success(step) && step > 0
    ensures ExpectedBarCount(window.start, window.end, interval) == Returned((window.end - window.start) / step)
  {
    NextYear(window.Year());
    assert window.end - window.start <= 366 * NANOS_PER_DAY;
    hide IntervalDuration, YearOf, Jan1;
  }

  lemma Missing(points: set<Time>, stored: set<Time>)
    requires stored <= points
    ensures |points - stored| == |points| - |stored|
  {
    assert points == stored + (points - stored);
  }

  // With the stored open times on one lattice of the interval, a window is Ready
  // exactly when it has a row and misses no more lattice points than it has beyond
  // the expected count; so it misses at most one, and none at all when its length
  // is a multiple of the interval.
  lemma {:induction false} ReadyExactly(databases: map<int, Database>, req: KlineRequest, window: Window, phase: Time,
                                        step: int)
    requires InOneYear(window)
    requires IntervalDuration(req.interval) == Success(step) && step > 0
    requires Queryable(databases, req, window) && TimesAgree(databases[window.Year()])
    requires forall t :: t in StoredTimes(databases, req, window) ==> OnLattice(t, phase, step)
    ensures var points, stored := WindowPoints(window, phase, step), StoredTimes(databases, req, window);
            && (WindowReady(databases, req, window) <==>
                stored != {} && |points - stored| <= |points| - (window.end - window.start) / step)
            && (WindowReady(databases, req, window) ==> |points - stored| <= 1)
            && (WindowReady(databases, req, window) && (window.end - window.start) % step == 0 ==> stored == points)
  {
    hide InOneYear, IntervalDuration, WindowPoints, TimesAgree, QueryTable, OnLattice, ExpectedBarCount;
    var db := databases[window.Year()];
    var keys := StoredKeys(db, req, window);
    var points, stored := WindowPoints(window, phase, step), StoredTimes(databases, req, window);
    ExpectedInOneYear(window, req.interval, step);
    OneRowPerTime(db, keys, QueryTable(req), req.symbol);
    assert keys == {} <==> |keys| == 0;
    assert stored == {} <==> |stored| == 0;
    assert stored <= points by {
      forall t | t in stored ensures t in points {
        WindowPointsMembers(window, phase, step, t);
      }
    }
    assert window.start < window.end by {
      NonEmpty(window);
    }
    WindowPointsCount(window, phase, step);
    Missing(points, stored);
    assert |points - stored| == 0 ==> points - stored == {};
    assert points == stored + (points - stored);
  }

  lemma NonEmpty(window: Window)
    requires InOneYear(window)
    ensures window.start < window.end
  {
  }

  // ----- When a finished backfill is Ready -----

  // The exchange has a bar at every lattice point of the window.
  ghost predicate HoldsLattice(bars: seq<Bar>, window: Window, phase: Time, step: int)
    requires step > 0
  {
    forall t :: t in WindowPoints(window, phase, step) ==> OpensBar(bars, t)
  }

  ghost predicate OpensBar(bars: seq<Bar>, t: Time) {
    exists b :: b in bars && FromMilli(b.openMs) == t
  }

  ghost predicate HasBar(bars: seq<Bar>, window: Window) {
    exists b :: b in bars && window.start <= FromMilli(b.openMs) < window.end
  }

  // Rows the verifier would count before the backfill are bars of the exchange.
  ghost predicate OldRowsAreBars(before: map<int, Database>, bars: seq<Bar>, req: KlineRequest, window: Window) {
    window.Year() in before ==>
      forall key :: key in StoredKeys(before[window.Year()], req, window) ==>
        OpensBar(bars, before[window.Year()].rows[key].openTime)
  }

  lemma ServedRowsOfBars(bars: seq<Bar>, req: KlineRequest, window: Window, b: Bar)
    requires ValidBars(bars) && FromMilli(FloorMilli(window.end)) == window.end
    ensures BarToKline(b, req) in ServedRows(bars, req, window)
            <== b in bars && window.start <= FromMilli(b.openMs) < window.end
  {
    hide ValidBars;
    var served := Served(bars, window.start, FloorMilli(window.end));
    ServedMembers(bars, window.start, FloorMilli(window.end));
    if b in served {
      var i :| 0 <= i < |served| && served[i] == b;
      assert BarsToKlines(served, req)[i] == BarToKline(b, req);
    }
  }

  lemma RowsOfBars(bars: seq<Bar>, req: KlineRequest, window: Window, k: Kline)
    requires ValidBars(bars) && k in ServedRows(bars, req, window)
    ensures OpensBar(bars, k.openTime) && window.start <= k.openTime < window.end && RowOfRequest(k, req)
  {
    hide ValidBars;
    var served := Served(bars, window.start, FloorMilli(window.end));
    ServedMembers(bars, window.start, FloorMilli(window.end));
    var i :| 0 <= i < |served| && BarsToKlines(served, req)[i] == k;
    assert served[i] in served;
  }

  // A bar of a filled window is stored where the verifier looks for it.
  lemma {:induction false} BarIsStored(before: map<int, Database>, after: map<int, Database>, bars: seq<Bar>,
                                       req: KlineRequest, window: Window, b: Bar)
    requires ValidBars(bars) && IsNormalized(req) && Alphanumeric(req.symbol)
    requires FromMilli(FloorMilli(window.end)) == window.end
    requires YearFilled(before, after, window, ServedRows(bars, req, window)) && TimesAgree(after[window.Year()])
    requires b in bars && window.start <= FromMilli(b.openMs) < window.end
    ensures Queryable(after, req, window) && FromMilli(b.openMs) in StoredTimes(after, req, window)
  {
    hide ValidBars, IsNormalized, Alphanumeric, ServedRows, TableOf, QueryTable, FloorMilli, FromMilli, YearOf;
    hide NormalizeSymbolForWrite;
    ServedRowsOfBars(bars, req, window, b);
    var k := BarToKline(b, req);
    TableNamesAgree(req, k);
    var db := after[window.Year()];
    assert KeyOf(k) in db.rows;
    assert KeyOf(k) in StoredKeys(db, req, window);
  }

  lemma {:induction false} FilledWindowReady(before: map<int, Database>, after: map<int, Database>, bars: seq<Bar>,
                                             req: KlineRequest, window: Window, phase: Time, step: int)
    requires ValidBars(bars) && IsNormalized(req) && Alphanumeric(req.symbol)
    requires InOneYear(window) && FromMilli(FloorMilli(window.end)) == window.end
    requires IntervalDuration(req.interval) == Success(step) && step > 0
    requires YearFilled(before, after, window, ServedRows(bars, req, window)) && TimesAgree(after[window.Year()])
    requires HoldsLattice(bars, window, phase, step)
    requires HasBar(bars, window)
    ensures WindowReady(after, req, window)
  {
    hide ValidBars, IsNormalized, Alphanumeric, ServedRows, QueryTable, FloorMilli, InOneYear, IntervalDuration;
    hide TimesAgree;
    hide YearFilled, WindowPoints, ExpectedBarCount;
    var some :| some in bars && window.start <= FromMilli(some.openMs) < window.end;
    BarIsStored(before, after, bars, req, window, some);
    var points, stored := WindowPoints(window, phase, step), StoredTimes(after, req, window);
    forall t | t in points ensures t in stored {
      WindowPointsMembers(window, phase, step, t);
      assert OpensBar(bars, t);
      var b :| b in bars && FromMilli(b.openMs) == t;
      BarIsStored(before, after, bars, req, window, b);
    }
    NonEmpty(window);
    WindowPointsCount(window, phase, step);
    Missing(stored, points);
    ExpectedInOneYear(window, req.interval, step);
    OneRowPerTime(after[window.Year()], StoredKeys(after[window.Year()], req, window), QueryTable(req), req.symbol);
  }

  lemma {:induction false} ReadyWindowHasBar(before: map<int, Database>, after: map<int, Database>, bars: seq<Bar>,
                                             req: KlineRequest, window: Window)
    requires ValidBars(bars)
    requires YearFilled(before, after, window, ServedRows(bars, req, window))
    requires window.Year() in before ==> Extends(before[window.Year()], after[window.Year()])
    requires OldRowsAreBars(before, bars, req, window)
    requires WindowReady(after, req, window)
    ensures HasBar(bars, window)
  {
    hide ValidBars, ServedRows, QueryTable, ExpectedBarCount, YearOf, TableOf, KeyOf, FromMilli;
    var y := window.Year();
    var key :| key in StoredKeys(after[y], req, window);
    var k := after[y].rows[key];
    if y in before && key in before[y].rows {
      assert key in StoredKeys(before[y], req, window);
    } else {
      RowsOfBars(bars, req, window, k);
    }
    assert OpensBar(bars, k.openTime);
    var b :| b in bars && FromMilli(b.openMs) == k.openTime;
  }

  lemma TimesStillAgree(before: map<int, Database>, after: map<int, Database>, req: KlineRequest, y: int)
    requires OnlyAdds(before, after, req) && y in after
    requires y in before ==> TimesAgree(before[y])
    ensures TimesAgree(after[y])
  {
    hide TableOf, YearOf;
  }

  // Writer and verifier agree end to end. After a successful backfill from an exchange
  // that holds every lattice bar of the range, every year window with a bar is Ready,
  // over any number of years, and whatever rows were there before, with equal time and
  // open time as all writers store them. Without a bar a window can be Ready only
  // through rows stored before that are not bars.
  lemma {:induction false} BackfillIsReady(before: map<int, Database>, after: map<int, Database>, bars: seq<Bar>,
                                           req: KlineRequest, phase: Time, step: int)
    requires ValidBars(bars) && IsNormalized(req) && Alphanumeric(req.symbol)
    requires IntervalDuration(req.interval) == Success(step) && step > 0
    requires FromMilli(FloorMilli(req.endAt)) == req.endAt
    requires OnlyAdds(before, after, req)
    requires forall y :: y in before ==> TimesAgree(before[y])
    requires forall w :: w in SplitYears(req.startAt, req.endAt) ==>
               YearFilled(before, after, w, ServedRows(bars, req, w)) && HoldsLattice(bars, w, phase, step)
    ensures forall w :: w in SplitYears(req.startAt, req.endAt) && HasBar(bars, w) ==> WindowReady(after, req, w)
    ensures forall w :: w in SplitYears(req.startAt, req.endAt) && OldRowsAreBars(before, bars, req, w) ==>
              (WindowReady(after, req, w) <==> HasBar(bars, w))
  {
    hide ValidBars, IsNormalized, Alphanumeric, ServedRows, FloorMilli, InOneYear, IntervalDuration, TimesAgree;
    hide OldRowsAreBars;
    hide HoldsLattice, HasBar, WindowReady, Tiles, SplitYears, Extends, FromMilli;
    var windows := SplitYears(req.startAt, req.endAt);
    YearWindowsTile(req.startAt, req.endAt);
    forall i | 0 <= i < |windows|
      ensures HasBar(bars, windows[i]) ==> WindowReady(after, req, windows[i])
      ensures OldRowsAreBars(before, bars, req, windows[i]) && WindowReady(after, req, windows[i]) ==>
                HasBar(bars, windows[i])
    {
      var w := windows[i];
      assert w in windows;
      WindowFacts(windows, req.startAt, req.endAt, i);
      WindowEndOnAMilli(windows, req.startAt, req.endAt, i);
      TimesStillAgree(before, after, req, w.Year());
      if HasBar(bars, w) {
        FilledWindowReady(before, after, bars, req, w, phase, step);
      }
      if OldRowsAreBars(before, bars, req, w) && WindowReady(after, req, w) {
        ReadyWindowHasBar(before, after, bars, req, w);
      }
    }
  }

  // ----- A symbol with punctuation -----

  // When the symbol is not alphanumeric a backfill adds no row the verifier counts.
  lemma {:induction false} PunctuationAddsNothing(before: map<int, Database>, after: map<int, Database>,
                                                  req: KlineRequest, window: Window)
    requires IsNormalized(req) && !Alphanumeric(req.symbol)
    requires OnlyAdds(before, after, req) && window.Year() in after
    ensures forall key :: key in StoredKeys(after[window.Year()], req, window) ==>
              window.Year() in before && key in StoredKeys(before[window.Year()], req, window)
    ensures window.Year() !in before ==> !WindowReady(after, req, window)
  {
    hide IsNormalized, Alphanumeric, KeyOf, TableOf, QueryTable, YearOf, ExpectedBarCount;
    var y := window.Year();
    forall key | key in StoredKeys(after[y], req, window) ensures y in before && key in before[y].rows {
      if !(y in before && key in before[y].rows) {
        var k := after[y].rows[key];
        assert KeyOf(k) == key && RowOfRequest(k, req);
        TableNamesAgree(req, k);
        KeyNamesTable(k);
        assert false;
      }
    }
  }

  lemma KeyNamesTable(k: Kline)
    ensures KeyOf(k).table == TableOf(k)
  {
  }

  const DASHED := KlineRequest("binance", "spot", "BTC-USDT", "1m", 0, 60 * NANOS_PER_SECOND)

  // One minute of BTC-USDT, backfilled into an empty cluster from an exchange that
  // holds its only lattice bar: everything is stored, and the window is not Ready.
  lemma {:induction false} DashedSymbolIsNotReady(bars: seq<Bar>, window: Window, after: map<int, Database>)
    requires bars == [Bar(0, 59_999, "")] && window == Window(DASHED.startAt, DASHED.endAt)
    requires after == map[window.Year() := InsertRows(Database({}, map[]), ServedRows(bars, DASHED, window))]
    ensures NormalizeKlineRequest(DASHED) == DASHED && ValidKlineRequest(DASHED)
    ensures ValidBars(bars) && HasBar(bars, window) && HoldsLattice(bars, window, 0, 60 * NANOS_PER_SECOND)
    ensures OnlyAdds(map[], after, DASHED) && YearFilled(map[], after, window, ServedRows(bars, DASHED, window))
    ensures !WindowReady(after, DASHED, window)
  {
    DashedRequest();
    OneBarHeld(bars, window);
    DashedFilled(bars, window, after);
    PunctuationAddsNothing(map[], after, DASHED, window);
  }

  lemma DashedRequest()
    ensures NormalizeKlineRequest(DASHED) == DASHED && ValidKlineRequest(DASHED)
    ensures IsNormalized(DASHED) && !Alphanumeric(DASHED.symbol)
  {
    assert ToLower("binance") == "binance" && ToLower("spot") == "spot" && ToUpper("BTC-USDT") == "BTC-USDT";
    assert Trimmed("binance") && Trimmed("spot") && Trimmed("BTC-USDT") && Trimmed("1m");
    assert "1m"[..1] == "1" && Digits("1") == Some(1);
    assert !IsAlnum(DASHED.symbol[3]);
  }

  lemma {:induction false} OneBarHeld(bars: seq<Bar>, window: Window)
    requires bars == [Bar(0, 59_999, "")] && window == Window(DASHED.startAt, DASHED.endAt)
    ensures ValidBars(bars) && HasBar(bars, window) && HoldsLattice(bars, window, 0, 60 * NANOS_PER_SECOND)
  {
    var step := 60 * NANOS_PER_SECOND;
    assert bars[0] in bars;
    forall t | t in WindowPoints(window, 0, step) ensures OpensBar(bars, t) {
      WindowPointsMembers(window, 0, step, t);
      var k :| t == LatticePoint(0, step, k);
      assert k == 0;
    }
  }

  lemma FirstMinuteInOneYear(window: Window)
    requires window == Window(DASHED.startAt, DASHED.endAt)
    ensures InOneYear(window)
  {
    NextYear(1970);
    YearUnique(0, 1970);
  }

  lemma {:induction false} ServedRowsOfWindow(bars: seq<Bar>, req: KlineRequest, window: Window)
    requires ValidBars(bars)
    ensures RowsOfWindow(ServedRows(bars, req, window), req, window)
  {
    hide ValidBars, YearOf;
    forall k | k in ServedRows(bars, req, window) ensures RowOfRequest(k, req) && InWindow(k, window) {
      RowsOfBars(bars, req, window, k);
    }
  }

  lemma {:induction false} DashedFilled(bars: seq<Bar>, window: Window, after: map<int, Database>)
    requires bars == [Bar(0, 59_999, "")] && window == Window(DASHED.startAt, DASHED.endAt)
    requires after == map[window.Year() := InsertRows(Database({}, map[]), ServedRows(bars, DASHED, window))]
    ensures OnlyAdds(map[], after, DASHED) && YearFilled(map[], after, window, ServedRows(bars, DASHED, window))
  {
    hide InsertRows, ServedRows, YearOf, Jan1, KeyOf, TableOf, RowsOfWindow, InOneYear;
    var y := window.Year();
    var mid := map[y := Database({}, map[])];
    var rows := ServedRows(bars, DASHED, window);
    OneBarHeld(bars, window);
    FirstMinuteInOneYear(window);
    ServedRowsOfWindow(bars, DASHED, window);
    hide ValidBars;
    assert OnlyAdds(map[], mid, DASHED);
    InsertRowsExtends(mid[y], rows);
    assert after == mid[y := after[y]];
    WindowOnlyAdds(map[], mid, after, DASHED, window, rows);
    WindowFilled(map[], mid, after, window, rows);
  }

  lemma WindowEndOnAMilli(windows: seq<Window>, start: Time, end: Time, i: nat)
    requires Tiles(windows, start, end) && i < |windows|
    requires FromMilli(FloorMilli(end)) == end
    ensures FromMilli(FloorMilli(windows[i].end)) == windows[i].end
  {
    hide FromMilli, FloorMilli, YearOf, Jan1;
    if i + 1 < |windows| {
      assert windows[i].end == windows[i + 1].start;
      InnerStartsAreNewYears(windows, start, end, i + 1);
      Jan1IsOnAMilli(windows[i + 1].Year());
    }
  }
}
