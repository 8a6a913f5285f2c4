/** The futures kline scraper's forward loop: polling with a cursor, storing closed
    bars and publishing fresh ones. */
module FuturesForward {
  import opened Wrappers
  import opened Exchange
  import opened CoverageSegments
  import opened ClosedBars

  const MAX_PUBLISH_AGE_MS := 60_000
  const PAGE_LIMIT := 100

  // What the outside world does during one tick: the clock when fetching, the answer
  // if there is one, the clock after it, whether the insert succeeds (a failed one
  // may still have written some rows), and whether publishing does.
  datatype Tick = Tick(
    fetchMs: int,
    answer: Option<seq<Bar>>,
    nowMs: int,
    insertOk: bool,
    written: set<Bar>,
    publishOk: bool)

  datatype Event =
    | Insert(rows: seq<Bar>, ok: bool)
    | Publish(bar: Bar, nowMs: int, ok: bool)
    | NotifyStored(bar: Bar)

  // The loop's cursor, the rows in the table, and the calls made, in order.
  datatype State = State(cursor: int, stored: set<Bar>, log: seq<Event>)

  // ----- Specification of one tick and of a run -----

  function Fetched(cursor: int, tick: Tick): Option<seq<Bar>> {
    if cursor > 0 && cursor + 1 >= tick.fetchMs then Some([]) else tick.answer
  }

  // The closed bars a tick tries to store.
  function Batch(s: State, tick: Tick): seq<Bar> {
    match Fetched(s.cursor, tick)
    case None => []
    case Some(page) => ClosedOf(page, tick.nowMs)
  }

  function SelectForwardPublish(closed: seq<Bar>, seeded: bool, nowMs: int): seq<Bar> {
    if !seeded || |closed| != 1 || nowMs - closed[0].closeMs > MAX_PUBLISH_AGE_MS then [] else closed
  }

  function Published(closed: seq<Bar>, publish: seq<Bar>, tick: Tick): seq<Event>
    requires closed != []
  {
    (if publish == [] then [] else [Publish(publish[0], tick.nowMs, tick.publishOk)]) + [NotifyStored(Last(closed))]
  }

  function Next(s: State, tick: Tick, publisher: bool): State {
    var closed := Batch(s, tick);
    if closed == [] then s
    else if !tick.insertOk then
      State(s.cursor, s.stored + (RowSet(closed) * tick.written), s.log + [Insert(closed, false)])
    else
      var publish := if publisher then SelectForwardPublish(closed, s.cursor > 0, tick.nowMs) else [];
      State(Last(closed).closeMs, s.stored + RowSet(closed),
            s.log + [Insert(closed, true)] + Published(closed, publish, tick))
  }

  function Run(s: State, ticks: seq<Tick>, publisher: bool): State {
    if ticks == [] then s else Next(Run(s, Front(ticks), publisher), Last(ticks), publisher)
  }

  // ----- What one tick does, said of its page -----

  // The tick fetches a page: it has no cursor yet, or the clock is past the millisecond
  // after it; and the exchange answers.
  predicate Fetches(s: State, tick: Tick) {
    tick.answer.Some? && (s.cursor <= 0 || s.cursor + 1 < tick.fetchMs)
  }

  // The bar is published: there is a publisher, a cursor, and a page whose only closed
  // bar it is; it was inserted; and it closed at most a minute ago.
  predicate Publishes(s: State, tick: Tick, publisher: bool, b: Bar) {
    && publisher && s.cursor > 0 && Fetches(s, tick) && tick.insertOk
    && OnlyClosed(tick.answer.value, b, tick.nowMs) && tick.nowMs - b.closeMs <= 60_000
  }

  predicate HasPublish(log: seq<Event>, b: Bar) {
    exists e :: e in log && e.Publish? && e.bar == b
  }

  // A tick publishes a bar, right after inserting it and before its observer is told,
  // exactly under those conditions.
  lemma {:induction false} TickPublishesExactly(s: State, tick: Tick, publisher: bool, b: Bar)
    ensures var t := Next(s, tick, publisher);
            && s.log <= t.log
            && (HasPublish(t.log[|s.log|..], b) <==> Publishes(s, tick, publisher, b))
            && (Publishes(s, tick, publisher, b) ==>
                  t == State(b.closeMs, s.stored + {b},
                    s.log + [Insert([b], true), Publish(b, tick.nowMs, tick.publishOk), NotifyStored(b)]))
  {
    var t := Next(s, tick, publisher);
    if tick.answer.Some? {
      ClosedOne(tick.answer.value, b, tick.nowMs);
    }
    hide ClosedOf, OnlyClosed;
    var closed, more := Batch(s, tick), t.log[|s.log|..];
    if Publishes(s, tick, publisher, b) {
      assert more[1] == Publish(b, tick.nowMs, tick.publishOk);
      assert RowSet(closed) == {b};
    }
    assert forall e :: e in more && e.Publish? ==> closed == [e.bar];
  }

  // A tick that fetches nothing, or nothing closed, changes nothing. Otherwise it inserts
  // the closed bars; and if that works the cursor goes to the close of the last of them,
  // of which the observer is told, and which of them is published is said above.
  lemma {:induction false} TickStores(s: State, tick: Tick, publisher: bool)
    ensures var t := Next(s, tick, publisher);
            if !Fetches(s, tick) || forall i :: 0 <= i < |tick.answer.value| ==>
                 tick.answer.value[i].closeMs > tick.nowMs then
              t == s
            else
              && |t.log| > |s.log| && t.log[|s.log|].Insert? && t.log[|s.log|].ok == tick.insertOk
              && (forall b :: b in t.log[|s.log|].rows <==> b in tick.answer.value && b.closeMs <= tick.nowMs)
              && (forall b :: b in t.stored && b !in s.stored ==> b in t.log[|s.log|].rows)
              && (!tick.insertOk ==> t.cursor == s.cursor && |t.log| == |s.log| + 1 && s.stored <= t.stored)
              && (tick.insertOk ==>
                    && Last(t.log).NotifyStored? && LastClosed(tick.answer.value, Last(t.log).bar, tick.nowMs)
                    && t.cursor == Last(t.log).bar.closeMs
                    && t.stored == s.stored + (set b | b in tick.answer.value && b.closeMs <= tick.nowMs))
  {
    if tick.answer.Some? {
      ClosedMembers(tick.answer.value, tick.nowMs);
      NoneClosed(tick.answer.value, tick.nowMs);
      if ClosedOf(tick.answer.value, tick.nowMs) != [] {
        ClosedLast(tick.answer.value, tick.nowMs);
      }
    }
    hide ClosedOf, OnlyClosed, LastClosed;
    assert RowSet([]) == {};
  }

  // Over a whole run the bars published are exactly those some tick publishes.
  lemma {:induction false} RunPublishesExactly(s: State, ticks: seq<Tick>, publisher: bool, b: Bar)
    requires s.log == []
    ensures HasPublish(Run(s, ticks, publisher).log, b) <==> SomeTickPublishes(s, ticks, publisher, b)
  {
    if ticks != [] {
      hide Next, Publishes, HasPublish, SomeTickPublishes;
      var n := |ticks| - 1;
      var before, t := Run(s, ticks[..n], publisher), Run(s, ticks, publisher);
      RunPublishesExactly(s, ticks[..n], publisher, b);
      TickPublishesExactly(before, ticks[n], publisher, b);
      assert t.log == before.log + t.log[|before.log|..];
      HasPublishJoin(before.log, t.log[|before.log|..], b);
      SomeTickSnoc(s, ticks, publisher, b);
    }
  }

  lemma HasPublishJoin(a: seq<Event>, c: seq<Event>, b: Bar)
    ensures HasPublish(a + c, b) <==> HasPublish(a, b) || HasPublish(c, b)
  {
  }

  lemma {:induction false} SomeTickSnoc(s: State, ticks: seq<Tick>, publisher: bool, b: Bar)
    requires ticks != []
    ensures var n := |ticks| - 1;
            SomeTickPublishes(s, ticks, publisher, b) <==>
            SomeTickPublishes(s, ticks[..n], publisher, b)
            || Publishes(Run(s, ticks[..n], publisher), ticks[n], publisher, b)
  {
    hide Publishes, Run;
    var n := |ticks| - 1;
    assert forall k :: 0 <= k < n ==> ticks[..n][..k] == ticks[..k] && ticks[..n][k] == ticks[k];
  }

  predicate SomeTickPublishes(s: State, ticks: seq<Tick>, publisher: bool, b: Bar) {
    exists k :: 0 <= k < |ticks| && Publishes(Run(s, ticks[..k], publisher), ticks[k], publisher, b)
  }

  // ----- The scraper -----

  class Scraper {
    var stored: set<Bar>
    var log: seq<Event>
    const publisher: bool

    constructor (publisher: bool, table: set<Bar>)
      ensures stored == table && log == [] && this.publisher == publisher
    {
      stored, log, this.publisher := table, [], publisher;
    }

    method StoreKlinesWithPublish(klines: seq<Bar>, publish: seq<Bar>, tick: Tick) returns (ok: bool)
      modifies this
      ensures klines == [] ==> ok && stored == old(stored) && log == old(log)
      ensures klines != [] ==> ok == tick.insertOk
      ensures klines != [] && !ok ==>
                stored == old(stored) + (RowSet(klines) * tick.written) && log == old(log) + [Insert(klines, false)]
      ensures klines != [] && ok ==> stored == old(stored) + RowSet(klines)
      ensures klines != [] && ok ==>
        log == old(log) + [Insert(klines, true)] + Published(klines, if publisher then publish else [], tick)
    {
      if |klines| == 0 {
        return true;
      }
      log := log + [Insert(klines, tick.insertOk)];
      if !tick.insertOk {
        stored := stored + (RowSet(klines) * tick.written);
        return false;
      }
      stored := stored + RowSet(klines);
      if !publisher || |publish| == 0 {
        log := log + [NotifyStored(klines[|klines| - 1])];
        return true;
      }
      log := log + [Publish(publish[0], tick.nowMs, tick.publishOk)];
      log := log + [NotifyStored(klines[|klines| - 1])];
      return true;
    }

    method Forward(ticks: seq<Tick>) returns (lastCloseTime: int)
      modifies this
      ensures State(lastCloseTime, stored, log) == Run(State(0, old(stored), old(log)), ticks, publisher)
    {
      lastCloseTime := 0;
      ghost var start := State(0, stored, log);
      for i := 0 to |ticks|
        invariant State(lastCloseTime, stored, log) == Run(start, ticks[..i], publisher)
      {
        assert Front(ticks[..i + 1]) == ticks[..i];
        var tick := ticks[i];
        var cursorSeeded := lastCloseTime > 0;
        if lastCloseTime > 0 && lastCloseTime + 1 >= tick.fetchMs {
          continue;
        }
        if tick.answer.None? {
          continue;
        }
        var closed := FilterClosedKlines(tick.answer.value, tick.nowMs);
        if |closed| == 0 {
          continue;
        }
        var publish := SelectForwardPublish(closed, cursorSeeded, tick.nowMs);
        var ok := StoreKlinesWithPublish(closed, publish, tick);
        if !ok {
          continue;
        }
        lastCloseTime := closed[|closed| - 1].closeMs;
      }
      assert ticks[..|ticks|] == ticks;
    }
  }

  // ----- Against a faithful exchange -----

  // Without a cursor the exchange answers with its latest bars; with one, with the
  // oldest bars after it.
  ghost predicate FaithfulTick(bars: seq<Bar>, cursor: int, tick: Tick)
    requires ValidBars(bars)
  {
    match Fetched(cursor, tick)
    case None => true
    case Some(page) =>
      && |page| <= PAGE_LIMIT
      && if cursor > 0 then page == [] || FaithfulPage(bars, cursor + 1, tick.fetchMs, page)
         else exists i :: IsSlice(bars, i, page)
  }

  ghost predicate FaithfulRun(bars: seq<Bar>, s: State, ticks: seq<Tick>, publisher: bool)
    requires ValidBars(bars)
  {
    forall i :: 0 <= i < |ticks| ==> FaithfulTick(bars, Run(s, ticks[..i], publisher).cursor, ticks[i])
  }

  lemma {:induction false} FaithfulPrefix(bars: seq<Bar>, s: State, ticks: seq<Tick>, n: nat, publisher: bool)
    requires ValidBars(bars) && n <= |ticks| && FaithfulRun(bars, s, ticks, publisher)
    ensures FaithfulRun(bars, s, ticks[..n], publisher)
  {
    hide FaithfulTick, ValidBars;
    forall i | 0 <= i < n ensures FaithfulTick(bars, Run(s, ticks[..n][..i], publisher).cursor, ticks[..n][i]) {
      assert ticks[..n][..i] == ticks[..i];
    }
  }

  // The cursor stands at the close of a bar.
  predicate AtBar(bars: seq<Bar>, cursor: int)
    requires ValidBars(bars)
  {
    var n := OpenedBefore(bars, cursor + 1);
    n > 0 && bars[n - 1].closeMs == cursor
  }

  lemma AtClose(bars: seq<Bar>, n: nat)
    requires ValidBars(bars) && 0 < n <= |bars|
    ensures OpenedBefore(bars, bars[n - 1].closeMs + 1) == n
    ensures AtBar(bars, bars[n - 1].closeMs) && bars[n - 1].closeMs > 0
  {
    OpenedBeforeIs(bars, bars[n - 1].closeMs + 1, n);
  }

  // A page of a faithful exchange: bars in a row, and with a cursor the very next ones.
  lemma {:induction false} PageIsSlice(bars: seq<Bar>, cursor: int, tick: Tick) returns (i: nat)
    requires ValidBars(bars) && FaithfulTick(bars, cursor, tick)
    requires Fetched(cursor, tick).Some? && Fetched(cursor, tick).value != []
    ensures var page := Fetched(cursor, tick).value;
            IsSlice(bars, i, page) && (cursor > 0 ==> i == OpenedBefore(bars, cursor + 1))
  {
    hide ValidBars, OpenedBefore;
    var page := Fetched(cursor, tick).value;
    if cursor > 0 {
      i := OpenedBefore(bars, cursor + 1);
      PageAdvances(bars, cursor + 1, tick.fetchMs, page);
    } else {
      i :| IsSlice(bars, i, page);
    }
  }

  // What a tick tries to store: bars in a row, the very next ones after a cursor.
  lemma {:induction false} BatchIsSlice(bars: seq<Bar>, s: State, tick: Tick) returns (i: nat, j: nat)
    requires ValidBars(bars) && FaithfulTick(bars, s.cursor, tick)
    requires s.cursor <= 0 || AtBar(bars, s.cursor)
    requires Batch(s, tick) != []
    ensures i < j <= |bars| && Batch(s, tick) == bars[i..j]
    ensures s.cursor > 0 ==> i == OpenedBefore(bars, s.cursor + 1)
    ensures var last := Last(Batch(s, tick)).closeMs;
            && s.cursor < last <= tick.nowMs && 0 < last && AtBar(bars, last) && OpenedBefore(bars, last + 1) == j
  {
    hide ValidBars, OpenedBefore, FaithfulTick, AtBar, IsSlice;
    var page := Fetched(s.cursor, tick).value;
    assert page != [];
    i := PageIsSlice(bars, s.cursor, tick);
    j := ClosedSlice(bars, i, page, tick.nowMs);
    hide ClosedOf;
    assert Last(bars[i..j]) == bars[j - 1];
    AtClose(bars, j);
    if s.cursor > 0 {
      CursorBefore(bars, s.cursor, i, j);
    }
  }

  lemma CursorBefore(bars: seq<Bar>, cursor: int, from: nat, j: nat)
    requires ValidBars(bars) && AtBar(bars, cursor) && from == OpenedBefore(bars, cursor + 1) && from < j <= |bars|
    ensures cursor < bars[j - 1].closeMs
  {
    assert bars[from - 1].closeMs < bars[j - 1].openMs;
  }

  // ----- The invariant of a run from an empty cursor -----

  predicate PublishOk(log: seq<Event>, p: nat)
    requires p < |log|
  {
    log[p].Publish? ==>
      && p > 0 && log[p - 1] == Insert([log[p].bar], true)
      && 0 <= log[p].nowMs - log[p].bar.closeMs <= MAX_PUBLISH_AGE_MS
  }

  predicate LogOk(s: State) {
    && (forall p :: 0 <= p < |s.log| ==> PublishOk(s.log, p))
    && (forall p, q :: 0 <= p < q < |s.log| && s.log[p].Publish? && s.log[q].Publish? ==>
          s.log[p].bar.closeMs < s.log[q].bar.closeMs)
    && (forall p :: 0 <= p < |s.log| && s.log[p].Publish? ==> s.log[p].bar.closeMs <= s.cursor && s.cursor > 0)
    && (forall p :: 0 <= p < |s.log| && s.log[p].Insert? && s.log[p].ok ==> RowSet(s.log[p].rows) <= s.stored)
  }

  lemma {:induction false} NextKeepsLog(bars: seq<Bar>, s: State, tick: Tick, publisher: bool)
    requires ValidBars(bars) && FaithfulTick(bars, s.cursor, tick)
    requires s.cursor == 0 || (s.cursor > 0 && AtBar(bars, s.cursor))
    requires LogOk(s)
    ensures var t := Next(s, tick, publisher);
            && LogOk(t) && s.cursor <= t.cursor && s.stored <= t.stored && s.log <= t.log
            && (t.cursor == 0 || (t.cursor > 0 && AtBar(bars, t.cursor)))
            && (forall p :: |s.log| <= p < |t.log| && t.log[p].Publish? ==>
                  s.cursor > 0 && s.cursor < t.log[p].bar.closeMs)
  {
    var closed := Batch(s, tick);
    if closed != [] && tick.insertOk {
      hide FaithfulTick, Batch, ValidBars, AtBar, OpenedBefore, LogOk;
      var i, j := BatchIsSlice(bars, s, tick);
      LogGrows(s, tick, publisher);
    } else {
      hide FaithfulTick, ValidBars, AtBar, Batch, LogOk;
      FailedInsertKeepsLog(s, closed, RowSet(closed) * tick.written);
    }
  }

  lemma {:induction false} FailedInsertKeepsLog(s: State, closed: seq<Bar>, written: set<Bar>)
    requires LogOk(s)
    ensures LogOk(State(s.cursor, s.stored + written, s.log + [Insert(closed, false)]))
  {
    hide RowSet;
    var log := s.log + [Insert(closed, false)];
    assert forall p :: 0 <= p < |s.log| ==> log[p] == s.log[p];
    forall p | 0 <= p < |log| ensures PublishOk(log, p) {
      if p < |s.log| {
        assert PublishOk(s.log, p);
      }
    }
  }

  lemma {:induction false} LogGrows(s: State, tick: Tick, publisher: bool)
    requires LogOk(s) && Batch(s, tick) != [] && tick.insertOk
    requires s.cursor >= 0 && Last(Batch(s, tick)).closeMs <= tick.nowMs && Last(Batch(s, tick)).closeMs > s.cursor
    ensures var t := Next(s, tick, publisher);
            LogOk(t) && s.log <= t.log
            && (forall p :: |s.log| <= p < |t.log| && t.log[p].Publish? ==>
                  s.cursor > 0 && s.cursor < t.log[p].bar.closeMs)
  {
    var t, closed := Next(s, tick, publisher), Batch(s, tick);
    hide Batch, RowSet;
    assert forall p :: 0 <= p < |s.log| ==> t.log[p] == s.log[p];
    assert forall p :: |s.log| <= p < |t.log| && t.log[p].Publish? ==>
        p == |s.log| + 1 && closed == [t.log[p].bar] && t.log[p].nowMs == tick.nowMs;
    forall p | 0 <= p < |t.log| ensures PublishOk(t.log, p) {
      if p < |s.log| {
        assert PublishOk(s.log, p);
      }
    }
  }

  lemma {:induction false} RunKeepsLog(bars: seq<Bar>, s: State, ticks: seq<Tick>, publisher: bool)
    requires ValidBars(bars) && FaithfulRun(bars, s, ticks, publisher)
    requires s.cursor == 0 && s.log == []
    ensures var t := Run(s, ticks, publisher);
            LogOk(t) && (t.cursor == 0 || (t.cursor > 0 && AtBar(bars, t.cursor)))
  {
    hide ValidBars, FaithfulTick, LogOk, Next, AtBar;
    if ticks == [] {
      EmptyLog(s);
    } else {
      FaithfulPrefix(bars, s, ticks, |ticks| - 1, publisher);
      RunKeepsLog(bars, s, Front(ticks), publisher);
      assert FaithfulTick(bars, Run(s, ticks[..|ticks| - 1], publisher).cursor, ticks[|ticks| - 1]);
      NextKeepsLog(bars, Run(s, Front(ticks), publisher), Last(ticks), publisher);
    }
  }

  lemma EmptyLog(s: State)
    requires s.log == []
    ensures LogOk(s)
  {
  }

  // ----- Main results -----

  // Published bars are stored by the call before, closed and at most a minute old,
  // and each closes later than any published before it.
  lemma {:induction false} PublishesAreFresh(bars: seq<Bar>, table: set<Bar>, ticks: seq<Tick>, publisher: bool)
    requires ValidBars(bars) && FaithfulRun(bars, State(0, table, []), ticks, publisher)
    ensures var t := Run(State(0, table, []), ticks, publisher);
            && (forall p :: 0 <= p < |t.log| && t.log[p].Publish? ==>
                  && p > 0 && t.log[p - 1] == Insert([t.log[p].bar], true) && t.log[p].bar in t.stored
                  && 0 <= t.log[p].nowMs - t.log[p].bar.closeMs <= MAX_PUBLISH_AGE_MS)
            && (forall p, q :: 0 <= p < q < |t.log| && t.log[p].Publish? && t.log[q].Publish? ==>
                  t.log[p].bar.closeMs < t.log[q].bar.closeMs)
  {
    RunKeepsLog(bars, State(0, table, []), ticks, publisher);
    var t := Run(State(0, table, []), ticks, publisher);
    hide Run, ValidBars, FaithfulRun;
    forall p | 0 <= p < |t.log| && t.log[p].Publish?
      ensures p > 0 && t.log[p - 1] == Insert([t.log[p].bar], true) && t.log[p].bar in t.stored
      ensures 0 <= t.log[p].nowMs - t.log[p].bar.closeMs <= MAX_PUBLISH_AGE_MS
    {
      assert PublishOk(t.log, p);
      assert t.log[p].bar in RowSet(t.log[p - 1].rows);
    }
  }

  // Tick k gives the loop its first cursor.
  predicate Seeds(s: State, ticks: seq<Tick>, publisher: bool, k: nat)
    requires k < |ticks|
  {
    Run(s, ticks[..k], publisher).cursor == 0 && Run(s, ticks[..k + 1], publisher).cursor > 0
  }

  lemma {:induction false} SeedBatch(bars: seq<Bar>, s: State, tick: Tick, publisher: bool) returns (i: nat, j: nat)
    requires ValidBars(bars) && FaithfulTick(bars, s.cursor, tick)
    requires s.cursor == 0 && Next(s, tick, publisher).cursor > 0
    ensures i < j <= |bars| && Batch(s, tick) == bars[i..j]
    ensures Next(s, tick, publisher).cursor == bars[j - 1].closeMs
    ensures OpenedBefore(bars, bars[j - 1].closeMs + 1) == j && AtBar(bars, bars[j - 1].closeMs)
    ensures RowSet(bars[i..j]) <= Next(s, tick, publisher).stored
  {
    hide FaithfulTick, Batch, ValidBars, AtBar, OpenedBefore;
    i, j := BatchIsSlice(bars, s, tick);
  }

  // All bars from index i up to the cursor are stored.
  predicate FilledFrom(bars: seq<Bar>, i: nat, t: State)
    requires ValidBars(bars)
  {
    forall n :: i <= n < OpenedBefore(bars, t.cursor + 1) ==> bars[n] in t.stored
  }

  lemma {:induction false} NextFills(bars: seq<Bar>, s: State, tick: Tick, publisher: bool, i: nat)
    requires ValidBars(bars) && FaithfulTick(bars, s.cursor, tick)
    requires s.cursor > 0 && AtBar(bars, s.cursor) && FilledFrom(bars, i, s)
    ensures var t := Next(s, tick, publisher);
            FilledFrom(bars, i, t) && AtBar(bars, t.cursor) && t.cursor >= s.cursor && s.stored <= t.stored
  {
    var closed, t := Batch(s, tick), Next(s, tick, publisher);
    hide FaithfulTick, Batch, ValidBars, AtBar, OpenedBefore;
    if closed != [] && tick.insertOk {
      var from, j := BatchIsSlice(bars, s, tick);
      SliceStored(bars, from, j, t);
    }
  }

  lemma SliceStored(bars: seq<Bar>, i: nat, j: nat, t: State)
    requires i <= j <= |bars| && RowSet(bars[i..j]) <= t.stored
    ensures forall n :: i <= n < j ==> bars[n] in t.stored
  {
    forall n | i <= n < j ensures bars[n] in t.stored {
      assert bars[i..j][n - i] == bars[n];
      assert bars[n] in RowSet(bars[i..j]);
    }
  }

  // Nothing is lost: once tick k has given the loop its first cursor, every bar of
  // the exchange from the first one of that tick's batch up to the cursor is stored,
  // whatever fetches, inserts and publishes fail and whatever the clocks show; and
  // nothing of that first batch, or older, is ever published.
  lemma {:induction false} ForwardLosesNothing(bars: seq<Bar>, table: set<Bar>, ticks: seq<Tick>, publisher: bool,
                                               k: nat)
    requires ValidBars(bars) && FaithfulRun(bars, State(0, table, []), ticks, publisher)
    requires k < |ticks| && Seeds(State(0, table, []), ticks, publisher, k)
    ensures var s, t := Run(State(0, table, []), ticks[..k], publisher), Run(State(0, table, []), ticks, publisher);
            var seed := Batch(s, ticks[k]);
            && seed != [] && t.cursor >= Last(seed).closeMs > 0
            && (forall b :: b in bars && seed[0].openMs <= b.openMs && b.closeMs <= t.cursor ==> b in t.stored)
            && PublishedAfter(t.log, Last(seed).closeMs)
  {
    hide PublishedAfter, ValidBars, FaithfulTick, AtBar, FilledFrom, Next, Batch, LogOk;
    var start := State(0, table, []);
    var s, t := Run(start, ticks[..k], publisher), Run(start, ticks, publisher);
    assert Front(ticks[..k + 1]) == ticks[..k];
    var i, j := SeedBatch(bars, s, ticks[k], publisher);
    SeedFilled(bars, i, j, Next(s, ticks[k], publisher));
    FaithfulPrefix(bars, start, ticks, k, publisher);
    RunKeepsLog(bars, start, ticks[..k], publisher);
    SeedPublishesNothing(s, ticks[k], publisher, bars[j - 1].closeMs);
    RunFills(bars, start, ticks, publisher, k + 1, i);
    InFilled(bars, i, t);
  }

  lemma SeedFilled(bars: seq<Bar>, i: nat, j: nat, t: State)
    requires ValidBars(bars) && i < j <= |bars|
    requires t.cursor == bars[j - 1].closeMs && OpenedBefore(bars, t.cursor + 1) == j && RowSet(bars[i..j]) <= t.stored
    ensures FilledFrom(bars, i, t)
  {
    SliceStored(bars, i, j, t);
  }

  lemma {:induction false} InFilled(bars: seq<Bar>, i: nat, t: State)
    requires ValidBars(bars) && i < |bars| && FilledFrom(bars, i, t)
    ensures forall b :: b in bars && bars[i].openMs <= b.openMs && b.closeMs <= t.cursor ==> b in t.stored
  {
    assert forall n :: 0 <= n < i ==> bars[n].openMs < bars[i].openMs;
    forall b | b in bars && bars[i].openMs <= b.openMs && b.closeMs <= t.cursor ensures b in t.stored {
      var n :| 0 <= n < |bars| && bars[n] == b;
    }
  }

  predicate PublishedAfter(log: seq<Event>, ms: int) {
    forall p :: 0 <= p < |log| && log[p].Publish? ==> log[p].bar.closeMs > ms
  }

  // Up to the tick that seeds the cursor nothing is published.
  lemma {:induction false} SeedPublishesNothing(s: State, tick: Tick, publisher: bool, ms: int)
    requires LogOk(s) && s.cursor == 0
    ensures PublishedAfter(Next(s, tick, publisher).log, ms)
  {
    hide Batch;
  }

  lemma {:induction false} StillPublishedAfter(s: State, t: State, ms: int)
    requires PublishedAfter(s.log, ms) && s.cursor >= ms && s.log <= t.log
    requires forall p :: |s.log| <= p < |t.log| && t.log[p].Publish? ==> s.cursor < t.log[p].bar.closeMs
    ensures PublishedAfter(t.log, ms)
  {
  }

  lemma {:induction false} RunFills(bars: seq<Bar>, start: State, ticks: seq<Tick>, publisher: bool, n: nat, i: nat)
    requires ValidBars(bars) && FaithfulRun(bars, start, ticks, publisher)
    requires start.cursor == 0 && start.log == []
    requires n <= |ticks| && Run(start, ticks[..n], publisher).cursor > 0
    requires AtBar(bars, Run(start, ticks[..n], publisher).cursor)
    requires FilledFrom(bars, i, Run(start, ticks[..n], publisher))
    requires PublishedAfter(Run(start, ticks[..n], publisher).log, Run(start, ticks[..n], publisher).cursor)
    ensures var s, t := Run(start, ticks[..n], publisher), Run(start, ticks, publisher);
            FilledFrom(bars, i, t) && AtBar(bars, t.cursor) && t.cursor >= s.cursor && PublishedAfter(t.log, s.cursor)
    decreases |ticks|
  {
    hide ValidBars, FaithfulTick, AtBar, FilledFrom, Next, PublishedAfter, LogOk;
    if n == |ticks| {
      assert ticks[..n] == ticks;
    } else {
      var m := |ticks| - 1;
      FaithfulPrefix(bars, start, ticks, m, publisher);
      assert ticks[..m][..n] == ticks[..n];
      RunFills(bars, start, ticks[..m], publisher, n, i);
      assert FaithfulTick(bars, Run(start, ticks[..m], publisher).cursor, ticks[m]);
      var s, t := Run(start, ticks[..m], publisher), Run(start, ticks, publisher);
      NextFills(bars, s, ticks[m], publisher, i);
      RunKeepsLog(bars, start, ticks[..m], publisher);
      NextKeepsLog(bars, s, ticks[m], publisher);
      StillPublishedAfter(s, t, Run(start, ticks[..n], publisher).cursor);
    }
  }
}
