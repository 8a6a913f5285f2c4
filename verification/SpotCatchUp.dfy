/** The spot kline scraper's forward cursor: catching up over REST, silently, and
    storing the closed bars that arrive live. */
module SpotCatchUp {
  import opened Wrappers
  import opened Calendar
  import opened Exchange
  import opened CoverageSegments
  import opened ClosedBars

  type Int64 = x: int | MIN_INT64 <= x <= MAX_INT64

  datatype Answer = FetchError | Page(bars: seq<Bar>)

  // Any server: the answer to the n-th call may depend on everything.
  type Server = (nat, int, int) -> Answer

  // How an insert or a publish ends; a failed insert may have written its first rows.
  datatype Outcome = Works | Fails(written: nat)

  // A server that always answers.
  ghost predicate Responsive(server: Server) {
    forall n, s, e :: server(n, s, e).Page?
  }

  ghost predicate Faithful(server: Server, bars: seq<Bar>)
    requires ValidBars(bars)
  {
    forall n, s, e :: server(n, s, e).FetchError? || FaithfulPage(bars, s, e, server(n, s, e).bars)
  }

  // ----- Bars stored between two instants -----

  // Every bar opened from one millisecond up to another is stored.
  predicate FilledBetween(bars: seq<Bar>, fromMs: int, endMs: int, stored: set<Bar>) {
    forall b :: b in bars && fromMs <= b.openMs < endMs ==> b in stored
  }

  // Every bar opened from a millisecond on and closed by the clock is stored.
  predicate CaughtUp(bars: seq<Bar>, fromMs: int, nowMs: int, stored: set<Bar>) {
    forall b :: b in bars && fromMs <= b.openMs && b.closeMs <= nowMs ==> b in stored
  }

  // Only bars of the exchange opened from a millisecond on were added.
  predicate OnlyAdds(bars: seq<Bar>, fromMs: int, before: set<Bar>, after: set<Bar>) {
    before <= after && forall b :: b in after && b !in before ==> b in bars && b.openMs >= fromMs
  }

  // The closed bars of a faithful page are the next bars of the exchange; storing
  // them fills up to the last one's close, and a bar left out is not closed.
  lemma {:induction false} ClosedBatch(bars: seq<Bar>, startMs: int, nowMs: int, page: seq<Bar>, closed: seq<Bar>)
    requires ValidBars(bars) && FaithfulPage(bars, startMs, nowMs, page) && closed == ClosedOf(page, nowMs)
    ensures closed != [] ==>
      && startMs < Last(closed).closeMs <= nowMs && Last(closed).closeMs < MAX_INT64
      && OnlyAdds(bars, startMs, {}, RowSet(closed))
      && forall b :: b in bars && startMs <= b.openMs <= Last(closed).closeMs ==> b in RowSet(closed)
    ensures closed == [] || |closed| < |page| ==>
      forall b :: b in bars && startMs <= b.openMs && b.closeMs <= nowMs ==> b in RowSet(closed)
  {
    hide FaithfulPage, RowSet, OnlyAdds;
    if page == [] {
      NothingListed(bars, startMs, nowMs);
    } else {
      PageAdvances(bars, startMs, nowMs, page);
      var n := OpenedBefore(bars, startMs);
      hide ValidBars, OpenedBefore, ClosedOf;
      var m := ClosedSlice(bars, n, page, nowMs);
      if m > n {
        BarsBetween(bars, startMs, n, m, nowMs);
        assert Last(closed) == bars[m - 1];
      }
      if m - n < |page| {
        ClosedBefore(bars, startMs, n, m, nowMs);
      }
    }
  }

  lemma NothingListed(bars: seq<Bar>, startMs: int, endMs: int)
    requires ValidBars(bars) && FaithfulPage(bars, startMs, endMs, [])
    ensures forall b :: b in bars && startMs <= b.openMs ==> b.closeMs > endMs
  {
    OpenedBeforeMonotone(bars, startMs, if endMs + 1 < startMs then startMs else endMs + 1);
  }

  // The slice from n to m, when n is the first bar opened from a millisecond on: all
  // bars opened from there to its last close.
  lemma {:induction false} BarsBetween(bars: seq<Bar>, startMs: int, n: nat, m: nat, nowMs: int)
    requires ValidBars(bars) && n == OpenedBefore(bars, startMs) && n < m <= |bars|
    requires bars[m - 1].closeMs <= nowMs
    ensures startMs < bars[m - 1].closeMs < MAX_INT64
    ensures OnlyAdds(bars, startMs, {}, RowSet(bars[n..m]))
    ensures forall b :: b in bars && startMs <= b.openMs <= bars[m - 1].closeMs ==> b in RowSet(bars[n..m])
  {
    assert bars[n].openMs <= bars[m - 1].openMs;
    assert forall i :: m <= i < |bars| ==> bars[m - 1].closeMs < bars[i].openMs;
    assert forall i :: 0 <= i < n ==> bars[i].openMs < startMs;
    assert forall i :: n <= i < m ==> bars[i].openMs >= startMs;
    hide ValidBars, OpenedBefore;
    SliceAdds(bars, startMs, n, m);
    InSlice(bars, n, m);
    hide RowSet, OnlyAdds;
    forall b | b in bars && startMs <= b.openMs <= bars[m - 1].closeMs ensures b in RowSet(bars[n..m]) {
      var i :| 0 <= i < |bars| && bars[i] == b;
      assert n <= i < m;
    }
  }

  lemma SliceAdds(bars: seq<Bar>, startMs: int, n: nat, m: nat)
    requires n <= m <= |bars| && forall i :: n <= i < m ==> bars[i].openMs >= startMs
    ensures OnlyAdds(bars, startMs, {}, RowSet(bars[n..m]))
  {
    InSlice(bars, n, m);
    hide RowSet;
  }

  // When the bar at m is not closed, the slice holds all closed bars.
  lemma {:induction false} ClosedBefore(bars: seq<Bar>, startMs: int, n: nat, m: nat, nowMs: int)
    requires ValidBars(bars) && n == OpenedBefore(bars, startMs) && n <= m <= |bars|
    requires m == |bars| || bars[m].closeMs > nowMs
    ensures forall b :: b in bars && startMs <= b.openMs && b.closeMs <= nowMs ==> b in RowSet(bars[n..m])
  {
    assert forall i :: m < i < |bars| ==> bars[m].closeMs < bars[i].closeMs;
    InSlice(bars, n, m);
    hide ValidBars, RowSet;
    forall b | b in bars && startMs <= b.openMs && b.closeMs <= nowMs ensures b in RowSet(bars[n..m]) {
      var i :| 0 <= i < |bars| && bars[i] == b;
      assert n <= i < m;
    }
  }

  lemma InSlice(bars: seq<Bar>, n: nat, m: nat)
    requires n <= m <= |bars|
    ensures forall i :: n <= i < m ==> bars[i] in RowSet(bars[n..m])
    ensures forall b :: b in RowSet(bars[n..m]) ==> exists i :: n <= i < m && bars[i] == b
  {
    forall i | n <= i < m ensures bars[i] in RowSet(bars[n..m]) {
      assert bars[n..m][i - n] == bars[i];
    }
  }

  // ----- The scraper -----

  datatype State = State(resume: int, stored: set<Bar>, published: seq<Bar>)

  // A closed bar arriving live: the cursor moves past it whether or not it is stored.
  function NextLive(s: State, bar: Bar, insertOk: bool, written: bool, publisher: bool): State {
    State(Wrap64(bar.closeMs + 1),
          if insertOk || written then s.stored + {bar} else s.stored,
          if insertOk && publisher then s.published + [bar] else s.published)
  }

  // What a catch-up against a faithful exchange may do.
  predicate CatchesUp(bars: seq<Bar>, s: State, t: State) {
    && t.published == s.published
    && (s.resume <= 0 ==> t == s)
    && (s.resume > 0 ==>
          && s.resume <= t.resume
          && FilledBetween(bars, s.resume, t.resume, t.stored)
          && OnlyAdds(bars, s.resume, s.stored, t.stored))
  }

  class Scraper {
    var forwardResumeTimeMs: int
    var stored: set<Bar>
    var published: seq<Bar>
    var calls: nat
    const publisher: bool
    const outcome: nat -> Outcome

    constructor (resume: int, table: set<Bar>, publisher: bool, outcome: nat -> Outcome)
      ensures Current() == State(resume, table, []) && this.publisher == publisher && this.outcome == outcome
    {
      forwardResumeTimeMs, stored, published, calls := resume, table, [], 0;
      this.publisher, this.outcome := publisher, outcome;
    }

    // No insert or publish fails.
    ghost predicate AllWork() {
      forall n :: outcome(n).Works?
    }

    function Current(): State
      reads this
    {
      State(forwardResumeTimeMs, stored, published)
    }

    // Inserting rows; a failed insert may have written some of them.
    method InsertKline(klines: seq<Bar>) returns (ok: bool)
      modifies `stored, `calls
      ensures calls == old(calls) + 1
      ensures ok <==> outcome(old(calls)).Works?
      ensures old(stored) <= stored <= old(stored) + RowSet(klines)
      ensures ok ==> stored == old(stored) + RowSet(klines)
    {
      var result := outcome(calls);
      calls := calls + 1;
      match result
      case Works =>
        stored := stored + RowSet(klines);
        ok := true;
      case Fails(written) =>
        stored := stored + RowSet(klines[..if written <= |klines| then written else |klines|]);
        ok := false;
    }

    // One live bar; an open one is ignored. A closed one moves the cursor past its close
    // in any case, is stored if the insert works, and is then given to the publisher, if
    // there is one, which may fail; an error of either kind is reported.
    method HandleForwardKline(bar: Bar, isClosed: bool) returns (ok: bool, ghost insertOk: bool, ghost written: bool)
      modifies this
      ensures !isClosed ==> ok && Current() == old(Current())
      ensures isClosed ==> Current() == NextLive(old(Current()), bar, insertOk, written, publisher)
      ensures isClosed ==> forwardResumeTimeMs == Wrap64(bar.closeMs + 1)
      ensures isClosed ==> (insertOk <==> outcome(old(calls)).Works?)
      ensures isClosed && insertOk ==> bar in stored
      ensures old(stored) <= stored <= old(stored) + {bar}
      ensures published == old(published) + if isClosed && publisher && outcome(old(calls)).Works? then [bar] else []
      ensures isClosed ==> (ok <==> insertOk && (publisher ==> outcome(old(calls) + 1).Works?))
      ensures written ==> !isClosed || bar in stored
    {
      insertOk, written := true, true;
      if !isClosed {
        return true, insertOk, written;
      }
      assert RowSet([bar]) == {bar};
      ok := InsertKline([bar]);
      insertOk, written := ok, bar in stored;
      if ok && publisher {
        published := published + [bar];
        ok := outcome(calls).Works?;
        calls := calls + 1;
      }
      forwardResumeTimeMs := Wrap64(bar.closeMs + 1);
    }

    // Against any server the loop terminates and publishes nothing. Against a faithful
    // one the cursor never moves back, every bar opened between where it was and where
    // it is is stored, and nothing else is added; and when no error is reported, every
    // bar from the old cursor on that is closed by the last clock reading is stored.
    method CatchUpForward(server: Server, clock: nat -> Int64, ghost bars: seq<Bar>)
      returns (ok: bool, ghost nowMs: int)
      requires ValidBars(bars)
      modifies `forwardResumeTimeMs, `stored, `calls
      ensures AllWork() && Responsive(server) ==> ok
      ensures published == old(published) && old(stored) <= stored
      ensures old(forwardResumeTimeMs) <= 0 ==> ok && Current() == old(Current())
      ensures Faithful(server, bars) ==> CatchesUp(bars, old(Current()), Current())
      ensures Faithful(server, bars) && old(forwardResumeTimeMs) > 0 && ok ==>
        CaughtUp(bars, old(forwardResumeTimeMs), nowMs, stored)
    {
      hide Faithful, ValidBars, ClosedOf, FaithfulPage;
      nowMs := 0;
      if forwardResumeTimeMs <= 0 {
        return true, nowMs;
      }
      ghost var start := forwardResumeTimeMs;
      var currentMs := forwardResumeTimeMs;
      var round: nat := 0;
      while true
        invariant currentMs == forwardResumeTimeMs
        invariant old(stored) <= stored
        invariant round > 0 ==> currentMs <= MAX_INT64
        invariant Faithful(server, bars) ==>
          && start <= currentMs
          && FilledBetween(bars, start, currentMs, stored)
          && OnlyAdds(bars, start, old(stored), stored)
        decreases round == 0, MAX_INT64 - currentMs
      {
        var now := clock(round);
        nowMs := now;
        if currentMs >= now {
          OpensBeforeCloses(bars);
          return true, nowMs;
        }
        var answer := server(round, currentMs, now);
        if answer.FetchError? {
          return false, nowMs;
        }
        var klines := answer.bars;
        if Faithful(server, bars) {
          AnswerIsFaithful(server, bars, round, currentMs, now);
          ClosedBatch(bars, currentMs, now, klines, ClosedOf(klines, now));
        }
        round := round + 1;
        if |klines| == 0 {
          EmptyPage(now);
          return true, nowMs;
        }
        var closed := FilterClosedKlines(klines, now);
        if |closed| == 0 {
          return true, nowMs;
        }
        var stores := InsertKline(closed);
        if !stores {
          return false, nowMs;
        }
        forwardResumeTimeMs := Wrap64(closed[|closed| - 1].closeMs + 1);
        var nextMs := forwardResumeTimeMs;
        if nextMs <= currentMs || |closed| < |klines| {
          return true, nowMs;
        }
        currentMs := nextMs;
      }
    }
  }

  lemma OpensBeforeCloses(bars: seq<Bar>)
    requires ValidBars(bars)
    ensures forall b :: b in bars ==> b.openMs < b.closeMs
  {
  }

  lemma AnswerIsFaithful(server: Server, bars: seq<Bar>, n: nat, s: int, e: int)
    requires ValidBars(bars) && Faithful(server, bars) && server(n, s, e).Page?
    ensures FaithfulPage(bars, s, e, server(n, s, e).bars)
  {
  }

  lemma EmptyPage(nowMs: int)
    ensures ClosedOf([], nowMs) == []
  {
  }

  // ----- Live storing can lose a bar -----

  // With all bars stored from some point up to the cursor, a live bar keeps it so if
  // and only if no bar between the cursor and it is missing, and it is stored itself:
  // by this insert, even a failed one, or before.
  lemma {:induction false} LiveKeepsFilled(bars: seq<Bar>, fromMs: int, s: State, bar: Bar, insertOk: bool,
                                           written: bool, publisher: bool)
    requires ValidBars(bars) && bar in bars && fromMs <= s.resume <= bar.openMs
    requires FilledBetween(bars, fromMs, s.resume, s.stored)
    ensures var t := NextLive(s, bar, insertOk, written, publisher);
            && s.resume < t.resume
            && (FilledBetween(bars, fromMs, t.resume, t.stored) <==>
                FilledBetween(bars, s.resume, bar.openMs, s.stored) && (insertOk || written || bar in s.stored))
  {
    var t := NextLive(s, bar, insertOk, written, publisher);
    var i :| 0 <= i < |bars| && bars[i] == bar;
    assert t.resume == bar.closeMs + 1;
    forall b | b in bars && b != bar ensures b.openMs < bar.openMs || b.openMs > bar.closeMs {
      var j :| 0 <= j < |bars| && bars[j] == b;
      assert j < i || i < j;
    }
    assert bar in t.stored <==> insertOk || written || bar in s.stored;
  }

  // A live insert that fails leaves its bar behind the cursor, where no catch-up
  // will look for it.
  lemma {:induction false} FailedLiveInsertLosesABar() returns (bars: seq<Bar>, s: State, t: State)
    ensures ValidBars(bars) && FilledBetween(bars, 0, s.resume, s.stored)
    ensures |bars| == 2 && t == NextLive(s, bars[1], false, false, true)
    ensures bars[1].openMs < t.resume && bars[1] !in t.stored
    ensures forall later :: OnlyAdds(bars, t.resume, t.stored, later) ==> bars[1] !in later
  {
    bars := [Bar(60_000, 119_999, "a"), Bar(120_000, 179_999, "b")];
    s := State(120_000, {bars[0]}, []);
    t := NextLive(s, bars[1], false, false, true);
    assert t.resume == 180_000;
  }

  // ----- Catch-ups and live bars in any order -----

  datatype Event = CatchUp(after: State) | Live(bar: Bar, insertOk: bool, written: bool)

  predicate Enabled(bars: seq<Bar>, s: State, e: Event) {
    match e
    case CatchUp(after) => CatchesUp(bars, s, after)
    case Live(bar, _, _) => bar in bars
  }

  function Next(s: State, e: Event, publisher: bool): State {
    match e
    case CatchUp(after) => after
    case Live(bar, insertOk, written) => NextLive(s, bar, insertOk, written, publisher)
  }

  predicate CanRun(bars: seq<Bar>, s: State, events: seq<Event>, publisher: bool)
    decreases |events|
  {
    events == [] || (Enabled(bars, s, events[0]) && CanRun(bars, Next(s, events[0], publisher), events[1..], publisher))
  }

  function Run(s: State, events: seq<Event>, publisher: bool): State
    decreases |events|
  {
    if events == [] then s else Run(Next(s, events[0], publisher), events[1..], publisher)
  }

  lemma {:induction false} RunOnlyStores(bars: seq<Bar>, s: State, events: seq<Event>, publisher: bool)
    requires CanRun(bars, s, events, publisher)
    ensures s.stored <= Run(s, events, publisher).stored
    decreases |events|
  {
    if events != [] {
      RunOnlyStores(bars, Next(s, events[0], publisher), events[1..], publisher);
    }
  }

  // The bars of the live events that were inserted, when there is a publisher.
  function Handed(events: seq<Event>, publisher: bool): seq<Bar>
    decreases |events|
  {
    if events == [] then []
    else (if events[0].Live? && events[0].insertOk && publisher then [events[0].bar] else [])
         + Handed(events[1..], publisher)
  }

  // Over any run the publisher, if there is one, is handed exactly the live bars that
  // were inserted, in order; a catch-up hands it nothing.
  lemma {:induction false} RunPublishes(bars: seq<Bar>, s: State, events: seq<Event>, publisher: bool)
    requires CanRun(bars, s, events, publisher)
    ensures Run(s, events, publisher).published == s.published + Handed(events, publisher)
    decreases |events|
  {
    if events != [] {
      RunPublishes(bars, Next(s, events[0], publisher), events[1..], publisher);
    }
  }

  // Each bar that some live step moved the cursor past, and that ends up behind the
  // cursor, ends up stored.
  predicate PassedAreStored(bars: seq<Bar>, fromMs: int, s: State, events: seq<Event>, publisher: bool, end: State)
    decreases |events|
  {
    if events == [] then true
    else
      var next := Next(s, events[0], publisher);
      && (events[0].Live? ==>
            forall b :: b in bars && fromMs <= b.openMs < end.resume && s.resume <= b.openMs < next.resume ==>
              b in end.stored)
      && PassedAreStored(bars, fromMs, next, events[1..], publisher, end)
  }

  lemma {:induction false} PassedOrStored(bars: seq<Bar>, fromMs: int, s: State, events: seq<Event>, publisher: bool,
                                          b: Bar)
    requires CanRun(bars, s, events, publisher)
    requires PassedAreStored(bars, fromMs, s, events, publisher, Run(s, events, publisher))
    requires b in bars && fromMs <= b.openMs < Run(s, events, publisher).resume
    requires b.openMs < s.resume ==> b in Run(s, events, publisher).stored
    ensures b in Run(s, events, publisher).stored
    decreases |events|
  {
    if events != [] {
      var next := Next(s, events[0], publisher);
      RunOnlyStores(bars, next, events[1..], publisher);
      PassedOrStored(bars, fromMs, next, events[1..], publisher, b);
    }
  }

  lemma {:induction false} FilledArePassed(bars: seq<Bar>, fromMs: int, s: State, events: seq<Event>, publisher: bool,
                                           end: State)
    requires FilledBetween(bars, fromMs, end.resume, end.stored)
    ensures PassedAreStored(bars, fromMs, s, events, publisher, end)
    decreases |events|
  {
    if events != [] {
      FilledArePassed(bars, fromMs, Next(s, events[0], publisher), events[1..], publisher, end);
    }
  }

  // Over any run of catch-ups and live bars, even live bars behind the cursor, which
  // move it back: all bars from the first cursor to the last are stored if and only if
  // those that live steps moved past are.
  lemma {:induction false} RunKeepsFilled(bars: seq<Bar>, s: State, events: seq<Event>, publisher: bool)
    requires CanRun(bars, s, events, publisher)
    ensures var t := Run(s, events, publisher);
            FilledBetween(bars, s.resume, t.resume, t.stored) <==>
                PassedAreStored(bars, s.resume, s, events, publisher, t)
  {
    var t := Run(s, events, publisher);
    if FilledBetween(bars, s.resume, t.resume, t.stored) {
      FilledArePassed(bars, s.resume, s, events, publisher, t);
    }
    if PassedAreStored(bars, s.resume, s, events, publisher, t) {
      forall b | b in bars && s.resume <= b.openMs < t.resume ensures b in t.stored {
        PassedOrStored(bars, s.resume, s, events, publisher, b);
      }
    }
  }

  // No live bar is behind the cursor it meets.
  predicate NeverBack(s: State, events: seq<Event>, publisher: bool)
    decreases |events|
  {
    if events == [] then true
    else
      && (events[0].Live? ==> s.resume <= events[0].bar.openMs)
      && NeverBack(Next(s, events[0], publisher), events[1..], publisher)
  }

  // Each live bar is stored and leaves no gap behind it.
  predicate LiveStepsMet(bars: seq<Bar>, s: State, events: seq<Event>, publisher: bool)
    decreases |events|
  {
    if events == [] then true
    else
      && (events[0].Live? ==>
            && FilledBetween(bars, s.resume, events[0].bar.openMs, s.stored)
            && (events[0].insertOk || events[0].written || events[0].bar in s.stored))
      && LiveStepsMet(bars, Next(s, events[0], publisher), events[1..], publisher)
  }

  lemma {:induction false} StepForward(bars: seq<Bar>, s: State, e: Event, publisher: bool)
    requires ValidBars(bars) && Enabled(bars, s, e) && (e.Live? ==> s.resume <= e.bar.openMs)
    ensures s.resume <= Next(s, e, publisher).resume
    ensures forall b :: b in Next(s, e, publisher).stored && b !in s.stored ==> b.openMs >= s.resume
    ensures e.Live? ==>
      (FilledBetween(bars, s.resume, Next(s, e, publisher).resume, Next(s, e, publisher).stored) <==>
       FilledBetween(bars, s.resume, e.bar.openMs, s.stored) && (e.insertOk || e.written || e.bar in s.stored))
  {
    if e.Live? {
      LiveKeepsFilled(bars, s.resume, s, e.bar, e.insertOk, e.written, publisher);
    }
    hide ValidBars;
  }

  // What lies behind the cursor is never stored later.
  lemma {:induction false} RunForward(bars: seq<Bar>, s: State, events: seq<Event>, publisher: bool)
    requires ValidBars(bars) && CanRun(bars, s, events, publisher) && NeverBack(s, events, publisher)
    ensures var t := Run(s, events, publisher);
            s.resume <= t.resume && forall b :: b in t.stored && b !in s.stored ==> b.openMs >= s.resume
    decreases |events|
  {
    if events != [] {
      StepForward(bars, s, events[0], publisher);
      hide ValidBars, Enabled, Next;
      RunForward(bars, Next(s, events[0], publisher), events[1..], publisher);
    }
  }

  // Without live bars behind the cursor: all bars from the first cursor to the last
  // are stored if and only if every live bar was stored and left no gap.
  lemma {:induction false} ForwardRunKeepsFilled(bars: seq<Bar>, s: State, events: seq<Event>, publisher: bool)
    requires ValidBars(bars) && CanRun(bars, s, events, publisher) && NeverBack(s, events, publisher)
    ensures var t := Run(s, events, publisher);
            FilledBetween(bars, s.resume, t.resume, t.stored) <==> LiveStepsMet(bars, s, events, publisher)
    decreases |events|
  {
    if events != [] {
      var e, next, t := events[0], Next(s, events[0], publisher), Run(s, events, publisher);
      StepForward(bars, s, e, publisher);
      ForwardRunKeepsFilled(bars, next, events[1..], publisher);
      RunForward(bars, next, events[1..], publisher);
      RunOnlyStores(bars, next, events[1..], publisher);
      hide ValidBars, NextLive;
      FilledInTwo(bars, s.resume, next.resume, t.resume, next.stored, t.stored);
    }
  }

  lemma FilledInTwo(bars: seq<Bar>, a: int, b: int, c: int, early: set<Bar>, late: set<Bar>)
    requires a <= b <= c && early <= late
    requires forall x :: x in late && x !in early ==> x.openMs >= b
    ensures FilledBetween(bars, a, c, late) <==> FilledBetween(bars, a, b, early) && FilledBetween(bars, b, c, late)
  {
  }
}
