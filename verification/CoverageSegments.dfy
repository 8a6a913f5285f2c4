/** Compressing open times into coverage segments, and merging segments. */
module CoverageSegments {
  import opened Wrappers
  import opened Calendar
  import opened Intervals
  import opened Klines

  const COVERAGE_SOURCE := "historical_backfill"

  datatype CoverageSegment = CoverageSegment(
    exchange: string,
    market: string,
    symbol: string,
    interval: string,
    year: int,
    startAt: Time,
    endAt: Time,
    rowCount: int,
    source: string)

  // The labels every segment of one build shares; its other fields are placeholders.
  function NormalizedBase(exchange: string, market: string, symbol: string, interval: string): CoverageSegment {
    CoverageSegment(ToLower(TrimSpace(exchange)), ToLower(TrimSpace(market)), ToUpper(TrimSpace(symbol)),
                    TrimSpace(interval), 0, ZERO_TIME, ZERO_TIME, 0, COVERAGE_SOURCE)
  }

  function NewCoverageSegment(base: CoverageSegment, startAt: Time, endAt: Time, rowCount: int): CoverageSegment {
    base.(year := YearOf(startAt), startAt := startAt, endAt := endAt, rowCount := rowCount)
  }

  predicate CanMerge(a: CoverageSegment, b: CoverageSegment) {
    && a.exchange == b.exchange
    && a.market == b.market
    && a.symbol == b.symbol
    && a.interval == b.interval
    && a.year == b.year
    && a.source == b.source
    && a.endAt == b.startAt
  }

  // ----- Specification: segments as a fold of one-bar segments -----

  function Last<T>(s: seq<T>): T
    requires s != []
  {
    s[|s| - 1]
  }

  function Front<T>(s: seq<T>): seq<T>
    requires s != []
  {
    s[..|s| - 1]
  }

  // b, absorbed by the segment a that ends where b starts.
  function Merge(a: CoverageSegment, b: CoverageSegment): CoverageSegment {
    a.(endAt := b.endAt, rowCount := a.rowCount + b.rowCount)
  }

  function AppendOne(dst: seq<CoverageSegment>, seg: CoverageSegment): seq<CoverageSegment> {
    if dst != [] && CanMerge(Last(dst), seg) then
      Front(dst) + [Merge(Last(dst), seg)]
    else
      dst + [seg]
  }

  function AppendAll(dst: seq<CoverageSegment>, src: seq<CoverageSegment>): seq<CoverageSegment> {
    if src == [] then dst else AppendOne(AppendAll(dst, Front(src)), Last(src))
  }

  function Single(base: CoverageSegment, t: Time, step: int): CoverageSegment {
    NewCoverageSegment(base, t, t + step, 1)
  }

  // The segments of a list of open times, adding one bar at a time.
  function Runs(base: CoverageSegment, times: seq<Time>, step: int): seq<CoverageSegment> {
    if times == [] then [] else AppendOne(Runs(base, Front(times), step), Single(base, Last(times), step))
  }

  // ----- Meaning: the open times a list of segments stands for -----

  function Points(seg: CoverageSegment, step: int): seq<Time> {
    if seg.rowCount <= 0 then [] else seq(seg.rowCount, i => seg.startAt + i * step)
  }

  function Expand(segs: seq<CoverageSegment>, step: int): seq<Time> {
    if segs == [] then [] else Expand(Front(segs), step) + Points(Last(segs), step)
  }

  // A segment counts its bars, ends one step after the last of them, carries the
  // labels of its build, and lies in its own UTC year.
  predicate SegmentOk(base: CoverageSegment, seg: CoverageSegment, step: int) {
    && seg.rowCount >= 1
    && seg.endAt == seg.startAt + seg.rowCount * step
    && seg == base.(year := seg.year, startAt := seg.startAt, endAt := seg.endAt, rowCount := seg.rowCount)
    && forall t :: t in Points(seg, step) ==> YearOf(t) == seg.year
  }

  predicate Unmergeable(segs: seq<CoverageSegment>) {
    forall i :: 0 < i < |segs| ==> !CanMerge(segs[i - 1], segs[i])
  }

  // A list of segments that stands for exactly these open times, in this order,
  // and cannot be compressed further.
  predicate CanonicalCover(segs: seq<CoverageSegment>, base: CoverageSegment, times: seq<Time>, step: int) {
    && (forall i :: 0 <= i < |segs| ==> SegmentOk(base, segs[i], step))
    && Unmergeable(segs)
    && Expand(segs, step) == times
  }

  lemma SingleOk(base: CoverageSegment, t: Time, step: int)
    ensures SegmentOk(base, Single(base, t, step), step)
    ensures Points(Single(base, t, step), step) == [t]
  {
    hide YearOf;
  }

  lemma MergedOk(base: CoverageSegment, seg: CoverageSegment, t: Time, step: int)
    requires SegmentOk(base, seg, step) && CanMerge(seg, Single(base, t, step))
    ensures SegmentOk(base, Merge(seg, Single(base, t, step)), step)
    ensures Points(Merge(seg, Single(base, t, step)), step) == Points(seg, step) + [t]
  {
    hide YearOf;
    var merged := Merge(seg, Single(base, t, step));
    OneStepMore(seg.rowCount, step);
    MorePoints(seg, merged, step);
    hide Points;
    assert merged.endAt == seg.startAt + merged.rowCount * step;
  }

  lemma OneStepMore(n: int, step: int)
    ensures (n + 1) * step == n * step + step
  {
  }

  lemma MorePoints(seg: CoverageSegment, longer: CoverageSegment, step: int)
    requires seg.rowCount >= 0 && longer.startAt == seg.startAt && longer.rowCount == seg.rowCount + 1
    ensures Points(longer, step) == Points(seg, step) + [seg.startAt + seg.rowCount * step]
  {
  }

  // A segment of several bars is a shorter segment merged with its last bar.
  lemma SplitLast(base: CoverageSegment, seg: CoverageSegment, step: int) returns (shorter: CoverageSegment)
    requires SegmentOk(base, seg, step) && seg.rowCount > 1
    ensures SegmentOk(base, shorter, step)
    ensures Points(seg, step) == Points(shorter, step) + [Last(Points(seg, step))]
    ensures var one := Single(base, Last(Points(seg, step)), step);
            CanMerge(shorter, one) && seg == Merge(shorter, one)
    ensures forall l :: CanMerge(l, shorter) <==> CanMerge(l, seg)
  {
    hide YearOf;
    shorter := seg.(endAt := seg.endAt - step, rowCount := seg.rowCount - 1);
    assert shorter.rowCount * step == seg.rowCount * step - step;
    assert Points(seg, step) == Points(shorter, step) + [Last(Points(seg, step))];
  }

  lemma SegmentOfOneBar(base: CoverageSegment, seg: CoverageSegment, step: int)
    requires SegmentOk(base, seg, step) && seg.rowCount == 1
    ensures Points(seg, step) == [seg.startAt] && seg == Single(base, seg.startAt, step)
  {
    hide YearOf;
    assert Points(seg, step) == [seg.startAt];
    assert seg.startAt in Points(seg, step);
  }

  lemma {:induction false} MergeKeepsCanonical(base: CoverageSegment, segs: seq<CoverageSegment>, times: seq<Time>,
                                               t: Time, step: int)
    requires CanonicalCover(segs, base, times, step)
    requires segs != [] && CanMerge(Last(segs), Single(base, t, step))
    ensures CanonicalCover(AppendOne(segs, Single(base, t, step)), base, times + [t], step)
  {
    hide CanMerge, Merge, Single, SegmentOk, Points;
    var one := Single(base, t, step);
    var out := AppendOne(segs, one);
    assert SegmentOk(base, Last(segs), step);
    MergedOk(base, Last(segs), t, step);
    assert Front(out) == Front(segs);
    forall i | 0 <= i < |out| ensures SegmentOk(base, out[i], step) {
      assert i < |segs| - 1 ==> out[i] == segs[i];
    }
    forall i | 0 < i < |out| ensures !CanMerge(out[i - 1], out[i]) {
      assert out[i - 1] == segs[i - 1];
      MergeAssociative(segs[i - 1], Last(segs), one);
    }
  }

  lemma {:induction false} AppendKeepsCanonical(base: CoverageSegment, segs: seq<CoverageSegment>, times: seq<Time>,
                                                t: Time, step: int)
    requires CanonicalCover(segs, base, times, step)
    requires segs == [] || !CanMerge(Last(segs), Single(base, t, step))
    ensures CanonicalCover(AppendOne(segs, Single(base, t, step)), base, times + [t], step)
  {
    hide CanMerge, Merge, Single, SegmentOk, Points;
    SingleOk(base, t, step);
    assert Front(segs + [Single(base, t, step)]) == segs;
  }

  // Runs is a canonical cover of any list of open times, whatever their order and
  // whatever the step.
  lemma {:induction false} RunsIsCanonicalCover(base: CoverageSegment, times: seq<Time>, step: int)
    ensures CanonicalCover(Runs(base, times, step), base, times, step)
  {
    hide CanMerge, Merge, Single, SegmentOk, Points, AppendOne;
    if times != [] {
      RunsIsCanonicalCover(base, Front(times), step);
      var segs := Runs(base, Front(times), step);
      if segs != [] && CanMerge(Last(segs), Single(base, Last(times), step)) {
        MergeKeepsCanonical(base, segs, Front(times), Last(times), step);
      } else {
        AppendKeepsCanonical(base, segs, Front(times), Last(times), step);
      }
      assert times == Front(times) + [Last(times)];
    }
  }

  // The canonical cover of a list of open times is unique, so Runs computes it.
  lemma {:induction false} CanonicalCoverUnique(segs: seq<CoverageSegment>, base: CoverageSegment, times: seq<Time>,
                                                step: int)
    requires CanonicalCover(segs, base, times, step)
    ensures segs == Runs(base, times, step)
    decreases |times|
  {
    hide CanMerge, Merge, Single, Points;
    if segs != [] {
      var last := Last(segs);
      assert SegmentOk(base, last, step);
      if last.rowCount == 1 {
        SegmentOfOneBar(base, last, step);
        assert Expand(Front(segs), step) == Front(times);
        CanonicalCoverUnique(Front(segs), base, Front(times), step);
      } else {
        var shorter := SplitLast(base, last, step);
        var before := Front(segs) + [shorter];
        assert Front(before) == Front(segs);
        assert Expand(before, step) == Front(times);
        CanonicalCoverUnique(before, base, Front(times), step);
      }
    }
  }

  // ----- Merging across pages -----

  lemma MergeAssociative(l: CoverageSegment, a: CoverageSegment, b: CoverageSegment)
    requires CanMerge(a, b)
    ensures CanMerge(l, Merge(a, b)) <==> CanMerge(l, a)
    ensures CanMerge(l, a) ==> CanMerge(Merge(l, a), b) && Merge(Merge(l, a), b) == Merge(l, Merge(a, b))
  {
  }

  lemma AppendMerged(dst: seq<CoverageSegment>, a: CoverageSegment, b: CoverageSegment)
    requires CanMerge(a, b)
    ensures AppendOne(dst, Merge(a, b)) == AppendOne(AppendOne(dst, a), b)
  {
    hide CanMerge, Merge;
    if dst != [] {
      MergeAssociative(Last(dst), a, b);
    }
    var out := AppendOne(dst, a);
    if dst != [] && CanMerge(Last(dst), a) {
      assert Front(out) == Front(dst);
    } else {
      assert Front(out) == dst;
    }
  }

  lemma AppendOneAssociative(dst: seq<CoverageSegment>, src: seq<CoverageSegment>, seg: CoverageSegment)
    ensures AppendAll(dst, AppendOne(src, seg)) == AppendOne(AppendAll(dst, src), seg)
  {
    hide CanMerge, Merge;
    if src != [] && CanMerge(Last(src), seg) {
      assert Front(AppendOne(src, seg)) == Front(src);
      AppendMerged(AppendAll(dst, Front(src)), Last(src), seg);
    } else {
      assert Front(src + [seg]) == src;
    }
  }

  // Appending the segments of one list of open times to those of another gives the
  // segments of the two lists joined.
  lemma {:induction false} RunsHomomorphism(base: CoverageSegment, a: seq<Time>, b: seq<Time>, step: int)
    ensures AppendAll(Runs(base, a, step), Runs(base, b, step)) == Runs(base, a + b, step)
  {
    hide CanMerge, Merge, AppendOne, Single;
    if b == [] {
      assert a + b == a;
    } else {
      RunsHomomorphism(base, a, Front(b), step);
      AppendOneAssociative(Runs(base, a, step), Runs(base, Front(b), step), Single(base, Last(b), step));
      assert Front(a + b) == a + Front(b);
    }
  }

  // ----- Sorted distinct open times -----

  predicate StrictlyAscending(s: seq<Time>) {
    forall i, j :: 0 <= i < j < |s| ==> s[i] < s[j]
  }

  // A strictly ascending list is determined by its elements.
  lemma {:induction false} AscendingUnique(a: seq<Time>, b: seq<Time>)
    requires StrictlyAscending(a) && StrictlyAscending(b)
    requires forall t :: t in a <==> t in b
    ensures a == b
  {
    if a != [] || b != [] {
      SameLast(a, b);
      forall t ensures t in Front(a) <==> t in Front(b) {
        assert t in Front(a) <==> t in a && t != Last(a);
        assert t in Front(b) <==> t in b && t != Last(b);
      }
      AscendingUnique(Front(a), Front(b));
      assert a == Front(a) + [Last(a)] && b == Front(b) + [Last(b)];
    }
  }

  lemma SameLast(a: seq<Time>, b: seq<Time>)
    requires StrictlyAscending(a) && StrictlyAscending(b)
    requires forall t :: t in a <==> t in b
    requires a != [] || b != []
    ensures a != [] && b != [] && Last(a) == Last(b)
  {
    var t := if a != [] then Last(a) else Last(b);
    assert t in a && t in b;
    assert Last(a) in a && Last(b) in b;
  }

  function InsertSorted(s: seq<Time>, t: Time): seq<Time> {
    if s == [] || Last(s) < t then s + [t] else InsertSorted(Front(s), t) + [Last(s)]
  }

  // sort.Slice on distinct open times.
  function SortTimes(s: seq<Time>): seq<Time> {
    if s == [] then [] else InsertSorted(SortTimes(Front(s)), Last(s))
  }

  lemma {:induction false} InsertSortedAscends(s: seq<Time>, t: Time)
    requires StrictlyAscending(s) && t !in s
    ensures StrictlyAscending(InsertSorted(s, t))
    ensures forall x :: x in InsertSorted(s, t) <==> x == t || x in s
  {
    if s != [] && Last(s) >= t {
      InsertSortedAscends(Front(s), t);
      assert s == Front(s) + [Last(s)];
      assert Last(s) in s;
      var before := InsertSorted(Front(s), t);
      forall i | 0 <= i < |before| ensures before[i] < Last(s) {
        assert before[i] in before;
      }
    }
  }

  predicate Distinct(s: seq<Time>) {
    forall i, j :: 0 <= i < j < |s| ==> s[i] != s[j]
  }

  lemma {:induction false} SortTimesAscends(s: seq<Time>)
    requires Distinct(s)
    ensures StrictlyAscending(SortTimes(s))
    ensures forall x :: x in SortTimes(s) <==> x in s
  {
    if s != [] {
      SortTimesAscends(Front(s));
      assert s == Front(s) + [Last(s)];
      InsertSortedAscends(SortTimes(Front(s)), Last(s));
    }
  }

  // The open times kept from a batch: zero times are skipped, and of several times
  // with one UnixNano key the first is kept.
  function KeptTimes(times: seq<Time>): seq<Time> {
    if times == [] then []
    else
      var kept, t := KeptTimes(Front(times)), Last(times);
      if t == ZERO_TIME || UnixNano(t) in Keys(kept) then kept else kept + [t]
  }

  function Keys(times: seq<Time>): set<int> {
    set t | t in times :: UnixNano(t)
  }

  function OpenTimes(rows: seq<Kline>): seq<Time> {
    seq(|rows|, i requires 0 <= i < |rows| => rows[i].openTime)
  }

  // The segments of a batch of rows.
  function CoverOf(base: CoverageSegment, rows: seq<Kline>, step: int): seq<CoverageSegment> {
    Runs(base, SortTimes(KeptTimes(OpenTimes(rows))), step)
  }

  // No two different open times of the batch share a UnixNano key. Times within
  // the int64 nanosecond range, 1677 to 2262, never do.
  predicate KeysTellApart(times: seq<Time>) {
    forall s, t :: s in times && t in times && s != ZERO_TIME && t != ZERO_TIME && UnixNano(s) == UnixNano(t) ==> s == t
  }

  lemma {:induction false} KeptTimesMembers(times: seq<Time>)
    ensures Distinct(KeptTimes(times))
    ensures forall t :: t in KeptTimes(times) ==> t in times && t != ZERO_TIME
    ensures forall t :: t in times && t != ZERO_TIME ==> UnixNano(t) in Keys(KeptTimes(times))
    ensures forall s, t :: s in KeptTimes(times) && t in KeptTimes(times) && UnixNano(s) == UnixNano(t) ==> s == t
  {
    if times != [] {
      KeptTimesMembers(Front(times));
      var kept, t := KeptTimes(Front(times)), Last(times);
      assert times == Front(times) + [t];
      var out := KeptTimes(times);
      if !(t == ZERO_TIME || UnixNano(t) in Keys(kept)) {
        assert out == kept + [t];
        assert forall x :: x in kept ==> UnixNano(x) in Keys(kept);
        assert Keys(out) == Keys(kept) + {UnixNano(t)};
      }
    }
  }

  // The segments of a batch stand for each distinct non-zero open time exactly
  // once, in ascending order. They miss none of them if and only if UnixNano keys
  // tell the open times apart.
  lemma CoverIsComplete(base: CoverageSegment, rows: seq<Kline>, step: int)
    ensures var segs := CoverOf(base, rows, step);
            && StrictlyAscending(Expand(segs, step))
            && (forall t :: t in Expand(segs, step) ==> t in OpenTimes(rows) && t != ZERO_TIME)
            && ((forall t :: t in OpenTimes(rows) && t != ZERO_TIME ==> t in Expand(segs, step))
                <==> KeysTellApart(OpenTimes(rows)))
  {
    var times := OpenTimes(rows);
    var kept := KeptTimes(times);
    KeptTimesMembers(times);
    SortTimesAscends(kept);
    RunsIsCanonicalCover(base, SortTimes(kept), step);
    if KeysTellApart(times) {
      forall t | t in times && t != ZERO_TIME ensures t in kept {
        assert UnixNano(t) in Keys(kept);
        var s :| s in kept && UnixNano(s) == UnixNano(t);
        assert s in times && s != ZERO_TIME;
      }
    }
  }

  // Two rows 2^64 ns apart: the second is taken for a duplicate and left uncovered.
  lemma KeyClashDropsARow(base: CoverageSegment, a: Kline, b: Kline, step: int)
    requires a.openTime == 0 && b.openTime == 0x1_0000_0000_0000_0000
    ensures CoverOf(base, [a, b], step) == [Single(base, 0, step)]
  {
    var times := OpenTimes([a, b]);
    assert times == [0, 0x1_0000_0000_0000_0000];
    assert Front(times) == [0] && Front([0]) == [];
    assert KeptTimes([]) == [];
    assert KeptTimes([0]) == [0];
    assert UnixNano(0x1_0000_0000_0000_0000) == UnixNano(0);
    assert UnixNano(0) in Keys([0]);
    assert KeptTimes(times) == [0];
    assert SortTimes([0]) == [0];
    assert Runs(base, [0], step) == [Single(base, 0, step)];
  }

  predicate StartsAscend(segs: seq<CoverageSegment>) {
    forall i, j :: 0 <= i < j < |segs| ==> segs[i].startAt < segs[j].startAt
  }

  lemma AppendOneAscends(segs: seq<CoverageSegment>, seg: CoverageSegment)
    requires StartsAscend(segs) && (segs != [] ==> Last(segs).startAt < seg.startAt)
    ensures StartsAscend(AppendOne(segs, seg))
    ensures AppendOne(segs, seg) != [] && Last(AppendOne(segs, seg)).startAt <= seg.startAt
  {
    hide CanMerge;
    var out := AppendOne(segs, seg);
    assert forall i :: 0 <= i < |segs| ==> out[i].startAt == segs[i].startAt;
  }

  // Segment starts strictly increase.
  lemma {:induction false} RunsAscend(base: CoverageSegment, times: seq<Time>, step: int)
    requires StrictlyAscending(times)
    ensures StartsAscend(Runs(base, times, step))
    ensures times != [] ==> Runs(base, times, step) != [] && Last(Runs(base, times, step)).startAt <= Last(times)
  {
    hide AppendOne, YearOf;
    if times != [] {
      RunsAscend(base, Front(times), step);
      AppendOneAscends(Runs(base, Front(times), step), Single(base, Last(times), step));
    }
  }

  // ----- Pages -----

  function Flatten<T>(pages: seq<seq<T>>): seq<T> {
    if pages == [] then [] else Flatten(Front(pages)) + Last(pages)
  }

  // The fold RunKlineRequest and backfillWindow make over the pages they fetch.
  function AppendPages(base: CoverageSegment, pages: seq<seq<Kline>>, step: int): seq<CoverageSegment> {
    if pages == [] then [] else AppendAll(AppendPages(base, Front(pages), step), CoverOf(base, Last(pages), step))
  }

  lemma Associative<T>(a: seq<T>, b: seq<T>, c: seq<T>)
    ensures a + b + c == a + (b + c)
  {
  }

  lemma {:induction false} FlattenJoin<T>(a: seq<seq<T>>, b: seq<seq<T>>)
    ensures Flatten(a + b) == Flatten(a) + Flatten(b)
  {
    if b == [] {
      assert a + b == a;
    } else {
      FlattenJoin(a, Front(b));
      assert Front(a + b) == a + Front(b) && Last(a + b) == Last(b);
      Associative(Flatten(a), Flatten(Front(b)), Last(b));
    }
  }

  lemma {:induction false} AppendAllAssociative(a: seq<CoverageSegment>, b: seq<CoverageSegment>,
                                                c: seq<CoverageSegment>)
    ensures AppendAll(a, AppendAll(b, c)) == AppendAll(AppendAll(a, b), c)
  {
    if c != [] {
      hide AppendOne;
      AppendAllAssociative(a, b, Front(c));
      AppendOneAssociative(a, AppendAll(b, Front(c)), Last(c));
    }
  }

  // Merging two groups of pages group by group, or page by page, is the same.
  lemma {:induction false} AppendPagesJoin(base: CoverageSegment, a: seq<seq<Kline>>, b: seq<seq<Kline>>, step: int)
    ensures AppendAll(AppendPages(base, a, step), AppendPages(base, b, step)) == AppendPages(base, a + b, step)
  {
    hide CoverOf;
    if b == [] {
      assert a + b == a;
    } else {
      AppendPagesJoin(base, a, Front(b), step);
      AppendAllAssociative(AppendPages(base, a, step), AppendPages(base, Front(b), step), CoverOf(base, Last(b), step));
      assert Front(a + b) == a + Front(b);
    }
  }

  // A page whose open times are already ascending, in one year and not zero.
  predicate PlainPage(rows: seq<Kline>) {
    && StrictlyAscending(OpenTimes(rows))
    && (forall i :: 0 <= i < |rows| ==>
          rows[i].openTime != ZERO_TIME && YearOf(rows[i].openTime) == YearOf(rows[0].openTime))
  }

  // ----- What merged pages stand for -----

  // The open times covered by a list of pages, page by page.
  function PagesTimes(pages: seq<seq<Kline>>): seq<Time> {
    if pages == [] then [] else PagesTimes(Front(pages)) + SortTimes(KeptTimes(OpenTimes(Last(pages))))
  }

  lemma {:induction false} AppendPagesAreRuns(base: CoverageSegment, pages: seq<seq<Kline>>, step: int)
    ensures AppendPages(base, pages, step) == Runs(base, PagesTimes(pages), step)
  {
    hide Runs, AppendAll, SortTimes, KeptTimes;
    if pages != [] {
      AppendPagesAreRuns(base, Front(pages), step);
      RunsHomomorphism(base, PagesTimes(Front(pages)), SortTimes(KeptTimes(OpenTimes(Last(pages)))), step);
    } else {
      NoRuns(base, step);
    }
  }

  lemma NoRuns(base: CoverageSegment, step: int)
    ensures Runs(base, [], step) == []
  {
  }

  // Merged pages, in any order and with any rows, stand for open times of their rows
  // only, and for all of them but the zero time when each page's keys tell them apart.
  lemma {:induction false} PagesCover(base: CoverageSegment, pages: seq<seq<Kline>>, step: int)
    ensures Expand(AppendPages(base, pages, step), step) == PagesTimes(pages)
    ensures forall t :: t in PagesTimes(pages) ==> t != ZERO_TIME && t in OpenTimes(Flatten(pages))
    ensures (forall i :: 0 <= i < |pages| ==> KeysTellApart(OpenTimes(pages[i]))) ==>
              forall t :: t in OpenTimes(Flatten(pages)) && t != ZERO_TIME ==> t in PagesTimes(pages)
  {
    AppendPagesAreRuns(base, pages, step);
    RunsIsCanonicalCover(base, PagesTimes(pages), step);
    hide Expand, AppendPages, Runs, Unmergeable, SegmentOk;
    PagesTimesMembers(pages);
  }

  lemma {:induction false} PagesTimesMembers(pages: seq<seq<Kline>>)
    ensures forall t :: t in PagesTimes(pages) ==> t != ZERO_TIME && t in OpenTimes(Flatten(pages))
    ensures (forall i :: 0 <= i < |pages| ==> KeysTellApart(OpenTimes(pages[i]))) ==>
              forall t :: t in OpenTimes(Flatten(pages)) && t != ZERO_TIME ==> t in PagesTimes(pages)
  {
    hide SortTimes, KeptTimes, KeysTellApart, OpenTimes, Keys, UnixNano, StrictlyAscending, Distinct;
    if pages != [] {
      var last := OpenTimes(Last(pages));
      PagesTimesMembers(Front(pages));
      KeptTimesMembers(last);
      SortTimesAscends(KeptTimes(last));
      OpenTimesJoin(Flatten(Front(pages)), Last(pages));
      if KeysTellApart(last) {
        KeptIsNonZero(last);
      }
    } else {
      NoOpenTimes();
    }
  }

  lemma NoOpenTimes()
    ensures OpenTimes([]) == []
  {
  }

  lemma PlainPageCover(base: CoverageSegment, rows: seq<Kline>, step: int)
    requires PlainPage(rows)
    ensures CoverOf(base, rows, step) == Runs(base, OpenTimes(rows), step)
  {
    hide YearOf, UnixNano, Runs;
    var times := OpenTimes(rows);
    forall s, t | s in times && t in times && UnixNano(s) == UnixNano(t) ensures s == t {
      SameYearGap(s, t);
      SameYearGap(t, s);
      UnixNanoInjective(s, t);
    }
    KeptIsNonZero(times);
    AscendingUnique(SortTimes(KeptTimes(times)), times);
  }

  lemma OpenTimesJoin(a: seq<Kline>, b: seq<Kline>)
    ensures OpenTimes(a + b) == OpenTimes(a) + OpenTimes(b)
  {
  }

  lemma {:induction false} PlainPagesCover(base: CoverageSegment, pages: seq<seq<Kline>>, step: int)
    requires forall i :: 0 <= i < |pages| ==> PlainPage(pages[i])
    ensures AppendPages(base, pages, step) == Runs(base, OpenTimes(Flatten(pages)), step)
  {
    if pages == [] {
      assert OpenTimes([]) == [];
    } else {
      hide CoverOf, PlainPage, Runs, AppendAll, OpenTimes;
      PlainPagesCover(base, Front(pages), step);
      PlainPageCover(base, Last(pages), step);
      var a, b := OpenTimes(Flatten(Front(pages))), OpenTimes(Last(pages));
      RunsHomomorphism(base, a, b, step);
      OpenTimesJoin(Flatten(Front(pages)), Last(pages));
    }
  }

  predicate PagesAscend(pages: seq<seq<Kline>>) {
    forall i, j, a, b :: 0 <= i < j < |pages| && a in pages[i] && b in pages[j] ==> a.openTime < b.openTime
  }

  lemma FlattenMembers<T>(pages: seq<seq<T>>)
    ensures forall x :: x in Flatten(pages) <==> exists i :: 0 <= i < |pages| && x in pages[i]
  {
    if pages != [] {
      FlattenMembers(Front(pages));
      assert forall i :: 0 <= i < |pages| - 1 ==> pages[i] == Front(pages)[i];
    }
  }

  lemma OpenTimesMembers(rows: seq<Kline>)
    ensures forall t :: t in OpenTimes(rows) <==> exists k :: k in rows && k.openTime == t
  {
    forall k | k in rows ensures k.openTime in OpenTimes(rows) {
      var i :| 0 <= i < |rows| && rows[i] == k;
      assert OpenTimes(rows)[i] == k.openTime;
    }
  }

  lemma KeptSortedJoin(p: seq<Time>, q: seq<Time>)
    requires forall s, t :: s in p && t in q ==> s < t
    requires KeysTellApart(p + q)
    ensures SortTimes(KeptTimes(p + q)) == SortTimes(KeptTimes(p)) + SortTimes(KeptTimes(q))
  {
    var both := SortTimes(KeptTimes(p + q));
    var left, right := SortTimes(KeptTimes(p)), SortTimes(KeptTimes(q));
    KeptIsNonZero(p + q);
    KeptIsNonZero(p);
    KeptIsNonZero(q);
    forall t ensures t in both <==> t in left + right {
      assert t in p + q <==> t in p || t in q;
    }
    forall i, j | 0 <= i < |left| && 0 <= j < |right| ensures left[i] < right[j] {
      assert left[i] in left && right[j] in right;
    }
    AscendingUnique(both, left + right);
  }

  lemma KeptIsNonZero(times: seq<Time>)
    requires KeysTellApart(times)
    ensures StrictlyAscending(SortTimes(KeptTimes(times)))
    ensures forall t :: t in SortTimes(KeptTimes(times)) <==> t in times && t != ZERO_TIME
  {
    var kept := KeptTimes(times);
    KeptTimesMembers(times);
    SortTimesAscends(kept);
    forall t | t in times && t != ZERO_TIME ensures t in kept {
      assert UnixNano(t) in Keys(kept);
      var s :| s in kept && UnixNano(s) == UnixNano(t);
    }
  }

  lemma KeysOfPart(p: seq<Time>, q: seq<Time>)
    requires KeysTellApart(p + q)
    ensures KeysTellApart(p) && KeysTellApart(q)
  {
    assert forall t :: t in p || t in q ==> t in p + q;
  }

  lemma LastPageIsLater(pages: seq<seq<Kline>>)
    requires pages != [] && PagesAscend(pages)
    ensures forall s, t :: s in OpenTimes(Flatten(Front(pages))) && t in OpenTimes(Last(pages)) ==> s < t
    ensures PagesAscend(Front(pages))
  {
    hide OpenTimes;
    var before, page := Front(pages), Last(pages);
    OpenTimesMembers(Flatten(before));
    OpenTimesMembers(page);
    FlattenMembers(before);
    forall s, t | s in OpenTimes(Flatten(before)) && t in OpenTimes(page) ensures s < t {
      var a: Kline :| a in Flatten(before) && a.openTime == s;
      var i :| 0 <= i < |before| && a in before[i];
      var b: Kline :| b in page && b.openTime == t;
      assert a in pages[i] && b in pages[|pages| - 1];
    }
  }

  // Pagination does not show in the result: pages in ascending order of open time
  // merge into the segments of all their rows built at once.
  lemma {:induction false} PaginationHomomorphism(base: CoverageSegment, pages: seq<seq<Kline>>, step: int)
    requires PagesAscend(pages)
    requires KeysTellApart(OpenTimes(Flatten(pages)))
    ensures AppendPages(base, pages, step) == CoverOf(base, Flatten(pages), step)
  {
    if pages == [] {
      assert OpenTimes([]) == [];
    } else {
      hide KeptTimes, SortTimes, Runs, AppendAll, KeysTellApart;
      var before, page := Front(pages), Last(pages);
      var p, q := OpenTimes(Flatten(before)), OpenTimes(page);
      assert OpenTimes(Flatten(pages)) == p + q;
      PaginationHomomorphism(base, before, step);
      assert KeysTellApart(p) by {
        KeysOfPart(p, q);
      }
      LastPageIsLater(pages);
      KeptSortedJoin(p, q);
      RunsHomomorphism(base, SortTimes(KeptTimes(p)), SortTimes(KeptTimes(q)), step);
    }
  }

  // ----- The code -----

  // Edits the last destination segment in place when the next one continues it.
  method AppendCoverageSegments(dst: seq<CoverageSegment>, src: seq<CoverageSegment>)
    returns (out: seq<CoverageSegment>)
    ensures out == AppendAll(dst, src)
  {
    out := dst;
    for i := 0 to |src|
      invariant out == AppendAll(dst, src[..i])
    {
      assert Front(src[..i + 1]) == src[..i];
      var seg := src[i];
      if |out| > 0 && CanMerge(out[|out| - 1], seg) {
        var last := out[|out| - 1];
        last := last.(endAt := seg.endAt);
        last := last.(rowCount := last.rowCount + seg.rowCount);
        out := out[|out| - 1 := last];
      } else {
        out := out + [seg];
      }
    }
    assert src[..|src|] == src;
  }

  // A segment carries the labels of a base.
  predicate Labelled(seg: CoverageSegment, base: CoverageSegment) {
    && seg.exchange == base.exchange && seg.market == base.market && seg.symbol == base.symbol
    && seg.interval == base.interval && seg.source == base.source
  }

  lemma {:induction false} RunsLabelled(base: CoverageSegment, times: seq<Time>, step: int)
    ensures forall seg :: seg in Runs(base, times, step) ==> Labelled(seg, base)
  {
    RunsIsCanonicalCover(base, times, step);
    hide Runs, Points, Expand;
    forall seg | seg in Runs(base, times, step) ensures Labelled(seg, base) {
      var i :| 0 <= i < |Runs(base, times, step)| && Runs(base, times, step)[i] == seg;
      assert SegmentOk(base, seg, step);
    }
  }

  // Two segments merge exactly when they are of one stream, year and source and the
  // second starts where the first ends; the merged one runs over both and counts the
  // bars of both.
  lemma {:induction false} MergesExactly(dst: seq<CoverageSegment>, a: CoverageSegment, b: CoverageSegment)
    ensures var out := AppendOne(dst + [a], b);
            if a.exchange == b.exchange && a.market == b.market && a.symbol == b.symbol && a.interval == b.interval
               && a.year == b.year && a.source == b.source && a.endAt == b.startAt then
              && |out| == |dst| + 1 && out[..|dst|] == dst
              && out[|dst|].startAt == a.startAt && out[|dst|].endAt == b.endAt
              && out[|dst|].rowCount == a.rowCount + b.rowCount
              && out[|dst|].year == a.year && Labelled(out[|dst|], a)
            else
              out == dst + [a, b]
  {
    assert Front(dst + [a]) == dst;
  }

  method BuildCoverageSegments(exchange: string, market: string, symbol: string, interval: string, rows: seq<Kline>)
    returns (r: Result<seq<CoverageSegment>>)
    ensures r.Success? <==> CoverageIntervalDuration(interval).Success?
    ensures r.Success? ==>
      r.value == CoverOf(NormalizedBase(exchange, market, symbol, interval), rows,
                         CoverageIntervalDuration(interval).value)
    ensures r.Success? ==> forall seg :: seg in r.value ==>
              && seg.exchange == ToLower(TrimSpace(exchange)) && seg.market == ToLower(TrimSpace(market))
              && seg.symbol == ToUpper(TrimSpace(symbol)) && seg.interval == TrimSpace(interval)
              && seg.source == "historical_backfill"
  {
    var parsed := CoverageIntervalDuration(interval);
    if parsed.Failure? {
      return Failure(parsed.error);
    }
    var step := parsed.value;
    RunsLabelled(NormalizedBase(exchange, market, symbol, interval), SortTimes(KeptTimes(OpenTimes(rows))), step);
    if |rows| == 0 {
      assert OpenTimes(rows) == [];
      return Success([]);
    }
    var openTimes := [];
    var seen: set<int> := {};
    for i := 0 to |rows|
      invariant openTimes == KeptTimes(OpenTimes(rows)[..i])
      invariant seen == Keys(openTimes)
    {
      var openTime := rows[i].openTime;
      assert Front(OpenTimes(rows)[..i + 1]) == OpenTimes(rows)[..i];
      if openTime == ZERO_TIME {
        continue;
      }
      var key := UnixNano(openTime);
      if key in seen {
        continue;
      }
      seen := seen + {key};
      openTimes := openTimes + [openTime];
    }
    assert OpenTimes(rows)[..|rows|] == OpenTimes(rows);
    if |openTimes| == 0 {
      return Success([]);
    }
    openTimes := SortTimes(openTimes);
    var segments := CompressTimes(NormalizedBase(exchange, market, symbol, interval), openTimes, step);
    return Success(segments);
  }

  // The loop's test for continuing a segment is the merge test.
  lemma ContinuesSegment(base: CoverageSegment, start: Time, prev: Time, count: int, current: Time, step: int)
    requires YearOf(start) == YearOf(prev)
    ensures var open := NewCoverageSegment(base, start, prev + step, count);
            && (CanMerge(open, Single(base, current, step)) <==>
                  current == prev + step && YearOf(current) == YearOf(prev))
            && Merge(open, Single(base, current, step)) == NewCoverageSegment(base, start, current + step, count + 1)
  {
    hide YearOf;
  }

  lemma RunsSnoc(base: CoverageSegment, times: seq<Time>, i: nat, step: int)
    requires i < |times|
    ensures Runs(base, times[..i + 1], step) == AppendOne(Runs(base, times[..i], step), Single(base, times[i], step))
  {
    hide AppendOne;
    assert Front(times[..i + 1]) == times[..i];
  }

  lemma AppendAfter(segs: seq<CoverageSegment>, open: CoverageSegment, one: CoverageSegment)
    ensures AppendOne(segs + [open], one) ==
              if CanMerge(open, one) then segs + [Merge(open, one)] else segs + [open] + [one]
  {
    hide CanMerge, Merge;
    assert Front(segs + [open]) == segs;
  }

  lemma RunsOfOne(base: CoverageSegment, t: Time, step: int)
    ensures Runs(base, [t], step) == [Single(base, t, step)]
  {
    hide Single;
    assert Front([t]) == [];
  }

  // The loop that closes a segment at each gap and at each year boundary.
  method CompressTimes(base: CoverageSegment, openTimes: seq<Time>, step: int) returns (segments: seq<CoverageSegment>)
    ensures segments == Runs(base, openTimes, step)
  {
    hide CanMerge, Merge, YearOf, NewCoverageSegment, Runs, AppendOne;
    if |openTimes| == 0 {
      NoRuns(base, step);
      return [];
    }
    segments := [];
    var start, prev, count := openTimes[0], openTimes[0], 1;
    RunsOfOne(base, openTimes[0], step);
    assert openTimes[..1] == [openTimes[0]];
    for i := 1 to |openTimes|
      invariant prev == openTimes[i - 1]
      invariant YearOf(start) == YearOf(prev)
      invariant segments + [NewCoverageSegment(base, start, prev + step, count)] == Runs(base, openTimes[..i], step)
    {
      var current := openTimes[i];
      RunsSnoc(base, openTimes, i, step);
      ghost var open := NewCoverageSegment(base, start, prev + step, count);
      ContinuesSegment(base, start, prev, count, current, step);
      AppendAfter(segments, open, Single(base, current, step));
      if current == prev + step && YearOf(current) == YearOf(prev) {
        prev := current;
        count := count + 1;
      } else {
        segments := segments + [NewCoverageSegment(base, start, prev + step, count)];
        start := current;
        prev := current;
        count := 1;
      }
    }
    segments := segments + [NewCoverageSegment(base, start, prev + step, count)];
    assert openTimes[..|openTimes|] == openTimes;
  }
}
