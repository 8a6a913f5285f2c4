/** Splitting a time range at UTC year boundaries. */
module YearWindows {
  import opened Calendar

  datatype Window = Window(start: Time, end: Time) {
    function Year(): int {
      YearOf(start)
    }
  }

  function SplitYears(start: Time, end: Time): seq<Window>
    decreases end - start
  {
    if end <= start then []
    else
      var nextYear := Jan1(YearOf(start) + 1);
      var windowEnd := if nextYear < end then nextYear else end;
      [Window(start, windowEnd)] + SplitYears(windowEnd, end)
  }

  // Non-empty windows, end to end from start to end, each inside one UTC year and
  // no two in the same year.
  predicate Tiles(windows: seq<Window>, start: Time, end: Time) {
    && (windows == [] <==> end <= start)
    && (windows != [] ==> windows[0].start == start && windows[|windows| - 1].end == end)
    && (forall i :: 0 <= i < |windows| ==> windows[i].start < windows[i].end)
    && (forall i :: 0 < i < |windows| ==> windows[i - 1].end == windows[i].start)
    && (forall i, t :: 0 <= i < |windows| && windows[i].start <= t < windows[i].end ==> YearOf(t) == windows[i].Year())
    && (forall i, j :: 0 <= i < j < |windows| ==> windows[i].Year() < windows[j].Year())
  }

  lemma SameYear(t: Time, start: Time)
    requires start <= t < Jan1(YearOf(start) + 1)
    ensures YearOf(t) == YearOf(start)
  {
    YearUnique(t, YearOf(start));
  }

  lemma {:induction false} YearWindowsTile(start: Time, end: Time)
    ensures Tiles(SplitYears(start, end), start, end)
    decreases end - start
  {
    hide YearOf, Jan1, Tiles;
    if start < end {
      var nextYear := Jan1(YearOf(start) + 1);
      var windowEnd := if nextYear < end then nextYear else end;
      YearWindowsTile(windowEnd, end);
      TilesCons(Window(start, windowEnd), SplitYears(windowEnd, end), end);
    } else {
      assert Tiles([], start, end) by {
        NoTiles(start, end);
      }
    }
  }

  lemma NoTiles(start: Time, end: Time)
    requires end <= start
    ensures Tiles([], start, end)
  {
    hide YearOf, Jan1;
  }

  // A window up to the year's end, or up to the end of the range, in front of a
  // tiling of the rest.
  lemma TilesCons(first: Window, rest: seq<Window>, end: Time)
    requires Tiles(rest, first.end, end)
    requires first.start < first.end <= end && first.end <= Jan1(first.Year() + 1)
    requires first.end < end ==> first.end == Jan1(first.Year() + 1)
    ensures Tiles([first] + rest, first.start, end)
  {
    hide YearOf, Jan1;
    var windows := [first] + rest;
    ConsInYear(first, rest, end);
    ConsYears(first, rest, end);
    forall i | 0 < i < |windows| ensures windows[i - 1].end == windows[i].start {
      assert windows[i] == rest[i - 1];
    }
  }

  lemma ConsInYear(first: Window, rest: seq<Window>, end: Time)
    requires Tiles(rest, first.end, end)
    requires first.end <= Jan1(first.Year() + 1)
    ensures var windows := [first] + rest;
            forall i, t :: 0 <= i < |windows| && windows[i].start <= t < windows[i].end ==>
                YearOf(t) == windows[i].Year()
  {
    hide YearOf, Jan1;
    var windows := [first] + rest;
    forall i, t | 0 <= i < |windows| && windows[i].start <= t < windows[i].end
      ensures YearOf(t) == windows[i].Year()
    {
      if i == 0 {
        SameYear(t, first.start);
      } else {
        assert windows[i] == rest[i - 1];
      }
    }
  }

  lemma ConsYears(first: Window, rest: seq<Window>, end: Time)
    requires Tiles(rest, first.end, end)
    requires rest != [] ==> first.end == Jan1(first.Year() + 1)
    ensures forall i, j :: 0 <= i < j < |rest| + 1 ==> ([first] + rest)[i].Year() < ([first] + rest)[j].Year()
  {
    hide YearOf, Jan1;
    var windows := [first] + rest;
    if rest != [] {
      YearAdvances(first.start, first.end);
      forall i, j | 0 <= i < j < |windows| ensures windows[i].Year() < windows[j].Year() {
        assert windows[j] == rest[j - 1];
        if i > 0 {
          assert windows[i] == rest[i - 1];
        } else if j > 1 {
          assert rest[0].Year() < rest[j - 1].Year();
        }
      }
    }
  }

  lemma YearAdvances(start: Time, nextYear: Time)
    requires nextYear == Jan1(YearOf(start) + 1)
    ensures YearOf(nextYear) > YearOf(start)
  {
    NextYear(YearOf(start) + 1);
    YearUnique(nextYear, YearOf(start) + 1);
  }

  lemma TilingHead(windows: seq<Window>, start: Time, end: Time)
    requires windows != [] && Tiles(windows, start, end)
    ensures windows[0].start == start < windows[0].end
    ensures var nextYear := Jan1(YearOf(start) + 1);
            windows[0].end == if nextYear < end then nextYear else end
  {
    hide YearOf, Jan1;
    var first, nextYear := windows[0], Jan1(YearOf(start) + 1);
    YearAdvances(start, nextYear);
    assert first.end <= nextYear;
    EndsAscend(windows[1..]);
    if |windows| > 1 {
      assert windows[0].end == windows[1].start && windows[0].Year() < windows[1].Year();
      if first.end < nextYear {
        SameYear(first.end, start);
      }
    }
  }

  lemma TilingTail(windows: seq<Window>, start: Time, end: Time)
    requires windows != [] && Tiles(windows, start, end)
    ensures Tiles(windows[1..], windows[0].end, end)
  {
    hide YearOf, Jan1;
    var rest := windows[1..];
    assert forall i :: 0 <= i < |rest| ==> rest[i] == windows[i + 1];
    assert |windows| > 1 ==> windows[1].start == windows[0].end;
    EndsAscend(rest);
  }

  // There is no other way to tile the range.
  lemma {:induction false} TilingUnique(windows: seq<Window>, start: Time, end: Time)
    requires Tiles(windows, start, end)
    ensures windows == SplitYears(start, end)
    decreases |windows|
  {
    hide YearOf, Jan1;
    if windows != [] {
      TilingHead(windows, start, end);
      TilingTail(windows, start, end);
      TilingUnique(windows[1..], windows[0].end, end);
      assert windows == [windows[0]] + windows[1..];
    }
  }

  lemma {:induction false} EndsAscend(windows: seq<Window>)
    requires forall i :: 0 <= i < |windows| ==> windows[i].start < windows[i].end
    requires forall i :: 0 < i < |windows| ==> windows[i - 1].end == windows[i].start
    ensures windows != [] ==> windows[0].start < windows[|windows| - 1].end
  {
    if |windows| > 1 {
      EndsAscend(windows[..|windows| - 1]);
      assert windows[|windows| - 2].end == windows[|windows| - 1].start;
    }
  }

  // Every window but the first starts with its year.
  lemma InnerStartsAreNewYears(windows: seq<Window>, start: Time, end: Time, i: nat)
    requires Tiles(windows, start, end) && 0 < i < |windows|
    ensures windows[i].start == Jan1(windows[i].Year())
  {
    hide YearOf, Jan1;
    var before, w := windows[i - 1], windows[i];
    assert before.end == w.start;
    assert YearOf(w.start - 1) == before.Year();
    if Jan1(w.Year()) < w.start {
      YearUnique(w.start - 1, w.Year());
    }
  }

  lemma WindowsInOneYear(windows: seq<Window>, start: Time, end: Time, i: nat)
    requires Tiles(windows, start, end) && i < |windows|
    ensures windows[i].end <= Jan1(windows[i].Year() + 1)
  {
    hide YearOf, Jan1;
    assert YearOf(windows[i].end - 1) == windows[i].Year();
  }

  method SplitByYear(start: Time, end: Time) returns (out: seq<Window>)
    ensures out == SplitYears(start, end)
  {
    if end <= start {
      return [];
    }
    out := [];
    var cur := start;
    while cur < end
      invariant cur <= end
      invariant out + SplitYears(cur, end) == SplitYears(start, end)
      decreases end - cur
    {
      var nextYear := Jan1(YearOf(cur) + 1);
      var windowEnd := end;
      if nextYear < windowEnd {
        windowEnd := nextYear;
      }
      out := out + [Window(cur, windowEnd)];
      cur := windowEnd;
    }
  }
}
