/** The exchange's REST kline endpoint, as an oracle over a fixed list of bars. */
module Exchange {
  import opened Calendar

  datatype Bar = Bar(openMs: int, closeMs: int, payload: string)

  // Bars of 1970 or later, in ascending order, that do not overlap.
  predicate ValidBars(bars: seq<Bar>) {
    && (forall i :: 0 <= i < |bars| ==> 0 <= bars[i].openMs < bars[i].closeMs < MAX_INT64)
    && (forall i, j :: 0 <= i < j < |bars| ==> bars[i].closeMs < bars[j].openMs)
  }

  // How many of the bars opened before an instant.
  function OpenedBefore(bars: seq<Bar>, ms: int): (n: nat)
    requires ValidBars(bars)
    ensures n <= |bars|
    ensures forall i :: 0 <= i < n ==> bars[i].openMs < ms
    ensures forall i :: n <= i < |bars| ==> bars[i].openMs >= ms
  {
    if bars == [] then 0
    else if bars[|bars| - 1].openMs < ms then |bars|
    else OpenedBefore(bars[..|bars| - 1], ms)
  }

  lemma OpenedBeforeIs(bars: seq<Bar>, ms: int, n: nat)
    requires ValidBars(bars) && n <= |bars|
    requires n > 0 ==> bars[n - 1].openMs < ms
    requires n < |bars| ==> bars[n].openMs >= ms
    ensures OpenedBefore(bars, ms) == n
  {
  }

  lemma OpenedBeforeMonotone(bars: seq<Bar>, a: int, b: int)
    requires ValidBars(bars) && a <= b
    ensures OpenedBefore(bars, a) <= OpenedBefore(bars, b)
  {
    var n := OpenedBefore(bars, b);
    assert n < |bars| ==> bars[n].openMs >= b;
  }

  // The bars opened in [startMs, endMs], oldest first.
  function Listed(bars: seq<Bar>, startMs: int, endMs: int): seq<Bar>
    requires ValidBars(bars)
  {
    if endMs + 1 < startMs then []
    else
      OpenedBeforeMonotone(bars, startMs, endMs + 1);
      bars[OpenedBefore(bars, startMs)..OpenedBefore(bars, endMs + 1)]
  }

  // A page of a limited listing: its oldest bars, and at least one if there is any.
  predicate FaithfulPage(bars: seq<Bar>, startMs: int, endMs: int, page: seq<Bar>)
    requires ValidBars(bars)
  {
    && page <= Listed(bars, startMs, endMs)
    && (page == [] ==> Listed(bars, startMs, endMs) == [])
  }

  // Reading past the close of a page's last bar continues exactly after the page.
  lemma PageAdvances(bars: seq<Bar>, startMs: int, endMs: int, page: seq<Bar>)
    requires ValidBars(bars) && FaithfulPage(bars, startMs, endMs, page) && page != []
    ensures var n := OpenedBefore(bars, startMs);
            && n + |page| <= OpenedBefore(bars, endMs + 1)
            && page == bars[n..n + |page|]
            && OpenedBefore(bars, page[|page| - 1].closeMs + 1) == n + |page|
            && startMs < page[|page| - 1].closeMs
  {
    var n := OpenedBefore(bars, startMs);
    assert startMs <= endMs + 1;
    OpenedBeforeMonotone(bars, startMs, endMs + 1);
    var last := bars[n + |page| - 1];
    assert page[|page| - 1] == last;
    OpenedBeforeIs(bars, last.closeMs + 1, n + |page|);
  }
}
