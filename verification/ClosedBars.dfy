/** Keeping the closed bars of a fetched page, as both live scrapers do. */
module ClosedBars {
  import opened Exchange
  import opened CoverageSegments

  function ClosedOf(page: seq<Bar>, nowMs: int): seq<Bar> {
    if page == [] then []
    else ClosedOf(Front(page), nowMs) + if Last(page).closeMs > nowMs then [] else [Last(page)]
  }

  method FilterClosedKlines(klines: seq<Bar>, nowMs: int) returns (filtered: seq<Bar>)
    ensures filtered == ClosedOf(klines, nowMs)
    ensures |filtered| <= |klines|
  {
    filtered := [];
    for i := 0 to |klines|
      invariant filtered == ClosedOf(klines[..i], nowMs)
      invariant |filtered| <= i
    {
      assert Front(klines[..i + 1]) == klines[..i];
      if klines[i].closeMs > nowMs {
        continue;
      }
      filtered := filtered + [klines[i]];
    }
    assert klines[..|klines|] == klines;
  }

  // The bar is the page's only closed one.
  predicate OnlyClosed(page: seq<Bar>, b: Bar, nowMs: int) {
    exists i :: 0 <= i < |page| && page[i] == b && b.closeMs <= nowMs
                && forall j :: 0 <= j < |page| && j != i ==> page[j].closeMs > nowMs
  }

  // The bar is the page's last closed one.
  predicate LastClosed(page: seq<Bar>, b: Bar, nowMs: int) {
    exists i :: 0 <= i < |page| && page[i] == b && b.closeMs <= nowMs
                && forall j :: i < j < |page| ==> page[j].closeMs > nowMs
  }

  lemma {:induction false} NoneClosed(page: seq<Bar>, nowMs: int)
    ensures ClosedOf(page, nowMs) == [] <==> forall i :: 0 <= i < |page| ==> page[i].closeMs > nowMs
  {
    if page != [] {
      NoneClosed(Front(page), nowMs);
    }
  }

  // What is kept of a page are its closed bars.
  lemma {:induction false} ClosedMembers(page: seq<Bar>, nowMs: int)
    ensures forall b :: b in ClosedOf(page, nowMs) <==> b in page && b.closeMs <= nowMs
  {
    if page != [] {
      ClosedMembers(Front(page), nowMs);
      assert page == Front(page) + [Last(page)];
    }
  }

  // It is one bar exactly if that is the only closed one.
  lemma {:induction false} ClosedOne(page: seq<Bar>, b: Bar, nowMs: int)
    ensures ClosedOf(page, nowMs) == [b] <==> OnlyClosed(page, b, nowMs)
  {
    if page != [] {
      var front, last := Front(page), Last(page);
      ClosedOne(front, b, nowMs);
      NoneClosed(front, nowMs);
      OnlyClosedSnoc(page, b, nowMs);
      var kept := ClosedOf(front, nowMs);
      assert kept + [] == kept;
      assert kept + [last] == [b] <==> kept == [] && last == b by {
        assert kept + [last] == [b] ==> |kept| == 0 && (kept + [last])[0] == last;
      }
    }
  }

  lemma OnlyClosedSnoc(page: seq<Bar>, b: Bar, nowMs: int)
    requires page != []
    ensures Last(page).closeMs > nowMs ==> (OnlyClosed(page, b, nowMs) <==> OnlyClosed(Front(page), b, nowMs))
    ensures Last(page).closeMs <= nowMs ==>
              (OnlyClosed(page, b, nowMs) <==>
               b == Last(page) && forall i :: 0 <= i < |page| - 1 ==> Front(page)[i].closeMs > nowMs)
  {
    var front, n := Front(page), |page| - 1;
    assert forall i :: 0 <= i < n ==> page[i] == front[i];
    if OnlyClosed(front, b, nowMs) && page[n].closeMs > nowMs {
      var i :| 0 <= i < n && front[i] == b && forall j :: 0 <= j < n && j != i ==> front[j].closeMs > nowMs;
      assert page[i] == b;
    }
  }

  // Its last bar is the last closed one.
  lemma {:induction false} ClosedLast(page: seq<Bar>, nowMs: int)
    requires ClosedOf(page, nowMs) != []
    ensures LastClosed(page, Last(ClosedOf(page, nowMs)), nowMs)
  {
    if Last(page).closeMs > nowMs {
      ClosedLast(Front(page), nowMs);
      assert forall i :: 0 <= i < |page| - 1 ==> page[i] == Front(page)[i];
    } else {
      assert page[|page| - 1] == Last(page);
    }
  }

  function RowSet(rows: seq<Bar>): set<Bar> {
    set b | b in rows
  }

  predicate IsSlice(bars: seq<Bar>, i: int, page: seq<Bar>) {
    0 <= i <= i + |page| <= |bars| && page == bars[i..i + |page|]
  }

  predicate ClosesAscend(page: seq<Bar>) {
    forall i, j :: 0 <= i < j < |page| ==> page[i].closeMs < page[j].closeMs
  }

  // The closed bars of an ascending page are its first ones.
  lemma {:induction false} ClosedIsPrefix(page: seq<Bar>, nowMs: int) returns (m: nat)
    requires ClosesAscend(page)
    ensures m <= |page| && ClosedOf(page, nowMs) == page[..m]
    ensures m > 0 ==> page[m - 1].closeMs <= nowMs
    ensures m < |page| ==> page[m].closeMs > nowMs
  {
    m := |page|;
    if page != [] {
      m := ClosedIsPrefix(Front(page), nowMs);
      if Last(page).closeMs <= nowMs {
        m := |page|;
      }
    }
  }

  lemma {:induction false} SlicesAscend(bars: seq<Bar>, i: nat, j: nat)
    requires ValidBars(bars) && i <= j <= |bars|
    ensures ClosesAscend(bars[i..j])
  {
    assert forall x :: i <= x < j ==> bars[i..j][x - i] == bars[x];
  }

  lemma {:induction false} ClosedSlice(bars: seq<Bar>, i: nat, page: seq<Bar>, nowMs: int) returns (j: nat)
    requires ValidBars(bars) && IsSlice(bars, i, page)
    ensures i <= j <= |bars| && ClosedOf(page, nowMs) == bars[i..j]
    ensures i < j ==> bars[j - 1].closeMs <= nowMs
    ensures j - i <= |page| && (j - i < |page| ==> bars[j].closeMs > nowMs)
  {
    SlicesAscend(bars, i, i + |page|);
    hide ValidBars, ClosesAscend;
    var m := ClosedIsPrefix(page, nowMs);
    j := i + m;
    hide ClosedOf;
    assert page[..m] == bars[i..j];
  }
}
