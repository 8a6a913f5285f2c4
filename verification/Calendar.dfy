/** UTC instants, the proleptic Gregorian year, and Go's millisecond and
    nanosecond views of an instant. */
module Calendar {

  // Nanoseconds since 1970-01-01T00:00:00Z. Go's time.Time is wider than int64
  // nanoseconds, so the type is unbounded; only UnixNano narrows it.
  type Time = int

  const NANOS_PER_MILLI := 1_000_000
  const NANOS_PER_SECOND := 1_000_000_000
  const NANOS_PER_DAY := 86_400 * NANOS_PER_SECOND
  const MIN_INT64 := -0x8000_0000_0000_0000
  const MAX_INT64 := 0x7FFF_FFFF_FFFF_FFFF

  // Go's zero time.Time, 0001-01-01T00:00:00Z.
  const ZERO_TIME: Time := -62_135_596_800 * NANOS_PER_SECOND

  // Two's complement wrap-around of int64 arithmetic.
  function Wrap64(x: int): (r: int)
    ensures MIN_INT64 <= r <= MAX_INT64
    ensures MIN_INT64 <= x <= MAX_INT64 ==> r == x
  {
    (x + 0x8000_0000_0000_0000) % 0x1_0000_0000_0000_0000 - 0x8000_0000_0000_0000
  }

  // Wrapping around is arithmetic modulo 2^64.
  lemma Wrap64Congruent(x: int)
    ensures (Wrap64(x) - x) % 0x1_0000_0000_0000_0000 == 0
  {
    var m, b := 0x1_0000_0000_0000_0000, 0x8000_0000_0000_0000;
    assert Wrap64(x) - x == -((x + b) / m) * m;
  }

  function FloorMilli(t: Time): int {
    t / NANOS_PER_MILLI
  }

  function FromMilli(ms: int): Time {
    ms * NANOS_PER_MILLI
  }

  // Section 5.7 and appendix C of RFC 3339: the leap year rule.
  predicate IsLeapYear(y: int) {
    y % 4 == 0 && (y % 100 != 0 || y % 400 == 0)
  }

  function YearDays(y: int): int {
    if IsLeapYear(y) then 366 else 365
  }

  // Days from 1970-01-01 to the first of January of year y, year by year.
  function DaysToYear(y: int): (d: int)
    ensures y < 1970 ==> d < 0
    ensures y > 1970 ==> d > 0
    decreases if y < 1970 then 1970 - y else y - 1970
  {
    if y == 1970 then 0
    else if y > 1970 then DaysToYear(y - 1) + YearDays(y - 1)
    else DaysToYear(y + 1) - YearDays(y)
  }

  // The day count in closed form; it places Go's zero time on 0001-01-01.
  lemma {:induction false} DaysToYearClosedForm(y: int)
    ensures DaysToYear(y) == 365 * (y - 1970) + (y - 1) / 4 - (y - 1) / 100 + (y - 1) / 400 - 477
    decreases if y < 1970 then 1970 - y else y - 1970
  {
    if y > 1970 {
      DaysToYearClosedForm(y - 1);
      LeapDays(y - 1);
    } else if y < 1970 {
      DaysToYearClosedForm(y + 1);
      LeapDays(y);
    }
  }

  lemma Multiples4(y: int)
    ensures y / 4 - (y - 1) / 4 == if y % 4 == 0 then 1 else 0
  {
  }

  lemma Multiples100(y: int)
    ensures y / 100 - (y - 1) / 100 == if y % 100 == 0 then 1 else 0
  {
  }

  lemma Multiples400(y: int)
    ensures y / 400 - (y - 1) / 400 == if y % 400 == 0 then 1 else 0
  {
  }

  lemma HundredTimes(q: int)
    ensures 100 * q % 100 == 0
  {
  }

  lemma FourTimes(q: int)
    ensures 4 * q % 4 == 0
  {
  }

  lemma Centuries(y: int)
    ensures y % 400 == 0 ==> y % 100 == 0
    ensures y % 100 == 0 ==> y % 4 == 0
  {
    var q, r := y / 400, y / 100;
    HundredTimes(4 * q);
    FourTimes(25 * r);
  }

  lemma LeapDays(y: int)
    ensures y / 4 - (y - 1) / 4 - y / 100 + (y - 1) / 100 + y / 400 - (y - 1) / 400 == YearDays(y) - 365
  {
    Multiples4(y);
    Multiples100(y);
    Multiples400(y);
    Centuries(y);
  }

  function Jan1(y: int): Time {
    DaysToYear(y) * NANOS_PER_DAY
  }

  lemma ZeroTimeIsYearOne()
    ensures Jan1(1) == ZERO_TIME
  {
    DaysToYearClosedForm(1);
  }

  lemma NextYear(y: int)
    ensures Jan1(y + 1) == Jan1(y) + YearDays(y) * NANOS_PER_DAY
  {
  }

  lemma {:induction false} Jan1Monotone(a: int, b: int)
    requires a <= b
    ensures Jan1(a) <= Jan1(b)
    ensures a < b ==> Jan1(a) < Jan1(b)
    decreases b - a
  {
    if a < b {
      Jan1Monotone(a, b - 1);
      NextYear(b - 1);
    }
  }

  // The UTC calendar year of an instant: the only y whose first of January is at
  // or before t while that of y + 1 is after it.
  function YearOf(t: Time): (y: int)
    ensures Jan1(y) <= t < Jan1(y + 1)
  {
    SearchYear(t, 1970)
  }

  function SearchYear(t: Time, from: int): (y: int)
    ensures Jan1(y) <= t < Jan1(y + 1)
    decreases t < Jan1(from), if t < Jan1(from) then Jan1(from) - t else t - Jan1(from)
  {
    NextYear(from);
    NextYear(from - 1);
    if t < Jan1(from) then SearchYear(t, from - 1)
    else if t >= Jan1(from + 1) then SearchYear(t, from + 1)
    else from
  }

  lemma YearUnique(t: Time, y: int)
    requires Jan1(y) <= t < Jan1(y + 1)
    ensures YearOf(t) == y
  {
    var z := YearOf(t);
    if z < y {
      Jan1Monotone(z + 1, y);
    } else if y < z {
      Jan1Monotone(y + 1, z);
    }
  }

  // Two instants of one UTC year are less than 367 days apart.
  lemma SameYearGap(s: Time, t: Time)
    requires YearOf(s) == YearOf(t)
    ensures t - s < 367 * NANOS_PER_DAY
  {
    NextYear(YearOf(s));
  }

  // time.Time.UnixNano, with the wrap-around of its int64 result.
  function UnixNano(t: Time): int {
    Wrap64(t)
  }

  lemma UnixNanoInjective(s: Time, t: Time)
    requires -0x1_0000_0000_0000_0000 < s - t < 0x1_0000_0000_0000_0000
    requires UnixNano(s) == UnixNano(t)
    ensures s == t
  {
  }
}
