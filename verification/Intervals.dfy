/** Text normalisation and the two interval parsers (ASCII text). */
module Intervals {
  import opened Wrappers
  import opened Calendar

  predicate IsSpace(c: char) {
    c == ' ' || '\t' <= c <= '\r'
  }

  predicate IsDigit(c: char) {
    '0' <= c <= '9'
  }

  predicate IsAlnum(c: char) {
    IsDigit(c) || 'a' <= c <= 'z' || 'A' <= c <= 'Z'
  }

  function Lower(c: char): char {
    if 'A' <= c <= 'Z' then c + 32 as char else c
  }

  function Upper(c: char): char {
    if 'a' <= c <= 'z' then c - 32 as char else c
  }

  function ToLower(s: string): string {
    seq(|s|, i requires 0 <= i < |s| => Lower(s[i]))
  }

  function ToUpper(s: string): string {
    seq(|s|, i requires 0 <= i < |s| => Upper(s[i]))
  }

  predicate Trimmed(s: string) {
    s == "" || (!IsSpace(s[0]) && !IsSpace(s[|s| - 1]))
  }

  // strings.TrimSpace.
  function TrimSpace(s: string): (r: string)
    ensures Trimmed(r)
    ensures Trimmed(s) ==> r == s
    decreases |s|
  {
    if s == "" then s
    else if IsSpace(s[0]) then TrimSpace(s[1..])
    else if IsSpace(s[|s| - 1]) then TrimSpace(s[..|s| - 1])
    else s
  }

  lemma LowerTrimmed(s: string)
    requires Trimmed(s)
    ensures Trimmed(ToLower(s)) && ToLower(ToLower(s)) == ToLower(s)
  {
  }

  lemma UpperTrimmed(s: string)
    requires Trimmed(s)
    ensures Trimmed(ToUpper(s)) && ToUpper(ToUpper(s)) == ToUpper(s)
  {
  }

  function Digits(s: string): (r: Option<nat>) {
    if s == "" then None
    else if !IsDigit(s[|s| - 1]) then None
    else
      var low := (s[|s| - 1] - '0') as nat;
      if |s| == 1 then Some(low)
      else match Digits(s[..|s| - 1])
        case None => None
        case Some(high) => Some(10 * high + low)
  }

  // strconv.Atoi: an optional sign, then decimal digits, within int64.
  function Atoi(s: string): Option<int> {
    var signed := s != "" && (s[0] == '-' || s[0] == '+');
    match Digits(if signed then s[1..] else s)
    case None => None
    case Some(n) =>
      var v: int := if signed && s[0] == '-' then -(n as int) else n;
      if MIN_INT64 <= v <= MAX_INT64 then Some(v) else None
  }

  // Nanoseconds per unit letter.
  function UnitNanos(unit: char): Option<nat> {
    match unit
    case 's' => Some(NANOS_PER_SECOND)
    case 'm' => Some(60 * NANOS_PER_SECOND)
    case 'h' => Some(3600 * NANOS_PER_SECOND)
    case 'd' => Some(NANOS_PER_DAY)
    case 'w' => Some(7 * NANOS_PER_DAY)
    case 'M' => Some(30 * NANOS_PER_DAY)
    case _ => None
  }

  function IntervalDuration(interval: string): Result<int> {
    if |interval| < 2 then Failure("invalid interval")
    else
      var value := Atoi(interval[..|interval| - 1]);
      if value.None? || value.value <= 0 then Failure("invalid interval")
      else match UnitNanos(interval[|interval| - 1])
        case None => Failure("invalid interval unit")
        case Some(unit) => Success(Wrap64(value.value * unit))
  }

  function CoverageIntervalDuration(interval: string): Result<int> {
    var interval := TrimSpace(interval);
    if |interval| < 2 then Failure("invalid interval")
    else
      var value := Atoi(interval[..|interval| - 1]);
      if value.None? || value.value <= 0 then Failure("invalid interval")
      else match interval[|interval| - 1]
        case 's' => Success(Wrap64(value.value * NANOS_PER_SECOND))
        case 'm' => Success(Wrap64(value.value * 60 * NANOS_PER_SECOND))
        case 'h' => Success(Wrap64(value.value * 3600 * NANOS_PER_SECOND))
        case 'd' => Success(Wrap64(value.value * NANOS_PER_DAY))
        case _ => Failure("invalid interval unit")
  }

  predicate IsCalendarUnit(interval: string) {
    |interval| >= 1 && (interval[|interval| - 1] == 'w' || interval[|interval| - 1] == 'M')
  }

  lemma {:induction false} DigitsOnly(s: string)
    requires Digits(s).Some?
    ensures s != "" && IsDigit(s[0])
  {
    if |s| > 1 {
      DigitsOnly(s[..|s| - 1]);
    }
  }

  // The request parser takes no surrounding white space.
  lemma {:induction false} RequestParserNeedsTrimmed(interval: string)
    requires IntervalDuration(interval).Success?
    ensures Trimmed(interval)
  {
    var number := interval[..|interval| - 1];
    assert number[0] == interval[0];
    if number[0] != '-' && number[0] != '+' {
      DigitsOnly(number);
    }
  }

  lemma {:induction false} TrimmedParsers(interval: string)
    requires Trimmed(interval)
    ensures CoverageIntervalDuration(interval).Success? <==>
              IntervalDuration(interval).Success? && !IsCalendarUnit(interval)
    ensures CoverageIntervalDuration(interval).Success? ==>
              CoverageIntervalDuration(interval) == IntervalDuration(interval)
  {
    assert TrimSpace(interval) == interval;
    hide TrimSpace, Trimmed, Atoi, Wrap64;
  }

  // For any text, the coverage parser accepts exactly what the request parser makes
  // of its trimmed form, with the same duration, except the week and month units;
  // the request parser itself accepts trimmed text only.
  lemma {:induction false} IntervalParsersDiffer(interval: string)
    ensures CoverageIntervalDuration(interval).Success? <==>
            IntervalDuration(TrimSpace(interval)).Success? && !IsCalendarUnit(TrimSpace(interval))
    ensures CoverageIntervalDuration(interval).Success? ==>
            CoverageIntervalDuration(interval) == IntervalDuration(TrimSpace(interval))
    ensures IntervalDuration(interval).Success? ==> Trimmed(interval)
    ensures CoverageIntervalDuration(interval).Success? && IntervalDuration(interval).Success? <==>
            IntervalDuration(interval).Success? && !IsCalendarUnit(interval)
  {
    TrimmedParsers(TrimSpace(interval));
    assert CoverageIntervalDuration(interval) == CoverageIntervalDuration(TrimSpace(interval));
    hide CoverageIntervalDuration, IntervalDuration, TrimSpace, Trimmed;
    if IntervalDuration(interval).Success? {
      RequestParserNeedsTrimmed(interval);
    }
  }

  // ----- Durations, by the number and the unit -----

  function Digit(n: nat): char
    requires n < 10
  {
    '0' + n as char
  }

  // A number as the %d verb writes it.
  function Decimal(n: int): (s: string)
    ensures s != ""
    decreases n < 0, if n < 0 then -n else n
  {
    if n < 0 then "-" + Decimal(-n)
    else if n < 10 then [Digit(n)]
    else Decimal(n / 10) + [Digit(n % 10)]
  }

  lemma {:induction false} DecimalReadsBack(n: nat)
    ensures Digits(Decimal(n)) == Some(n) && IsDigit(Decimal(n)[0]) && IsDigit(Decimal(n)[|Decimal(n)| - 1])
  {
    if n >= 10 {
      DecimalReadsBack(n / 10);
      assert Decimal(n)[..|Decimal(n)| - 1] == Decimal(n / 10);
    }
  }

  lemma {:induction false} AtoiReadsBack(n: int)
    ensures Atoi(Decimal(n)) == if MIN_INT64 <= n <= MAX_INT64 then Some(n) else None
    ensures Trimmed(Decimal(n)) && IsDigit(Decimal(n)[|Decimal(n)| - 1])
  {
    if n < 0 {
      DecimalReadsBack(-n);
      assert Decimal(n)[1..] == Decimal(-n);
    } else {
      DecimalReadsBack(n);
    }
  }

  // The nanoseconds of a number of seconds, minutes, hours, days, weeks or months of
  // 30 days, as int64 arithmetic has them. Zero, negative numbers, numbers beyond int64 and other units
  // are refused, and the coverage parser refuses weeks and months as well.
  lemma {:induction false} DurationOf(n: int, unit: char)
    ensures var text := Decimal(n) + [unit];
            var inRange := 0 < n <= 9_223_372_036_854_775_807;
            match unit
            case 's' => if inRange then BothParsers(text, n * 1_000_000_000) else NoParser(text)
            case 'm' => if inRange then BothParsers(text, n * 60_000_000_000) else NoParser(text)
            case 'h' => if inRange then BothParsers(text, n * 3_600_000_000_000) else NoParser(text)
            case 'd' => if inRange then BothParsers(text, n * 86_400_000_000_000) else NoParser(text)
            case 'w' => if inRange then RequestParserOnly(text, n * 604_800_000_000_000) else NoParser(text)
            case 'M' => if inRange then RequestParserOnly(text, n * 2_592_000_000_000_000) else NoParser(text)
            case _ => NoParser(text)
  {
    var text := Decimal(n) + [unit];
    AtoiReadsBack(n);
    assert text[..|text| - 1] == Decimal(n);
    assert Trimmed(text) || IsSpace(unit);
    hide Decimal, Atoi, Digits, Wrap64, TrimSpace;
    if IsSpace(unit) {
      DigitsAreAUnit(n, unit);
    }
  }

  predicate BothParsers(text: string, nanos: int) {
    IntervalDuration(text) == CoverageIntervalDuration(text) == Success(Wrap64(nanos))
  }

  predicate RequestParserOnly(text: string, nanos: int) {
    IntervalDuration(text) == Success(Wrap64(nanos)) && CoverageIntervalDuration(text).Failure?
  }

  predicate NoParser(text: string) {
    IntervalDuration(text).Failure? && CoverageIntervalDuration(text).Failure?
  }

  // A number followed by white space is a number whose last digit is no unit.
  lemma DigitsAreAUnit(n: int, unit: char)
    requires IsSpace(unit)
    ensures CoverageIntervalDuration(Decimal(n) + [unit]).Failure?
  {
    var text := Decimal(n) + [unit];
    AtoiReadsBack(n);
    assert text[..|text| - 1] == Decimal(n);
    assert TrimSpace(text) == Decimal(n);
    hide Decimal, TrimSpace, Atoi, Digits;
  }

  // An accepted text is an unsigned or plus-signed decimal number and a unit.
  lemma {:induction false} AcceptedText(text: string)
    requires IntervalDuration(text).Success?
    ensures |text| >= 2 && text[|text| - 1] in "smhdwM" && (IsDigit(text[0]) || text[0] == '+')
    ensures forall i :: 0 < i < |text| - 1 ==> IsDigit(text[i])
  {
    var number := text[..|text| - 1];
    assert number[0] == text[0];
    if number[0] == '-' || number[0] == '+' {
      AllDigits(number[1..]);
      forall i | 0 < i < |text| - 1 ensures IsDigit(text[i]) {
        assert text[i] == number[1..][i - 1];
      }
    } else {
      AllDigits(number);
      forall i | 0 <= i < |text| - 1 ensures IsDigit(text[i]) {
        assert text[i] == number[i];
      }
    }
  }

  lemma {:induction false} AllDigits(s: string)
    requires Digits(s).Some?
    ensures forall i :: 0 <= i < |s| ==> IsDigit(s[i])
  {
    if |s| > 1 {
      AllDigits(s[..|s| - 1]);
      assert forall i :: 0 <= i < |s| - 1 ==> s[i] == s[..|s| - 1][i];
    }
  }

  // ----- Normalised text -----

  // Trimming takes off the white space around a text and nothing else.
  lemma {:induction false} TrimSpaceKeeps(pre: string, s: string, post: string)
    requires forall c :: c in pre + post ==> IsSpace(c)
    requires Trimmed(s)
    ensures TrimSpace(pre + s + post) == s
    decreases |pre| + |post|
  {
    var text := pre + s + post;
    if pre != [] {
      assert text[0] == pre[0] && text[1..] == pre[1..] + s + post;
      assert forall c :: c in pre[1..] + post ==> c in pre + post;
      TrimSpaceKeeps(pre[1..], s, post);
    } else if s == [] && post != [] {
      assert text[0] == post[0] && text[1..] == pre + s + post[1..];
      assert forall c :: c in pre + post[1..] ==> c in pre + post;
      TrimSpaceKeeps(pre, s, post[1..]);
    } else if post != [] {
      var shorter := post[..|post| - 1];
      assert text[|text| - 1] == post[|post| - 1] && text[..|text| - 1] == pre + s + shorter;
      assert forall c :: c in pre + shorter ==> c in pre + post;
      TrimSpaceKeeps(pre, s, shorter);
    } else {
      assert text == s;
    }
  }

  // Changing case exchanges the letters of the two alphabets and keeps everything else.
  lemma CaseByLetter(s: string, i: nat)
    requires i < |s|
    ensures |ToLower(s)| == |ToUpper(s)| == |s|
    ensures CasesOf(s[i], ToLower(s)[i], ToUpper(s)[i], "ABCDEFGHIJKLMNOPQRSTUVWXYZ", "abcdefghijklmnopqrstuvwxyz")
  {
    var upper, lower := "ABCDEFGHIJKLMNOPQRSTUVWXYZ", "abcdefghijklmnopqrstuvwxyz";
    forall j | 0 <= j < 26 ensures upper[j] == 'A' + j as char && lower[j] == 'a' + j as char {
    }
    CasesInTables(s[i], upper, lower);
  }

  // A character in lower and in upper case, by the tables of the two alphabets.
  predicate CasesOf(c: char, low: char, up: char, upper: string, lower: string) {
    && |upper| == |lower|
    && (forall j :: 0 <= j < |upper| && c == upper[j] ==> low == lower[j] && up == c)
    && (forall j :: 0 <= j < |lower| && c == lower[j] ==> up == upper[j] && low == c)
    && (c !in upper && c !in lower ==> low == up == c)
  }

  lemma CasesInTables(c: char, upper: string, lower: string)
    requires |upper| == |lower| == 26
    requires forall j :: 0 <= j < 26 ==> upper[j] == 'A' + j as char && lower[j] == 'a' + j as char
    ensures CasesOf(c, Lower(c), Upper(c), upper, lower)
  {
    if 'A' <= c <= 'Z' {
      assert upper[c as int - 'A' as int] == c;
    } else if 'a' <= c <= 'z' {
      assert lower[c as int - 'a' as int] == c;
    }
  }

  // A text is split in one way at the first occurrence of a separator.
  lemma SplitAt(sep: char, x: string, r: string, y: string, s: string)
    requires sep !in x && sep !in y && x + [sep] + r == y + [sep] + s
    ensures x == y && r == s
  {
    var whole := x + [sep] + r;
    assert forall k :: 0 <= k < |x| ==> whole[k] == x[k];
    assert forall k :: 0 <= k < |y| ==> whole[k] == y[k];
    assert whole[|x|] == sep && whole[|y|] == sep;
    assert x == whole[..|x|] && y == whole[..|y|] && r == whole[|x| + 1..] && s == whole[|y| + 1..];
  }
}
