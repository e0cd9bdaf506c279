/**
 * Calendar dates as the stats store uses them: the "YYYY-MM-DD" keys of the daily
 * buckets, written with `strftime("%Y-%m-%d")` and read back with
 * `datetime.strptime(key, "%Y-%m-%d")`, and the proleptic Gregorian day number
 * (`date.toordinal()`) through which Python compares and shifts dates.
 */
module Dates {
  import opened Wrappers

  datatype Date = Date(year: int, month: int, day: int)

  predicate IsLeapYear(y: int) {
    y % 4 == 0 && (y % 100 != 0 || y % 400 == 0)
  }

  function DaysInMonth(y: int, m: int): (n: int)
    requires 1 <= m <= 12
    ensures 28 <= n <= 31
  {
    if m == 2 then (if IsLeapYear(y) then 29 else 28)
    else if m == 4 || m == 6 || m == 9 || m == 11 then 30
    else 31
  }

  /** A date Python's `date` type can represent (years 1 to 9999). */
  predicate IsValid(d: Date) {
    1 <= d.year <= 9999 && 1 <= d.month <= 12 && 1 <= d.day <= DaysInMonth(d.year, d.month)
  }

  /** A date the clock can report and `strftime("%Y")` renders with four digits. */
  predicate IsClockDate(d: Date) {
    IsValid(d) && 1000 <= d.year
  }

  function DaysBeforeYear(y: int): int
    requires y >= 1
  {
    var y1 := y - 1;
    y1 * 365 + y1 / 4 - y1 / 100 + y1 / 400
  }

  function DaysBeforeMonth(y: int, m: int): int
    requires 1 <= m <= 12
  {
    var before := [0, 31, 59, 90, 120, 151, 181, 212, 243, 273, 304, 334];
    before[m - 1] + (if m > 2 && IsLeapYear(y) then 1 else 0)
  }

  /** `date.toordinal()`: 0001-01-01 is day 1. */
  function Ordinal(d: Date): (n: int)
    requires IsValid(d)
    ensures n >= 1
  {
    DaysBeforeYear(d.year) + DaysBeforeMonth(d.year, d.month) + d.day
  }

  /** Python's `date` comparison: by year, then month, then day. */
  predicate Before(d1: Date, d2: Date) {
    d1.year < d2.year
    || (d1.year == d2.year && (d1.month < d2.month || (d1.month == d2.month && d1.day < d2.day)))
  }

  function DaysInYear(y: int): int {
    if IsLeapYear(y) then 366 else 365
  }

  /** One more year adds that year's length to the day count. */
  lemma DaysBeforeNextYear(y: int)
    requires y >= 1
    ensures DaysBeforeYear(y + 1) == DaysBeforeYear(y) + DaysInYear(y)
  {
    var y1 := y - 1;
    assert y / 4 == y1 / 4 + (if y % 4 == 0 then 1 else 0);
    assert y / 100 == y1 / 100 + (if y % 100 == 0 then 1 else 0);
    assert y / 400 == y1 / 400 + (if y % 400 == 0 then 1 else 0);
  }

  /** Every day of year `y1` comes before the first day of any later year. */
  lemma {:induction false} DaysBeforeYearGrows(y1: int, y2: int)
    requires 1 <= y1 < y2
    ensures DaysBeforeYear(y1) + DaysInYear(y1) <= DaysBeforeYear(y2)
    decreases y2 - y1
  {
    DaysBeforeNextYear(y1);
    if y1 + 1 < y2 {
      DaysBeforeYearGrows(y1 + 1, y2);
    }
  }

  /** The months of a year follow one another without gaps or overlaps. */
  lemma DaysBeforeNextMonth(y: int, m: int)
    requires 1 <= m < 12
    ensures DaysBeforeMonth(y, m + 1) == DaysBeforeMonth(y, m) + DaysInMonth(y, m)
  {
  }

  lemma {:induction false} DaysBeforeMonthGrows(y: int, m1: int, m2: int)
    requires 1 <= m1 < m2 <= 12
    ensures DaysBeforeMonth(y, m1) + DaysInMonth(y, m1) <= DaysBeforeMonth(y, m2)
    decreases m2 - m1
  {
    DaysBeforeNextMonth(y, m1);
    if m1 + 1 < m2 {
      DaysBeforeMonthGrows(y, m1 + 1, m2);
    }
  }

  /** A valid date falls inside its own year. */
  lemma DayOfYearBounds(d: Date)
    requires IsValid(d)
    ensures 1 <= DaysBeforeMonth(d.year, d.month) + d.day <= DaysInYear(d.year)
  {
  }

  lemma OrdinalBefore(d1: Date, d2: Date)
    requires IsValid(d1) && IsValid(d2) && Before(d1, d2)
    ensures Ordinal(d1) < Ordinal(d2)
  {
    if d1.year < d2.year {
      DayOfYearBounds(d1);
      DayOfYearBounds(d2);
      DaysBeforeYearGrows(d1.year, d2.year);
    } else if d1.month < d2.month {
      DaysBeforeMonthGrows(d1.year, d1.month, d2.month);
    }
  }

  /**
   * Day numbers order valid dates exactly as Python compares `date` objects, and two
   * dates have the same day number only when they are the same date. So the window test
   * `cutoff <= d <= today` is a comparison of day numbers.
   */
  lemma OrdinalOrder(d1: Date, d2: Date)
    requires IsValid(d1) && IsValid(d2)
    ensures Before(d1, d2) <==> Ordinal(d1) < Ordinal(d2)
    ensures d1 == d2 <==> Ordinal(d1) == Ordinal(d2)
  {
    if Before(d1, d2) {
      OrdinalBefore(d1, d2);
    } else if Before(d2, d1) {
      OrdinalBefore(d2, d1);
    }
  }

  predicate IsDigit(c: char) {
    '0' <= c <= '9'
  }

  function DigitValue(c: char): (v: int)
    requires IsDigit(c)
    ensures 0 <= v <= 9
  {
    c as int - '0' as int
  }

  function DigitChar(v: int): (c: char)
    requires 0 <= v <= 9
    ensures IsDigit(c) && DigitValue(c) == v
  {
    ('0' as int + v) as char
  }

  /** `%Y` in strptime: exactly four digits. */
  function ParseYear(s: string): (r: Option<int>)
    requires |s| == 4
    ensures r.Some? ==> 0 <= r.value <= 9999
  {
    if IsDigit(s[0]) && IsDigit(s[1]) && IsDigit(s[2]) && IsDigit(s[3]) then
      Some(1000 * DigitValue(s[0]) + 100 * DigitValue(s[1]) + 10 * DigitValue(s[2]) + DigitValue(s[3]))
    else None
  }

  /**
   * `%m` in strptime, the pattern `1[0-2]|0[1-9]|[1-9]` matched at the start of `s`:
   * the first alternative that matches wins. Returns the month and the characters consumed.
   */
  function ParseMonth(s: string): (r: Option<(int, nat)>)
    ensures r.Some? ==> 1 <= r.value.0 <= 12 && 1 <= r.value.1 <= 2 && r.value.1 <= |s|
  {
    if |s| >= 2 && s[0] == '1' && '0' <= s[1] <= '2' then Some((10 + DigitValue(s[1]), 2))
    else if |s| >= 2 && s[0] == '0' && '1' <= s[1] <= '9' then Some((DigitValue(s[1]), 2))
    else if |s| >= 1 && '1' <= s[0] <= '9' then Some((DigitValue(s[0]), 1))
    else None
  }

  /**
   * `%d` in strptime, the pattern `3[01]|[12]\d|0[1-9]|[1-9]| [1-9]` matched at the
   * start of `s`, first matching alternative first. Returns the day and the characters consumed.
   */
  function ParseDay(s: string): (r: Option<(int, nat)>)
    ensures r.Some? ==> 1 <= r.value.0 <= 31 && 1 <= r.value.1 <= 2 && r.value.1 <= |s|
  {
    if |s| >= 2 && s[0] == '3' && '0' <= s[1] <= '1' then Some((30 + DigitValue(s[1]), 2))
    else if |s| >= 2 && '1' <= s[0] <= '2' && IsDigit(s[1]) then Some((10 * DigitValue(s[0]) + DigitValue(s[1]), 2))
    else if |s| >= 2 && s[0] == '0' && '1' <= s[1] <= '9' then Some((DigitValue(s[1]), 2))
    else if |s| >= 1 && '1' <= s[0] <= '9' then Some((DigitValue(s[0]), 1))
    else if |s| >= 2 && s[0] == ' ' && '1' <= s[1] <= '9' then Some((DigitValue(s[1]), 2))
    else None
  }

  /**
   * `datetime.strptime(s, "%Y-%m-%d").date()`, as a day number: `None` where Python raises
   * `ValueError` (no match, unconverted data left over, or no such calendar date).
   */
  function ParseDate(s: string): (r: Option<int>)
    ensures r.Some? ==> exists d :: IsValid(d) && r.value == Ordinal(d)
  {
    if |s| < 5 || s[4] != '-' then None
    else
      var year, month := ParseYear(s[..4]), ParseMonth(s[5..]);
      if year.None? || month.None? then None
      else
        var rest := s[5 + month.value.1..];
        if |rest| == 0 || rest[0] != '-' then None
        else
          var day := ParseDay(rest[1..]);
          if day.None? || day.value.1 != |rest| - 1 then None
          else
            var date := Date(year.value, month.value.0, day.value.0);
            if IsValid(date) then Some(Ordinal(date)) else None
  }

  function Pad2(v: int): (s: string)
    requires 0 <= v <= 99
    ensures |s| == 2
  {
    [DigitChar(v / 10), DigitChar(v % 10)]
  }

  function Pad4(v: int): (s: string)
    requires 0 <= v <= 9999
    ensures |s| == 4
  {
    [DigitChar(v / 1000), DigitChar(v / 100 % 10), DigitChar(v / 10 % 10), DigitChar(v % 10)]
  }

  /** `d.strftime("%Y-%m-%d")`. */
  function FormatDate(d: Date): (s: string)
    requires IsClockDate(d)
    ensures |s| == 10 && s[4] == '-' && s[7] == '-'
  {
    Pad4(d.year) + "-" + Pad2(d.month) + "-" + Pad2(d.day)
  }

  lemma ParseYearPad4(y: int)
    requires 0 <= y <= 9999
    ensures ParseYear(Pad4(y)) == Some(y)
  {
    var q1, q2 := y / 10, y / 100;
    assert q2 == q1 / 10;
    assert y / 1000 == q2 / 10;
  }

  lemma ParseMonthPad2(m: int, tail: string)
    requires 1 <= m <= 12
    ensures ParseMonth(Pad2(m) + tail) == Some((m, 2))
  {
  }

  lemma ParseDayPad2(d: int)
    requires 1 <= d <= 31
    ensures ParseDay(Pad2(d)) == Some((d, 2))
  {
  }

  /** Every key `record_event` writes is read back by `unique_users_in_range` as the same day. */
  lemma ParseFormatRoundTrip(d: Date)
    requires IsClockDate(d)
    ensures ParseDate(FormatDate(d)) == Some(Ordinal(d))
  {
    var s := FormatDate(d);
    assert s[..4] == Pad4(d.year);
    ParseYearPad4(d.year);
    assert s[5..] == Pad2(d.month) + "-" + Pad2(d.day);
    ParseMonthPad2(d.month, "-" + Pad2(d.day));
    assert s[7..] == "-" + Pad2(d.day);
    assert s[7..][1..] == Pad2(d.day);
    ParseDayPad2(d.day);
  }
}
