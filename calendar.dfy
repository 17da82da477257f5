/** The UTC calendar date of a Unix timestamp, written `[Year]-[Month]-[Day]`
    (what `OffsetDateTime::from_unix_timestamp(..).format(..)` yields in
    `tc3_sign`). Days are counted in the proleptic Gregorian calendar from
    0001-01-01; the date of a day number is found by walking years and then
    months, and is checked against the plain count of days before a date. */
module Calendar {
  import opened Wrappers
  import opened Decimal

  datatype Date = Date(year: int, month: int, day: int)

  predicate IsLeapYear(y: int) {
    y % 4 == 0 && (y % 100 != 0 || y % 400 == 0)
  }

  function DaysInYear(y: int): nat {
    if IsLeapYear(y) then 366 else 365
  }

  function DaysInMonth(y: int, m: int): nat
    requires 1 <= m <= 12
  {
    if m == 2 then (if IsLeapYear(y) then 29 else 28)
    else if m == 4 || m == 6 || m == 9 || m == 11 then 30
    else 31
  }

  predicate ValidDate(d: Date) {
    1 <= d.year && 1 <= d.month <= 12 && 1 <= d.day <= DaysInMonth(d.year, d.month)
  }

  /** Days in the months of year `y` that come before month `m`. */
  function DaysBeforeMonth(y: int, m: int): nat
    requires 1 <= m <= 13
  {
    if m == 1 then 0 else DaysBeforeMonth(y, m - 1) + DaysInMonth(y, m - 1)
  }

  /** Days from 0001-01-01 to January 1st of year `y`. */
  function DaysBeforeYear(y: int): nat
    requires y >= 1
  {
    if y == 1 then 0 else DaysBeforeYear(y - 1) + DaysInYear(y - 1)
  }

  /** Days from 0001-01-01 to `d`: the reference numbering of dates. */
  function DayNumber(d: Date): nat
    requires ValidDate(d)
  {
    DaysBeforeYear(d.year) + DaysBeforeMonth(d.year, d.month) + d.day - 1
  }

  lemma MonthsFillYear(y: int)
    ensures DaysBeforeMonth(y, 13) == DaysInYear(y)
  {
    var feb := if IsLeapYear(y) then 29 else 28;
    assert DaysBeforeMonth(y, 2) == 31;
    assert DaysBeforeMonth(y, 3) == 31 + feb;
    assert DaysBeforeMonth(y, 4) == 62 + feb;
    assert DaysBeforeMonth(y, 5) == 92 + feb;
    assert DaysBeforeMonth(y, 6) == 123 + feb;
    assert DaysBeforeMonth(y, 7) == 153 + feb;
    assert DaysBeforeMonth(y, 8) == 184 + feb;
    assert DaysBeforeMonth(y, 9) == 215 + feb;
    assert DaysBeforeMonth(y, 10) == 245 + feb;
    assert DaysBeforeMonth(y, 11) == 276 + feb;
    assert DaysBeforeMonth(y, 12) == 306 + feb;
  }

  lemma {:induction false} DaysBeforeMonthMonotone(y: int, m1: int, m2: int)
    requires 1 <= m1 <= m2 <= 13
    ensures DaysBeforeMonth(y, m1) + (if m1 < m2 && m1 <= 12 then DaysInMonth(y, m1) else 0) <= DaysBeforeMonth(y, m2)
    decreases m2 - m1
  {
    if m1 < m2 {
      DaysBeforeMonthMonotone(y, m1 + 1, m2);
    }
  }

  lemma {:induction false} DaysBeforeYearMonotone(y1: int, y2: int)
    requires 1 <= y1 <= y2
    ensures DaysBeforeYear(y1) + (if y1 < y2 then DaysInYear(y1) else 0) <= DaysBeforeYear(y2)
    decreases y2 - y1
  {
    if y1 < y2 {
      DaysBeforeYearMonotone(y1 + 1, y2);
    }
  }

  /** Splits `n` days past January 1st of `y` into a year and a day of that year. */
  function YearOf(n: nat, y: int): (r: (int, nat))
    requires y >= 1
    ensures r.0 >= y && r.1 < DaysInYear(r.0)
    ensures DaysBeforeYear(r.0) + r.1 == DaysBeforeYear(y) + n
    decreases n
  {
    if n < DaysInYear(y) then (y, n) else YearOf(n - DaysInYear(y), y + 1)
  }

  /** Splits day `n` past the first of month `m` (within year `y`) into a month and a day of the month. */
  function MonthOf(n: nat, y: int, m: int): (r: (int, int))
    requires 1 <= m <= 12
    requires DaysBeforeMonth(y, m) + n < DaysInYear(y)
    ensures m <= r.0 <= 12 && 1 <= r.1 <= DaysInMonth(y, r.0)
    ensures DaysBeforeMonth(y, r.0) + r.1 - 1 == DaysBeforeMonth(y, m) + n
    decreases 12 - m
  {
    if n < DaysInMonth(y, m) then (m, n + 1)
    else
      MonthsFillYear(y);
      MonthOf(n - DaysInMonth(y, m), y, m + 1)
  }

  /** The date `n` days after 0001-01-01. */
  function DateOfDayNumber(n: nat): (d: Date)
    ensures ValidDate(d) && DayNumber(d) == n
  {
    var yd := YearOf(n, 1);
    var md := MonthOf(yd.1, yd.0, 1);
    Date(yd.0, md.0, md.1)
  }

  /** A date's number lies within its own year. */
  lemma DayNumberInYear(d: Date)
    requires ValidDate(d)
    ensures DaysBeforeYear(d.year) <= DayNumber(d) < DaysBeforeYear(d.year + 1)
  {
    DaysBeforeMonthMonotone(d.year, d.month, 13);
    MonthsFillYear(d.year);
  }

  /** Different valid dates have different day numbers. */
  lemma DayNumberInjective(d1: Date, d2: Date)
    requires ValidDate(d1) && ValidDate(d2)
    requires DayNumber(d1) == DayNumber(d2)
    ensures d1 == d2
  {
    DayNumberInYear(d1);
    DayNumberInYear(d2);
    if d1.year < d2.year {
      DaysBeforeYearMonotone(d1.year + 1, d2.year);
    } else if d2.year < d1.year {
      DaysBeforeYearMonotone(d2.year + 1, d1.year);
    }
    assert d1.year == d2.year;
    if d1.month < d2.month {
      DaysBeforeMonthMonotone(d1.year, d1.month, d2.month);
    } else if d2.month < d1.month {
      DaysBeforeMonthMonotone(d2.year, d2.month, d1.month);
    }
  }

  /** Numbering dates and reading them back are inverse. */
  lemma DateOfDayNumberInverse(d: Date)
    requires ValidDate(d)
    ensures DateOfDayNumber(DayNumber(d)) == d
  {
    DayNumberInjective(DateOfDayNumber(DayNumber(d)), d);
  }

  /** Leap years among years 1 to `n`. */
  function LeapYearsThrough(n: int): int {
    n / 4 - n / 100 + n / 400
  }

  lemma DivStep4(n: int)
    ensures n / 4 == (n - 1) / 4 + (if n % 4 == 0 then 1 else 0)
  {
  }

  lemma DivStep100(n: int)
    ensures n / 100 == (n - 1) / 100 + (if n % 100 == 0 then 1 else 0)
  {
  }

  lemma DivStep400(n: int)
    ensures n / 400 == (n - 1) / 400 + (if n % 400 == 0 then 1 else 0)
  {
  }

  lemma DivisorsOf400(n: int)
    ensures n % 400 == 0 ==> n % 100 == 0
    ensures n % 100 == 0 ==> n % 4 == 0
  {
  }

  lemma LeapYearsStep(n: int)
    requires n >= 1
    ensures LeapYearsThrough(n) == LeapYearsThrough(n - 1) + (if IsLeapYear(n) then 1 else 0)
  {
    DivStep4(n);
    DivStep100(n);
    DivStep400(n);
    DivisorsOf400(n);
  }

  /** The Gregorian closed form of the day count before a year. */
  lemma {:induction false} DaysBeforeYearClosedForm(y: int)
    requires y >= 1
    ensures DaysBeforeYear(y) == 365 * (y - 1) + LeapYearsThrough(y - 1)
    decreases y
  {
    if y > 1 {
      DaysBeforeYearClosedForm(y - 1);
      LeapYearsStep(y - 1);
    }
  }

  const UnixEpoch := Date(1970, 1, 1)
  const UnixEpochDayNumber := 719162
  const SecondsPerDay := 86400

  /** The earliest and latest instants whose year has four digits without a
      sign: 0001-01-01T00:00:00Z and 9999-12-31T23:59:59Z. */
  const MinTimestamp := -62135596800
  const MaxTimestamp := 253402300799

  predicate InDateRange(ts: int) {
    MinTimestamp <= ts <= MaxTimestamp
  }

  lemma UnixEpochNumber()
    ensures ValidDate(UnixEpoch) && DayNumber(UnixEpoch) == UnixEpochDayNumber
  {
    DaysBeforeYearClosedForm(1970);
  }

  /** Day numbers up to that of 9999-12-31 fall in four-digit years. */
  lemma DateOfDayNumberYearBound(n: nat)
    requires n <= 3652058
    ensures DateOfDayNumber(n).year <= 9999
  {
    var d := DateOfDayNumber(n);
    DaysBeforeYearClosedForm(10000);
    DayNumberInYear(d);
    if d.year > 10000 {
      DaysBeforeYearMonotone(10000, d.year);
    }
  }

  /** The UTC date of a Unix timestamp: the day containing `ts`, counting
      whole days (rounded towards minus infinity) from 1970-01-01. */
  function UtcDate(ts: int): (d: Date)
    requires InDateRange(ts)
    ensures ValidDate(d) && 1 <= d.year <= 9999
    ensures DayNumber(d) == UnixEpochDayNumber + ts / SecondsPerDay
  {
    DateOfDayNumberYearBound(UnixEpochDayNumber + ts / SecondsPerDay);
    DateOfDayNumber(UnixEpochDayNumber + ts / SecondsPerDay)
  }

  /** `d` is the UTC date of `ts` exactly when `ts` falls within the 86400
      seconds of that day. */
  lemma UtcDateCharacterization(ts: int, d: Date)
    requires InDateRange(ts) && ValidDate(d)
    ensures UtcDate(ts) == d <==>
      (DayNumber(d) - UnixEpochDayNumber) * SecondsPerDay <= ts < (DayNumber(d) - UnixEpochDayNumber + 1) * SecondsPerDay
  {
    UnixEpochNumber();
    var k := DayNumber(d) - UnixEpochDayNumber;
    if k * SecondsPerDay <= ts < (k + 1) * SecondsPerDay {
      assert ts / SecondsPerDay == k;
      DayNumberInjective(UtcDate(ts), d);
    }
  }

  /** `[Year]-[Month]-[Day]`: four, two and two zero-padded digits. */
  function FormatDate(d: Date): (s: string)
    requires ValidDate(d) && d.year <= 9999
    ensures |s| == 10 && s[4] == '-' && s[7] == '-'
    ensures AllDigits(s[..4]) && AllDigits(s[5..7]) && AllDigits(s[8..])
    ensures forall i :: 0 <= i < |s| ==> IsDigit(s[i]) || s[i] == '-'
  {
    ZeroPadFits(d.year, 4);
    ZeroPadFits(d.month, 2);
    ZeroPadFits(d.day, 2);
    var s := ZeroPad(d.year, 4) + "-" + ZeroPad(d.month, 2) + "-" + ZeroPad(d.day, 2);
    assert s[..4] == ZeroPad(d.year, 4) && s[5..7] == ZeroPad(d.month, 2) && s[8..] == ZeroPad(d.day, 2);
    s
  }

  /** Reads a `YYYY-MM-DD` string back into its fields. */
  function ParseDate(s: string): Option<Date> {
    if |s| == 10 && s[4] == '-' && s[7] == '-' && AllDigits(s[..4]) && AllDigits(s[5..7]) && AllDigits(s[8..])
    then Some(Date(ParseNat(s[..4]), ParseNat(s[5..7]), ParseNat(s[8..])))
    else None
  }

  lemma ParseFormatDate(d: Date)
    requires ValidDate(d) && d.year <= 9999
    ensures ParseDate(FormatDate(d)) == Some(d)
  {
    ZeroPadFits(d.year, 4);
    ZeroPadFits(d.month, 2);
    ZeroPadFits(d.day, 2);
    var s := FormatDate(d);
    assert s[..4] == ZeroPad(d.year, 4) && s[5..7] == ZeroPad(d.month, 2) && s[8..] == ZeroPad(d.day, 2);
  }
}
