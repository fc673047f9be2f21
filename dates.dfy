/**
 * Proleptic Gregorian calendar arithmetic: the part of date-fns and of the
 * JavaScript Date object that the calendars and the editor use (days in a
 * month, day of the week, next and previous day, month shifts, and the
 * `yyyy-MM-dd` text form).
 */
module Dates {
  import opened Wrappers
  import opened Strings

  /** A calendar date; month and day are 1-based. */
  datatype Date = Date(year: int, month: int, day: int)

  predicate IsLeapYear(y: int)
  {
    y % 4 == 0 && (y % 100 != 0 || y % 400 == 0)
  }

  function DaysInMonth(y: int, m: int): (r: int)
    requires 1 <= m <= 12
    ensures 28 <= r <= 31
    ensures r == 29 <==> m == 2 && IsLeapYear(y)
    ensures r == 28 <==> m == 2 && !IsLeapYear(y)
  {
    if m == 2 then (if IsLeapYear(y) then 29 else 28)
    else if m == 4 || m == 6 || m == 9 || m == 11 then 30
    else 31
  }

  predicate ValidDate(d: Date)
  {
    1 <= d.month <= 12 && 1 <= d.day <= DaysInMonth(d.year, d.month)
  }

  /** Number of days from 0001-01-01 up to the first day of year y. */
  function DaysBeforeYear(y: int): int
  {
    var p := y - 1;
    365 * p + p / 4 - p / 100 + p / 400
  }

  /** Number of days from January 1st up to the first day of month m of year y. */
  function DaysBeforeMonth(y: int, m: int): int
    requires 1 <= m <= 12
  {
    [0, 31, 59, 90, 120, 151, 181, 212, 243, 273, 304, 334][m - 1] + (if m > 2 && IsLeapYear(y) then 1 else 0)
  }

  /** Days since 0001-01-01, which is day 0. */
  function DayNumber(d: Date): int
    requires ValidDate(d)
  {
    DaysBeforeYear(d.year) + DaysBeforeMonth(d.year, d.month) + d.day - 1
  }

  /** `getDay()`: 0 for Sunday up to 6 for Saturday (0001-01-01 was a Monday). */
  function Weekday(d: Date): (r: int)
    requires ValidDate(d)
    ensures 0 <= r < 7
  {
    (DayNumber(d) + 1) % 7
  }

  /** 2025-11-01 was a Saturday: the weekday formula agrees with the calendar. */
  lemma WeekdayOfNovemberFirst2025()
    ensures Weekday(Date(2025, 11, 1)) == 6
  {
  }

  const WeekdayNames: seq<string> := ["Sunday", "Monday", "Tuesday", "Wednesday", "Thursday", "Friday", "Saturday"]

  /** `format(d, 'EEEE')`: the English name of the day of the week. */
  function WeekdayName(d: Date): string
    requires ValidDate(d)
  {
    WeekdayNames[Weekday(d)]
  }

  function NextDay(d: Date): (r: Date)
    requires ValidDate(d)
    ensures ValidDate(r)
  {
    if d.day < DaysInMonth(d.year, d.month) then d.(day := d.day + 1)
    else if d.month < 12 then Date(d.year, d.month + 1, 1)
    else Date(d.year + 1, 1, 1)
  }

  function PrevDay(d: Date): (r: Date)
    requires ValidDate(d)
    ensures ValidDate(r)
  {
    if d.day > 1 then d.(day := d.day - 1)
    else if d.month > 1 then Date(d.year, d.month - 1, DaysInMonth(d.year, d.month - 1))
    else Date(d.year - 1, 12, 31)
  }

  lemma DivStep4(y: int)
    ensures y / 4 - (y - 1) / 4 == if y % 4 == 0 then 1 else 0
  {
  }

  lemma DivStep100(y: int)
    ensures y / 100 - (y - 1) / 100 == if y % 100 == 0 then 1 else 0
  {
  }

  lemma DivStep400(y: int)
    ensures y / 400 - (y - 1) / 400 == if y % 400 == 0 then 1 else 0
  {
  }

  lemma ModSeven(x: int, k: int)
    ensures (x + k) % 7 == (x % 7 + k) % 7
  {
    var q := x / 7;
    assert x == 7 * q + x % 7;
    assert x + k == 7 * q + (x % 7 + k);
  }

  /** A year has 366 days exactly when it is a leap year. */
  lemma YearLength(y: int)
    ensures DaysBeforeYear(y + 1) == DaysBeforeYear(y) + (if IsLeapYear(y) then 366 else 365)
  {
    var p := y - 1;
    var a, b, c := y / 4 - p / 4, y / 100 - p / 100, y / 400 - p / 400;
    DivStep4(y);
    DivStep100(y);
    DivStep400(y);
    assert DaysBeforeYear(y + 1) == DaysBeforeYear(y) + 365 + a - b + c;
    if y % 100 == 0 {
      var q := y / 100;
      assert y == 4 * (25 * q);
    }
    if y % 400 == 0 {
      var q := y / 400;
      assert y == 100 * (4 * q);
    }
  }

  /** Consecutive months: the next month starts where this one ends. */
  lemma MonthLength(y: int, m: int)
    requires 1 <= m < 12
    ensures DaysBeforeMonth(y, m + 1) == DaysBeforeMonth(y, m) + DaysInMonth(y, m)
  {
  }

  lemma NextDayNumber(d: Date)
    requires ValidDate(d)
    ensures DayNumber(NextDay(d)) == DayNumber(d) + 1
  {
    if d.day == DaysInMonth(d.year, d.month) {
      if d.month < 12 {
        MonthLength(d.year, d.month);
      } else {
        YearLength(d.year);
      }
    }
  }

  lemma PrevDayNumber(d: Date)
    requires ValidDate(d)
    ensures DayNumber(PrevDay(d)) == DayNumber(d) - 1
  {
    if d.day == 1 {
      if d.month > 1 {
        MonthLength(d.year, d.month - 1);
      } else {
        YearLength(d.year - 1);
      }
    }
  }

  lemma NextOfPrev(d: Date)
    requires ValidDate(d)
    ensures NextDay(PrevDay(d)) == d
  {
  }

  lemma PrevOfNext(d: Date)
    requires ValidDate(d)
    ensures PrevDay(NextDay(d)) == d
  {
  }

  /** The day after is one step further in the week. */
  lemma WeekdayNext(d: Date)
    requires ValidDate(d)
    ensures Weekday(NextDay(d)) == (Weekday(d) + 1) % 7
  {
    NextDayNumber(d);
    ModSeven(DayNumber(d) + 1, 1);
  }

  /** Weekdays count on modulo 7 from one day to the next. */
  lemma WeekdayCountsOn(d: Date, e: Date, n: int)
    requires ValidDate(d) && NextDay(d) == e && Weekday(d) == n % 7
    ensures Weekday(e) == (n + 1) % 7
  {
    WeekdayNext(d);
    ModSeven(n, 1);
  }

  lemma WeekdayPrev(d: Date)
    requires ValidDate(d)
    ensures Weekday(PrevDay(d)) == (Weekday(d) + 6) % 7
  {
    PrevDayNumber(d);
    ModSeven(DayNumber(d) + 1, 6);
    ModSeven(DayNumber(d) + 1 - 1, 7);
  }

  /** Within one month, the day number grows with the day of the month. */
  lemma DayNumberInMonth(y: int, m: int, i: int, j: int)
    requires 1 <= m <= 12 && 1 <= i <= DaysInMonth(y, m) && 1 <= j <= DaysInMonth(y, m)
    ensures DayNumber(Date(y, m, j)) == DayNumber(Date(y, m, i)) + (j - i)
    ensures Weekday(Date(y, m, j)) == (Weekday(Date(y, m, i)) + (j - i)) % 7
  {
    ModSeven(DayNumber(Date(y, m, i)) + 1, j - i);
  }

  // ----- Months -----

  /** Months counted from January of year 0. */
  function MonthIndex(y: int, m: int): int
  {
    12 * y + m - 1
  }

  function YearOfIndex(i: int): int { i / 12 }

  function MonthOfIndex(i: int): (m: int)
    ensures 1 <= m <= 12
  {
    i % 12 + 1
  }

  lemma IndexRoundTrip(i: int)
    ensures MonthIndex(YearOfIndex(i), MonthOfIndex(i)) == i
  {
  }

  lemma IndexOfMonth(y: int, m: int)
    requires 1 <= m <= 12
    ensures YearOfIndex(MonthIndex(y, m)) == y && MonthOfIndex(MonthIndex(y, m)) == m
  {
  }

  /**
   * date-fns `addMonths(d, k)`: the same day k months later, clamped to the
   * last day of that month (January 31st plus one month is February 28th or 29th).
   */
  function AddMonths(d: Date, k: int): (r: Date)
    requires ValidDate(d)
    ensures ValidDate(r)
    ensures MonthIndex(r.year, r.month) == MonthIndex(d.year, d.month) + k
    ensures r.day == if d.day <= DaysInMonth(r.year, r.month) then d.day else DaysInMonth(r.year, r.month)
  {
    var i := MonthIndex(d.year, d.month) + k;
    var y, m := YearOfIndex(i), MonthOfIndex(i);
    IndexRoundTrip(i);
    var dim := DaysInMonth(y, m);
    Date(y, m, if d.day <= dim then d.day else dim)
  }

  /** date-fns `subMonths(d, k)`. */
  function SubMonths(d: Date, k: int): (r: Date)
    requires ValidDate(d)
    ensures ValidDate(r)
    ensures MonthIndex(r.year, r.month) == MonthIndex(d.year, d.month) - k
  {
    AddMonths(d, -k)
  }

  /** The month before and the month after another month. */
  function PrevMonth(y: int, m: int): (r: (int, int))
    requires 1 <= m <= 12
    ensures 1 <= r.1 <= 12 && MonthIndex(r.0, r.1) == MonthIndex(y, m) - 1
  {
    if m == 1 then (y - 1, 12) else (y, m - 1)
  }

  function NextMonth(y: int, m: int): (r: (int, int))
    requires 1 <= m <= 12
    ensures 1 <= r.1 <= 12 && MonthIndex(r.0, r.1) == MonthIndex(y, m) + 1
  {
    if m == 12 then (y + 1, 1) else (y, m + 1)
  }

  /** The first day of a month comes right after the last day of the month before. */
  lemma FirstAfterPrevLast(y: int, m: int)
    requires 1 <= m <= 12
    ensures var (py, pm) := PrevMonth(y, m);
            NextDay(Date(py, pm, DaysInMonth(py, pm))) == Date(y, m, 1)
  {
  }

  // ----- The yyyy-MM-dd form -----

  function Pow10(w: nat): (r: nat)
    ensures r >= 1
  {
    if w == 0 then 1 else 10 * Pow10(w - 1)
  }

  /** The last w decimal digits of n, most significant first. */
  function FixedDigits(n: nat, w: nat): (r: string)
    ensures |r| == w
    ensures forall i :: 0 <= i < |r| ==> IsDecimalDigit(r[i])
  {
    if w == 0 then [] else FixedDigits(n / 10, w - 1) + [DigitChar(n % 10)]
  }

  /**
   * date-fns `addLeadingZeros(n, w)`: the decimal form of n padded with zeros
   * to w digits; a number with more digits is written in full.
   */
  function PadDigits(n: nat, w: nat): string
  {
    if n < Pow10(w) then FixedDigits(n, w) else NatToString(n)
  }

  /** The year date-fns prints for the `yyyy` token: year 0 is 1 BC, printed as 1. */
  function EraYear(y: int): nat
  {
    if y > 0 then y else 1 - y
  }

  /** `format(d, 'yyyy-MM-dd')`. */
  function FormatYMD(d: Date): string
    requires ValidDate(d)
  {
    PadDigits(EraYear(d.year), 4) + "-" + PadDigits(d.month, 2) + "-" + PadDigits(d.day, 2)
  }

  predicate AllDecimal(s: string)
  {
    forall i :: 0 <= i < |s| ==> IsDecimalDigit(s[i])
  }

  lemma DecimalDigitsAreDigits(s: string)
    requires AllDecimal(s)
    ensures forall i :: 0 <= i < |s| ==> DigitValue(s[i], 10) >= 0
  {
  }

  function DecimalValue(s: string): nat
    requires AllDecimal(s)
  {
    DecimalDigitsAreDigits(s);
    DigitsValue(s, 10)
  }

  lemma {:induction false} FixedDigitsValue(n: nat, w: nat)
    requires n < Pow10(w)
    ensures DecimalValue(FixedDigits(n, w)) == n
  {
    if w > 0 {
      FixedDigitsValue(n / 10, w - 1);
      var s := FixedDigits(n, w);
      assert s[..|s| - 1] == FixedDigits(n / 10, w - 1);
    }
  }

  /**
   * `parseISO` on a calendar date `yyyy-MM-dd`: four year digits, two month
   * digits and two day digits; a month or a day out of range is an Invalid Date (None).
   */
  function ParseISODate(s: string): Option<Date>
  {
    if |s| == 10 && s[4] == '-' && s[7] == '-' && AllDecimal(s[..4]) && AllDecimal(s[5..7]) && AllDecimal(s[8..]) then
      var d := Date(DecimalValue(s[..4]), DecimalValue(s[5..7]), DecimalValue(s[8..]));
      if ValidDate(d) then Some(d) else None
    else None
  }

  /** Formatting a date of years 1 to 9999 and parsing the text back gives the date. */
  lemma ParseFormatYMD(d: Date)
    requires ValidDate(d) && 1 <= d.year <= 9999
    ensures ParseISODate(FormatYMD(d)) == Some(d)
  {
    var s := FormatYMD(d);
    assert PadDigits(d.year, 4) == FixedDigits(d.year, 4);
    assert PadDigits(d.month, 2) == FixedDigits(d.month, 2);
    assert PadDigits(d.day, 2) == FixedDigits(d.day, 2);
    assert s[..4] == FixedDigits(d.year, 4);
    assert s[5..7] == FixedDigits(d.month, 2);
    assert s[8..] == FixedDigits(d.day, 2);
    FixedDigitsValue(d.year, 4);
    FixedDigitsValue(d.month, 2);
    FixedDigitsValue(d.day, 2);
  }

  /** Distinct dates of years 1 to 9999 have distinct texts. */
  lemma FormatYMDInjective(d1: Date, d2: Date)
    requires ValidDate(d1) && 1 <= d1.year <= 9999
    requires ValidDate(d2) && 1 <= d2.year <= 9999
    requires FormatYMD(d1) == FormatYMD(d2)
    ensures d1 == d2
  {
    ParseFormatYMD(d1);
    ParseFormatYMD(d2);
  }

  /** Lexicographic order of (year, month, day): what `isBefore` compares at day granularity. */
  predicate Before(a: Date, b: Date)
  {
    a.year < b.year || (a.year == b.year && (a.month < b.month || (a.month == b.month && a.day < b.day)))
  }
}
