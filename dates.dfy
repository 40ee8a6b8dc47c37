/**
 * Abstract dates. Parsing and time-zone conversion are given: a Date is
 * either JavaScript's Invalid Date or a time value (milliseconds since the
 * epoch) together with the calendar day it falls on in the viewer's time
 * zone. On top of that this module defines the proleptic Gregorian
 * calendar arithmetic the dashboard relies on, the `YYYY-MM-DD` key built by
 * localDateKey, and the start of a minute.
 */
module Dates {
  import opened Wrappers
  import opened Strings

  /** A local calendar day as getFullYear(), getMonth() (0 = January) and getDate() report it. */
  datatype LocalDay = LocalDay(year: int, month: int, day: int)

  /** A JavaScript Date: an Invalid Date, or a time value and its local calendar day. */
  datatype Date = Invalid | Valid(ms: int, local: LocalDay)

  predicate IsLeapYear(year: int) {
    year % 4 == 0 && (year % 100 != 0 || year % 400 == 0)
  }

  /** Length of a month (0-based), as `new Date(year, month + 1, 0).getDate()`. */
  function DaysInMonth(year: int, month: int): (n: int)
    requires 0 <= month < 12
    ensures 28 <= n <= 31
    ensures n == 29 <==> month == 1 && IsLeapYear(year)
  {
    if month == 1 then (if IsLeapYear(year) then 29 else 28)
    else if month == 3 || month == 5 || month == 8 || month == 10 then 30
    else 31
  }

  /** A day that exists in the Gregorian calendar. */
  predicate IsCalendarDay(d: LocalDay) {
    0 <= d.month < 12 && 1 <= d.day <= DaysInMonth(d.year, d.month)
  }

  /** The concrete Date implementation only ever reports existing calendar days. */
  predicate WellFormed(date: Date) {
    date.Valid? ==> IsCalendarDay(date.local)
  }

  /** The Dates a browser produces. */
  type JsDate = d: Date | WellFormed(d) witness Invalid

  const MinuteMs: int := 60000

  /**
   * The time value after `setSeconds(0, 0)`: the start of the minute holding ms.
   * (Local seconds and milliseconds coincide with UTC ones because time-zone
   * offsets are whole minutes.)
   */
  function MinuteStart(ms: int): (r: int)
    ensures r <= ms < r + MinuteMs
    ensures r % MinuteMs == 0
  {
    ms - ms % MinuteMs
  }

  lemma MinuteStartIdempotent(ms: int)
    ensures MinuteStart(MinuteStart(ms)) == MinuteStart(ms)
  {
  }

  /** Two instants share a bucket exactly when they fall in the same minute. */
  lemma MinuteStartSame(a: int, b: int)
    ensures MinuteStart(a) == MinuteStart(b) <==> a / MinuteMs == b / MinuteMs
  {
  }

  /** The key `${year}-${pad(month + 1)}-${pad(day)}` built by localDateKey. */
  function DayKey(year: int, month: int, day: int): string {
    IntToString(year) + "-" + Pad2(IntToString(month + 1)) + "-" + Pad2(IntToString(day))
  }

  /** localDateKey of a Date; on an Invalid Date every getter yields NaN. */
  function LocalDateKey(date: Date): (r: string)
    ensures date.Valid? && 0 <= date.local.month < 12 && 1 <= date.local.day < 100 ==> ParseDayKey(r) == Some(date.local)
  {
    match date
    case Invalid => "NaN-NaN-NaN"
    case Valid(_, d) =>
      if 0 <= d.month < 12 && 1 <= d.day < 100 then DayKeyRoundTrip(d); DayKey(d.year, d.month, d.day)
      else DayKey(d.year, d.month, d.day)
  }

  /** Reads a key written by DayKey back into its calendar day. */
  function ParseDayKey(s: string): Option<LocalDay> {
    if |s| < 7 || s[|s| - 3] != '-' || s[|s| - 6] != '-' then None
    else ParseParts(s[..|s| - 6], s[|s| - 5..|s| - 3], s[|s| - 2..])
  }

  /** The year, month and day texts of a key, read as numbers. */
  function ParseParts(y: string, mm: string, dd: string): Option<LocalDay> {
    match ParseInt(y)
    case None => None
    case Some(year) =>
      if mm != [] && dd != [] && AllDigits(dd) && AllDigits(mm) then Some(LocalDay(year, ParseNat(mm) - 1, ParseNat(dd)))
      else None
  }

  lemma {:induction false} Pad2Digits(n: nat)
    requires n < 100
    ensures |Pad2(NatToString(n))| == 2
    ensures AllDigits(Pad2(NatToString(n)))
    ensures ParseNat(Pad2(NatToString(n))) == n
  {
    var t := Pad2(NatToString(n));
    if n < 10 {
      assert t == ['0', DigitChar(n)];
      assert t[..1] == ['0'];
    } else {
      assert NatToString(n / 10) == [DigitChar(n / 10)];
      ParseNatToString(n);
    }
  }

  /** Where the parts of `y-mm-dd` sit in the key. */
  lemma KeyLayout(y: string, mm: string, dd: string)
    requires |y| >= 1 && |mm| == 2 && |dd| == 2
    ensures var s := y + "-" + mm + "-" + dd;
      && |s| >= 7 && s[|s| - 3] == '-' && s[|s| - 6] == '-'
      && s[|s| - 2..] == dd && s[|s| - 5..|s| - 3] == mm && s[..|s| - 6] == y
  {
  }

  /** Parsing `y-mm-dd` reads the three parts. */
  lemma ParseKeyParts(s: string, y: string, mm: string, dd: string)
    requires |y| >= 1 && |mm| == 2 && |dd| == 2
    requires s == y + "-" + mm + "-" + dd
    ensures ParseDayKey(s) == ParseParts(y, mm, dd)
  {
    KeyLayout(y, mm, dd);
  }

  /** The three parts of a day's key read back as the day. */
  lemma PartsOfDay(d: LocalDay)
    requires 0 <= d.month < 12 && 1 <= d.day < 100
    ensures ParseParts(IntToString(d.year), Pad2(IntToString(d.month + 1)), Pad2(IntToString(d.day))) == Some(d)
  {
    assert IntToString(d.month + 1) == NatToString(d.month + 1) && IntToString(d.day) == NatToString(d.day);
    Pad2Digits(d.month + 1);
    Pad2Digits(d.day);
    IntToStringRoundTrip(d.year);
  }

  /** The year part of a key is non-empty and the month and day parts have two characters. */
  lemma KeyPartLengths(d: LocalDay)
    requires 0 <= d.month < 12 && 1 <= d.day < 100
    ensures |IntToString(d.year)| >= 1
    ensures |Pad2(IntToString(d.month + 1))| == 2 && |Pad2(IntToString(d.day))| == 2
  {
    Pad2Digits(d.month + 1);
    Pad2Digits(d.day);
    IntToStringRoundTrip(d.year);
  }

  /** The key of a calendar day determines the day: parsing it gives the day back. */
  lemma DayKeyRoundTrip(d: LocalDay)
    requires 0 <= d.month < 12 && 1 <= d.day < 100
    ensures ParseDayKey(DayKey(d.year, d.month, d.day)) == Some(d)
  {
    ParseKeyOfDay(d);
    PartsOfDay(d);
  }

  /** Parsing a day's key reads its three parts. */
  lemma ParseKeyOfDay(d: LocalDay)
    requires 0 <= d.month < 12 && 1 <= d.day < 100
    ensures ParseDayKey(DayKey(d.year, d.month, d.day))
         == ParseParts(IntToString(d.year), Pad2(IntToString(d.month + 1)), Pad2(IntToString(d.day)))
  {
    KeyPartLengths(d);
    ParseKeyParts(DayKey(d.year, d.month, d.day), IntToString(d.year), Pad2(IntToString(d.month + 1)), Pad2(IntToString(d.day)));
  }

  /** Different calendar days have different keys. */
  lemma DayKeyInjective(a: LocalDay, b: LocalDay)
    requires 0 <= a.month < 12 && 1 <= a.day < 100
    requires 0 <= b.month < 12 && 1 <= b.day < 100
    requires DayKey(a.year, a.month, a.day) == DayKey(b.year, b.month, b.day)
    ensures a == b
  {
    DayKeyRoundTrip(a);
    DayKeyRoundTrip(b);
  }

  /** The key of an Invalid Date is not the key of any day. */
  lemma InvalidKeyIsNoDay(d: LocalDay)
    requires 0 <= d.month < 12 && 1 <= d.day < 100
    ensures LocalDateKey(Invalid) != DayKey(d.year, d.month, d.day)
  {
    DayKeyRoundTrip(d);
    InvalidKeyUnparsable();
  }

  lemma InvalidKeyUnparsable()
    ensures ParseDayKey(LocalDateKey(Invalid)) == None
  {
    var s := LocalDateKey(Invalid);
    assert |s| == 11 && s[5] == 'a';
  }

  /**
   * The year `new Date(year, month, day)` actually uses: years 0 to 99 are
   * read as 1900 to 1999.
   */
  function ConstructorYear(year: int): (y: int)
    ensures 0 <= year <= 99 ==> y == 1900 + year
    ensures !(0 <= year <= 99) ==> y == year
  {
    if 0 <= year <= 99 then 1900 + year else year
  }

  /** Days the 1st of each month lies past a multiple of 7 from the 1st of March, in Sakamoto's method. */
  function MonthOffset(month: int): (t: int)
    requires 0 <= month < 12
    ensures 0 <= t < 7
  {
    [0, 3, 2, 5, 0, 3, 5, 1, 4, 6, 2, 4][month]
  }

  /** Days contributed by the years, including every leap day, up to year y. */
  function YearTerm(y: int): int {
    y + y / 4 - y / 100 + y / 400
  }

  /** `new Date(year, month, day).getDay()`: 0 = Sunday, in the proleptic Gregorian calendar. */
  function Weekday(year: int, month: int, day: int): (w: int)
    requires 0 <= month < 12
    ensures 0 <= w < 7
  {
    (YearTerm(if month < 2 then year - 1 else year) + MonthOffset(month) + day) % 7
  }

  /** 1 January 1970, the start of JavaScript time, was a Thursday. */
  lemma WeekdayEpoch()
    ensures Weekday(1970, 0, 1) == 4
  {
  }

  /** Within a month, each day is one weekday after the previous one. */
  lemma WeekdayNextDay(year: int, month: int, day: int)
    requires 0 <= month < 12
    ensures Weekday(year, month, day + 1) == (Weekday(year, month, day) + 1) % 7
  {
  }

  lemma ModShift(x: int, k: int)
    ensures (x + 7 * k) % 7 == x % 7
  {
  }

  lemma ModAddLeft(a: int, b: int)
    ensures (a % 7 + b) % 7 == (a + b) % 7
  {
    ModShift(a % 7 + b, a / 7);
  }

  // Stepping back one year changes `y / d` exactly when d divides the year.
  lemma DivStep4(y: int) ensures y / 4 - (y - 1) / 4 == (if y % 4 == 0 then 1 else 0) { }
  lemma DivStep100(y: int) ensures y / 100 - (y - 1) / 100 == (if y % 100 == 0 then 1 else 0) { }
  lemma DivStep400(y: int) ensures y / 400 - (y - 1) / 400 == (if y % 400 == 0 then 1 else 0) { }

  lemma MultipleOf400(y: int)
    requires y % 400 == 0
    ensures y % 100 == 0
  {
    assert y == 100 * (4 * (y / 400));
  }

  lemma MultipleOf100(y: int)
    requires y % 100 == 0
    ensures y % 4 == 0
  {
    assert y == 4 * (25 * (y / 100));
  }

  /** How many of the divisibility tests behind the leap-year rule `year` passes, counted with sign. */
  lemma LeapDays(year: int)
    ensures YearTerm(year) - YearTerm(year - 1) == 1 + (if IsLeapYear(year) then 1 else 0)
  {
    DivStep4(year);
    DivStep100(year);
    DivStep400(year);
    if year % 400 == 0 {
      MultipleOf400(year);
      MultipleOf100(year);
    } else if year % 100 == 0 {
      MultipleOf100(year);
    }
  }

  /** From one month to the next within a year, the offsets and the month length differ by a multiple of 7. */
  lemma MonthOffsetStep(month: int) returns (k: int)
    requires 0 <= month < 11 && month != 1
    ensures MonthOffset(month) + DaysInMonth(2001, month) - MonthOffset(month + 1) == 7 * k
  {
    k := (MonthOffset(month) + DaysInMonth(2001, month) - MonthOffset(month + 1)) / 7;
  }

  /** The first of a month falls `DaysInMonth` weekdays after the first of the month before. */
  lemma WeekdayNextMonth(year: int, month: int)
    requires 0 <= month < 11
    ensures Weekday(year, month + 1, 1) == (Weekday(year, month, 1) + DaysInMonth(year, month)) % 7
  {
    var n := DaysInMonth(year, month);
    var s0 := YearTerm(if month < 2 then year - 1 else year);
    var s1 := YearTerm(if month + 1 < 2 then year - 1 else year);
    var a := s0 + MonthOffset(month) + 1;
    var b := s1 + MonthOffset(month + 1) + 1;
    ModAddLeft(a, n);
    if month == 1 {
      LeapDays(year);
      assert b == a + n - 28;
      ModShift(b, 4);
    } else {
      assert s1 == s0;
      assert n == DaysInMonth(2001, month);
      var k := MonthOffsetStep(month);
      assert a + n == b + 7 * k;
      ModShift(b, k);
    }
  }

  /** January 1st falls 31 weekdays after December 1st of the year before. */
  lemma WeekdayNextYear(year: int)
    ensures Weekday(year + 1, 0, 1) == (Weekday(year, 11, 1) + 31) % 7
  {
    var s := YearTerm(year);
    assert Weekday(year + 1, 0, 1) == (s + 1) % 7;
    assert Weekday(year, 11, 1) == (s + 5) % 7;
    ModAddLeft(s + 5, 31);
    ModShift(s + 1, 5);
  }
}
