/** The UTC calendar of ECMAScript `Date` objects (ECMA-262, section 21.4.1,
    "Time Values and Time Range"), on whole days: a day number counts days
    since 1970-01-01, and `UtcDate` gives the values that `getUTCFullYear`,
    `getUTCMonth` (0 to 11) and `getUTCDate` return for midnight of that day. */
module UtcCalendar {

  /** A calendar date as the `Date` UTC accessors report it; `month` is 0-based. */
  datatype Ymd = Ymd(year: int, month: int, day: int)

  /** DaysInYear(y) of ECMA-262: the proleptic Gregorian leap-year rule. */
  function DaysInYear(y: int): (n: int)
    ensures n == 365 || n == 366
  {
    if y % 4 != 0 then 365
    else if y % 100 != 0 then 366
    else if y % 400 != 0 then 365
    else 366
  }

  predicate InLeapYear(y: int)
  {
    DaysInYear(y) == 366
  }

  /** DayFromYear(y) of ECMA-262: the day number of January 1st of year y. */
  function DayFromYear(y: int): int
  {
    365 * (y - 1970) + (y - 1969) / 4 - (y - 1901) / 100 + (y - 1601) / 400
  }

  /** Consecutive years start DaysInYear apart. */
  lemma YearLength(y: int)
    ensures DayFromYear(y + 1) - DayFromYear(y) == DaysInYear(y)
  {
    FloorStep(y - 1969, 4);
    FloorStep(y - 1901, 100);
    FloorStep(y - 1601, 400);
  }

  /** Integer division by c steps up by one exactly at multiples of c. */
  lemma FloorStep(n: int, c: int)
    requires c == 4 || c == 100 || c == 400
    ensures (n + 1) / c - n / c == if (n + 1) % c == 0 then 1 else 0
  {
    if c == 4 {
      assert (n + 1) / 4 - n / 4 == if (n + 1) % 4 == 0 then 1 else 0;
    } else if c == 100 {
      assert (n + 1) / 100 - n / 100 == if (n + 1) % 100 == 0 then 1 else 0;
    } else {
      assert (n + 1) / 400 - n / 400 == if (n + 1) % 400 == 0 then 1 else 0;
    }
  }

  /** Years start in strictly increasing order. */
  lemma {:induction false} DayFromYearMonotone(a: int, b: int)
    requires a < b
    ensures DayFromYear(a + 1) <= DayFromYear(b)
    decreases b - a
  {
    if a + 1 < b {
      DayFromYearMonotone(a, b - 1);
      YearLength(b - 1);
    }
  }

  /** DayFromYear stays within two days of 365.2425 days per year since 1970. */
  lemma DayFromYearNear(y: int)
    ensures 146097 * (y - 1970) - 607 < 400 * DayFromYear(y) < 146097 * (y - 1970) + 593
  {
  }

  /** YearFromTime of ECMA-262, on day numbers: the largest y with
      DayFromYear(y) <= day. The mean-year estimate is off by at most one. */
  function YearFromDay(day: int): (y: int)
    ensures DayFromYear(y) <= day < DayFromYear(y + 1)
  {
    var guess := 1970 + (400 * day) / 146097;
    DayFromYearNear(guess - 1);
    DayFromYearNear(guess);
    DayFromYearNear(guess + 1);
    DayFromYearNear(guess + 2);
    if day < DayFromYear(guess) then guess - 1
    else if day >= DayFromYear(guess + 1) then guess + 1
    else guess
  }

  /** Day number, within a year, of the first day of month m (0 to 12). */
  function MonthStart(m: int, leap: bool): int
    requires 0 <= m <= 12
  {
    var l := if leap then 1 else 0;
    if m == 0 then 0
    else if m == 1 then 31
    else if m == 2 then 59 + l
    else if m == 3 then 90 + l
    else if m == 4 then 120 + l
    else if m == 5 then 151 + l
    else if m == 6 then 181 + l
    else if m == 7 then 212 + l
    else if m == 8 then 243 + l
    else if m == 9 then 273 + l
    else if m == 10 then 304 + l
    else if m == 11 then 334 + l
    else 365 + l
  }

  function DaysInMonth(y: int, m: int): int
    requires 0 <= m < 12
  {
    MonthStart(m + 1, InLeapYear(y)) - MonthStart(m, InLeapYear(y))
  }

  /** MonthFromTime of ECMA-262, from the day within the year. */
  function MonthFromDayWithinYear(dwy: int, leap: bool): (m: int)
    requires 0 <= dwy < (if leap then 366 else 365)
    ensures 0 <= m < 12
    ensures MonthStart(m, leap) <= dwy < MonthStart(m + 1, leap)
  {
    var l := if leap then 1 else 0;
    if dwy < 31 then 0
    else if dwy < 59 + l then 1
    else if dwy < 90 + l then 2
    else if dwy < 120 + l then 3
    else if dwy < 151 + l then 4
    else if dwy < 181 + l then 5
    else if dwy < 212 + l then 6
    else if dwy < 243 + l then 7
    else if dwy < 273 + l then 8
    else if dwy < 304 + l then 9
    else if dwy < 334 + l then 10
    else 11
  }

  /** A date that the UTC accessors can report. */
  predicate ValidDate(t: Ymd)
  {
    0 <= t.month < 12 && 1 <= t.day <= DaysInMonth(t.year, t.month)
  }

  /** MakeDay of ECMA-262 for a valid date: its day number. */
  function DayOf(t: Ymd): int
    requires ValidDate(t)
  {
    DayFromYear(t.year) + MonthStart(t.month, InLeapYear(t.year)) + t.day - 1
  }

  /** The (getUTCFullYear, getUTCMonth, getUTCDate) triple of a day. */
  function UtcDate(day: int): (t: Ymd)
    ensures ValidDate(t) && DayOf(t) == day
  {
    var y := YearFromDay(day);
    YearLength(y);
    var leap := InLeapYear(y);
    var dwy := day - DayFromYear(y);
    var m := MonthFromDayWithinYear(dwy, leap);
    Ymd(y, m, dwy - MonthStart(m, leap) + 1)
  }

  /** Distinct days have distinct dates. */
  lemma UtcDateInjective(a: int, b: int)
    ensures UtcDate(a) == UtcDate(b) <==> a == b
  {
  }

  /** Every valid date is the date of its own day number. */
  lemma UtcDateOfDay(t: Ymd)
    requires ValidDate(t)
    ensures UtcDate(DayOf(t)) == t
  {
    DayOfInjective(UtcDate(DayOf(t)), t);
  }

  /** Distinct valid dates have distinct day numbers. */
  lemma DayOfInjective(s: Ymd, t: Ymd)
    requires ValidDate(s) && ValidDate(t) && DayOf(s) == DayOf(t)
    ensures s == t
  {
    DayOfIsInItsYear(s);
    DayOfIsInItsYear(t);
    YearIsUnique(s.year, t.year, DayOf(t));
    SameYearDayOfInjective(s, t);
  }

  /** Within one year, distinct valid dates have distinct day numbers. */
  lemma SameYearDayOfInjective(s: Ymd, t: Ymd)
    requires ValidDate(s) && ValidDate(t) && s.year == t.year && DayOf(s) == DayOf(t)
    ensures s == t
  {
    var leap := InLeapYear(t.year);
    assert MonthStart(s.month, leap) + s.day == MonthStart(t.month, leap) + t.day;
    MonthAndDayAreUnique(leap, s.month, s.day, t.month, t.day);
  }

  /** A valid date falls within its own year. */
  lemma DayOfIsInItsYear(t: Ymd)
    requires ValidDate(t)
    ensures DayFromYear(t.year) <= DayOf(t) < DayFromYear(t.year + 1)
  {
    YearLength(t.year);
    MonthStartWithinYear(t.month + 1, InLeapYear(t.year));
  }

  /** Months start inside the year: MonthStart(12) is the year's length. */
  lemma MonthStartWithinYear(m: int, leap: bool)
    requires 0 <= m <= 12
    ensures 0 <= MonthStart(m, leap) <= MonthStart(12, leap)
    ensures MonthStart(12, leap) == if leap then 366 else 365
  {
  }

  /** Within one year, a (month, day) pair is determined by its day within the year. */
  lemma MonthAndDayAreUnique(leap: bool, m1: int, d1: int, m2: int, d2: int)
    requires 0 <= m1 < 12 && 1 <= d1 <= MonthStart(m1 + 1, leap) - MonthStart(m1, leap)
    requires 0 <= m2 < 12 && 1 <= d2 <= MonthStart(m2 + 1, leap) - MonthStart(m2, leap)
    requires MonthStart(m1, leap) + d1 == MonthStart(m2, leap) + d2
    ensures m1 == m2 && d1 == d2
  {
    MonthIsUnique(m1, m2, leap, MonthStart(m2, leap) + d2 - 1);
  }

  /** Only one year contains a given day. */
  lemma YearIsUnique(y1: int, y2: int, day: int)
    requires DayFromYear(y1) <= day < DayFromYear(y1 + 1)
    requires DayFromYear(y2) <= day < DayFromYear(y2 + 1)
    ensures y1 == y2
  {
    if y1 < y2 {
      DayFromYearMonotone(y1, y2);
    } else if y2 < y1 {
      DayFromYearMonotone(y2, y1);
    }
  }

  lemma MonthIsUnique(m1: int, m2: int, leap: bool, dwy: int)
    requires 0 <= m1 < 12 && 0 <= m2 < 12
    requires MonthStart(m1, leap) <= dwy < MonthStart(m1 + 1, leap)
    requires MonthStart(m2, leap) <= dwy < MonthStart(m2 + 1, leap)
    ensures m1 == m2
  {
  }

  /** Day 0 is 1970-01-01, the ECMAScript epoch. */
  lemma EpochIsNewYear1970()
    ensures UtcDate(0) == Ymd(1970, 0, 1)
  {
    var e := Ymd(1970, 0, 1);
    assert DayFromYear(1970) == 0;
    assert ValidDate(e);
    assert DayOf(e) == 0;
    UtcDateOfDay(e);
  }

  /** Day -1 is 1969-12-31: days before the epoch count down across the year boundary. */
  lemma DayBeforeEpoch()
    ensures UtcDate(-1) == Ymd(1969, 11, 31)
  {
    var e := Ymd(1969, 11, 31);
    assert DayFromYear(1969) == -365;
    assert !InLeapYear(1969);
    assert MonthStart(11, false) == 334 && MonthStart(12, false) == 365;
    assert ValidDate(e);
    assert DayOf(e) == -1;
    UtcDateOfDay(e);
  }
}
