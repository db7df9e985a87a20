/**
 * Calendar arithmetic as `Date.UTC` and the `getUTC*` accessors perform it
 * (section 21.4.1 of ECMA-262), beside the Gregorian rules it must agree with.
 */
module Calendar {
  const MS_PER_DAY := 86400000

  /** Day(t): the day number that holds instant `t`. */
  function DayAt(t: int): int {
    t / 86400000
  }

  /** TimeWithinDay(t). */
  function TimeInDay(t: int): int {
    t % 86400000
  }

  /** The instant that starts day number `n`. */
  function DayStartMs(n: int): int {
    n * 86400000
  }

  datatype Date = Date(year: int, month: int, day: int)

  // ---------- Gregorian reference ----------

  predicate IsLeapYear(y: int) {
    y % 4 == 0 && (y % 100 != 0 || y % 400 == 0)
  }

  function DaysInMonth(leap: bool, m: int): int {
    if m == 2 then (if leap then 29 else 28)
    else if m == 4 || m == 6 || m == 9 || m == 11 then 30
    else 31
  }

  predicate ValidDate(d: Date) {
    1 <= d.month <= 12 && 1 <= d.day <= DaysInMonth(IsLeapYear(d.year), d.month)
  }

  /** The day after `d` by the month lengths of the Gregorian calendar. */
  function Successor(d: Date): Date {
    if d.day < DaysInMonth(IsLeapYear(d.year), d.month) then Date(d.year, d.month, d.day + 1)
    else if d.month < 12 then Date(d.year, d.month + 1, 1)
    else Date(d.year + 1, 1, 1)
  }

  // ---------- Years (ECMA-262) ----------

  /** DayFromYear: the number of the first day of year `y`, counted from 1970-01-01. */
  function DayFromYear(y: int): int {
    365 * (y - 1970) + (y - 1969) / 4 - (y - 1901) / 100 + (y - 1601) / 400
  }

  function DaysInYear(leap: bool): int {
    if leap then 366 else 365
  }

  /** The closed formula counts the leap days of the Gregorian rule. */
  lemma YearLength(y: int)
    ensures DayFromYear(y + 1) - DayFromYear(y) == DaysInYear(IsLeapYear(y))
  {
    QuarterStep(y);
    CenturyStep(y);
    EraStep(y);
    MultiplesNest(y);
    StepSum(y, (y - 1969) / 4, (y + 1 - 1969) / 4, (y - 1901) / 100, (y + 1 - 1901) / 100, (y - 1601) / 400, (y + 1 - 1601) / 400);
  }

  lemma StepSum(y: int, q0: int, q1: int, c0: int, c1: int, e0: int, e1: int)
    requires q1 - q0 == if y % 4 == 0 then 1 else 0
    requires c1 - c0 == if y % 100 == 0 then 1 else 0
    requires e1 - e0 == if y % 400 == 0 then 1 else 0
    requires y % 400 == 0 ==> y % 100 == 0
    requires y % 100 == 0 ==> y % 4 == 0
    ensures 365 * (y + 1 - 1970) + q1 - c1 + e1 - (365 * (y - 1970) + q0 - c0 + e0) == DaysInYear(IsLeapYear(y))
  {
  }

  lemma MultiplesNest(y: int)
    ensures y % 400 == 0 ==> y % 100 == 0
    ensures y % 100 == 0 ==> y % 4 == 0
  {
  }

  lemma QuarterStep(y: int)
    ensures (y + 1 - 1969) / 4 - (y - 1969) / 4 == if y % 4 == 0 then 1 else 0
  {
  }

  lemma CenturyStep(y: int)
    ensures (y + 1 - 1901) / 100 - (y - 1901) / 100 == if y % 100 == 0 then 1 else 0
  {
  }

  lemma EraStep(y: int)
    ensures (y + 1 - 1601) / 400 - (y - 1601) / 400 == if y % 400 == 0 then 1 else 0
  {
  }

  lemma {:induction false} YearsOrdered(a: int, b: int)
    requires a <= b
    ensures DayFromYear(b) - DayFromYear(a) >= 365 * (b - a)
    decreases b - a
  {
    if a < b {
      YearLength(a);
      YearsOrdered(a + 1, b);
    }
  }

  /** YearFromTime: the largest year that starts on or before day `n`. */
  function YearOf(n: int): (y: int)
    ensures DayFromYear(y) <= n < DayFromYear(y + 1)
  {
    if n >= 0 then SeekUp(n, 1970) else SeekDown(n, 1969)
  }

  function SeekUp(n: int, y: int): (r: int)
    requires DayFromYear(y) <= n
    ensures DayFromYear(r) <= n < DayFromYear(r + 1)
    decreases n - DayFromYear(y)
  {
    YearLength(y);
    if n < DayFromYear(y + 1) then y else SeekUp(n, y + 1)
  }

  function SeekDown(n: int, y: int): (r: int)
    requires n < DayFromYear(y + 1)
    ensures DayFromYear(r) <= n < DayFromYear(r + 1)
    decreases DayFromYear(y + 1) - n
  {
    YearLength(y);
    if DayFromYear(y) <= n then y else SeekDown(n, y - 1)
  }

  lemma YearOfUnique(n: int, y: int)
    requires DayFromYear(y) <= n < DayFromYear(y + 1)
    ensures YearOf(n) == y
  {
    SameYear(n, y, YearOf(n));
  }

  lemma SameYear(n: int, a: int, b: int)
    requires DayFromYear(a) <= n < DayFromYear(a + 1)
    requires DayFromYear(b) <= n < DayFromYear(b + 1)
    ensures a == b
  {
    if a < b {
      YearsOrdered(a + 1, b);
    } else if b < a {
      YearsOrdered(b + 1, a);
    }
  }

  // ---------- Months (ECMA-262) ----------

  /** Days of the year before the first of month `m`. */
  function DaysBeforeMonth(leap: bool, m: int): int {
    var l := if leap then 1 else 0;
    if m <= 1 then 0
    else if m == 2 then 31
    else if m == 3 then 59 + l
    else if m == 4 then 90 + l
    else if m == 5 then 120 + l
    else if m == 6 then 151 + l
    else if m == 7 then 181 + l
    else if m == 8 then 212 + l
    else if m == 9 then 243 + l
    else if m == 10 then 273 + l
    else if m == 11 then 304 + l
    else if m == 12 then 334 + l
    else 365 + l
  }

  /** The table adds up the month lengths, and a year is its twelve months. */
  lemma MonthLength(leap: bool, m: int)
    requires 1 <= m <= 12
    ensures DaysBeforeMonth(leap, m + 1) - DaysBeforeMonth(leap, m) == DaysInMonth(leap, m)
    ensures 0 <= DaysBeforeMonth(leap, m) && DaysBeforeMonth(leap, m + 1) <= DaysInYear(leap)
  {
  }

  /** MonthFromTime: the month that holds day `k` (from 0) of the year. */
  function MonthOf(leap: bool, k: int): (m: int)
    requires 0 <= k < DaysInYear(leap)
    ensures 1 <= m <= 12
    ensures DaysBeforeMonth(leap, m) <= k < DaysBeforeMonth(leap, m + 1)
  {
    var l := if leap then 1 else 0;
    if k < 31 then 1
    else if k < 59 + l then 2
    else if k < 90 + l then 3
    else if k < 120 + l then 4
    else if k < 151 + l then 5
    else if k < 181 + l then 6
    else if k < 212 + l then 7
    else if k < 243 + l then 8
    else if k < 273 + l then 9
    else if k < 304 + l then 10
    else if k < 334 + l then 11
    else 12
  }

  lemma MonthOfUnique(leap: bool, m: int, k: int)
    requires 1 <= m <= 12
    requires DaysBeforeMonth(leap, m) <= k < DaysBeforeMonth(leap, m + 1)
    ensures 0 <= k < DaysInYear(leap) && MonthOf(leap, k) == m
  {
    MonthLength(leap, m);
  }

  // ---------- Dates and day numbers ----------

  /** MakeDay for a month in range: any day of the month is accepted, as in the standard. */
  function DayNumber(d: Date): int {
    DayFromYear(d.year) + DaysBeforeMonth(IsLeapYear(d.year), d.month) + d.day - 1
  }

  /** The calendar date of day number `n`: getUTCFullYear, getUTCMonth and getUTCDate. */
  function DateOfDay(n: int): (d: Date)
    ensures ValidDate(d)
    ensures DayNumber(d) == n
  {
    var y := YearOf(n);
    YearLength(y);
    DateInYear(y, n - DayFromYear(y))
  }

  /** The date of day `k` (from 0) of year `y`. */
  function DateInYear(y: int, k: int): (d: Date)
    requires 0 <= k < DaysInYear(IsLeapYear(y))
    ensures ValidDate(d) && DayNumber(d) == DayFromYear(y) + k
  {
    var leap := IsLeapYear(y);
    var m := MonthOf(leap, k);
    MonthLength(leap, m);
    Date(y, m, k - DaysBeforeMonth(leap, m) + 1)
  }

  lemma DateInYearInverts(d: Date)
    requires ValidDate(d)
    ensures 0 <= DayNumber(d) - DayFromYear(d.year) < DaysInYear(IsLeapYear(d.year))
    ensures DateInYear(d.year, DayNumber(d) - DayFromYear(d.year)) == d
  {
    var leap := IsLeapYear(d.year);
    MonthLength(leap, d.month);
    MonthOfUnique(leap, d.month, DaysBeforeMonth(leap, d.month) + d.day - 1);
  }

  /** Valid dates and day numbers are in bijection. */
  lemma DateOfDayInverts(d: Date)
    requires ValidDate(d)
    ensures DateOfDay(DayNumber(d)) == d
  {
    DateInYearInverts(d);
    YearLength(d.year);
    YearOfUnique(DayNumber(d), d.year);
  }

  /** The Gregorian successor is the date of the next day number. */
  lemma SuccessorIsNextDay(d: Date)
    requires ValidDate(d)
    ensures ValidDate(Successor(d))
    ensures DayNumber(Successor(d)) == DayNumber(d) + 1
  {
    MonthLength(IsLeapYear(d.year), d.month);
    YearLength(d.year);
  }

  /** A date of year `y` or later has a day number no smaller than the year's first. */
  lemma DayNumberAtLeast(d: Date, y: int)
    requires ValidDate(d) && y <= d.year
    ensures DayNumber(d) >= DayFromYear(y)
  {
    MonthLength(IsLeapYear(d.year), d.month);
    YearsOrdered(y, d.year);
  }

  lemma YearAtLeast(n: int, y: int)
    requires n >= DayFromYear(y)
    ensures YearOf(n) >= y
  {
    YearOrder(n, YearOf(n), y);
  }

  lemma YearOrder(n: int, r: int, y: int)
    requires DayFromYear(y) <= n < DayFromYear(r + 1)
    ensures r >= y
  {
    if r < y {
      YearsOrdered(r + 1, y);
    }
  }

  // ---------- Date.UTC ----------

  /** The year argument of `Date.UTC`: 0 to 99 mean 1900 to 1999. */
  function FullYear(y: int): int {
    if 0 <= y <= 99 then 1900 + y else y
  }

  /** `Date.UTC(year, month - 1, day)` as a day number; a month out of range carries into the year. */
  function UtcDay(d: Date): int {
    var y := FullYear(d.year) + (d.month - 1) / 12;
    var m := (d.month - 1) % 12 + 1;
    DayNumber(Date(y, m, d.day))
  }

  lemma UtcDayOfMonth(d: Date)
    requires 1 <= d.month <= 12
    ensures UtcDay(d) == DayNumber(Date(FullYear(d.year), d.month, d.day))
  {
  }

  /** `Date.UTC(year, month - 1, day, hour, minute, second)`. */
  function UtcMs(d: Date, hour: int, minute: int, second: int): int {
    DayStartMs(UtcDay(d)) + hour * 3600000 + minute * 60000 + second * 1000
  }
}
