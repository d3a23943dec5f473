/** The calendar arithmetic behind JavaScript's `Date`, on the proleptic
    Gregorian calendar. Days are counted from 1970-01-01, a Thursday. Months
    are zero-based (0 is January) as in `Date`. */
module Calendar {

  predicate IsLeap(y: int) {
    y % 4 == 0 && (y % 100 != 0 || y % 400 == 0)
  }

  function YearLength(y: int): int {
    if IsLeap(y) then 366 else 365
  }

  /** Length of the zero-based month `m` of year `y`. */
  function MonthLength(y: int, m: int): (r: int)
    requires 0 <= m < 12
    ensures 28 <= r <= 31
    ensures m == 1 ==> (r == 29 <==> IsLeap(y)) && (r == 28 <==> !IsLeap(y))
    ensures m != 1 ==> r == 30 || r == 31
  {
    if m == 1 then (if IsLeap(y) then 29 else 28)
    else if m == 3 || m == 5 || m == 8 || m == 10 then 30
    else 31
  }

  /** Days in the months of year `y` that precede month `m`. */
  function DaysBeforeMonth(y: int, m: int): int
    requires 0 <= m < 12
  {
    [0, 31, 59, 90, 120, 151, 181, 212, 243, 273, 304, 334][m]
      + (if m >= 2 && IsLeap(y) then 1 else 0)
  }

  /** Leap years among the years 1 .. y-1 (counted with floor division, so the
      count is also right, as a difference, for years before 1). */
  function LeapsBefore(y: int): int {
    (y - 1) / 4 - (y - 1) / 100 + (y - 1) / 400
  }

  /** Days from 1970-01-01 to January 1st of year `y`. */
  function DaysBeforeYear(y: int): int {
    365 * (y - 1970) + LeapsBefore(y) - LeapsBefore(1970)
  }

  /** Days from 1970-01-01 to day `d` of the zero-based month `m` of year `y`;
      `d` may lie outside the month and then counts on from its first day. */
  function CivilDayNumber(y: int, m: int, d: int): int
    requires 0 <= m < 12
  {
    DaysBeforeYear(y) + DaysBeforeMonth(y, m) + d - 1
  }

  /** `new Date(y, ...)` reads the years 0 to 99 as 1900 to 1999. */
  function JsYear(y: int): int {
    if 0 <= y <= 99 then 1900 + y else y
  }

  /** The day `new Date(y, m, d)` denotes: the month overflows into the year
      and the day into the month, in both directions. */
  function DayNumber(y: int, m: int, d: int): int {
    CivilDayNumber(JsYear(y) + m / 12, m % 12, d)
  }

  /** Day of the week of a day number, 0 = Sunday .. 6 = Saturday. */
  function WeekdayOf(n: int): (r: int)
    ensures 0 <= r < 7
  {
    (n + 4) % 7
  }

  /** `new Date(y, m, d).getDay()`. */
  function Weekday(y: int, m: int, d: int): (r: int)
    ensures 0 <= r < 7
  {
    WeekdayOf(DayNumber(y, m, d))
  }

  lemma FloorStep(y: int)
    ensures y / 4 - (y - 1) / 4 == (if y % 4 == 0 then 1 else 0)
    ensures y / 100 - (y - 1) / 100 == (if y % 100 == 0 then 1 else 0)
    ensures y / 400 - (y - 1) / 400 == (if y % 400 == 0 then 1 else 0)
  {
  }

  /** Consecutive new-year days are one year length apart. */
  lemma DaysBeforeNextYear(y: int)
    ensures DaysBeforeYear(y + 1) == DaysBeforeYear(y) + YearLength(y)
  {
    FloorStep(y);
    assert y % 400 == 0 ==> y % 100 == 0;
    assert y % 100 == 0 ==> y % 4 == 0;
  }

  /** Consecutive first-of-month days are one month length apart. */
  lemma DaysBeforeNextMonth(y: int, m: int)
    requires 0 <= m < 12
    ensures m < 11 ==> DaysBeforeMonth(y, m + 1) == DaysBeforeMonth(y, m) + MonthLength(y, m)
    ensures m == 11 ==> DaysBeforeMonth(y, m) + MonthLength(y, m) == YearLength(y)
  {
  }

  /** Day 0 of the month after `m` is the last day of month `m`: the identity
      `getDaysInMonth` relies on. */
  lemma DayZeroIsLastDay(y: int, m: int)
    ensures DayNumber(y, m + 1, 0)
            == CivilDayNumber(JsYear(y) + m / 12, m % 12, MonthLength(JsYear(y) + m / 12, m % 12))
  {
    var yy, mm := JsYear(y) + m / 12, m % 12;
    DaysBeforeNextMonth(yy, mm);
    if mm < 11 {
      assert (m + 1) / 12 == m / 12 && (m + 1) % 12 == mm + 1;
    } else {
      assert (m + 1) / 12 == m / 12 + 1 && (m + 1) % 12 == 0;
      DaysBeforeNextYear(yy);
    }
  }
}
