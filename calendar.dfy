/**
 * The part of `System.DateTime` the core uses: proleptic Gregorian dates,
 * `AddDays`, `AddMonths`, `DayOfWeek`, `Date`/`Today` and ordering.
 * A date is a civil (year, month, day) triple; `DayNumber` counts days
 * since 0001-01-01, which was a Monday.
 */
module Calendar {

  datatype Date = Date(year: int, month: int, day: int)

  /** A moment: a date and the ticks (100 ns units) elapsed since its midnight. */
  datatype DateTime = DateTime(date: Date, ticks: int)

  const TicksPerDay: int := 864_000_000_000

  predicate IsLeapYear(y: int) {
    y % 4 == 0 && (y % 100 != 0 || y % 400 == 0)
  }

  function DaysInYear(y: int): int {
    if IsLeapYear(y) then 366 else 365
  }

  function DaysInMonth(y: int, m: int): (n: int)
    requires 1 <= m <= 12
    ensures 28 <= n <= 31
    ensures n == 29 <==> m == 2 && IsLeapYear(y)
  {
    if m == 2 then (if IsLeapYear(y) then 29 else 28)
    else if m == 4 || m == 6 || m == 9 || m == 11 then 30
    else 31
  }

  predicate ValidDate(d: Date) {
    1 <= d.year && 1 <= d.month <= 12 && 1 <= d.day <= DaysInMonth(d.year, d.month)
  }

  predicate ValidDateTime(t: DateTime) {
    ValidDate(t.date) && 0 <= t.ticks < TicksPerDay
  }

  /** Days in the years before `y`, counted from year 1. */
  function DaysBeforeYear(y: int): nat
    requires 1 <= y
  {
    if y == 1 then 0 else DaysBeforeYear(y - 1) + DaysInYear(y - 1)
  }

  /** Days in the months of year `y` before month `m`. */
  function DaysBeforeMonth(y: int, m: int): nat
    requires 1 <= m <= 12
  {
    [0, 31, 59, 90, 120, 151, 181, 212, 243, 273, 304, 334][m - 1]
    + (if m > 2 && IsLeapYear(y) then 1 else 0)
  }

  lemma MonthLengthsAddUp(y: int, m: int)
    requires 1 <= m <= 12
    ensures m < 12 ==> DaysBeforeMonth(y, m + 1) == DaysBeforeMonth(y, m) + DaysInMonth(y, m)
    ensures m == 12 ==> DaysBeforeMonth(y, m) + DaysInMonth(y, m) == DaysInYear(y)
  {
  }

  /** Days from 0001-01-01 to `d`. */
  function DayNumber(d: Date): nat
    requires ValidDate(d)
  {
    DaysBeforeYear(d.year) + DaysBeforeMonth(d.year, d.month) + d.day - 1
  }

  /** `DateTime.DayOfWeek` as an integer: Sunday = 0, Monday = 1, …, Saturday = 6. */
  function DayOfWeek(d: Date): (w: int)
    requires ValidDate(d)
    ensures 0 <= w < 7
    ensures w == (DayNumber(d) + 1) % 7
  {
    (DayNumber(d) + 1) % 7
  }

  /** The calendar day after `d`. */
  function NextDay(d: Date): (r: Date)
    requires ValidDate(d)
    ensures ValidDate(r)
    ensures DayNumber(r) == DayNumber(d) + 1
  {
    MonthLengthsAddUp(d.year, d.month);
    if d.day < DaysInMonth(d.year, d.month) then Date(d.year, d.month, d.day + 1)
    else if d.month < 12 then Date(d.year, d.month + 1, 1)
    else Date(d.year + 1, 1, 1)
  }

  /** `AddDays(n)` for a non-negative whole number of days. */
  function AddDays(d: Date, n: nat): (r: Date)
    requires ValidDate(d)
    ensures ValidDate(r)
    ensures DayNumber(r) == DayNumber(d) + n
  {
    DaysLater(d, n)
  }

  /** The day `n` days after `d`, one day at a time. */
  function DaysLater(d: Date, n: nat): (r: Date)
    requires ValidDate(d)
    ensures ValidDate(r)
    ensures DayNumber(r) == DayNumber(d) + n
    decreases n
  {
    if n == 0 then d else DaysLater(NextDay(d), n - 1)
  }

  lemma {:induction false} AddDaysWeekday(d: Date, n: nat)
    requires ValidDate(d)
    ensures DayOfWeek(AddDays(d, n)) == (DayOfWeek(d) + n) % 7
  {
    var k := DayNumber(d) + 1;
    assert DayNumber(AddDays(d, n)) + 1 == k + n;
    ModAddRight(k, n);
  }

  /** A week later it is the same weekday. */
  lemma WeekLater(d: Date)
    requires ValidDate(d)
    ensures DayOfWeek(AddDays(d, 7)) == DayOfWeek(d)
  {
    var k := DayNumber(d) + 1;
    assert DayNumber(AddDays(d, 7)) + 1 == k + 7;
    assert (k + 7) % 7 == k % 7;
  }

  /** The weekday read off a day number given by any expression equal to it. */
  lemma WeekdayOfNumber(d: Date, k: nat)
    requires ValidDate(d) && k == DayNumber(d) + 1
    ensures DayOfWeek(d) == k % 7
  {
  }

  lemma ModAddRight(a: nat, b: nat)
    ensures (a + b) % 7 == (a % 7 + b) % 7
  {
  }

  function Min(a: int, b: int): int {
    if a <= b then a else b
  }

  /** `AddMonths(months)`: the same day in the month `months` later, clamped to that month's length. */
  function AddMonths(d: Date, months: nat): (r: Date)
    requires ValidDate(d)
    ensures ValidDate(r)
    ensures r.year * 12 + r.month == d.year * 12 + d.month + months
    ensures r.day == Min(d.day, DaysInMonth(r.year, r.month))
  {
    var total := d.year * 12 + (d.month - 1) + months;
    var y, m := total / 12, total % 12 + 1;
    Date(y, m, Min(d.day, DaysInMonth(y, m)))
  }

  /** Midnight of the day `t` falls on (`DateTime.Date`; `DateTime.Today` is this of `DateTime.Now`). */
  function StartOfDay(t: DateTime): (r: DateTime)
    ensures r.date == t.date && r.ticks == 0
    ensures ValidDateTime(t) ==> ValidDateTime(r)
  {
    DateTime(t.date, 0)
  }

  /** `a < b` on `DateTime`: earlier date, or the same date and fewer ticks. */
  predicate Before(a: DateTime, b: DateTime) {
    var x, y := a.date, b.date;
    x.year < y.year
    || (x.year == y.year && x.month < y.month)
    || (x.year == y.year && x.month == y.month && x.day < y.day)
    || (x == y && a.ticks < b.ticks)
  }

  /** Midnight is the earliest moment of its day: it is not after `t`, no moment of the same
      day comes before it, every moment before it lies on an earlier day, and taking it twice
      changes nothing. */
  lemma StartOfDayIsMidnight(t: DateTime, u: DateTime)
    requires ValidDateTime(t) && ValidDateTime(u)
    ensures !Before(t, StartOfDay(t))
    ensures u.date == t.date ==> !Before(u, StartOfDay(t))
    ensures Before(u, StartOfDay(t)) ==> DayNumber(u.date) < DayNumber(t.date)
    ensures StartOfDay(StartOfDay(t)) == StartOfDay(t)
  {
    BeforeIsDayOrder(t, StartOfDay(t));
    BeforeIsDayOrder(u, StartOfDay(t));
  }

  /** On well-formed dates, the ordering is the ordering of day numbers, then of ticks. */
  lemma {:induction false} BeforeIsDayOrder(a: DateTime, b: DateTime)
    requires ValidDateTime(a) && ValidDateTime(b)
    ensures Before(a, b) <==>
      DayNumber(a.date) < DayNumber(b.date) || (a.date == b.date && a.ticks < b.ticks)
  {
    var x, y := a.date, b.date;
    if x.year < y.year {
      DaysBeforeYearGrows(x.year, y.year);
    } else if y.year < x.year {
      DaysBeforeYearGrows(y.year, x.year);
    }
    if x.year == y.year {
      if x.month < y.month {
        DaysBeforeMonthGrows(x.year, x.month, y.month);
      } else if y.month < x.month {
        DaysBeforeMonthGrows(x.year, y.month, x.month);
      }
    }
  }

  /** A whole year (and any date in it) lies before the next one starts. */
  lemma {:induction false} DaysBeforeYearGrows(y: int, z: int)
    requires 1 <= y < z
    ensures DaysBeforeYear(y) + DaysInYear(y) <= DaysBeforeYear(z)
  {
    if y + 1 < z {
      DaysBeforeYearGrows(y, z - 1);
    }
  }

  lemma DaysBeforeMonthGrows(y: int, m: int, n: int)
    requires 1 <= m < n <= 12
    ensures DaysBeforeMonth(y, m) + DaysInMonth(y, m) <= DaysBeforeMonth(y, n)
  {
  }
}
