/** Naive calendar dates and timestamps (no time zones), with the month
    arithmetic that pandas' `replace(day=...)` and `DateOffset(months=1)` perform. */
module Calendar {

  datatype Date = Date(year: int, month: int, day: int)

  /** A calendar month of a given year. */
  datatype YearMonth = YearMonth(year: int, month: int)

  /** A naive timestamp: a date plus the time of day in seconds since midnight. */
  datatype DateTime = DateTime(date: Date, time: int)

  const SECONDS_PER_DAY := 86400

  predicate IsLeapYear(y: int) {
    y % 4 == 0 && (y % 100 != 0 || y % 400 == 0)
  }

  function DaysInMonth(y: int, m: int): (n: int)
    requires 1 <= m <= 12
    ensures 28 <= n <= 31
    ensures n == 29 <==> m == 2 && IsLeapYear(y)
  {
    if m == 2 then (if IsLeapYear(y) then 29 else 28)
    else if m == 4 || m == 6 || m == 9 || m == 11 then 30
    else 31
  }

  /** Years are proleptic Gregorian and unbounded; pandas' own timestamp range is not modelled. */
  predicate ValidMonth(ym: YearMonth) {
    1 <= ym.month <= 12
  }

  predicate ValidDate(d: Date) {
    1 <= d.month <= 12 && 1 <= d.day <= DaysInMonth(d.year, d.month)
  }

  predicate ValidDateTime(t: DateTime) {
    ValidDate(t.date) && 0 <= t.time < SECONDS_PER_DAY
  }

  function MonthOf(d: Date): YearMonth {
    YearMonth(d.year, d.month)
  }

  /** Months elapsed since January of year 0: consecutive months have consecutive indices. */
  function Index(ym: YearMonth): int {
    12 * ym.year + ym.month - 1
  }

  lemma IndexInjective(a: YearMonth, b: YearMonth)
    requires 1 <= a.month <= 12 && 1 <= b.month <= 12
    requires Index(a) == Index(b)
    ensures a == b
  {
  }

  /** The month after `ym`; December rolls over into January of the next year. */
  function Next(ym: YearMonth): (r: YearMonth)
    requires ValidMonth(ym)
    ensures ValidMonth(r) && Index(r) == Index(ym) + 1
  {
    if ym.month == 12 then YearMonth(ym.year + 1, 1) else YearMonth(ym.year, ym.month + 1)
  }

  /** The month before `ym`; January rolls back into December of the previous year. */
  function Prev(ym: YearMonth): (r: YearMonth)
    requires ValidMonth(ym)
    ensures ValidMonth(r) && Index(r) == Index(ym) - 1
  {
    if ym.month == 1 then YearMonth(ym.year - 1, 12) else YearMonth(ym.year, ym.month - 1)
  }

  function Min(a: int, b: int): int {
    if a <= b then a else b
  }

  /** `d.replace(day=k)`: same month and year, another day, which must exist. */
  function ReplaceDay(d: Date, k: int): (r: Date)
    requires ValidDate(d) && 1 <= k <= DaysInMonth(d.year, d.month)
    ensures ValidDate(r) && MonthOf(r) == MonthOf(d) && r.day == k
  {
    Date(d.year, d.month, k)
  }

  /** `d + DateOffset(months=1)`: the same day of the next month, cut back to
      that month's last day when it is shorter. */
  function AddMonth(d: Date): (r: Date)
    requires ValidDate(d)
    ensures ValidDate(r) && Index(MonthOf(r)) == Index(MonthOf(d)) + 1
    ensures r.day == Min(d.day, DaysInMonth(r.year, r.month))
    ensures r.day <= d.day && (d.day <= 28 ==> r.day == d.day)
  {
    var ym := Next(MonthOf(d));
    Date(ym.year, ym.month, Min(d.day, DaysInMonth(ym.year, ym.month)))
  }

  /** `d - DateOffset(months=1)`: the same day of the previous month, cut back
      to that month's last day when it is shorter. */
  function SubMonth(d: Date): (r: Date)
    requires ValidDate(d)
    ensures ValidDate(r) && Index(MonthOf(r)) == Index(MonthOf(d)) - 1
    ensures r.day == Min(d.day, DaysInMonth(r.year, r.month))
    ensures r.day <= d.day && (d.day <= 28 ==> r.day == d.day)
  {
    var ym := Prev(MonthOf(d));
    Date(ym.year, ym.month, Min(d.day, DaysInMonth(ym.year, ym.month)))
  }

  /** Calendar order of dates: by year, then month, then day. */
  predicate DateBefore(a: Date, b: Date) {
    a.year < b.year || (a.year == b.year && (a.month < b.month || (a.month == b.month && a.day < b.day)))
  }

  predicate DateLe(a: Date, b: Date) {
    DateBefore(a, b) || a == b
  }

  /** Calendar order of timestamps: by date, then time of day. */
  predicate DateTimeLe(a: DateTime, b: DateTime) {
    DateBefore(a.date, b.date) || (a.date == b.date && a.time <= b.time)
  }

  /** Calendar order compares the month index first and the day second. */
  lemma DateLeByIndex(a: Date, b: Date)
    requires ValidDate(a) && ValidDate(b)
    ensures DateLe(a, b) <==>
              Index(MonthOf(a)) < Index(MonthOf(b)) || (MonthOf(a) == MonthOf(b) && a.day <= b.day)
  {
    if Index(MonthOf(a)) == Index(MonthOf(b)) {
      IndexInjective(MonthOf(a), MonthOf(b));
    } else if a.year == b.year {
    } else if a.year < b.year {
      assert Index(MonthOf(a)) < Index(MonthOf(b));
    } else {
      assert Index(MonthOf(a)) > Index(MonthOf(b));
    }
  }

  /** A timestamp as one integer: seconds counted on a calendar of 31-day months. */
  function Stamp(t: DateTime): int {
    (Index(MonthOf(t.date)) * 31 + t.date.day - 1) * SECONDS_PER_DAY + t.time
  }

  /** For valid timestamps, comparing stamps is comparing in calendar order. */
  lemma StampOrder(a: DateTime, b: DateTime)
    requires ValidDateTime(a) && ValidDateTime(b)
    ensures DateTimeLe(a, b) <==> Stamp(a) <= Stamp(b)
  {
    DateLeByIndex(a.date, b.date);
    var ia, ib := Index(MonthOf(a.date)), Index(MonthOf(b.date));
    if ia == ib {
      IndexInjective(MonthOf(a.date), MonthOf(b.date));
    }
  }
}
