/** The proleptic Gregorian calendar of Python's datetime, in UTC.  Day 0 is
    1 January of year 1 (a Monday); an instant counts microseconds from its midnight. */
module Calendar {
  // ---------- Years, months and days ----------

  predicate IsLeap(y: int) {
    y % 4 == 0 && (y % 100 != 0 || y % 400 == 0)
  }

  function YearLength(y: int): int {
    if IsLeap(y) then 366 else 365
  }

  /** Days from day 0 to 1 January of year `y`. */
  function DaysBeforeYear(y: int): int
    requires y >= 1
  {
    var p := y - 1;
    365 * p + p / 4 - p / 100 + p / 400
  }

  lemma QuotientStep(p: nat, k: int)
    requires k == 4 || k == 100 || k == 400
    ensures (p + 1) / k == p / k + if (p + 1) % k == 0 then 1 else 0
  {
  }

  lemma Centuries(y: nat)
    ensures y % 100 == 0 ==> y % 4 == 0
    ensures y % 400 == 0 ==> y % 100 == 0
  {
    if y % 100 == 0 {
      var k := y / 100;
      assert y == 4 * (25 * k);
    }
    if y % 400 == 0 {
      var k := y / 400;
      assert y == 100 * (4 * k);
    }
  }

  lemma NextYear(y: int)
    requires y >= 1
    ensures DaysBeforeYear(y + 1) == DaysBeforeYear(y) + YearLength(y)
  {
    Centuries(y);
    QuotientStep(y - 1, 4);
    QuotientStep(y - 1, 100);
    QuotientStep(y - 1, 400);
  }

  function DaysInMonth(y: int, m: int): int
    requires 1 <= m <= 12
  {
    if m == 2 then if IsLeap(y) then 29 else 28
    else if m == 4 || m == 6 || m == 9 || m == 11 then 30
    else 31
  }

  const MONTH_STARTS: seq<int> := [0, 31, 59, 90, 120, 151, 181, 212, 243, 273, 304, 334, 365]

  /** Days from 1 January to the first of month `m`; month 13 stands for the end of the year. */
  function DaysBeforeMonth(y: int, m: int): int
    requires 1 <= m <= 13
  {
    MONTH_STARTS[m - 1] + if m > 2 && IsLeap(y) then 1 else 0
  }

  lemma NextMonth(y: int, m: int)
    requires 1 <= m <= 12
    ensures DaysBeforeMonth(y, m + 1) == DaysBeforeMonth(y, m) + DaysInMonth(y, m)
  {
  }

  datatype Date = Date(year: int, month: int, day: int)

  predicate ValidDate(d: Date) {
    && d.year >= 1
    && 1 <= d.month <= 12
    && 1 <= d.day <= DaysInMonth(d.year, d.month)
  }

  function DayNumber(d: Date): (n: nat)
    requires ValidDate(d)
    ensures DaysBeforeYear(d.year) <= n < DaysBeforeYear(d.year + 1)
  {
    NextYear(d.year);
    DaysBeforeYear(d.year) + DaysBeforeMonth(d.year, d.month) + d.day - 1
  }

  /** The year holding day `n`, searched upwards from `y`. */
  function YearFrom(n: nat, y: int): (r: int)
    requires y >= 1 && DaysBeforeYear(y) <= n
    ensures r >= y && DaysBeforeYear(r) <= n < DaysBeforeYear(r + 1)
    decreases n - DaysBeforeYear(y)
  {
    NextYear(y);
    if n < DaysBeforeYear(y + 1) then y else YearFrom(n, y + 1)
  }

  function MonthFrom(y: int, offset: int, m: int): (r: int)
    requires 1 <= m <= 12
    requires DaysBeforeMonth(y, m) <= offset < YearLength(y)
    ensures m <= r <= 12
    ensures DaysBeforeMonth(y, r) <= offset < DaysBeforeMonth(y, r + 1)
    decreases 12 - m
  {
    if offset < DaysBeforeMonth(y, m + 1) then m else MonthFrom(y, offset, m + 1)
  }

  function DateOf(n: nat): (d: Date)
    ensures ValidDate(d) && DayNumber(d) == n
  {
    var y := YearFrom(n, n / 366 + 1);
    NextYear(y);
    var offset := n - DaysBeforeYear(y);
    var m := MonthFrom(y, offset, 1);
    NextMonth(y, m);
    Date(y, m, offset - DaysBeforeMonth(y, m) + 1)
  }

  predicate DateLess(a: Date, b: Date) {
    || a.year < b.year
    || (a.year == b.year && a.month < b.month)
    || (a.year == b.year && a.month == b.month && a.day < b.day)
  }

  lemma {:induction false} YearsInOrder(y: int, z: int)
    requires 1 <= y <= z
    ensures DaysBeforeYear(z) >= DaysBeforeYear(y) + 365 * (z - y)
    decreases z - y
  {
    if y < z {
      YearsInOrder(y, z - 1);
      NextYear(z - 1);
    }
  }

  lemma {:induction false} YearsAtMost(y: int, z: int)
    requires 1 <= y <= z
    ensures DaysBeforeYear(z) <= DaysBeforeYear(y) + 366 * (z - y)
    decreases z - y
  {
    if y < z {
      YearsAtMost(y, z - 1);
      NextYear(z - 1);
    }
  }

  lemma CommonYearShortest(y: int, m: int)
    requires 1 <= m <= 12
    ensures DaysInMonth(1, m) <= DaysInMonth(y, m)
    ensures DaysInMonth(y, m) <= DaysInMonth(1, m) || (m == 2 && DaysInMonth(y, m) == 29)
  {
  }

  lemma {:induction false} MonthsInOrder(y: int, m: int, k: int)
    requires 1 <= m <= k <= 13
    ensures DaysBeforeMonth(y, k) >= DaysBeforeMonth(y, m)
    decreases k - m
  {
    if m < k {
      MonthsInOrder(y, m, k - 1);
      NextMonth(y, k - 1);
    }
  }

  lemma EarlierDateEarlierDay(a: Date, b: Date)
    requires ValidDate(a) && ValidDate(b) && DateLess(a, b)
    ensures DayNumber(a) < DayNumber(b)
  {
    if a.year < b.year {
      YearsInOrder(a.year + 1, b.year);
    } else if a.month < b.month {
      NextMonth(a.year, a.month);
      MonthsInOrder(a.year, a.month + 1, b.month);
    }
  }

  /** Day numbers and calendar dates are in the same order, one to one. */
  lemma DatesInOrder(m: nat, n: nat)
    ensures DateLess(DateOf(m), DateOf(n)) <==> m < n
    ensures DateOf(m) == DateOf(n) <==> m == n
  {
    var a, b := DateOf(m), DateOf(n);
    if DateLess(a, b) {
      EarlierDateEarlierDay(a, b);
    } else if DateLess(b, a) {
      EarlierDateEarlierDay(b, a);
    }
  }

  /** The other half of the bijection: a date is recovered from its day number. */
  lemma DateRoundTrip(d: Date)
    requires ValidDate(d)
    ensures DateOf(DayNumber(d)) == d
  {
    var e := DateOf(DayNumber(d));
    if DateLess(d, e) {
      EarlierDateEarlierDay(d, e);
    } else if DateLess(e, d) {
      EarlierDateEarlierDay(e, d);
    }
  }

  /** 0 is Monday, as in datetime.weekday(). */
  function Weekday(n: nat): int {
    n % 7
  }

  // ---------- Instants ----------

  const MICROS_PER_MINUTE: int := 60_000_000

  /** Minutes from the epoch to the end of year 9999, where datetime overflows. */
  const END_MINUTE: int := DaysBeforeYear(10000) * 1440

  type Instant = t: int | 0 <= t < END_MINUTE * MICROS_PER_MINUTE witness 0

  function MinuteOf(t: Instant): (m: nat)
    ensures m < END_MINUTE
    ensures m * MICROS_PER_MINUTE <= t < (m + 1) * MICROS_PER_MINUTE
  {
    t / MICROS_PER_MINUTE
  }

  function StartOf(m: nat): (t: Instant)
    requires m < END_MINUTE
    ensures MinuteOf(t) == m
  {
    m * MICROS_PER_MINUTE
  }

  /** The calendar fields of a whole minute. */
  function MinuteField(m: nat): int { m % 60 }
  function HourField(m: nat): int { m / 60 % 24 }
  function DayOfMinute(m: nat): nat { m / 1440 }

  function DateAt(t: Instant): Date {
    DateOf(DayOfMinute(MinuteOf(t)))
  }

  /** Months from the epoch, the key under which audit files are kept. */
  function MonthIndex(d: Date): int {
    12 * d.year + d.month
  }

  /** Later instants are never in earlier months. */
  lemma MonthsMonotone(s: Instant, t: Instant)
    requires s <= t
    ensures MonthIndex(DateAt(s)) <= MonthIndex(DateAt(t))
  {
    DatesInOrder(DayOfMinute(MinuteOf(s)), DayOfMinute(MinuteOf(t)));
  }

  lemma YearInRange(t: Instant)
    ensures 1 <= DateAt(t).year <= 9999
  {
    var n := DayOfMinute(MinuteOf(t));
    var y := DateOf(n).year;
    if y >= 10000 {
      YearsInOrder(10000, y);
    }
  }
}
