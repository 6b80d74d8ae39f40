/**
 * The proleptic Gregorian calendar as Python's `datetime` sees it, at whole
 * seconds.  A date keeps its calendar fields; its day ordinal follows
 * `date.toordinal()` (0001-01-01 is ordinal 1) and its weekday
 * `date.weekday()` (Monday is 0).  An instant is a date and a second of the
 * day, and instants are compared by `Index`, the seconds elapsed on that
 * ordinal scale, exactly as `datetime` values compare chronologically.
 */
module Calendar {

  import opened Wrappers

  const SecondsPerDay: int := 86400

  datatype Date = Date(year: int, month: int, day: int)

  /** An instant: a date and the second of that day (no microseconds). */
  datatype Moment = Moment(date: Date, secs: int)

  predicate IsLeap(y: int) {
    y % 4 == 0 && (y % 100 != 0 || y % 400 == 0)
  }

  function DaysInMonth(y: int, m: int): (n: int)
    requires 1 <= m <= 12
    ensures 28 <= n <= 31
    ensures n == 31 <==> m in {1, 3, 5, 7, 8, 10, 12}
  {
    if m == 2 then (if IsLeap(y) then 29 else 28)
    else if m == 4 || m == 6 || m == 9 || m == 11 then 30
    else 31
  }

  function DaysInYear(y: int): int {
    if IsLeap(y) then 366 else 365
  }

  predicate ValidDate(d: Date) {
    1 <= d.month <= 12 && 1 <= d.day <= DaysInMonth(d.year, d.month)
  }

  predicate ValidMoment(m: Moment) {
    ValidDate(m.date) && 0 <= m.secs < SecondsPerDay
  }

  /** Days in the years before year `y` (Python's `_days_before_year`). */
  function DaysBeforeYear(y: int): int {
    var p := y - 1;
    365 * p + p / 4 - p / 100 + p / 400
  }

  /** Days in the year before the first of month `m` (`_days_before_month`). */
  function DaysBeforeMonth(y: int, m: int): int
    requires 1 <= m <= 12
  {
    var before :=
      if m == 1 then 0 else if m == 2 then 31 else if m == 3 then 59
      else if m == 4 then 90 else if m == 5 then 120 else if m == 6 then 151
      else if m == 7 then 181 else if m == 8 then 212 else if m == 9 then 243
      else if m == 10 then 273 else if m == 11 then 304 else 334;
    before + (if m > 2 && IsLeap(y) then 1 else 0)
  }

  function Ordinal(d: Date): int
    requires 1 <= d.month <= 12
  {
    DaysBeforeYear(d.year) + DaysBeforeMonth(d.year, d.month) + d.day
  }

  /** Monday is 0 and Sunday is 6, as `date.weekday()`. */
  function Weekday(d: Date): (w: int)
    requires 1 <= d.month <= 12
    ensures 0 <= w < 7
  {
    (Ordinal(d) + 6) % 7
  }

  /** Chronological order of calendar fields, earliest first. */
  predicate DateBefore(a: Date, b: Date) {
    a.year < b.year
    || (a.year == b.year && (a.month < b.month || (a.month == b.month && a.day < b.day)))
  }

  function Index(m: Moment): int
    requires 1 <= m.date.month <= 12
  {
    Ordinal(m.date) * SecondsPerDay + m.secs
  }

  // ---------------------------------------------------------------------
  // The ordinal scale agrees with the calendar order.

  lemma YearStep(y: int)
    ensures DaysBeforeYear(y + 1) == DaysBeforeYear(y) + DaysInYear(y)
  {
    FloorStep4(y);
    FloorStep100(y);
    FloorStep400(y);
  }

  /** Floor division by 4, 100 and 400 steps up by one exactly at the multiples. */
  lemma FloorStep4(y: int)
    ensures y / 4 - (y - 1) / 4 == (if y % 4 == 0 then 1 else 0)
  {
  }

  lemma FloorStep100(y: int)
    ensures y / 100 - (y - 1) / 100 == (if y % 100 == 0 then 1 else 0)
  {
  }

  lemma FloorStep400(y: int)
    ensures y / 400 - (y - 1) / 400 == (if y % 400 == 0 then 1 else 0)
  {
  }

  lemma {:induction false} YearsIncrease(y1: int, y2: int)
    requires y1 < y2
    ensures DaysBeforeYear(y1) + DaysInYear(y1) <= DaysBeforeYear(y2)
    decreases y2 - y1
  {
    YearStep(y1);
    if y1 + 1 < y2 {
      YearsIncrease(y1 + 1, y2);
    }
  }

  lemma MonthsIncrease(y: int, m1: int, m2: int)
    requires 1 <= m1 < m2 <= 12
    ensures DaysBeforeMonth(y, m1) + DaysInMonth(y, m1) <= DaysBeforeMonth(y, m2)
  {
  }

  lemma YearEnd(d: Date)
    requires ValidDate(d)
    ensures DaysBeforeMonth(d.year, d.month) + d.day <= DaysInYear(d.year)
  {
  }

  /** Calendar order and ordinal order are the same order on valid dates. */
  lemma OrdinalBefore(a: Date, b: Date)
    requires ValidDate(a) && ValidDate(b)
    requires DateBefore(a, b)
    ensures Ordinal(a) < Ordinal(b)
  {
    if a.year < b.year {
      YearEnd(a);
      YearsIncrease(a.year, b.year);
    } else if a.month < b.month {
      MonthsIncrease(a.year, a.month, b.month);
    }
  }

  lemma OrdinalOrder(a: Date, b: Date)
    requires ValidDate(a) && ValidDate(b)
    ensures Ordinal(a) < Ordinal(b) <==> DateBefore(a, b)
    ensures Ordinal(a) == Ordinal(b) <==> a == b
  {
    if DateBefore(a, b) {
      OrdinalBefore(a, b);
    } else if DateBefore(b, a) {
      OrdinalBefore(b, a);
    } else {
      assert a == b;
    }
  }

  /** Two valid instants with the same index are the same instant. */
  lemma IndexInjective(a: Moment, b: Moment)
    requires ValidMoment(a) && ValidMoment(b)
    requires Index(a) == Index(b)
    ensures a == b
  {
    assert Ordinal(a.date) == Ordinal(b.date);
    OrdinalOrder(a.date, b.date);
  }

  // ---------------------------------------------------------------------
  // Moving by whole days and by seconds (`+ timedelta(...)`).

  function NextDay(d: Date): (r: Date)
    requires ValidDate(d)
    ensures ValidDate(r) && Ordinal(r) == Ordinal(d) + 1
  {
    if d.day < DaysInMonth(d.year, d.month) then Date(d.year, d.month, d.day + 1)
    else if d.month < 12 then Date(d.year, d.month + 1, 1)
    else (YearStep(d.year); Date(d.year + 1, 1, 1))
  }

  function PrevDay(d: Date): (r: Date)
    requires ValidDate(d)
    ensures ValidDate(r) && Ordinal(r) == Ordinal(d) - 1
  {
    if d.day > 1 then Date(d.year, d.month, d.day - 1)
    else if d.month > 1 then Date(d.year, d.month - 1, DaysInMonth(d.year, d.month - 1))
    else (YearStep(d.year - 1); Date(d.year - 1, 12, 31))
  }

  /** The date `k` days later (earlier when `k` is negative). */
  function AddDays(d: Date, k: int): (r: Date)
    requires ValidDate(d)
    ensures ValidDate(r) && Ordinal(r) == Ordinal(d) + k
    decreases if k < 0 then -k else k
  {
    if k == 0 then d
    else if k > 0 then AddDays(NextDay(d), k - 1)
    else AddDays(PrevDay(d), k + 1)
  }

  /** `m + timedelta(seconds=s)`. */
  function AddSeconds(m: Moment, s: int): (r: Moment)
    requires ValidMoment(m)
    ensures ValidMoment(r) && Index(r) == Index(m) + s
  {
    var t := m.secs + s;
    Moment(AddDays(m.date, t / SecondsPerDay), t % SecondsPerDay)
  }

  /** `m + timedelta(days=k)`: same time of day, `k` days later. */
  function AddDaysAt(m: Moment, k: int): (r: Moment)
    requires ValidMoment(m)
    ensures ValidMoment(r) && r.secs == m.secs
    ensures Index(r) == Index(m) + k * SecondsPerDay
  {
    Moment(AddDays(m.date, k), m.secs)
  }

  /** `datetime(...)` or `replace(...)` with these fields: fails when no such date. */
  function MakeDate(y: int, m: int, d: int): (r: Option<Date>)
    ensures r.Some? <==> ValidDate(Date(y, m, d))
    ensures r.Some? ==> r.value == Date(y, m, d)
  {
    if ValidDate(Date(y, m, d)) then Some(Date(y, m, d)) else None
  }

  /** The weekday advances by one with each day. */
  lemma WeekdayShift(d: Date, k: int)
    requires ValidDate(d)
    ensures Weekday(AddDays(d, k)) == (Weekday(d) + k) % 7
  {
    ModAdd(Ordinal(d) + 6, k);
  }

  /** Dates `k` days apart are `k` weekdays apart. */
  lemma WeekdayGap(d: Date, e: Date, k: int)
    requires 1 <= d.month <= 12 && 1 <= e.month <= 12
    requires Ordinal(e) == Ordinal(d) + k
    ensures Weekday(e) == (Weekday(d) + k) % 7
  {
    ModAdd(Ordinal(d) + 6, k);
  }

  lemma ModAdd(a: int, k: int)
    ensures (a + k) % 7 == (a % 7 + k) % 7
  {
    assert a == 7 * (a / 7) + a % 7;
    assert a + k == 7 * (a / 7) + (a % 7 + k);
    ModShift(a % 7 + k, a / 7);
  }

  lemma ModShift(x: int, q: int)
    ensures (7 * q + x) % 7 == x % 7
  {
    var y := 7 * q + x;
    assert y == 7 * (q + x / 7) + x % 7;
  }
}
