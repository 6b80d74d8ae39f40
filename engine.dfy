/**
 * The next-run time engine of a task (schedule_manager/manager.py:747-976):
 * when a task first becomes active, and again after every execution, it
 * computes the instant the job is next due.  `now` is the clock reading the
 * code takes with `datetime.now()`, passed in.  `at` is the anchor time of
 * day in seconds, `weekday` the anchor weekday (Monday 0) and `day` the anchor
 * day of the month.
 */
module Engine {

  import opened Wrappers
  import opened Errors
  import opened Calendar

  /** The instants a calendar schedule fires at. */
  datatype Anchor =
    | Daily(at: int)
    | Weekly(at: int, weekday: int)
    | Monthly(at: int, day: int)

  predicate ValidAnchor(a: Anchor) {
    0 <= a.at < SecondsPerDay
    && (a.Weekly? ==> 0 <= a.weekday < 7)
    && (a.Monthly? ==> 1 <= a.day <= 31)
  }

  predicate IsAnchor(m: Moment, a: Anchor) {
    ValidMoment(m) && m.secs == a.at
    && (a.Weekly? ==> Weekday(m.date) == a.weekday)
    && (a.Monthly? ==> m.date.day == a.day)
  }

  /** `r` is the earliest anchor instant at or after `t`. */
  ghost predicate FirstAtOrAfter(r: Moment, t: Moment, a: Anchor)
    requires ValidMoment(t)
  {
    IsAnchor(r, a) && Index(r) >= Index(t)
    && forall m :: IsAnchor(m, a) && Index(m) >= Index(t) ==> Index(r) <= Index(m)
  }

  /** `r` is the earliest anchor instant strictly after `t`. */
  ghost predicate FirstAfter(r: Moment, t: Moment, a: Anchor)
    requires ValidMoment(t)
  {
    IsAnchor(r, a) && Index(r) > Index(t)
    && forall m :: IsAnchor(m, a) && Index(m) > Index(t) ==> Index(r) <= Index(m)
  }

  /** `now.replace(hour=h, minute=m, second=s)`. */
  function TodayAt(now: Moment, at: int): Moment {
    Moment(now.date, at)
  }

  /** `ceil(a / b)` computed exactly. */
  function CeilDiv(a: int, b: int): int
    requires b != 0
    decreases if b < 0 then 1 else 0
  {
    if b > 0 then (if a % b == 0 then a / b else a / b + 1) else CeilDiv(-a, -b)
  }

  /**
   * `math.ceil(d / p) * p`: the catch-up distance in seconds, counted out in
   * whole periods so that no product of unknowns appears
   * (`CatchUpOffsetIsCeil` shows it is the ceiling times the period).
   */
  function CatchUpOffset(d: int, p: int): int
    requires p != 0
    decreases if p < 0 then 1 else 0, if d > 0 then d else 0, if d <= -p then -d else 0
  {
    if p < 0 then -CatchUpOffset(-d, -p)
    else if d > 0 then CatchUpOffset(d - p, p) + p
    else if d <= -p then CatchUpOffset(d + p, p) - p
    else 0
  }

  // ---------------------------------------------------------------------
  // The month rollover shared by every month computation: December goes to
  // January of the next year, otherwise `replace(month=month+1)`, and when
  // that day does not exist, `replace(month=month+2)`.

  /**
   * The rollover never fails: no day 1-31 is missing from two consecutive
   * months.  It lands on the same day of a later month, and no date with that
   * day lies strictly between.
   */
  function NextMonthSameDay(d: Date): (r: Date)
    requires ValidDate(d)
    ensures ValidDate(r) && r.day == d.day
    ensures r.year > d.year || (r.year == d.year && r.month > d.month)
    ensures d.month == 12 ==> r == Date(d.year + 1, 1, d.day)
    ensures forall e :: ValidDate(e) && e.day == d.day && DateBefore(d, e) ==> !DateBefore(e, r)
  {
    if d.month == 12 then Date(d.year + 1, 1, d.day)
    else if d.day <= DaysInMonth(d.year, d.month + 1) then Date(d.year, d.month + 1, d.day)
    else Date(d.year, d.month + 2, d.day)
  }

  // ---------------------------------------------------------------------
  // Initial computation (`_set_next_run_init*`, lines 747-827).

  function InitDay(now: Moment, at: int): (r: Moment)
    requires ValidMoment(now) && 0 <= at < SecondsPerDay
    ensures ValidMoment(r)
  {
    var run := TodayAt(now, at);
    if Index(run) < Index(now) then AddDaysAt(run, 1) else run
  }

  function InitWeek(now: Moment, at: int, weekday: int): Moment
    requires ValidMoment(now) && 0 <= at < SecondsPerDay
  {
    var tmp := TodayAt(now, at);
    var w := Weekday(tmp.date);
    if w < weekday then AddDaysAt(tmp, weekday - w)
    else if w > weekday then AddDaysAt(tmp, 7 + weekday - w)
    else if Index(tmp) < Index(now) then AddDaysAt(tmp, 7)
    else tmp
  }

  function InitMonth(now: Moment, at: int, day: int): (r: Moment)
    requires ValidMoment(now) && 0 <= at < SecondsPerDay && 1 <= day <= 31
    ensures ValidMoment(r)
  {
    var y, m := now.date.year, now.date.month;
    if day <= DaysInMonth(y, m) then
      var tmp := Moment(Date(y, m, day), at);
      if now.date.day > day then Moment(NextMonthSameDay(tmp.date), at)
      else if now.date.day == day && Index(tmp) < Index(now) then Moment(NextMonthSameDay(tmp.date), at)
      else tmp
    else
      // the anchor day does not exist this month: `replace(month=month+1, day=day)`,
      // which cannot fail either
      Moment(Date(y, m + 1, day), at)
  }

  // ---------------------------------------------------------------------
  // Recomputation after the job ran (`_set_next_run_*`, lines 839-976).

  /**
   * Every instant this mode compares lies a whole offset after `last`, so the
   * catch-up (lines 841-848) is followed on the offset: `now` lies `d` past
   * `last`, and the result one period past it, or, when that is already
   * past, as many periods as reach now, plus one more when that is exactly now.
   */
  function RecomputeEvery(last: Moment, now: Moment, period: int, ignoreSkipped: bool): (r: Result<Moment>)
    requires ValidMoment(last) && ValidMoment(now)
    ensures r.Ok? ==> ValidMoment(r.value)
  {
    if !ignoreSkipped then Ok(AddSeconds(last, period))
    else
      var d := Index(now) - Index(last);
      if period < d && period == 0 then Err(ZeroDivision)
      else Ok(AddSeconds(last, GridOffset(d, period)))
  }

  function RecomputeDay(last: Moment, now: Moment, ignoreSkipped: bool): (r: Result<Moment>)
    requires ValidMoment(last) && ValidMoment(now)
    ensures r.Ok? ==> ValidMoment(r.value)
  {
    if !ignoreSkipped then Ok(AddDaysAt(last, 1))
    else
      var first := AddDaysAt(last, 1);
      if Index(first) < Index(now) then
        // `replace(month=now.month, day=now.day)` keeps the year of `first`
        match MakeDate(first.date.year, now.date.month, now.date.day)
        case None => Err(CalendarValue)
        case Some(d) =>
          var snapped := Moment(d, first.secs);
          Ok(if Index(snapped) <= Index(now) then AddDaysAt(snapped, 1) else snapped)
      else
        Ok(if Index(first) <= Index(now) then AddDaysAt(first, 1) else first)
  }

  function RecomputeWeek(last: Moment, now: Moment, at: int, weekday: int, ignoreSkipped: bool): Moment
    requires ValidMoment(last) && ValidMoment(now) && 0 <= at < SecondsPerDay
  {
    if !ignoreSkipped then AddDaysAt(last, 7)
    else
      var first := AddDaysAt(last, 7);
      var next := if Index(first) < Index(now) then InitWeek(now, at, weekday) else first;
      if Index(next) <= Index(now) then AddDaysAt(next, 7) else next
  }

  function RecomputeMonth(last: Moment, now: Moment, at: int, day: int, ignoreSkipped: bool): (r: Moment)
    requires ValidMoment(last) && ValidMoment(now) && 0 <= at < SecondsPerDay && 1 <= day <= 31
    ensures ValidMoment(r)
  {
    var first := Moment(NextMonthSameDay(last.date), last.secs);
    if !ignoreSkipped then first
    else
      var next := if Index(first) < Index(now) then InitMonth(now, at, day) else first;
      if Index(next) <= Index(now) then Moment(NextMonthSameDay(next.date), next.secs) else next
  }

  // ---------------------------------------------------------------------
  // Arithmetic facts.

  lemma CeilDivBounds(a: int, b: int)
    requires b > 0
    ensures (CeilDiv(a, b) - 1) * b < a <= CeilDiv(a, b) * b
  {
    var q, r := a / b, a % b;
    assert a == q * b + r;
    if r == 0 {
      assert CeilDiv(a, b) * b == a;
      assert (q - 1) * b == a - b;
    } else {
      assert CeilDiv(a, b) * b == q * b + b;
      assert (CeilDiv(a, b) - 1) * b == q * b;
    }
  }

  /** Two dates on the same weekday are a whole number of weeks apart. */
  lemma SameWeekdayGap(x: Date, y: Date)
    requires ValidDate(x) && ValidDate(y)
    requires Weekday(x) == Weekday(y) && Ordinal(x) < Ordinal(y)
    ensures Ordinal(y) >= Ordinal(x) + 7
  {
    var a, b := Ordinal(x) + 6, Ordinal(y) + 6;
    assert a == 7 * (a / 7) + a % 7;
    assert b == 7 * (b / 7) + b % 7;
    assert b - a == 7 * (b / 7 - a / 7);
  }

  /** Instants at one time of day are ordered as their dates. */
  lemma SameClock(x: Moment, y: Moment)
    requires ValidMoment(x) && ValidMoment(y) && x.secs == y.secs
    ensures Index(x) <= Index(y) <==> Ordinal(x.date) <= Ordinal(y.date)
  {
    assert Index(y) - Index(x) == (Ordinal(y.date) - Ordinal(x.date)) * SecondsPerDay;
  }

  /** An anchor instant at or after `t` falls on `t`'s date or later. */
  lemma AnchorDay(m: Moment, t: Moment, a: Anchor)
    requires IsAnchor(m, a) && ValidMoment(t) && Index(m) >= Index(t)
    ensures Ordinal(m.date) >= Ordinal(t.date)
  {
  }

  /** Anchor instants of one anchor are ordered as their dates. */
  lemma AnchorOrder(x: Moment, y: Moment, a: Anchor)
    requires IsAnchor(x, a) && IsAnchor(y, a)
    ensures Index(x) < Index(y) <==> DateBefore(x.date, y.date)
    ensures Index(x) == Index(y) <==> x == y
  {
    OrdinalOrder(x.date, y.date);
  }

  /** The first anchor after `t` is also the first after any later `u` it still exceeds. */
  lemma FirstAfterLater(r: Moment, t: Moment, u: Moment, a: Anchor)
    requires ValidMoment(t) && ValidMoment(u)
    requires FirstAfter(r, t, a) && Index(t) <= Index(u) < Index(r)
    ensures FirstAfter(r, u, a)
  {
  }

  lemma FirstAtOrAfterIsFirstAfter(r: Moment, t: Moment, a: Anchor)
    requires ValidMoment(t) && FirstAtOrAfter(r, t, a) && Index(r) > Index(t)
    ensures FirstAfter(r, t, a)
  {
  }

  // ---------------------------------------------------------------------
  // One step from an anchor instant to the next.

  lemma DayStep(m: Moment, a: Anchor)
    requires a.Daily? && IsAnchor(m, a)
    ensures FirstAfter(AddDaysAt(m, 1), m, a)
  {
    forall x | IsAnchor(x, a) && Index(x) > Index(m)
      ensures Index(AddDaysAt(m, 1)) <= Index(x)
    {
      assert Ordinal(x.date) > Ordinal(m.date);
    }
  }

  lemma WeekStep(m: Moment, a: Anchor)
    requires a.Weekly? && IsAnchor(m, a)
    ensures FirstAfter(AddDaysAt(m, 7), m, a)
  {
    WeekLater(m, a);
    forall x | IsAnchor(x, a) && Index(x) > Index(m)
      ensures Index(AddDaysAt(m, 7)) <= Index(x)
    {
      WeekGap(m, x, a);
    }
  }

  lemma WeekLater(m: Moment, a: Anchor)
    requires a.Weekly? && IsAnchor(m, a)
    ensures IsAnchor(AddDaysAt(m, 7), a)
  {
    var o := Ordinal(m.date) + 6;
    assert Ordinal(AddDays(m.date, 7)) + 6 == 7 * 1 + o;
    ModShift(o, 1);
  }

  lemma WeekGap(m: Moment, x: Moment, a: Anchor)
    requires a.Weekly? && IsAnchor(m, a) && IsAnchor(x, a) && Index(x) > Index(m)
    ensures Index(AddDaysAt(m, 7)) <= Index(x)
  {
    SameClock(x, m);
    SameWeekdayGap(m.date, x.date);
    SameClock(AddDaysAt(m, 7), x);
  }

  lemma MonthStep(m: Moment, a: Anchor)
    requires a.Monthly? && IsAnchor(m, a)
    ensures FirstAfter(Moment(NextMonthSameDay(m.date), m.secs), m, a)
  {
    var r := Moment(NextMonthSameDay(m.date), m.secs);
    AnchorOrder(m, r, a);
    forall x | IsAnchor(x, a) && Index(x) > Index(m)
      ensures Index(r) <= Index(x)
    {
      AnchorOrder(m, x, a);
      AnchorOrder(x, r, a);
    }
  }

  // ---------------------------------------------------------------------
  // The initial computation returns the earliest anchor instant at or after
  // now; an anchor equal to now is due at once.

  lemma InitDayFirst(now: Moment, at: int)
    requires ValidMoment(now) && 0 <= at < SecondsPerDay
    ensures FirstAtOrAfter(InitDay(now, at), now, Daily(at))
  {
    var r := InitDay(now, at);
    var t := TodayAt(now, at);
    forall x | IsAnchor(x, Daily(at)) && Index(x) >= Index(now)
      ensures Index(r) <= Index(x)
    {
      AnchorDay(x, now, Daily(at));
      SameClock(r, x);
      SameClock(x, t);
    }
  }

  lemma InitWeekFirst(now: Moment, at: int, weekday: int)
    requires ValidMoment(now) && 0 <= at < SecondsPerDay && 0 <= weekday < 7
    ensures FirstAtOrAfter(InitWeek(now, at, weekday), now, Weekly(at, weekday))
  {
    var a := Weekly(at, weekday);
    var r := InitWeek(now, at, weekday);
    InitWeekAnchor(now, at, weekday);
    forall x | IsAnchor(x, a) && Index(x) >= Index(now)
      ensures Index(r) <= Index(x)
    {
      AnchorDay(x, now, a);
      if Ordinal(x.date) < Ordinal(r.date) {
        SameWeekdayGap(x.date, r.date);
      }
    }
  }

  /** `InitWeek` lands on the anchor weekday, `InitWeekDays` days after today. */
  lemma InitWeekAnchor(now: Moment, at: int, weekday: int)
    requires ValidMoment(now) && 0 <= at < SecondsPerDay && 0 <= weekday < 7
    ensures var r := InitWeek(now, at, weekday);
      IsAnchor(r, Weekly(at, weekday)) && Ordinal(r.date) == Ordinal(now.date) + InitWeekDays(now, at, weekday)
  {
    InitWeekShift(now, at, weekday);
    InitWeekWeekday(now, at, weekday);
  }

  lemma InitWeekWeekday(now: Moment, at: int, weekday: int)
    requires ValidMoment(now) && 0 <= at < SecondsPerDay && 0 <= weekday < 7
    ensures Weekday(InitWeek(now, at, weekday).date) == weekday
  {
    InitWeekShift(now, at, weekday);
    WeekdayGap(now.date, InitWeek(now, at, weekday).date, InitWeekDays(now, at, weekday));
  }

  lemma InitWeekShift(now: Moment, at: int, weekday: int)
    requires ValidMoment(now) && 0 <= at < SecondsPerDay && 0 <= weekday < 7
    ensures InitWeek(now, at, weekday) == AddDaysAt(TodayAt(now, at), InitWeekDays(now, at, weekday))
  {
  }

  /** The number of days `InitWeek` moves forward from today. */
  function InitWeekDays(now: Moment, at: int, weekday: int): (k: int)
    requires ValidMoment(now) && 0 <= at < SecondsPerDay && 0 <= weekday < 7
    ensures 0 <= k <= 7
    ensures k == 7 ==> Index(TodayAt(now, at)) < Index(now)
    ensures (Weekday(now.date) + k) % 7 == weekday
  {
    var w := Weekday(now.date);
    if w < weekday then assert w + (weekday - w) == weekday; weekday - w
    else if w > weekday then assert w + (7 + weekday - w) == weekday + 7; 7 + weekday - w
    else if Index(TodayAt(now, at)) < Index(now) then assert w + 7 == weekday + 7; 7 else 0
  }

  lemma InitMonthFirst(now: Moment, at: int, day: int)
    requires ValidMoment(now) && 0 <= at < SecondsPerDay && 1 <= day <= 31
    ensures FirstAtOrAfter(InitMonth(now, at, day), now, Monthly(at, day))
  {
    InitMonthAnchor(now, at, day);
    forall x | IsAnchor(x, Monthly(at, day)) && Index(x) >= Index(now)
      ensures Index(InitMonth(now, at, day)) <= Index(x)
    {
      InitMonthBelow(now, at, day, x);
    }
  }

  /** `InitMonth` is an anchor instant, not before now. */
  lemma InitMonthAnchor(now: Moment, at: int, day: int)
    requires ValidMoment(now) && 0 <= at < SecondsPerDay && 1 <= day <= 31
    ensures var r := InitMonth(now, at, day);
      IsAnchor(r, Monthly(at, day)) && Index(r) >= Index(now)
  {
    var r := InitMonth(now, at, day);
    var n := now.date;
    if day > DaysInMonth(n.year, n.month) || n.day > day {
      OrdinalOrder(n, r.date);
    }
  }

  /** No anchor instant at or after now comes before `InitMonth`. */
  lemma InitMonthBelow(now: Moment, at: int, day: int, x: Moment)
    requires ValidMoment(now) && 0 <= at < SecondsPerDay && 1 <= day <= 31
    requires IsAnchor(x, Monthly(at, day)) && Index(x) >= Index(now)
    ensures Index(InitMonth(now, at, day)) <= Index(x)
  {
    var a := Monthly(at, day);
    var r := InitMonth(now, at, day);
    var n := now.date;
    var t := Moment(Date(n.year, n.month, day), at);
    InitMonthAnchor(now, at, day);
    AnchorDay(x, now, a);
    OrdinalOrder(x.date, n);
    AnchorOrder(x, r, a);
    if day <= DaysInMonth(n.year, n.month) && r != t {
      AnchorOrder(t, x, a);
    }
  }

  // ---------------------------------------------------------------------
  // Recomputation with `ignore_skipped`: one firing, then the first anchor
  // strictly after now (given the job was due: last <= now).

  /** The catch-up distance is `ceil(d / p) * p`, for either sign of `p`. */
  lemma {:induction false} CatchUpOffsetIsCeil(d: int, p: int)
    requires p != 0
    ensures CatchUpOffset(d, p) == CeilDiv(d, p) * p
    decreases if p < 0 then 1 else 0, if d > 0 then d else 0, if d <= -p then -d else 0
  {
    if p < 0 {
      CatchUpOffsetIsCeil(-d, -p);
      CeilNegated(d, p);
    } else if d > 0 {
      CatchUpOffsetIsCeil(d - p, p);
      CeilUp(d - p, p);
    } else if d <= -p {
      CatchUpOffsetIsCeil(d + p, p);
      CeilUp(d, p);
    } else {
      CeilFirst(d, p);
    }
  }

  lemma CeilNegated(d: int, p: int)
    requires p < 0
    ensures CeilDiv(-d, -p) * -p == -(CeilDiv(d, p) * p)
  {
    var k := CeilDiv(-d, -p);
    assert -(k * -p) == k * p;
  }

  lemma CeilUp(a: int, b: int)
    requires b > 0
    ensures CeilDiv(a + b, b) * b == CeilDiv(a, b) * b + b
  {
    CeilDivStep(a, b);
    var k := CeilDiv(a, b);
    assert (k + 1) * b == k * b + b;
  }

  lemma CeilFirst(d: int, p: int)
    requires p > 0 && -p < d <= 0
    ensures CeilDiv(d, p) == 0
  {
    if d < 0 {
      DivUnique(d, p, -1, d + p);
    } else {
      DivUnique(0, p, 0, 0);
    }
  }

  /** One more period adds one to the ceiling. */
  lemma CeilDivStep(a: int, b: int)
    requires b > 0
    ensures CeilDiv(a + b, b) == CeilDiv(a, b) + 1
  {
    var q, r := a / b, a % b;
    assert a == q * b + r;
    assert a + b == (q + 1) * b + r;
    DivUnique(a + b, b, q + 1, r);
  }

  /** Euclidean division is determined by its defining equation. */
  lemma DivUnique(x: int, b: int, q: int, r: int)
    requires b > 0 && 0 <= r < b && x == q * b + r
    ensures x / b == q && x % b == r
  {
    var q', r' := x / b, x % b;
    assert x == q' * b + r';
    assert (q - q') * b == r' - r;
    ProductSign(b, q - q');
  }

  lemma MultipleMod(k: int, p: int)
    requires p > 0
    ensures (k * p) % p == 0
  {
    var x := k * p;
    var q, r := x / p, x % p;
    assert x == p * q + r;
    assert p * (k - q) == r;
    ProductSign(p, k - q);
  }

  lemma ProductSign(p: int, j: int)
    requires p > 0
    ensures j >= 1 ==> p * j >= p
    ensures j <= -1 ==> p * j <= -p
  {
  }

  /** The least multiple of `p` that is at least `d`, and the one after it. */
  lemma CeilMultiple(d: int, p: int)
    requires p > 0
    ensures var m := CeilDiv(d, p) * p;
      m >= d && m - p < d && m % p == 0 && (m + p) % p == 0
  {
    var k := CeilDiv(d, p);
    CeilDivBounds(d, p);
    assert (k - 1) * p == k * p - p;
    MultipleMod(k, p);
    MultipleMod(k + 1, p);
    assert k * p + p == (k + 1) * p;
  }

  /** The smallest last + k*period (k >= 1) strictly after now. */
  lemma EveryCatchUp(last: Moment, now: Moment, period: int)
    requires ValidMoment(last) && ValidMoment(now)
    requires period > 0 && Index(last) <= Index(now)
    ensures RecomputeEvery(last, now, period, true).Ok?
    ensures var r := RecomputeEvery(last, now, period, true).value;
      && ValidMoment(r)
      && Index(r) > Index(now)
      && Index(r) - period <= Index(now)
      && Index(r) >= Index(last) + period
      && (Index(r) - Index(last)) % period == 0
  {
    var r := RecomputeEvery(last, now, period, true).value;
    GridBounds(Index(last), Index(now), period);
  }

  /** The catch-up bounds, stated on the instants' indices. */
  lemma GridBounds(l: int, n: int, p: int)
    requires p > 0 && l <= n
    ensures var r := l + GridOffset(n - l, p);
      r > n && r - p <= n && r >= l + p && (r - l) % p == 0
  {
    GridCatchUp(n - l, p);
  }

  /** How far past `last` the every-mode catch-up lands, `now` being `d` past it. */
  function GridOffset(d: int, p: int): int
    requires p < d ==> p != 0
  {
    var m := if p < d then CatchUpOffset(d, p) else p;
    if m == d then m + p else m
  }

  lemma EveryValid(last: Moment, now: Moment, period: int, ignoreSkipped: bool)
    requires ValidMoment(last) && ValidMoment(now)
    ensures var r := RecomputeEvery(last, now, period, ignoreSkipped);
      r.Ok? ==> ValidMoment(r.value)
  {
  }

  lemma WeekValid(last: Moment, now: Moment, at: int, weekday: int, ignoreSkipped: bool)
    requires ValidMoment(last) && ValidMoment(now) && 0 <= at < SecondsPerDay && 0 <= weekday < 7
    ensures ValidMoment(RecomputeWeek(last, now, at, weekday, ignoreSkipped))
  {
    InitWeekFirst(now, at, weekday);
  }

  lemma GridCatchUp(d: int, p: int)
    requires p > 0 && d >= 0
    ensures var g := GridOffset(d, p);
      g > d && g - p <= d && g >= p && g % p == 0
  {
    if p < d {
      CatchUpOffsetIsCeil(d, p);
      CeilMultiple(d, p);
    } else {
      MultipleMod(1, p);
      MultipleMod(2, p);
    }
  }

  /**
   * Day mode: the first anchor strictly after now, provided `last + 1 day` and
   * `now` lie in the same year (the catch-up keeps the year of `last + 1 day`).
   */
  lemma DayCatchUp(last: Moment, now: Moment, at: int)
    requires ValidMoment(now) && 0 <= at < SecondsPerDay
    requires IsAnchor(last, Daily(at)) && Index(last) <= Index(now)
    requires AddDaysAt(last, 1).date.year == now.date.year
    ensures RecomputeDay(last, now, true).Ok?
    ensures FirstAfter(RecomputeDay(last, now, true).value, now, Daily(at))
  {
    var a := Daily(at);
    var first := AddDaysAt(last, 1);
    DayStep(last, a);
    if Index(first) < Index(now) {
      var snapped := Moment(now.date, at);
      assert RecomputeDay(last, now, true) ==
        Ok(if Index(snapped) <= Index(now) then AddDaysAt(snapped, 1) else snapped);
      if Index(snapped) <= Index(now) {
        DayStep(snapped, a);
        FirstAfterLater(AddDaysAt(snapped, 1), snapped, now, a);
      } else {
        forall x | IsAnchor(x, a) && Index(x) > Index(now)
          ensures Index(snapped) <= Index(x)
        {
          AnchorDay(x, now, a);
        }
      }
    } else if Index(first) == Index(now) {
      DayStep(first, a);
    } else {
      FirstAfterLater(first, last, now, a);
    }
  }

  lemma WeekCatchUp(last: Moment, now: Moment, at: int, weekday: int)
    requires ValidMoment(now) && 0 <= at < SecondsPerDay && 0 <= weekday < 7
    requires IsAnchor(last, Weekly(at, weekday)) && Index(last) <= Index(now)
    ensures FirstAfter(RecomputeWeek(last, now, at, weekday, true), now, Weekly(at, weekday))
  {
    var a := Weekly(at, weekday);
    var first := AddDaysAt(last, 7);
    WeekStep(last, a);
    var next := if Index(first) < Index(now) then InitWeek(now, at, weekday) else first;
    if Index(first) < Index(now) {
      InitWeekFirst(now, at, weekday);
    }
    if Index(next) <= Index(now) {
      WeekStep(next, a);
    } else if Index(first) < Index(now) {
      FirstAtOrAfterIsFirstAfter(next, now, a);
    } else {
      FirstAfterLater(first, last, now, a);
    }
  }

  lemma MonthCatchUp(last: Moment, now: Moment, at: int, day: int)
    requires ValidMoment(now) && 0 <= at < SecondsPerDay && 1 <= day <= 31
    requires IsAnchor(last, Monthly(at, day)) && Index(last) <= Index(now)
    ensures FirstAfter(RecomputeMonth(last, now, at, day, true), now, Monthly(at, day))
  {
    var a := Monthly(at, day);
    var first := Moment(NextMonthSameDay(last.date), last.secs);
    MonthStep(last, a);
    var next := if Index(first) < Index(now) then InitMonth(now, at, day) else first;
    if Index(first) < Index(now) {
      InitMonthFirst(now, at, day);
    }
    if Index(next) <= Index(now) {
      MonthStep(next, a);
    } else if Index(first) < Index(now) {
      FirstAtOrAfterIsFirstAfter(next, now, a);
    } else {
      FirstAfterLater(first, last, now, a);
    }
  }

  // ---------------------------------------------------------------------
  // Recomputation without `ignore_skipped`: exactly the next anchor point
  // after `last`, whatever `now` is; missed points are replayed one by one.

  lemma EveryReplay(last: Moment, now: Moment, period: int)
    requires ValidMoment(last) && ValidMoment(now)
    ensures RecomputeEvery(last, now, period, false).Ok?
    ensures Index(RecomputeEvery(last, now, period, false).value) == Index(last) + period
  {
  }

  lemma DayReplay(last: Moment, now: Moment, at: int)
    requires ValidMoment(now) && IsAnchor(last, Daily(at))
    ensures RecomputeDay(last, now, false).Ok?
    ensures FirstAfter(RecomputeDay(last, now, false).value, last, Daily(at))
  {
    DayStep(last, Daily(at));
  }

  lemma WeekReplay(last: Moment, now: Moment, at: int, weekday: int)
    requires ValidMoment(now) && 0 <= at < SecondsPerDay && IsAnchor(last, Weekly(at, weekday))
    ensures FirstAfter(RecomputeWeek(last, now, at, weekday, false), last, Weekly(at, weekday))
  {
    WeekStep(last, Weekly(at, weekday));
  }

  lemma MonthReplay(last: Moment, now: Moment, at: int, day: int)
    requires ValidMoment(now) && 0 <= at < SecondsPerDay && 1 <= day <= 31
    requires IsAnchor(last, Monthly(at, day))
    ensures FirstAfter(RecomputeMonth(last, now, at, day, false), last, Monthly(at, day))
  {
    MonthStep(last, Monthly(at, day));
  }
}
