/**
 * A task's schedule configuration (schedule_manager/manager.py:424-745) and the
 * dispatch of the next-run engine on it (lines 747-756, 829-837, 978-982).
 *
 * Each configuration method of a task first refuses to run on a started task
 * (the guard lives with the task) and then updates some of these fields.  The
 * updates are modelled here as pure steps from the old configuration to the
 * new one together with the error raised, if any.  A step that raises can still
 * have changed fields, exactly where the code assigns before it raises.
 */
module Config {

  import opened Wrappers
  import opened Errors
  import opened Calendar
  import opened TimeText
  import opened Engine

  /** `_periodic_unit`: "every", "day", "week" or "month". */
  datatype Unit = Every | Day | Week | Month

  /** A `timedelta` or an `int` of seconds, or an `HH:MM:SS` string. */
  datatype Interval = Seconds(n: int) | IntervalText(s: string)

  /** A `datetime`, or an `HH:MM:SS` / `MM-DD HH:MM:SS` string. */
  datatype StartTime = Instant(m: Moment) | StartText(s: string)

  /** The scheduling fields of a task; the name of each is the source's without `_`. */
  datatype Config = Config(
    unit: Option<Unit>,        // _periodic_unit
    periodic: Option<int>,     // _periodic, in seconds
    atTime: Option<Clock>,     // _at_time
    atWeekDay: Option<int>,    // _at_week_day, Monday 0
    atDay: Option<int>,        // _at_day
    delay: Option<int>,        // _delay, in seconds
    startAt: Option<Moment>,   // _start_at
    isPeriodic: bool,          // _is_periodic
    count: int)                // _nonperiod_count

  /** The configuration of a newly constructed task. */
  const Initial: Config := Config(None, None, None, None, None, None, None, true, 0)

  /** What the configuration methods can store: checked anchors and real instants. */
  predicate WellFormed(c: Config) {
    && (c.atTime.Some? ==> ValidClock(c.atTime.value))
    && (c.atWeekDay.Some? ==> 0 <= c.atWeekDay.value < 7)
    && (c.atDay.Some? ==> 1 <= c.atDay.value <= 31)
    && (c.startAt.Some? ==> ValidMoment(c.startAt.value))
  }

  /** The configuration after a method, and the error it raised (None: it returned). */
  datatype Step = Step(cfg: Config, err: Option<Error>)

  /** A configuration method call, with its arguments. */
  datatype Op =
    | Delay(interval: Option<Interval>)
    | StartAt(at: Option<StartTime>)
    | Nonperiodic(times: int)
    | Periodic
    | Period(every: Option<Interval>)
    | PeriodAt(unitName: string, atText: string, weekDay: Option<string>, day: Option<int>)

  /** A `datetime` argument is always a real instant. */
  predicate ValidOp(op: Op) {
    op.StartAt? && op.at.Some? && op.at.value.Instant? ==> ValidMoment(op.at.value.m)
  }

  lemma ClockInDay(k: Clock)
    requires ValidClock(k)
    ensures 0 <= ClockSeconds(k) < SecondsPerDay
  {
  }

  /** The seconds an interval argument stands for; None when its text does not match. */
  function IntervalSeconds(i: Interval): (r: Option<int>)
    ensures i.IntervalText? ==> (r.Some? <==> ClockText(i.s))
    ensures i.IntervalText? && r.Some? ==> 0 <= r.value < SecondsPerDay
  {
    match i
    case Seconds(n) => Some(n)
    case IntervalText(s) =>
      match ParseClock(s)
      case None => None
      case Some(k) => ClockInDay(k); Some(ClockSeconds(k))
  }

  // ---------------------------------------------------------------------
  // The configuration methods after their guard.

  /** `delay`: None cancels the delay; a valid interval replaces the start time. */
  function DelayStep(c: Config, arg: Option<Interval>): (r: Step)
    ensures WellFormed(c) ==> WellFormed(r.cfg)
  {
    match arg
    case None => Step(c.(delay := None), None)
    case Some(i) =>
      match IntervalSeconds(i)
      case None => Step(c, Some(TimeFormat))
      case Some(n) => Step(c.(startAt := None, delay := Some(n)), None)
  }

  /**
   * `start_at`: None cancels the start time; otherwise it replaces the delay.
   * A clock text means today at that time; a date-clock text means that day of
   * the current year, which fails when the date does not exist (after the
   * delay was already cleared).
   */
  function StartAtStep(c: Config, arg: Option<StartTime>, now: Moment): (r: Step)
    requires ValidMoment(now)
    requires arg.Some? && arg.value.Instant? ==> ValidMoment(arg.value.m)
    ensures WellFormed(c) ==> WellFormed(r.cfg)
  {
    match arg
    case None => Step(c.(startAt := None), None)
    case Some(Instant(m)) => Step(c.(delay := None, startAt := Some(m)), None)
    case Some(StartText(s)) =>
      match ParseClock(s)
      case Some(k) =>
        ClockInDay(k);
        Step(c.(delay := None, startAt := Some(Moment(now.date, ClockSeconds(k)))), None)
      case None =>
        match ParseDateClock(s)
        case None => Step(c, Some(TimeFormat))
        case Some(dc) =>
          match MakeDate(now.date.year, dc.month, dc.day)
          case None => Step(c.(delay := None), Some(CalendarValue))
          case Some(d) =>
            ClockInDay(dc.clock);
            Step(c.(delay := None, startAt := Some(Moment(d, ClockSeconds(dc.clock)))), None)
  }

  function NonperiodicStep(c: Config, times: int): (r: Step)
    ensures WellFormed(c) ==> WellFormed(r.cfg)
  {
    if times <= 0 then Step(c, Some(OperationFail(BadCount)))
    else Step(c.(isPeriodic := false, count := times), None)
  }

  function PeriodicStep(c: Config): (r: Step)
    ensures WellFormed(c) ==> WellFormed(r.cfg)
  {
    Step(c.(isPeriodic := true), None)
  }

  /** `period`: the unit becomes "every" before the interval is checked. */
  function PeriodStep(c: Config, arg: Option<Interval>): (r: Step)
    ensures WellFormed(c) ==> WellFormed(r.cfg)
  {
    var c1 := c.(unit := Some(Every));
    match arg
    case None => Step(c1, Some(MissingValue))
    case Some(i) =>
      match IntervalSeconds(i)
      case None => Step(c1, Some(TimeFormat))
      case Some(n) => Step(c1.(periodic := Some(n)), None)
  }

  /** `week_day_list`. */
  function WeekdayNumber(name: string): (r: Option<int>)
    ensures r.Some? ==> 0 <= r.value < 7
  {
    if name == "Monday" then Some(0)
    else if name == "Tuesday" then Some(1)
    else if name == "Wednesday" then Some(2)
    else if name == "Thursday" then Some(3)
    else if name == "Friday" then Some(4)
    else if name == "Saturday" then Some(5)
    else if name == "Sunday" then Some(6)
    else None
  }

  /** `ref_week`, the inverse table the finish hook uses. */
  function WeekdayName(w: Option<int>): Option<string> {
    match w
    case None => None
    case Some(n) =>
      if n == 0 then Some("Monday")
      else if n == 1 then Some("Tuesday")
      else if n == 2 then Some("Wednesday")
      else if n == 3 then Some("Thursday")
      else if n == 4 then Some("Friday")
      else if n == 5 then Some("Saturday")
      else if n == 6 then Some("Sunday")
      else None
  }

  /** The unit names `period_at` accepts; "every" is not one of them. */
  function UnitName(u: Option<Unit>): string {
    match u
    case Some(Day) => "day"
    case Some(Week) => "week"
    case Some(Month) => "month"
    case _ => ""
  }

  /**
   * `period_at`: the unit is recorded first, then the time text, then the
   * weekday or the day, each raising TimeFormatError when it does not fit.
   * An unknown unit changes nothing.
   */
  function PeriodAtStep(c: Config, unitName: string, atText: string, weekDay: Option<string>, day: Option<int>): (r: Step)
    ensures WellFormed(c) ==> WellFormed(r.cfg)
  {
    var u := if unitName == "day" then Some(Day)
             else if unitName == "week" then Some(Week)
             else if unitName == "month" then Some(Month)
             else None;
    if u.None? then Step(c, Some(TimeFormat))
    else
      var c1 := c.(unit := u);
      match ParseClock(atText)
      case None => Step(c1, Some(TimeFormat))
      case Some(k) =>
        var c2 := c1.(atTime := Some(k));
        if u == Some(Day) then Step(c2, None)
        else if u == Some(Week) then
          match (if weekDay.Some? then WeekdayNumber(weekDay.value) else None)
          case None => Step(c2, Some(TimeFormat))
          case Some(w) => Step(c2.(atWeekDay := Some(w)), None)
        else
          if day.Some? && 1 <= day.value <= 31 then Step(c2.(atDay := day), None)
          else Step(c2, Some(TimeFormat))
  }

  /** `period_day_at`, `period_week_at` and `period_month_at`, with their defaults. */
  function PeriodDayAt(atText: string): Op { PeriodAt("day", atText, Some("Monday"), Some(1)) }
  function PeriodWeekAt(atText: string, weekDay: string): Op { PeriodAt("week", atText, Some(weekDay), Some(1)) }
  function PeriodMonthAt(atText: string, day: int): Op { PeriodAt("month", atText, Some("Monday"), Some(day)) }

  /** Any configuration method; a well-formed configuration stays well-formed. */
  function Apply(c: Config, op: Op, now: Moment): (r: Step)
    requires ValidMoment(now) && ValidOp(op)
    ensures WellFormed(c) ==> WellFormed(r.cfg)
  {
    match op
    case Delay(i) => DelayStep(c, i)
    case StartAt(a) => StartAtStep(c, a, now)
    case Nonperiodic(n) => NonperiodicStep(c, n)
    case Periodic => PeriodicStep(c)
    case Period(i) => PeriodStep(c, i)
    case PeriodAt(u, t, w, d) => PeriodAtStep(c, u, t, w, d)
  }

  // ---------------------------------------------------------------------
  // The next due instant (`_next_run_at`): the initial computation when there
  // is no previous one, the recomputation otherwise.

  function InitNextRun(c: Config, now: Moment): (r: Result<Moment>)
    requires WellFormed(c) && ValidMoment(now)
    ensures r.Ok? ==> ValidMoment(r.value)
  {
    match c.unit
    case None => Err(MissingValue)  // nothing is set; the loop then compares with None
    case Some(Every) => Ok(now)
    case Some(Day) =>
      if c.atTime.None? then Err(MissingValue)
      else Ok(InitDay(now, ClockSeconds(c.atTime.value)))
    case Some(Week) =>
      if c.atTime.None? || c.atWeekDay.None? then Err(MissingValue)
      else
        ClockInDay(c.atTime.value);
        InitWeekFirst(now, ClockSeconds(c.atTime.value), c.atWeekDay.value);
        Ok(InitWeek(now, ClockSeconds(c.atTime.value), c.atWeekDay.value))
    case Some(Month) =>
      if c.atTime.None? || c.atDay.None? then Err(MissingValue)
      else Ok(InitMonth(now, ClockSeconds(c.atTime.value), c.atDay.value))
  }

  function Recompute(c: Config, last: Moment, now: Moment, ignoreSkipped: bool): (r: Result<Moment>)
    requires WellFormed(c) && ValidMoment(last) && ValidMoment(now)
    ensures r.Ok? ==> ValidMoment(r.value)
  {
    match c.unit
    case None => Err(MissingValue)
    case Some(Every) =>
      if c.periodic.None? then Err(MissingValue)
      else EveryValid(last, now, c.periodic.value, ignoreSkipped); RecomputeEvery(last, now, c.periodic.value, ignoreSkipped)
    case Some(Day) => RecomputeDay(last, now, ignoreSkipped)
    case Some(Week) =>
      // the anchors are read only on the catch-up path
      if c.atTime.Some? && c.atWeekDay.Some? then
        ClockInDay(c.atTime.value);
        WeekValid(last, now, ClockSeconds(c.atTime.value), c.atWeekDay.value, ignoreSkipped);
        Ok(RecomputeWeek(last, now, ClockSeconds(c.atTime.value), c.atWeekDay.value, ignoreSkipped))
      else if ignoreSkipped && Index(AddDaysAt(last, 7)) < Index(now) then Err(MissingValue)
      else
        WeekValid(last, now, 0, 0, ignoreSkipped);
        Ok(RecomputeWeek(last, now, 0, 0, ignoreSkipped))
    case Some(Month) =>
      if c.atTime.Some? && c.atDay.Some? then
        Ok(RecomputeMonth(last, now, ClockSeconds(c.atTime.value), c.atDay.value, ignoreSkipped))
      else if ignoreSkipped && Index(Moment(NextMonthSameDay(last.date), last.secs)) < Index(now) then Err(MissingValue)
      else Ok(RecomputeMonth(last, now, 0, 1, ignoreSkipped))
  }

  function NextRunAt(c: Config, nextRun: Option<Moment>, now: Moment, ignoreSkipped: bool): (r: Result<Moment>)
    requires WellFormed(c) && ValidMoment(now) && (nextRun.Some? ==> ValidMoment(nextRun.value))
    ensures r.Ok? ==> ValidMoment(r.value)
  {
    if nextRun.None? then InitNextRun(c, now) else Recompute(c, nextRun.value, now, ignoreSkipped)
  }

  /** The anchor a calendar configuration fires at. */
  function AnchorOf(c: Config): Option<Anchor> {
    if c.atTime.None? then None
    else
      var at := ClockSeconds(c.atTime.value);
      match c.unit
      case Some(Day) => Some(Daily(at))
      case Some(Week) => if c.atWeekDay.Some? then Some(Weekly(at, c.atWeekDay.value)) else None
      case Some(Month) => if c.atDay.Some? then Some(Monthly(at, c.atDay.value)) else None
      case _ => None
  }

  // ---------------------------------------------------------------------
  // The configuration a paused task hands to its replacement
  // (`_action_after_finish`, lines 1040-1072): the same calls the hook makes on
  // a new task, stopping at the first one that raises.

  function Then(s: Step, f: Config -> Step): Step {
    if s.err.Some? then s else f(s.cfg)
  }

  function RespawnSchedule(c: Config): Step {
    if c.unit == Some(Every) then
      PeriodStep(Initial, if c.periodic.Some? then Some(Seconds(c.periodic.value)) else None)
    else if c.atTime.None? then Step(Initial, Some(MissingValue))  // the time text reads `_at_time[i]`
    else
      var k := c.atTime.value;
      if k.hour < 0 || k.minute < 0 || k.second < 0 then Step(Initial, Some(TimeFormat))  // a sign is not a digit
      else PeriodAtStep(Initial, UnitName(c.unit), ClockString(k), WeekdayName(c.atWeekDay), c.atDay)
  }

  function RespawnCount(c: Config, n: Config): Step {
    if !c.isPeriodic then NonperiodicStep(n, c.count) else Step(n, None)
  }

  /** A pending delay becomes the time still left; a future start time is kept. */
  function RespawnStart(c: Config, n: Config, now: Moment): Step
    requires ValidMoment(now)
  {
    if c.delay.Some? && c.delay.value != 0 then
      if c.startAt.None? || !ValidMoment(c.startAt.value) then Step(n, Some(MissingValue))
      else DelayStep(n, Some(Seconds(Index(c.startAt.value) - Index(now))))
    else if c.startAt.Some? && ValidMoment(c.startAt.value) && Index(now) < Index(c.startAt.value) then
      StartAtStep(n, Some(Instant(c.startAt.value)), now)
    else Step(n, None)
  }

  function Respawn(c: Config, now: Moment): Step
    requires ValidMoment(now)
  {
    Then(Then(RespawnSchedule(c), n => RespawnCount(c, n)), n => RespawnStart(c, n, now))
  }

  /** A configuration a started task can have: a unit with the values it needs. */
  predicate Scheduled(c: Config) {
    WellFormed(c) &&
    match c.unit
    case None => false
    case Some(Every) => c.periodic.Some?
    case Some(Day) => c.atTime.Some?
    case Some(Week) => c.atTime.Some? && c.atWeekDay.Some?
    case Some(Month) => c.atTime.Some? && c.atDay.Some?
  }

  // ---------------------------------------------------------------------
  // Properties of the configuration methods.

  /** A delay and a start time are never both left set by a call that returns. */
  lemma DelayClearsStartAt(c: Config, i: Interval)
    ensures var r := DelayStep(c, Some(i));
      && (r.err.None? <==> IntervalSeconds(i).Some?)
      && (r.err.None? ==> r.cfg.startAt.None? && r.cfg.delay == IntervalSeconds(i))
      && (r.err.Some? ==> r.err == Some(TimeFormat) && r.cfg == c)
  {
  }

  lemma StartAtClearsDelay(c: Config, t: StartTime, now: Moment)
    requires ValidMoment(now) && (t.Instant? ==> ValidMoment(t.m))
    ensures var r := StartAtStep(c, Some(t), now);
      r.err.None? ==> r.cfg.delay.None? && r.cfg.startAt.Some?
  {
  }

  /**
   * How a start-time text fails: a text matching neither pattern raises
   * TimeFormatError and changes nothing; a date-clock text naming a date the
   * current year lacks (month 0, day 0, 02-30, ...) raises the calendar error
   * with the delay already cleared.
   */
  lemma StartTextErrors(c: Config, s: string, now: Moment)
    requires ValidMoment(now)
    ensures var r := StartAtStep(c, Some(StartText(s)), now);
      && (r.err == Some(TimeFormat) <==> !ClockText(s) && !DateClockText(s))
      && (r.err == Some(TimeFormat) ==> r.cfg == c)
      && (r.err == Some(CalendarValue) <==>
            !ClockText(s) && DateClockText(s) &&
            var dc := ParseDateClock(s).value;
            !ValidDate(Date(now.date.year, dc.month, dc.day)))
      && (r.err == Some(CalendarValue) ==> r.cfg == c.(delay := None))
      && (r.err.None? || r.err == Some(TimeFormat) || r.err == Some(CalendarValue))
  {
  }

  /** A clock text starts the task today at that time. */
  lemma StartTextToday(c: Config, s: string, now: Moment)
    requires ValidMoment(now) && ClockText(s)
    ensures var r := StartAtStep(c, Some(StartText(s)), now);
      && r.err.None?
      && r.cfg.startAt == Some(Moment(now.date, ClockSeconds(ParseClock(s).value)))
  {
  }

  /** `nonperiodic(n)` with n <= 0 raises and leaves the task as it was, periodic included. */
  lemma NonperiodicRejects(c: Config, n: int)
    ensures var r := NonperiodicStep(c, n);
      && (r.err.Some? <==> n <= 0)
      && (r.err.Some? ==> r.err == Some(OperationFail(BadCount)) && r.cfg == c)
      && (r.err.None? ==> !r.cfg.isPeriodic && r.cfg.count == n)
  {
  }

  /**
   * `period` records the unit "every" even when it then raises; it succeeds
   * exactly for a number of seconds or a clock text.
   */
  lemma PeriodUnitFirst(c: Config, arg: Option<Interval>)
    ensures var r := PeriodStep(c, arg);
      && r.cfg.unit == Some(Every)
      && (r.err.None? <==> arg.Some? && IntervalSeconds(arg.value).Some?)
      && (r.err.None? ==> r.cfg.periodic == IntervalSeconds(arg.value))
      && (r.err.Some? ==> r.cfg == c.(unit := Some(Every)))
  {
  }

  /** `period_at` succeeds exactly when every argument its unit reads is valid. */
  lemma PeriodAtSpec(c: Config, unitName: string, atText: string, weekDay: Option<string>, day: Option<int>)
    ensures var r := PeriodAtStep(c, unitName, atText, weekDay, day);
      && (r.err.None? <==>
            && (unitName == "day" || unitName == "week" || unitName == "month")
            && ClockText(atText)
            && (unitName == "week" ==> weekDay.Some? && WeekdayNumber(weekDay.value).Some?)
            && (unitName == "month" ==> day.Some? && 1 <= day.value <= 31))
      && (r.err.Some? ==> r.err == Some(TimeFormat))
      && (r.err.None? ==>
            && r.cfg.unit == Some(if unitName == "day" then Day else if unitName == "week" then Week else Month)
            && r.cfg.atTime == ParseClock(atText)
            && (unitName == "week" ==> r.cfg.atWeekDay == WeekdayNumber(weekDay.value))
            && (unitName == "month" ==> r.cfg.atDay == day))
      && (unitName != "day" && unitName != "week" && unitName != "month" ==> r.cfg == c)
  {
  }

  /** The hook's weekday name reads back as the same weekday. */
  lemma WeekdayNameRoundTrip(w: int)
    requires 0 <= w < 7
    ensures WeekdayName(Some(w)).Some?
    ensures WeekdayNumber(WeekdayName(Some(w)).value) == Some(w)
  {
  }

  // ---------------------------------------------------------------------
  // The dispatch meets the engine's promises.

  /** For "every" the first run is now; otherwise the earliest anchor instant at or after now. */
  lemma InitNextRunSpec(c: Config, now: Moment)
    requires Scheduled(c) && ValidMoment(now)
    ensures InitNextRun(c, now).Ok?
    ensures c.unit == Some(Every) ==> InitNextRun(c, now).value == now
    ensures c.unit != Some(Every) ==>
      AnchorOf(c).Some? && FirstAtOrAfter(InitNextRun(c, now).value, now, AnchorOf(c).value)
  {
    if c.unit != Some(Every) {
      var at := ClockSeconds(c.atTime.value);
      ClockInDay(c.atTime.value);
      match c.unit.value
      case Day => InitDayFirst(now, at);
      case Week => InitWeekFirst(now, at, c.atWeekDay.value);
      case Month => InitMonthFirst(now, at, c.atDay.value);
    }
  }

  /**
   * Without `ignore_skipped` a calendar task is next due at exactly the next
   * anchor instant after the last due one, however late it is now.
   */
  lemma RecomputeReplay(c: Config, last: Moment, now: Moment)
    requires Scheduled(c) && c.unit != Some(Every) && ValidMoment(now)
    requires AnchorOf(c).Some? && IsAnchor(last, AnchorOf(c).value)
    ensures Recompute(c, last, now, false).Ok?
    ensures FirstAfter(Recompute(c, last, now, false).value, last, AnchorOf(c).value)
  {
    var at := ClockSeconds(c.atTime.value);
    ClockInDay(c.atTime.value);
    match c.unit.value
    case Day => DayReplay(last, now, at);
    case Week => WeekReplay(last, now, at, c.atWeekDay.value);
    case Month => MonthReplay(last, now, at, c.atDay.value);
  }

  /**
   * With `ignore_skipped` a calendar task that was due (last <= now) is next due
   * at the first anchor instant strictly after now; for "day" only while
   * `last + 1 day` is in the current year.
   */
  lemma RecomputeCatchUp(c: Config, last: Moment, now: Moment)
    requires Scheduled(c) && c.unit != Some(Every) && ValidMoment(now)
    requires AnchorOf(c).Some? && IsAnchor(last, AnchorOf(c).value) && Index(last) <= Index(now)
    requires c.unit == Some(Day) ==> AddDaysAt(last, 1).date.year == now.date.year
    ensures Recompute(c, last, now, true).Ok?
    ensures FirstAfter(Recompute(c, last, now, true).value, now, AnchorOf(c).value)
  {
    var at := ClockSeconds(c.atTime.value);
    ClockInDay(c.atTime.value);
    match c.unit.value
    case Day => DayCatchUp(last, now, at);
    case Week => WeekCatchUp(last, now, at, c.atWeekDay.value);
    case Month => MonthCatchUp(last, now, at, c.atDay.value);
  }

  // ---------------------------------------------------------------------
  // The replacement of a paused task.

  /**
   * A paused task that was scheduled hands its replacement the same unit, the
   * anchors that unit reads, the same periodicity and remaining count; a
   * pending delay becomes the time left until the old start time, and a start
   * time still in the future is kept.
   */
  lemma RespawnSpec(c: Config, now: Moment)
    requires Scheduled(c) && ValidMoment(now)
    requires !c.isPeriodic ==> c.count > 0
    requires c.delay.Some? && c.delay.value != 0 ==> c.startAt.Some?
    ensures var r := Respawn(c, now);
      && r.err.None?
      && WellFormed(r.cfg)
      && r.cfg.unit == c.unit
      && (c.unit == Some(Every) ==> r.cfg.periodic == c.periodic)
      && (c.unit != Some(Every) ==> r.cfg.atTime == c.atTime)
      && (c.unit == Some(Week) ==> r.cfg.atWeekDay == c.atWeekDay)
      && (c.unit == Some(Month) ==> r.cfg.atDay == c.atDay)
      && r.cfg.isPeriodic == c.isPeriodic
      && (!c.isPeriodic ==> r.cfg.count == c.count)
      && (c.delay.Some? && c.delay.value != 0 ==>
            r.cfg.delay == Some(Index(c.startAt.value) - Index(now)) && r.cfg.startAt.None?)
      && (!(c.delay.Some? && c.delay.value != 0) ==>
            r.cfg.delay.None? &&
            (r.cfg.startAt.Some? <==> c.startAt.Some? && Index(now) < Index(c.startAt.value)) &&
            (r.cfg.startAt.Some? ==> r.cfg.startAt == c.startAt))
  {
    RespawnScheduleSpec(c);
    var s := RespawnSchedule(c);
    RespawnCountSpec(c, s.cfg);
    RespawnStartSpec(c, RespawnCount(c, s.cfg).cfg, now);
  }

  /** Replaying the unit gives a fresh configuration with the same unit and anchors. */
  lemma RespawnScheduleSpec(c: Config)
    requires Scheduled(c)
    ensures var s := RespawnSchedule(c);
      && s.err.None?
      && WellFormed(s.cfg)
      && s.cfg.unit == c.unit
      && (c.unit == Some(Every) ==> s.cfg.periodic == c.periodic)
      && (c.unit != Some(Every) ==> s.cfg.atTime == c.atTime)
      && (c.unit == Some(Week) ==> s.cfg.atWeekDay == c.atWeekDay)
      && (c.unit == Some(Month) ==> s.cfg.atDay == c.atDay)
      && s.cfg.isPeriodic && s.cfg.delay.None? && s.cfg.startAt.None?
  {
    if c.unit != Some(Every) {
      var k := c.atTime.value;
      ClockRoundTrip(k);
      if c.unit == Some(Week) {
        WeekdayNameRoundTrip(c.atWeekDay.value);
      }
    }
  }

  /** Replaying the count keeps everything but the periodicity and the count. */
  lemma RespawnCountSpec(c: Config, n: Config)
    requires WellFormed(n) && n.isPeriodic
    requires !c.isPeriodic ==> c.count > 0
    ensures var s := RespawnCount(c, n);
      && s.err.None?
      && s.cfg == n.(isPeriodic := c.isPeriodic, count := if c.isPeriodic then n.count else c.count)
  {
  }

  /** Replaying the start keeps the schedule and carries the pending start over. */
  lemma RespawnStartSpec(c: Config, n: Config, now: Moment)
    requires WellFormed(n) && ValidMoment(now) && WellFormed(c)
    requires n.delay.None? && n.startAt.None?
    requires c.delay.Some? && c.delay.value != 0 ==> c.startAt.Some?
    ensures var s := RespawnStart(c, n, now);
      && s.err.None?
      && WellFormed(s.cfg)
      && s.cfg.(delay := None, startAt := None) == n
      && (c.delay.Some? && c.delay.value != 0 ==>
            s.cfg.delay == Some(Index(c.startAt.value) - Index(now)) && s.cfg.startAt.None?)
      && (!(c.delay.Some? && c.delay.value != 0) ==>
            s.cfg.delay.None? &&
            (s.cfg.startAt.Some? <==> c.startAt.Some? && Index(now) < Index(c.startAt.value)) &&
            (s.cfg.startAt.Some? ==> s.cfg.startAt == c.startAt))
  {
  }
}
