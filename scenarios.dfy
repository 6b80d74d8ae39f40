/**
 * Worked examples of the next-run engine and the time-text grammars, taken
 * from the situations the repository's tests describe
 * (test_schedule_manager.py).  The tests fix a year in which 8 July is a
 * Wednesday; 2020 is such a year.
 */
module Scenarios {

  import opened Wrappers
  import opened Errors
  import opened Calendar
  import opened TimeText
  import opened Config
  import opened Engine

  const Noon: int := 12 * 3600

  /** Wednesday 2020-07-08 12:00:00, the clock reading of the initial-run tests. */
  const July8: Moment := Moment(Date(2020, 7, 8), Noon)

  lemma July2020Weekdays()
    ensures Weekday(Date(2020, 7, 8)) == 2
    ensures Weekday(Date(2020, 7, 10)) == 4
    ensures Weekday(Date(2020, 7, 14)) == 1
  {
  }

  /** test_run_task__period_week_at_Init_run_at (test_schedule_manager.py:1156-1216). */
  lemma WeekInitVectors()
    ensures InitWeek(July8, 18 * 3600, 4) == Moment(Date(2020, 7, 10), 18 * 3600)
    ensures InitWeek(July8, 6 * 3600, 1) == Moment(Date(2020, 7, 14), 6 * 3600)
    ensures InitWeek(July8, 10 * 3600, 2) == Moment(Date(2020, 7, 15), 10 * 3600)
    ensures InitWeek(July8, Noon, 2) == July8
  {
    July2020Weekdays();
  }

  /**
   * The last case of the same test: the first run is due right now, so it
   * fires and the next run is a week later (test_schedule_manager.py:1205-1216).
   */
  lemma WeekRunNow()
    ensures RecomputeWeek(InitWeek(July8, Noon, 2), July8, Noon, 2, true) == Moment(Date(2020, 7, 15), Noon)
  {
    July2020Weekdays();
  }

  /** test_run_task__period_month_at_Init_run_at_part1 (test_schedule_manager.py:1661-1707). */
  lemma MonthInitVectors()
    ensures InitMonth(July8, 18 * 3600, 12) == Moment(Date(2020, 7, 12), 18 * 3600)
    ensures InitMonth(July8, 6 * 3600, 2) == Moment(Date(2020, 8, 2), 6 * 3600)
    ensures InitMonth(July8, Noon, 8) == July8
  {
  }

  /**
   * The last case of the same test: the first run is due right now, so it
   * fires and the next run is a month later (test_schedule_manager.py:1696-1707).
   */
  lemma MonthRunNow()
    ensures RecomputeMonth(InitMonth(July8, Noon, 8), July8, Noon, 8, true) == Moment(Date(2020, 8, 8), Noon)
  {
  }

  /**
   * Day 31 after 31 January: February has no day 31, so the rollover skips
   * to March (the `month + 2` fallback at lines 816, 929, 941, 960 and 975).
   */
  lemma MonthSkipsShortMonth()
    ensures NextMonthSameDay(Date(2020, 1, 31)) == Date(2020, 3, 31)
    ensures InitMonth(Moment(Date(2020, 2, 10), 0), 0, 31) == Moment(Date(2020, 3, 31), 0)
    ensures NextMonthSameDay(Date(2020, 12, 31)) == Date(2021, 1, 31)
  {
  }

  /** The clock grammar accepts one or two digits per field (test_schedule_manager.py:254-264). */
  lemma ClockShort()
    ensures ParseClock("2:3:4") == Some(Clock(2, 3, 4))
    ensures ClockSeconds(Clock(2, 3, 4)) == 7384
  {
    assert "2:3:4" == "2" + ":" + "3" + ":" + "4";
    Three("2", "3", "4");
    assert Value("2") == 2 && Value("3") == 3 && Value("4") == 4 by {
      assert "2"[..0] == "" && "3"[..0] == "" && "4"[..0] == "";
    }
  }

  /** The last second of the day is a clock text. */
  lemma ClockLast()
    ensures ParseClock("23:59:59") == Some(Clock(23, 59, 59))
  {
    assert "23:59:59" == "23" + ":" + "59" + ":" + "59";
    Three("23", "59", "59");
    TwoDigits("23");
    TwoDigits("59");
  }

  /** Seconds 80 are refused (test_schedule_manager.py:247-253). */
  lemma ClockRejectsSecond()
    ensures ParseClock("16:18:80").None?
  {
    assert "16:18:80" == "16" + ":" + "18" + ":" + "80";
    Three("16", "18", "80");
  }

  /** Minute 78 is refused (test_schedule_manager.py:247-253). */
  lemma ClockRejectsMinute()
    ensures ParseClock("16:78:20").None?
  {
    assert "16:78:20" == "16" + ":" + "78" + ":" + "20";
    Three("16", "78", "20");
  }

  /** Hour 26 is refused (test_schedule_manager.py:247-253). */
  lemma ClockRejectsHour()
    ensures ParseClock("26:28:20").None?
  {
    assert "26:28:20" == "26" + ":" + "28" + ":" + "20";
    Three("26", "28", "20");
  }

  /** A clock text needs all three fields. */
  lemma ClockNeedsThreeFields()
    ensures ParseClock("12:00").None?
  {
    assert "12:00" == "12" + [':'] + "00";
    SplitAfter("12", ':', "00");
    SplitPlain("00", ':');
  }

  /** Splitting a clock-shaped text at its two colons. */
  lemma Three(a: string, b: string, c: string)
    requires ':' !in a && ':' !in b && ':' !in c
    ensures Split(a + ":" + b + ":" + c, ':') == [a, b, c]
  {
    assert a + ":" + b + ":" + c == a + [':'] + b + [':'] + c;
    SplitThree(a, b, c, ':');
  }

  /** `delay` refuses the month-day form (test_schedule_manager.py:247-253). */
  lemma DelayRejectsDate()
    ensures DelayStep(Initial, Some(IntervalText("12-04 16:00:00"))) == Step(Initial, Some(TimeFormat))
  {
    assert "12-04 16:00:00" == "12-04 16" + ":" + "00" + ":" + "00";
    Three("12-04 16", "00", "00");
  }

  /**
   * The day-mode catch-up keeps the year of the missed run (lines 862-863):
   * after a run on 2019-12-30, checked at 2020-03-01, the candidate
   * 2019-12-31 is snapped to 2019-03-01 and then moved one day, so the next
   * run lands a year before now.
   */
  lemma DayCatchUpKeepsYear()
    ensures RecomputeDay(Moment(Date(2019, 12, 30), 0), Moment(Date(2020, 3, 1), Noon), true)
         == Ok(Moment(Date(2019, 3, 2), 0))
  {
  }

  /**
   * The same snap raises the calendar error when now is 29 February and the
   * missed run's year is not a leap year.
   */
  lemma DayCatchUpLeapDay()
    ensures RecomputeDay(Moment(Date(2019, 2, 26), 0), Moment(Date(2020, 2, 29), Noon), true)
         == Err(CalendarValue)
  {
  }

  /** `period(0)` divides by zero once the task is behind, and not before (line 844). */
  lemma ZeroPeriod(last: Moment, now: Moment)
    requires ValidMoment(last) && ValidMoment(now)
    ensures RecomputeEvery(last, now, 0, true).Err? <==> Index(last) < Index(now)
    ensures RecomputeEvery(last, now, 0, true).Err? ==> RecomputeEvery(last, now, 0, true).error == ZeroDivision
  {
  }

  /**
   * The every-mode catch-up with a 10-second period: last run at 12:00:00,
   * clock at 12:00:35, so the runs at :10, :20 and :30 are skipped and the
   * next is at :40.
   */
  lemma EveryCatchUpVector()
    ensures RecomputeEvery(July8, Moment(July8.date, Noon + 35), 10, true) == Ok(Moment(July8.date, Noon + 40))
    ensures RecomputeEvery(July8, Moment(July8.date, Noon + 35), 10, false) == Ok(Moment(July8.date, Noon + 10))
  {
    assert CatchUpOffset(-5, 10) == 0;
    assert CatchUpOffset(5, 10) == 10;
    assert CatchUpOffset(15, 10) == 20;
    assert CatchUpOffset(25, 10) == 30;
    assert CatchUpOffset(35, 10) == 40;
  }
}
