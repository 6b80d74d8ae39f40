# ScheduleManager in Dafny

A model of the Python package `schedule_manager`. The package schedules jobs
as threads and keeps track of them by name. The model covers four parts:

- **`Task`** (module `Manager`, class `Task`): a job with a name, an
  ordered tag list without duplicates, a schedule configuration, and the
  start/stop/pause flags. It also holds a back-reference to the
  `ScheduleManager` that registered it.
- **The next-run engine** (modules `Calendar`, `Engine`, `Config`):
  - when a started task is first due: `_set_next_run_init` and
    `_init_day/_week/_month`;
  - when it is due again after each execution: `_set_next_run` and
    `_every/_day/_week/_month`.
  - There are four modes: a fixed interval ("every"), or an anchor time of day
    repeated daily, weekly or monthly.
  - There are two catch-up policies (`ignore_skipped`).
  - Instants are whole seconds on Python's proleptic Gregorian day ordinal,
    so 0001-01-01 is day 1 and Monday is weekday 0.
- **The configuration methods and the run loop** (modules `TimeText`, `Config`,
  `Lifecycle`):
  - the `H:M:S` and `MO-DD H:M:S` grammars;
  - `delay`, `start_at`, `nonperiodic`, `periodic`, `period` and
    `period_at`, and their refusal on a started task;
  - `start`, `stop` and `pause`;
  - the worker body `run`, cut into ticks. Each tick is one pass of a polling
    loop with one clock reading `now`;
  - the finish hook `_action_after_finish`. It unregisters the task, or after
    `pause` replaces it with a fresh copy that is not started.
- **The registry and the group** (modules `Manager` and `Group`):
  - `ScheduleManager` keeps a name→task map in insertion order. It has
    `register`, `register_task`, `unregister`, `task`, the tag queries, and
    the running/pending views.
  - `TaskGroup` is an ordered list of tasks. It has `+`, `set_manager`, the
    batch forwards (tags, configuration, start, stop) and `pause`, which
    rebuilds the list from the replacements.

Classes model the objects the source updates in place: `Task`,
`ScheduleManager` and `TaskGroup`. Their methods carry `modifies` clauses.
A method that loops in the source loops here too, and each loop is proved
against a pure function:

- tag lists in module `Tags`;
- states in module `Lifecycle`;
- query results in `ScheduleManager.Selected`, `Tagged` and `Gather`;
- batch results in `Group.Forward`.

Module `Scenarios` works through concrete cases taken from the repository's
tests: first runs from Wednesday 8 July 2020, clock texts accepted and
refused, the month-end rollover, and the catch-up policies.

The clock (`datetime.now()`) is a parameter. So is the choice of a default
task name (`uuid4`): that name is any fresh name of the form "Task-…".

The model reproduces these behaviours of the code as written:

- A replacement task always has `ignore_skipped` set to true.
- The day mode keeps the year when it catches up (`Engine.RecomputeDay`).
  "Strictly after now" is proved only when that year is now's year.
- `unregister` ignores a falsy name or tag.
- `set_manager` moves only members that already have a manager.
- `start_at` accepts month 0, day 0 and dates like 02-30 as text, then fails
  with a calendar error.
- `period(0)` fails with a division by zero once the task falls behind.

## Model

| member | source | states |
|---|---|---|
| Calendar.DaysInMonth | schedule_manager/manager.py:784-827 | month lengths are 28..31, and 31 exactly for months 1,3,5,7,8,10,12 (the day check `datetime.replace` performs) |
| Calendar.OrdinalOrder | schedule_manager/manager.py:747-982 | the day ordinal orders dates exactly as calendar order does, and it is injective on valid dates |
| Calendar.IndexInjective | schedule_manager/manager.py:747-982 | two valid instants at the same second index are the same instant |
| Calendar.NextDay | schedule_manager/manager.py:862-870 | `+ timedelta(days=1)` gives a valid date one ordinal later |
| Calendar.PrevDay | schedule_manager/manager.py:768-782 | `- timedelta(days=1)` gives a valid date one ordinal earlier |
| Calendar.AddDays | schedule_manager/manager.py:768-782 | adding any number of days gives a valid date exactly that many ordinals away |
| Calendar.AddSeconds | schedule_manager/manager.py:839-852 | `+ timedelta(seconds=s)` gives a valid instant whose index is exactly s seconds later |
| Calendar.AddDaysAt | schedule_manager/manager.py:872-895 | adding days keeps the time of day and moves the index by whole days |
| Calendar.MakeDate | schedule_manager/manager.py:495-514 | building a date succeeds exactly when the day exists in that month of that year (otherwise the calendar ValueError) |
| Calendar.WeekdayShift | schedule_manager/manager.py:768-782 | moving k days moves the weekday by k modulo 7 |
| TimeText.ParseClock | schedule_manager/manager.py:453-461 | an H:M:S text parses exactly when it matches the pattern, and the result is a valid clock (hour < 24, minute and second < 60) |
| TimeText.ParseDateClock | schedule_manager/manager.py:494-504 | an MO-DD H:M:S text parses exactly when it matches the pattern; month is at most 12 and day at most 31 (0 is allowed) |
| TimeText.FieldValues | schedule_manager/manager.py:453-461 | each field pattern admits only digit strings, and their values are bounded as the pattern says |
| TimeText.ClockRoundTrip | schedule_manager/manager.py:1057-1063 | the unpadded text `str(h):str(m):str(s)` that the finish hook builds parses back to the same clock |
| TimeText.PaddedClockRoundTrip | schedule_manager/manager.py:453-461 | the zero-padded HH:MM:SS text of a valid clock parses back to the same clock |
| TimeText.SplitThree | schedule_manager/manager.py:453-461 | splitting `a:b:c` with no separator inside the fields gives the three fields |
| Tags.AddTagsSpec | schedule_manager/manager.py:349-375 | adding tags one by one keeps the old list as a prefix, creates no duplicate, and ends with exactly the old tags plus the new ones |
| Tags.AddTagsPresent | schedule_manager/manager.py:363-375 | adding tags that are all present changes nothing |
| Tags.AddTagsIdempotent | schedule_manager/manager.py:363-375 | adding the same tags twice equals adding them once |
| Tags.SetTagsSpec | schedule_manager/manager.py:405-422 | `set_tags` yields a duplicate-free list holding exactly the given tags |
| Tags.RemoveFirstWithout | schedule_manager/manager.py:377-389 | on a duplicate-free list, removing the first occurrence equals filtering the tag out, and nothing else leaves |
| Tags.RemoveTagSpec | schedule_manager/manager.py:377-389 | `remove_tag` deletes just that tag, keeps the list duplicate-free, and is a no-op when the tag is absent |
| Tags.RemoveTagsSpec | schedule_manager/manager.py:391-403 | `remove_tags` leaves exactly the members not in the removed list |
| Tags.RemoveTagsAbsent | schedule_manager/manager.py:391-403 | removing absent tags changes nothing |
| Tags.RemoveTagsIdempotent | schedule_manager/manager.py:391-403 | removing the same tags twice equals removing them once |
| Config.IntervalSeconds | schedule_manager/manager.py:440-463 | a text interval is accepted exactly when it is clock text, and its value lies within one day |
| Config.DelayClearsStartAt | schedule_manager/manager.py:424-463 | `delay` succeeds exactly on an accepted interval; success sets the delay and clears `start_at`; failure is TimeFormatError and changes nothing |
| Config.StartAtClearsDelay | schedule_manager/manager.py:465-518 | a successful `start_at` sets the start instant and clears the delay |
| Config.StartTextErrors | schedule_manager/manager.py:484-518 | `start_at` text fails with TimeFormatError exactly when it matches neither grammar (nothing changes), and with the calendar error exactly when the MO-DD date does not exist in now's year (the delay is already cleared); no other error |
| Config.StartTextToday | schedule_manager/manager.py:484-493 | an H:M:S start text means that time today |
| Config.NonperiodicRejects | schedule_manager/manager.py:520-538 | `nonperiodic(n)` fails exactly when n ≤ 0, leaving the configuration unchanged; otherwise the task becomes non-periodic with count n |
| Config.PeriodUnitFirst | schedule_manager/manager.py:553-585 | `period` sets the unit to "every" before validating; it succeeds exactly on an accepted interval, which becomes the period |
| Config.PeriodAtSpec | schedule_manager/manager.py:587-672 | `period_at` succeeds exactly for unit day/week/month with clock text, a known weekday name for week, and a day 1..31 for month; it then sets unit, time and anchor; any failure is TimeFormatError; an unknown unit changes nothing |
| Config.WeekdayNameRoundTrip | schedule_manager/manager.py:1046-1063 | the weekday name the finish hook writes back maps to the same weekday number |
| Config.Apply | schedule_manager/manager.py:424-745 | every configuration step keeps a well-formed configuration well-formed |
| Config.InitNextRunSpec | schedule_manager/manager.py:747-756 | the first due instant is now for "every", and the earliest anchor instant at or after now for day, week and month |
| Config.RecomputeReplay | schedule_manager/manager.py:829-837 | without `ignore_skipped`, the next due instant is the first anchor instant after the previous one, whatever now is |
| Config.RecomputeCatchUp | schedule_manager/manager.py:829-837 | with `ignore_skipped`, the next due instant is the first anchor instant strictly after now (day mode: when the next day is in now's year) |
| Config.NextRunAt | schedule_manager/manager.py:978-982 | the engine's answer is a valid instant whenever it succeeds |
| Config.RespawnSpec | schedule_manager/manager.py:1020-1072 | the replacement built by the finish hook has the same unit, period or anchors, periodicity and remaining count; a pending delay becomes the remaining time to `start_at`; otherwise a future `start_at` is kept and a past one dropped |
| Config.RespawnScheduleSpec | schedule_manager/manager.py:1042-1063 | re-applying `period` or `period_at` to a fresh configuration restores the unit and its anchors without error |
| Config.RespawnCountSpec | schedule_manager/manager.py:1065-1066 | re-applying `nonperiodic` restores the remaining count of a non-periodic task |
| Config.RespawnStartSpec | schedule_manager/manager.py:1068-1072 | re-applying `delay` or `start_at` gives the remaining delay, or keeps a future start instant |
| Engine.NextMonthSameDay | schedule_manager/manager.py:897-976 | the next month that has the anchor day: same day, strictly later month, December rolls to January of the next year, and no valid date with that day lies between |
| Engine.InitDay | schedule_manager/manager.py:758-766 | today's anchor time, or tomorrow's when it has passed, is a valid instant |
| Engine.InitDayFirst | schedule_manager/manager.py:758-766 | the daily initial instant is the earliest anchor instant at or after now |
| Engine.InitWeekFirst | schedule_manager/manager.py:768-782 | the weekly initial instant is the earliest instant at or after now with the anchor time and weekday |
| Engine.InitWeekDays | schedule_manager/manager.py:768-782 | the day offset is 0..7, lands on the anchor weekday, and is 7 only when today's anchor time has passed |
| Engine.InitMonth | schedule_manager/manager.py:784-827 | the monthly initial computation always yields a valid instant, so the fallback two months on never fails |
| Engine.InitMonthFirst | schedule_manager/manager.py:784-827 | the monthly initial instant is the earliest instant at or after now with the anchor time and day of month |
| Engine.InitMonthBelow | schedule_manager/manager.py:784-827 | no anchor instant at or after now precedes the monthly initial instant |
| Engine.RecomputeEvery | schedule_manager/manager.py:839-852 | the interval recomputation yields a valid instant whenever it succeeds |
| Engine.EveryCatchUp | schedule_manager/manager.py:839-852 | with `ignore_skipped` and last ≤ now, the result is the smallest last + k·p strictly after now, with k ≥ 1 |
| Engine.EveryReplay | schedule_manager/manager.py:839-852 | without `ignore_skipped`, the result is exactly last + p |
| Engine.RecomputeDay | schedule_manager/manager.py:854-870 | the daily recomputation yields a valid instant whenever it succeeds |
| Engine.DayCatchUp | schedule_manager/manager.py:854-870 | with `ignore_skipped`, the result is the first daily anchor strictly after now, provided the day after last lies in now's year |
| Engine.DayReplay | schedule_manager/manager.py:854-870 | without `ignore_skipped`, the result is the daily anchor one day after last |
| Engine.WeekCatchUp | schedule_manager/manager.py:872-895 | with `ignore_skipped`, the result is the first weekly anchor strictly after now |
| Engine.WeekReplay | schedule_manager/manager.py:872-895 | without `ignore_skipped`, the result is the weekly anchor seven days after last |
| Engine.RecomputeMonth | schedule_manager/manager.py:897-976 | the monthly recomputation always yields a valid instant |
| Engine.MonthCatchUp | schedule_manager/manager.py:897-976 | with `ignore_skipped`, the result is the first monthly anchor strictly after now |
| Engine.MonthReplay | schedule_manager/manager.py:897-976 | without `ignore_skipped`, the result is the first monthly anchor after last |
| Engine.CatchUpOffsetIsCeil | schedule_manager/manager.py:844-846 | the catch-up offset equals `ceil(d / p) * p`, computed exactly on integers |
| Lifecycle.Configure | schedule_manager/manager.py:424-745 | a configuration call keeps a sound task state sound |
| Lifecycle.GuardRefuses | schedule_manager/manager.py:440-442 | a configuration call fails with "already running" exactly when the task is started, and then changes nothing |
| Lifecycle.ConfigureIdempotent | schedule_manager/manager.py:424-745 | repeating a configuration call has no further effect |
| Lifecycle.Start | schedule_manager/manager.py:984-995 | starting keeps a sound state sound |
| Lifecycle.StartStopIdempotent | schedule_manager/manager.py:984-1003 | a second start or stop changes nothing; after a successful start a second start fails because a thread starts once; after a successful stop a second stop fails with "not running" |
| Lifecycle.Preconditions | schedule_manager/manager.py:984-1018 | start fails for lack of a unit exactly when no unit is set; stop fails exactly when not started; pause fails exactly when not started or not managed; success raises the stop (and pause) flags |
| Lifecycle.StartOnce | schedule_manager/manager.py:984-995 | a successful start launches the worker, and any later start fails |
| Lifecycle.StartDelay | schedule_manager/manager.py:984-995 | a start with a pending delay d sets `start_at` to now + d |
| Lifecycle.Tick | schedule_manager/manager.py:1074-1112 | one tick of the worker keeps a sound state sound |
| Lifecycle.Run | schedule_manager/manager.py:1074-1112 | any sequence of ticks keeps a sound state sound |
| Lifecycle.StopEndsRun | schedule_manager/manager.py:1074-1112 | a raised stop flag ends an active worker at its next tick, runs the finish hook, and fires nothing more |
| Lifecycle.PauseEndsRun | schedule_manager/manager.py:1005-1018 | pausing a waiting or polling worker ends it at the next tick with the hook, keeping configuration and count |
| Lifecycle.PollEnds | schedule_manager/manager.py:1094-1108 | a poll either sleeps and keeps polling, or ends the worker with the hook |
| Lifecycle.EnterEnds | schedule_manager/manager.py:1092-1108 | entering the main loop either sleeps in it or ends with the hook |
| Lifecycle.WaitEnds | schedule_manager/manager.py:1084-1091 | the start-at wait either sleeps or ends with the hook |
| Lifecycle.HookRuns | schedule_manager/manager.py:1074-1112 | a tick ends the worker exactly when it was active and becomes finished; it skips the hook exactly when the thread was entered without `start()` |
| Lifecycle.FiringCounts | schedule_manager/manager.py:1094-1104 | a due non-periodic task fires once; the firing that uses up its count sets the stop flag and ends it |
| Lifecycle.AtMostBudget | schedule_manager/manager.py:1094-1104 | a task made non-periodic with count N fires at most N times over any run |
| Lifecycle.BudgetKept | schedule_manager/manager.py:1094-1104 | each tick keeps fired + remaining == N |
| Lifecycle.PeriodicContinues | schedule_manager/manager.py:1094-1104 | a periodic polling task keeps polling; it fires and moves to the recomputed instant exactly when due, and otherwise changes nothing |
| Manager.FreshNameExists | schedule_manager/manager.py:159-161 | a default "Task-…" name outside the registry always exists |
| Manager.UnionSpec | schedule_manager/manager.py:89-98 | the union of tag matches lists each task once, exactly those matching some tag |
| Manager.Task.constructor | schedule_manager/manager.py:213-264 | a new task is not started, has no tags and no manager, and has the default configuration |
| Manager.Task.AddTag | schedule_manager/manager.py:349-361 | the tag list becomes `Tags.AddTag` of the old one; nothing else changes |
| Manager.Task.AddTags | schedule_manager/manager.py:363-375 | the tag list becomes `Tags.AddTags` of the old one, by a loop over the new tags |
| Manager.Task.RemoveTag | schedule_manager/manager.py:377-389 | the tag list becomes `Tags.RemoveTag` of the old one |
| Manager.Task.RemoveTags | schedule_manager/manager.py:391-403 | the tag list becomes `Tags.RemoveTags` of the old one, by a loop |
| Manager.Task.SetTags | schedule_manager/manager.py:405-422 | the tag list becomes `Tags.SetTags` of the argument, by a loop |
| Manager.Task.Configure | schedule_manager/manager.py:424-745 | the state and outcome are `Lifecycle.Configure` of the old state; tags and manager are unchanged |
| Manager.Task.Start | schedule_manager/manager.py:984-995 | the state and outcome are `Lifecycle.Start` of the old state |
| Manager.Task.Stop | schedule_manager/manager.py:997-1003 | the state and outcome are `Lifecycle.Stop` of the old state |
| Manager.Task.Pause | schedule_manager/manager.py:1005-1018 | the state and outcome are `Lifecycle.Pause` of the old state and whether a manager is set |
| Manager.Task.SetManager | schedule_manager/manager.py:314-342 | the back-reference setter succeeds exactly when the new manager maps the name to this task, or when clearing it after the old manager dropped the name; otherwise it fails with "use register" and changes nothing |
| Manager.Task.Finish | schedule_manager/manager.py:1020-1072 | the finish hook removes the task from its manager and clears its back-reference; after a pause it registers a fresh replacement under the same name with the same tags and the respawned configuration |
| Manager.Task.Replace | schedule_manager/manager.py:1033-1072 | `register_task` of the replacement followed by its reconfiguration: a fresh task under the same name whose configuration is `Config.Respawn` |
| Manager.Task.Tick | schedule_manager/manager.py:1074-1112 | one tick changes the task's state as `Lifecycle.Tick` says; the hook runs on the manager exactly when the tick ends the worker after `start()` |
| Manager.ScheduleManager.constructor | schedule_manager/manager.py:20-22 | a new manager holds no tasks |
| Manager.ScheduleManager.Has | schedule_manager/manager.py:29-31 | `name in manager` holds exactly for a name in the registration order, which is never the empty name, and the task under it carries that name |
| Manager.ScheduleManager.Count | schedule_manager/manager.py:41-43 | the count is the number of registered names |
| Manager.ScheduleManager.Find | schedule_manager/manager.py:72-87 | `task(name)` succeeds exactly for a registered name and returns the task under it; otherwise TaskNotFoundError |
| Manager.ScheduleManager.MembersSpec | schedule_manager/manager.py:46-48 | `all_tasks` lists every registered task once |
| Manager.ScheduleManager.SelectedSpec | schedule_manager/manager.py:51-70 | the running (pending) view lists each registered task once, exactly those started (not started) |
| Manager.ScheduleManager.SelectedSplit | schedule_manager/manager.py:51-70 | running and pending views together are as many as the registered tasks |
| Manager.ScheduleManager.TaggedSpec | schedule_manager/manager.py:100-102 | the single-tag query lists each task carrying the tag once |
| Manager.ScheduleManager.GatherSpec | schedule_manager/manager.py:92-97 | the tag-list query lists each task carrying any of the tags once |
| Manager.ScheduleManager.ListedSpec | schedule_manager/manager.py:89-116 | `tasks(tag)` lists each task matching the query exactly once |
| Manager.ScheduleManager.TaggedLoop | schedule_manager/manager.py:100-102 | the loop yields `Tagged` over the registration order |
| Manager.ScheduleManager.GatherLoop | schedule_manager/manager.py:93-97 | the inner loop appends the unseen matches of one tag |
| Manager.ScheduleManager.TaskList | schedule_manager/manager.py:89-103 | `_task_list` yields `Listed` |
| Manager.ScheduleManager.Filter | schedule_manager/manager.py:51-70 | the view loops yield `Selected` over the registration order |
| Manager.ScheduleManager.Register | schedule_manager/manager.py:118-137 | a duplicate name fails with TaskNameDuplicateError and changes nothing; otherwise the task is added under its name, last in order, and its back-reference points here |
| Manager.ScheduleManager.RegisterTask | schedule_manager/manager.py:139-171 | a given duplicate name fails and changes nothing; otherwise a fresh, unstarted, untagged task under the given or a fresh "Task-…" name is added and linked |
| Manager.ScheduleManager.UnregisterName | schedule_manager/manager.py:180-186 | a falsy or unknown name changes nothing; otherwise exactly that name leaves and its task's back-reference is cleared |
| Manager.ScheduleManager.UnregisterTag | schedule_manager/manager.py:188-193 | exactly the tasks the (truthy) tag query selects leave, and their back-references are cleared; every other name keeps its task, and the survivors keep their registration order |
| Manager.ScheduleManager.DropAll | schedule_manager/manager.py:191-193 | the loop deletes each listed task and clears its back-reference; the other entries are kept, and the order becomes the old order with the listed names dropped one by one |
| Manager.ScheduleManager.Unregister | schedule_manager/manager.py:173-193 | every passing `unregister(name, tag)` removes exactly the named task and the tag matches and clears their back-references, whatever the other entries point at; a failure is "use register" only, and on a registry whose tasks all point back here the call always passes; every other name keeps the same task, and on a pass the survivors keep their registration order |
| Manager.ScheduleManager.Adopt | schedule_manager/manager.py:1189-1192 | one `set_manager` move: a task with a manager leaves it and is registered here (or fails as a duplicate); a task without one is untouched |
| Group.RetaggedTwice | schedule_manager/manager.py:1196-1266 | each group tag call keeps tag lists duplicate-free and applying it twice equals applying it once |
| Group.ForwardLeaves | schedule_manager/manager.py:1268-1484 | a batch forward leaves tasks outside the group unchanged |
| Group.ConfigureAll | schedule_manager/manager.py:1268-1474 | a batch configuration succeeds exactly when every member's own call would, and then each member has its own result |
| Group.StartAll | schedule_manager/manager.py:1476-1479 | the batch start succeeds exactly when the members are distinct, idle and have a unit; each is then started |
| Group.StopAll | schedule_manager/manager.py:1481-1484 | the batch stop succeeds exactly when the members are distinct and started; each is then stopped |
| Group.MovingEnd | schedule_manager/manager.py:1189-1192 | after the `set_manager` loop, each member that had a manager is registered in the target and gone from its old manager, and the others keep no manager |
| Group.PauseRefused | schedule_manager/manager.py:1486-1504 | the pause loop stops at a member that is not running or has no manager |
| Group.PauseEnd | schedule_manager/manager.py:1486-1504 | when the pause loop completes, every member was running and managed, and is now settled, unlinked, and replaced in its manager |
| Group.TaskGroup.constructor | schedule_manager/manager.py:1124-1139 | the group holds the given list |
| Group.TaskGroup.Plus | schedule_manager/manager.py:1154-1158 | `a + b` is a new group with a's tasks followed by b's |
| Group.TaskGroup.Precheck | schedule_manager/manager.py:1181-1187 | the pre-check finds a clash exactly when some member's name is in the target |
| Group.TaskGroup.SetManager | schedule_manager/manager.py:1165-1194 | a name clash with the target fails before any change; otherwise the members with a manager move into the target (a fresh manager when none is given), and the move fails exactly when two such members share a name; the target keeps its old entries |
| Group.TaskGroup.MoveAll | schedule_manager/manager.py:1189-1192 | the move loop: each managed member moves; the result says whether the names were apart |
| Group.TaskGroup.Retag | schedule_manager/manager.py:1196-1266 | every member's tag list becomes `Retagged` of its old one; states and managers are unchanged |
| Group.TaskGroup.AddTag | schedule_manager/manager.py:1196-1208 | every member gets `Tags.AddTag` of its list |
| Group.TaskGroup.AddTags | schedule_manager/manager.py:1210-1222 | every member gets `Tags.AddTags` of its list |
| Group.TaskGroup.RemoveTag | schedule_manager/manager.py:1224-1236 | every member gets `Tags.RemoveTag` of its list |
| Group.TaskGroup.RemoveTags | schedule_manager/manager.py:1238-1250 | every member gets `Tags.RemoveTags` of its list |
| Group.TaskGroup.SetTags | schedule_manager/manager.py:1252-1266 | every member gets `Tags.SetTags` of the argument |
| Group.TaskGroup.Each | schedule_manager/manager.py:1268-1484 | a forwarding loop leaves the members in the states `Group.Forward` gives, stopping at the first failure |
| Group.TaskGroup.Configure | schedule_manager/manager.py:1268-1474 | the batch configuration call succeeds exactly when every member's own call does; each member then has its own result |
| Group.TaskGroup.Start | schedule_manager/manager.py:1476-1479 | `start` on the group succeeds exactly when the members are distinct, idle and scheduled; each is then started |
| Group.TaskGroup.Stop | schedule_manager/manager.py:1481-1484 | `stop` on the group succeeds exactly when the members are distinct and started; each is then stopped |
| Group.TaskGroup.Pause | schedule_manager/manager.py:1486-1504 | `pause` succeeds exactly when the members are distinct, running and managed; each is then settled and unlinked, and the group becomes the list of fresh replacements registered under the same names |
| Group.TaskGroup.PauseOne | schedule_manager/manager.py:1493-1502 | one member: `Task.Pause`, the worker's last tick, and the hook; the manager's entry becomes the replacement |
| Group.Tasks | schedule_manager/manager.py:105-116 | `tasks(tag)` is a new group holding `Listed` of the query |
| Group.AllTasks | schedule_manager/manager.py:45-48 | `all_tasks` is a new group of the registered tasks in registration order |
| Group.RunningTasks | schedule_manager/manager.py:50-59 | `running_tasks` is a new group of the started tasks in registration order |
| Group.PendingTasks | schedule_manager/manager.py:61-70 | `pending_tasks` is a new group of the tasks not started, in registration order |
| Scenarios.July2020Weekdays | test_schedule_manager.py:1156-1161 | 8 July 2020 is a Wednesday, 10 July a Friday, 14 July a Tuesday (Monday is 0) |
| Scenarios.WeekInitVectors | test_schedule_manager.py:1156-1216 | from Wednesday 12:00, `period_week_at` first runs Friday 18:00, Tuesday 06:00 next week, Wednesday 10:00 next week, and right now for Wednesday 12:00 |
| Scenarios.WeekRunNow | test_schedule_manager.py:1205-1216 | when the first weekly run is due right now it fires, and the next run is a week later, 15 July 12:00 |
| Scenarios.MonthInitVectors | test_schedule_manager.py:1661-1707 | from 8 July 12:00, `period_month_at` first runs 12 July 18:00, 2 August 06:00, and right now for day 8 at 12:00 |
| Scenarios.MonthRunNow | test_schedule_manager.py:1696-1707 | when the first monthly run is due right now it fires, and the next run is a month later, 8 August 12:00 |
| Scenarios.MonthSkipsShortMonth | schedule_manager/manager.py:784-827 | day 31 after 31 January is 31 March (February is skipped); after 31 December it is 31 January of the next year; the first run for day 31 from 10 February is 31 March |
| Scenarios.ClockShort | test_schedule_manager.py:254-264 | "2:3:4" is the clock 02:03:04, 7384 seconds |
| Scenarios.ClockLast | schedule_manager/manager.py:453-461 | "23:59:59" is a clock text |
| Scenarios.ClockRejectsSecond | test_schedule_manager.py:247-253 | "16:18:80" is not a clock text |
| Scenarios.ClockRejectsMinute | test_schedule_manager.py:247-253 | "16:78:20" is not a clock text |
| Scenarios.ClockRejectsHour | test_schedule_manager.py:247-253 | "26:28:20" is not a clock text |
| Scenarios.ClockNeedsThreeFields | schedule_manager/manager.py:453-461 | "12:00" is not a clock text |
| Scenarios.DelayRejectsDate | test_schedule_manager.py:247-253 | `delay("12-04 16:00:00")` raises TimeFormatError and leaves the task as it was |
| Scenarios.DayCatchUpKeepsYear | schedule_manager/manager.py:854-870 | the catch-up after a run on 2019-12-30, checked at 2020-03-01 12:00, gives 2019-03-02: the snap keeps the old year |
| Scenarios.DayCatchUpLeapDay | schedule_manager/manager.py:854-870 | the same snap onto 29 February of a common year raises the calendar error |
| Scenarios.ZeroPeriod | schedule_manager/manager.py:839-852 | with `period(0)`, the catch-up fails exactly when the last run is before now, and the failure is the division by zero |
| Scenarios.EveryCatchUpVector | schedule_manager/manager.py:839-852 | with a 10-second period and the clock 35 seconds after the last run, the catch-up gives +40 and the plain step +10 |

## Left out

- Threads. `threading.Thread`, `super().start()`, `is_alive` and the
  `time.sleep(CHECK_INTERVAL)` polling are modelled as explicit ticks.
  Each tick takes one clock reading, and the job takes no time on that clock.
- Group.TaskGroup.Pause: requires every started member to be in the waiting
  or polling loop. The source busy-waits there (lines 1498-1499) until the
  worker thread has run its hook; the model then runs that last tick
  directly. On failure it states only the error and the unchanged list, not
  the state of the members paused before the failure.
- Manager.ScheduleManager.Unregister: states which names left, that their
  back-references are cleared, and the survivors' registration order only
  when the call passes. A failure needs a task whose back-reference does not
  point at this manager. The source then stops part-way through, and the
  model states only that no name was added and that the survivors keep their
  tasks.
  The same holds for `Manager.ScheduleManager.UnregisterTag` and
  `Manager.ScheduleManager.DropAll`.
- Manager.ScheduleManager.Register and Manager.ScheduleManager.RegisterTask:
  require a non-empty name (`RegisterTask` only when a name is given).
  `threading.Thread` replaces a falsy name by "Thread-N", and that naming is
  not modelled. The same holds for `Manager.Task.constructor`, whose
  default "Task-…" name is modelled only in `RegisterTask`.
- The uuid in default names. The name is any "Task-…" name not yet
  registered.
- The job call, its `args` and `kwargs`, and any exception the job raises.
- Microseconds and floating point. Instants are whole seconds. The float
  division with `math.ceil` in `_every` is exact integer ceiling division.
- The year range of `datetime` (MINYEAR/MAXYEAR and the OverflowError beyond
  it). Years are unbounded integers.
- Python's string quirks. `re.match` with `$` also accepts a trailing
  newline, `\d` accepts non-ASCII digits, and `bool` passes as `int`. Digits
  are ASCII only.
- `__repr__` and `__del__` of both classes, TaskGroup's `__contains__`,
  `__iter__` and `count` (a group is modelled by its `tasks` sequence), and the
  `next_run` display property.
- Group.TaskGroup.SetManager, Manager.ScheduleManager.Adopt and
  Group.TaskGroup.Pause: they state the map contents of the managers, not
  where a moved name lands in the insertion order.
- Manager.Task.SetTags, Manager.Task.RemoveTags, Group.TaskGroup.SetTags and
  Group.TaskGroup.RemoveTags: take the tag list argument as a value, copied
  before the call. The `tag` property returns the task's own list, so the
  argument can alias the list being changed, and the model does not capture
  that aliasing. In the source, `t.set_tags(t.tag)` clears the list it then
  iterates and leaves no tags. `t.remove_tags(t.tag)` removes from the list
  it iterates, so every other tag survives. A group's `set_tags(m.tag)`
  empties `m`'s list before the members after `m` read it.
- Group.TaskGroup.AddTag, AddTags, RemoveTag, RemoveTags and SetTags:
  require every member to satisfy `Task.Valid`, that is, a duplicate-free
  tag list and a sound state. The source does not check this, but every
  task the model builds keeps it.
- The calendar functions follow Python's `datetime`, which is not part of
  this model. They rest on the closed-form day ordinal of
  `date.toordinal()`.
