/**
 * The state of a task's activity and how it evolves
 * (schedule_manager/manager.py:984-1018 and 1074-1112): `start`, `stop`,
 * `pause`, the configuration guard, and the worker body `run`, cut into
 * ticks.  A tick is one pass of whichever polling loop the worker is in, up
 * to its next `time.sleep`, with one clock reading `now`; the job itself takes
 * no time on that clock.  These functions specify `Manager.Task`.
 */
module Lifecycle {

  import opened Wrappers
  import opened Errors
  import opened Calendar
  import opened Config

  /** Where the worker thread is. */
  datatype Phase =
    | Idle       // the thread was never started
    | Launched   // started; the body has not run yet
    | Waiting    // in the loop that waits for `_start_at`
    | Polling    // in the main loop, checking `_next_run`
    | Finished   // the body has returned or raised

  predicate Active(p: Phase) {
    p == Launched || p == Waiting || p == Polling
  }

  /** The fields of a task the lifecycle reads and writes; `fired` counts job calls. */
  datatype TaskState = TaskState(
    cfg: Config,
    started: bool,          // _start
    stopTask: bool,         // _stop_task
    pauseTask: bool,        // _pause_task
    nextRun: Option<Moment>,
    phase: Phase,
    fired: nat)

  /** A newly constructed task. */
  const Fresh: TaskState := TaskState(Initial, false, false, false, None, Idle, 0)

  predicate Sound(s: TaskState) {
    WellFormed(s.cfg) && (s.nextRun.Some? ==> ValidMoment(s.nextRun.value))
  }

  function OutcomeOf(err: Option<Error>): Outcome {
    if err.Some? then Fail(err.value) else Pass
  }

  /** A configuration method: refused on a started task, else its step. */
  function Configure(s: TaskState, op: Op, now: Moment): (r: (TaskState, Outcome))
    requires ValidMoment(now) && ValidOp(op)
    ensures Sound(s) ==> Sound(r.0)
  {
    if s.started then (s, Fail(OperationFail(AlreadyRunning)))
    else
      var st := Apply(s.cfg, op, now);
      (s.(cfg := st.cfg), OutcomeOf(st.err))
  }

  /** The delay is turned into a start time before the thread is launched. */
  function Start(s: TaskState, now: Moment): (r: (TaskState, Outcome))
    requires ValidMoment(now)
    ensures Sound(s) ==> Sound(r.0)
  {
    if s.cfg.unit.None? then (s, Fail(OperationFail(NoPeriod)))
    else
      var cfg := if s.cfg.delay.Some? && s.cfg.delay.value != 0
                 then s.cfg.(startAt := Some(AddSeconds(now, s.cfg.delay.value)))
                 else s.cfg;
      var s1 := s.(started := true, cfg := cfg);
      if s.phase != Idle then (s1, Fail(ThreadRestart))
      else (s1.(phase := Launched), Pass)
  }

  function Stop(s: TaskState): (TaskState, Outcome) {
    if !s.started then (s, Fail(OperationFail(NotRunning)))
    else (s.(started := false, stopTask := true), Pass)
  }

  /** `managed`: the task has a manager. */
  function Pause(s: TaskState, managed: bool): (TaskState, Outcome) {
    if !s.started then (s, Fail(OperationFail(NotRunning)))
    else if !managed then (s, Fail(OperationFail(NoManager)))
    else (s.(started := false, stopTask := true, pauseTask := true), Pass)
  }

  // ---------------------------------------------------------------------
  // The worker body.

  /** What a tick did: nothing, went to sleep, or ended the body. */
  datatype TickEvent =
    | Quiet
    | Slept
    | Ended(hook: bool, err: Option<Error>)  // hook: the `finally` clause runs

  /** One pass of the main loop. */
  function Poll(s: TaskState, now: Moment, ignoreSkipped: bool): (r: (TaskState, TickEvent))
    requires Sound(s) && ValidMoment(now)
    ensures Sound(r.0)
  {
    if s.stopTask then (s.(phase := Finished), Ended(true, None))
    else if s.nextRun.None? then (s.(phase := Finished), Ended(true, Some(MissingValue)))
    else if Index(now) >= Index(s.nextRun.value) then
      var s1 := s.(fired := s.fired + 1);
      match NextRunAt(s.cfg, s.nextRun, now, ignoreSkipped)
      case Err(e) => (s1.(phase := Finished), Ended(true, Some(e)))
      case Ok(next) =>
        var s2 := s1.(nextRun := Some(next));
        if !s.cfg.isPeriodic then
          var s3 := s2.(cfg := s2.cfg.(count := s2.cfg.count - 1));
          if s3.cfg.count <= 0 then (s3.(stopTask := true, phase := Finished), Ended(true, None))
          else (s3.(phase := Polling), Slept)
        else (s2.(phase := Polling), Slept)
    else (s.(phase := Polling), Slept)
  }

  /** Leaving the wait: the first due instant is computed, then the main loop starts. */
  function Enter(s: TaskState, now: Moment, ignoreSkipped: bool): (r: (TaskState, TickEvent))
    requires Sound(s) && ValidMoment(now)
    ensures Sound(r.0)
  {
    match NextRunAt(s.cfg, s.nextRun, now, ignoreSkipped)
    case Err(e) => (s.(phase := Finished), Ended(true, Some(e)))
    case Ok(next) => Poll(s.(nextRun := Some(next)), now, ignoreSkipped)
  }

  /** One pass of the loop that waits for the start time. */
  function Wait(s: TaskState, now: Moment, ignoreSkipped: bool): (r: (TaskState, TickEvent))
    requires Sound(s) && ValidMoment(now)
    ensures Sound(r.0)
  {
    if s.stopTask then Enter(s, now, ignoreSkipped)
    else if s.cfg.startAt.None? then (s.(phase := Finished), Ended(true, Some(MissingValue)))
    else if Index(now) >= Index(s.cfg.startAt.value) then Enter(s, now, ignoreSkipped)
    else (s.(phase := Waiting), Slept)
  }

  function Tick(s: TaskState, now: Moment, ignoreSkipped: bool): (r: (TaskState, TickEvent))
    requires Sound(s) && ValidMoment(now)
    ensures Sound(r.0)
  {
    match s.phase
    case Idle => (s, Quiet)
    case Finished => (s, Quiet)
    case Launched =>
      if !s.started then (s.(phase := Finished), Ended(false, Some(OperationFail(RunNotStarted))))
      else if s.cfg.startAt.Some? then Wait(s, now, ignoreSkipped)
      else Enter(s, now, ignoreSkipped)
    case Waiting => Wait(s, now, ignoreSkipped)
    case Polling => Poll(s, now, ignoreSkipped)
  }

  /** Ticks at successive clock readings, until the sequence runs out. */
  function Run(s: TaskState, nows: seq<Moment>, ignoreSkipped: bool): (r: TaskState)
    requires Sound(s) && forall i :: 0 <= i < |nows| ==> ValidMoment(nows[i])
    ensures Sound(r)
    decreases |nows|
  {
    if nows == [] then s else Run(Tick(s, nows[0], ignoreSkipped).0, nows[1..], ignoreSkipped)
  }

  // ---------------------------------------------------------------------
  // Guards.

  /** Every configuration method raises on a started task and changes nothing. */
  lemma GuardRefuses(s: TaskState, op: Op, now: Moment)
    requires ValidMoment(now) && ValidOp(op)
    ensures Configure(s, op, now).1 == Fail(OperationFail(AlreadyRunning)) <==> s.started
    ensures s.started ==> Configure(s, op, now).0 == s
  {
    if !s.started {
      var st := Apply(s.cfg, op, now);
      assert st.err != Some(OperationFail(AlreadyRunning));
    }
  }

  /**
   * Applying the same configuration call twice is applying it once: every
   * method writes fields fixed by its arguments, and refuses or fails the same
   * way again.  A batch call over a group that lists a task twice relies on it.
   */
  lemma ConfigureIdempotent(s: TaskState, op: Op, now: Moment)
    requires ValidMoment(now) && ValidOp(op)
    ensures Configure(Configure(s, op, now).0, op, now) == Configure(s, op, now)
  {
  }

  /** A second `start` or `stop` leaves the state as the first one did. */
  lemma StartStopIdempotent(s: TaskState, now: Moment)
    requires ValidMoment(now)
    ensures Start(Start(s, now).0, now).0 == Start(s, now).0
    ensures Stop(Stop(s).0).0 == Stop(s).0
    ensures Start(s, now).1.Pass? ==> Start(Start(s, now).0, now).1 == Fail(ThreadRestart)
    ensures Stop(s).1.Pass? ==> Stop(Stop(s).0).1 == Fail(OperationFail(NotRunning))
  {
  }

  /** `start` needs a unit, `stop` a running task, `pause` a running and managed task. */
  lemma Preconditions(s: TaskState, now: Moment, managed: bool)
    requires ValidMoment(now)
    ensures Start(s, now).1 == Fail(OperationFail(NoPeriod)) <==> s.cfg.unit.None?
    ensures Stop(s).1.Fail? <==> !s.started
    ensures Pause(s, managed).1.Fail? <==> !s.started || !managed
    ensures Stop(s).1.Pass? ==> !Stop(s).0.started && Stop(s).0.stopTask
    ensures Pause(s, managed).1.Pass? ==> Pause(s, managed).0.pauseTask && Pause(s, managed).0.stopTask
  {
  }

  /**
   * A thread starts once: after a successful `start`, another `start` raises,
   * yet leaves the task marked as running.
   */
  lemma StartOnce(s: TaskState, now1: Moment, now2: Moment)
    requires ValidMoment(now1) && ValidMoment(now2)
    requires Start(s, now1).1.Pass?
    ensures var s1 := Start(s, now1).0;
      && s1.phase == Launched
      && Start(s1, now2).1 == Fail(ThreadRestart)
      && Start(s1, now2).0.started
  {
  }

  /** A started delay becomes a start time that far after the start. */
  lemma StartDelay(s: TaskState, now: Moment)
    requires ValidMoment(now) && Start(s, now).1.Pass?
    requires s.cfg.delay.Some? && s.cfg.delay.value != 0
    ensures Start(s, now).0.cfg.startAt.Some?
    ensures Index(Start(s, now).0.cfg.startAt.value) == Index(now) + s.cfg.delay.value
  {
  }

  // ---------------------------------------------------------------------
  // The worker body: stopping, and the non-periodic budget.

  /** A worker that was told to stop finishes at its next tick and runs the hook. */
  lemma StopEndsRun(s: TaskState, now: Moment, ignoreSkipped: bool)
    requires Sound(s) && ValidMoment(now) && Active(s.phase) && s.stopTask
    requires s.phase == Launched ==> s.started
    ensures var r := Tick(s, now, ignoreSkipped);
      r.0.phase == Finished && r.1.Ended? && r.1.hook && r.0.fired == s.fired
  {
  }

  /** A task after `pause` and the next tick of its worker. */
  function Settled(s: TaskState, now: Moment, ignoreSkipped: bool): TaskState
    requires Sound(s) && ValidMoment(now)
  {
    Tick(Pause(s, true).0, now, ignoreSkipped).0
  }

  /**
   * A paused worker that is past its launch ends at its next tick and runs
   * the hook, with its schedule and its run count as they were.
   */
  lemma PauseEndsRun(s: TaskState, now: Moment, ignoreSkipped: bool)
    requires Sound(s) && ValidMoment(now) && s.started && (s.phase == Waiting || s.phase == Polling)
    ensures var r := Tick(Pause(s, true).0, now, ignoreSkipped);
      && r.1.Ended? && r.1.hook && r.0 == Settled(s, now, ignoreSkipped)
      && r.0.phase == Finished && !r.0.started && r.0.stopTask && r.0.pauseTask
      && r.0.cfg == s.cfg && r.0.fired == s.fired
  {
    var p := Pause(s, true).0;
    StopEndsRun(p, now, ignoreSkipped);
    if p.phase == Waiting {
      match NextRunAt(p.cfg, p.nextRun, now, ignoreSkipped)
      case Err(e) =>
      case Ok(next) =>
    }
  }

  /** The main loop either sleeps or ends the body with the hook. */
  lemma PollEnds(s: TaskState, now: Moment, ignoreSkipped: bool)
    requires Sound(s) && ValidMoment(now)
    ensures var r := Poll(s, now, ignoreSkipped);
      (r.1 == Slept && r.0.phase == Polling) || (r.1.Ended? && r.1.hook && r.0.phase == Finished)
  {
    if !s.stopTask && s.nextRun.Some? && Index(now) >= Index(s.nextRun.value) {
      match NextRunAt(s.cfg, s.nextRun, now, ignoreSkipped)
      case Err(e) =>
      case Ok(next) =>
    }
  }

  lemma EnterEnds(s: TaskState, now: Moment, ignoreSkipped: bool)
    requires Sound(s) && ValidMoment(now)
    ensures var r := Enter(s, now, ignoreSkipped);
      (r.1 == Slept && r.0.phase == Polling) || (r.1.Ended? && r.1.hook && r.0.phase == Finished)
  {
    match NextRunAt(s.cfg, s.nextRun, now, ignoreSkipped)
    case Err(e) =>
    case Ok(next) => PollEnds(s.(nextRun := Some(next)), now, ignoreSkipped);
  }

  lemma WaitEnds(s: TaskState, now: Moment, ignoreSkipped: bool)
    requires Sound(s) && ValidMoment(now)
    ensures var r := Wait(s, now, ignoreSkipped);
      (r.1 == Slept && Active(r.0.phase)) || (r.1.Ended? && r.1.hook && r.0.phase == Finished)
  {
    EnterEnds(s, now, ignoreSkipped);
  }

  /** Every way out of the body except a missing `start()` runs the hook. */
  lemma HookRuns(s: TaskState, now: Moment, ignoreSkipped: bool)
    requires Sound(s) && ValidMoment(now)
    ensures var r := Tick(s, now, ignoreSkipped);
      && (r.1.Ended? <==> Active(s.phase) && r.0.phase == Finished)
      && (r.1.Ended? && !r.1.hook <==> s.phase == Launched && !s.started)
  {
    match s.phase
    case Idle =>
    case Finished =>
    case Launched =>
      if s.started {
        if s.cfg.startAt.Some? { WaitEnds(s, now, ignoreSkipped); } else { EnterEnds(s, now, ignoreSkipped); }
      }
    case Waiting => WaitEnds(s, now, ignoreSkipped);
    case Polling => PollEnds(s, now, ignoreSkipped);
  }

  /**
   * The budget of a non-periodic task that was given `n` runs: it has fired at
   * most `n` times, and while the worker is active the remaining count makes
   * up the rest.
   */
  predicate Budget(s: TaskState, n: nat) {
    && !s.cfg.isPeriodic
    && s.fired <= n
    && (Active(s.phase) ==> s.cfg.count >= 1 && s.fired + s.cfg.count == n)
  }

  lemma PollBudget(s: TaskState, n: nat, now: Moment, ignoreSkipped: bool)
    requires Sound(s) && ValidMoment(now) && Budget(s, n) && Active(s.phase)
    ensures Budget(Poll(s, now, ignoreSkipped).0, n)
  {
    if !s.stopTask && s.nextRun.Some? && Index(now) >= Index(s.nextRun.value) {
      match NextRunAt(s.cfg, s.nextRun, now, ignoreSkipped)
      case Err(e) =>
      case Ok(next) =>
    }
  }

  lemma BudgetKept(s: TaskState, n: nat, now: Moment, ignoreSkipped: bool)
    requires Sound(s) && ValidMoment(now) && Budget(s, n)
    ensures Budget(Tick(s, now, ignoreSkipped).0, n)
  {
    if s.phase == Polling {
      PollBudget(s, n, now, ignoreSkipped);
    } else if Active(s.phase) && !(s.phase == Launched && !s.started) {
      // Waiting or launched: either still waiting, or the body enters the main loop.
      match NextRunAt(s.cfg, s.nextRun, now, ignoreSkipped)
      case Err(e) =>
      case Ok(next) => PollBudget(s.(nextRun := Some(next)), n, now, ignoreSkipped);
    }
  }

  /** However the clock runs, a non-periodic task given `n` runs fires at most `n` times. */
  lemma {:induction false} AtMostBudget(s: TaskState, n: nat, nows: seq<Moment>, ignoreSkipped: bool)
    requires Sound(s) && Budget(s, n)
    requires forall i :: 0 <= i < |nows| ==> ValidMoment(nows[i])
    ensures Budget(Run(s, nows, ignoreSkipped), n)
    ensures Run(s, nows, ignoreSkipped).fired <= n
    decreases |nows|
  {
    if nows != [] {
      BudgetKept(s, n, nows[0], ignoreSkipped);
      var t := Tick(s, nows[0], ignoreSkipped).0;
      assert forall i :: 0 <= i < |nows[1..]| ==> ValidMoment(nows[1..][i]) by {
        forall i | 0 <= i < |nows[1..]| ensures ValidMoment(nows[1..][i]) {
          assert nows[1..][i] == nows[i + 1];
        }
      }
      AtMostBudget(t, n, nows[1..], ignoreSkipped);
    }
  }

  /**
   * A due firing with runs left: the last one sets the stop flag and ends the
   * body; an earlier one keeps polling.
   */
  lemma FiringCounts(s: TaskState, n: nat, now: Moment, ignoreSkipped: bool)
    requires Sound(s) && ValidMoment(now) && Budget(s, n)
    requires s.phase == Polling && !s.stopTask && s.nextRun.Some?
    requires Index(now) >= Index(s.nextRun.value)
    requires NextRunAt(s.cfg, s.nextRun, now, ignoreSkipped).Ok?
    ensures var r := Tick(s, now, ignoreSkipped);
      && r.0.fired == s.fired + 1
      && (r.0.fired == n ==> r.0.stopTask && r.0.phase == Finished && r.1 == Ended(true, None))
      && (r.0.fired < n ==> !r.0.stopTask && r.0.phase == Polling && r.1 == Slept)
  {
  }

  /** A periodic task keeps polling after each firing the engine can schedule. */
  lemma PeriodicContinues(s: TaskState, now: Moment, ignoreSkipped: bool)
    requires Sound(s) && ValidMoment(now) && s.cfg.isPeriodic
    requires s.phase == Polling && !s.stopTask && s.nextRun.Some?
    requires NextRunAt(s.cfg, s.nextRun, now, ignoreSkipped).Ok?
    ensures var r := Tick(s, now, ignoreSkipped);
      && r.0.phase == Polling && r.1 == Slept
      && (Index(now) >= Index(s.nextRun.value) <==> r.0.fired == s.fired + 1)
      && (Index(now) >= Index(s.nextRun.value) ==> r.0.nextRun == Some(NextRunAt(s.cfg, s.nextRun, now, ignoreSkipped).value))
      && (Index(now) < Index(s.nextRun.value) ==> r.0 == s)
  {
  }
}
