/**
 * The objects of schedule_manager/manager.py: `Task` (its tag list, its
 * configuration methods, its lifecycle, one tick of its worker and the hook
 * that runs when the worker ends), `ScheduleManager` (the registry of tasks by
 * name); `TaskGroup` is in module `Group`.
 *
 * Every task that has a manager is the entry under its own name in that
 * manager (`Task.Registered`): each method that sets the back-reference
 * checks or creates that entry, and `ScheduleManager.Linked` states the other
 * direction for a registry.
 */
module Manager {

  import opened Wrappers
  import opened Errors
  import opened Calendar
  import opened TimeText
  import Tags
  import opened Config
  import Lifecycle

  /** A task's own tick count and flags, as the lifecycle functions see them. */
  type TaskState = Lifecycle.TaskState

  /** The default name shape, "Task-" followed by a hexadecimal uuid. */
  predicate IsDefaultName(n: string) {
    |n| > 5 && n[..5] == "Task-"
  }

  ghost function Longest(s: set<string>): (r: nat)
    ensures forall x :: x in s ==> |x| <= r
    decreases s
  {
    if s == {} then 0
    else
      var x :| x in s;
      var r := Longest(s - {x});
      if |x| > r then |x| else r
  }

  /** However many tasks are registered, a default name is still free. */
  lemma FreshNameExists(keys: set<string>)
    ensures exists n :: n !in keys && IsDefaultName(n)
  {
    var n := "Task-" + seq(Longest(keys) + 1, _ => '0');
    assert n[..5] == "Task-";
    assert IsDefaultName(n) && n !in keys;
  }

  /** A tag argument of `tasks` and `unregister`: one tag, or a list of tags. */
  datatype TagQuery = OneTag(tag: string) | TagList(tagList: seq<string>)

  /** Python truth of the argument: "" and [] are false. */
  predicate Truthy(q: TagQuery) {
    match q
    case OneTag(t) => t != ""
    case TagList(ts) => ts != []
  }

  predicate Matches(q: TagQuery, tags: seq<string>) {
    match q
    case OneTag(t) => t in tags
    case TagList(ts) => exists t :: t in ts && t in tags
  }

  /** Whether a task with these tags is one that `_task_list(q)` lists (a false argument lists none). */
  predicate Selects(q: TagQuery, tags: seq<string>) {
    Truthy(q) && Matches(q, tags)
  }

  /** Whether `unregister(name, tag)` removes the task registered as `n` with these tags. */
  predicate Dropped(name: Option<string>, tag: Option<TagQuery>, n: string, tags: seq<string>) {
    name == Some(n) || (tag.Some? && Selects(tag.value, tags))
  }

  predicate NoRepeat<T(==)>(s: seq<T>) {
    forall i, j :: 0 <= i < j < |s| ==> s[i] != s[j]
  }

  /** Append each element of `xs` that is not yet present (a left fold). */
  function Union<T(==)>(acc: seq<T>, xs: seq<T>): seq<T>
    decreases |xs|
  {
    if xs == [] then acc
    else
      var a := Union(acc, xs[..|xs| - 1]);
      var x := xs[|xs| - 1];
      if x in a then a else a + [x]
  }

  lemma UnionSnoc<T>(acc: seq<T>, xs: seq<T>, x: T)
    ensures Union(acc, xs + [x]) == if x in Union(acc, xs) then Union(acc, xs) else Union(acc, xs) + [x]
  {
    assert (xs + [x])[..|xs|] == xs;
  }

  lemma {:induction false} UnionSpec<T>(acc: seq<T>, xs: seq<T>)
    requires NoRepeat(acc)
    ensures NoRepeat(Union(acc, xs))
    ensures forall x :: x in Union(acc, xs) <==> x in acc || x in xs
    decreases |xs|
  {
    if xs != [] {
      var init := xs[..|xs| - 1];
      UnionSpec(acc, init);
      assert xs == init + [xs[|xs| - 1]];
    }
  }

  lemma {:induction false} DistinctCard(s: seq<string>, k: set<string>)
    requires Tags.NoDup(s) && forall x :: x in s <==> x in k
    ensures |s| == |k|
    decreases |s|
  {
    if s != [] {
      var init := s[..|s| - 1];
      var x := s[|s| - 1];
      assert s == init + [x];
      assert x !in init by {
        forall i | 0 <= i < |init| ensures init[i] != x {
          assert init[i] == s[i];
        }
      }
      assert Tags.NoDup(init) by {
        forall i, j | 0 <= i < j < |init| ensures init[i] != init[j] {
          assert init[i] == s[i] && init[j] == s[j];
        }
      }
      DistinctCard(init, k - {x});
    }
  }

  class Task {
    const name: string
    const ignoreSkipped: bool
    var cfg: Config
    var tags: seq<string>
    var started: bool
    var stopTask: bool
    var pauseTask: bool
    var nextRun: Option<Moment>
    var phase: Lifecycle.Phase
    var fired: nat
    var manager: ScheduleManager?

    function State(): TaskState
      reads this
    {
      Lifecycle.TaskState(cfg, started, stopTask, pauseTask, nextRun, phase, fired)
    }

    predicate Valid()
      reads this
    {
      name != "" && Lifecycle.Sound(State()) && Tags.NoDup(tags)
    }

    /** The back-reference, when set, names the manager that holds this task. */
    predicate Registered()
      reads this, manager
    {
      manager != null ==> name in manager.tasks && manager.tasks[name] == this
    }

    /** `Task(job, name, ignore_skipped=…)`; the job and its arguments are not modelled. */
    constructor (name: string, ignoreSkipped: bool)
      requires name != ""
      ensures this.name == name && this.ignoreSkipped == ignoreSkipped
      ensures State() == Lifecycle.Fresh && tags == [] && manager == null
      ensures Valid()
    {
      this.name := name;
      this.ignoreSkipped := ignoreSkipped;
      cfg := Initial;
      tags := [];
      started, stopTask, pauseTask := false, false, false;
      nextRun := None;
      phase := Lifecycle.Idle;
      fired := 0;
      manager := null;
    }

    // -------------------------------------------------------------------
    // Tags: the list is changed in place; the functions of module Tags say
    // what it becomes, and the lemmas there what that means.

    method AddTag(t: string)
      modifies this
      ensures tags == Tags.AddTag(old(tags), t)
      ensures State() == old(State()) && manager == old(manager)
      ensures old(Valid()) ==> Valid()
    {
      if t !in tags {
        tags := tags + [t];
      }
    }

    method AddTags(ts: seq<string>)
      modifies this
      ensures tags == Tags.AddTags(old(tags), ts)
      ensures State() == old(State()) && manager == old(manager)
      ensures old(Valid()) ==> Valid()
    {
      for i := 0 to |ts|
        invariant tags == Tags.AddTags(old(tags), ts[..i])
        invariant State() == old(State()) && manager == old(manager)
        invariant old(Valid()) ==> Valid()
      {
        assert ts[..i + 1][..i] == ts[..i];
        AddTag(ts[i]);
      }
      assert ts[..|ts|] == ts;
    }

    method RemoveTag(t: string)
      modifies this
      ensures tags == Tags.RemoveTag(old(tags), t)
      ensures State() == old(State()) && manager == old(manager)
      ensures old(Valid()) ==> Valid()
    {
      if t in tags {
        if Tags.NoDup(tags) {
          Tags.RemoveTagSpec(tags, t);
        }
        tags := Tags.RemoveFirst(tags, t);
      }
    }

    method RemoveTags(ts: seq<string>)
      modifies this
      ensures tags == Tags.RemoveTags(old(tags), ts)
      ensures State() == old(State()) && manager == old(manager)
      ensures old(Valid()) ==> Valid()
    {
      for i := 0 to |ts|
        invariant tags == Tags.RemoveTags(old(tags), ts[..i])
        invariant State() == old(State()) && manager == old(manager)
        invariant old(Valid()) ==> Valid()
      {
        assert ts[..i + 1][..i] == ts[..i];
        RemoveTag(ts[i]);
      }
      assert ts[..|ts|] == ts;
    }

    method SetTags(ts: seq<string>)
      modifies this
      ensures tags == Tags.SetTags(ts)
      ensures State() == old(State()) && manager == old(manager)
      ensures old(Valid()) ==> Valid()
    {
      Tags.SetTagsSpec(ts);
      tags := [];
      for i := 0 to |ts|
        invariant tags == Tags.AddTags([], ts[..i])
        invariant State() == old(State()) && manager == old(manager)
      {
        assert ts[..i + 1][..i] == ts[..i];
        if ts[i] !in tags {
          tags := tags + [ts[i]];
        }
      }
      assert ts[..|ts|] == ts;
    }

    // -------------------------------------------------------------------
    // Configuration and lifecycle.

    /** `delay`, `start_at`, `nonperiodic`, `periodic`, `period`, `period_at` and its three shorthands. */
    method Configure(op: Op, now: Moment) returns (r: Outcome)
      requires ValidMoment(now) && ValidOp(op)
      modifies this
      ensures (State(), r) == Lifecycle.Configure(old(State()), op, now)
      ensures tags == old(tags) && manager == old(manager)
      ensures old(Valid()) ==> Valid()
    {
      if started {
        return Fail(OperationFail(AlreadyRunning));
      }
      var st := Apply(cfg, op, now);
      cfg := st.cfg;
      r := Lifecycle.OutcomeOf(st.err);
    }

    method Start(now: Moment) returns (r: Outcome)
      requires ValidMoment(now)
      modifies this
      ensures (State(), r) == Lifecycle.Start(old(State()), now)
      ensures tags == old(tags) && manager == old(manager)
      ensures old(Valid()) ==> Valid()
    {
      if cfg.unit.None? {
        return Fail(OperationFail(NoPeriod));
      }
      started := true;
      if cfg.delay.Some? && cfg.delay.value != 0 {
        cfg := cfg.(startAt := Some(AddSeconds(now, cfg.delay.value)));
      }
      if phase != Lifecycle.Idle {
        return Fail(ThreadRestart);
      }
      phase := Lifecycle.Launched;
      r := Pass;
    }

    method Stop() returns (r: Outcome)
      modifies this
      ensures (State(), r) == Lifecycle.Stop(old(State()))
      ensures tags == old(tags) && manager == old(manager)
      ensures old(Valid()) ==> Valid()
    {
      if !started {
        return Fail(OperationFail(NotRunning));
      }
      started := false;
      stopTask := true;
      r := Pass;
    }

    method Pause() returns (r: Outcome)
      modifies this
      ensures (State(), r) == Lifecycle.Pause(old(State()), old(manager) != null)
      ensures tags == old(tags) && manager == old(manager)
      ensures old(Valid()) ==> Valid()
    {
      if !started {
        return Fail(OperationFail(NotRunning));
      }
      if manager == null {
        return Fail(OperationFail(NoManager));
      }
      started := false;
      stopTask := true;
      pauseTask := true;
      r := Pass;
    }

    /**
     * The `manager` setter.  Clearing it is refused while the manager still
     * holds the name; setting it is refused unless that manager already maps
     * the name to this very task.
     */
    method SetManager(m: ScheduleManager?) returns (r: Outcome)
      modifies this
      ensures r.Pass? <==>
        if m == null then old(manager) != null && name !in old(manager).tasks
        else name in m.tasks && m.tasks[name] == this
      ensures r.Pass? ==> manager == m && Registered()
      ensures r.Fail? ==> r == Fail(OperationFail(UseRegister)) && manager == old(manager)
      ensures State() == old(State()) && tags == old(tags)
    {
      if m == null {
        if manager == null || name in manager.tasks {
          return Fail(OperationFail(UseRegister));
        }
        manager := null;
        return Pass;
      }
      if name !in m.tasks || m.tasks[name] != this {
        return Fail(OperationFail(UseRegister));
      }
      manager := m;
      r := Pass;
    }

    // -------------------------------------------------------------------
    // The worker.

    /**
     * `_action_after_finish`: leave the manager; a paused task is replaced by
     * a new, unstarted task of the same name, tags and schedule, built through
     * the public methods (so it always ignores skipped runs).
     */
    method Finish(now: Moment) returns (replacement: Task?, r: Outcome)
      requires ValidMoment(now) && Valid() && Registered()
      requires manager != null ==> manager.Valid()
      modifies this, manager
      ensures State() == old(State()) && tags == old(tags)
      ensures old(manager) == null ==> manager == null && replacement == null && r == Pass
      ensures old(manager) != null ==> manager == null && old(manager).Valid()
      ensures old(manager) != null && !pauseTask ==>
        && replacement == null && r == Pass
        && old(manager).tasks == old(manager.tasks) - {name}
        && old(manager).order == Tags.Without(old(manager.order), name)
      ensures old(manager) != null && pauseTask ==>
        && replacement != null && fresh(replacement)
        && Respawned(replacement, old(manager), name, old(tags), old(cfg), now)
        && r == Lifecycle.OutcomeOf(Respawn(old(cfg), now).err)
        && old(manager).tasks == old(manager.tasks)[name := replacement]
        && old(manager).order == Tags.Without(old(manager.order), name) + [name]
    {
      replacement, r := null, Pass;
      if manager == null {
        return;
      }
      var m := manager;
      var u := m.UnregisterName(name);
      assert u.Pass?;
      if !pauseTask {
        return;
      }
      replacement, r := Replace(m, now);
    }

    /**
     * The paused branch of the finish hook: `register_task` under this name,
     * then the tags and the schedule are copied onto the new task.
     */
    method Replace(m: ScheduleManager, now: Moment) returns (t: Task, r: Outcome)
      requires ValidMoment(now) && Valid() && m.Valid() && name !in m.tasks
      modifies m
      ensures fresh(t) && Respawned(t, m, name, tags, cfg, now)
      ensures r == Lifecycle.OutcomeOf(Respawn(cfg, now).err)
      ensures m.tasks == old(m.tasks)[name := t] && m.order == old(m.order) + [name]
      ensures m.Valid()
    {
      var created := m.RegisterTask(Some(name));
      t := created.value;
      t.SetTags(tags);
      r := t.Reschedule(cfg, now);
    }

    /**
     * The finish hook's calls on the new task: `period` or `period_at` with
     * the anchor written back as text, `nonperiodic`, then `delay` or
     * `start_at`, stopping at the first that raises.
     */
    method Reschedule(c: Config, now: Moment) returns (r: Outcome)
      requires ValidMoment(now) && WellFormed(c) && State() == Lifecycle.Fresh && Valid()
      modifies this
      ensures State() == Lifecycle.Fresh.(cfg := Respawn(c, now).cfg)
      ensures r == Lifecycle.OutcomeOf(Respawn(c, now).err)
      ensures tags == old(tags) && manager == old(manager)
      ensures Valid()
    {
      r := ReplaySchedule(c, now);
      if r.Fail? {
        return;
      }
      r := ReplayCount(c, now);
      if r.Fail? {
        return;
      }
      r := ReplayStart(c, now);
    }

    /** `period(...)` or `period_at(...)` with the old unit and anchor; a missing anchor raises. */
    method ReplaySchedule(c: Config, now: Moment) returns (r: Outcome)
      requires ValidMoment(now) && WellFormed(c) && State() == Lifecycle.Fresh && Valid()
      modifies this
      ensures State() == Lifecycle.Fresh.(cfg := RespawnSchedule(c).cfg)
      ensures r == Lifecycle.OutcomeOf(RespawnSchedule(c).err)
      ensures tags == old(tags) && manager == old(manager) && Valid()
    {
      if c.unit == Some(Every) {
        r := Configure(Period(if c.periodic.Some? then Some(Seconds(c.periodic.value)) else None), now);
      } else if c.atTime.None? {
        r := Fail(MissingValue);
      } else {
        var k := c.atTime.value;
        r := Configure(PeriodAt(UnitName(c.unit), ClockString(k), WeekdayName(c.atWeekDay), c.atDay), now);
      }
    }

    /** `nonperiodic(count)` when the old task was not periodic. */
    method ReplayCount(c: Config, now: Moment) returns (r: Outcome)
      requires ValidMoment(now) && !started && Valid()
      modifies this
      ensures State() == old(State()).(cfg := RespawnCount(c, old(cfg)).cfg)
      ensures r == Lifecycle.OutcomeOf(RespawnCount(c, old(cfg)).err)
      ensures tags == old(tags) && manager == old(manager) && Valid()
    {
      r := Pass;
      if !c.isPeriodic {
        r := Configure(Nonperiodic(c.count), now);
      }
    }

    /** `delay(start_at - now)` for a pending delay, else `start_at(...)` for a future start time. */
    method ReplayStart(c: Config, now: Moment) returns (r: Outcome)
      requires ValidMoment(now) && WellFormed(c) && !started && Valid()
      modifies this
      ensures State() == old(State()).(cfg := RespawnStart(c, old(cfg), now).cfg)
      ensures r == Lifecycle.OutcomeOf(RespawnStart(c, old(cfg), now).err)
      ensures tags == old(tags) && manager == old(manager) && Valid()
    {
      r := Pass;
      if c.delay.Some? && c.delay.value != 0 {
        if c.startAt.None? {
          r := Fail(MissingValue);  // `None - datetime.now()` raises TypeError
          return;
        }
        r := Configure(Delay(Some(Seconds(Index(c.startAt.value) - Index(now)))), now);
      } else if c.startAt.Some? && Index(now) < Index(c.startAt.value) {
        r := Configure(StartAt(Some(Instant(c.startAt.value))), now);
      }
    }

    /**
     * One pass of `run`; when the body ends through its `finally` clause,
     * the finish hook runs with the same clock reading.
     */
    method Tick(now: Moment) returns (ev: Lifecycle.TickEvent, replacement: Task?, r: Outcome)
      requires ValidMoment(now) && Valid() && Registered()
      requires manager != null ==> manager.Valid()
      modifies this, manager
      ensures (State(), ev) == Lifecycle.Tick(old(State()), now, ignoreSkipped)
      ensures tags == old(tags) && Valid()
      ensures !(ev.Ended? && ev.hook) ==>
        replacement == null && r == Pass && manager == old(manager) && (old(manager) != null ==> unchanged(old(manager)))
      ensures ev.Ended? && ev.hook && old(manager) != null ==>
        && manager == null && old(manager).Valid()
        && (!pauseTask ==> replacement == null && old(manager).tasks == old(manager.tasks) - {name})
        && (pauseTask ==>
              && replacement != null && fresh(replacement)
              && Respawned(replacement, old(manager), name, tags, cfg, now)
              && r == Lifecycle.OutcomeOf(Respawn(cfg, now).err)
              && old(manager).tasks == old(manager.tasks)[name := replacement])
    {
      var next := Lifecycle.Tick(State(), now, ignoreSkipped);
      cfg, started, stopTask, pauseTask := next.0.cfg, next.0.started, next.0.stopTask, next.0.pauseTask;
      nextRun, phase, fired := next.0.nextRun, next.0.phase, next.0.fired;
      ev, replacement, r := next.1, null, Pass;
      if ev.Ended? && ev.hook {
        replacement, r := Finish(now);
      }
    }
  }

  /** What the finish hook leaves behind for a paused task. */
  predicate Respawned(t: Task, m: ScheduleManager, name: string, tags: seq<string>, c: Config, now: Moment)
    reads t, m
    requires ValidMoment(now)
  {
    && t.name == name && t.ignoreSkipped
    && t.manager == m && t.Registered()
    && t.tags == Tags.SetTags(tags)
    && t.State() == Lifecycle.Fresh.(cfg := Respawn(c, now).cfg)
    && t.Valid()
  }
  /**
   * The registry: `_tasks`, a dict from task name to task.  `order` is the
   * dict's insertion order, which its iterations follow.
   */
  class ScheduleManager {
    var tasks: map<string, Task>
    var order: seq<string>

    predicate Valid()
      reads this
    {
      && Tags.NoDup(order)
      && (forall n :: n in tasks ==> n in order)
      && (forall n :: n in order ==> n in tasks)
      && (forall n :: n in tasks ==> tasks[n].name == n)
      && "" !in tasks
    }

    /** Every registered task points back at this manager. */
    predicate Linked()
      reads this, tasks.Values
    {
      forall n :: n in tasks ==> tasks[n].manager == this
    }

    constructor ()
      ensures Valid() && Linked() && tasks == map[] && order == []
    {
      tasks := map[];
      order := [];
    }

    /** `__contains__`: the name is registered. */
    predicate Has(name: string): (b: bool)
      reads this
      requires Valid()
      ensures b <==> name in order
      ensures b ==> name != "" && tasks[name].name == name
    {
      name in tasks
    }

    /** `count`: one per name, in insertion order. */
    function Count(): (n: nat)
      reads this
      requires Valid()
      ensures n == |order| && n == |tasks.Keys|
    {
      DistinctCard(order, tasks.Keys);
      |tasks|
    }

    /** `task(name)`. */
    function Find(name: string): (r: Result<Task>)
      reads this
      requires Valid()
      ensures r.Ok? <==> name in tasks
      ensures r.Ok? ==> r.value == tasks[name] && r.value.name == name
      ensures r.Err? ==> r.error == TaskNotFound
    {
      if name in tasks then Ok(tasks[name]) else Err(TaskNotFound)
    }

    /** The entries under `names`, in that order. */
    function Members(names: seq<string>): seq<Task>
      reads this
      requires forall n :: n in names ==> n in tasks
      decreases |names|
    {
      if names == [] then []
      else
        var init := names[..|names| - 1];
        assert forall n :: n in init ==> n in names;
        Members(init) + [tasks[names[|names| - 1]]]
    }

    /** The entries under `names` whose running flag is `running`. */
    function Selected(names: seq<string>, running: bool): seq<Task>
      reads this, tasks.Values
      requires forall n :: n in names ==> n in tasks
      decreases |names|
    {
      if names == [] then []
      else
        var init := names[..|names| - 1];
        assert forall n :: n in init ==> n in names;
        var t := tasks[names[|names| - 1]];
        Selected(init, running) + (if t.started == running then [t] else [])
    }

    /** The entries under `names` that carry `tag`. */
    function Tagged(names: seq<string>, tag: string): seq<Task>
      reads this, tasks.Values
      requires forall n :: n in names ==> n in tasks
      decreases |names|
    {
      if names == [] then []
      else
        var init := names[..|names| - 1];
        assert forall n :: n in init ==> n in names;
        var t := tasks[names[|names| - 1]];
        Tagged(init, tag) + (if tag in t.tags then [t] else [])
    }

    /** A tag list: the tasks of each tag in turn, leaving out those already listed. */
    function Gather(ts: seq<string>): seq<Task>
      reads this, tasks.Values
      requires Valid()
      decreases |ts|
    {
      if ts == [] then [] else Union(Gather(ts[..|ts| - 1]), Tagged(order, ts[|ts| - 1]))
    }

    /** What `_task_list(tag)` lists. */
    function Listed(q: TagQuery): seq<Task>
      reads this, tasks.Values
      requires Valid()
    {
      match q
      case OneTag(t) => Tagged(order, t)
      case TagList(ts) => Gather(ts)
    }

    /** The entry under a name, if any: what unregistering that name touches. */
    function Holder(name: string): set<Task>
      reads this
    {
      if name in tasks then {tasks[name]} else {}
    }

    lemma {:induction false} MembersSpec(names: seq<string>)
      requires Valid() && Tags.NoDup(names) && forall n :: n in names ==> n in tasks
      ensures |Members(names)| == |names| && NoRepeat(Members(names))
      ensures forall t :: t in Members(names) <==> t.name in names && tasks[t.name] == t
      decreases |names|
    {
      if names != [] {
        var init := names[..|names| - 1];
        var x := names[|names| - 1];
        assert names == init + [x];
        NoDupInit(names);
        MembersSpec(init);
        assert x !in init;
      }
    }

    /** The running and the pending views split the registry between them. */
    lemma {:induction false} SelectedSpec(names: seq<string>, running: bool)
      requires Valid() && Tags.NoDup(names) && forall n :: n in names ==> n in tasks
      ensures NoRepeat(Selected(names, running))
      ensures forall t :: t in Selected(names, running) <==>
        t.name in names && tasks[t.name] == t && t.started == running
      decreases |names|
    {
      if names != [] {
        var init := names[..|names| - 1];
        var x := names[|names| - 1];
        assert names == init + [x];
        NoDupInit(names);
        SelectedSpec(init, running);
        assert x !in init;
      }
    }

    /** Every entry under `names` is in exactly one of the two views. */
    lemma {:induction false} SelectedSplit(names: seq<string>)
      requires forall n :: n in names ==> n in tasks
      ensures |Selected(names, true)| + |Selected(names, false)| == |names|
      decreases |names|
    {
      if names != [] {
        var init := names[..|names| - 1];
        assert forall n :: n in init ==> n in names;
        SelectedSplit(init);
      }
    }

    lemma {:induction false} TaggedSpec(names: seq<string>, tag: string)
      requires Valid() && Tags.NoDup(names) && forall n :: n in names ==> n in tasks
      ensures NoRepeat(Tagged(names, tag))
      ensures forall t :: t in Tagged(names, tag) <==> t.name in names && tasks[t.name] == t && tag in t.tags
      decreases |names|
    {
      if names != [] {
        var init := names[..|names| - 1];
        var x := names[|names| - 1];
        assert names == init + [x];
        NoDupInit(names);
        TaggedSpec(init, tag);
        assert x !in init;
      }
    }

    lemma {:induction false} GatherSpec(ts: seq<string>)
      requires Valid()
      ensures NoRepeat(Gather(ts))
      ensures forall t :: t in Gather(ts) <==>
        t.name in tasks && tasks[t.name] == t && exists tag :: tag in ts && tag in t.tags
      decreases |ts|
    {
      if ts != [] {
        var init := ts[..|ts| - 1];
        var x := ts[|ts| - 1];
        assert ts == init + [x];
        GatherSpec(init);
        TaggedSpec(order, x);
        UnionSpec(Gather(init), Tagged(order, x));
        forall t: Task | t.name in tasks && tasks[t.name] == t
          ensures (exists tag :: tag in ts && tag in t.tags) <==>
                  (exists tag :: tag in init && tag in t.tags) || x in t.tags
        {
          if exists tag :: tag in ts && tag in t.tags {
            var tag :| tag in ts && tag in t.tags;
            if tag != x {
              assert tag in init;
            }
          }
        }
      }
    }

    /** `tasks(tag)` lists each registered task that matches, once. */
    lemma ListedSpec(q: TagQuery)
      requires Valid()
      ensures NoRepeat(Listed(q))
      ensures forall t :: t in Listed(q) <==> t.name in tasks && tasks[t.name] == t && Matches(q, t.tags)
    {
      match q
      case OneTag(tag) => TaggedSpec(order, tag);
      case TagList(ts) => GatherSpec(ts);
    }

    /** `_task_list` for one tag: the loop over the registry. */
    method TaggedLoop(tag: string) returns (r: seq<Task>)
      requires Valid()
      ensures r == Tagged(order, tag)
    {
      r := [];
      for j := 0 to |order|
        invariant r == Tagged(order[..j], tag)
      {
        assert order[..j + 1][..j] == order[..j];
        var t := tasks[order[j]];
        if tag in t.tags {
          r := r + [t];
        }
      }
      assert order[..|order|] == order;
    }

    /** The inner loop of `_task_list` for a tag list: add the tasks of one tag not yet listed. */
    method GatherLoop(acc: seq<Task>, tag: string) returns (r: seq<Task>)
      requires Valid()
      ensures r == Union(acc, Tagged(order, tag))
    {
      r := acc;
      for j := 0 to |order|
        invariant r == Union(acc, Tagged(order[..j], tag))
      {
        assert order[..j + 1][..j] == order[..j];
        var t := tasks[order[j]];
        ghost var before := Tagged(order[..j], tag);
        assert Tagged(order[..j + 1], tag) == before + (if tag in t.tags then [t] else []);
        if tag in t.tags {
          UnionSnoc(acc, before, t);
          if t !in r {
            r := r + [t];
          }
          assert r == Union(acc, before + [t]);
        } else {
          assert before + [] == before;
        }
      }
      assert order[..|order|] == order;
    }

    /** `_task_list`. */
    method TaskList(q: TagQuery) returns (r: seq<Task>)
      requires Valid()
      ensures r == Listed(q)
    {
      match q
      case OneTag(tag) =>
        r := TaggedLoop(tag);
      case TagList(ts) =>
        r := GatherAll(ts);
    }

    /** The outer loop of `_task_list` for a list of tags. */
    method GatherAll(ts: seq<string>) returns (r: seq<Task>)
      requires Valid()
      ensures r == Gather(ts)
    {
      r := [];
      for i := 0 to |ts|
        invariant r == Gather(ts[..i])
      {
        ghost var before := Gather(ts[..i]);
        assert ts[..i + 1][..i] == ts[..i];
        assert Gather(ts[..i + 1]) == Union(before, Tagged(order, ts[i]));
        r := GatherLoop(r, ts[i]);
      }
      assert ts[..|ts|] == ts;
    }

    /** The loop of `running_tasks` and `pending_tasks`. */
    method Filter(running: bool) returns (r: seq<Task>)
      requires Valid()
      ensures r == Selected(order, running)
    {
      r := [];
      for j := 0 to |order|
        invariant r == Selected(order[..j], running)
      {
        assert order[..j + 1][..j] == order[..j];
        var t := tasks[order[j]];
        if t.started == running {
          r := r + [t];
        }
      }
      assert order[..|order|] == order;
    }

    /** `register`: refused for a taken name; the back-reference goes through the setter. */
    method Register(task: Task) returns (r: Outcome)
      requires Valid() && task.name != ""
      modifies this, task
      ensures Valid()
      ensures r.Fail? <==> task.name in old(tasks)
      ensures r.Fail? ==> r == Fail(TaskNameDuplicate) && tasks == old(tasks) && order == old(order) && task.manager == old(task.manager)
      ensures r.Pass? ==> tasks == old(tasks)[task.name := task] && order == old(order) + [task.name]
      ensures r.Pass? ==> task.manager == this && task.Registered()
      ensures task.State() == old(task.State()) && task.tags == old(task.tags)
      ensures old(Linked()) ==> Linked()
    {
      if task.name in tasks {
        return Fail(TaskNameDuplicate);
      }
      tasks := tasks[task.name := task];
      order := order + [task.name];
      var s := task.SetManager(this);
      r := Pass;
    }

    /**
     * `register_task`: a new task under the given name, or under a fresh
     * default name (None); the new task ignores skipped runs.
     */
    method RegisterTask(name: Option<string>) returns (r: Result<Task>)
      requires Valid()
      requires name.Some? ==> name.value != ""
      modifies this
      ensures Valid()
      ensures name.Some? ==> (r.Err? <==> name.value in old(tasks))
      ensures r.Err? ==> r.error == TaskNameDuplicate && tasks == old(tasks) && order == old(order)
      ensures r.Ok? ==>
        && fresh(r.value) && r.value.name !in old(tasks)
        && (name.Some? ==> r.value.name == name.value)
        && (name.None? ==> IsDefaultName(r.value.name))
        && tasks == old(tasks)[r.value.name := r.value] && order == old(order) + [r.value.name]
        && r.value.manager == this && r.value.Registered()
        && r.value.State() == Lifecycle.Fresh && r.value.tags == [] && r.value.ignoreSkipped
        && r.value.Valid()
      ensures old(Linked()) ==> Linked()
    {
      var n: string;
      if name.None? {
        FreshNameExists(tasks.Keys);
        n :| n !in tasks && IsDefaultName(n);
      } else if name.value in tasks {
        return Err(TaskNameDuplicate);
      } else {
        n := name.value;
      }
      var t := new Task(n, true);
      tasks := tasks[n := t];
      order := order + [n];
      var s := t.SetManager(this);
      r := Ok(t);
    }

    /** The name part of `unregister`; a false (empty) name is ignored. */
    method UnregisterName(name: string) returns (r: Outcome)
      requires Valid()
      modifies this, Holder(name)
      ensures Valid()
      ensures name == "" || name !in old(tasks) ==> tasks == old(tasks) && order == old(order) && r == Pass
      ensures name != "" && name in old(tasks) ==>
        && tasks == old(tasks) - {name}
        && order == Tags.Without(old(order), name)
        && (old(tasks[name].manager) == this ==> r == Pass && old(tasks[name]).manager == null)
      ensures r.Fail? ==> r == Fail(OperationFail(UseRegister))
      ensures r.Pass? && name != "" && name in old(tasks) ==> old(tasks[name]).manager == null
      ensures name in old(tasks) ==>
        old(tasks[name]).State() == old(tasks[name].State()) && old(tasks[name]).tags == old(tasks[name].tags)
      ensures old(Linked()) ==> r == Pass && Linked()
      ensures forall n :: n in tasks ==> tasks[n].tags == old(tasks[n].tags)
    {
      r := Pass;
      if name != "" && name in tasks {
        var t := tasks[name];
        Tags.RemoveFirstWithout(order, name);
        tasks := tasks - {name};
        order := Tags.Without(order, name);
        r := t.SetManager(null);
      }
    }

    /** The tag part of `unregister`: every listed task leaves; a false tag is ignored. */
    method UnregisterTag(q: TagQuery) returns (r: Outcome)
      requires Valid()
      modifies this, tasks.Values
      ensures Valid()
      ensures forall n :: n in tasks ==> n in old(tasks) && tasks[n] == old(tasks[n])
      ensures r.Pass? ==> forall n :: n in old(tasks) ==> (n !in tasks <==> Selects(q, old(tasks[n].tags)))
      ensures r.Fail? ==> r == Fail(OperationFail(UseRegister))
      ensures old(Linked()) ==> r == Pass && Linked()
      ensures old(Linked()) ==> forall n :: n in old(tasks) && n !in tasks ==> old(tasks[n]).manager == null
      ensures r.Pass? ==> forall n :: n in old(tasks) && n !in tasks ==> old(tasks[n]).manager == null
      ensures r.Pass? ==> order == Keep(old(order), old(tasks.Keys) - tasks.Keys)
    {
      r := Pass;
      if !Truthy(q) {
        KeepNone(order);
        assert old(tasks.Keys) - tasks.Keys == {};
        return;
      }
      var list := TaskList(q);
      ListedSpec(q);
      NamesOfSpec(list);
      ghost var M := tasks;
      assert forall n :: n in M ==> M[n].name == n;
      assert forall t :: t in list ==> t in old(tasks.Values);
      r := DropAll(list);
      if r.Pass? {
        DropOrder(old(order), M, tasks, list, order);
      }
    }

    /** One pass of the loop in `DropAll`: the `i`th listed task leaves. */
    method DropAt(list: seq<Task>, i: int, ghost M: map<string, Task>, ghost O: seq<string>, ghost linked: bool)
      returns (r: Outcome)
      requires Valid() && NoRepeat(list) && 0 <= i < |list|
      requires forall t :: t in list ==> t.name in M && M[t.name] == t
      requires tasks == M - NamesOf(list[..i]) && order == DropNames(O, list[..i])
      requires linked ==> Linked()
      requires linked ==> forall j :: 0 <= j < |list| ==> list[j].manager == (if j < i then null else this)
      requires forall j :: 0 <= j < i ==> list[j].manager == null
      modifies this, list[i]
      ensures Valid()
      ensures tasks == M - NamesOf(list[..i + 1]) && order == DropNames(O, list[..i + 1])
      ensures r.Fail? ==> r == Fail(OperationFail(UseRegister))
      ensures linked ==> r == Pass && Linked()
      ensures linked ==> forall j :: 0 <= j < |list| ==> list[j].manager == (if j <= i then null else this)
      ensures r.Pass? ==> forall j :: 0 <= j <= i ==> list[j].manager == null
    {
      DropStep(list, i, M, O);
      r := UnregisterName(list[i].name);
    }

    /** The loop of the tag part of `unregister`: `del` each listed task and clear its back-reference. */
    method DropAll(list: seq<Task>) returns (r: Outcome)
      requires Valid() && NoRepeat(list)
      requires forall t :: t in list ==> t.name in tasks && tasks[t.name] == t
      modifies this, list
      ensures Valid()
      ensures forall n :: n in tasks ==> n in old(tasks) && tasks[n] == old(tasks[n])
      ensures r.Pass? ==> tasks == old(tasks) - NamesOf(list)
      ensures r.Fail? ==> r == Fail(OperationFail(UseRegister))
      ensures old(Linked()) ==> r == Pass && Linked() && forall t :: t in list ==> t.manager == null
      ensures r.Pass? ==> forall t :: t in list ==> t.manager == null
      ensures r.Pass? ==> order == DropNames(old(order), list)
    {
      r := Pass;
      ghost var M, O := tasks, order;
      ghost var linked := Linked();
      forall j | 0 <= j < |list| && linked ensures list[j].manager == this {
        assert list[j] in list;
      }
      for i := 0 to |list|
        invariant Valid()
        invariant tasks == M - NamesOf(list[..i])
        invariant order == DropNames(O, list[..i])
        invariant linked ==> Linked()
        invariant linked ==> forall j :: 0 <= j < |list| ==> list[j].manager == (if j < i then null else this)
        invariant forall j :: 0 <= j < i ==> list[j].manager == null
      {
        var u := DropAt(list, i, M, O, linked);
        if u.Fail? {
          return u;
        }
      }
      assert list[..|list|] == list;
    }

    /** `unregister(name, tag)`: the named task and every task the tag selects. */
    method Unregister(name: Option<string>, tag: Option<TagQuery>) returns (r: Outcome)
      requires Valid()
      modifies this, tasks.Values
      ensures Valid()
      ensures tasks.Keys <= old(tasks.Keys)
      ensures r.Fail? ==> r == Fail(OperationFail(UseRegister))
      ensures old(Linked()) ==> r == Pass && Linked()
      ensures r.Pass? ==>
        forall n :: n in old(tasks) ==> (n !in tasks <==> Dropped(name, tag, n, old(tasks[n].tags)))
      ensures r.Pass? ==> forall n :: n in old(tasks) && n !in tasks ==> old(tasks[n]).manager == null
      ensures forall n :: n in tasks ==> tasks[n] == old(tasks[n])
      ensures r.Pass? ==> order == Keep(old(order), old(tasks.Keys) - tasks.Keys)
    {
      var nm := if name.Some? then name.value else "";
      r := UnregisterName(nm);
      if r.Fail? {
        return;
      }
      var q := if tag.Some? then tag.value else OneTag("");
      ghost var midTasks, midOrder := tasks, order;
      assert forall t :: t in tasks.Values ==> t in old(tasks.Values);
      if nm in old(tasks) {
        assert old(tasks[nm]) !in tasks.Values;
      }
      label Mid:
      r := UnregisterTag(q);
      if r.Pass? {
        UnregisterOrder(old(order), old(tasks), midTasks, tasks, nm, midOrder, order);
      }
      if r.Pass? {
        forall n | n in old(tasks) && n !in tasks
          ensures old(tasks[n]).manager == null
        {
          if n != nm {
            OtherEntry(old(tasks), midTasks, nm, n);
          }
        }
        forall n | n in old(tasks)
          ensures n !in tasks <==> Dropped(name, tag, n, old(tasks[n].tags))
        {
          if n != nm {
            OtherEntry(old(tasks), midTasks, nm, n);
            assert old@Mid(midTasks[n].tags) == old(tasks[n].tags);
          }
        }
      }
    }

    /**
     * The step of `TaskGroup.set_manager` for one task: a task with a manager
     * leaves it and is registered here; a task without one is left alone.
     */
    method Adopt(t: Task) returns (r: Outcome)
      requires Valid() && t.name != "" && t.Registered() && (t.manager != null ==> t.manager.Valid())
      modifies this, t, t.manager
      ensures Valid() && t.Registered()
      ensures t.State() == old(t.State()) && t.tags == old(t.tags)
      ensures r.Fail? ==> r == Fail(TaskNameDuplicate)
      ensures old(t.manager) == null ==> r == Pass && t.manager == null && unchanged(this)
      ensures old(t.manager) == this ==>
        r == Pass && t.manager == this && Same(old(tasks), tasks, t.name) && t.name in tasks && tasks[t.name] == t
      ensures old(t.manager) != null && old(t.manager) != this ==>
        && old(t.manager).Valid() && t.name !in old(t.manager).tasks
        && Same(old(t.manager.tasks), old(t.manager).tasks, t.name)
        && Same(old(tasks), tasks, t.name)
        && (r.Pass? <==> t.name !in old(tasks))
        && (r.Pass? ==> t.manager == this && t.name in tasks && tasks[t.name] == t)
        && (r.Fail? ==> t.manager == null && tasks == old(tasks))
    {
      if t.manager == null {
        return Pass;
      }
      var u := t.manager.UnregisterName(t.name);
      r := Register(t);
    }
  }

  /** The two registries agree on every name other than `n`. */
  ghost predicate Same(a: map<string, Task>, b: map<string, Task>, n: string) {
    forall k :: k != n ==> (k in a <==> k in b) && (k in a ==> a[k] == b[k])
  }

  /** The names of `l` outside `gone`, in their order in `l`. */
  function Keep(l: seq<string>, gone: set<string>): seq<string> {
    if l == [] then [] else (if l[0] in gone then [] else [l[0]]) + Keep(l[1..], gone)
  }

  lemma {:induction false} KeepNone(l: seq<string>)
    ensures Keep(l, {}) == l
  {
    if l != [] {
      KeepNone(l[1..]);
    }
  }

  /** Dropping one name is `Tags.Without`. */
  lemma {:induction false} WithoutIsKeep(l: seq<string>, x: string)
    ensures Tags.Without(l, x) == Keep(l, {x})
  {
    if l != [] {
      WithoutIsKeep(l[1..], x);
    }
  }

  /** Dropping names in two rounds is dropping them all at once. */
  lemma {:induction false} KeepKeep(l: seq<string>, a: set<string>, b: set<string>)
    ensures Keep(Keep(l, a), b) == Keep(l, a + b)
  {
    if l != [] {
      KeepKeep(l[1..], a, b);
      var k := Keep(l, a);
      if l[0] !in a {
        assert k == [l[0]] + Keep(l[1..], a);
        assert k != [] && k[0] == l[0] && k[1..] == Keep(l[1..], a);
        assert Keep(k, b) == (if l[0] in b then [] else [l[0]]) + Keep(k[1..], b);
        assert Keep(l, a + b) == (if l[0] in b then [] else [l[0]]) + Keep(l[1..], a + b);
      } else {
        assert k == Keep(l[1..], a);
      }
    }
  }

  /** The order left by `DropAll`, in terms of the names that went. */
  lemma DropOrder(o: seq<string>, m0: map<string, Task>, m1: map<string, Task>, list: seq<Task>, last: seq<string>)
    requires forall t :: t in list ==> t.name in m0
    requires m1 == m0 - NamesOf(list) && last == DropNames(o, list)
    ensures last == Keep(o, m0.Keys - m1.Keys)
  {
    NamesOfSpec(list);
    DropNamesKeep(o, list);
    assert m0.Keys - m1.Keys == NamesOf(list);
  }

  /** Removing `x`, if present, keeps every other entry. */
  lemma OtherEntry(m0: map<string, Task>, m1: map<string, Task>, x: string, n: string)
    requires (x in m0 && m1 == m0 - {x}) || (x !in m0 && m1 == m0)
    requires n in m0 && n != x
    ensures n in m1 && m1[n] == m0[n]
  {
  }

  /** The order left by the name part of `unregister` and then its tag part. */
  lemma UnregisterOrder(o: seq<string>, m0: map<string, Task>, m1: map<string, Task>, m2: map<string, Task>,
                        x: string, mid: seq<string>, last: seq<string>)
    requires (x in m0 && m1 == m0 - {x} && mid == Tags.Without(o, x)) || (x !in m0 && m1 == m0 && mid == o)
    requires forall n :: n in m2 ==> n in m1
    requires last == Keep(mid, m1.Keys - m2.Keys)
    ensures last == Keep(o, m0.Keys - m2.Keys)
  {
    if x in m0 {
      WithoutIsKeep(o, x);
      KeepKeep(o, {x}, m1.Keys - m2.Keys);
      assert {x} + (m1.Keys - m2.Keys) == m0.Keys - m2.Keys;
    } else {
      assert m1.Keys - m2.Keys == m0.Keys - m2.Keys;
    }
  }

  /** `o` after `Tags.Without` of each name of `list` in turn. */
  ghost function DropNames(o: seq<string>, list: seq<Task>): seq<string>
    decreases |list|
  {
    if list == [] then o else Tags.Without(DropNames(o, list[..|list| - 1]), list[|list| - 1].name)
  }

  /** What one pass of `DropAll` relies on about the names still to go. */
  lemma DropStep(list: seq<Task>, i: int, M: map<string, Task>, O: seq<string>)
    requires NoRepeat(list) && 0 <= i < |list|
    requires forall t :: t in list ==> t.name in M && M[t.name] == t
    ensures list[i].name in M && list[i].name !in NamesOf(list[..i])
    ensures M - NamesOf(list[..i + 1]) == (M - NamesOf(list[..i])) - {list[i].name}
    ensures DropNames(O, list[..i + 1]) == Tags.Without(DropNames(O, list[..i]), list[i].name)
    ensures forall j :: 0 <= j < |list| && j != i ==> list[j] != list[i]
  {
    var t := list[i];
    assert list[..i + 1][..i] == list[..i];
    assert t in list;
    assert t.name !in NamesOf(list[..i]) by {
      NamesOfAt(list[..i]);
      forall j | 0 <= j < i ensures list[..i][j].name != t.name {
        assert list[j] in list;
      }
    }
    MinusStep(M, NamesOf(list[..i]), t.name);
    DropNamesStep(O, list, i);
  }

  lemma DropNamesStep(o: seq<string>, list: seq<Task>, i: int)
    requires 0 <= i < |list|
    ensures DropNames(o, list[..i + 1]) == Tags.Without(DropNames(o, list[..i]), list[i].name)
  {
    assert list[..i + 1][..i] == list[..i];
  }

  /** Dropping the names one by one keeps the other names in their order. */
  lemma {:induction false} DropNamesKeep(o: seq<string>, list: seq<Task>)
    ensures DropNames(o, list) == Keep(o, NamesOf(list))
    decreases |list|
  {
    if list == [] {
      KeepNone(o);
    } else {
      var init, last := list[..|list| - 1], list[|list| - 1].name;
      DropNamesKeep(o, init);
      WithoutIsKeep(Keep(o, NamesOf(init)), last);
      KeepKeep(o, NamesOf(init), {last});
    }
  }

  /** The names of a list of tasks. */
  ghost function NamesOf(s: seq<Task>): set<string>
    decreases |s|
  {
    if s == [] then {} else NamesOf(s[..|s| - 1]) + {s[|s| - 1].name}
  }

  lemma {:induction false} NamesOfAt(s: seq<Task>)
    ensures forall n :: n in NamesOf(s) ==> exists j :: 0 <= j < |s| && s[j].name == n
    decreases |s|
  {
    if s != [] {
      NamesOfAt(s[..|s| - 1]);
    }
  }

  lemma {:induction false} NamesOfSpec(s: seq<Task>)
    ensures forall t :: t in s ==> t.name in NamesOf(s)
    ensures forall n :: n in NamesOf(s) ==> exists t :: t in s && t.name == n
    decreases |s|
  {
    if s != [] {
      var init := s[..|s| - 1];
      assert s == init + [s[|s| - 1]];
      NamesOfSpec(init);
    }
  }

  lemma MinusStep<K, V>(m: map<K, V>, s: set<K>, k: K)
    ensures (m - s) - {k} == m - (s + {k})
  {
  }

  lemma NoDupInit(s: seq<string>)
    requires Tags.NoDup(s) && s != []
    ensures Tags.NoDup(s[..|s| - 1]) && s[|s| - 1] !in s[..|s| - 1]
  {
    var init := s[..|s| - 1];
    forall i | 0 <= i < |init| ensures init[i] != s[|s| - 1] {
      assert init[i] == s[i];
    }
  }
}
