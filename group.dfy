/**
 * `TaskGroup` of schedule_manager/manager.py: an ordered list of tasks that
 * passes tag, configuration and lifecycle calls on to each member in turn,
 * moves them all to one manager, and pauses them together.
 */
module Group {

  import opened Wrappers
  import opened Errors
  import opened Calendar
  import opened TimeText
  import Tags
  import opened Config
  import Lifecycle
  import opened Manager

  /** A tag call that a group passes on to each member. */
  datatype TagCall =
    | AddingTag(tag: string)
    | AddingTags(list: seq<string>)
    | RemovingTag(tag: string)
    | RemovingTags(list: seq<string>)
    | SettingTags(list: seq<string>)

  /** What the tag call makes of one member's tag list. */
  function Retagged(c: TagCall, l: seq<string>): seq<string> {
    match c
    case AddingTag(t) => Tags.AddTag(l, t)
    case AddingTags(ts) => Tags.AddTags(l, ts)
    case RemovingTag(t) => Tags.RemoveTag(l, t)
    case RemovingTags(ts) => Tags.RemoveTags(l, ts)
    case SettingTags(ts) => Tags.SetTags(ts)
  }

  /**
   * A tag call keeps a list free of duplicates, and a second call changes
   * nothing: a group that lists a task twice retags it once.
   */
  lemma RetaggedTwice(c: TagCall, l: seq<string>)
    requires Tags.NoDup(l)
    ensures Tags.NoDup(Retagged(c, l))
    ensures Retagged(c, Retagged(c, l)) == Retagged(c, l)
  {
    match c
    case AddingTag(t) =>
      Tags.AddTagsSpec(l, [t]);
      assert Tags.AddTags(l, [t]) == Tags.AddTag(l, t);
    case AddingTags(ts) =>
      Tags.AddTagsSpec(l, ts);
      Tags.AddTagsIdempotent(l, ts);
    case RemovingTag(t) =>
      Tags.RemoveTagSpec(l, t);
      Tags.WithoutAbsent(Tags.RemoveTag(l, t), t);
    case RemovingTags(ts) =>
      Tags.RemoveTagsSpec(l, ts);
      Tags.RemoveTagsIdempotent(l, ts);
    case SettingTags(ts) =>
      Tags.SetTagsSpec(ts);
  }

  /** A configuration or lifecycle call that a group passes on to each member. */
  datatype Call =
    | Configuring(op: Op, at: Moment)
    | Starting(at: Moment)
    | Stopping

  predicate ValidCall(c: Call) {
    match c
    case Configuring(op, now) => ValidMoment(now) && ValidOp(op)
    case Starting(now) => ValidMoment(now)
    case Stopping => true
  }

  /** What the call does to one member's state, and whether it raises. */
  function Effect(c: Call, s: TaskState): (TaskState, Outcome)
    requires ValidCall(c)
  {
    match c
    case Configuring(op, now) => Lifecycle.Configure(s, op, now)
    case Starting(now) => Lifecycle.Start(s, now)
    case Stopping => Lifecycle.Stop(s)
  }

  /**
   * The group's loop on the members' states: each listed task in turn takes
   * the call, and the first one that raises ends the loop with its error.
   */
  function Forward(c: Call, states: map<Task, TaskState>, ts: seq<Task>): (r: (map<Task, TaskState>, Outcome))
    requires ValidCall(c) && forall t :: t in ts ==> t in states
    ensures forall t :: t in states ==> t in r.0
    decreases |ts|
  {
    if ts == [] then (states, Pass)
    else
      var e := Effect(c, states[ts[0]]);
      var next := states[ts[0] := e.0];
      if e.1.Fail? then (next, e.1) else Forward(c, next, ts[1..])
  }

  /** One step of the loop, at position `i`. */
  lemma ForwardStep(c: Call, S: map<Task, TaskState>, ts: seq<Task>, i: nat)
    requires ValidCall(c) && i < |ts| && forall t :: t in ts ==> t in S
    ensures var e := Effect(c, S[ts[i]]);
      Forward(c, S, ts[i..]) == if e.1.Fail? then (S[ts[i] := e.0], e.1) else Forward(c, S[ts[i] := e.0], ts[i + 1..])
  {
    assert ts[i..][0] == ts[i] && ts[i..][1..] == ts[i + 1..];
  }

  /** The members' states. */
  function States(ts: seq<Task>): (m: map<Task, TaskState>)
    reads ts
    ensures forall t :: t in ts ==> t in m && m[t] == t.State()
  {
    map t | t in ts :: t.State()
  }

  lemma NoRepeatFirst<T>(s: seq<T>)
    requires s != []
    ensures NoRepeat(s) <==> s[0] !in s[1..] && NoRepeat(s[1..])
  {
    if NoRepeat(s) {
      forall k | 0 <= k < |s| - 1 ensures s[1..][k] != s[0] {
        assert s[1..][k] == s[k + 1];
      }
    }
    if s[0] !in s[1..] && NoRepeat(s[1..]) {
      forall i, j | 0 <= i < j < |s| ensures s[i] != s[j] {
        assert s[j] == s[1..][j - 1];
        if i > 0 {
          assert s[i] == s[1..][i - 1];
        }
      }
    }
  }

  /** Tasks that the loop does not reach keep their state. */
  lemma {:induction false} ForwardLeaves(c: Call, S: map<Task, TaskState>, ts: seq<Task>)
    requires ValidCall(c) && forall t :: t in ts ==> t in S
    ensures forall t :: t in S && t !in ts ==> Forward(c, S, ts).0[t] == S[t]
    decreases |ts|
  {
    if ts != [] {
      var e := Effect(c, S[ts[0]]);
      if e.1.Pass? {
        ForwardLeaves(c, S[ts[0] := e.0], ts[1..]);
      }
    }
  }

  /**
   * Configuring a group passes exactly when every member accepts the call,
   * and then every member holds what one call gives it, even when the group
   * lists it twice.
   */
  lemma {:induction false} ConfigureAll(op: Op, now: Moment, S: map<Task, TaskState>, ts: seq<Task>)
    requires ValidMoment(now) && ValidOp(op) && forall t :: t in ts ==> t in S
    ensures var f := Forward(Configuring(op, now), S, ts);
      && (f.1.Pass? <==> forall t :: t in ts ==> Lifecycle.Configure(S[t], op, now).1.Pass?)
      && (f.1.Pass? ==> forall t :: t in ts ==> f.0[t] == Lifecycle.Configure(S[t], op, now).0)
    decreases |ts|
  {
    if ts != [] {
      var t0 := ts[0];
      var e := Lifecycle.Configure(S[t0], op, now);
      if e.1.Pass? {
        var S1 := S[t0 := e.0];
        ConfigureAll(op, now, S1, ts[1..]);
        Lifecycle.ConfigureIdempotent(S[t0], op, now);
        ForwardLeaves(Configuring(op, now), S1, ts[1..]);
        assert forall t :: t in ts ==> t == t0 || t in ts[1..];
      }
    }
  }

  /**
   * Starting a group passes exactly when every member has a unit, none has
   * launched its thread and none is listed twice (a second `start` raises),
   * and then every member holds what its `start` gives it.
   */
  lemma {:induction false} StartAll(now: Moment, S: map<Task, TaskState>, ts: seq<Task>)
    requires ValidMoment(now) && forall t :: t in ts ==> t in S
    ensures var f := Forward(Starting(now), S, ts);
      && (f.1.Pass? <==> NoRepeat(ts) && forall t :: t in ts ==> S[t].cfg.unit.Some? && S[t].phase == Lifecycle.Idle)
      && (f.1.Pass? ==> forall t :: t in ts ==> f.0[t] == Lifecycle.Start(S[t], now).0)
    decreases |ts|
  {
    if ts != [] {
      var t0 := ts[0];
      var e := Lifecycle.Start(S[t0], now);
      NoRepeatFirst(ts);
      if e.1.Pass? {
        var S1 := S[t0 := e.0];
        StartAll(now, S1, ts[1..]);
        ForwardLeaves(Starting(now), S1, ts[1..]);
        assert forall t :: t in ts ==> t == t0 || t in ts[1..];
      }
    }
  }

  /**
   * Stopping a group passes exactly when every member runs and none is
   * listed twice (a second `stop` raises), and then every member is stopped.
   */
  lemma {:induction false} StopAll(S: map<Task, TaskState>, ts: seq<Task>)
    requires forall t :: t in ts ==> t in S
    ensures var f := Forward(Stopping, S, ts);
      && (f.1.Pass? <==> NoRepeat(ts) && forall t :: t in ts ==> S[t].started)
      && (f.1.Pass? ==> forall t :: t in ts ==> f.0[t] == Lifecycle.Stop(S[t]).0)
    decreases |ts|
  {
    if ts != [] {
      var t0 := ts[0];
      var e := Lifecycle.Stop(S[t0]);
      NoRepeatFirst(ts);
      if e.1.Pass? {
        var S1 := S[t0 := e.0];
        StopAll(S1, ts[1..]);
        ForwardLeaves(Stopping, S1, ts[1..]);
        assert forall t :: t in ts ==> t == t0 || t in ts[1..];
      }
    }
  }

  /**
   * What the second loop of `set_manager` keeps: `ts[..i]` have moved to `m`,
   * the others are where they were, and every member is still the entry under
   * its name in its manager.  `olds` and `K0` record the members'
   * managers, their states and tags, and the entries of `m`, before the loop;
   * `apart` says that no two movers share a name.
   */
  ghost predicate Moving(m: ScheduleManager, ts: seq<Task>, olds: map<Task, ScheduleManager?>,
                         K0: map<string, Task>,
                         apart: bool, i: nat)
    requires i <= |ts|
    reads m, ts, Managers(ts), olds.Values
  {
    && (forall u :: u in ts ==> u in olds && u.name !in K0 && olds[u] != m)
    && (forall u, v :: u in ts && v in ts && olds[u] != null && olds[v] != null && u.name == v.name && apart ==> u == v)
    && m.Valid()
    && (forall u :: u in ts ==> u.name != "")
    && (forall u :: u in ts ==> u.manager == (if olds[u] != null && u in ts[..i] then m else olds[u]))
    && (forall u :: u in ts && u.manager != null ==> u.manager.Valid())
    && (forall u :: u in ts ==> u.Registered())
    && (forall u :: u in ts && olds[u] != null && u in ts[..i] ==> u.name !in olds[u].tasks)
    && (forall n :: n in K0 ==> n in m.tasks && m.tasks[n] == K0[n])
    && (apart ==> forall u :: u in ts && olds[u] != null && u !in ts[..i] ==> u.name !in m.tasks)
  }

  lemma PrefixStep<T>(s: seq<T>, i: nat)
    requires i < |s|
    ensures forall x :: x in s[..i + 1] <==> x in s[..i] || x == s[i]
  {
    assert s[..i + 1] == s[..i] + [s[i]];
  }

  /**
   * What the loop of `set_manager` works over: the target `m`, the members,
   * the snapshot of their managers and of the target's entries, and whether
   * the members' names were apart at the start.
   */
  datatype Moves = Moves(m: ScheduleManager, ts: seq<Task>, olds: map<Task, ScheduleManager?>,
                         K0: map<string, Task>, apart: bool)

  /**
   * The adoption of `ts[i]` by `m` keeps every member the entry under its
   * name in its manager (the requires are what `ScheduleManager.Adopt`
   * promises, and that nothing else changed).
   */
  twostate lemma AdoptedLinks(c: Moves, new i: nat)
    requires i < |c.ts| && old(Moving(c.m, c.ts, c.olds, c.K0, c.apart, i))
    requires c.m.Valid() && c.ts[i].Registered() && c.ts[i].manager == (if old(c.ts[i].manager) == null then null else c.m)
    requires c.ts[i].State() == old(c.ts[i].State()) && c.ts[i].tags == old(c.ts[i].tags)
    requires old(c.ts[i].manager) == null ==> unchanged(c.m)
    requires old(c.ts[i].manager) != null ==> Same(old(c.m.tasks), c.m.tasks, c.ts[i].name)
    requires old(c.ts[i].manager) != null && old(c.ts[i].manager) != c.m ==>
      && old(c.ts[i].manager).Valid() && c.ts[i].name !in old(c.ts[i].manager).tasks
      && Same(old(c.ts[i].manager.tasks), old(c.ts[i].manager).tasks, c.ts[i].name)
      && c.ts[i].name !in old(c.m.tasks)
    requires forall u :: u in c.ts && u != c.ts[i] ==> unchanged(u)
    requires forall k: ScheduleManager :: (k in old(Managers(c.ts)) || k in c.olds.Values) && k != c.m && k != old(c.ts[i].manager) ==> unchanged(k)
    ensures forall u :: u in c.ts ==> u.Registered()
  {
    var t := c.ts[i];
    forall u | u in c.ts && u != t && u.manager != null ensures u.Registered() {
      assert old(u.manager.tasks[u.name]) == u;
      if old(t.manager) != null && (u.manager == c.m || u.manager == old(t.manager)) {
        assert old(t.Registered());
        assert u.name != t.name;
        assert u.name in u.manager.tasks && u.manager.tasks[u.name] == old(u.manager.tasks[u.name]);
      } else {
        assert u.manager in old(Managers(c.ts));
      }
    }
  }

  /** The adoption keeps every member's manager consistent. */
  twostate lemma AdoptedValid(c: Moves, new i: nat)
    requires i < |c.ts| && old(Moving(c.m, c.ts, c.olds, c.K0, c.apart, i))
    requires c.m.Valid() && c.ts[i].Registered() && c.ts[i].manager == (if old(c.ts[i].manager) == null then null else c.m)
    requires c.ts[i].State() == old(c.ts[i].State()) && c.ts[i].tags == old(c.ts[i].tags)
    requires old(c.ts[i].manager) == null ==> unchanged(c.m)
    requires old(c.ts[i].manager) != null ==> Same(old(c.m.tasks), c.m.tasks, c.ts[i].name)
    requires old(c.ts[i].manager) != null && old(c.ts[i].manager) != c.m ==>
      && old(c.ts[i].manager).Valid() && c.ts[i].name !in old(c.ts[i].manager).tasks
      && Same(old(c.ts[i].manager.tasks), old(c.ts[i].manager).tasks, c.ts[i].name)
      && c.ts[i].name !in old(c.m.tasks)
    requires forall u :: u in c.ts && u != c.ts[i] ==> unchanged(u)
    requires forall k: ScheduleManager :: (k in old(Managers(c.ts)) || k in c.olds.Values) && k != c.m && k != old(c.ts[i].manager) ==> unchanged(k)
    ensures forall u :: u in c.ts && u.manager != null ==> u.manager.Valid()
  {
    forall u | u in c.ts && u.manager != null && u.manager != c.m && u.manager != old(c.ts[i].manager) ensures u.manager.Valid() {
      assert u.manager in old(Managers(c.ts));
    }
  }

  /**
   * `Moving` survives the adoption of `ts[i]` by `m`: the only objects that
   * change are `m`, `ts[i]` and its former manager, and those only as
   * `ScheduleManager.Adopt` promises.
   */
  twostate lemma Adopted(c: Moves, new i: nat)
    requires i < |c.ts| && old(Moving(c.m, c.ts, c.olds, c.K0, c.apart, i))
    requires c.m.Valid() && c.ts[i].Registered() && c.ts[i].manager == (if old(c.ts[i].manager) == null then null else c.m)
    requires c.ts[i].State() == old(c.ts[i].State()) && c.ts[i].tags == old(c.ts[i].tags)
    requires old(c.ts[i].manager) == null ==> unchanged(c.m)
    requires old(c.ts[i].manager) != null ==> Same(old(c.m.tasks), c.m.tasks, c.ts[i].name)
    requires old(c.ts[i].manager) != null && old(c.ts[i].manager) != c.m ==>
      && old(c.ts[i].manager).Valid() && c.ts[i].name !in old(c.ts[i].manager).tasks
      && Same(old(c.ts[i].manager.tasks), old(c.ts[i].manager).tasks, c.ts[i].name)
      && c.ts[i].name !in old(c.m.tasks)
    requires forall u :: u in c.ts && u != c.ts[i] ==> unchanged(u)
    requires forall k: ScheduleManager :: (k in old(Managers(c.ts)) || k in c.olds.Values) && k != c.m && k != old(c.ts[i].manager) ==> unchanged(k)
    ensures Moving(c.m, c.ts, c.olds, c.K0, c.apart, i + 1)
  {
    AdoptedLinks(c, i);
    AdoptedValid(c, i);
    PrefixStep(c.ts, i);
    forall u | u in c.ts && c.olds[u] != null && u in c.ts[..i+1] ensures u.name !in c.olds[u].tasks {
      assert c.olds[u] in c.olds.Values;
    }
  }

  /** No two different tasks of `ts` that had a manager share a name. */
  ghost predicate ApartBy(ts: seq<Task>, olds: map<Task, ScheduleManager?>) {
    forall u, v :: u in ts && v in ts && u in olds && v in olds && olds[u] != null && olds[v] != null && u.name == v.name ==> u == v
  }

  lemma MovingStart(m: ScheduleManager, ts: seq<Task>, olds: map<Task, ScheduleManager?>,
                    K0: map<string, Task>, apart: bool)
    requires m.Valid() && Members(ts) && forall t :: t in ts ==> t.name !in m.tasks
    requires olds == map t: Task | t in ts :: t.manager
    requires K0 == m.tasks && apart == ApartBy(ts, olds)
    ensures Moving(m, ts, olds, K0, apart, 0)
    ensures apart == NamesApart(ts)
  {
    if apart {
      forall i, j | 0 <= i < |ts| && 0 <= j < |ts| && ts[i].manager != null && ts[j].manager != null && ts[i].name == ts[j].name
        ensures ts[i] == ts[j]
      {
        assert ts[i] in ts && ts[j] in ts;
      }
    }
    if NamesApart(ts) {
      forall u, v | u in ts && v in ts && olds[u] != null && olds[v] != null && u.name == v.name ensures u == v {
        var a :| 0 <= a < |ts| && ts[a] == u;
        var b :| 0 <= b < |ts| && ts[b] == v;
      }
    }
  }

  lemma MovingEnd(m: ScheduleManager, ts: seq<Task>, olds: map<Task, ScheduleManager?>,
                  K0: map<string, Task>, apart: bool)
    requires Moving(m, ts, olds, K0, apart, |ts|) && apart == ApartBy(ts, olds)
    ensures apart
    ensures forall u :: u in ts ==>
      && (olds[u] == null ==> u.manager == null)
      && (olds[u] != null ==> u.manager == m && u.name in m.tasks && m.tasks[u.name] == u && u.name !in olds[u].tasks)
  {
    assert ts[..|ts|] == ts;
  }

  /** Some listed task's name is already taken in `keys`. */
  predicate Clash(ts: seq<Task>, keys: set<string>) {
    exists j :: 0 <= j < |ts| && ts[j].name in keys
  }

  /** No two different listed tasks that have a manager share a name. */
  predicate NamesApart(ts: seq<Task>)
    reads ts
  {
    forall i, j :: 0 <= i < |ts| && 0 <= j < |ts| && ts[i].manager != null && ts[j].manager != null && ts[i].name == ts[j].name ==> ts[i] == ts[j]
  }

  /** The managers of the listed tasks. */
  function Managers(ts: seq<Task>): set<ScheduleManager>
    reads ts
  {
    set t | t in ts && t.manager != null :: t.manager
  }

  /** Each listed task is named and the entry under its name in its manager. */
  predicate Members(ts: seq<Task>)
    reads ts, Managers(ts)
  {
    forall t :: t in ts ==> t.name != "" && t.Registered() && (t.manager != null ==> t.manager.Valid())
  }

  // The pause loop.

  /**
   * What the loop of `pause` works over: the members, the replacements
   * collected so far, and the snapshots of the members' managers, states and
   * tags.
   */
  datatype Snaps = Snaps(ts: seq<Task>, acc: seq<Task>, olds: map<Task, ScheduleManager?>,
                         S0: map<Task, TaskState>, T0: map<Task, seq<string>>)

  /** The snapshots cover every member, and record sound states. */
  ghost predicate Snapshots(ts: seq<Task>, olds: map<Task, ScheduleManager?>, S0: map<Task, TaskState>,
                            T0: map<Task, seq<string>>)
  {
    forall u :: u in ts ==> u in olds && u in S0 && u in T0 && Lifecycle.Sound(S0[u])
  }

  /** The members `ts[..i]` are distinct, and were running and managed when the loop began. */
  ghost predicate PausePlan(ts: seq<Task>, i: nat, olds: map<Task, ScheduleManager?>, S0: map<Task, TaskState>,
                            T0: map<Task, seq<string>>, now: Moment)
  {
    && ValidMoment(now) && i <= |ts| && Snapshots(ts, olds, S0, T0)
    && (forall j, k :: 0 <= j < k < i ==> ts[j] != ts[k])
    && (forall j :: 0 <= j < i ==> S0[ts[j]].started && olds[ts[j]] != null)
  }

  /**
   * Every member is still sound and the entry under its name in its manager,
   * with its tags; the members not in `ts[..i]` are as the snapshots recorded them.
   */
  ghost predicate PauseRest(ts: seq<Task>, i: nat, olds: map<Task, ScheduleManager?>, S0: map<Task, TaskState>,
                            T0: map<Task, seq<string>>)
    requires i <= |ts| && Snapshots(ts, olds, S0, T0)
    reads ts, Managers(ts)
  {
    && (forall u :: u in ts ==> u.Valid() && u.Registered() && (u.manager != null ==> u.manager.Valid()) && u.tags == T0[u])
    && (forall u :: u in ts ==> u.started ==> u.phase == Lifecycle.Waiting || u.phase == Lifecycle.Polling)
    && (forall u :: u in ts && u !in ts[..i] ==> u.State() == S0[u] && u.manager == olds[u])
  }

  /**
   * The members `ts[..i]` are paused, settled and out of their managers, and
   * `acc` holds their replacements, each registered in the manager saved for
   * its member.
   */
  ghost predicate PauseDone(ts: seq<Task>, i: nat, acc: seq<Task>, olds: map<Task, ScheduleManager?>,
                            S0: map<Task, TaskState>, T0: map<Task, seq<string>>, now: Moment)
    requires ValidMoment(now) && i <= |ts| && |acc| == i && Snapshots(ts, olds, S0, T0)
    reads ts, acc, olds.Values
  {
    && (forall j :: 0 <= j < i ==>
          !ts[j].started && ts[j].manager == null && ts[j].State() == Lifecycle.Settled(S0[ts[j]], now, ts[j].ignoreSkipped))
    && (forall j :: 0 <= j < i ==>
          acc[j] !in ts && olds[ts[j]] != null && Respawned(acc[j], olds[ts[j]], ts[j].name, T0[ts[j]], S0[ts[j]].cfg, now))
  }

  /** What the loop of `pause` keeps after the members `ts[..i]`. */
  ghost predicate Pausing(ts: seq<Task>, i: nat, acc: seq<Task>, olds: map<Task, ScheduleManager?>,
                          S0: map<Task, TaskState>, T0: map<Task, seq<string>>, now: Moment)
    reads ts, acc, Managers(ts), olds.Values
  {
    && PausePlan(ts, i, olds, S0, T0, now) && |acc| == i
    && PauseRest(ts, i, olds, S0, T0)
    && PauseDone(ts, i, acc, olds, S0, T0, now)
  }

  lemma PauseStart(ts: seq<Task>, olds: map<Task, ScheduleManager?>, S0: map<Task, TaskState>,
                   T0: map<Task, seq<string>>, now: Moment)
    requires ValidMoment(now) && Members(ts)
    requires forall u :: u in ts ==> u.Valid() && (u.started ==> u.phase == Lifecycle.Waiting || u.phase == Lifecycle.Polling)
    requires olds == map t: Task | t in ts :: t.manager
    requires forall u :: u in ts ==> u in S0 && S0[u] == u.State()
    requires T0 == map t: Task | t in ts :: t.tags
    ensures Pausing(ts, 0, [], olds, S0, T0, now)
  {
  }

  /** A member that is not running and managed makes the whole call fail. */
  lemma PauseRefused(ts: seq<Task>, i: nat, acc: seq<Task>, olds: map<Task, ScheduleManager?>,
                     S0: map<Task, TaskState>, T0: map<Task, seq<string>>, now: Moment)
    requires i < |ts| && Pausing(ts, i, acc, olds, S0, T0, now)
    requires !(ts[i].started && ts[i].manager != null)
    ensures !(NoRepeat(ts) && forall u :: u in ts ==> S0[u].started && olds[u] != null)
  {
    if ts[i] in ts[..i] {
      var j :| 0 <= j < i && ts[..i][j] == ts[i];
      assert ts[j] == ts[i];
    }
  }

  /** The plan grows by a member not seen before, which was running and managed. */
  lemma PlanStep(ts: seq<Task>, i: nat, olds: map<Task, ScheduleManager?>, S0: map<Task, TaskState>,
                 T0: map<Task, seq<string>>, now: Moment)
    requires i < |ts| && PausePlan(ts, i, olds, S0, T0, now)
    requires ts[i] !in ts[..i] && S0[ts[i]].started && olds[ts[i]] != null
    ensures PausePlan(ts, i + 1, olds, S0, T0, now)
  {
    forall j, k | 0 <= j < k < i + 1
      ensures ts[j] != ts[k]
    {
      if k == i {
        assert ts[j] == ts[..i][j];
      }
    }
  }

  /**
   * The pause of `ts[i]` keeps every other managed member the entry under
   * its name in a sound manager (the requires are what `TaskGroup.PauseOne`
   * promises, and that nothing else changed).
   */
  twostate lemma PausedRegistered(c: Snaps, new i: nat, new now: Moment, new n: Task)
    requires i < |c.ts| && |c.acc| == i
    requires old(PausePlan(c.ts, i, c.olds, c.S0, c.T0, now) && PauseRest(c.ts, i, c.olds, c.S0, c.T0) && PauseDone(c.ts, i, c.acc, c.olds, c.S0, c.T0, now))
    requires c.ts[i] !in c.ts[..i] && old(c.ts[i].manager) != null && !c.ts[i].started && n !in c.ts
    requires c.ts[i].tags == old(c.ts[i].tags) && c.ts[i].Valid() && c.ts[i].manager == null
    requires old(c.ts[i].manager).Valid()
    requires old(c.ts[i].manager).tasks == old(c.ts[i].manager.tasks)[c.ts[i].name := n]
    requires forall u :: u in c.ts && u != c.ts[i] ==> unchanged(u)
    requires forall k: ScheduleManager :: k in c.olds.Values && k != old(c.ts[i].manager) ==> unchanged(k)
    ensures forall u :: u in c.ts && u != c.ts[i] && u.manager != null ==> u.Registered() && u.manager.Valid()
  {
    var t := c.ts[i];
    forall u | u in c.ts && u != t && u.manager != null
      ensures u.Registered() && u.manager.Valid()
    {
      assert u !in c.ts[..i] && c.olds[u] in c.olds.Values;
      if u.manager == old(t.manager) {
        assert old(t.Registered()) && old(u.Registered());
      }
    }
  }

  /** The pause of `ts[i]` keeps `PauseRest`, one member further on. */
  twostate lemma PausedLinks(c: Snaps, new i: nat, new now: Moment, new n: Task)
    requires i < |c.ts| && |c.acc| == i
    requires old(PausePlan(c.ts, i, c.olds, c.S0, c.T0, now) && PauseRest(c.ts, i, c.olds, c.S0, c.T0) && PauseDone(c.ts, i, c.acc, c.olds, c.S0, c.T0, now))
    requires c.ts[i] !in c.ts[..i] && old(c.ts[i].manager) != null && !c.ts[i].started && n !in c.ts
    requires c.ts[i].tags == old(c.ts[i].tags) && c.ts[i].Valid() && c.ts[i].manager == null
    requires old(c.ts[i].manager).Valid()
    requires old(c.ts[i].manager).tasks == old(c.ts[i].manager.tasks)[c.ts[i].name := n]
    requires forall u :: u in c.ts && u != c.ts[i] ==> unchanged(u)
    requires forall k: ScheduleManager :: k in c.olds.Values && k != old(c.ts[i].manager) ==> unchanged(k)
    ensures PauseRest(c.ts, i + 1, c.olds, c.S0, c.T0)
  {
    PausedRegistered(c, i, now, n);
    PrefixStep(c.ts, i);
  }

  /** The pause of `ts[i]` adds it and its replacement `n` to the settled prefix, which stays as it was. */
  twostate lemma PausedKept(c: Snaps, new i: nat, new now: Moment, new n: Task)
    requires i < |c.ts| && |c.acc| == i
    requires old(PausePlan(c.ts, i, c.olds, c.S0, c.T0, now) && PauseRest(c.ts, i, c.olds, c.S0, c.T0) && PauseDone(c.ts, i, c.acc, c.olds, c.S0, c.T0, now))
    requires c.ts[i] !in c.ts[..i] && old(c.ts[i].manager) != null && n !in c.ts && !c.ts[i].started
    requires c.ts[i].manager == null && c.ts[i].State() == Lifecycle.Settled(old(c.ts[i].State()), now, c.ts[i].ignoreSkipped)
    requires old(c.ts[i].manager).Valid()
    requires Respawned(n, old(c.ts[i].manager), c.ts[i].name, old(c.ts[i].tags), old(c.ts[i].cfg), now)
    requires old(c.ts[i].manager).tasks == old(c.ts[i].manager.tasks)[c.ts[i].name := n]
    requires forall u :: u in c.ts && u != c.ts[i] ==> unchanged(u)
    requires forall j :: 0 <= j < i ==> unchanged(c.acc[j])
    requires forall k: ScheduleManager :: k in c.olds.Values && k != old(c.ts[i].manager) ==> unchanged(k)
    ensures PauseDone(c.ts, i + 1, c.acc + [n], c.olds, c.S0, c.T0, now)
  {
    var t := c.ts[i];
    assert old(t.State()) == c.S0[t] && old(t.manager) == c.olds[t] && old(t.tags) == c.T0[t];
    var acc' := c.acc + [n];
    forall j | 0 <= j < i + 1
      ensures !c.ts[j].started && c.ts[j].manager == null && c.ts[j].State() == Lifecycle.Settled(c.S0[c.ts[j]], now, c.ts[j].ignoreSkipped)
      ensures acc'[j] !in c.ts && c.olds[c.ts[j]] != null && Respawned(acc'[j], c.olds[c.ts[j]], c.ts[j].name, c.T0[c.ts[j]], c.S0[c.ts[j]].cfg, now)
    {
      if j < i {
        assert acc'[j] == c.acc[j];
        assert c.ts[j] in c.ts[..i] && c.ts[j] in c.ts;
        assert c.olds[c.ts[j]] in c.olds.Values;
        if c.olds[c.ts[j]] == old(t.manager) {
          assert old(t.Registered());
        }
      }
    }
  }

  /** At the end of the loop every member is paused, in a list without repeats. */
  lemma PauseEnd(ts: seq<Task>, acc: seq<Task>, olds: map<Task, ScheduleManager?>,
                 S0: map<Task, TaskState>, T0: map<Task, seq<string>>, now: Moment)
    requires Pausing(ts, |ts|, acc, olds, S0, T0, now)
    ensures NoRepeat(ts) && forall u :: u in ts ==> S0[u].started && olds[u] != null
    ensures |acc| == |ts| && forall j :: 0 <= j < |ts| ==>
      && ts[j].manager == null && ts[j].State() == Lifecycle.Settled(S0[ts[j]], now, ts[j].ignoreSkipped)
      && ts[j].tags == T0[ts[j]] && olds[ts[j]] != null
      && Respawned(acc[j], olds[ts[j]], ts[j].name, T0[ts[j]], S0[ts[j]].cfg, now)
  {
    forall u | u in ts
      ensures S0[u].started && olds[u] != null
    {
      var j :| 0 <= j < |ts| && ts[j] == u;
    }
  }

  /**
   * `Pausing` survives the pause of `ts[i]`: the only objects that change
   * are `ts[i]`, its manager and the new task `n`, as `TaskGroup.PauseOne`
   * promises.
   */
  twostate lemma PausedOne(c: Snaps, new i: nat, new now: Moment, new n: Task)
    requires i < |c.ts| && old(Pausing(c.ts, i, c.acc, c.olds, c.S0, c.T0, now))
    requires old(c.ts[i].started) && old(c.ts[i].manager) != null && n !in c.ts && !c.ts[i].started
    requires c.ts[i].tags == old(c.ts[i].tags) && c.ts[i].Valid()
    requires c.ts[i].manager == null && c.ts[i].State() == Lifecycle.Settled(old(c.ts[i].State()), now, c.ts[i].ignoreSkipped)
    requires old(c.ts[i].manager).Valid()
    requires Respawned(n, old(c.ts[i].manager), c.ts[i].name, old(c.ts[i].tags), old(c.ts[i].cfg), now)
    requires old(c.ts[i].manager).tasks == old(c.ts[i].manager.tasks)[c.ts[i].name := n]
    requires forall u :: u in c.ts && u != c.ts[i] ==> unchanged(u)
    requires forall j :: 0 <= j < i ==> unchanged(c.acc[j])
    requires forall k: ScheduleManager :: k in c.olds.Values && k != old(c.ts[i].manager) ==> unchanged(k)
    ensures Pausing(c.ts, i + 1, c.acc + [n], c.olds, c.S0, c.T0, now)
  {
    var t := c.ts[i];
    assert t !in c.ts[..i] by {
      assert old(t.started) && forall j :: 0 <= j < i ==> old(!c.ts[j].started);
    }
    assert old(t.State()) == c.S0[t] && old(t.manager) == c.olds[t];
    PlanStep(c.ts, i, c.olds, c.S0, c.T0, now);
    PausedLinks(c, i, now, n);
    PausedKept(c, i, now, n);
  }

  /** A list of tasks, with calls that go to each member in turn. */
  class TaskGroup {
    var tasks: seq<Task>

    /** The list is copied: later changes to the caller's list do not reach the group. */
    constructor (ts: seq<Task>)
      ensures tasks == ts
    {
      tasks := ts;
    }

    /** `__add__`: a new group with this group's tasks, then the other's. */
    method Plus(other: TaskGroup) returns (g: TaskGroup)
      ensures fresh(g) && g.tasks == tasks + other.tasks
      ensures forall t :: t in g.tasks <==> t in tasks || t in other.tasks
    {
      g := new TaskGroup(tasks + other.tasks);
    }

    /** One member takes the tag call. */
    static method Retake(t: Task, c: TagCall)
      requires t.Valid()
      modifies t
      ensures t.tags == Retagged(c, old(t.tags)) && t.State() == old(t.State()) && t.manager == old(t.manager)
      ensures t.Valid()
    {
      match c {
        case AddingTag(x) => t.AddTag(x);
        case AddingTags(xs) => t.AddTags(xs);
        case RemovingTag(x) => t.RemoveTag(x);
        case RemovingTags(xs) => t.RemoveTags(xs);
        case SettingTags(xs) => t.SetTags(xs);
      }
    }

    /** The first loop of `set_manager`: is any member's name taken in `m`? */
    method Precheck(m: ScheduleManager) returns (clash: bool)
      ensures clash <==> Clash(tasks, m.tasks.Keys)
      ensures !clash ==> forall t :: t in tasks ==> t.name !in m.tasks
    {
      for j := 0 to |tasks|
        invariant forall k :: 0 <= k < j ==> tasks[k].name !in m.tasks
      {
        if tasks[j].name in m.tasks {
          return true;
        }
      }
      return false;
    }

    /**
     * `set_manager`: every member that has a manager moves to `target`, or
     * to a new manager when none is given.  A name already taken in `target`
     * is refused before anything moves; two members of one name collide
     * once the first has moved.
     */
    method SetManager(target: ScheduleManager?) returns (m: ScheduleManager, r: Outcome)
      requires target != null ==> target.Valid()
      requires Members(tasks)
      modifies target, tasks, Managers(tasks)
      ensures target != null ==> m == target
      ensures target == null ==> fresh(m)
      ensures m.Valid()
      ensures r.Fail? ==> r == Fail(TaskNameDuplicate)
      ensures r.Pass? <==> !(target != null && Clash(tasks, old(target.tasks.Keys))) && old(NamesApart(tasks))
      ensures target != null && Clash(tasks, old(target.tasks.Keys)) ==> unchanged(target) && unchanged(tasks)
      ensures forall t :: t in tasks ==> t.State() == old(t.State()) && t.tags == old(t.tags)
      ensures r.Pass? ==> forall t :: t in tasks ==>
        && (old(t.manager) == null ==> t.manager == null)
        && (old(t.manager) != null ==> t.manager == m && t.name in m.tasks && m.tasks[t.name] == t && t.name !in old(t.manager).tasks)
      ensures target != null ==> forall n :: n in old(target.tasks) ==> n in m.tasks && m.tasks[n] == old(target.tasks[n])
    {
      if target == null {
        m, r := MoveToNew();
      } else {
        m := target;
        r := MoveInto(m);
      }
    }

    /** `set_manager()` without a manager: everything moves to a new one. */
    method MoveToNew() returns (m: ScheduleManager, r: Outcome)
      requires Members(tasks)
      modifies tasks, Managers(tasks)
      ensures fresh(m) && m.Valid()
      ensures r.Fail? ==> r == Fail(TaskNameDuplicate)
      ensures r.Pass? <==> old(NamesApart(tasks))
      ensures forall t :: t in tasks ==> t.State() == old(t.State()) && t.tags == old(t.tags)
      ensures r.Pass? ==> forall t :: t in tasks ==>
        && (old(t.manager) == null ==> t.manager == null)
        && (old(t.manager) != null ==> t.manager == m && t.name in m.tasks && m.tasks[t.name] == t && t.name !in old(t.manager).tasks)
    {
      m := new ScheduleManager();
      r := MoveAll(m);
    }

    /** `set_manager(manager)`: the names are checked against `m` first. */
    method MoveInto(m: ScheduleManager) returns (r: Outcome)
      requires m.Valid() && Members(tasks)
      modifies m, tasks, Managers(tasks)
      ensures m.Valid()
      ensures r.Fail? ==> r == Fail(TaskNameDuplicate)
      ensures r.Pass? <==> !Clash(tasks, old(m.tasks.Keys)) && old(NamesApart(tasks))
      ensures Clash(tasks, old(m.tasks.Keys)) ==> unchanged(m) && unchanged(tasks)
      ensures forall t :: t in tasks ==> t.State() == old(t.State()) && t.tags == old(t.tags)
      ensures r.Pass? ==> forall t :: t in tasks ==>
        && (old(t.manager) == null ==> t.manager == null)
        && (old(t.manager) != null ==> t.manager == m && t.name in m.tasks && m.tasks[t.name] == t && t.name !in old(t.manager).tasks)
      ensures forall n :: n in old(m.tasks) ==> n in m.tasks && m.tasks[n] == old(m.tasks[n])
    {
      var clash := Precheck(m);
      if clash {
        return Fail(TaskNameDuplicate);
      }
      r := MoveAll(m);
    }

    /** The second loop of `set_manager`, once no member's name is taken in `m`. */
    method MoveAll(m: ScheduleManager) returns (r: Outcome)
      requires m.Valid() && Members(tasks)
      requires forall t :: t in tasks ==> t.name !in m.tasks
      modifies m, tasks, Managers(tasks)
      ensures m.Valid()
      ensures r.Fail? ==> r == Fail(TaskNameDuplicate)
      ensures r.Pass? <==> old(NamesApart(tasks))
      ensures forall t :: t in tasks ==> t.State() == old(t.State()) && t.tags == old(t.tags)
      ensures r.Pass? ==> forall t :: t in tasks ==>
        && (old(t.manager) == null ==> t.manager == null)
        && (old(t.manager) != null ==> t.manager == m && t.name in m.tasks && m.tasks[t.name] == t && t.name !in old(t.manager).tasks)
      ensures forall n :: n in old(m.tasks) ==> n in m.tasks && m.tasks[n] == old(m.tasks[n])
    {
      var ts := tasks;
      ghost var olds: map<Task, ScheduleManager?> := map t: Task | t in ts :: t.manager;
      ghost var apart := ApartBy(ts, olds);
      ghost var K0 := m.tasks;
      MovingStart(m, ts, olds, K0, apart);
      forall u | u in ts && olds[u] != null ensures olds[u] in Managers(ts) {
      }
      r := MoveLoop(m, ts, olds, K0, apart);
      if r.Pass? {
        MovingEnd(m, ts, olds, K0, apart);
      }
    }

    /** The loop itself, over the snapshot `olds` of the members' managers. */
    static method MoveLoop(m: ScheduleManager, ts: seq<Task>, ghost olds: map<Task, ScheduleManager?>,
                           ghost K0: map<string, Task>, ghost apart: bool) returns (r: Outcome)
      requires Moving(m, ts, olds, K0, apart, 0)
      modifies m, ts, olds.Values
      ensures r.Fail? ==> r == Fail(TaskNameDuplicate) && !apart && m.Valid()
      ensures forall u :: u in ts ==> u.State() == old(u.State()) && u.tags == old(u.tags)
      ensures forall n :: n in K0 ==> n in m.tasks && m.tasks[n] == K0[n]
      ensures r.Pass? ==> Moving(m, ts, olds, K0, apart, |ts|)
    {
      r := Pass;
      for i := 0 to |ts|
        invariant r == Pass && Moving(m, ts, olds, K0, apart, i)
        invariant forall u :: u in ts ==> u.State() == old(u.State()) && u.tags == old(u.tags)
      {
        r := Step(m, ts, i, olds, K0, apart);
        if r.Fail? {
          return;
        }
      }
    }

    /**
     * One pass of `MoveAll`: `t` moves to `m` and every other member stays
     * the entry under its name in its manager.
     */
    static method Step(m: ScheduleManager, ts: seq<Task>, i: nat, ghost olds: map<Task, ScheduleManager?>,
                       ghost K0: map<string, Task>,
                       ghost apart: bool) returns (r: Outcome)
      requires i < |ts| && Moving(m, ts, olds, K0, apart, i)
      modifies m, ts[i], olds[ts[i]]
      ensures r.Fail? ==> r == Fail(TaskNameDuplicate) && !apart && m.Valid()
      ensures forall u :: u in ts ==> u.State() == old(u.State()) && u.tags == old(u.tags)
      ensures forall n :: n in K0 ==> n in m.tasks && m.tasks[n] == K0[n]
      ensures r.Pass? ==> Moving(m, ts, olds, K0, apart, i + 1)
    {
      r := m.Adopt(ts[i]);
      if r.Pass? {
        Adopted(Moves(m, ts, olds, K0, apart), i);
      }
    }

    /** The loop of the five tag calls: each member in turn. */
    method Retag(c: TagCall)
      requires forall j :: 0 <= j < |tasks| ==> tasks[j].Valid()
      modifies tasks
      ensures forall j :: 0 <= j < |tasks| ==>
        && tasks[j].tags == Retagged(c, old(tasks[j].tags))
        && tasks[j].State() == old(tasks[j].State()) && tasks[j].manager == old(tasks[j].manager)
        && tasks[j].Valid()
    {
      var ts := tasks;
      for i := 0 to |ts|
        invariant forall j :: 0 <= j < |ts| ==>
          && ts[j].Valid()
          && ts[j].State() == old(ts[j].State()) && ts[j].manager == old(ts[j].manager)
          && ts[j].tags == if ts[j] in ts[..i] then Retagged(c, old(ts[j].tags)) else old(ts[j].tags)
      {
        var t := ts[i];
        RetaggedTwice(c, old(t.tags));
        Retake(t, c);
        PrefixStep(ts, i);
      }
      assert ts[..|ts|] == ts;
    }

    method AddTag(t: string)
      requires forall j :: 0 <= j < |tasks| ==> tasks[j].Valid()
      modifies tasks
      ensures forall j :: 0 <= j < |tasks| ==>
        tasks[j].tags == Tags.AddTag(old(tasks[j].tags), t) && tasks[j].State() == old(tasks[j].State())
    {
      Retag(AddingTag(t));
    }

    method AddTags(ts: seq<string>)
      requires forall j :: 0 <= j < |tasks| ==> tasks[j].Valid()
      modifies tasks
      ensures forall j :: 0 <= j < |tasks| ==>
        tasks[j].tags == Tags.AddTags(old(tasks[j].tags), ts) && tasks[j].State() == old(tasks[j].State())
    {
      Retag(AddingTags(ts));
    }

    method RemoveTag(t: string)
      requires forall j :: 0 <= j < |tasks| ==> tasks[j].Valid()
      modifies tasks
      ensures forall j :: 0 <= j < |tasks| ==>
        tasks[j].tags == Tags.RemoveTag(old(tasks[j].tags), t) && tasks[j].State() == old(tasks[j].State())
    {
      Retag(RemovingTag(t));
    }

    method RemoveTags(ts: seq<string>)
      requires forall j :: 0 <= j < |tasks| ==> tasks[j].Valid()
      modifies tasks
      ensures forall j :: 0 <= j < |tasks| ==>
        tasks[j].tags == Tags.RemoveTags(old(tasks[j].tags), ts) && tasks[j].State() == old(tasks[j].State())
    {
      Retag(RemovingTags(ts));
    }

    method SetTags(ts: seq<string>)
      requires forall j :: 0 <= j < |tasks| ==> tasks[j].Valid()
      modifies tasks
      ensures forall j :: 0 <= j < |tasks| ==>
        tasks[j].tags == Tags.SetTags(ts) && tasks[j].State() == old(tasks[j].State())
    {
      Retag(SettingTags(ts));
    }

    /** One member takes the call. */
    static method Take(t: Task, c: Call) returns (o: Outcome)
      requires ValidCall(c)
      modifies t
      ensures (t.State(), o) == Effect(c, old(t.State()))
      ensures t.tags == old(t.tags) && t.manager == old(t.manager) && (old(t.Valid()) ==> t.Valid())
    {
      match c {
        case Configuring(op, now) => o := t.Configure(op, now);
        case Starting(now) => o := t.Start(now);
        case Stopping => o := t.Stop();
      }
    }

    /** The loop of the configuration calls and of `start` and `stop`. */
    method Each(c: Call) returns (r: Outcome)
      requires ValidCall(c)
      modifies tasks
      ensures var f := Forward(c, old(States(tasks)), tasks);
        r == f.1 && forall t :: t in tasks ==> t.State() == f.0[t]
      ensures forall t :: t in tasks ==> t.tags == old(t.tags) && t.manager == old(t.manager)
    {
      var ts := tasks;
      ghost var S0 := States(ts);
      ghost var S: map<Task, TaskState> := S0;
      var i := 0;
      while i < |ts|
        invariant 0 <= i <= |ts|
        invariant forall t :: t in ts ==>
          t in S && t.State() == S[t] && t.tags == old(t.tags) && t.manager == old(t.manager)
        invariant Forward(c, S0, ts) == Forward(c, S, ts[i..])
      {
        var t := ts[i];
        var o := Take(t, c);
        ForwardStep(c, S, ts, i);
        S := S[t := t.State()];
        if o.Fail? {
          return o;
        }
        i := i + 1;
      }
      r := Pass;
    }

    /**
     * `delay`, `start_at`, `nonperiodic`, `periodic`, `period`, `period_at`
     * and its three shorthands on every member.
     */
    method Configure(op: Op, now: Moment) returns (r: Outcome)
      requires ValidMoment(now) && ValidOp(op)
      modifies tasks
      ensures r == Forward(Configuring(op, now), old(States(tasks)), tasks).1
      ensures r.Pass? <==> forall t :: t in tasks ==> Lifecycle.Configure(old(t.State()), op, now).1.Pass?
      ensures r.Pass? ==> forall t :: t in tasks ==> t.State() == Lifecycle.Configure(old(t.State()), op, now).0
      ensures forall t :: t in tasks ==> t.tags == old(t.tags) && t.manager == old(t.manager)
    {
      ConfigureAll(op, now, States(tasks), tasks);
      r := Each(Configuring(op, now));
    }

    method Start(now: Moment) returns (r: Outcome)
      requires ValidMoment(now)
      modifies tasks
      ensures r == Forward(Starting(now), old(States(tasks)), tasks).1
      ensures r.Pass? <==>
        NoRepeat(tasks) && forall t :: t in tasks ==> old(t.cfg.unit).Some? && old(t.phase) == Lifecycle.Idle
      ensures r.Pass? ==> forall t :: t in tasks ==> t.State() == Lifecycle.Start(old(t.State()), now).0
      ensures forall t :: t in tasks ==> t.tags == old(t.tags) && t.manager == old(t.manager)
    {
      StartAll(now, States(tasks), tasks);
      r := Each(Starting(now));
    }

    method Stop() returns (r: Outcome)
      modifies tasks
      ensures r == Forward(Stopping, old(States(tasks)), tasks).1
      ensures r.Pass? <==> NoRepeat(tasks) && forall t :: t in tasks ==> old(t.started)
      ensures r.Pass? ==> forall t :: t in tasks ==> t.State() == Lifecycle.Stop(old(t.State())).0
      ensures forall t :: t in tasks ==> t.tags == old(t.tags) && t.manager == old(t.manager)
    {
      StopAll(States(tasks), tasks);
      r := Each(Stopping);
    }

    /**
     * `pause`: each member in turn is paused, its worker ends, and the
     * replacement its finish hook registers takes its place in the group; the
     * first member that is not running or has no manager raises, and then the
     * group keeps its old list.
     */
    method Pause(now: Moment) returns (r: Outcome)
      requires ValidMoment(now) && Members(tasks)
      requires forall t :: t in tasks ==>
        t.Valid() && (t.started ==> t.phase == Lifecycle.Waiting || t.phase == Lifecycle.Polling)
      modifies this, tasks, Managers(tasks)
      ensures r.Pass? <==> NoRepeat(old(tasks)) && forall t :: t in old(tasks) ==> old(t.started) && old(t.manager) != null
      ensures r.Fail? ==> tasks == old(tasks) && (r == Fail(OperationFail(NotRunning)) || r == Fail(OperationFail(NoManager)))
      ensures r.Pass? ==> |tasks| == |old(tasks)| && forall j :: 0 <= j < |tasks| ==>
        var o := old(tasks)[j];
        && old(o.Valid()) && o.manager == null && o.State() == Lifecycle.Settled(old(o.State()), now, o.ignoreSkipped) && o.tags == old(o.tags)
        && fresh(tasks[j]) && Respawned(tasks[j], old(o.manager), o.name, old(o.tags), old(o.cfg), now)
    {
      var acc;
      r, acc := PauseAll(tasks, now);
      if r.Pass? {
        tasks := acc;
      }
    }

    /** The loop of `pause` over the list `ts`, collecting the new list. */
    static method PauseAll(ts: seq<Task>, now: Moment) returns (r: Outcome, acc: seq<Task>)
      requires ValidMoment(now) && Members(ts)
      requires forall t :: t in ts ==>
        t.Valid() && (t.started ==> t.phase == Lifecycle.Waiting || t.phase == Lifecycle.Polling)
      modifies ts, Managers(ts)
      ensures r.Pass? <==> NoRepeat(ts) && forall t :: t in ts ==> old(t.started) && old(t.manager) != null
      ensures r.Fail? ==> r == Fail(OperationFail(NotRunning)) || r == Fail(OperationFail(NoManager))
      ensures r.Pass? ==> |acc| == |ts| && forall j :: 0 <= j < |ts| ==>
        var o := ts[j];
        && old(o.Valid()) && o.manager == null && o.State() == Lifecycle.Settled(old(o.State()), now, o.ignoreSkipped) && o.tags == old(o.tags)
        && fresh(acc[j]) && Respawned(acc[j], old(o.manager), o.name, old(o.tags), old(o.cfg), now)
    {
      ghost var olds: map<Task, ScheduleManager?> := map t: Task | t in ts :: t.manager;
      ghost var S0 := States(ts);
      ghost var T0: map<Task, seq<string>> := map t: Task | t in ts :: t.tags;
      PauseStart(ts, olds, S0, T0, now);
      forall u | u in ts && olds[u] != null ensures olds[u] in Managers(ts) {
      }
      r, acc := PauseFrom(ts, olds, S0, T0, now);
    }

    /** `PauseAll` once the snapshots are taken: the loop, and its result restated over the entry state. */
    static method PauseFrom(ts: seq<Task>, ghost olds: map<Task, ScheduleManager?>, ghost S0: map<Task, TaskState>,
                            ghost T0: map<Task, seq<string>>, now: Moment) returns (r: Outcome, acc: seq<Task>)
      requires Pausing(ts, 0, [], olds, S0, T0, now)
      requires forall u :: u in ts ==> S0[u] == u.State() && olds[u] == u.manager && T0[u] == u.tags && u.Valid()
      modifies ts, olds.Values
      ensures r.Pass? <==> NoRepeat(ts) && forall t :: t in ts ==> old(t.started) && old(t.manager) != null
      ensures r.Fail? ==> r == Fail(OperationFail(NotRunning)) || r == Fail(OperationFail(NoManager))
      ensures r.Pass? ==> |acc| == |ts| && forall j :: 0 <= j < |ts| ==>
        var o := ts[j];
        && old(o.Valid()) && o.manager == null && o.State() == Lifecycle.Settled(old(o.State()), now, o.ignoreSkipped) && o.tags == old(o.tags)
        && fresh(acc[j]) && Respawned(acc[j], old(o.manager), o.name, old(o.tags), old(o.cfg), now)
    {
      assert forall u :: u in ts ==> S0[u].started == u.started && S0[u].cfg == u.cfg;
      r, acc := PauseLoop(ts, olds, S0, T0, now);
    }

    /** The loop itself, over the snapshots of the members' managers, states and tags. */
    static method PauseLoop(ts: seq<Task>, ghost olds: map<Task, ScheduleManager?>, ghost S0: map<Task, TaskState>,
                            ghost T0: map<Task, seq<string>>, now: Moment) returns (r: Outcome, acc: seq<Task>)
      requires Pausing(ts, 0, [], olds, S0, T0, now)
      modifies ts, olds.Values
      ensures r.Fail? ==> r == Fail(OperationFail(NotRunning)) || r == Fail(OperationFail(NoManager))
      ensures r.Fail? ==> !(NoRepeat(ts) && forall u :: u in ts ==> S0[u].started && olds[u] != null)
      ensures r.Pass? ==> NoRepeat(ts) && forall u :: u in ts ==> S0[u].started && olds[u] != null
      ensures r.Pass? ==> |acc| == |ts| && forall j :: 0 <= j < |ts| ==>
        && ts[j].manager == null && ts[j].State() == Lifecycle.Settled(S0[ts[j]], now, ts[j].ignoreSkipped)
        && ts[j].tags == T0[ts[j]] && olds[ts[j]] != null
        && fresh(acc[j]) && Respawned(acc[j], olds[ts[j]], ts[j].name, T0[ts[j]], S0[ts[j]].cfg, now)
    {
      r, acc := Pass, [];
      for i := 0 to |ts|
        invariant r == Pass && Pausing(ts, i, acc, olds, S0, T0, now)
        invariant forall j :: 0 <= j < |acc| ==> fresh(acc[j])
      {
        var n;
        r, n := PauseStep(ts, i, acc, olds, S0, T0, now);
        if r.Fail? {
          return;
        }
        acc := acc + [n];
      }
      PauseEnd(ts, acc, olds, S0, T0, now);
    }

    static method PauseStep(ts: seq<Task>, i: nat, ghost acc: seq<Task>, ghost olds: map<Task, ScheduleManager?>,
                            ghost S0: map<Task, TaskState>, ghost T0: map<Task, seq<string>>, now: Moment)
      returns (r: Outcome, n: Task)
      requires i < |ts| && Pausing(ts, i, acc, olds, S0, T0, now)
      modifies ts[i], olds[ts[i]]
      ensures r.Fail? ==> r == Fail(OperationFail(NotRunning)) || r == Fail(OperationFail(NoManager))
      ensures r.Fail? ==> !(NoRepeat(ts) && forall u :: u in ts ==> S0[u].started && olds[u] != null)
      ensures r.Pass? ==> fresh(n) && Pausing(ts, i + 1, acc + [n], olds, S0, T0, now)
    {
      var t := ts[i];
      if !(t.started && t.manager != null) {
        PauseRefused(ts, i, acc, olds, S0, T0, now);
      }
      var m;
      r, m := PauseOne(t, now);
      if r.Fail? {
        return r, t;
      }
      n := m;
      PausedOne(Snaps(ts, acc, olds, S0, T0), i, now, n);
    }

    /**
     * One member of `pause`: the task is paused, its worker ends at its next
     * tick, the finish hook registers the replacement, and the manager saved
     * beforehand is asked for the task under the old name.
     */
    static method PauseOne(t: Task, now: Moment) returns (r: Outcome, n: Task?)
      requires ValidMoment(now) && t.Valid() && t.Registered() && (t.manager != null ==> t.manager.Valid())
      requires t.started ==> t.phase == Lifecycle.Waiting || t.phase == Lifecycle.Polling
      modifies t, t.manager
      ensures r == Lifecycle.Pause(old(t.State()), old(t.manager) != null).1
      ensures t.tags == old(t.tags) && t.Valid()
      ensures r.Fail? ==> n == null && t.State() == old(t.State()) && t.manager == old(t.manager)
      ensures r.Fail? && old(t.manager) != null ==> unchanged(old(t.manager))
      ensures r.Pass? ==>
        && t.manager == null && !t.started && t.State() == Lifecycle.Settled(old(t.State()), now, t.ignoreSkipped)
        && n != null && fresh(n) && old(t.manager).Valid()
        && Respawned(n, old(t.manager), t.name, old(t.tags), old(t.cfg), now)
        && old(t.manager).tasks == old(t.manager.tasks)[t.name := n]
    {
      var m := t.manager;
      r := t.Pause();
      if r.Fail? {
        return r, null;
      }
      Lifecycle.PauseEndsRun(old(t.State()), now, t.ignoreSkipped);
      var ev, replacement, _ := t.Tick(now);
      var found := m.Find(t.name);
      n := found.value;
    }
  }

  // The registry's queries that answer with a group.

  /** `ScheduleManager.tasks`: the group of the tasks `_task_list` selects. */
  method Tasks(m: ScheduleManager, q: TagQuery) returns (g: TaskGroup)
    requires m.Valid()
    ensures fresh(g) && g.tasks == m.Listed(q)
  {
    var list := m.TaskList(q);
    g := new TaskGroup(list);
  }

  /** `ScheduleManager.all_tasks`: every registered task, in insertion order. */
  method AllTasks(m: ScheduleManager) returns (g: TaskGroup)
    requires m.Valid()
    ensures fresh(g) && g.tasks == m.Members(m.order)
  {
    g := new TaskGroup(m.Members(m.order));
  }

  /** `ScheduleManager.running_tasks`. */
  method RunningTasks(m: ScheduleManager) returns (g: TaskGroup)
    requires m.Valid()
    ensures fresh(g) && g.tasks == m.Selected(m.order, true)
  {
    var list := m.Filter(true);
    g := new TaskGroup(list);
  }

  /** `ScheduleManager.pending_tasks`. */
  method PendingTasks(m: ScheduleManager) returns (g: TaskGroup)
    requires m.Valid()
    ensures fresh(g) && g.tasks == m.Selected(m.order, false)
  {
    var list := m.Filter(false);
    g := new TaskGroup(list);
  }
}
