/**
 src/container-workqueue.c: the one-slot job queue of a guest.  A job is a loaded plugin
 object (fsck, mkfs, erase); it runs on a detached thread that shares the slot with the
 manager.  Plugin objects are numbered in the order they are loaded.
 */
module WorkQueue {
  import opened Host
  import opened Options

  datatype Status = Disable | Inactive | Scheduled | Started | Completed

  /** `key` is the kind of the loaded plugin object, `args` what it was told, such as the device to repair. */
  datatype Queue = Queue(status: Status, plugin: Option<nat>, key: string, args: string, made: nat, after: int, result: int)

  const EMPTY_QUEUE := Queue(Inactive, None, "", "", 0, 0, 0)

  const PLUGIN_KEYS: seq<string> := ["fsck", "erase", "mkfs"]

  datatype Reply = Reply(ret: int, after: int, q: Queue, w: World)

  predicate HoldsJob(q: Queue) {
    q.status.Scheduled? || q.status.Started? || q.status.Completed?
  }

  // ---- the queue operations as functions ---------------------------------------

  function Load(q: Queue, key: string, w: World): (bool, Queue, World) {
    if key !in PLUGIN_KEYS then (false, q, w)
    else
      var (ok, w1) := Try(w);
      if ok then (true, q.(plugin := Some(q.made), key := key, args := "", made := q.made + 1), w1) else (false, q, w1)
  }

  function Unload(q: Queue, w: World): (Queue, World) {
    if q.plugin.None? then (q, w)
    else
      var (ok, w1) := Try(w);
      (if ok then q.(plugin := None, key := "", args := "") else q, w1)
  }

  function Schedule(q: Queue, key: string, args: string, after: int, w: World): Reply {
    if !q.status.Inactive? then Reply(-1, 0, q, w)
    else
      var (loaded, q1, w1) := Load(q, key, w);
      if !loaded then Reply(-3, 0, q1, w1)
      else
        var (ok, w2) := Try(w1);
        if ok then Reply(0, 0, q1.(status := Scheduled, args := args, after := after, result := 0), w2)
        else Reply(-2, 0, q1, w2)
  }

  /** pthread_create's result is only taken for a failure when it is negative. */
  function Run(q: Queue, w: World): Reply {
    if !q.status.Scheduled? then Reply(-1, 0, q, w)
    else
      var (created, w1) := Ask(w);
      if created < 0 then Reply(-3, 0, q, w1) else Reply(0, 0, q.(status := Started), w1)
  }

  function Cancel(q: Queue, w: World): Reply {
    match q.status
    case Disable => Reply(-1, 0, q, w)
    case Inactive => Reply(-1, 0, q, w)
    case Scheduled => Reply(0, 0, q, w)
    case _ =>
      if q.plugin.None? then Reply(-2, 0, q, w)
      else
        var (ok, w1) := Try(w);
        Reply(if ok then 1 else -2, 0, q, w1)
  }

  function Flag(after: int): int {
    if after == 1 then 1 else 0
  }

  function Cleanup(q: Queue, w: World): Reply {
    if q.status.Started? then Reply(-1, 0, q, w)
    else if !q.status.Completed? then Reply(-3, 0, q, w)
    else
      var (q1, w1) := Unload(q.(status := Inactive, after := 0), w);
      Reply(0, Flag(q.after), q1, w1)
  }

  function Remove(q: Queue, w: World): Reply {
    if q.status.Started? || q.status.Completed? then Reply(-1, 0, q, w)
    else
      var (q1, w1) := Unload(q.(status := if q.status.Disable? then Disable else Inactive, after := 0, result := 0), w);
      Reply(0, q.after, q1, w1)
  }

  function Deinitialize(q: Queue): (int, Queue) {
    if q.status.Started? then (-2, q) else (0, q.(status := Disable, after := 0))
  }

  /** The last thing the worker thread does. */
  function Finish(q: Queue, ret: int): Queue {
    q.(result := ret, status := Completed)
  }

  // ---- the queue operations in the source's form ---------------------------------

  class Slot {
    var status: Status
    var plugin: Option<nat>
    var key: string
    var args: string
    var made: nat
    var after: int
    var result: int

    ghost function View(): Queue
      reads this
    {
      Queue(status, plugin, key, args, made, after, result)
    }

    constructor ()
      ensures View() == EMPTY_QUEUE
    {
      status, plugin, key, args, made, after, result := Inactive, None, "", "", 0, 0, 0;
    }

    method LoadPlugin(name: string, k: Kernel) returns (ok: bool)
      modifies this, k
      ensures (ok, View(), k.w) == Load(old(View()), name, old(k.w))
    {
      if name !in PLUGIN_KEYS {
        return false;
      }
      ok := k.CallOk();
      if ok {
        plugin, key, args, made := Some(made), name, "", made + 1;
      }
    }

    method UnloadPlugin(k: Kernel)
      modifies this, k
      ensures (View(), k.w) == Unload(old(View()), old(k.w))
    {
      if plugin.Some? {
        var ok := k.CallOk();
        if ok {
          plugin, key, args := None, "", "";
        }
      }
    }

    method ScheduleJob(name: string, options: string, launchAfterEnd: int, k: Kernel) returns (ret: int)
      modifies this, k
      ensures Reply(ret, 0, View(), k.w) == Schedule(old(View()), name, options, launchAfterEnd, old(k.w))
    {
      if !status.Inactive? {
        return -1;
      }
      var loaded := LoadPlugin(name, k);
      if !loaded {
        return -3;
      }
      var ok := k.CallOk();
      if ok {
        status, args, after, result := Scheduled, options, launchAfterEnd, 0;
        ret := 0;
      } else {
        ret := -2;
      }
    }

    method RunJob(k: Kernel) returns (ret: int)
      modifies this, k
      ensures Reply(ret, 0, View(), k.w) == Run(old(View()), old(k.w))
    {
      if !status.Scheduled? {
        return -1;
      }
      status := Started;
      var created := k.Call();
      if created < 0 {
        status := Scheduled;
        return -3;
      }
      ret := 0;
    }

    method CancelJob(k: Kernel) returns (ret: int)
      modifies k
      ensures Reply(ret, 0, View(), k.w) == Cancel(View(), old(k.w))
    {
      if status.Disable? || status.Inactive? {
        ret := -1;
      } else if status.Scheduled? {
        ret := 0;
      } else if plugin.None? {
        ret := -2;
      } else {
        var ok := k.CallOk();
        ret := if ok then 1 else -2;
      }
    }

    method CleanupJob(k: Kernel) returns (ret: int, afterExecute: int)
      modifies this, k
      ensures Reply(ret, afterExecute, View(), k.w) == Cleanup(old(View()), old(k.w))
    {
      if status.Started? {
        return -1, 0;
      } else if !status.Completed? {
        return -3, 0;
      }
      status := Inactive;
      afterExecute := if after == 1 then 1 else 0;
      after := 0;
      UnloadPlugin(k);
      ret := 0;
    }

    method RemoveJob(k: Kernel) returns (ret: int, afterExecute: int)
      modifies this, k
      ensures Reply(ret, afterExecute, View(), k.w) == Remove(old(View()), old(k.w))
    {
      if status.Started? || status.Completed? {
        return -1, 0;
      }
      if !status.Disable? {
        status := Inactive;
      }
      afterExecute := after;
      after, result := 0, 0;
      UnloadPlugin(k);
      ret := 0;
    }

    method DeinitializeSlot() returns (ret: int)
      modifies this
      ensures (ret, View()) == Deinitialize(old(View()))
    {
      if status.Started? {
        return -2;
      }
      status, after := Disable, 0;
      ret := 0;
    }

    method ThreadExit(ret: int)
      modifies this
      ensures View() == Finish(old(View()), ret)
    {
      result := ret;
      status := Completed;
    }
  }

  // ---- the slot shared by manager and thread, under every interleaving -------------

  /** Where the worker thread is: not there, before it reads the slot's object, executing it, or about to publish. */
  datatype Thread = NoThread | Entered | Executing(plugin: nat) | Returned(ret: int)

  /** One scheduled job, and what became of it: threads started for it, and restart flags handed to the manager. */
  datatype Job = Job(key: string, args: string, flag: int, starts: nat, delivered: seq<int>)

  datatype Shared = Shared(q: Queue, thread: Thread, jobs: map<nat, Job>, w: World)

  datatype Action =
    | DoSchedule(key: string, args: string, after: int) | DoRun | DoCancel | DoCleanup | DoRemove | DoDeinitialize
    | ThreadRead | ThreadExec(ret: int) | ThreadPublish

  const INITIAL_JOBS: map<nat, Job> := map[]

  function Initial(w: World): Shared {
    Shared(EMPTY_QUEUE, NoThread, INITIAL_JOBS, w)
  }

  /** Hands `value` to the manager as the restart flag of the job in the slot, if there is one. */
  function Deliver(s: Shared, value: int): map<nat, Job> {
    if HoldsJob(s.q) && s.q.plugin.Some? && s.q.plugin.value in s.jobs then
      var j := s.jobs[s.q.plugin.value];
      s.jobs[s.q.plugin.value := j.(delivered := j.delivered + [Flag(value)])]
    else s.jobs
  }

  function Step(s: Shared, a: Action): Shared {
    match a
    case DoSchedule(key, args, after) =>
      var r := Schedule(s.q, key, args, after, s.w);
      s.(q := r.q, w := r.w, jobs := if r.ret == 0 then s.jobs[s.q.made := Job(key, args, after, 0, [])] else s.jobs)
    case DoRun =>
      var r := Run(s.q, s.w);
      if r.ret == 0 && Ask(s.w).0 == 0 then
        s.(q := r.q, w := r.w, thread := Entered,
           jobs := if s.q.plugin.Some? && s.q.plugin.value in s.jobs
                   then s.jobs[s.q.plugin.value := s.jobs[s.q.plugin.value].(starts := s.jobs[s.q.plugin.value].starts + 1)]
                   else s.jobs)
      else s.(q := r.q, w := r.w)
    case DoCancel => s.(w := Cancel(s.q, s.w).w)
    case DoCleanup =>
      var r := Cleanup(s.q, s.w);
      s.(q := r.q, w := r.w, jobs := if r.ret == 0 then Deliver(s, r.after) else s.jobs)
    case DoRemove =>
      var r := Remove(s.q, s.w);
      s.(q := r.q, w := r.w, jobs := if r.ret == 0 then Deliver(s, r.after) else s.jobs)
    case DoDeinitialize => s.(q := Deinitialize(s.q).1)
    case ThreadRead =>
      if !s.thread.Entered? then s
      else s.(thread := if s.q.plugin.Some? then Executing(s.q.plugin.value) else Returned(-1))
    case ThreadExec(ret) => if s.thread.Executing? then s.(thread := Returned(ret)) else s
    case ThreadPublish => if s.thread.Returned? then s.(q := Finish(s.q, s.thread.ret), thread := NoThread) else s
  }

  function Steps(s: Shared, actions: seq<Action>): Shared
    decreases |actions|
  {
    if actions == [] then s else Steps(Step(s, actions[0]), actions[1..])
  }

  /** The job in the slot is still waiting for its flag to be handed over. */
  predicate Pending(s: Shared, id: nat) {
    HoldsJob(s.q) && s.q.plugin == Some(id)
  }

  ghost predicate Consistent(s: Shared) {
    && (s.q.plugin.Some? ==> s.q.plugin.value < s.q.made)
    && (forall id :: id in s.jobs ==> id < s.q.made && s.jobs[id].starts <= 1)
    && (!s.thread.NoThread? ==> s.q.status.Started?)
    && (s.thread.Executing? ==> s.q.plugin == Some(s.thread.plugin))
    && (HoldsJob(s.q) ==>
          && s.q.plugin.Some? && s.q.plugin.value in s.jobs
          && s.jobs[s.q.plugin.value].delivered == []
          && s.q.after == s.jobs[s.q.plugin.value].flag
          && s.q.key == s.jobs[s.q.plugin.value].key && s.q.args == s.jobs[s.q.plugin.value].args
          && (s.q.status.Scheduled? ==> s.jobs[s.q.plugin.value].starts == 0))
    && (!HoldsJob(s.q) ==> s.q.after == 0)
    && (forall id :: id in s.jobs && !Pending(s, id) ==>
          s.jobs[id].delivered == [Flag(s.jobs[id].flag)] || (s.q.status.Disable? && s.jobs[id].delivered == []))
  }

  lemma StepConsistent(s: Shared, a: Action)
    requires Consistent(s)
    ensures Consistent(Step(s, a))
  {
  }

  /**
   Whatever the manager and the thread do in whatever order: a slot that is scheduled, started or
   completed holds a loaded plugin, every job is started at most once, and its restart flag reaches
   the manager exactly once, when the job leaves the slot (unless the slot was torn down first).
   */
  lemma {:induction false} EveryRunConsistent(w: World, actions: seq<Action>)
    ensures Consistent(Steps(Initial(w), actions))
  {
    RunConsistent(Initial(w), actions);
  }

  lemma {:induction false} RunConsistent(s: Shared, actions: seq<Action>)
    requires Consistent(s)
    ensures Consistent(Steps(s, actions))
    decreases |actions|
  {
    if actions != [] {
      StepConsistent(s, actions[0]);
      RunConsistent(Step(s, actions[0]), actions[1..]);
    }
  }

  /** While a job is started no action unloads or replaces the plugin it executes, and only the thread ends it. */
  lemma StartedKeepsPlugin(s: Shared, a: Action)
    requires Consistent(s) && s.q.status.Started?
    ensures Step(s, a).q.plugin == s.q.plugin
    ensures Step(s, a).q.status.Started? || (a.ThreadPublish? && s.thread.Returned? && Step(s, a).q.status.Completed?)
    ensures Step(s, a).thread.Executing? ==> s.q.plugin == Some(Step(s, a).thread.plugin)
  {
  }

  // ---- what the operations achieve ---------------------------------------------------

  /** When each operation is accepted, told by the slot and the answers of the plugin and the thread library. */
  lemma SlotOutcome(q: Queue, key: string, args: string, after: int, w: World)
    ensures var r := Schedule(q, key, args, after, w);
            && (r.ret == 0 <==> q.status.Inactive? && Loads(key, w) && Try(Try(w).1).0)
            && (r.ret == 0 ==> r.q == Queue(Scheduled, Some(q.made), key, args, q.made + 1, after, 0))
            && (r.ret != 0 ==> r.q.status == q.status && r.q.after == q.after)
    ensures var r := Run(q, w);
            && (r.ret == 0 <==> q.status.Scheduled? && Ask(w).0 >= 0)
            && r.q == if r.ret == 0 then q.(status := Started) else q
    ensures var r := Cancel(q, w);
            && r.q == q && (r.ret == 0 <==> q.status.Scheduled?)
            && (r.ret == 1 <==> (q.status.Started? || q.status.Completed?) && q.plugin.Some? && Try(w).0)
    ensures var r := Cleanup(q, w);
            && (r.ret == 0 <==> q.status.Completed?)
            && (r.ret == 0 ==> r.q.status.Inactive? && r.q.after == 0 && r.q.result == q.result && r.after == Flag(q.after))
            && (r.ret == 0 ==> (r.q.plugin.None? <==> !RefusesDelete(q, w))) && (r.ret != 0 ==> r.q == q)
    ensures var r := Remove(q, w);
            && (r.ret == 0 <==> !q.status.Started? && !q.status.Completed?)
            && (r.ret == 0 ==> !HoldsJob(r.q) && r.q.after == 0 && r.after == q.after && (r.q.status.Disable? <==> q.status.Disable?))
            && (r.ret == 0 ==> (r.q.plugin.None? <==> !RefusesDelete(q, w))) && (r.ret != 0 ==> r.q == q)
  {}

  /** The life of a job when every call succeeds: the thread runs the plugin asked for, and its result and flag reach the manager. */
  lemma JobRuns(key: string, args: string, flag: int, ret: int, w: World)
    requires key in PLUGIN_KEYS && forall p: nat :: w.script(p) == 0
    ensures var before := Steps(Initial(w), [DoSchedule(key, args, flag), DoRun, ThreadRead]);
            before.thread == Executing(0) && before.q.key == key && before.q.args == args
    ensures var s := Steps(Initial(w), [DoSchedule(key, args, flag), DoRun, ThreadRead, ThreadExec(ret), ThreadPublish, DoCleanup]);
            s.q == EMPTY_QUEUE.(made := 1, result := ret) && s.thread.NoThread?
            && s.jobs == map[0 := Job(key, args, flag, 1, [Flag(flag)])]
  {
    var s1 := Step(Initial(w), DoSchedule(key, args, flag));
    assert s1.q == Queue(Scheduled, Some(0), key, args, 1, flag, 0);
    var s2 := Step(s1, DoRun);
    var s3 := Step(s2, ThreadRead);
    var s4 := Step(s3, ThreadExec(ret));
    var s5 := Step(s4, ThreadPublish);
    var s6 := Step(s5, DoCleanup);
    assert s3.thread == Executing(0) && s3.q.key == key && s3.q.args == args;
    assert s5.jobs[0].delivered + [Flag(flag)] == [Flag(flag)];
    assert s6.q == EMPTY_QUEUE.(made := 1, result := ret) && s6.thread.NoThread?;
    assert s6.jobs == map[0 := Job(key, args, flag, 1, [Flag(flag)])];
    var a, d := DoSchedule(key, args, flag), ThreadExec(ret);
    hide Step;
    StepsThree(Initial(w), a, DoRun, ThreadRead, []);
    StepsThree(Initial(w), a, DoRun, ThreadRead, [d, ThreadPublish, DoCleanup]);
    StepsThree(s3, d, ThreadPublish, DoCleanup, []);
    assert [a, DoRun, ThreadRead] + [] == [a, DoRun, ThreadRead] && [d, ThreadPublish, DoCleanup] + [] == [d, ThreadPublish, DoCleanup];
    assert [a, DoRun, ThreadRead] + [d, ThreadPublish, DoCleanup] == [a, DoRun, ThreadRead, d, ThreadPublish, DoCleanup];
  }

  lemma StepsThree(s: Shared, a: Action, b: Action, c: Action, rest: seq<Action>)
    ensures Steps(s, [a, b, c] + rest) == Steps(Step(Step(Step(s, a), b), c), rest)
  {
    hide Step;
    var s1, s2 := Step(s, a), Step(Step(s, a), b);
    assert ([a, b, c] + rest)[1..] == [b, c] + rest && ([b, c] + rest)[1..] == [c] + rest && ([c] + rest)[1..] == rest;
    assert Steps(s, [a, b, c] + rest) == Steps(s1, [b, c] + rest);
    assert Steps(s1, [b, c] + rest) == Steps(s2, [c] + rest);
    assert Steps(s2, [c] + rest) == Steps(Step(s2, c), rest);
  }

  // ---- when an inactive slot holds no plugin ---------------------------------------

  /** An inactive slot is left with a plugin that no job uses. */
  predicate Leftover(q: Queue) {
    q.status.Inactive? && q.plugin.Some?
  }

  /** A new plugin is loaded. */
  predicate Loads(key: string, w: World) {
    key in PLUGIN_KEYS && Try(w).0
  }

  predicate RefusesDelete(q: Queue, w: World) {
    q.plugin.Some? && !Try(w).0
  }

  /** An inactive slot can hold a plugin: set_args failed after the plugin was loaded. */
  lemma InactiveWithPluginExample()
    ensures exists w :: Schedule(EMPTY_QUEUE, "fsck", "device=a", 1, w).q == Queue(Inactive, Some(0), "fsck", "", 1, 0, 0)
  {
    var w := World(n => n as int, 0, 0);
    assert "fsck" in PLUGIN_KEYS by { assert PLUGIN_KEYS[0] == "fsck"; }
    assert Schedule(EMPTY_QUEUE, "fsck", "device=a", 1, w).q == Queue(Inactive, Some(0), "fsck", "", 1, 0, 0);
  }

  /**
   From any slot, an operation leaves a plugin in an inactive slot exactly when a newly loaded plugin refuses
   its arguments, when the plugin refuses to be deleted as its job leaves the slot or is removed, or when the
   plugin was left there before and is not touched.
   */
  lemma InactivePluginExact(q: Queue, key: string, args: string, after: int, w: World)
    ensures Leftover(Schedule(q, key, args, after, w).q) <==>
              q.status.Inactive? && if Loads(key, w) then !Try(Try(w).1).0 else q.plugin.Some?
    ensures Leftover(Cleanup(q, w).q) <==> if q.status.Completed? then RefusesDelete(q, w) else Leftover(q)
    ensures Leftover(Remove(q, w).q) <==> (q.status.Scheduled? || q.status.Inactive?) && RefusesDelete(q, w)
    ensures Leftover(Run(q, w).q) <==> Leftover(q)
  {
  }
}
