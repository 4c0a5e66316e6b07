/**
 src/container-manager-operations.c: the manager mounts and unmounts its own disks through a worker
 thread.  The host copies the elements concerned to the worker, marks them dispatched and then reads one
 response per poll from a packet queue; the worker answers element by element, and may recover a broken
 file system in between.  Host and worker run interleaved in any order.

 An element's index is its place in the configured list (src/parser/parser-manager.c numbers them so).
 The host-side `state` of an element never leaves its initial value, so it is left out; likewise cancel
 requests, which nothing sends.
 */
module ManagerMount {
  import opened Host
  import opened MountTable
  import opened Options

  datatype Redundancy = Failover | Ab | Fsck | Mkfs

  datatype Elem = Elem(redundancy: Redundancy, devs: Devices, mounted: bool, dispatched: bool, errors: nat)

  /** The worker's copy of an element. */
  datatype Job = Job(index: nat, redundancy: Redundancy, devs: Devices, mounted: bool)

  datatype Operation = MountOp | UnmountOp

  datatype Response = Response(index: nat, operation: Operation, result: int)

  datatype Phase = Absent | First | Recover | Retake | Ended

  /**
   `lost`: the elements whose copy the worker has freed, or is about to free, without ever answering;
   `mended`: those whose mount in the retake pass returned 0.
   */
  datatype Worker = Worker(phase: Phase, todo: seq<Job>, kept: seq<Job>, lost: seq<nat>, mended: set<nat> := {})

  /** What the flag of element 0 goes back to: its own answers, or an end-of-file taken for one, rightly or not. */
  datatype Origin = ByAnswer | ByEndOfFile(rightly: bool)

  /** `table` is the kernel's mount table. */
  datatype System = System(elems: seq<Elem>, table: seq<Stack>, storage: bool, queue: seq<Response>,
                           worker: Worker, zero: Origin, w: World)

  // ---- the worker -----------------------------------------------------------------------------

  const UNMOUNT_TIMEOUT := 1000
  const UNMOUNT_RETRIES := 1000 / 50 + 1

  /** One element of manager_mount_operation: the response written, if any, and the mount point afterwards. */
  function Process(j: Job, retake: bool, st: Stack, w: World): (Option<Response>, Stack, World) {
    if j.mounted then
      var (now, w1) := Now(w);
      var (st1, w2) := UnmountDisk(st, now + UNMOUNT_TIMEOUT, UNMOUNT_RETRIES, w1);
      (Some(Response(j.index, UnmountOp, 0)), st1, w2)
    else match j.redundancy
      case Failover =>
        var r := MountFailoverFrom(j.devs, 0, st, w);
        (Some(Response(j.index, MountOp, if r.ret < 0 then -1 else 0)), r.stack, r.w)
      case Ab => (Some(Response(j.index, MountOp, -1)), st, w)
      case _ =>
        var r := MountOne(j.devs.At(0), st, w);
        (if r.ret != -1 && !retake then Some(Response(j.index, MountOp, if r.ret < 0 then -1 else 0)) else None, r.stack, r.w)
  }

  /** A repaired file system whose second mount returned 0. */
  predicate Mends(j: Job, retake: bool, st: Stack, w: World) {
    retake && !j.mounted && (j.redundancy.Fsck? || j.redundancy.Mkfs?) && MountOne(j.devs.At(0), st, w).ret == 0
  }

  /** What one whole pass of manager_mount_operation leaves behind. */
  datatype Passed = Passed(kept: seq<Job>, answers: seq<Response>, table: seq<Stack>, w: World)

  predicate InTable(jobs: seq<Job>, table: seq<Stack>) {
    forall i :: 0 <= i < |jobs| ==> jobs[i].index < |table|
  }

  function Pass(jobs: seq<Job>, retake: bool, table: seq<Stack>, w: World): Passed
    requires InTable(jobs, table)
    decreases jobs
  {
    if jobs == [] then Passed([], [], table, w)
    else
      var j := jobs[0];
      var (answer, st, w1) := Process(j, retake, table[j.index], w);
      var rest := Pass(jobs[1..], retake, table[j.index := st], w1);
      if answer.Some? then rest.(answers := [answer.value] + rest.answers) else rest.(kept := [j] + rest.kept)
  }

  /** The next thing the worker thread does: one element of its current pass, or the turn to the next pass. */
  function Work(s: System): System {
    var k := s.worker;
    match k.phase
    case Absent => s
    case Ended => s
    case Recover =>
      if k.todo == [] then s.(worker := k.(phase := Retake, todo := k.kept, kept := []))
      else
        var (forked, w1) := Try(s.w);
        s.(w := w1, worker := if forked then k.(todo := k.todo[1..], kept := k.kept + [k.todo[0]])
                              else k.(todo := k.todo[1..], lost := k.lost + [k.todo[0].index]))
    case _ =>
      var retake := k.phase.Retake?;
      if k.todo == [] then
        if k.kept != [] && !retake then s.(worker := k.(phase := Recover, todo := k.kept, kept := []))
        else s.(worker := k.(phase := Ended, kept := [], lost := k.lost + Indexes(k.kept)))
      else if k.todo[0].index >= |s.table| then s
      else
        var j := k.todo[0];
        var (answer, st, w1) := Process(j, retake, s.table[j.index], s.w);
        s.(table := s.table[j.index := st], w := w1,
           queue := if answer.Some? then s.queue + [answer.value] else s.queue,
           worker := if answer.Some? then k.(todo := k.todo[1..])
                     else k.(todo := k.todo[1..], kept := k.kept + [j],
                             mended := if Mends(j, retake, s.table[j.index], s.w) then k.mended + {j.index} else k.mended))
  }

  function Indexes(jobs: seq<Job>): (r: seq<nat>)
    ensures |r| == |jobs| && forall i :: 0 <= i < |r| ==> r[i] == jobs[i].index
  {
    seq(|jobs|, i requires 0 <= i < |jobs| => jobs[i].index)
  }


  // ---- the host -------------------------------------------------------------------------------

  function JobOf(elems: seq<Elem>, i: nat): Job
    requires i < |elems|
  {
    Job(i, elems[i].redundancy, elems[i].devs, elems[i].mounted)
  }

  /** The copies made of the elements from `i` on that are mounted, or that are not. */
  function Copies(elems: seq<Elem>, mounted: bool, i: nat): seq<Job>
    requires i <= |elems|
    decreases |elems| - i
  {
    if i == |elems| then [] else (if elems[i].mounted == mounted then [JobOf(elems, i)] else []) + Copies(elems, mounted, i + 1)
  }

  function Mark(e: Elem, mounted: bool): Elem {
    if e.mounted == mounted then e.(dispatched := true) else e
  }

  function MarkAll(elems: seq<Elem>, mounted: bool): (r: seq<Elem>)
    ensures |r| == |elems| && forall i :: 0 <= i < |r| ==> r[i] == Mark(elems[i], mounted)
  {
    seq(|elems|, i requires 0 <= i < |elems| => Mark(elems[i], mounted))
  }

  /** manager_operation_delayed_launch (mounted == false) and _terminate (mounted == true). */
  function Dispatch(s: System, mounted: bool): (int, System) {
    if s.storage then (-1, s)
    else
      var (paired, w1) := Try(s.w);
      if !paired then (-2, s.(w := w1))
      else
        var jobs := Copies(s.elems, mounted, 0);
        if jobs == [] then (1, s.(w := w1))
        else (0, s.(w := w1, elems := MarkAll(s.elems, mounted), storage := true, queue := [],
                    worker := Worker(First, jobs, [], [])))
  }

  /** The host's bookkeeping for one response. */
  function Received(e: Elem, r: Response): Elem {
    match r.operation
    case UnmountOp => e.(mounted := false, dispatched := false)
    case MountOp =>
      if r.result == 0 then e.(mounted := true, dispatched := false)
      else if r.result == 1 then e.(mounted := false, dispatched := false)
      else e.(errors := e.errors + 1, dispatched := false)
  }

  function Deliver(elems: seq<Elem>, r: Response): seq<Elem> {
    if r.index < |elems| then elems[r.index := Received(elems[r.index], r)] else elems
  }

  predicate AllAnswered(elems: seq<Elem>) {
    forall i :: 0 <= i < |elems| ==> !elems[i].dispatched
  }

  /** Are all elements answered?  Then the host closes its end. */
  function Assess(s: System): (int, System) {
    if s.elems != [] && AllAnswered(s.elems) then (1, s.(storage := false, queue := [])) else (0, s)
  }

  function Without(s: seq<nat>, x: nat): seq<nat> {
    if s == [] then [] else (if s[0] == x then [] else [s[0]]) + Without(s[1..], x)
  }

  /** What read(2) of zero bytes leaves in the zeroed buffer: a successful mount of element 0. */
  const ZEROED := Response(0, MountOp, 0)

  /**
   Is the disk of element 0 mounted when an end-of-file is taken for its answer?  If it was given up, when its second
   mount had returned 0; else when its flag was up already, and rightly if that too goes back to an end-of-file.
   */
  predicate Rightly(s: System) {
    if 0 in s.worker.lost then 0 in s.worker.mended
    else match s.zero
         case ByAnswer => s.elems != [] && s.elems[0].mounted
         case ByEndOfFile(rightly) => rightly
  }

  /** manager_operation_delayed_poll. */
  function Poll(s: System): (int, System) {
    if !s.storage then (-1, s)
    else
      var (a, w1) := Ask(s.w);
      var s1 := s.(w := w1);
      if a == 1 then Assess(s1)
      else if a == 2 then (-3, s1)
      else if s.queue != [] then
        Assess(s1.(queue := s.queue[1..], elems := Deliver(s.elems, s.queue[0]), zero := if s.queue[0].index == 0 then ByAnswer else s.zero))
      else if s.worker.phase.Ended? then
        Assess(s1.(elems := Deliver(s.elems, ZEROED), zero := ByEndOfFile(Rightly(s)),
                   worker := s.worker.(lost := Without(s.worker.lost, 0))))
      else Assess(s1)
  }

  /**
   One tick of the system shutdown once no guest is left (src/container-control-exec.c): start or follow the
   unmount job, and decide whether the event loop ends.
   */
  function ShutdownTick(s: System): (bool, System) {
    var (ret, s1) := Dispatch(s, true);
    if ret == -1 then
      var (polled, s2) := Poll(s1);
      (polled == 1, s2)
    else (ret != 0, s1)
  }

  // ---- runs -----------------------------------------------------------------------------------

  datatype Action = DoLaunch | DoTerminate | DoPoll | DoWork

  function Step(s: System, a: Action): System {
    match a
    case DoLaunch => Dispatch(s, false).1
    case DoTerminate => Dispatch(s, true).1
    case DoPoll => Poll(s).1
    case DoWork => Work(s)
  }

  function Steps(s: System, acts: seq<Action>): System
    decreases acts
  {
    if acts == [] then s else Steps(Step(s, acts[0]), acts[1..])
  }

  ghost predicate Initial(s: System) {
    && |s.table| == |s.elems| && !s.storage && s.queue == [] && s.worker == Worker(Absent, [], [], []) && s.zero.ByAnswer?
    && (forall i :: 0 <= i < |s.elems| ==> !s.elems[i].mounted && !s.elems[i].dispatched && s.table[i] == [])
  }
}
