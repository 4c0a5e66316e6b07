/**
 One guest container: its run-time record and every operation that touches only that record
 (src/container-control-exec.c), as functions of the record and the world.
 */
module Guest {
  import opened Host
  import opened MountTable
  import opened DelayedMounts
  import N = NetIf
  import Q = WorkQueue

  datatype Status = Disable | NotStarted | Started | Reboot | Shutdown | Dead | Exit | RunWorker

  datatype SysState = Run | Stop

  datatype RootKind = BlockDevice | HostRootFs | OtherRoot
  datatype Redundancy = Failover | AB | Fsck | Mkfs

  /** `leaks` counts the mounts that failed read-only bind mounts have left behind so far (MountTable.BindExact). */
  datatype Rootfs = Rootfs(kind: RootKind, readOnly: bool, devs: Devices, mounted: bool, errors: nat, stack: Stack, leaks: nat)
  datatype Disk = Disk(kind: Redundancy, devs: Devices, mounted: bool, errors: nat, stack: Stack)

  /**
   `lxc` says whether the record holds an LXC instance; `handles` counts the instances this guest has
   obtained from liblxc and not yet given back, held by the record or not.
   */
  datatype Guest = Guest(
    name: string, role: string, timeout: nat, side: int,
    status: Status, lxc: bool, handles: int, deadline: int, launchErrors: nat,
    root: Rootfs, extra: seq<Disk>,
    entries: seq<Entry>, runtime: seq<nat>, delivered: seq<nat>,
    netifs: seq<N.Netif>,
    queue: Q.Queue)

  datatype Result = Result(ret: int, g: Guest, w: World)

  // ---- instance ---------------------------------------------------------------------

  function Release(g: Guest): Guest {
    g.(lxc := false, handles := g.handles - if g.lxc then 1 else 0)
  }

  function Terminate(g: Guest): Guest {
    Release(g).(netifs := N.Unassign(g.netifs))
  }

  function TimeoutSet(g: Guest, w: World): (Guest, World) {
    var (now, w1) := Now(w);
    (g.(deadline := now + g.timeout), w1)
  }

  // ---- disks --------------------------------------------------------------------------

  function MountRootCall(r: Rootfs, side: int, w: World): Mounted
  {
    match r.kind
    case BlockDevice => MountAb(r.devs, side, r.stack, w)
    case HostRootFs => MountBind(r.devs.At(0), r.readOnly, r.stack, w)
    case OtherRoot => Mounted(-3, r.stack, w)
  }

  /** Does mounting this rootfs now leave a mount behind although it fails? */
  predicate RootLeaks(r: Rootfs, w: World) {
    !r.mounted && r.kind.HostRootFs? && BindLeaks(r.readOnly, w)
  }

  function MountRoot(r: Rootfs, side: int, w: World): (bool, Rootfs, World)
  {
    if r.mounted then (true, r, w)
    else
      var m := MountRootCall(r, side, w);
      if m.ret < 0 then
        (false, r.(errors := r.errors + 1, stack := m.stack, leaks := r.leaks + if RootLeaks(r, w) then 1 else 0), m.w)
      else (true, r.(mounted := true, errors := 0, stack := m.stack), m.w)
  }

  function MountExtraCall(d: Disk, side: int, w: World): Mounted
  {
    match d.kind
    case AB => MountAb(d.devs, side, d.stack, w)
    case Failover => MountFailoverFrom(d.devs, 0, d.stack, w)
    case _ => MountOne(d.devs.At(0), d.stack, w)
  }

  /** Mounts one extra disk; a failover disk may stay unmounted, any other failure stops the launch. */
  function MountExtra(d: Disk, side: int, w: World): (bool, Disk, World)
  {
    if d.mounted then (true, d, w)
    else
      var m := MountExtraCall(d, side, w);
      if m.ret < 0 then (d.kind.Failover?, d.(errors := d.errors + 1, stack := m.stack), m.w)
      else (true, d.(mounted := true, errors := 0, stack := m.stack), m.w)
  }

  function MountExtrasFrom(ds: seq<Disk>, i: nat, side: int, w: World): (r: (bool, seq<Disk>, World))
    requires i <= |ds|
    ensures |r.1| == |ds|
    decreases |ds| - i
  {
    if i == |ds| then (true, ds, w)
    else
      var (go, d, w1) := MountExtra(ds[i], side, w);
      if go then MountExtrasFrom(ds[i := d], i + 1, side, w1) else (false, ds[i := d], w1)
  }

  function Preprocess(g: Guest, w: World): (bool, Guest, World)
  {
    var (ok, root, w1) := MountRoot(g.root, g.side, w);
    if !ok then (false, g.(root := root), w1)
    else
      var (ok2, extra, w2) := MountExtrasFrom(g.extra, 0, g.side, w1);
      (ok2, g.(root := root, extra := extra), w2)
  }

  /** Queues a repair job for the first failed fsck or mkfs disk whose job can be queued. */
  function RecoverFrom(ds: seq<Disk>, i: nat, q: Q.Queue, w: World): (Q.Queue, World)
    requires i <= |ds|
    decreases |ds| - i
  {
    if i == |ds| then (q, w)
    else if ds[i].mounted || ds[i].errors == 0 then RecoverFrom(ds, i + 1, q, w)
    else if |ds[i].devs.At(0)| + 7 >= 1023 then (q, w)
    else if ds[i].kind.Fsck? || ds[i].kind.Mkfs? then
      var r := Q.Schedule(q, if ds[i].kind.Fsck? then "fsck" else "mkfs", "device=" + ds[i].devs.At(0), 1, w);
      if r.ret == 0 then (r.q, r.w) else RecoverFrom(ds, i + 1, r.q, r.w)
    else RecoverFrom(ds, i + 1, q, w)
  }

  function UnmountExtrasFrom(ds: seq<Disk>, i: nat, deadline: int, tries: nat, w: World): (r: (seq<Disk>, World))
    requires i <= |ds|
    ensures |r.0| == |ds|
    decreases |ds| - i
  {
    if i == |ds| then (ds, w)
    else if !ds[i].mounted then UnmountExtrasFrom(ds, i + 1, deadline, tries, w)
    else
      var (st, w1) := UnmountDisk(ds[i].stack, deadline, tries, w);
      UnmountExtrasFrom(ds[i := ds[i].(mounted := false, errors := 0, stack := st)], i + 1, deadline, tries, w1)
  }

  function UnmountRoot(r: Rootfs, deadline: int, tries: nat, w: World): (Rootfs, World) {
    if !r.mounted then (r, w)
    else
      var (st, w1) := UnmountDisk(r.stack, deadline, tries, w);
      (r.(mounted := false, errors := 0, stack := st), w1)
  }

  function Cleanup(g: Guest, w: World, timeout: nat): (Guest, World) {
    var g1 := Terminate(g).(runtime := []);
    var (now, w1) := Now(w);
    var tries := timeout / 50 + 1;
    var (extra, w2) := UnmountExtrasFrom(g1.extra, 0, now + timeout, tries, w1);
    var (root, w3) := UnmountRoot(g1.root, now + timeout, tries, w2);
    (g1.(extra := extra, root := root), w3)
  }

  // ---- launching ------------------------------------------------------------------------

  function SetupDelayed(g: Guest): Guest {
    g.(runtime := AllPositions(|g.entries|), delivered := [])
  }

  function Launch(g: Guest, w: World): Result {
    var (created, w1) := Try(w);
    if !created then Result(-1, Release(g).(status := Dead), w1)
    else
      var g1 := g.(lxc := true, handles := g.handles + 1);
      var (started, w2) := Try(w1);
      if !started then Result(-2, Release(g1).(status := Dead), w2) else Result(0, g1.(status := Started), w2)
  }

  function Start(g: Guest, w: World): Result
  {
    if g.status.Disable? then Result(-2, g, w)
    else
      var (ready, g1, w1) := Preprocess(g, w);
      if !ready then
        var (q, w2) := RecoverFrom(g1.extra, 0, g1.queue, w1);
        Result(-1, g1.(queue := q), w2)
      else
        var r := Launch(SetupDelayed(g1), w1);
        if r.ret == 0 then Result(0, r.g.(launchErrors := 0), r.w)
        else Result(-1, r.g.(launchErrors := r.g.launchErrors + if r.ret == -2 then 1 else 0), r.w)
  }

  // ---- requests ---------------------------------------------------------------------------

  /** Asks liblxc to shut the guest down; without an instance that fails. */
  function AskStop(lxc: bool, w: World): (bool, World) {
    if lxc then Try(w) else (false, w)
  }

  /** Asks the guest to stop; on refusal it is killed and `fallback` is its new status. */
  function StopGuest(g: Guest, w: World, wanted: Status, fallback: Status): (Guest, World) {
    var (ok, w1) := AskStop(g.lxc, w);
    if !ok then (Terminate(g).(status := fallback), w1)
    else
      var (g1, w2) := TimeoutSet(g, w1);
      (g1.(status := wanted), w2)
  }

  function CancelWorker(g: Guest, w: World): (Guest, World) {
    TimeoutSet(g, Q.Cancel(g.queue, w).w)
  }

  function RequestShutdown(g: Guest, w: World, sys: SysState): Result {
    if sys.Run? then
      match g.status
      case Started => var (g1, w1) := StopGuest(g, w, Shutdown, NotStarted); Result(0, g1, w1)
      case Dead => Result(0, g.(status := NotStarted), w)
      case Exit => Result(-1, g, w)
      case _ => Result(0, g, w)
    else
      match g.status
      case NotStarted => Result(0, g.(status := Exit), w)
      case Started => var (g1, w1) := StopGuest(g, w, Shutdown, Exit); Result(0, g1, w1)
      case Reboot => Result(0, g.(status := Shutdown), w)
      case Dead => Result(0, g.(status := Exit), w)
      case RunWorker => var (g1, w1) := CancelWorker(g, w); Result(0, g1, w1)
      case _ => Result(0, g, w)
  }

  function RequestReboot(g: Guest, w: World, sys: SysState): Result {
    if sys.Run? then
      match g.status
      case Started => var (g1, w1) := StopGuest(g, w, Reboot, Dead); Result(0, g1, w1)
      case Exit => Result(-1, g, w)
      case _ => Result(0, g, w)
    else
      match g.status
      case NotStarted => Result(0, g.(status := Exit), w)
      case Started => var (g1, w1) := StopGuest(g, w, Shutdown, Exit); Result(0, g1, w1)
      case Dead => Result(0, g.(status := Exit), w)
      case RunWorker => var (g1, w1) := CancelWorker(g, w); Result(0, g1, w1)
      case _ => Result(0, g, w)
  }

  /** The status a guest takes when its exit is reported; a disabled one is an error and stays. */
  function ExitedStatus(s: Status, sys: SysState): Status {
    if sys.Run? then
      match s
      case Started => Dead
      case Reboot => Dead
      case Shutdown => NotStarted
      case _ => s
    else if s.Disable? then s else Exit
  }

  function Exited(g: Guest, sys: SysState): Guest {
    Terminate(g.(status := ExitedStatus(g.status, sys)))
  }

  // ---- parts of the cyclic pass ---------------------------------------------------------------

  function KillOnTimeout(g: Guest, now: int, sys: SysState): Guest {
    if (g.status.Shutdown? || g.status.Reboot?) && g.deadline < now then
      Terminate(g).(status := if sys.Stop? then Exit else if g.status.Reboot? then Dead else NotStarted)
    else if sys.Stop? && g.status.RunWorker? && g.deadline < now then g.(status := Exit)
    else g
  }

  function DoDelayed(g: Guest, w: World): (Guest, World)
  {
    if !g.status.Started? then (g, w)
    else
      var r := DeliverFrom(g.entries, g.runtime, 0, g.delivered, g.lxc, w);
      (g.(runtime := r.runtime, delivered := r.delivered), r.w)
  }

  function UpdateNetif(g: Guest, links: seq<N.Link>, w: World): (Guest, World) {
    if !g.status.Started? then (g, w)
    else
      var (cs, w1) := N.Assign(links, g.netifs, g.lxc, w);
      (g.(netifs := cs), w1)
  }

  function AfterWorker(after: int): Status {
    if after == 1 then Dead else NotStarted
  }

  /** The active guest of a role is not started: unmount, then run the queued job, if any. */
  function IdleActive(g: Guest, w: World): (Guest, World) {
    var (g1, w1) := Cleanup(g, w, 200);
    if !g1.queue.status.Scheduled? then (g1, w1)
    else
      var r := Q.Run(g1.queue, w1);
      if r.ret == 0 then (g1.(queue := r.q, status := RunWorker), r.w)
      else if r.ret == -2 || r.ret == -3 then
        var c := Q.Cancel(r.q, r.w);
        if c.ret <= 0 then
          var m := Q.Remove(c.q, c.w);
          (g1.(queue := m.q, status := AfterWorker(m.after)), m.w)
        else (g1.(queue := c.q), c.w)
      else (g1.(queue := r.q), r.w)
  }

  /** A guest in worker state, in run mode: when the job has completed, the guest may go on. */
  function PollWorker(g: Guest, w: World): (Guest, World) {
    if !g.queue.status.Completed? then (g, w)
    else
      var r := Q.Cleanup(g.queue, w);
      if r.ret == 0 then (g.(queue := r.q, status := AfterWorker(r.after)), r.w) else (g.(queue := r.q), r.w)
  }

  /** The same in shutdown mode: completed means exited, anything else gets a cancel request. */
  function DrainWorker(g: Guest, w: World): (Guest, World) {
    if !g.status.RunWorker? then (g, w)
    else
      var r := Q.Cleanup(g.queue, w);
      if r.ret == 0 then (g.(queue := r.q, status := Exit), r.w)
      else
        var c := Q.Cancel(r.q, r.w);
        (g.(queue := c.q), c.w)
  }
}
