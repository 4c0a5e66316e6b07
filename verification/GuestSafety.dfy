/** What every operation on one guest keeps true of its record. */
module GuestSafety {
  import opened Host
  import opened MountTable
  import opened DelayedMounts
  import opened Guest
  import N = NetIf
  import Q = WorkQueue

  predicate Live(s: Status) {
    s.Started? || s.Reboot? || s.Shutdown?
  }

  // ---- disks --------------------------------------------------------------------------

  predicate RootShows(r: Rootfs, side: int)
  {
    r.stack != [] && r.stack[|r.stack| - 1] == r.devs.At(if r.kind.BlockDevice? then side else 0)
  }

  /**
   The flag agrees with the mount table: a mounted rootfs is the visible mount and comes from the
   boot side; below it are only the mounts that failed read-only bind mounts have left behind.
   */
  predicate RootAgrees(r: Rootfs, side: int) {
    && 0 <= side < 2
    && (r.mounted ==> RootShows(r, side))
    && |r.stack| == r.leaks + (if r.mounted then 1 else 0)
    && (forall i :: 0 <= i < r.leaks ==> r.stack[i] == r.devs.At(0))
    && (r.leaks > 0 ==> r.kind.HostRootFs? && r.readOnly)
  }

  predicate DiskAgrees(d: Disk, side: int) {
    && 0 <= side < 2
    && if !d.mounted then d.stack == []
       else match d.kind
            case AB => d.stack == [d.devs.At(side)]
            case Failover => d.stack == [d.devs.At(0)] || d.stack == [d.devs.At(1)]
            case _ => d.stack == [d.devs.At(0)]
  }

  predicate DisksAgree(ds: seq<Disk>, side: int) {
    forall i :: 0 <= i < |ds| ==> DiskAgrees(ds[i], side)
  }

  predicate Mandatory(d: Disk) {
    !d.kind.Failover?
  }

  /** Everything the guest needs is mounted. */
  predicate Ready(g: Guest) {
    g.root.mounted && forall i :: 0 <= i < |g.extra| && Mandatory(g.extra[i]) ==> g.extra[i].mounted
  }

  /** Nothing of the guest is mounted. */
  predicate Bare(g: Guest) {
    !g.root.mounted && forall i :: 0 <= i < |g.extra| ==> !g.extra[i].mounted
  }

  // ---- the record invariant ---------------------------------------------------------------

  ghost predicate Safe(g: Guest) {
    // the instance is held exactly while the guest may run, and none is ever lost
    && (g.lxc <==> Live(g.status)) && g.handles == (if g.lxc then 1 else 0)
    // mounts
    && RootAgrees(g.root, g.side) && DisksAgree(g.extra, g.side)
    && (Live(g.status) ==> Ready(g))
    && (g.status.Disable? ==> Bare(g))
    // a repair job runs only while nothing is mounted, and a queued job has its plugin
    && (g.queue.status.Started? ==> Bare(g))
    && (Q.HoldsJob(g.queue) ==> g.queue.plugin.Some?)
    // interfaces belong to a held instance; delayed mounts are accounted for
    && (forall i :: 0 <= i < |g.netifs| && g.netifs[i].ifindex != 0 ==> g.lxc)
    && (g.lxc ==> Accounted(g.entries, g.runtime, g.delivered))
  }

  predicate WorkerActive(g: Guest) {
    g.queue.status.Started? || g.queue.status.Completed?
  }

  predicate Mode(g: Guest, sys: SysState) {
    if sys.Run? then (g.status.RunWorker? <==> WorkerActive(g)) && !g.status.Exit?
    else (g.status.Exit? || g.status.Shutdown? || g.status.RunWorker? || g.status.Disable?)
         && (g.status.RunWorker? ==> WorkerActive(g))
  }

  predicate SameRoot(r0: Rootfs, r1: Rootfs) {
    r1.kind == r0.kind && r1.readOnly == r0.readOnly && r1.devs == r0.devs
  }

  predicate SameDisks(ds0: seq<Disk>, ds1: seq<Disk>) {
    |ds1| == |ds0| && forall i :: 0 <= i < |ds0| ==> ds1[i].kind == ds0[i].kind && ds1[i].devs == ds0[i].devs
  }

  /** `g1` is the same configured guest as `g0`. */
  ghost predicate SameGuest(g0: Guest, g1: Guest) {
    && g1.name == g0.name && g1.role == g0.role && g1.timeout == g0.timeout && g1.side == g0.side
    && SameRoot(g0.root, g1.root) && SameDisks(g0.extra, g1.extra)
    && g1.entries == g0.entries && |g1.netifs| == |g0.netifs|
  }

  /** The queue is untouched, or an idle one got a job (or tried to). */
  predicate MaybeScheduled(q0: Q.Queue, q1: Q.Queue) {
    q1 == q0 || (q0.status.Inactive? && (q1.status.Inactive? || (q1.status.Scheduled? && q1.plugin.Some?)))
  }

  predicate Stopping(g: Guest) {
    g.status.Shutdown? || g.status.Reboot?
  }

  /**
   What the cyclic pass may do to a guest: it never puts a guest into a stopping state nor moves a
   deadline, and in shutdown mode it launches nothing and leaves exited and disabled guests alone.
   */
  ghost predicate Settles(g0: Guest, g1: Guest, sys: SysState) {
    && SameGuest(g0, g1)
    && (Stopping(g1) ==> Stopping(g0) && g1.deadline == g0.deadline)
    && (sys.Stop? ==>
          && (g0.status.Exit? ==> g1.status.Exit?) && (g0.status.Disable? ==> g1.status.Disable?)
          && (!g0.lxc ==> !g1.lxc))
  }

  /** What a stop request may do: a guest that starts stopping gets a deadline `timeout` after a clock reading. */
  ghost predicate Stops(g0: Guest, g1: Guest, sys: SysState, w0: World, w1: World) {
    && SameGuest(g0, g1) && (g1.status.Disable? <==> g0.status.Disable?)
    && (Stopping(g1) ==> if Stopping(g0) then g1.deadline == g0.deadline
                         else g0.status.Started? && w0.clock <= g1.deadline - g0.timeout <= w1.clock)
    && (sys.Stop? ==> (g0.status.Exit? ==> g1.status.Exit?) && (!g0.lxc ==> !g1.lxc))
  }

  // ---- mounting -------------------------------------------------------------------------------

  lemma MountRootSafe(r: Rootfs, side: int, w: World)
    requires RootAgrees(r, side)
    ensures var (ok, r1, w1) := MountRoot(r, side, w);
            RootAgrees(r1, side) && SameRoot(r, r1) && Later(w, w1) && (ok <==> r1.mounted)
  {
    if !r.mounted {
      match r.kind
      case BlockDevice => MountOneExact(r.devs.At(side), w);
      case HostRootFs => BindExact(r.devs.At(0), r.readOnly, r.stack, w);
      case OtherRoot =>
    }
  }

  /** A launch leaves one mount more behind exactly when the bind mount it makes leaks; unmounting leaves them all. */
  lemma RootLeaksExactly(r: Rootfs, side: int, w: World, deadline: int, tries: nat)
    requires RootAgrees(r, side)
    ensures var (ok, r1, w1) := MountRoot(r, side, w);
            |r1.stack| - (if ok then 1 else 0) == |r.stack| - (if r.mounted then 1 else 0) + if RootLeaks(r, w) then 1 else 0
    ensures var (r1, w1) := UnmountRoot(r, deadline, tries, w);
            |r1.stack| == |r.stack| - if r.mounted then 1 else 0
  {
    MountRootSafe(r, side, w);
    if r.mounted {
      UnmountExact(r.stack, deadline, tries, w);
    }
  }

  lemma MountExtraSafe(d: Disk, side: int, w: World)
    requires DiskAgrees(d, side)
    ensures var (go, d1, w1) := MountExtra(d, side, w);
            DiskAgrees(d1, side) && d1.kind == d.kind && d1.devs == d.devs && Later(w, w1) && (go <==> d1.mounted || !Mandatory(d))
  {
    if !d.mounted {
      match d.kind
      case Failover => FailoverExact(d.devs, w);
      case AB => MountOneExact(d.devs.At(side), w);
      case _ => MountOneExact(d.devs.At(0), w);
    }
  }

  lemma {:induction false} MountExtrasSafe(ds: seq<Disk>, i: nat, side: int, w: World)
    requires i <= |ds| && DisksAgree(ds, side)
    requires forall j :: 0 <= j < i && Mandatory(ds[j]) ==> ds[j].mounted
    ensures var (ok, ds1, w1) := MountExtrasFrom(ds, i, side, w);
            && DisksAgree(ds1, side) && SameDisks(ds, ds1) && Later(w, w1)
            && (ok <==> forall j :: 0 <= j < |ds| && Mandatory(ds1[j]) ==> ds1[j].mounted)
    decreases |ds| - i
  {
    if i < |ds| {
      MountExtraSafe(ds[i], side, w);
      var (go, d, w1) := MountExtra(ds[i], side, w);
      hide MountExtra, DiskAgrees;
      if go {
        MountExtrasSafe(ds[i := d], i + 1, side, w1);
      } else {
        assert Mandatory(ds[i := d][i]) && !ds[i := d][i].mounted;
      }
    }
  }

  lemma PreprocessSafe(g: Guest, w: World)
    requires RootAgrees(g.root, g.side) && DisksAgree(g.extra, g.side)
    ensures var (ok, g1, w1) := Preprocess(g, w);
            && g1 == g.(root := g1.root, extra := g1.extra) && SameRoot(g.root, g1.root) && SameDisks(g.extra, g1.extra)
            && RootAgrees(g1.root, g1.side) && DisksAgree(g1.extra, g1.side)
            && Later(w, w1) && (ok <==> Ready(g1))
  {
    MountRootSafe(g.root, g.side, w);
    var (ok, root, w1) := MountRoot(g.root, g.side, w);
    if ok {
      MountExtrasSafe(g.extra, 0, g.side, w1);
    }
  }

  lemma {:induction false} RecoverSafe(ds: seq<Disk>, i: nat, q: Q.Queue, w: World)
    requires i <= |ds|
    ensures var (q1, w1) := RecoverFrom(ds, i, q, w); MaybeScheduled(q, q1) && Later(w, w1)
    decreases |ds| - i
  {
    if i < |ds| {
      if ds[i].mounted || ds[i].errors == 0 {
        RecoverSafe(ds, i + 1, q, w);
      } else if |ds[i].devs.At(0)| + 7 < 1023 {
        if ds[i].kind.Fsck? || ds[i].kind.Mkfs? {
          var r := Q.Schedule(q, if ds[i].kind.Fsck? then "fsck" else "mkfs", "device=" + ds[i].devs.At(0), 1, w);
          if r.ret != 0 {
            RecoverSafe(ds, i + 1, r.q, r.w);
          }
        } else {
          RecoverSafe(ds, i + 1, q, w);
        }
      }
    }
  }

  // ---- unmounting -------------------------------------------------------------------------------

  lemma {:induction false} UnmountExtrasSafe(ds: seq<Disk>, i: nat, side: int, deadline: int, tries: nat, w: World)
    requires i <= |ds| && DisksAgree(ds, side)
    requires forall j :: 0 <= j < i ==> !ds[j].mounted
    ensures var (ds1, w1) := UnmountExtrasFrom(ds, i, deadline, tries, w);
            DisksAgree(ds1, side) && SameDisks(ds, ds1) && Later(w, w1) && forall j :: 0 <= j < |ds| ==> !ds1[j].mounted
    decreases |ds| - i
  {
    if i < |ds| {
      if !ds[i].mounted {
        UnmountExtrasSafe(ds, i + 1, side, deadline, tries, w);
      } else {
        UnmountExact(ds[i].stack, deadline, tries, w);
        var (st, w1) := UnmountDisk(ds[i].stack, deadline, tries, w);
        UnmountExtrasSafe(ds[i := ds[i].(mounted := false, errors := 0, stack := st)], i + 1, side, deadline, tries, w1);
      }
    }
  }

  lemma UnmountRootSafe(r: Rootfs, side: int, deadline: int, tries: nat, w: World)
    requires RootAgrees(r, side)
    ensures var (r1, w1) := UnmountRoot(r, deadline, tries, w);
            RootAgrees(r1, side) && SameRoot(r, r1) && !r1.mounted && Later(w, w1)
  {
    if r.mounted {
      UnmountExact(r.stack, deadline, tries, w);
    }
  }

  /** Cleaning up releases the instance, the interfaces and every mount of the guest. */
  lemma CleanupSafe(g: Guest, w: World, timeout: nat)
    requires RootAgrees(g.root, g.side) && DisksAgree(g.extra, g.side) && g.handles == (if g.lxc then 1 else 0)
    requires Q.HoldsJob(g.queue) ==> g.queue.plugin.Some?
    ensures var (g1, w1) := Cleanup(g, w, timeout);
            && Bare(g1) && !g1.lxc && g1.handles == 0 && g1.runtime == []
            && g1.status == g.status && g1.queue == g.queue && g1.deadline == g.deadline && SameGuest(g, g1)
            && RootAgrees(g1.root, g1.side) && DisksAgree(g1.extra, g1.side)
            && (forall i :: 0 <= i < |g1.netifs| ==> g1.netifs[i].ifindex == 0)
            && Later(w, w1)
            && (!Live(g.status) ==> Safe(g1))
  {
    var g1 := Terminate(g).(runtime := []);
    var (now, w1) := Now(w);
    var tries := timeout / 50 + 1;
    UnmountExtrasSafe(g1.extra, 0, g1.side, now + timeout, tries, w1);
    var (extra, w2) := UnmountExtrasFrom(g1.extra, 0, now + timeout, tries, w1);
    UnmountRootSafe(g1.root, g1.side, now + timeout, tries, w2);
    hide UnmountExtrasFrom, UnmountRoot, RootAgrees, DisksAgree, SameRoot, SameDisks, Accounted;
  }

  // ---- launching ----------------------------------------------------------------------------------

  /**
   Launching a guest that is not running: success means it runs with everything mounted; failure
   leaves no instance behind, and the guest dead or as it was.
   */
  lemma StartSafe(g: Guest, w: World)
    requires Safe(g) && !g.lxc && !WorkerActive(g)
    requires g.status.Dead? || g.status.NotStarted?
    ensures var r := Start(g, w);
            && Safe(r.g) && SameGuest(g, r.g) && Later(w, r.w)
            && (r.ret == 0 <==> r.g.status.Started?)
            && (r.ret != 0 ==> r.g.status.Dead? || r.g.status == g.status)
            && MaybeScheduled(g.queue, r.g.queue) && r.g.deadline == g.deadline
  {
    PreprocessSafe(g, w);
    var (ready, g1, w1) := Preprocess(g, w);
    hide Preprocess, RootAgrees, DisksAgree;
    if !ready {
      RecoverSafe(g1.extra, 0, g1.queue, w1);
      hide RecoverFrom, Launch, SetupDelayed;
    } else {
      SetupAccounted(g1);
      hide SetupDelayed, Accounted;
      LaunchSafe(SetupDelayed(g1), w1);
      hide Launch;
    }
  }

  lemma LaunchSafe(g: Guest, w: World)
    requires Safe(g.(status := Dead)) && !g.lxc && !WorkerActive(g) && Ready(g) && Accounted(g.entries, g.runtime, g.delivered)
    ensures var r := Launch(g, w);
            && Safe(r.g) && SameGuest(g, r.g) && Later(w, r.w)
            && (r.ret == 0 <==> r.g.status.Started?) && (r.ret != 0 ==> r.g.status.Dead?)
            && r.g.queue == g.queue && r.g.deadline == g.deadline
  {
    hide RootAgrees, DisksAgree, Accounted;
  }

  lemma SetupAccounted(g: Guest)
    ensures var g1 := SetupDelayed(g);
            g1 == g.(runtime := g1.runtime, delivered := g1.delivered) && Accounted(g1.entries, g1.runtime, g1.delivered)
  {
    var g1 := SetupDelayed(g);
    forall e: nat | e < |g1.entries| ensures e in g1.runtime { assert g1.runtime[e] == e; }
  }

  /** Relaunching a dead guest. */
  lemma RelaunchSafe(g: Guest, w: World)
    requires Safe(g) && Mode(g, Run) && g.status.Dead?
    ensures var r := Start(g, w);
            Safe(r.g) && Mode(r.g, Run) && Settles(g, r.g, Run) && !r.g.status.Disable? && Later(w, r.w)
  {
    StartSafe(g, w);
    hide Start;
  }

  /** Taking a guest that is not started out of service. */
  lemma HandOverSafe(g: Guest, w: World)
    requires Safe(g) && Mode(g, Run) && g.status.NotStarted?
    ensures var (g1, w1) := Cleanup(g.(status := Disable), w, 0);
            && Safe(g1) && Mode(g1, Run) && Settles(g, g1, Run) && g1.status.Disable? && Bare(g1) && !g1.lxc
            && Later(w, w1)
  {
    CleanupSafe(g.(status := Disable), w, 0);
  }

  /** Taking a disabled guest into service. */
  lemma EnableSafe(g: Guest, w: World)
    requires Safe(g) && Mode(g, Run) && g.status.Disable?
    ensures var r := Start(g.(status := NotStarted), w);
            && Safe(r.g) && Mode(r.g, Run) && Settles(g, r.g, Run) && Later(w, r.w)
            && (r.g.status.Started? || r.g.status.Dead? || r.g.status.NotStarted?)
  {
    StartSafe(g.(status := NotStarted), w);
  }

  // ---- requests and events ----------------------------------------------------------------------------

  lemma StopGuestSafe(g: Guest, w: World, wanted: Status, fallback: Status, sys: SysState)
    requires Safe(g) && g.status.Started? && Mode(g, sys)
    requires (wanted.Shutdown? || (wanted.Reboot? && sys.Run?)) && !Live(fallback) && !fallback.Disable?
    ensures var (g1, w1) := StopGuest(g, w, wanted, fallback);
            && Safe(g1) && Later(w, w1) && Stops(g, g1, sys, w, w1) && g1.queue == g.queue
            && (g1.status == wanted || g1.status == fallback)
  {
  }

  lemma RequestShutdownSafe(g: Guest, w: World, sys: SysState)
    requires Safe(g) && Mode(g, sys)
    ensures var r := RequestShutdown(g, w, sys); Safe(r.g) && Mode(r.g, sys) && Stops(g, r.g, sys, w, r.w) && Later(w, r.w)
  {
    if g.status.Started? {
      StopGuestSafe(g, w, Shutdown, NotStarted, sys);
    }
  }

  lemma RequestRebootSafe(g: Guest, w: World, sys: SysState)
    requires Safe(g) && Mode(g, sys)
    ensures var r := RequestReboot(g, w, sys); Safe(r.g) && Mode(r.g, sys) && Stops(g, r.g, sys, w, r.w) && Later(w, r.w)
  {
    if g.status.Started? {
      StopGuestSafe(g, w, Reboot, Dead, sys);
    }
  }

  /** The system's shutdown request takes every guest of a running system into shutdown mode. */
  lemma ShutdownEntersStop(g: Guest, w: World)
    requires Safe(g) && (Mode(g, Run) || Mode(g, Stop))
    ensures var r := RequestShutdown(g, w, Stop); Safe(r.g) && Mode(r.g, Stop) && Stops(g, r.g, Stop, w, r.w) && Later(w, r.w)
  {
    hide RootAgrees, DisksAgree, Accounted;
  }

  lemma ExitedSafe(g: Guest, sys: SysState)
    requires Safe(g) && Mode(g, sys)
    ensures Safe(Exited(g, sys)) && Mode(Exited(g, sys), sys) && Settles(g, Exited(g, sys), sys)
    ensures Exited(g, sys).status.Disable? <==> g.status.Disable?
  {
  }

  lemma KillOnTimeoutSafe(g: Guest, now: int, sys: SysState)
    requires Safe(g) && Mode(g, sys)
    ensures var g1 := KillOnTimeout(g, now, sys); Safe(g1) && Mode(g1, sys) && Settles(g, g1, sys)
  {
  }

  lemma DoDelayedSafe(g: Guest, w: World)
    requires Safe(g) && Mode(g, Run)
    ensures var (g1, w1) := DoDelayed(g, w);
            && Safe(g1) && Mode(g1, Run) && Settles(g, g1, Run) && Later(w, w1)
            && g1.status == g.status && (!g.status.Started? ==> g1 == g)
  {
    if g.status.Started? {
      DeliverAccounted(g.entries, g.runtime, 0, g.delivered, g.lxc, w);
    }
  }

  lemma UpdateNetifSafe(g: Guest, links: seq<N.Link>, w: World, sys: SysState)
    requires Safe(g) && Mode(g, sys)
    ensures var (g1, w1) := UpdateNetif(g, links, w);
            Safe(g1) && Mode(g1, sys) && Settles(g, g1, sys) && g1.status == g.status
  {
  }

  lemma IdleActiveSafe(g: Guest, w: World)
    requires Safe(g) && Mode(g, Run) && g.status.NotStarted?
    ensures var (g1, w1) := IdleActive(g, w);
            && Safe(g1) && Mode(g1, Run) && Settles(g, g1, Run) && Later(w, w1) && Bare(g1)
            && (g1.status.NotStarted? || g1.status.Dead? || g1.status.RunWorker?)
  {
    CleanupSafe(g, w, 200);
    hide Cleanup, RootAgrees, DisksAgree;
  }

  lemma PollWorkerSafe(g: Guest, w: World)
    requires Safe(g) && Mode(g, Run) && g.status.RunWorker?
    ensures var (g1, w1) := PollWorker(g, w);
            && Safe(g1) && Mode(g1, Run) && Settles(g, g1, Run) && Later(w, w1)
            && (g1.status.NotStarted? || g1.status.Dead? || g1 == g)
  {
  }

  lemma DrainWorkerSafe(g: Guest, w: World)
    requires Safe(g) && Mode(g, Stop)
    ensures var (g1, w1) := DrainWorker(g, w);
            && Safe(g1) && Mode(g1, Stop) && Settles(g, g1, Stop) && Later(w, w1) && g1.deadline == g.deadline
            && (g1.status == g.status || g1.status.Exit?) && (!g.status.RunWorker? ==> g1 == g)
  {
  }

  lemma ScheduleSafe(g: Guest, key: string, args: string, w: World, sys: SysState)
    requires Safe(g) && Mode(g, sys)
    ensures var g1 := g.(queue := Q.Schedule(g.queue, key, args, 1, w).q);
            Safe(g1) && Mode(g1, sys) && Settles(g, g1, sys)
  {
  }

  lemma FinishSafe(g: Guest, ret: int, sys: SysState)
    requires Safe(g) && Mode(g, sys) && g.queue.status.Started?
    ensures var g1 := g.(queue := Q.Finish(g.queue, ret));
            Safe(g1) && Mode(g1, sys) && Settles(g, g1, sys)
  {
  }

  /** The time bounds of a stop request may be widened. */
  lemma StopsWiden(g0: Guest, g1: Guest, sys: SysState, w0: World, w1: World, v0: World, v1: World)
    requires Stops(g0, g1, sys, w0, w1) && v0.clock <= w0.clock && w1.clock <= v1.clock
    ensures Stops(g0, g1, sys, v0, v1)
  {
  }
}
