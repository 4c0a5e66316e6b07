/** What each operation on one guest brings about, told by the answers of the calls it makes. */
module GuestOutcomes {
  import opened Host
  import opened MountTable
  import opened DelayedMounts
  import opened Guest
  import opened GuestSafety
  import Q = WorkQueue

  // ---- mounting -------------------------------------------------------------------------------

  /** Do the calls for this rootfs, not mounted yet, end with it mounted? */
  predicate RootMounts(r: Rootfs, side: int, w: World) {
    match r.kind
    case BlockDevice => MountOne(r.devs.At(side), [], w).ret == 0
    case HostRootFs => Answer(w).0.Done? && (r.readOnly ==> Try(Answer(w).1).0)
    case OtherRoot => false
  }

  lemma MountRootExact(r: Rootfs, side: int, w: World)
    requires RootAgrees(r, side)
    ensures var (ok, r1, w1) := MountRoot(r, side, w);
            && ok == r1.mounted == (r.mounted || RootMounts(r, side, w))
            && (r.mounted ==> r1 == r && w1 == w)
            && (!r.mounted ==> r1.errors == if ok then 0 else r.errors + 1)
  {
    if !r.mounted && r.kind.BlockDevice? {
      assert r.stack == [];
      MountOneExact(r.devs.At(side), w);
    }
  }

  /** Do the calls for this disk, not mounted yet, end with it mounted?  A failover disk has two chances. */
  predicate DiskMounts(d: Disk, side: int, w: World) {
    match d.kind
    case AB => MountOne(d.devs.At(side), [], w).ret == 0
    case Failover =>
      MountOne(d.devs.At(0), [], w).ret == 0 || MountOne(d.devs.At(1), [], MountOne(d.devs.At(0), [], w).w).ret == 0
    case _ => MountOne(d.devs.At(0), [], w).ret == 0
  }

  lemma MountExtraExact(d: Disk, side: int, w: World)
    requires DiskAgrees(d, side)
    ensures var (go, d1, w1) := MountExtra(d, side, w);
            && d1.mounted == (d.mounted || DiskMounts(d, side, w)) && go == (d1.mounted || d.kind.Failover?)
            && (d.mounted ==> d1 == d && w1 == w)
            && (!d.mounted ==> d1.errors == if d1.mounted then 0 else d.errors + 1)
  {
    if !d.mounted {
      match d.kind
      case Failover => FailoverExact(d.devs, w);
      case AB => MountOneExact(d.devs.At(side), w);
      case _ => MountOneExact(d.devs.At(0), w);
    }
  }

  /** The world in which disk `k` is tried, if the ones before it do not stop the launch. */
  ghost function DiskWorld(ds: seq<Disk>, i: nat, side: int, w: World, k: nat): World
    requires i <= k <= |ds|
    decreases k - i
  {
    if i == k then w else DiskWorld(ds, i + 1, side, MountExtra(ds[i], side, w).2, k)
  }

  /** Disks are tried in order up to the first mandatory one that cannot be mounted; those behind it are left alone. */
  lemma {:induction false} MountExtrasExact(ds: seq<Disk>, i: nat, side: int, w: World, k: nat)
    requires i <= k < |ds| && DisksAgree(ds, side)
    ensures var (ok, ds1, w1) := MountExtrasFrom(ds, i, side, w);
            if forall j :: i <= j < k ==> ds1[j].mounted || ds[j].kind.Failover?
            then ds1[k] == MountExtra(ds[k], side, DiskWorld(ds, i, side, w, k)).1
            else ds1[k] == ds[k]
    ensures forall j :: 0 <= j < i ==> MountExtrasFrom(ds, i, side, w).1[j] == ds[j]
    decreases |ds| - i
  {
    var (go, d, w1) := MountExtra(ds[i], side, w);
    MountExtraExact(ds[i], side, w);
    MountExtraSafe(ds[i], side, w);
    hide MountExtra, DiskAgrees, DiskMounts;
    assert DisksAgree(ds[i := d], side);
    if go {
      if i < k {
        MountExtrasExact(ds[i := d], i + 1, side, w1, k);
        SameWorlds(ds, ds[i := d], i + 1, side, w1, k);
      } else {
        MountedBefore(ds[i := d], i + 1, side, w1);
      }
    }
  }

  lemma {:induction false} MountedBefore(ds: seq<Disk>, i: nat, side: int, w: World)
    requires i <= |ds|
    ensures forall j :: 0 <= j < i ==> MountExtrasFrom(ds, i, side, w).1[j] == ds[j]
    decreases |ds| - i
  {
    hide MountExtra;
    if i < |ds| {
      var (go, d, w1) := MountExtra(ds[i], side, w);
      MountedBefore(ds[i := d], i + 1, side, w1);
    }
  }

  lemma {:induction false} SameWorlds(ds0: seq<Disk>, ds1: seq<Disk>, i: nat, side: int, w: World, k: nat)
    requires i <= k <= |ds0| == |ds1| && forall j :: i <= j < k ==> ds0[j] == ds1[j]
    ensures DiskWorld(ds0, i, side, w, k) == DiskWorld(ds1, i, side, w, k)
    decreases k - i
  {
    hide MountExtra;
    if i < k {
      SameWorlds(ds0, ds1, i + 1, side, MountExtra(ds0[i], side, w).2, k);
    }
  }

  // ---- launching --------------------------------------------------------------------------------

  /**
   A launch: the guest is started exactly when all it needs got mounted and then both its creation and its start
   succeed.  It is dead if one of these two failed, and as it was if a mount failed.  Failed starts are counted, and
   forgotten once one succeeds.
   */
  lemma StartExact(g: Guest, w: World)
    requires Safe(g) && !g.lxc && !WorkerActive(g) && (g.status.Dead? || g.status.NotStarted?)
    ensures var r := Start(g, w);
            var (_, g1, w1) := Preprocess(g, w);
            var created, started := Try(w1).0, Try(Try(w1).1).0;
            && r.g.root == g1.root && r.g.extra == g1.extra
            && r.g.status == (if !Ready(r.g) then g.status else if created && started then Started else Dead)
            && r.g.launchErrors == (if !Ready(r.g) then g.launchErrors
                                    else if created && started then 0
                                    else if created then g.launchErrors + 1 else g.launchErrors)
            && (r.ret == 0 <==> r.g.status.Started?) && (r.g.lxc <==> r.g.status.Started?)
            && (Ready(r.g) ==> r.g.queue == g.queue && r.g.runtime == AllPositions(|g.entries|) && r.g.delivered == [])
            && (!Ready(r.g) ==> (r.g.queue, r.w) == RecoverFrom(g1.extra, 0, g.queue, w1))
  {
    PreprocessSafe(g, w);
    hide Preprocess, RootAgrees, DisksAgree, RecoverFrom, Accounted;
  }

  /** A disabled guest is not launched. */
  lemma StartRefused(g: Guest, w: World)
    requires g.status.Disable?
    ensures Start(g, w) == Result(-2, g, w)
  {}

  // ---- repair jobs --------------------------------------------------------------------------------

  /** A disk whose mount failed and that a job can repair. */
  predicate Repairable(d: Disk) {
    !d.mounted && d.errors > 0 && (d.kind.Fsck? || d.kind.Mkfs?)
  }

  /** The device name does not fit into the job's options: the search ends here. */
  predicate TooLong(d: Disk) {
    !d.mounted && d.errors > 0 && |"device=" + d.devs.primary| >= 1023
  }

  function JobKey(d: Disk): string {
    match d.kind
    case Fsck => "fsck"
    case Mkfs => "mkfs"
    case _ => ""
  }

  /** The attempt to queue the repair of one disk. */
  function Attempted(d: Disk, q: Q.Queue, w: World): Q.Reply {
    Q.Schedule(q, JobKey(d), "device=" + d.devs.primary, 1, w)
  }

  /** Queue and world when disk `k` is considered, all jobs before having been refused. */
  ghost function Considered(ds: seq<Disk>, i: nat, q: Q.Queue, w: World, k: nat): (Q.Queue, World)
    requires i <= k <= |ds|
    decreases k - i
  {
    if i == k then (q, w)
    else if !Repairable(ds[i]) then Considered(ds, i + 1, q, w, k)
    else var r := Attempted(ds[i], q, w); Considered(ds, i + 1, r.q, r.w, k)
  }

  /** The job for disk `k` is tried and taken. */
  ghost predicate Takes(ds: seq<Disk>, i: nat, q: Q.Queue, w: World, k: nat)
    requires i <= k < |ds|
  {
    && Repairable(ds[k]) && (forall j :: i <= j <= k ==> !TooLong(ds[j]))
    && var (q1, w1) := Considered(ds, i, q, w, k); Attempted(ds[k], q1, w1).ret == 0
  }

  /** Disk `k` is the first whose job is taken. */
  ghost predicate FirstTaken(ds: seq<Disk>, i: nat, q: Q.Queue, w: World, k: nat)
    requires i <= k < |ds|
  {
    Takes(ds, i, q, w, k) && forall j :: i <= j < k ==> !Takes(ds, i, q, w, j)
  }

  /**
   After a failed launch an idle queue gets a job exactly when that of some failed fsck or mkfs disk is taken.  It is
   then the job of the first such disk, by its kind, for its first device, and with the flag to start the guest again.
   */
  lemma RecoverExact(ds: seq<Disk>, q: Q.Queue, w: World)
    requires q.status.Inactive?
    ensures var q1 := RecoverFrom(ds, 0, q, w).0;
            && (q1.status.Scheduled? <==> exists k: nat :: k < |ds| && Takes(ds, 0, q, w, k))
            && (!q1.status.Scheduled? ==> q1.status.Inactive?)
            && forall k: nat :: k < |ds| && FirstTaken(ds, 0, q, w, k) ==>
                 && q1.status.Scheduled? && q1.key == JobKey(ds[k]) && q1.args == "device=" + ds[k].devs.primary && q1.after == 1
  {
    RecoverTakes(ds, 0, q, w);
    var q1 := RecoverFrom(ds, 0, q, w).0;
    hide RecoverFrom, Takes, Attempted;
    if q1.status.Scheduled? {
      var k :| 0 <= k < |ds| && FirstTaken(ds, 0, q, w, k) && RecoverFrom(ds, 0, q, w).0 == TakenJob(ds, 0, q, w, k);
      TakenIs(ds, 0, q, w, k);
      forall j: nat | j < |ds| && FirstTaken(ds, 0, q, w, j) ensures j == k {
        assert Takes(ds, 0, q, w, j) && Takes(ds, 0, q, w, k);
      }
    }
  }

  /** The queue with the job of disk `k`. */
  ghost function TakenJob(ds: seq<Disk>, i: nat, q: Q.Queue, w: World, k: nat): Q.Queue
    requires i <= k < |ds|
  {
    var (q1, w1) := Considered(ds, i, q, w, k);
    Attempted(ds[k], q1, w1).q
  }

  lemma TakenIs(ds: seq<Disk>, i: nat, q: Q.Queue, w: World, k: nat)
    requires i <= k < |ds| && Takes(ds, i, q, w, k)
    ensures var q1 := TakenJob(ds, i, q, w, k);
            q1.status.Scheduled? && q1.key == JobKey(ds[k]) && q1.args == "device=" + ds[k].devs.primary && q1.after == 1
  {
    hide Considered;
  }

  lemma {:induction false} RecoverTakes(ds: seq<Disk>, i: nat, q: Q.Queue, w: World)
    requires i <= |ds| && q.status.Inactive?
    ensures var q1 := RecoverFrom(ds, i, q, w).0;
            if q1.status.Scheduled?
            then exists k :: i <= k < |ds| && FirstTaken(ds, i, q, w, k) && q1 == TakenJob(ds, i, q, w, k)
            else q1.status.Inactive? && forall k :: i <= k < |ds| ==> !Takes(ds, i, q, w, k)
    decreases |ds| - i
  {
    if i < |ds| && !TooLong(ds[i]) {
      var r := Attempted(ds[i], q, w);
      if Repairable(ds[i]) && r.ret == 0 {
        assert Takes(ds, i, q, w, i) && FirstTaken(ds, i, q, w, i);
      } else {
        var (q1, w1) := if Repairable(ds[i]) then (r.q, r.w) else (q, w);
        RecoverTakes(ds, i + 1, q1, w1);
        Onward(ds, i, q, w, q1, w1);
        assert RecoverFrom(ds, i, q, w) == RecoverFrom(ds, i + 1, q1, w1);
        hide RecoverFrom, Takes, TakenJob, FirstTaken, Attempted;
        if RecoverFrom(ds, i, q, w).0.status.Scheduled? {
          var k :| i + 1 <= k < |ds| && FirstTaken(ds, i + 1, q1, w1, k) && RecoverFrom(ds, i + 1, q1, w1).0 == TakenJob(ds, i + 1, q1, w1, k);
          assert FirstTaken(ds, i, q, w, k) && TakenJob(ds, i, q, w, k) == TakenJob(ds, i + 1, q1, w1, k);
        }
      }
    }
  }

  /** What is taken from `i + 1` on is what is taken from `i` on when the element at `i` is passed over. */
  lemma Onward(ds: seq<Disk>, i: nat, q: Q.Queue, w: World, q1: Q.Queue, w1: World)
    requires i < |ds| && !TooLong(ds[i])
    requires if Repairable(ds[i]) then var r := Attempted(ds[i], q, w); r.ret != 0 && (q1, w1) == (r.q, r.w) else (q1, w1) == (q, w)
    ensures !Takes(ds, i, q, w, i)
    ensures forall k :: i < k < |ds| ==> Takes(ds, i, q, w, k) == Takes(ds, i + 1, q1, w1, k)
    ensures forall k :: i < k < |ds| ==> FirstTaken(ds, i, q, w, k) == FirstTaken(ds, i + 1, q1, w1, k)
    ensures forall k :: i < k < |ds| ==> TakenJob(ds, i, q, w, k) == TakenJob(ds, i + 1, q1, w1, k)
  {
    hide Attempted, TooLong, Repairable;
    forall k | i < k < |ds|
      ensures Takes(ds, i, q, w, k) == Takes(ds, i + 1, q1, w1, k)
      ensures TakenJob(ds, i, q, w, k) == TakenJob(ds, i + 1, q1, w1, k)
    {
      assert Considered(ds, i, q, w, k) == Considered(ds, i + 1, q1, w1, k);
    }
    assert !Takes(ds, i, q, w, i);
    hide Takes, Considered;
    forall k | i < k < |ds| ensures FirstTaken(ds, i, q, w, k) == FirstTaken(ds, i + 1, q1, w1, k) {
      if FirstTaken(ds, i + 1, q1, w1, k) {
        forall j | i <= j < k ensures !Takes(ds, i, q, w, j) {
          if j > i {
            assert Takes(ds, i, q, w, j) == Takes(ds, i + 1, q1, w1, j);
          }
        }
      } else if FirstTaken(ds, i, q, w, k) {
        var n := i + 1;
        forall j | n <= j < k ensures !Takes(ds, n, q1, w1, j) {
          assert Takes(ds, i, q, w, j) == Takes(ds, i + 1, q1, w1, j);
        }
      }
    }
  }

  // ---- stop requests and exits ----------------------------------------------------------------------

  /**
   A guest that runs and is asked to stop: if liblxc takes the request it is rebooting or shutting down with a deadline
   from now on; if not it is killed, and dead, not started or, while the system shuts down, exited.
   */
  ghost predicate AskedToStop(g: Guest, g1: Guest, reboot: bool, sys: SysState, taken: bool) {
    if taken then
      && g1.status == (if reboot && sys.Run? then Reboot else Shutdown)
      && g1 == g.(status := g1.status, deadline := g1.deadline)
    else
      && g1.status == (if sys.Stop? then Exit else if reboot then Dead else NotStarted)
      && !g1.lxc && g1.handles == 0 && (forall k :: 0 <= k < |g1.netifs| ==> g1.netifs[k].ifindex == 0)
      && g1 == g.(status := g1.status, lxc := false, handles := 0, netifs := g1.netifs)
  }

  /**
   A guest that does not run: in run mode only a dead guest is kept from being launched again, by a shutdown; while the
   system shuts down whatever waits to be launched has exited, and a shutdown overrides a reboot.
   */
  function AskedAtRest(s: Status, reboot: bool, sys: SysState): Status {
    if sys.Run? then
      if s.Dead? && !reboot then NotStarted else s
    else if s.NotStarted? || s.Dead? then Exit
    else if s.Reboot? && !reboot then Shutdown else s
  }

  function Requested(g: Guest, w: World, sys: SysState, reboot: bool): Result {
    if reboot then RequestReboot(g, w, sys) else RequestShutdown(g, w, sys)
  }

  lemma RequestExact(g: Guest, w: World, sys: SysState, reboot: bool)
    requires Safe(g)
    ensures var r := Requested(g, w, sys, reboot);
            && Later(w, r.w) && (r.ret == 0 <==> !(sys.Run? && g.status.Exit?))
            && (g.status.Started? ==> AskedToStop(g, r.g, reboot, sys, Try(w).0))
            && (!g.status.Started? ==> r.g == g.(status := AskedAtRest(g.status, reboot, sys), deadline := r.g.deadline))
            && (!g.status.Started? && !g.status.RunWorker? ==> r.g.deadline == g.deadline)
  {
    hide RootAgrees, DisksAgree, Accounted;
  }

  /** A reported exit: a running or rebooting guest is dead, a stopping one not started; while the system shuts down all have exited. */
  lemma ExitedExact(g: Guest, sys: SysState)
    requires Safe(g)
    ensures var g1 := Exited(g, sys);
            && g1.status == (if g.status.Disable? then Disable
                             else if sys.Stop? then Exit
                             else if g.status.Started? || g.status.Reboot? then Dead
                             else if g.status.Shutdown? then NotStarted
                             else g.status)
            && !g1.lxc && g1.handles == 0 && (forall k :: 0 <= k < |g1.netifs| ==> g1.netifs[k].ifindex == 0)
            && g1 == g.(status := g1.status, lxc := false, handles := 0, netifs := g1.netifs)
  {
    hide RootAgrees, DisksAgree, Accounted;
  }

  /** A guest past its deadline is killed: it is launched again if it was rebooting, and not if it was stopping. */
  lemma TimeoutExact(g: Guest, now: int, sys: SysState)
    requires Safe(g)
    ensures var g1, late := KillOnTimeout(g, now, sys), g.deadline < now;
            && (late && Stopping(g) ==>
                  && g1.status == (if sys.Stop? then Exit else if g.status.Reboot? then Dead else NotStarted)
                  && !g1.lxc && g1.handles == 0 && (forall k :: 0 <= k < |g1.netifs| ==> g1.netifs[k].ifindex == 0)
                  && g1 == g.(status := g1.status, lxc := false, handles := 0, netifs := g1.netifs))
            && (late && g.status.RunWorker? && sys.Stop? ==> g1 == g.(status := Exit))
            && (!late || (!Stopping(g) && !(g.status.RunWorker? && sys.Stop?)) ==> g1 == g)
  {
    hide RootAgrees, DisksAgree, Accounted;
  }

  // ---- jobs -------------------------------------------------------------------------------------------

  /** What is done with a guest when its job is over: its flag tells whether the guest is to be launched. */
  predicate JobOver(g: Guest, g1: Guest) {
    && g1.status == (if g.queue.after == 1 then Dead else NotStarted)
    && g1.queue.status.Inactive? && g1.queue.after == 0
    && g1 == g.(status := g1.status, queue := g1.queue)
  }

  /** A guest in worker state goes on exactly when its job has completed. */
  lemma PollWorkerExact(g: Guest, w: World)
    ensures var (g1, w1) := PollWorker(g, w);
            && Later(w, w1)
            && (g.queue.status.Completed? ==> JobOver(g, g1))
            && (!g.queue.status.Completed? ==> g1 == g && w1 == w)
  {}

  /** While the system shuts down: a completed job ends the guest, any other is asked to stop and waited for. */
  lemma DrainWorkerExact(g: Guest, w: World)
    ensures var (g1, w1) := DrainWorker(g, w);
            && Later(w, w1)
            && (g.status.RunWorker? && g.queue.status.Completed? ==>
                  g1 == g.(status := Exit, queue := g1.queue) && g1.queue.status.Inactive?)
            && (!g.status.RunWorker? || !g.queue.status.Completed? ==> g1 == g)
  {}

  /**
   An active guest that is not started is unmounted.  A job that waits for it is started then; if no thread can be
   created for it, the job is removed.
   */
  lemma IdleActiveExact(g: Guest, w: World)
    requires Safe(g) && g.status.NotStarted? && !WorkerActive(g)
    ensures var (g1, w1) := IdleActive(g, w);
            var w2 := Cleanup(g, w, 200).1;
            && Bare(g1) && Later(w, w1) && g1.root == Cleanup(g, w, 200).0.root && g1.extra == Cleanup(g, w, 200).0.extra
            && (!g.queue.status.Scheduled? ==> g1.status == g.status && g1.queue == g.queue && w1 == w2)
            && (g.queue.status.Scheduled? && Ask(w2).0 >= 0 ==>
                  g1.status.RunWorker? && g1.queue == g.queue.(status := Q.Started))
            && (g.queue.status.Scheduled? && Ask(w2).0 < 0 ==>
                  g1.status == (if g.queue.after == 1 then Dead else NotStarted) && g1.queue.status.Inactive?)
  {
    CleanupSafe(g, w, 200);
    hide Cleanup, RootAgrees, DisksAgree;
  }
}
