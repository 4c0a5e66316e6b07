/** One guest container as the manager keeps it: the operations of Guest, updating the record in place. */
module Container {
  import opened Host
  import opened MountTable
  import opened DelayedMounts
  import opened Guest
  import N = NetIf
  import Q = WorkQueue

  class ContainerConfig {
    const name: string
    const role: string
    const timeout: nat
    const entries: seq<Entry>
    const queue: Q.Slot
    var side: int
    var status: Status
    var lxc: bool
    ghost var handles: int
    var deadline: int
    var launchErrors: nat
    var root: Rootfs
    var extra: seq<Disk>
    var runtime: seq<nat>
    ghost var delivered: seq<nat>
    var netifs: seq<N.Netif>

    ghost function View(): Guest
      reads this, queue
    {
      Guest(name, role, timeout, side, status, lxc, handles, deadline, launchErrors,
            root, extra, entries, runtime, delivered, netifs, queue.View())
    }

    constructor (name: string, role: string, timeout: nat, entries: seq<Entry>, root: Rootfs, extra: seq<Disk>, netifs: seq<N.Netif>)
      ensures fresh(queue)
      ensures View() == Guest(name, role, timeout, 0, Disable, false, 0, 0, 0, root, extra, entries, [], [], netifs, Q.EMPTY_QUEUE)
    {
      this.name, this.role, this.timeout, this.entries := name, role, timeout, entries;
      this.root, this.extra, this.netifs := root, extra, netifs;
      queue := new Q.Slot();
      side, status, lxc, deadline, launchErrors, runtime := 0, Disable, false, 0, 0, [];
      handles, delivered := 0, [];
    }

    // ---- instance ------------------------------------------------------------------

    method ReleaseInstance()
      modifies this
      ensures View() == Release(old(View()))
    {
      if lxc {
        handles := handles - 1;
      }
      lxc := false;
    }

    method NetifRemoveElements()
      modifies this`netifs
      ensures netifs == N.Unassign(old(netifs))
    {
      var i := 0;
      while i < |netifs|
        invariant i <= |netifs| == |old(netifs)|
        invariant forall j :: 0 <= j < i ==> netifs[j] == old(netifs)[j].(ifindex := 0)
        invariant forall j :: i <= j < |netifs| ==> netifs[j] == old(netifs)[j]
      {
        netifs := netifs[i := netifs[i].(ifindex := 0)];
        i := i + 1;
      }
    }

    method ContainerTerminate()
      modifies this
      ensures View() == Terminate(old(View()))
    {
      ReleaseInstance();
      NetifRemoveElements();
    }

    method ContainerTimeoutSet(k: Kernel)
      modifies this, k
      ensures (View(), k.w) == TimeoutSet(old(View()), old(k.w))
    {
      var now := k.GetCurrentTimeMs();
      deadline := now + timeout;
    }

    // ---- disks ---------------------------------------------------------------------------

    method MountRootfs(k: Kernel) returns (ok: bool)
      modifies this, k
      ensures var r := MountRoot(old(root), side, old(k.w));
              ok == r.0 && View() == old(View()).(root := r.1) && k.w == r.2
    {
      if root.mounted {
        return true;
      }
      var ret, st := -3, root.stack;
      match root.kind {
        case BlockDevice => ret, st := MountDiskAb(root.devs, side, root.stack, k);
        case HostRootFs => ret, st := MountDiskBind(root.devs.At(0), root.readOnly, root.stack, k);
        case OtherRoot =>
      }
      BindExact(root.devs.At(0), root.readOnly, root.stack, old(k.w));
      if ret < 0 {
        var left: nat := if root.kind.HostRootFs? && |st| > |root.stack| then 1 else 0;
        root := root.(errors := root.errors + 1, stack := st, leaks := root.leaks + left);
        return false;
      }
      root := root.(mounted := true, errors := 0, stack := st);
      ok := true;
    }

    method MountExtradisk(d: Disk, k: Kernel) returns (go: bool, d1: Disk)
      modifies k
      ensures (go, d1, k.w) == MountExtra(d, side, old(k.w))
    {
      if d.mounted {
        return true, d;
      }
      var ret, st;
      match d.kind {
        case AB => ret, st := MountDiskAb(d.devs, side, d.stack, k);
        case Failover => ret, st := MountDiskFailover(d.devs, d.stack, k);
        case _ => ret, st := MountDiskOnce(d.devs, d.stack, k);
      }
      if ret < 0 {
        return d.kind.Failover?, d.(errors := d.errors + 1, stack := st);
      }
      go, d1 := true, d.(mounted := true, errors := 0, stack := st);
    }

    method MountExtradisks(k: Kernel) returns (ok: bool)
      modifies this`extra, k
      ensures (ok, extra, k.w) == MountExtrasFrom(old(extra), 0, side, old(k.w))
    {
      var i := 0;
      while i < |extra|
        invariant i <= |extra|
        invariant MountExtrasFrom(extra, i, side, k.w) == MountExtrasFrom(old(extra), 0, side, old(k.w))
      {
        var go, d := MountExtradisk(extra[i], k);
        extra := extra[i := d];
        if !go {
          return false;
        }
        i := i + 1;
      }
      ok := true;
    }

    method StartPreprocessBase(k: Kernel) returns (ok: bool)
      modifies this, k
      ensures (ok, View(), k.w) == Preprocess(old(View()), old(k.w))
    {
      ok := MountRootfs(k);
      if ok {
        ok := MountExtradisks(k);
      }
    }

    method StartPreprocessRecovery(k: Kernel)
      modifies queue, k
      ensures View() == old(View()).(queue := queue.View())
      ensures (queue.View(), k.w) == RecoverFrom(extra, 0, old(queue.View()), old(k.w))
    {
      var i := 0;
      while i < |extra|
        invariant i <= |extra|
        invariant RecoverFrom(extra, i, queue.View(), k.w) == RecoverFrom(extra, 0, old(queue.View()), old(k.w))
      {
        var d := extra[i];
        if !d.mounted && d.errors > 0 {
          if |d.devs.At(0)| + 7 >= 1023 {
            return;
          }
          if d.kind.Fsck? || d.kind.Mkfs? {
            var ret := queue.ScheduleJob(if d.kind.Fsck? then "fsck" else "mkfs", "device=" + d.devs.At(0), 1, k);
            if ret == 0 {
              return;
            }
          }
        }
        i := i + 1;
      }
    }

    method CleanupPreprocessBase(timeoutMs: nat, k: Kernel)
      modifies this, k
      ensures var (now, w1) := Now(old(k.w));
              var tries := timeoutMs / 50 + 1;
              var (extra1, w2) := UnmountExtrasFrom(old(extra), 0, now + timeoutMs, tries, w1);
              var (root1, w3) := UnmountRoot(old(root), now + timeoutMs, tries, w2);
              View() == old(View()).(extra := extra1, root := root1) && k.w == w3
    {
      var now := k.GetCurrentTimeMs();
      var deadline1, retryMax := now + timeoutMs, timeoutMs / 50 + 1;
      var i := 0;
      ghost var w := k.w;
      while i < |extra|
        invariant i <= |extra| == |old(extra)|
        invariant View() == old(View()).(extra := extra)
        invariant UnmountExtrasFrom(extra, i, deadline1, retryMax, k.w) == UnmountExtrasFrom(old(extra), 0, deadline1, retryMax, w)
      {
        if extra[i].mounted {
          var st := UnmountDiskLoop(extra[i].stack, deadline1, retryMax, k);
          extra := extra[i := extra[i].(mounted := false, errors := 0, stack := st)];
        }
        i := i + 1;
      }
      if root.mounted {
        var st := UnmountDiskLoop(root.stack, deadline1, retryMax, k);
        root := root.(mounted := false, errors := 0, stack := st);
      }
    }

    method ContainerCleanup(timeoutMs: nat, k: Kernel)
      modifies this, k
      ensures (View(), k.w) == Cleanup(old(View()), old(k.w), timeoutMs)
    {
      ContainerTerminate();
      runtime := [];
      CleanupPreprocessBase(timeoutMs, k);
    }

    // ---- launching --------------------------------------------------------------------------

    method ContainerLaunch(k: Kernel) returns (ret: int)
      modifies this, k
      ensures Result(ret, View(), k.w) == Launch(old(View()), old(k.w))
    {
      var created := k.CallOk();
      if !created {
        ReleaseInstance();
        status := Dead;
        return -1;
      }
      lxc, handles := true, handles + 1;
      var started := k.CallOk();
      if !started {
        ReleaseInstance();
        status := Dead;
        return -2;
      }
      status := Started;
      ret := 0;
    }

    /** The run-time list as a list of positions; DelayedRings has the rings it stands for. */
    method SetupDelayedOperation()
      modifies this`runtime, this`delivered
      ensures runtime == AllPositions(|entries|) && delivered == []
    {
      runtime, delivered := [], [];
      for i := 0 to |entries|
        invariant runtime == AllPositions(i) && delivered == []
      {
        runtime := runtime + [i];
      }
    }

    method ContainerStart(k: Kernel) returns (ret: int)
      modifies this, queue, k
      ensures Result(ret, View(), k.w) == Start(old(View()), old(k.w))
    {
      if status.Disable? {
        return -2;
      }
      var ready := StartPreprocessBase(k);
      if !ready {
        StartPreprocessRecovery(k);
        return -1;
      }
      SetupDelayedOperation();
      ret := ContainerLaunch(k);
      if ret < 0 {
        if ret == -2 {
          launchErrors := launchErrors + 1;
        }
        return -1;
      }
      launchErrors := 0;
    }

    // ---- requests and events -------------------------------------------------------------------

    method LxcShutdown(k: Kernel) returns (ok: bool)
      modifies k
      ensures (ok, k.w) == AskStop(lxc, old(k.w))
    {
      ok := false;
      if lxc {
        ok := k.CallOk();
      }
    }

    method SendStop(wanted: Status, fallback: Status, k: Kernel)
      modifies this, k
      ensures (View(), k.w) == StopGuest(old(View()), old(k.w), wanted, fallback)
    {
      hide Terminate, TimeoutSet, AskStop;
      ghost var g := View();
      var ok := LxcShutdown(k);
      if ok {
        ghost var w := k.w;
        ContainerTimeoutSet(k);
        assert (View(), k.w) == TimeoutSet(g, w);
        status := wanted;
        assert View() == TimeoutSet(g, w).0.(status := wanted);
      } else {
        ContainerTerminate();
        assert View() == Terminate(g);
        status := fallback;
        assert View() == Terminate(g).(status := fallback);
      }
    }

    method CancelRunningWorker(k: Kernel)
      modifies this, k
      ensures (View(), k.w) == CancelWorker(old(View()), old(k.w))
    {
      var ret := queue.CancelJob(k);
      ContainerTimeoutSet(k);
    }

    method ContainerRequestShutdown(k: Kernel, sys: SysState) returns (ret: int)
      modifies this, k
      ensures Result(ret, View(), k.w) == RequestShutdown(old(View()), old(k.w), sys)
    {
      ret := 0;
      if sys.Run? {
        if status.Started? {
          SendStop(Shutdown, NotStarted, k);
        } else if status.Dead? {
          status := NotStarted;
        } else if status.Exit? {
          ret := -1;
        }
      } else {
        if status.NotStarted? || status.Dead? {
          status := Exit;
        } else if status.Started? {
          SendStop(Shutdown, Exit, k);
        } else if status.Reboot? {
          status := Shutdown;
        } else if status.RunWorker? {
          CancelRunningWorker(k);
        }
      }
    }

    method ContainerRequestReboot(k: Kernel, sys: SysState) returns (ret: int)
      modifies this, k
      ensures Result(ret, View(), k.w) == RequestReboot(old(View()), old(k.w), sys)
    {
      ret := 0;
      if sys.Run? {
        if status.Started? {
          SendStop(Reboot, Dead, k);
        } else if status.Exit? {
          ret := -1;
        }
      } else {
        if status.NotStarted? || status.Dead? {
          status := Exit;
        } else if status.Started? {
          SendStop(Shutdown, Exit, k);
        } else if status.RunWorker? {
          CancelRunningWorker(k);
        }
      }
    }

    method ContainerExited(sys: SysState) returns (ret: int)
      modifies this
      ensures View() == Exited(old(View()), sys)
      ensures ret == if old(status).Disable? || (sys.Run? && old(status).Exit?) then -1 else 0
    {
      ret := 0;
      if sys.Run? {
        if status.Started? || status.Reboot? {
          status := Dead;
        } else if status.Shutdown? {
          status := NotStarted;
        } else if status.Exit? || status.Disable? {
          ret := -1;
        }
      } else if status.Disable? {
        ret := -1;
      } else {
        status := Exit;
      }
      ContainerTerminate();
    }

    // ---- parts of the cyclic pass -----------------------------------------------------------------

    method TimeoutTest(now: int, sys: SysState)
      modifies this
      ensures View() == KillOnTimeout(old(View()), now, sys)
    {
      if status.Shutdown? || status.Reboot? {
        if deadline < now {
          ContainerTerminate();
          status := if sys.Stop? then Exit else if status.Reboot? then Dead else NotStarted;
        }
      } else if sys.Stop? && status.RunWorker? {
        if deadline < now {
          status := Exit;
        }
      }
    }

    method DoDelayedOperation(k: Kernel)
      modifies this, k
      ensures (View(), k.w) == DoDelayed(old(View()), old(k.w))
    {
      if !status.Started? {
        return;
      }
      var i := 0;
      while i < |runtime|
        invariant i <= |runtime|
        invariant View() == old(View()).(runtime := runtime, delivered := delivered)
        invariant DeliverFrom(entries, runtime, i, delivered, lxc, k.w)
                  == DeliverFrom(entries, old(runtime), 0, old(delivered), lxc, old(k.w))
        decreases |runtime| - i
      {
        var e := runtime[i];
        if e >= |entries| || !entries[e].delayed {
          runtime := runtime[..i] + runtime[i + 1..];
        } else {
          var found := k.CallOk();
          var ok := false;
          if found && lxc {
            ok := k.CallOk();
          }
          if ok {
            runtime := runtime[..i] + runtime[i + 1..];
            delivered := delivered + [e];
          } else {
            i := i + 1;
          }
        }
      }
    }

    static method StatusClean(netifs: seq<N.Netif>) returns (cs: seq<N.Netif>)
      ensures cs == N.Clean(netifs)
    {
      cs := netifs;
      for j := 0 to |netifs|
        invariant |cs| == |netifs|
        invariant forall n :: 0 <= n < j ==> cs[n] == netifs[n].(available := false)
        invariant forall n :: j <= n < |cs| ==> cs[n] == netifs[n]
      {
        cs := cs[j := cs[j].(available := false)];
      }
    }

    static method DisableRemoved(netifs: seq<N.Netif>) returns (cs: seq<N.Netif>)
      ensures cs == N.DropStale(netifs)
    {
      cs := netifs;
      for j := 0 to |netifs|
        invariant |cs| == |netifs|
        invariant forall n :: 0 <= n < j ==> cs[n] == if netifs[n].available then netifs[n] else netifs[n].(ifindex := 0)
        invariant forall n :: j <= n < |cs| ==> cs[n] == netifs[n]
      {
        if !cs[j].available && cs[j].ifindex != 0 {
          cs := cs[j := cs[j].(ifindex := 0)];
        }
      }
    }

    method NetifUpdateGuest(links: seq<N.Link>, k: Kernel)
      modifies this, k
      ensures (View(), k.w) == UpdateNetif(old(View()), links, old(k.w))
    {
      if !status.Started? {
        return;
      }
      var cs := StatusClean(netifs);
      ghost var cs0 := cs;
      var i := 0;
      while i < |links|
        invariant i <= |links| && |cs| == |cs0|
        invariant View() == old(View())
        invariant N.ScanFrom(links, i, cs, lxc, k.w) == N.ScanFrom(links, 0, cs0, lxc, old(k.w))
      {
        if links[i].ifindex > 0 {
          var j := 0;
          ghost var cs1, w1 := cs, k.w;
          while j < |cs|
            invariant j <= |cs| == |cs1| && View() == old(View())
            invariant N.AttachFrom(links[i], cs, j, lxc, k.w) == N.AttachFrom(links[i], cs1, 0, lxc, w1)
          {
            var c := cs[j];
            if c.ifindex == 0 && links[i].name == c.name {
              var ok := false;
              if lxc {
                ok := k.CallOk();
              }
              c := if ok then c.(ifindex := links[i].ifindex, available := true) else c.(available := false);
            } else if c.ifindex == links[i].ifindex {
              c := c.(available := true);
            }
            cs := cs[j := c];
            j := j + 1;
          }
        }
        i := i + 1;
      }
      netifs := DisableRemoved(cs);
    }

    /** The active guest of its role is not started: unmount everything, then run a scheduled job. */
    method IdleActiveGuest(k: Kernel)
      modifies this, queue, k
      ensures (View(), k.w) == IdleActive(old(View()), old(k.w))
    {
      ContainerCleanup(200, k);
      if queue.status.Scheduled? {
        var ret := queue.RunJob(k);
        if ret == 0 {
          status := RunWorker;
        } else if ret == -2 || ret == -3 {
          ret := queue.CancelJob(k);
          if ret <= 0 {
            var after;
            ret, after := queue.RemoveJob(k);
            status := if after == 1 then Dead else NotStarted;
          }
        }
      }
    }

    method PollRunningWorker(k: Kernel)
      modifies this, queue, k
      ensures (View(), k.w) == PollWorker(old(View()), old(k.w))
    {
      if queue.status.Completed? {
        var ret, after := queue.CleanupJob(k);
        if ret == 0 {
          status := if after == 1 then Dead else NotStarted;
        }
      }
    }

    method DrainRunningWorker(k: Kernel)
      modifies this, queue, k
      ensures (View(), k.w) == DrainWorker(old(View()), old(k.w))
    {
      if status.RunWorker? {
        var ret, after := queue.CleanupJob(k);
        if ret == 0 {
          status := Exit;
        } else {
          ret := queue.CancelJob(k);
        }
      }
    }
  }
}
