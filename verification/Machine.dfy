/** The container manager as it runs: one object graph, updated in place by every event, refining Lifecycle. */
module Machine {
  import opened Host
  import opened Guest
  import opened Container
  import L = Lifecycle
  import S = LifecycleSafety
  import P = LifecycleProperties
  import R = Roles
  import N = NetIf
  import Q = WorkQueue
  import B = CmdLine

  ghost function Slots(cs: seq<ContainerConfig>): set<Q.Slot> {
    set c | c in cs :: c.queue
  }

  /** The records of the containers, in order. */
  ghost function Views(cs: seq<ContainerConfig>): (r: seq<Guest>)
    reads cs, Slots(cs)
    ensures |r| == |cs| && forall i :: 0 <= i < |cs| ==> r[i] == cs[i].View()
  {
    if cs == [] then [] else [cs[0].View()] + Views(cs[1..])
  }

  /** All guests booting from one side. */
  ghost function Sided(gs: seq<Guest>, side: int): (r: seq<Guest>)
    ensures |r| == |gs| && forall i :: 0 <= i < |gs| ==> r[i] == gs[i].(side := side)
  {
    seq(|gs|, i requires 0 <= i < |gs| => gs[i].(side := side))
  }

  class Containers {
    const containers: seq<ContainerConfig>
    const cfgs: seq<R.Config>
    const roleTable: R.RoleTable
    const linkTable: N.LinkTable
    const k: Kernel
    var sysState: SysState

    ghost function View(): (s: L.State)
      reads this, k, roleTable, linkTable, containers, Slots(containers)
      ensures |s.guests| == |containers|
    {
      L.State(Views(containers), cfgs, roleTable.roles, sysState, linkTable.links, k.w)
    }

    /** No two containers share a record or a queue; role lists name existing containers. */
    ghost predicate Valid()
      reads this, roleTable
    {
      && (forall i, j :: 0 <= i < j < |containers| ==>
            containers[i] != containers[j] && containers[i].queue != containers[j].queue)
      && |cfgs| == |containers| && R.Bound(cfgs, roleTable.roles)
      && (forall i :: 0 <= i < |cfgs| ==> cfgs[i].name == containers[i].name && cfgs[i].role == containers[i].role)
    }

    /** Binds the containers to their roles; they are in boot-priority order already. */
    constructor (containers: seq<ContainerConfig>, cfgs: seq<R.Config>, k: Kernel)
      requires forall i, j :: 0 <= i < j < |containers| ==>
                 containers[i] != containers[j] && containers[i].queue != containers[j].queue
      requires |cfgs| == |containers|
      requires forall i :: 0 <= i < |cfgs| ==> cfgs[i].name == containers[i].name && cfgs[i].role == containers[i].role
      ensures Valid() && this.containers == containers && this.cfgs == cfgs && this.k == k
      ensures View() == L.State(Views(containers), cfgs, R.Bind(cfgs, |cfgs|), Run, [], k.w)
    {
      this.containers, this.cfgs, this.k := containers, cfgs, k;
      roleTable := new R.RoleTable();
      linkTable := new N.LinkTable();
      sysState := Run;
      new;
      roleTable.BindContainers(cfgs);
      R.BindIsBound(cfgs);
    }

    /** container_mngsm_ab_boot_setup: the kernel command line tells every guest which side to boot from. */
    method AbBootSetup(cmdline: array<char>, erange: bool)
      requires Valid()
      modifies cmdline, containers
      ensures View() == old(View()).(guests := Sided(old(View()).guests, B.Side(old(cmdline[..]))))
    {
      hide Views, R.Bound, B.Side;
      var value := B.AbBootSide(cmdline, erange);
      ghost var before := old(View());
      assert View() == before;
      var i := 0;
      while i < |containers|
        invariant i <= |containers|
        invariant View() == before.(guests := View().guests)
        invariant forall j :: 0 <= j < i ==> View().guests[j] == before.guests[j].(side := value)
        invariant forall j :: i <= j < |containers| ==> View().guests[j] == before.guests[j]
      {
        SideAt(i, value);
        i := i + 1;
      }
      assert View().guests == Sided(before.guests, value);
    }

    method SideAt(i: nat, side: int)
      requires Valid() && i < |containers|
      modifies containers[i]
      ensures View() == L.Put(old(View()), i, old(View()).guests[i].(side := side), old(View()).w)
    {
      containers[i].side := side;
      Updated(i);
    }

    /** Only container `i` and the world changed since the old state. */
    twostate lemma Updated(i: nat)
      requires old(Valid()) && i < |containers|
      requires forall j :: 0 <= j < |containers| && j != i ==>
                 unchanged(containers[j]) && unchanged(containers[j].queue)
      requires unchanged(this) && unchanged(roleTable) && unchanged(linkTable)
      ensures View() == L.Put(old(View()), i, containers[i].View(), k.w)
    {
      assert Views(containers) == old(Views(containers))[i := containers[i].View()];
    }

    // ---- one container at a time ----------------------------------------------------------------

    method StartAt(i: nat)
      requires Valid() && i < |containers|
      modifies k, containers[i], containers[i].queue
      ensures var r := Start(old(View()).guests[i], old(View()).w); View() == L.Put(old(View()), i, r.g, r.w)
    {
      hide Start;
      var ret := containers[i].ContainerStart(k);
      Updated(i);
    }

    /** Enables a container and launches it. */
    method EnableAt(i: nat)
      requires Valid() && i < |containers|
      modifies k, containers[i], containers[i].queue
      ensures var r := Start(old(View()).guests[i].(status := NotStarted), old(View()).w);
              View() == L.Put(old(View()), i, r.g, r.w)
    {
      hide Start;
      containers[i].status := NotStarted;
      var ret := containers[i].ContainerStart(k);
      Updated(i);
    }

    method DisableAt(i: nat)
      requires Valid() && i < |containers|
      modifies k, containers[i], containers[i].queue
      ensures var (g, w) := Cleanup(old(View()).guests[i].(status := Disable), old(View()).w, 0);
              View() == L.Put(old(View()), i, g, w)
    {
      hide Cleanup;
      containers[i].status := Disable;
      containers[i].ContainerCleanup(0, k);
      Updated(i);
    }

    method CleanupAt(i: nat)
      requires Valid() && i < |containers|
      modifies k, containers[i], containers[i].queue
      ensures var (g, w) := Cleanup(old(View()).guests[i], old(View()).w, 500); View() == L.Put(old(View()), i, g, w)
    {
      hide Cleanup;
      containers[i].ContainerCleanup(500, k);
      Updated(i);
    }

    method IdleAt(i: nat)
      requires Valid() && i < |containers|
      modifies k, containers[i], containers[i].queue
      ensures var (g, w) := IdleActive(old(View()).guests[i], old(View()).w); View() == L.Put(old(View()), i, g, w)
    {
      hide IdleActive;
      containers[i].IdleActiveGuest(k);
      Updated(i);
    }

    method PollAt(i: nat)
      requires Valid() && i < |containers|
      modifies k, containers[i], containers[i].queue
      ensures var (g, w) := PollWorker(old(View()).guests[i], old(View()).w); View() == L.Put(old(View()), i, g, w)
    {
      hide PollWorker;
      containers[i].PollRunningWorker(k);
      Updated(i);
    }

    method DelayedAt(i: nat)
      requires Valid() && i < |containers|
      modifies k, containers[i]
      ensures var (g, w) := DoDelayed(old(View()).guests[i], old(View()).w); View() == L.Put(old(View()), i, g, w)
    {
      hide DoDelayed;
      containers[i].DoDelayedOperation(k);
      Updated(i);
    }

    method DrainAt(i: nat) returns (gone: bool)
      requires Valid() && i < |containers|
      modifies k, containers[i], containers[i].queue
      ensures var (g, w) := DrainWorker(old(View()).guests[i], old(View()).w); View() == L.Put(old(View()), i, g, w)
      ensures gone == L.Gone(old(View()).guests[i])
    {
      hide DrainWorker;
      gone := containers[i].status.Exit? || containers[i].status.Disable?;
      containers[i].DrainRunningWorker(k);
      Updated(i);
    }

    method TimeoutAt(i: nat, now: int)
      requires Valid() && i < |containers|
      modifies containers[i]
      ensures View() == L.Put(old(View()), i, KillOnTimeout(old(View()).guests[i], now, View().sys), old(View()).w)
    {
      hide KillOnTimeout;
      containers[i].TimeoutTest(now, sysState);
      Updated(i);
    }

    method NetifAt(i: nat)
      requires Valid() && i < |containers|
      modifies k, containers[i]
      ensures var (g, w) := UpdateNetif(old(View()).guests[i], View().links, old(View()).w);
              View() == L.Put(old(View()), i, g, w)
    {
      hide UpdateNetif;
      containers[i].NetifUpdateGuest(linkTable.links, k);
      Updated(i);
    }

    method ShutdownAt(i: nat) returns (ret: int)
      requires Valid() && i < |containers|
      modifies k, containers[i]
      ensures var r := RequestShutdown(old(View()).guests[i], old(View()).w, View().sys);
              ret == r.ret && View() == L.Put(old(View()), i, r.g, r.w)
    {
      hide RequestShutdown;
      ret := containers[i].ContainerRequestShutdown(k, sysState);
      Updated(i);
    }

    method RebootAt(i: nat) returns (ret: int)
      requires Valid() && i < |containers|
      modifies k, containers[i]
      ensures var r := RequestReboot(old(View()).guests[i], old(View()).w, View().sys);
              ret == r.ret && View() == L.Put(old(View()), i, r.g, r.w)
    {
      hide RequestReboot;
      ret := containers[i].ContainerRequestReboot(k, sysState);
      Updated(i);
    }

    // ---- the cyclic pass --------------------------------------------------------------------

    method SwitchContainers(i: nat, a: nat)
      requires Valid() && i < |containers| && a < |containers|
      modifies k, containers, Slots(containers)
      ensures View() == L.Switch(old(View()), i, a)
    {
      hide Start, Cleanup, R.Bound, Views;
      assert containers[i].View() == View().guests[i];
      DisableAt(i);
      assert containers[a].View() == View().guests[a];
      EnableAt(a);
    }

    /** A guest that has stopped hands over to its role's active guest, or goes on itself. */
    method VisitNotStarted(i: nat)
      requires Valid() && i < |containers| && View().guests[i].status.NotStarted?
      modifies k, containers, Slots(containers)
      ensures View() == L.Visit(old(View()), i)
    {
      hide Start, L.Switch, IdleActive, PollWorker, R.Bound, Views;
      var cc := containers[i];
      assert cc.View() == View().guests[i];
      var active := roleTable.GetActiveGuest(cc.role);
      if active.Some? {
        R.ActiveHasRole(cfgs, roleTable.roles, cc.role);
        if active.value != i {
          SwitchContainers(i, active.value);
        } else {
          IdleAt(i);
        }
      }
    }

    method VisitContainer(i: nat)
      requires Valid() && i < |containers|
      modifies k, containers, Slots(containers)
      ensures View() == L.Visit(old(View()), i)
    {
      hide Start, L.Switch, IdleActive, PollWorker, R.Bound, Views;
      var cc := containers[i];
      assert cc.View() == View().guests[i];
      if cc.status.Dead? {
        StartAt(i);
      } else if cc.status.NotStarted? {
        VisitNotStarted(i);
      } else if cc.status.RunWorker? {
        PollAt(i);
      }
    }

    method RelaunchLoop()
      requires Valid()
      modifies k, containers, Slots(containers)
      ensures View() == L.VisitFrom(old(View()), 0)
    {
      hide View, L.Visit, R.Bound;
      var i := 0;
      while i < |containers|
        invariant i <= |containers| && Valid()
        invariant L.VisitFrom(View(), i) == L.VisitFrom(old(View()), 0)
      {
        VisitContainer(i);
        i := i + 1;
      }
    }

    method TimeoutLoop(now: int)
      requires Valid()
      modifies containers, Slots(containers)
      ensures View() == old(View()).(guests := L.KillAll(old(View()).guests, now, old(View()).sys))
    {
      hide View, KillOnTimeout, R.Bound;
      ghost var before := View();
      var i := 0;
      while i < |containers|
        invariant i <= |containers|
        invariant View() == before.(guests := View().guests)
        invariant forall j :: 0 <= j < i ==> View().guests[j] == KillOnTimeout(before.guests[j], now, before.sys)
        invariant forall j :: i <= j < |containers| ==> View().guests[j] == before.guests[j]
      {
        TimeoutAt(i, now);
        i := i + 1;
      }
      assert View().guests == L.KillAll(before.guests, now, before.sys);
    }

    method DelayedLoop()
      requires Valid()
      modifies k, containers, Slots(containers)
      ensures View() == L.DelayedFrom(old(View()), 0)
    {
      hide View, DoDelayed, R.Bound;
      var i := 0;
      while i < |containers|
        invariant i <= |containers|
        invariant L.DelayedFrom(View(), i) == L.DelayedFrom(old(View()), 0)
      {
        DelayedAt(i);
        i := i + 1;
      }
    }

    /** Drains the workers; `gone` says whether every guest had exited or was disabled. */
    method DrainLoop() returns (gone: bool)
      requires Valid()
      modifies k, containers, Slots(containers)
      ensures View() == L.DrainFrom(old(View()), 0)
      ensures gone == L.AllGone(old(View()).guests)
    {
      hide View, DrainWorker, R.Bound, L.Gone;
      ghost var before := View();
      var exitCount := 0;
      var i := 0;
      while i < |containers|
        invariant 0 <= exitCount <= i <= |containers|
        invariant L.DrainFrom(View(), i) == L.DrainFrom(before, 0)
        invariant forall j :: i <= j < |containers| ==> View().guests[j] == before.guests[j]
        invariant exitCount == i <==> forall j :: 0 <= j < i ==> L.Gone(before.guests[j])
      {
        var exited := DrainAt(i);
        if exited {
          exitCount := exitCount + 1;
        }
        i := i + 1;
      }
      gone := exitCount == |containers|;
    }

    method RunPass()
      requires Valid() && sysState.Run?
      modifies k, containers, Slots(containers)
      ensures View() == L.RunPass(old(View()))
    {
      hide Views, R.Bound, L.VisitFrom, L.DelayedFrom, L.KillAll;
      var now := k.GetCurrentTimeMs();
      RelaunchLoop();
      TimeoutLoop(now);
      DelayedLoop();
    }

    method StopPass() returns (gone: bool)
      requires Valid() && sysState.Stop?
      modifies k, containers, Slots(containers)
      ensures View() == L.StopPass(old(View())) && gone == L.AllGone(old(View()).guests)
    {
      hide Views, R.Bound, L.DrainFrom, L.KillAll, L.AllGone;
      var now := k.GetCurrentTimeMs();
      gone := DrainLoop();
      if !gone {
        TimeoutLoop(now);
      }
    }

    method ExecInternalEvent() returns (tail: L.Tail)
      requires Valid()
      modifies k, containers, Slots(containers)
      ensures View() == L.InternalEvent(old(View()))
      ensures tail == L.TailOf(old(View()))
    {
      hide L.RunPass, L.StopPass;
      if sysState.Run? {
        RunPass();
        tail := L.PollTail;
      } else {
        var gone := StopPass();
        tail := if gone then L.TerminateTail else L.NoTail;
      }
    }

    // ---- events ----------------------------------------------------------------------------------

    method NetifUpdated()
      requires Valid()
      modifies k, containers, Slots(containers)
      ensures View() == L.NetifFrom(old(View()), 0)
    {
      hide View, UpdateNetif, R.Bound;
      var i := 0;
      while i < |containers|
        invariant i <= |containers|
        invariant L.NetifFrom(View(), i) == L.NetifFrom(old(View()), 0)
      {
        NetifAt(i);
        i := i + 1;
      }
    }

    method GuestExited(number: int)
      requires Valid()
      modifies containers, Slots(containers)
      ensures View() == L.GuestExited(old(View()), number)
    {
      if 0 <= number < |containers| {
        var ret := containers[number].ContainerExited(sysState);
        Updated(number);
      }
    }

    method ShutdownLoop()
      requires Valid()
      modifies k, containers, Slots(containers)
      ensures View() == L.ShutdownFrom(old(View()), 0)
    {
      hide View, RequestShutdown, R.Bound;
      var i := 0;
      while i < |containers|
        invariant i <= |containers|
        invariant L.ShutdownFrom(View(), i) == L.ShutdownFrom(old(View()), 0)
      {
        var ret := ShutdownAt(i);
        i := i + 1;
      }
    }

    method ManagerShutdown()
      requires Valid()
      modifies this`sysState, k, containers, Slots(containers)
      ensures View() == L.ManagerShutdown(old(View()))
    {
      hide Views, L.ShutdownFrom, R.Bound;
      sysState := Stop;
      ShutdownLoop();
    }

    lemma Shown(i: nat)
      requires i < |containers|
      ensures containers[i].View() == View().guests[i] && View().sys == sysState && View().roles == roleTable.roles
      ensures View().guests[i].name == containers[i].name && View().guests[i].role == containers[i].role
      ensures View().guests[i].status == containers[i].status
    {}

    /** Reboot and shutdown of guests addressed by name or by role. */
    method StopGuests(name: string, byRole: bool, reboot: bool) returns (accepted: bool)
      requires Valid()
      modifies k, containers, Slots(containers)
      ensures (View(), accepted) == L.CommandFrom(old(View()), 0, name, byRole, reboot, false)
    {
      hide View, RequestShutdown, RequestReboot, R.Bound;
      accepted := false;
      var i := 0;
      while i < |containers|
        invariant i <= |containers|
        invariant L.CommandFrom(View(), i, name, byRole, reboot, accepted) == L.CommandFrom(old(View()), 0, name, byRole, reboot, false)
      {
        var cc := containers[i];
        Shown(i);
        if (if byRole then cc.status.Started? && cc.role <= name else cc.name <= name) {
          var ret;
          if reboot {
            ret := RebootAt(i);
          } else {
            ret := ShutdownAt(i);
          }
          accepted := accepted || ret == 0;
        }
        i := i + 1;
      }
    }

    method CommandTest(code: int)
      requires Valid()
      modifies k, containers, Slots(containers)
      ensures View() == L.TestTrigger(old(View()), code)
    {
      var target := 0;
      while target < |containers| && containers[target].name != L.TEST_GUEST
        invariant target <= |containers| && R.Named(cfgs, L.TEST_GUEST, 0) == R.Named(cfgs, L.TEST_GUEST, target)
      {
        target := target + 1;
      }
      hide Views, R.Bound, Q.Schedule;
      if 0 < target < |containers| && (code == 0 || code == 1) {
        ScheduleAt(target, if code == 0 then "fsck" else "erase");
      } else if 0 < target < |containers| && code == 2 && containers[target].status.Started? {
        TryMountAt(target);
      }
    }

    method ScheduleAt(i: nat, key: string)
      requires Valid() && i < |containers|
      modifies k, containers[i].queue
      ensures var g := old(View()).guests[i]; var r := Q.Schedule(g.queue, key, L.TEST_DEVICE, 1, old(View()).w);
              View() == L.Put(old(View()), i, g.(queue := r.q), r.w)
    {
      hide Q.Schedule;
      var ret := containers[i].queue.ScheduleJob(key, L.TEST_DEVICE, 1, k);
      Updated(i);
    }

    method TryMountAt(i: nat)
      requires Valid() && i < |containers|
      modifies k
      ensures View() == L.Put(old(View()), i, old(View()).guests[i], Try(old(View()).w).1)
    {
      var mounted := k.CallOk();
      Updated(i);
    }

    method WorkerThreadEnds(n: nat, ret: int)
      requires Valid()
      modifies Slots(containers)
      ensures View() == L.WorkerEnds(old(View()), n, ret)
    {
      if n < |containers| && containers[n].queue.status.Started? {
        containers[n].queue.ThreadExit(ret);
        Updated(n);
      }
    }

    /** What the event itself does. */
    method Receive(e: L.Event)
      requires Valid()
      modifies this, k, roleTable, linkTable, containers, Slots(containers)
      ensures Valid() && View() == L.Handled(old(View()), e)
    {
      hide Views, R.Bound, R.Change, N.Received, L.NetifFrom, L.GuestExited, L.ManagerShutdown;
      hide L.CommandFrom, L.TestTrigger, L.WorkerEnds;
      match e {
        case NetifUpdated => NetifUpdated();
        case GuestExit(number) => GuestExited(number);
        case SystemShutdown => ManagerShutdown();
        case TimerTick =>
        case OtherCommand =>
        case ShutdownCommand(name, byRole) => var accepted := StopGuests(name, byRole, false);
        case RebootCommand(name, byRole) => var accepted := StopGuests(name, byRole, true);
        case ChangeCommand(name) =>
          R.ChangeKeepsBound(cfgs, roleTable.roles, name);
          var response := roleTable.CommandChange(cfgs, name);
        case TestCommand(code) => CommandTest(code);
        case LinkMessage(kind, ifindex, ifname) => linkTable.DataCb(kind, ifindex, ifname);
        case WorkerFinished(n, ret) => WorkerThreadEnds(n, ret);
      }
    }

    /** One event, whatever its source, and what its pass goes on with. */
    method Handle(e: L.Event) returns (tail: L.Tail)
      requires Valid()
      modifies this, k, roleTable, linkTable, containers, Slots(containers)
      ensures Valid() && View() == L.Step(old(View()), e)
      ensures tail == if L.Internal(e) then L.TailOf(L.Handled(old(View()), e)) else L.NoTail
    {
      hide Views, R.Bound, L.InternalEvent, L.Handled, L.TailOf;
      Receive(e);
      tail := L.NoTail;
      if e.NetifUpdated? || e.GuestExit? || e.SystemShutdown? || e.TimerTick? || e.OtherCommand? {
        tail := ExecInternalEvent();
      }
    }

    method StartRole(role: string)
      requires Valid()
      modifies k, containers, Slots(containers)
      ensures View() == L.StartByRole(old(View()), role)
    {
      hide Views, Start, R.Bound;
      var active := roleTable.GetActiveGuest(role);
      if active.Some? {
        R.ActiveHasRole(cfgs, roleTable.roles, role);
        assert containers[active.value].View() == View().guests[active.value];
        EnableAt(active.value);
      }
    }

    /** Start-up: launch the active guest of every role. */
    method StartMachine()
      requires Valid()
      modifies k, containers, Slots(containers)
      ensures View() == L.StartRolesFrom(old(View()), 0)
    {
      RolesShown();
      hide View, L.StartByRole, R.Bound;
      var r := 0;
      while r < |roleTable.roles|
        invariant r <= |roleTable.roles| && View().roles == roleTable.roles
        invariant L.StartRolesFrom(View(), r) == L.StartRolesFrom(old(View()), 0)
      {
        StartRole(roleTable.roles[r].name);
        r := r + 1;
      }
    }

    lemma RolesShown()
      ensures View().roles == roleTable.roles
    {}

    /** After the event loop. */
    method TerminateMachine()
      requires Valid()
      modifies k, containers, Slots(containers)
      ensures View() == L.TerminateFrom(old(View()), 0)
    {
      hide View, Cleanup, R.Bound;
      var i := 0;
      while i < |containers|
        invariant i <= |containers|
        invariant L.TerminateFrom(View(), i) == L.TerminateFrom(old(View()), 0)
      {
        CleanupAt(i);
        i := i + 1;
      }
    }

    /** The manager's life: start up, then handle events as they come. */
    method Execute(events: seq<L.Event>)
      requires Valid()
      modifies this, k, roleTable, linkTable, containers, Slots(containers)
      ensures View() == L.Execution(old(View()), events)
      ensures L.Initial(old(View())) ==> S.Inv(View())
    {
      StartMachine();
      ghost var start := View();
      var i := 0;
      while i < |events|
        invariant i <= |events| && Valid()
        invariant L.Steps(View(), events[i..]) == L.Steps(start, events)
      {
        assert events[i..][1..] == events[i + 1..];
        var tail := Handle(events[i]);
        i := i + 1;
      }
      if L.Initial(old(View())) {
        P.ExecutionInv(old(View()), events);
      }
    }
  }
}
