/** What holds in every state of every execution of the container manager. */
module LifecycleProperties {
  import opened Host
  import opened MountTable
  import opened DelayedMounts
  import opened Guest
  import opened GuestSafety
  import opened Lifecycle
  import opened LifecycleSafety
  import R = Roles
  import N = NetIf
  import Q = WorkQueue

  // ---- start-up -----------------------------------------------------------------------------

  /** The roles before `r` are served; guests of the others are still disabled. */
  ghost predicate Booting(s: State, r: nat) {
    && r <= |s.roles| && s.sys.Run?
    && Aligned(s.guests, s.cfgs) && R.Bound(s.cfgs, s.roles) && AllSafe(s.guests, Run)
    && (forall i, j :: 0 <= i < j < |s.guests| && s.guests[i].role == s.guests[j].role ==>
          !Enabled(s.guests[i]) || !Enabled(s.guests[j]))
    && (forall i :: 0 <= i < |s.guests| && Enabled(s.guests[i]) ==>
          R.RoleAt(s.roles, s.guests[i].role, 0) < r && R.ActiveGuest(s.roles, s.guests[i].role).Some?)
    && (forall k :: 0 <= k < r && R.Head(s.roles[k].members).Some? ==> EnabledInRole(s.guests, s.roles[k].name))
  }

  lemma FreshIsSafe(g: Guest)
    requires Fresh(g)
    ensures Safe(g) && Mode(g, Run)
  {
  }

  lemma StartByRoleBoots(s: State, r: nat)
    requires Booting(s, r) && r < |s.roles|
    ensures Booting(StartByRole(s, s.roles[r].name), r + 1)
  {
    hide Safe, Mode, R.Bound, Start;
    var role := s.roles[r].name;
    var at := R.RoleAt(s.roles, role, 0);
    assert at == r by { DistinctPosition(s, r); }
    var a := R.ActiveGuest(s.roles, role);
    var s1 := StartByRole(s, role);
    if a.Some? {
      R.ActiveHasRole(s.cfgs, s.roles, role);
      assert s.guests[a.value].role == role;
      EnableSafe(s.guests[a.value], s.w);
      assert s1.guests[a.value].role == role && Enabled(s1.guests[a.value]);
      assert EnabledInRole(s1.guests, role);
    }
    forall k | 0 <= k < r + 1 && R.Head(s1.roles[k].members).Some? ensures EnabledInRole(s1.guests, s1.roles[k].name) {
      if k < r {
        assert EnabledInRole(s.guests, s.roles[k].name);
        var i :| 0 <= i < |s.guests| && s.guests[i].role == s.roles[k].name && Enabled(s.guests[i]);
        assert Enabled(s1.guests[i]) && s1.guests[i].role == s.roles[k].name;
      }
    }
  }

  lemma DistinctPosition(s: State, r: nat)
    requires R.Bound(s.cfgs, s.roles) && r < |s.roles|
    ensures R.RoleAt(s.roles, s.roles[r].name, 0) == r
  {
    var at := R.RoleAt(s.roles, s.roles[r].name, 0);
    assert s.roles[at].name == s.roles[r].name;
  }

  lemma {:induction false} StartRolesBoot(s: State, r: nat)
    requires r <= |s.roles| && Booting(s, r)
    ensures Booting(StartRolesFrom(s, r), |s.roles|)
    decreases |s.roles| - r
  {
    hide Booting, StartByRole;
    if r < |s.roles| {
      StartByRoleBoots(s, r);
      StartRolesBoot(StartByRole(s, s.roles[r].name), r + 1);
    }
  }

  lemma BootedInv(s: State)
    requires Booting(s, |s.roles|)
    ensures Inv(s)
  {
    hide Safe, Mode, R.Bound;
    forall role | R.ActiveGuest(s.roles, role).Some? ensures EnabledInRole(s.guests, role) {
      var k := R.RoleAt(s.roles, role, 0);
      assert s.roles[k].name == role;
    }
  }

  lemma InitialBooting(s0: State)
    requires Initial(s0)
    ensures Booting(s0, 0)
  {
    hide Safe, Mode;
    R.BindIsBound(s0.cfgs);
    forall i | 0 <= i < |s0.guests| ensures Safe(s0.guests[i]) && Mode(s0.guests[i], Run) {
      FreshIsSafe(s0.guests[i]);
    }
  }

  /** Every state of every execution satisfies the invariant. */
  lemma ExecutionInv(s0: State, events: seq<Event>)
    requires Initial(s0)
    ensures Inv(Execution(s0, events))
  {
    InitialBooting(s0);
    StartRolesBoot(s0, 0);
    hide *;
    BootedInv(StartRolesFrom(s0, 0));
    StepsKeep(StartRolesFrom(s0, 0), events);
  }

  // ---- one live guest per role -----------------------------------------------------------------

  lemma StepKeepsActive(s: State, e: Event, role: string)
    requires R.Bound(s.cfgs, s.roles)
    ensures R.ActiveGuest(Step(s, e).roles, role).Some? <==> R.ActiveGuest(s.roles, role).Some?
  {
    hide R.ActiveGuest, R.Bound, InternalEvent, NetifFrom, GuestExited, ManagerShutdown, CommandFrom, TestTrigger, WorkerEnds;
    if e.ChangeCommand? {
      R.ChangeKeepsBound(s.cfgs, s.roles, e.name);
    }
  }

  lemma {:induction false} StepsKeepActiveRoles(s: State, events: seq<Event>, role: string)
    requires Inv(s)
    ensures R.ActiveGuest(Steps(s, events).roles, role).Some? <==> R.ActiveGuest(s.roles, role).Some?
    decreases |events|
  {
    hide Step, R.ActiveGuest, AllSafe, OnePerRole, R.Bound;
    if events != [] {
      StepKeepsActive(s, events[0], role);
      StepKeeps(s, events[0]);
      StepsKeepActiveRoles(Step(s, events[0]), events[1..], role);
    }
  }

  /**
   In every state: a role has exactly one guest that is not disabled if an autoboot guest was configured
   for it at the head of its list, and none otherwise; commands never change which roles that are.
   */
  lemma OneGuestPerRole(s0: State, events: seq<Event>, role: string)
    requires Initial(s0)
    ensures var s := Execution(s0, events);
            && (forall i, j :: 0 <= i < j < |s.guests| && s.guests[i].role == s.guests[j].role == role ==>
                  s.guests[i].status.Disable? || s.guests[j].status.Disable?)
            && ((exists i :: 0 <= i < |s.guests| && s.guests[i].role == role && !s.guests[i].status.Disable?)
                <==> R.ActiveGuest(s0.roles, role).Some?)
  {
    hide Safe, Mode, R.Bound;
    ExecutionInv(s0, []);
    ExecutionInv(s0, events);
    StepsKeepActiveRoles(StartRolesFrom(s0, 0), events, role);
    var s := Execution(s0, events);
    assert R.ActiveGuest(s.roles, role).Some? ==> EnabledInRole(s.guests, role);
  }

  /**
   A disabled guest is only brought up by taking over: when an event enables guest `a`, some other
   guest of the same role was enabled before, and is now disabled, without instance and unmounted.
   */
  lemma OnlyTakesOver(s: State, e: Event, a: nat)
    requires Inv(s) && a < |s.guests|
    requires s.guests[a].status.Disable? && !Step(s, e).guests[a].status.Disable?
    ensures exists i :: 0 <= i < |s.guests| && i != a && s.guests[i].role == s.guests[a].role
                        && !s.guests[i].status.Disable? && Step(s, e).guests[i].status.Disable?
                        && !Step(s, e).guests[i].lxc && Bare(Step(s, e).guests[i])
  {
    hide Step, Mode, R.Bound, R.ActiveGuest;
    var s1 := Step(s, e);
    StepKeeps(s, e);
    StepKeepsActive(s, e, s.guests[a].role);
    assert Enabled(s1.guests[a]);
    assert R.ActiveGuest(s1.roles, s1.guests[a].role).Some?;
    assert EnabledInRole(s.guests, s.guests[a].role);
    var i :| 0 <= i < |s.guests| && s.guests[i].role == s.guests[a].role && Enabled(s.guests[i]);
    assert EventStep(s.guests[i], s1.guests[i], s, s1);
    assert !Enabled(s1.guests[i]) by { if i < a {} else {} }
    assert Safe(s1.guests[i]);
  }

  // ---- disks, workers, instances ------------------------------------------------------------------

  /**
   Nothing of the guest is mounted, but for what failed read-only bind mounts of its rootfs have left
   behind: as many mounts as there were such failures.
   */
  predicate Unmounted(g: Guest) {
    && !g.root.mounted && |g.root.stack| == g.root.leaks
    && (g.root.leaks > 0 ==> g.root.kind.HostRootFs? && g.root.readOnly)
    && forall i :: 0 <= i < |g.extra| ==> !g.extra[i].mounted && g.extra[i].stack == []
  }

  /** Repair tools run only on guests of which nothing is mounted, in either system state. */
  lemma RepairOnlyUnmounted(s0: State, events: seq<Event>, i: nat)
    requires Initial(s0) && i < |s0.guests|
    ensures var s := Execution(s0, events); var g := s.guests[i];
            && (g.queue.status.Started? ==> Unmounted(g))
            && (s.sys.Run? ==> (g.status.RunWorker? <==> g.queue.status.Started? || g.queue.status.Completed?))
            && (Q.HoldsJob(g.queue) ==> g.queue.plugin.Some?)
  {
    ExecutionInv(s0, events);
    assert Safe(Execution(s0, events).guests[i]);
  }

  ghost predicate AllSame(gs0: seq<Guest>, gs1: seq<Guest>) {
    |gs1| == |gs0| && forall i :: 0 <= i < |gs0| ==> SameGuest(gs0[i], gs1[i])
  }

  lemma AllSameTransitive(gs0: seq<Guest>, gs1: seq<Guest>, gs2: seq<Guest>)
    requires AllSame(gs0, gs1) && AllSame(gs1, gs2)
    ensures AllSame(gs0, gs2)
  {
    forall i | 0 <= i < |gs0| ensures SameGuest(gs0[i], gs2[i]) {
      assert SameGuest(gs0[i], gs1[i]) && SameGuest(gs1[i], gs2[i]);
    }
  }

  lemma AllSameReflexive(gs: seq<Guest>)
    ensures AllSame(gs, gs)
  {}

  lemma StartByRoleSame(s: State, r: nat)
    requires Booting(s, r) && r < |s.roles|
    ensures AllSame(s.guests, StartByRole(s, s.roles[r].name).guests)
  {
    hide Safe, Mode, R.Bound, Start, SameGuest;
    AllSameReflexive(s.guests);
    var role := s.roles[r].name;
    var a := R.ActiveGuest(s.roles, role);
    if a.Some? {
      assert R.RoleAt(s.roles, role, 0) == r by { DistinctPosition(s, r); }
      R.ActiveHasRole(s.cfgs, s.roles, role);
      assert s.guests[a.value].role == role;
      EnableSafe(s.guests[a.value], s.w);
    }
  }

  lemma {:induction false} StartRolesSame(s: State, r: nat)
    requires r <= |s.roles| && Booting(s, r)
    ensures AllSame(s.guests, StartRolesFrom(s, r).guests)
    decreases |s.roles| - r
  {
    hide Booting, StartByRole, AllSame;
    if r < |s.roles| {
      var s1 := StartByRole(s, s.roles[r].name);
      StartByRoleSame(s, r);
      StartByRoleBoots(s, r);
      StartRolesSame(s1, r + 1);
      AllSameTransitive(s.guests, s1.guests, StartRolesFrom(s, r).guests);
    } else {
      AllSameReflexive(s.guests);
    }
  }

  lemma {:induction false} StepsSame(s: State, events: seq<Event>)
    requires Inv(s)
    ensures AllSame(s.guests, Steps(s, events).guests)
    decreases |events|
  {
    hide Inv, Step, SameGuest, AllSame;
    if events != [] {
      var s1 := Step(s, events[0]);
      StepKeeps(s, events[0]);
      StepIsSame(s, s1);
      StepsSame(s1, events[1..]);
      AllSameTransitive(s.guests, s1.guests, Steps(s, events).guests);
    } else {
      AllSameReflexive(s.guests);
    }
  }

  lemma StepIsSame(s0: State, s1: State)
    requires |s0.guests| == |s1.guests| && forall i :: 0 <= i < |s0.guests| ==> EventStep(s0.guests[i], s1.guests[i], s0, s1)
    ensures AllSame(s0.guests, s1.guests)
  {
    hide SameGuest;
    assert forall i :: 0 <= i < |s0.guests| ==> EventStep(s0.guests[i], s1.guests[i], s0, s1) ==> SameGuest(s0.guests[i], s1.guests[i]);
  }

  /** No execution changes what a guest was configured with: its names, devices, kinds of disk, boot side and timeout. */
  lemma ExecutionSame(s0: State, events: seq<Event>)
    requires Initial(s0)
    ensures AllSame(s0.guests, Execution(s0, events).guests)
  {
    InitialBooting(s0);
    StartRolesSame(s0, 0);
    StartRolesBoot(s0, 0);
    hide Initial, Booting, StartRolesFrom, AllSame, Steps;
    BootedInv(StartRolesFrom(s0, 0));
    StepsSame(StartRolesFrom(s0, 0), events);
    AllSameTransitive(s0.guests, StartRolesFrom(s0, 0).guests, Execution(s0, events).guests);
  }

  /** A disk is mounted from its configured device: for A/B from the boot side, for failover from one of the two. */
  predicate MountedFrom(configured: Disk, side: int, st: Stack) {
    match configured.kind
    case AB => st == [configured.devs.At(side)]
    case Failover => st == [configured.devs.At(0)] || st == [configured.devs.At(1)]
    case _ => st == [configured.devs.At(0)]
  }

  /**
   A running guest has its disks, as they were configured and from the side the system booted from; only a failover
   disk may be missing.  A disabled guest has none mounted.
   */
  lemma RunningHasDisks(s0: State, events: seq<Event>, i: nat)
    requires Initial(s0) && i < |s0.guests|
    ensures var g0, g := s0.guests[i], Execution(s0, events).guests[i];
            && |g.extra| == |g0.extra|
            && (Live(g.status) ==>
                  && g.root.mounted
                  && (g.root.stack != [] && g.root.stack[|g.root.stack| - 1]
                                            == g0.root.devs.At(if g0.root.kind.BlockDevice? then g0.side else 0))
                  && forall k :: 0 <= k < |g0.extra| && !g0.extra[k].kind.Failover? ==> g.extra[k].mounted)
            && (g.status.Disable? ==> Unmounted(g))
            && forall k :: 0 <= k < |g0.extra| ==>
                 if g.extra[k].mounted then MountedFrom(g0.extra[k], g0.side, g.extra[k].stack) else g.extra[k].stack == []
  {
    ExecutionInv(s0, events);
    ExecutionSame(s0, events);
    var g0, g := s0.guests[i], Execution(s0, events).guests[i];
    assert Safe(g) && SameGuest(g0, g);
    forall k | 0 <= k < |g0.extra|
      ensures if g.extra[k].mounted then MountedFrom(g0.extra[k], g0.side, g.extra[k].stack) else g.extra[k].stack == []
      ensures Live(g.status) && !g0.extra[k].kind.Failover? ==> g.extra[k].mounted
    {
      assert DiskAgrees(g.extra[k], g.side);
    }
  }

  /**
   The record holds an LXC instance exactly while the guest runs or is being stopped, it is the only one
   open, and interfaces are assigned only meanwhile.
   */
  lemma InstanceExactlyWhileLive(s0: State, events: seq<Event>, i: nat)
    requires Initial(s0) && i < |s0.guests|
    ensures var s := Execution(s0, events); var g := s.guests[i];
            && (g.lxc <==> g.status.Started? || g.status.Reboot? || g.status.Shutdown?)
            && g.handles == (if g.lxc then 1 else 0)
            && (forall k :: 0 <= k < |g.netifs| && g.netifs[k].ifindex != 0 ==> g.lxc)
  {
    ExecutionInv(s0, events);
    var s := Execution(s0, events);
    assert Safe(s.guests[i]);
  }

  /** While a guest runs its delayed mounts are accounted for; with delayed entries only, the list is exact. */
  lemma DelayedMountsAccounted(s0: State, events: seq<Event>, i: nat)
    requires Initial(s0) && i < |s0.guests|
    ensures var g := Execution(s0, events).guests[i];
            && (g.lxc ==> Accounted(g.entries, g.runtime, g.delivered))
            && (g.lxc && (forall k :: 0 <= k < |g.entries| ==> g.entries[k].delayed) ==>
                  g.runtime == Remaining(|g.entries|, iset e: nat | e in g.delivered))
  {
    ExecutionInv(s0, events);
    var g := Execution(s0, events).guests[i];
    assert Safe(g);
    if g.lxc && (forall k :: 0 <= k < |g.entries| ==> g.entries[k].delayed) {
      RuntimeIsInitialMinusDelivered(g.entries, g.runtime, g.delivered);
    }
  }

  // ---- deadlines --------------------------------------------------------------------------------------

  /** Guest `i` is stopping after each of the events. */
  ghost predicate KeepsStopping(s: State, events: seq<Event>, i: nat)
    decreases |events|
  {
    && i < |s.guests| && Stopping(s.guests[i])
    && (events != [] ==> KeepsStopping(Step(s, events[0]), events[1..], i))
  }

  /** As long as a guest is stopping, no event moves its deadline. */
  lemma {:induction false} DeadlineFixed(s: State, events: seq<Event>, i: nat)
    requires Inv(s) && KeepsStopping(s, events, i)
    ensures Steps(s, events).guests[i].deadline == s.guests[i].deadline
    decreases |events|
  {
    hide Inv, Step;
    if events != [] {
      StepKeeps(s, events[0]);
      DeadlineFixed(Step(s, events[0]), events[1..], i);
    }
  }

  /** A guest starts stopping only when it was running, and its deadline is its timeout after the time of the request. */
  lemma DeadlineSetOnRequest(s: State, e: Event, i: nat)
    requires Inv(s) && i < |s.guests| && !Stopping(s.guests[i])
    ensures Stopping(Step(s, e).guests[i]) ==>
              s.guests[i].status.Started?
              && s.w.clock <= Step(s, e).guests[i].deadline - s.guests[i].timeout <= Step(s, e).w.clock
  {
    StepKeeps(s, e);
    assert EventStep(s.guests[i], Step(s, e).guests[i], s, Step(s, e));
  }

  /** The first pass after the deadline ends the stopping: a rebooting guest is dead, a stopping one not started. */
  lemma TimeoutEndsStopping(s: State, i: nat)
    requires Inv(s) && s.sys.Run? && i < |s.guests| && Stopping(s.guests[i])
    ensures var g := s.guests[i]; var g1 := Step(s, TimerTick).guests[i];
            && (g.deadline < Now(s.w).0 ==> g1.status == if g.status.Reboot? then Dead else NotStarted)
            && (g.deadline >= Now(s.w).0 ==> g1 == g)
  {
    var (now, w1) := Now(s.w);
    var s0 := s.(w := w1);
    hide Safe, Mode, R.Bound, OnePerRole, VisitFrom, DelayedFrom, Settles;
    VisitFromKeeps(s0, 0);
    var s1 := VisitFrom(s0, 0);
    var s2 := s1.(guests := KillAll(s1.guests, now, Run));
    KillAllKeeps(s1, now);
    DelayedFromKeeps(s2, 0);
    assert s1.guests[i] == s.guests[i];
    assert Stopping(s2.guests[i]) ==> DelayedFrom(s2, 0).guests[i] == s2.guests[i];
  }

  // ---- system shutdown -----------------------------------------------------------------------------------

  /**
   Once the system shuts down, guests are only exited, stopping, draining a worker or disabled; nothing
   is launched any more, and exited and disabled guests stay as they are.
   */
  lemma {:induction false} ShutdownOnlyDrains(s: State, events: seq<Event>, i: nat)
    requires Inv(s) && s.sys.Stop? && i < |s.guests|
    ensures var s1 := Steps(s, events);
            && s1.sys.Stop?
            && var g1 := s1.guests[i];
            && (g1.status.Exit? || g1.status.Shutdown? || g1.status.RunWorker? || g1.status.Disable?)
            && (s.guests[i].status.Exit? ==> g1.status.Exit?)
            && (s.guests[i].status.Disable? ==> g1.status.Disable?)
            && (!s.guests[i].lxc ==> !g1.lxc) && g1.handles <= s.guests[i].handles
    decreases |events|
  {
    assert Safe(s.guests[i]) && Mode(s.guests[i], Stop);
    if events != [] {
      StepKeeps(s, events[0]);
      var s1 := Step(s, events[0]);
      assert EventStep(s.guests[i], s1.guests[i], s, s1);
      assert Safe(s1.guests[i]);
      ShutdownOnlyDrains(s1, events[1..], i);
    }
  }

  lemma ShutdownEventStops(s: State)
    requires Inv(s)
    ensures Step(s, SystemShutdown).sys.Stop? && Inv(Step(s, SystemShutdown))
  {
    StepKeeps(s, SystemShutdown);
  }

  lemma TimeoutGone(g: Guest, now: int)
    requires Mode(g, Stop) && g.deadline < now
    ensures Gone(KillOnTimeout(g, now, Stop))
  {
  }

  /** The first pass later than every stored deadline leaves every guest exited or disabled. */
  lemma ShutdownDrained(s: State)
    requires Inv(s) && s.sys.Stop?
    requires forall i :: 0 <= i < |s.guests| ==> s.guests[i].deadline < Now(s.w).0
    ensures AllGone(Step(s, TimerTick).guests)
  {
    hide DrainFrom, Safe, Mode, R.Bound, OnePerRole, Settles, Stopping, KillOnTimeout;
    var (now, w1) := Now(s.w);
    var s0 := s.(w := w1);
    DrainFromKeeps(s0, 0);
    var s1 := DrainFrom(s0, 0);
    if !AllGone(s.guests) {
      forall i | 0 <= i < |s.guests| ensures Gone(KillAll(s1.guests, now, Stop)[i]) {
        TimeoutGone(s1.guests[i], now);
      }
    }
  }

  // ---- the deadline of a guest that drains its worker ------------------------------------------------------

  lemma KillMovesNoDeadline(g: Guest, now: int, sys: SysState)
    ensures KillOnTimeout(g, now, sys).deadline == g.deadline
  {}

  lemma StopPassMovesNoDeadline(s: State)
    requires Inv(s) && s.sys.Stop?
    ensures forall i :: 0 <= i < |s.guests| ==> StopPass(s).guests[i].deadline == s.guests[i].deadline
    ensures s.w.clock <= StopPass(s).w.clock
  {
    hide DrainFrom, Safe, Mode, R.Bound, OnePerRole, PassStep, KillOnTimeout;
    var (now, w1) := Now(s.w);
    var s0 := s.(w := w1);
    DrainFromKeeps(s0, 0);
    var s1 := DrainFrom(s0, 0);
    forall i | 0 <= i < |s.guests| ensures KillAll(s1.guests, now, Stop)[i].deadline == s.guests[i].deadline {
      KillMovesNoDeadline(s1.guests[i], now, Stop);
    }
  }

  lemma {:induction false} NetifMovesNoDeadline(s: State, i: nat)
    requires i <= |s.guests|
    ensures forall j :: 0 <= j < |s.guests| ==> NetifFrom(s, i).guests[j].deadline == s.guests[j].deadline
    decreases |s.guests| - i
  {
    if i < |s.guests| {
      var (g, w1) := UpdateNetif(s.guests[i], s.links, s.w);
      assert g.deadline == s.guests[i].deadline;
      hide UpdateNetif;
      NetifMovesNoDeadline(Put(s, i, g, w1), i + 1);
    }
  }

  /** A stop request to a guest that drains its worker, in shutdown mode. */
  lemma RequestRenews(g: Guest, w: World, reboot: bool)
    requires g.status.RunWorker?
    ensures var r := if reboot then RequestReboot(g, w, Stop) else RequestShutdown(g, w, Stop);
            && r.g.status.RunWorker? && Later(w, r.w)
            && w.clock + g.timeout <= r.g.deadline <= r.w.clock + g.timeout
  {}

  /** Requests sent round: the addressed guest gets a new deadline, the others are left alone. */
  lemma {:induction false} CommandRenews(s: State, i: nat, name: string, byRole: bool, reboot: bool, accepted: bool, j: nat)
    requires Inv(s) && s.sys.Stop? && i <= |s.guests| && j < |s.guests| && s.guests[j].status.RunWorker?
    ensures var g, s1 := s.guests[j], CommandFrom(s, i, name, byRole, reboot, accepted).0;
            && Later(s.w, s1.w)
            && if i <= j && Addressed(g, name, byRole)
               then s.w.clock + g.timeout <= s1.guests[j].deadline <= s1.w.clock + g.timeout
               else s1.guests[j] == g
    decreases |s.guests| - i
  {
    hide Inv, RequestReboot, RequestShutdown, Addressed;
    if i < |s.guests| {
      if !Addressed(s.guests[i], name, byRole) {
        CommandRenews(s, i + 1, name, byRole, reboot, accepted, j);
      } else {
        RequestKeeps(s, i, reboot);
        var r := if reboot then RequestReboot(s.guests[i], s.w, s.sys) else RequestShutdown(s.guests[i], s.w, s.sys);
        if i == j {
          RequestRenews(s.guests[i], s.w, reboot);
        }
        CommandRenews(Put(s, i, r.g, r.w), i + 1, name, byRole, reboot, accepted || r.ret == 0, j);
      }
    }
  }

  lemma {:induction false} ShutdownRenews(s: State, i: nat, j: nat)
    requires Inv(s) && s.sys.Stop? && i <= |s.guests| && j < |s.guests| && s.guests[j].status.RunWorker?
    ensures var g, s1 := s.guests[j], ShutdownFrom(s, i);
            && Later(s.w, s1.w)
            && if i <= j then s.w.clock + g.timeout <= s1.guests[j].deadline <= s1.w.clock + g.timeout else s1.guests[j] == g
    decreases |s.guests| - i
  {
    hide Inv, RequestShutdown;
    if i < |s.guests| {
      RequestKeeps(s, i, false);
      var r := RequestShutdown(s.guests[i], s.w, s.sys);
      if i == j {
        RequestRenews(s.guests[i], s.w, false);
      }
      ShutdownRenews(Put(s, i, r.g, r.w), i + 1, j);
    }
  }

  /** Does the event carry a stop request to this guest? */
  predicate AsksToStop(e: Event, g: Guest) {
    e.SystemShutdown? || ((e.ShutdownCommand? || e.RebootCommand?) && Addressed(g, e.name, e.byRole))
  }

  /** The deadline after the event's own handler, before the pass. */
  lemma HandledWorkerDeadline(s: State, e: Event, i: nat)
    requires Inv(s) && s.sys.Stop? && i < |s.guests| && s.guests[i].status.RunWorker?
    ensures var g, s1 := s.guests[i], Handled(s, e);
            if AsksToStop(e, g) then s.w.clock + g.timeout <= s1.guests[i].deadline <= s1.w.clock + g.timeout
            else s1.guests[i].deadline == g.deadline
  {
    hide Inv, NetifFrom, CommandFrom, ShutdownFrom, Addressed;
    match e
    case NetifUpdated => NetifMovesNoDeadline(s, 0);
    case SystemShutdown =>
      assert s.(sys := Stop) == s;
      ShutdownRenews(s, 0, i);
    case ShutdownCommand(name, byRole) => CommandRenews(s, 0, name, byRole, false, false, i);
    case RebootCommand(name, byRole) => CommandRenews(s, 0, name, byRole, true, false, i);
    case _ =>
  }

  /**
   While the system shuts down, the deadline of a guest that drains its worker is renewed by exactly the events
   that carry a stop request to it: the shutdown event and a command addressed to it.  Every other event leaves it.
   */
  lemma WorkerDeadlineExactly(s: State, e: Event, i: nat)
    requires Inv(s) && s.sys.Stop? && i < |s.guests| && s.guests[i].status.RunWorker?
    ensures var g, s1 := s.guests[i], Step(s, e);
            if AsksToStop(e, g) then s.w.clock + g.timeout <= s1.guests[i].deadline <= s1.w.clock + g.timeout
            else s1.guests[i].deadline == g.deadline
  {
    HandledWorkerDeadline(s, e, i);
    HandledKeeps(s, e);
    hide Inv, Handled, StopPass, AsksToStop;
    if Internal(e) {
      StopPassMovesNoDeadline(Handled(s, e));
    }
  }

  // ---- the link list -----------------------------------------------------------------------------------------

  /** What the messages among the events say about the interfaces of the host. */
  ghost function AllNoted(m: map<int, string>, events: seq<Event>): map<int, string>
    decreases |events|
  {
    if events == [] then m
    else AllNoted(if events[0].LinkMessage? then N.Noted(m, events[0].kind, events[0].ifindex, events[0].ifname) else m, events[1..])
  }

  lemma {:induction false} StepsRefineMessages(s: State, events: seq<Event>)
    requires N.DistinctIndexes(s.links)
    ensures var links := Steps(s, events).links;
            N.DistinctIndexes(links) && N.AsMap(links) == AllNoted(N.AsMap(s.links), events)
    decreases |events|
  {
    hide Step, N.Received, N.AsMap, N.DistinctIndexes, N.Noted;
    if events != [] {
      var e := events[0];
      if e.LinkMessage? {
        LinkStep(s, e);
        N.ReceivedRefinesMap(s.links, e.kind, e.ifindex, e.ifname);
      }
      StepsRefineMessages(Step(s, e), events[1..]);
    }
  }

  lemma LinkStep(s: State, e: Event)
    requires e.LinkMessage?
    ensures Step(s, e).links == N.Received(s.links, e.kind, e.ifindex, e.ifname)
  {
    hide N.Received;
  }

  /** In every execution the link list holds no index twice and is the map that all messages so far add up to. */
  lemma LinksRefineMessages(s0: State, events: seq<Event>)
    requires Initial(s0)
    ensures var links := Execution(s0, events).links;
            N.DistinctIndexes(links) && N.AsMap(links) == AllNoted(map[], events)
  {
    assert N.AsMap([]) == map[] && StartRolesFrom(s0, 0).links == [];
    hide Initial, Steps, StartRolesFrom, N.AsMap, AllNoted;
    StepsRefineMessages(StartRolesFrom(s0, 0), events);
  }

  // ---- leaving -------------------------------------------------------------------------------------------

  /** Whatever state the event loop was left in, the last step gives everything back. */
  predicate Released(g: Guest) {
    !g.lxc && g.handles == 0 && Unmounted(g) && forall i :: 0 <= i < |g.netifs| ==> g.netifs[i].ifindex == 0
  }

  lemma CleanupReleases(g: Guest, w: World)
    requires Safe(g)
    ensures Released(Cleanup(g, w, 500).0)
  {
    CleanupSafe(g, w, 500);
    var g1 := Cleanup(g, w, 500).0;
    hide Cleanup;
    assert forall i :: 0 <= i < |g1.extra| ==> DiskAgrees(g1.extra[i], g1.side);
  }

  lemma {:induction false} TerminateReleases(s: State, i: nat)
    requires i <= |s.guests|
    requires forall j :: 0 <= j < i ==> Released(s.guests[j])
    requires forall j :: i <= j < |s.guests| ==> Safe(s.guests[j])
    ensures forall j :: 0 <= j < |s.guests| ==> Released(TerminateFrom(s, i).guests[j])
    decreases |s.guests| - i
  {
    hide Safe, Released, Cleanup;
    if i < |s.guests| {
      CleanupReleases(s.guests[i], s.w);
      var (g, w1) := Cleanup(s.guests[i], s.w, 500);
      TerminateReleases(Put(s, i, g, w1), i + 1);
    }
  }

  /** After any execution, cleaned up at any point: no instance, no interface and, but for the counted leaks, no mount is left behind. */
  lemma NothingLeftBehind(s0: State, events: seq<Event>, i: nat)
    requires Initial(s0) && i < |s0.guests|
    ensures Released(TerminateFrom(Execution(s0, events), 0).guests[i])
  {
    ExecutionInv(s0, events);
    hide Safe, Released, Initial, Execution, TerminateFrom;
    TerminateReleases(Execution(s0, events), 0);
  }
}
