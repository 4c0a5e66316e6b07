/** What follows, over whole runs, from what each event does for each guest. */
module LifecycleRuns {
  import opened Host
  import opened Options
  import opened Guest
  import opened GuestSafety
  import opened GuestOutcomes
  import opened Lifecycle
  import opened LifecycleSafety
  import opened LifecycleOutcomes
  import LP = LifecycleProperties
  import R = Roles
  import Q = WorkQueue

  // ---- start-up -----------------------------------------------------------------------------------

  lemma StartRoleApart(s: State, role: string, i: nat)
    requires i < |s.guests| && R.ActiveGuest(s.roles, role) != Some(i)
    ensures StartByRole(s, role).guests[i] == s.guests[i]
  {
    hide Start, R.ActiveGuest;
  }

  lemma {:induction false} StartRolesApart(s: State, r: nat, i: nat)
    requires r <= |s.roles| && LP.Booting(s, r) && i < |s.guests|
    requires R.ActiveGuest(s.roles, s.guests[i].role) != Some(i) || R.RoleAt(s.roles, s.guests[i].role, 0) < r
    ensures StartRolesFrom(s, r).guests[i] == s.guests[i]
    decreases |s.roles| - r
  {
    hide LP.Booting, StartByRole, R.ActiveGuest;
    if r < |s.roles| {
      OtherRole(s, r, i);
      StartRoleApart(s, s.roles[r].name, i);
      LP.StartByRoleBoots(s, r);
      StartRolesApart(StartByRole(s, s.roles[r].name), r + 1, i);
    }
  }

  /** The active guest of a role is of that role. */
  lemma OtherRole(s: State, r: nat, i: nat)
    requires LP.Booting(s, r) && r < |s.roles| && i < |s.guests|
    requires R.ActiveGuest(s.roles, s.guests[i].role) != Some(i) || R.RoleAt(s.roles, s.guests[i].role, 0) < r
    ensures R.ActiveGuest(s.roles, s.roles[r].name) != Some(i)
  {
    LP.DistinctPosition(s, r);
    var a := R.ActiveGuest(s.roles, s.roles[r].name);
    if a.Some? {
      R.ActiveHasRole(s.cfgs, s.roles, s.roles[r].name);
    }
    hide Safe, Mode, R.Bound, R.ActiveGuest;
  }

  lemma {:induction false} StartRolesReach(s: State, r: nat, i: nat) returns (w1: World, w2: World)
    requires LP.Booting(s, r) && i < |s.guests|
    requires R.ActiveGuest(s.roles, s.guests[i].role) == Some(i) && r <= R.RoleAt(s.roles, s.guests[i].role, 0)
    ensures LaunchedTo(s.guests[i].(status := NotStarted), StartRolesFrom(s, r).guests[i], w1, w2)
    decreases |s.roles| - r
  {
    hide LP.Booting, StartByRole, LaunchedTo, R.ActiveGuest;
    var role := s.guests[i].role;
    var at := R.RoleAt(s.roles, role, 0);
    ActiveListed(s, role);
    LP.StartByRoleBoots(s, r);
    var s1 := StartByRole(s, s.roles[r].name);
    if at == r {
      w1, w2 := StartRoleLaunches(s, r, i);
      assert s1.guests[i].role == role by { LP.StartByRoleSame(s, r); }
      StartRolesApart(s1, r + 1, i);
    } else {
      EarlierRole(s, r, i);
      StartRoleApart(s, s.roles[r].name, i);
      w1, w2 := StartRolesReach(s1, r + 1, i);
    }
  }

  lemma ActiveListed(s: State, role: string)
    requires R.ActiveGuest(s.roles, role).Some?
    ensures R.RoleAt(s.roles, role, 0) < |s.roles|
  {}

  lemma EarlierRole(s: State, r: nat, i: nat)
    requires LP.Booting(s, r) && r < |s.roles| && i < |s.guests| && R.RoleAt(s.roles, s.guests[i].role, 0) != r
    ensures R.ActiveGuest(s.roles, s.roles[r].name) != Some(i)
  {
    LP.DistinctPosition(s, r);
    var a := R.ActiveGuest(s.roles, s.roles[r].name);
    if a.Some? {
      R.ActiveHasRole(s.cfgs, s.roles, s.roles[r].name);
    }
    hide Safe, Mode, R.Bound, R.ActiveGuest;
  }

  lemma StartRoleLaunches(s: State, r: nat, i: nat) returns (w1: World, w2: World)
    requires LP.Booting(s, r) && i < |s.guests| && R.ActiveGuest(s.roles, s.guests[i].role) == Some(i)
    requires r == R.RoleAt(s.roles, s.guests[i].role, 0) && r < |s.roles|
    ensures LaunchedTo(s.guests[i].(status := NotStarted), StartByRole(s, s.roles[r].name).guests[i], w1, w2)
  {
    assert s.roles[r].name == s.guests[i].role;
    assert Safe(s.guests[i]) && Mode(s.guests[i], Run) && s.guests[i].status.Disable?;
    EnabledIsSafe(s.guests[i]);
    StartLaunches(s.guests[i].(status := NotStarted), s.w);
    w1, w2 := s.w, Start(s.guests[i].(status := NotStarted), s.w).w;
    hide LP.Booting, Start, LaunchedTo, R.ActiveGuest;
  }

  /** At start-up the active guest of every role is launched, and every other guest is left disabled. */
  lemma BootOutcome(s0: State, i: nat)
    requires Initial(s0) && i < |s0.guests|
    ensures var g, g1 := s0.guests[i], Execution(s0, []).guests[i];
            if R.ActiveGuest(s0.roles, g.role) == Some(i) then exists w1, w2 :: LaunchedTo(g.(status := NotStarted), g1, w1, w2)
            else g1 == g
  {
    LP.InitialBooting(s0);
    assert Execution(s0, []) == StartRolesFrom(s0, 0);
    hide Initial, LP.Booting, StartRolesFrom, LaunchedTo, R.ActiveGuest;
    if R.ActiveGuest(s0.roles, s0.guests[i].role) == Some(i) {
      var w1, w2 := StartRolesReach(s0, 0, i);
    } else {
      StartRolesApart(s0, 0, i);
    }
  }

  // ---- what was stopped stays stopped -------------------------------------------------------------

  /** A guest that is not to run: stopping for good, at rest, exited, or disabled with no role coming to it; and no job waits for it. */
  ghost predicate Halted(s: State, i: nat)
    requires i < |s.guests|
  {
    var g := s.guests[i];
    && !Q.HoldsJob(g.queue)
    && (g.status.Shutdown? || g.status.NotStarted? || g.status.Exit? || (g.status.Disable? && Untargeted(s, i)))
  }

  /** Neither another guest is made the active one of a role, nor a test job queued. */
  predicate Quiet(e: Event) {
    !e.ChangeCommand? && !e.TestCommand?
  }

  lemma HandledHalts(s: State, e: Event, i: nat)
    requires Inv(s) && i < |s.guests| && Halted(s, i) && Quiet(e)
    ensures Halted(Handled(s, e), i)
  {
    hide Inv, R.ActiveGuest, InterfacesUpdated, Reached;
    match e
    case NetifUpdated => NetifOutcome(s, i);
    case GuestExit(n) => ExitOutcome(s, n, i);
    case SystemShutdown => ShutdownOutcome(s, i);
    case ShutdownCommand(name, byRole) => CommandOutcome(s, name, byRole, false, i);
    case RebootCommand(name, byRole) => CommandOutcome(s, name, byRole, true, i);
    case WorkerFinished(n, ret) => WorkerOutcome(s, n, ret, i);
    case _ =>
  }

  lemma RunPassHalts(s: State, i: nat)
    requires Inv(s) && s.sys.Run? && i < |s.guests| && Halted(s, i)
    ensures Halted(InternalEvent(s), i)
  {
    hide Inv, InternalEvent, RestOfPass, Safe, Mode, R.ActiveGuest, SameRoot, SameDisks;
    SafeAt(s, i);
    InternalEventKeeps(s);
    var w1, w2, w3, g := PassOver(s, i);
    var now := Now(s.w).0;
    if s.guests[i].status.NotStarted? {
      TurnHalts(s.roles, i, s.guests[i], g, w1, w2);
      RestLeaves(g, now, w3);
    } else {
      RestHalts(g, now, w3);
    }
  }

  lemma TurnHalts(roles: seq<R.Role>, i: nat, g: Guest, g1: Guest, w1: World, w2: World)
    requires Safe(g) && Mode(g, Run) && g.status.NotStarted? && !Q.HoldsJob(g.queue) && OwnTurn(roles, i, g, g1, w1, w2)
    ensures g1.role == g.role && g1.queue == g.queue
    ensures g1.status == if R.ActiveGuest(roles, g.role) == Some(i) then NotStarted else Status.Disable
  {
    if R.ActiveGuest(roles, g.role) == Some(i) {
      IdleActiveExact(g, w1);
      IdleActiveSafe(g, w1);
    } else {
      CleanupSafe(g.(status := Disable), w1, 0);
    }
    hide IdleActive, Cleanup, R.ActiveGuest, Safe;
  }

  lemma RestHalts(g: Guest, now: int, w: World)
    requires g.status.Shutdown? || g.status.Exit? || g.status.Disable?
    ensures var g1 := RestOfPass(g, now, w).0;
            g1.role == g.role && g1.queue == g.queue && (g1.status == g.status || (g.status.Shutdown? && g1.status.NotStarted?))
  {}

  lemma PassHalts(s: State, i: nat)
    requires Inv(s) && i < |s.guests| && Halted(s, i)
    ensures Halted(InternalEvent(s), i)
  {
    if s.sys.Run? {
      RunPassHalts(s, i);
    } else {
      StopPassOf(s, i);
      assert InternalEvent(s).guests[i].role == s.guests[i].role;
      hide Inv, InternalEvent, R.ActiveGuest;
    }
  }

  lemma StepHalts(s: State, e: Event, i: nat)
    requires Inv(s) && i < |s.guests| && Halted(s, i) && Quiet(e)
    ensures Inv(Step(s, e)) && Halted(Step(s, e), i)
  {
    StepKeeps(s, e);
    HandledKeeps(s, e);
    HandledHalts(s, e, i);
    hide Inv, Halted, InternalEvent, Handled, EventStep;
    if Internal(e) {
      PassHalts(Handled(s, e), i);
    }
  }

  lemma {:induction false} StepsHalt(s: State, events: seq<Event>, i: nat)
    requires Inv(s) && i < |s.guests| && Halted(s, i) && forall e :: e in events ==> Quiet(e)
    ensures Halted(Steps(s, events), i)
    decreases |events|
  {
    hide Inv, Halted, Step;
    if events != [] {
      assert events[0] in events;
      StepHalts(s, events[0], i);
      StepsHalt(Step(s, events[0]), events[1..], i);
    }
  }

  /**
   A guest stopped by a shutdown command in run mode - a running one with no job waiting, or a dead one - never runs
   again, whatever happens, until another active guest is chosen or a test job is queued.
   */
  lemma StaysShutDown(s: State, name: string, byRole: bool, events: seq<Event>, i: nat)
    requires Inv(s) && s.sys.Run? && i < |s.guests| && Reached(s.guests[i], name, byRole)
    requires (s.guests[i].status.Started? || s.guests[i].status.Dead?) && !Q.HoldsJob(s.guests[i].queue)
    requires forall e :: e in events ==> Quiet(e)
    ensures var g := Steps(Handled(s, ShutdownCommand(name, byRole)), events).guests[i];
            g.status.Shutdown? || g.status.NotStarted? || g.status.Exit? || g.status.Disable?
  {
    var s1 := Handled(s, ShutdownCommand(name, byRole));
    HandledKeeps(s, ShutdownCommand(name, byRole));
    CommandOutcome(s, name, byRole, false, i);
    hide Inv, Handled, Steps, Reached, R.ActiveGuest;
    assert Halted(s1, i);
    StepsHalt(s1, events, i);
  }

  /** A guest that is rebooting is launched again in the pass that its exit brings. */
  lemma RebootLaunchesAgain(s: State, i: nat)
    requires Inv(s) && s.sys.Run? && i < |s.guests| && s.guests[i].status.Reboot?
    ensures var h, s1 := Handled(s, GuestExit(i)), Step(s, GuestExit(i));
            && h.guests[i].status.Dead?
            && exists w1, w2 :: Later(h.w, w1) && Later(w2, s1.w) && LaunchedTo(h.guests[i], s1.guests[i], w1, w2)
  {
    ExitOutcome(s, i, i);
    hide Inv, Handled, Step, LaunchedTo;
    DeadIsLaunched(s, GuestExit(i), i);
  }

  // ---- whose job it is ----------------------------------------------------------------------------

  /** The job repairs one of the disks of the guest, by its kind and on its first device. */
  ghost predicate RepairJob(g: Guest, q: Q.Queue) {
    exists k :: 0 <= k < |g.extra| && (g.extra[k].kind.Fsck? || g.extra[k].kind.Mkfs?)
                && q.key == JobKey(g.extra[k]) && q.args == "device=" + g.extra[k].devs.primary
  }

  predicate TestJob(q: Q.Queue) {
    (q.key == "fsck" || q.key == "erase") && q.args == TEST_DEVICE
  }

  /** A held job is a repair of the guest's own disks - or, if there was a test command, may be one of its. */
  ghost predicate JobKnown(g: Guest, tested: bool) {
    Q.HoldsJob(g.queue) ==> RepairJob(g, g.queue) || (tested && TestJob(g.queue))
  }

  ghost predicate JobsKnown(gs: seq<Guest>, tested: bool) {
    forall i :: 0 <= i < |gs| ==> JobKnown(gs[i], tested)
  }

  /** The queue holds no job, or the same as before. */
  predicate SameJob(q0: Q.Queue, q1: Q.Queue) {
    Q.HoldsJob(q1) ==> Q.HoldsJob(q0) && q1.key == q0.key && q1.args == q0.args
  }

  lemma SameJobKnown(g0: Guest, g1: Guest, tested: bool)
    requires SameGuest(g0, g1) && SameJob(g0.queue, g1.queue) && JobKnown(g0, tested)
    ensures JobKnown(g1, tested)
  {
    if Q.HoldsJob(g1.queue) && RepairJob(g0, g0.queue) {
      var k :| 0 <= k < |g0.extra| && (g0.extra[k].kind.Fsck? || g0.extra[k].kind.Mkfs?)
               && g0.queue.key == JobKey(g0.extra[k]) && g0.queue.args == "device=" + g0.extra[k].devs.primary;
      assert JobKey(g1.extra[k]) == JobKey(g0.extra[k]);
    }
  }

  lemma {:induction false} BusyRecovers(ds: seq<Disk>, i: nat, q: Q.Queue, w: World)
    requires i <= |ds| && !q.status.Inactive?
    ensures RecoverFrom(ds, i, q, w).0 == q
    decreases |ds| - i
  {
    if i < |ds| {
      BusyRecovers(ds, i + 1, q, w);
    }
  }

  /** A launch leaves the job of the guest, or queues a repair of one of its disks. */
  lemma LaunchKnown(g: Guest, g1: Guest, w1: World, w2: World, tested: bool)
    requires LaunchedTo(g, g1, w1, w2) && JobKnown(g, tested)
    ensures JobKnown(g1, tested)
  {
    hide Preprocess, RecoverFrom, Takes, FirstTaken, TakenJob;
    var made := Preprocess(g, w1);
    if !Ready(g1) {
      if !g.queue.status.Inactive? {
        BusyRecovers(g1.extra, 0, g.queue, made.2);
        SameJobKnown(g, g1, tested);
      } else {
        RecoverTakes(g1.extra, 0, g.queue, made.2);
        if g1.queue.status.Scheduled? {
          var k :| 0 <= k < |g1.extra| && FirstTaken(g1.extra, 0, g.queue, made.2, k) && g1.queue == TakenJob(g1.extra, 0, g.queue, made.2, k);
          TakenHere(g1.extra, g.queue, made.2, k);
          assert RepairJob(g1, g1.queue);
        }
      }
    } else {
      SameJobKnown(g, g1, tested);
    }
  }

  lemma TakenHere(ds: seq<Disk>, q: Q.Queue, w: World, k: nat)
    requires k < |ds| && FirstTaken(ds, 0, q, w, k)
    ensures var q1 := TakenJob(ds, 0, q, w, k);
            (ds[k].kind.Fsck? || ds[k].kind.Mkfs?) && q1.key == JobKey(ds[k]) && q1.args == "device=" + ds[k].devs.primary
  {
    assert Takes(ds, 0, q, w, k);
    TakenIs(ds, 0, q, w, k);
    hide TakenJob, Considered;
  }

  lemma TurnKnown(roles: seq<R.Role>, i: nat, g: Guest, g1: Guest, w1: World, w2: World, tested: bool)
    requires Safe(g) && Mode(g, Run) && OwnTurn(roles, i, g, g1, w1, w2) && JobKnown(g, tested)
    ensures JobKnown(g1, tested) && SameGuest(g, g1) && !Stopping(g1) == !Stopping(g)
  {
    match g.status
    case Dead =>
      StartSafe(g, w1);
      StartLaunches(g, w1);
      hide Start, LaunchedTo, JobKnown, Safe;
      LaunchKnown(g, g1, w1, w2, tested);
    case NotStarted =>
      if R.ActiveGuest(roles, g.role) == Some(i) {
        IdleActiveExact(g, w1);
        IdleActiveSafe(g, w1);
      } else {
        CleanupSafe(g.(status := Disable), w1, 0);
      }
      hide IdleActive, Cleanup, JobKnown, Safe, R.ActiveGuest;
      SameJobKnown(g, g1, tested);
    case RunWorker =>
      PollWorkerExact(g, w1);
      hide PollWorker, JobKnown, Safe;
      SameJobKnown(g, g1, tested);
    case _ =>
  }

  lemma RestKnown(g: Guest, now: int, w: World, tested: bool)
    requires JobKnown(g, tested)
    ensures JobKnown(RestOfPass(g, now, w).0, tested)
  {
    assert RestOfPass(g, now, w).0.queue == g.queue && SameGuest(g, RestOfPass(g, now, w).0);
    hide RestOfPass, JobKnown;
    SameJobKnown(g, RestOfPass(g, now, w).0, tested);
  }

  lemma TakenOverKnown(roles: seq<R.Role>, i: nat, a: nat, g: Guest, g1: Guest, g2: Guest,
                       w1: World, w2: World, w3: World, w4: World, tested: bool)
    requires TakenOver(roles, i, a, g, g1, g2, w1, w2, w3, w4) && JobKnown(g, tested)
    ensures JobKnown(g2, tested)
  {
    SameJobKnown(g, g.(status := NotStarted), tested);
    hide LaunchedTo, OwnTurn, JobKnown, Safe, Mode;
    LaunchKnown(g.(status := NotStarted), g1, w1, w2, tested);
    if i < a {
      TurnKnown(roles, a, g1, g2, w3, w4, tested);
    }
  }

  lemma RunPassKnown(s: State, i: nat, tested: bool)
    requires Inv(s) && s.sys.Run? && i < |s.guests| && JobsKnown(s.guests, tested)
    ensures JobKnown(InternalEvent(s).guests[i], tested)
  {
    SafeAt(s, i);
    assert JobKnown(s.guests[i], tested);
    hide Inv, InternalEvent, RestOfPass, OwnTurn, TakenOver, JobKnown, JobsKnown, HandsOver, Safe, Mode, SameGuest;
    if Untargeted(s, i) {
      var w1, w2, w3, g := PassOver(s, i);
      TurnKnown(s.roles, i, s.guests[i], g, w1, w2, tested);
      RestKnown(g, Now(s.w).0, w3, tested);
    } else if k: nat :| k < |s.guests| && HandsOver(s, k, i) {
      var g1, g2, w1, w2, w3, w4 := TakenOverInPass(s, k, i);
      TakenOverKnown(s.roles, k, i, s.guests[i], g1, g2, w1, w2, w3, w4, tested);
      DelayedKnown(g2, InternalEvent(s).guests[i], tested);
    } else {
      DisabledIsLeft(s, i);
    }
  }

  lemma DelayedKnown(g: Guest, g1: Guest, tested: bool)
    requires g1 == g.(runtime := g1.runtime, delivered := g1.delivered) && JobKnown(g, tested)
    ensures JobKnown(g1, tested)
  {
    hide JobKnown;
    SameJobKnown(g, g1, tested);
  }

  lemma PassKnown(s: State, tested: bool)
    requires Inv(s) && JobsKnown(s.guests, tested)
    ensures JobsKnown(InternalEvent(s).guests, tested)
  {
    hide Inv, InternalEvent, JobKnown;
    forall i | 0 <= i < |s.guests| ensures JobKnown(InternalEvent(s).guests[i], tested) {
      if s.sys.Run? {
        RunPassKnown(s, i, tested);
      } else {
        StopPassKnown(s, i, tested);
      }
    }
  }

  lemma StopPassKnown(s: State, i: nat, tested: bool)
    requires Inv(s) && s.sys.Stop? && i < |s.guests| && JobsKnown(s.guests, tested)
    ensures JobKnown(InternalEvent(s).guests[i], tested)
  {
    hide Inv, InternalEvent, JobKnown, SameGuest;
    InternalEventKeeps(s);
    StopPassOf(s, i);
    assert JobKnown(s.guests[i], tested);
    SameJobKnown(s.guests[i], InternalEvent(s).guests[i], tested);
  }

  lemma HandledKnown(s: State, e: Event, tested: bool)
    requires Inv(s) && JobsKnown(s.guests, tested) && (e.TestCommand? ==> tested)
    ensures JobsKnown(Handled(s, e).guests, tested)
  {
    HandledKeeps(s, e);
    forall i | 0 <= i < |s.guests| ensures JobKnown(Handled(s, e).guests[i], tested) {
      HandledJob(s, e, i);
      assert JobKnown(s.guests[i], tested);
      var g, g1 := s.guests[i], Handled(s, e).guests[i];
      assert EventStep(g, g1, s, Handled(s, e));
      hide Inv, Handled, JobKnown;
      if SameJob(g.queue, g1.queue) {
        SameJobKnown(g, g1, tested);
      } else {
        TestKnown(g1, tested);
      }
    }
  }

  lemma TestKnown(g: Guest, tested: bool)
    requires tested && TestJob(g.queue)
    ensures JobKnown(g, tested)
  {}

  /** Handling an event leaves every job as it is, unless it is the test command. */
  lemma HandledJob(s: State, e: Event, i: nat)
    requires Inv(s) && i < |s.guests|
    ensures var q, q1 := s.guests[i].queue, Handled(s, e).guests[i].queue;
            SameJob(q, q1) || (e.TestCommand? && TestJob(q1))
  {
    match e
    case NetifUpdated => NetifOutcome(s, i);
    case GuestExit(n) => ExitOutcome(s, n, i);
    case SystemShutdown => ShutdownOutcome(s, i);
    case ShutdownCommand(name, byRole) => CommandOutcome(s, name, byRole, false, i);
    case RebootCommand(name, byRole) => CommandOutcome(s, name, byRole, true, i);
    case WorkerFinished(n, ret) => WorkerOutcome(s, n, ret, i);
    case TestCommand(code) => TestOutcome(s, code, i);
    case _ =>
    hide Inv, Handled, R.ActiveGuest, InterfacesUpdated, Reached, UnderTest;
  }

  lemma {:induction false} StepsKnown(s: State, events: seq<Event>, tested: bool)
    requires Inv(s) && JobsKnown(s.guests, tested) && forall e :: e in events && e.TestCommand? ==> tested
    ensures JobsKnown(Steps(s, events).guests, tested)
    decreases |events|
  {
    hide Inv, JobsKnown, Handled, InternalEvent, EventStep;
    if events != [] {
      var e := events[0];
      assert e in events;
      HandledKeeps(s, e);
      HandledKnown(s, e, tested);
      StepKeeps(s, e);
      if Internal(e) {
        PassKnown(Handled(s, e), tested);
      }
      StepsKnown(Step(s, e), events[1..], tested);
    }
  }

  lemma BootKnown(s0: State)
    requires Initial(s0)
    ensures JobsKnown(Execution(s0, []).guests, false)
  {
    forall i | 0 <= i < |s0.guests| ensures JobKnown(Execution(s0, []).guests[i], false) {
      var g := s0.guests[i];
      assert !Q.HoldsJob(g.queue);
      BootOutcome(s0, i);
      hide Initial, Execution, R.ActiveGuest, LaunchedTo;
      if R.ActiveGuest(s0.roles, g.role) == Some(i) {
        var w1, w2 :| LaunchedTo(g.(status := NotStarted), Execution(s0, []).guests[i], w1, w2);
        LaunchKnown(g.(status := NotStarted), Execution(s0, []).guests[i], w1, w2, false);
      }
    }
  }

  /**
   Whose job it is, in every execution: a job held for a guest repairs one of its configured disks - fsck one to be checked,
   mkfs one to be made anew, on its first device - unless test commands came, whose jobs are for the test device.
   */
  lemma JobBelongs(s0: State, events: seq<Event>, i: nat)
    requires Initial(s0) && i < |s0.guests|
    ensures var g0, q := s0.guests[i], Execution(s0, events).guests[i].queue;
            Q.HoldsJob(q) ==>
              || (exists k :: 0 <= k < |g0.extra| && q.args == "device=" + g0.extra[k].devs.primary
                              && ((g0.extra[k].kind.Fsck? && q.key == "fsck") || (g0.extra[k].kind.Mkfs? && q.key == "mkfs")))
              || (TestJob(q) && exists e :: e in events && e.TestCommand?)
  {
    var tested := exists e :: e in events && e.TestCommand?;
    var b, s1 := Execution(s0, []), Execution(s0, events);
    BootKnown(s0);
    MoreKnown(b.guests, tested);
    LP.ExecutionInv(s0, []);
    LP.ExecutionSame(s0, events);
    assert b == StartRolesFrom(s0, 0) && s1 == Steps(b, events);
    hide Initial, Inv, StartRolesFrom, Execution, Steps, SameGuest;
    StepsKnown(b, events, tested);
    assert JobKnown(s1.guests[i], tested) && SameGuest(s0.guests[i], s1.guests[i]);
    if Q.HoldsJob(s1.guests[i].queue) && RepairJob(s1.guests[i], s1.guests[i].queue) {
      RepairConfigured(s0.guests[i], s1.guests[i]);
    }
  }

  lemma MoreKnown(gs: seq<Guest>, tested: bool)
    requires JobsKnown(gs, false)
    ensures JobsKnown(gs, tested)
  {
    forall i | 0 <= i < |gs| ensures JobKnown(gs[i], tested) {
      assert JobKnown(gs[i], false);
    }
  }

  lemma RepairConfigured(g0: Guest, g: Guest)
    requires SameGuest(g0, g) && RepairJob(g, g.queue)
    ensures exists k :: 0 <= k < |g0.extra| && g.queue.args == "device=" + g0.extra[k].devs.primary
                        && ((g0.extra[k].kind.Fsck? && g.queue.key == "fsck") || (g0.extra[k].kind.Mkfs? && g.queue.key == "mkfs"))
  {
    var k :| 0 <= k < |g.extra| && (g.extra[k].kind.Fsck? || g.extra[k].kind.Mkfs?)
             && g.queue.key == JobKey(g.extra[k]) && g.queue.args == "device=" + g.extra[k].devs.primary;
    assert g0.extra[k].kind == g.extra[k].kind && g0.extra[k].devs == g.extra[k].devs;
  }
}
