/** Executions that show where the life cycle's promises stop. */
module LifecycleExamples {
  import opened Host
  import opened Options
  import opened MountTable
  import opened Guest
  import opened Lifecycle
  import R = Roles
  import Q = WorkQueue

  const DIRECTORY := Devices("/guest", "")
  const CONFIG := R.Config("guest", "ivi", true, 0)

  function NewGuest(root: Rootfs, extra: seq<Disk>): Guest {
    Guest("guest", "ivi", 10, 0, Status.Disable, false, 0, 0, 0, root, extra, [], [], [], [], Q.EMPTY_QUEUE)
  }

  function NewState(g: Guest, script: nat -> int): State {
    State([g], [CONFIG], [R.Role("ivi", [Some(0), None])], Run, [], World(script, 0, 0))
  }

  lemma NewIsInitial(g: Guest, script: nat -> int)
    requires Fresh(g) && g.name == CONFIG.name && g.role == CONFIG.role
    ensures Initial(NewState(g, script)) && R.ActiveGuest(NewState(g, script).roles, "ivi") == Some(0)
    ensures Execution(NewState(g, script), []) == StartByRole(NewState(g, script), "ivi")
  {
    assert R.Bind([CONFIG], 0) == [];
    assert [Some(0)] + [None] == [Some(0), None];
    assert R.Place([], CONFIG, 0) == [R.Role("ivi", [Some(0), None])];
    var s := NewState(g, script);
    assert R.RoleAt(s.roles, "ivi", 0) == 0;
    hide StartByRole;
    assert StartRolesFrom(s, 0) == StartRolesFrom(StartByRole(s, s.roles[0].name), 1);
  }

  // ---- a mount that stays behind ------------------------------------------------------------------

  /** The read-only remount of the rootfs fails, and so does the umount that should undo the first mount. */
  lemma LeakedMount()
    ensures var root := Rootfs(HostRootFs, true, DIRECTORY, false, 0, [], 0);
            var s0 := NewState(NewGuest(root, []), p => if p == 0 then 0 else 1);
            var g := Execution(s0, []).guests[0];
            var g1 := TerminateFrom(Execution(s0, []), 0).guests[0];
            && Initial(s0) && BindLeaks(true, s0.w)
            && !g.root.mounted && g.root.stack == ["/guest"] && g.root.leaks == 1
            && !g1.root.mounted && g1.root.stack == ["/guest"]
  {
    var root := Rootfs(HostRootFs, true, DIRECTORY, false, 0, [], 0);
    var g0 := NewGuest(root, []);
    var s0 := NewState(g0, p => if p == 0 then 0 else 1);
    NewIsInitial(g0, s0.w.script);
    BindExact(root.devs.At(0), true, [], s0.w);
    assert [] + ["/guest"] == ["/guest"];
    var (ok, root1, w1) := MountRoot(root, 0, s0.w);
    assert !ok && root1.stack == ["/guest"] && root1.leaks == 1;
    var g := g0.(status := NotStarted, root := root1);
    assert Start(g0.(status := NotStarted), s0.w) == Result(-1, g, w1);
    var s1 := Execution(s0, []);
    assert s1.guests == [g];
    var (g1, w2) := Cleanup(g, s1.w, 500);
    assert g1.root == root1;
    assert TerminateFrom(s1, 0).guests == [g1];
  }

  // ---- a deadline that moves ----------------------------------------------------------------------

  /** The mount of the disk fails; the clock stands still until a second stop request, and is at 7 then. */
  function Slow(p: nat): int {
    if p == 1 then 2 else if p == 13 then 7 else 0
  }

  const ROOT := Rootfs(HostRootFs, false, DIRECTORY, false, 0, [], 0)
  const BROKEN := Disk(Redundancy.Fsck, Devices("/disk", ""), false, 0, [])
  const REPAIR := Q.Queue(Q.Scheduled, Some(0), "fsck", "device=/disk", 1, 1, 0)

  /** Started with a disk that cannot be mounted, the guest waits for its repair job. */
  lemma WaitsForRepair()
    ensures var s0 := NewState(NewGuest(ROOT, [BROKEN]), Slow);
            var s1 := Execution(s0, []);
            && Initial(s0) && s1 == s0.(guests := s1.guests, w := World(Slow, 4, 0))
            && s1.guests == [NewGuest(ROOT.(mounted := true, stack := ["/guest"]), [BROKEN.(errors := 1)])
                             .(status := NotStarted, queue := REPAIR)]
  {
    var g0 := NewGuest(ROOT, [BROKEN]);
    NewIsInitial(g0, Slow);
    DiskFails(g0.(status := NotStarted));
    RepairQueued();
    hide Preprocess, RecoverFrom, Initial, StartRolesFrom;
  }

  lemma DiskFails(g: Guest)
    requires g.root == ROOT && g.extra == [BROKEN] && g.side == 0
    ensures Preprocess(g, World(Slow, 0, 0))
            == (false, g.(root := ROOT.(mounted := true, stack := ["/guest"]), extra := [BROKEN.(errors := 1)]), World(Slow, 2, 0))
  {
    assert [] + ["/guest"] == ["/guest"];
    var w1, w2, broken := World(Slow, 1, 0), World(Slow, 2, 0), BROKEN.(errors := 1);
    assert MountRoot(ROOT, 0, World(Slow, 0, 0)) == (true, ROOT.(mounted := true, stack := ["/guest"]), w1);
    assert MountExtra(BROKEN, 0, w1) == (false, broken, w2);
    assert [BROKEN][0 := broken] == [broken];
    assert MountExtrasFrom([BROKEN], 0, 0, w1) == (false, [broken], w2);
  }

  lemma RepairQueued()
    ensures RecoverFrom([BROKEN.(errors := 1)], 0, Q.EMPTY_QUEUE, World(Slow, 2, 0)) == (REPAIR, World(Slow, 4, 0))
  {
    assert "fsck" in Q.PLUGIN_KEYS by { assert Q.PLUGIN_KEYS[0] == "fsck"; }
    assert "device=" + BROKEN.devs.At(0) == "device=/disk";
    var r := Q.Schedule(Q.EMPTY_QUEUE, "fsck", "device=/disk", 1, World(Slow, 2, 0));
    assert r == Q.Reply(0, 0, REPAIR, World(Slow, 4, 0));
  }

  lemma StartsRepair(g: Guest)
    requires g == NewGuest(ROOT.(mounted := true, stack := ["/guest"]), [BROKEN.(errors := 1)]).(status := NotStarted, queue := REPAIR)
    ensures IdleActive(g, World(Slow, 5, 0))
            == (NewGuest(ROOT, [BROKEN.(errors := 1)]).(queue := REPAIR.(status := Q.Started), status := RunWorker), World(Slow, 8, 0))
  {
    var (g1, w1) := Cleanup(g, World(Slow, 5, 0), 200);
    assert UnmountExtrasFrom(g.extra, 0, 200, 5, World(Slow, 6, 0)) == (g.extra, World(Slow, 6, 0));
    assert UnmountDisk(["/guest"], 200, 5, World(Slow, 6, 0)) == ([], World(Slow, 7, 0));
    assert g1 == NewGuest(ROOT, [BROKEN.(errors := 1)]).(status := NotStarted, queue := REPAIR) && w1 == World(Slow, 7, 0);
    hide Cleanup;
  }

  /** In the next pass the guest is unmounted and its job started. */
  lemma RunsRepair(s: State)
    requires |s.guests| == 1 && s == NewState(s.guests[0], Slow).(w := World(Slow, 4, 0))
    requires s.guests[0] == NewGuest(ROOT.(mounted := true, stack := ["/guest"]), [BROKEN.(errors := 1)])
                            .(status := NotStarted, queue := REPAIR)
    ensures Step(s, TimerTick) == s.(w := World(Slow, 8, 0), guests := Step(s, TimerTick).guests)
    ensures Step(s, TimerTick).guests == [NewGuest(ROOT, [BROKEN.(errors := 1)])
                                          .(status := RunWorker, queue := REPAIR.(status := Q.Started))]
  {
    var g := s.guests[0];
    var s0 := s.(w := World(Slow, 5, 0));
    assert R.RoleAt(s.roles, "ivi", 0) == 0;
    StartsRepair(g);
    hide IdleActive, NewGuest;
    var g2 := NewGuest(ROOT, [BROKEN.(errors := 1)]).(queue := REPAIR.(status := Q.Started), status := RunWorker);
    assert Visit(s0, 0) == s0.(guests := [g2], w := World(Slow, 8, 0));
    hide Visit, RunPass;
    PassOverOne(s);
  }

  lemma PassOverOne(s: State)
    requires |s.guests| == 1 && s.sys.Run? && Visit(s.(w := Now(s.w).1), 0).guests[0].status.RunWorker?
    ensures RunPass(s) == Visit(s.(w := Now(s.w).1), 0)
  {
    hide Visit;
    var s1 := Visit(s.(w := Now(s.w).1), 0);
    assert VisitFrom(s.(w := Now(s.w).1), 0) == VisitFrom(s1, 1) == s1;
    assert KillAll(s1.guests, Now(s.w).0, Run) == s1.guests;
    assert DelayedFrom(s1, 0) == DelayedFrom(s1, 1) == s1;
  }

  /** A stop request in shutdown mode sets the deadline of the guest that drains its worker. */
  lemma RequestSetsDeadline(s: State)
    requires |s.guests| == 1 && s.guests[0].status.RunWorker? && s.guests[0].queue == REPAIR.(status := Q.Started)
    requires s.w.script == Slow && s.w.clock == 0 && s.guests[0].timeout == 10
    requires (s.w.pos == 8 && s.guests[0].deadline == 0) || (s.w.pos == 12 && s.sys.Stop? && s.guests[0].deadline == 10)
    ensures var s1 := Step(s, SystemShutdown);
            && s1.sys.Stop? && s1.w == World(Slow, s.w.pos + 4, if s.w.pos == 8 then 0 else 7)
            && s1.guests == [s.guests[0].(deadline := if s.w.pos == 8 then 10 else 17)]
  {
    var g, t := s.guests[0], if s.w.pos == 8 then 0 else 7;
    var g1 := g.(deadline := t + 10);
    var s0 := s.(sys := Stop);
    assert RequestShutdown(g, s.w, Stop) == Result(0, g1, World(Slow, s.w.pos + 2, t));
    var s1 := ManagerShutdown(s);
    assert s1 == s0.(guests := [g1], w := World(Slow, s.w.pos + 2, t)) by {
      assert ShutdownFrom(s0, 0) == ShutdownFrom(Put(s0, 0, g1, World(Slow, s.w.pos + 2, t)), 1);
    }
    var s2 := s1.(w := World(Slow, s.w.pos + 3, t));
    assert DrainWorker(g1, s2.w) == (g1, World(Slow, s.w.pos + 4, t));
    assert DrainFrom(s2, 0) == DrainFrom(Put(s2, 0, g1, World(Slow, s.w.pos + 4, t)), 1);
    assert KillAll([g1], t, Stop) == [g1];
  }

  /** Two shutdown requests while a repair job runs: the second one moves the deadline from 10 to 17. */
  lemma DeadlineMoves()
    ensures var s0 := NewState(NewGuest(ROOT, [BROKEN]), Slow);
            var s1, s2 := Execution(s0, [TimerTick, SystemShutdown]), Execution(s0, [TimerTick, SystemShutdown, SystemShutdown]);
            && Initial(s0) && s1.sys.Stop? && s1.guests[0].status.RunWorker? && s1.guests[0].deadline == 10
            && s2.guests[0].status.RunWorker? && s2.guests[0].deadline == 17
  {
    hide Step, Initial, StartRolesFrom, NewState, NewGuest;
    WaitsForRepair();
    var s0 := NewState(NewGuest(ROOT, [BROKEN]), Slow);
    var s1 := Execution(s0, []);
    StateShown(s0, s1);
    RunsRepair(s1);
    var s2 := Step(s1, TimerTick);
    GuestShown();
    RequestSetsDeadline(s2);
    var s3 := Step(s2, SystemShutdown);
    RequestSetsDeadline(s3);
    assert [TimerTick, SystemShutdown][1..] == [SystemShutdown] && [SystemShutdown][1..] == [];
    assert [TimerTick, SystemShutdown, SystemShutdown][1..] == [SystemShutdown, SystemShutdown];
    assert [SystemShutdown, SystemShutdown][1..] == [SystemShutdown];
    assert Steps(s1, [TimerTick, SystemShutdown]) == Steps(s2, [SystemShutdown]) == Steps(s3, []) == s3;
    assert Steps(s1, [TimerTick, SystemShutdown, SystemShutdown]) == Steps(s2, [SystemShutdown, SystemShutdown]);
    assert Steps(s2, [SystemShutdown, SystemShutdown]) == Steps(s3, [SystemShutdown]);
    assert Steps(s3, [SystemShutdown]) == Steps(Step(s3, SystemShutdown), []);
  }

  lemma StateShown(s0: State, s1: State)
    requires s0 == NewState(NewGuest(ROOT, [BROKEN]), Slow) && |s1.guests| == 1
    requires s1 == s0.(guests := s1.guests, w := World(Slow, 4, 0))
    ensures s1 == NewState(s1.guests[0], Slow).(w := World(Slow, 4, 0)) && s1.w.pos == 4
  {}

  lemma GuestShown()
    ensures NewGuest(ROOT, [BROKEN.(errors := 1)]).timeout == 10 && NewGuest(ROOT, [BROKEN.(errors := 1)]).deadline == 0
  {}
}
