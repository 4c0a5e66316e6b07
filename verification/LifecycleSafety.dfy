/** The invariant of the whole state machine, kept by every event. */
module LifecycleSafety {
  import opened Host
  import opened Options
  import opened Guest
  import opened GuestSafety
  import opened Lifecycle
  import R = Roles
  import N = NetIf
  import Q = WorkQueue

  ghost predicate Aligned(gs: seq<Guest>, cfgs: seq<R.Config>) {
    && |cfgs| == |gs|
    && forall i :: 0 <= i < |gs| ==> gs[i].name == cfgs[i].name && gs[i].role == cfgs[i].role
  }

  predicate Enabled(g: Guest) {
    !g.status.Disable?
  }

  ghost predicate EnabledInRole(gs: seq<Guest>, role: string) {
    exists i :: 0 <= i < |gs| && gs[i].role == role && Enabled(gs[i])
  }

  /** At most one guest of a role is enabled, and one is exactly in the roles that have an active guest. */
  ghost predicate OnePerRole(gs: seq<Guest>, roles: seq<R.Role>) {
    && (forall i, j :: 0 <= i < j < |gs| && gs[i].role == gs[j].role ==> !Enabled(gs[i]) || !Enabled(gs[j]))
    && (forall i :: 0 <= i < |gs| && Enabled(gs[i]) ==> R.ActiveGuest(roles, gs[i].role).Some?)
    && (forall role :: R.ActiveGuest(roles, role).Some? ==> EnabledInRole(gs, role))
  }

  ghost predicate AllSafe(gs: seq<Guest>, sys: SysState) {
    forall i :: 0 <= i < |gs| ==> Safe(gs[i]) && Mode(gs[i], sys)
  }

  ghost predicate Inv(s: State) {
    && Aligned(s.guests, s.cfgs) && R.Bound(s.cfgs, s.roles)
    && AllSafe(s.guests, s.sys)
    && OnePerRole(s.guests, s.roles)
  }

  // ---- updates of single guests -------------------------------------------------------------------

  /** Every guest of `s1` is the same configured guest as in `s0`, enabled if and only if it was. */
  ghost predicate SameEnabled(gs0: seq<Guest>, gs1: seq<Guest>) {
    && |gs1| == |gs0|
    && forall i :: 0 <= i < |gs0| ==> SameGuest(gs0[i], gs1[i]) && (Enabled(gs1[i]) <==> Enabled(gs0[i]))
  }

  lemma SameEnabledKeeps(gs0: seq<Guest>, gs1: seq<Guest>, cfgs: seq<R.Config>, roles: seq<R.Role>)
    requires Aligned(gs0, cfgs) && OnePerRole(gs0, roles) && SameEnabled(gs0, gs1)
    ensures Aligned(gs1, cfgs) && OnePerRole(gs1, roles)
  {
    forall role | R.ActiveGuest(roles, role).Some? ensures EnabledInRole(gs1, role) {
      assert EnabledInRole(gs0, role);
      var i :| 0 <= i < |gs0| && gs0[i].role == role && Enabled(gs0[i]);
      assert gs1[i].role == role && Enabled(gs1[i]);
    }
  }

  /** Replacing guest `i` by a safe successor keeps the invariant. */
  lemma PutKeeps(s: State, i: nat, g: Guest, w: World)
    requires Inv(s) && i < |s.guests| && Safe(g) && Mode(g, s.sys)
    requires SameGuest(s.guests[i], g) && (Enabled(g) <==> Enabled(s.guests[i]))
    ensures Inv(Put(s, i, g, w))
  {
    hide Safe, Mode, R.Bound;
    SameEnabledKeeps(s.guests, Put(s, i, g, w).guests, s.cfgs, s.roles);
  }

  // ---- the cyclic pass, run mode ----------------------------------------------------------------------

  /** Between two states of one pass: guests settle, and guests that are stopping are not touched. */
  ghost predicate PassStep(s0: State, s1: State) {
    && s1.sys == s0.sys && s1.roles == s0.roles && s1.cfgs == s0.cfgs && |s1.guests| == |s0.guests|
    && s1.links == s0.links
    && (forall i :: 0 <= i < |s0.guests| ==> Settles(s0.guests[i], s1.guests[i], s0.sys))
    && (forall i :: 0 <= i < |s0.guests| && Stopping(s0.guests[i]) ==> s1.guests[i] == s0.guests[i])
  }

  lemma PassStepReflexive(s: State)
    ensures PassStep(s, s)
  {
  }

  lemma PassStepTransitive(s0: State, s1: State, s2: State)
    requires PassStep(s0, s1) && PassStep(s1, s2)
    ensures PassStep(s0, s2)
  {
  }

  lemma PutIsPassStep(s: State, i: nat, g: Guest, w: World)
    requires i < |s.guests| && Settles(s.guests[i], g, s.sys) && (Stopping(s.guests[i]) ==> g == s.guests[i])
    ensures PassStep(s, Put(s, i, g, w))
  {
  }

  /** `i` is handed over to `a`: bare, without instance and disabled, before `a` is launched. */
  ghost predicate HandedOver(s0: State, s1: State, i: nat, a: nat)
    requires i < |s0.guests| == |s1.guests| && a < |s0.guests|
  {
    && i != a && s0.guests[i].role == s0.guests[a].role
    && Enabled(s0.guests[i]) && !Enabled(s0.guests[a])
    && s1.guests[i].status.Disable? && !s1.guests[i].lxc && Bare(s1.guests[i])
    && Enabled(s1.guests[a])
  }

  /** Handing a role over keeps one enabled guest in it. */
  lemma HandOverKeepsOne(gs: seq<Guest>, i: nat, g: Guest, a: nat, h: Guest, cfgs: seq<R.Config>, roles: seq<R.Role>)
    requires Aligned(gs, cfgs) && OnePerRole(gs, roles) && i < |gs| && a < |gs| && i != a
    requires gs[i].role == gs[a].role && Enabled(gs[i])
    requires SameGuest(gs[i], g) && SameGuest(gs[a], h) && !Enabled(g) && Enabled(h)
    ensures Aligned(gs[i := g][a := h], cfgs) && OnePerRole(gs[i := g][a := h], roles)
  {
    hide SameRoot, SameDisks;
    var gs1 := gs[i := g][a := h];
    forall role | R.ActiveGuest(roles, role).Some? ensures EnabledInRole(gs1, role) {
      assert EnabledInRole(gs, role);
      var j :| 0 <= j < |gs| && gs[j].role == role && Enabled(gs[j]);
      var k := if j == i then a else j;
      assert gs1[k].role == role && Enabled(gs1[k]);
    }
  }

  lemma SwitchKeeps(s: State, i: nat, a: nat)
    requires Inv(s) && s.sys.Run? && i < |s.guests| && s.guests[i].status.NotStarted?
    requires R.ActiveGuest(s.roles, s.guests[i].role) == Some(a) && a < |s.guests| && a != i
    ensures Inv(Switch(s, i, a)) && PassStep(s, Switch(s, i, a)) && HandedOver(s, Switch(s, i, a), i, a)
    ensures Later(s.w, Switch(s, i, a).w)
  {
    hide Safe, Mode, R.Bound, Cleanup, Start, Aligned;
    assert s.guests[a].role == s.guests[i].role by {
      ActiveInRole(s, i);
    }
    assert !Enabled(s.guests[a]);
    hide OnePerRole;
    HandOverSafe(s.guests[i], s.w);
    var (g, w1) := Cleanup(s.guests[i].(status := Disable), s.w, 0);
    EnableSafe(s.guests[a], w1);
    var r := Start(s.guests[a].(status := NotStarted), w1);
    var s1 := Switch(s, i, a);
    assert s1 == s.(guests := s.guests[i := g][a := r.g], w := r.w);
    HandOverKeepsOne(s.guests, i, g, a, r.g, s.cfgs, s.roles);
    PutIsPassStep(s, i, g, w1);
    PutIsPassStep(Put(s, i, g, w1), a, r.g, r.w);
    PassStepTransitive(s, Put(s, i, g, w1), s1);
  }

  lemma ActiveInRole(s: State, i: nat)
    requires Inv(s) && i < |s.guests| && R.ActiveGuest(s.roles, s.guests[i].role).Some?
    ensures var a := R.ActiveGuest(s.roles, s.guests[i].role).value;
            a < |s.guests| && s.guests[a].role == s.guests[i].role
  {
    R.ActiveHasRole(s.cfgs, s.roles, s.guests[i].role);
  }

  lemma VisitKeeps(s: State, i: nat)
    requires Inv(s) && s.sys.Run? && i < |s.guests|
    ensures Inv(Visit(s, i)) && PassStep(s, Visit(s, i)) && Later(s.w, Visit(s, i).w)
  {
    hide Safe, Mode, R.Bound, OnePerRole, Switch, Start, IdleActive, PollWorker;
    var g := s.guests[i];
    match g.status
    case Dead =>
      RelaunchSafe(g, s.w);
      PutKeeps(s, i, Start(g, s.w).g, Start(g, s.w).w);
    case NotStarted =>
      var a := R.ActiveGuest(s.roles, g.role);
      if a.Some? && a.value < |s.guests| {
        if a.value != i {
          SwitchKeeps(s, i, a.value);
        } else {
          IdleActiveSafe(g, s.w);
          PutKeeps(s, i, IdleActive(g, s.w).0, IdleActive(g, s.w).1);
        }
      }
    case RunWorker =>
      PollWorkerSafe(g, s.w);
      PutKeeps(s, i, PollWorker(g, s.w).0, PollWorker(g, s.w).1);
    case _ =>
  }

  lemma {:induction false} VisitFromKeeps(s: State, i: nat)
    requires Inv(s) && s.sys.Run? && i <= |s.guests|
    ensures Inv(VisitFrom(s, i)) && PassStep(s, VisitFrom(s, i)) && Later(s.w, VisitFrom(s, i).w)
    decreases |s.guests| - i
  {
    hide Safe, Mode, R.Bound, OnePerRole, Visit, Inv, Settles;
    if i < |s.guests| {
      VisitKeeps(s, i);
      VisitFromKeeps(Visit(s, i), i + 1);
      PassStepTransitive(s, Visit(s, i), VisitFrom(s, i));
    } else {
      PassStepReflexive(s);
    }
  }

  lemma KillAllKeeps(s: State, now: int)
    requires Inv(s)
    ensures var s1 := s.(guests := KillAll(s.guests, now, s.sys));
            Inv(s1) && forall i :: 0 <= i < |s.guests| ==> Settles(s.guests[i], s1.guests[i], s.sys)
  {
    hide Safe, Mode, R.Bound, OnePerRole, KillAll;
    var s1 := s.(guests := KillAll(s.guests, now, s.sys));
    forall i | 0 <= i < |s.guests|
      ensures Safe(s1.guests[i]) && Mode(s1.guests[i], s.sys) && Settles(s.guests[i], s1.guests[i], s.sys)
    {
      assert Safe(s.guests[i]) && Mode(s.guests[i], s.sys);
      KillOnTimeoutSafe(s.guests[i], now, s.sys);
    }
    hide KillOnTimeout;
    SameEnabledKeeps(s.guests, s1.guests, s.cfgs, s.roles);
  }

  lemma DelayedAtKeeps(s: State, i: nat)
    requires Inv(s) && s.sys.Run? && i < |s.guests|
    ensures var (g, w1) := DoDelayed(s.guests[i], s.w);
            && Inv(Put(s, i, g, w1)) && PassStep(s, Put(s, i, g, w1)) && Later(s.w, w1) && g.status == s.guests[i].status
  {
    hide Safe, Mode, R.Bound, OnePerRole, DoDelayed;
    DoDelayedSafe(s.guests[i], s.w);
    var (g, w1) := DoDelayed(s.guests[i], s.w);
    PutKeeps(s, i, g, w1);
    PutIsPassStep(s, i, g, w1);
  }

  lemma {:induction false} DelayedFromKeeps(s: State, i: nat)
    requires Inv(s) && s.sys.Run? && i <= |s.guests|
    ensures Inv(DelayedFrom(s, i)) && PassStep(s, DelayedFrom(s, i)) && Later(s.w, DelayedFrom(s, i).w)
    ensures forall j :: 0 <= j < |s.guests| ==> DelayedFrom(s, i).guests[j].status == s.guests[j].status
    decreases |s.guests| - i
  {
    hide Inv, Settles, DoDelayed;
    if i < |s.guests| {
      DelayedAtKeeps(s, i);
      var (g, w1) := DoDelayed(s.guests[i], s.w);
      DelayedFromKeeps(Put(s, i, g, w1), i + 1);
      PassStepTransitive(s, Put(s, i, g, w1), DelayedFrom(s, i));
    } else {
      PassStepReflexive(s);
    }
  }

  // ---- the cyclic pass, shutdown mode --------------------------------------------------------------------

  lemma DrainAtKeeps(s: State, i: nat)
    requires Inv(s) && s.sys.Stop? && i < |s.guests|
    ensures var (g, w1) := DrainWorker(s.guests[i], s.w);
            && Inv(Put(s, i, g, w1)) && PassStep(s, Put(s, i, g, w1)) && Later(s.w, w1)
            && (Gone(s.guests[i]) ==> g == s.guests[i])
            && g.deadline == s.guests[i].deadline && (g.status == s.guests[i].status || g.status.Exit?)
  {
    hide Safe, Mode, R.Bound, OnePerRole, DrainWorker;
    DrainWorkerSafe(s.guests[i], s.w);
    var (g, w1) := DrainWorker(s.guests[i], s.w);
    PutKeeps(s, i, g, w1);
    PutIsPassStep(s, i, g, w1);
  }

  lemma {:induction false} DrainFromKeeps(s: State, i: nat)
    requires Inv(s) && s.sys.Stop? && i <= |s.guests|
    ensures var s1 := DrainFrom(s, i);
            && Inv(s1) && PassStep(s, s1) && Later(s.w, s1.w)
            && (AllGone(s.guests) ==> s1.guests == s.guests)
            && (forall j :: 0 <= j < |s.guests| ==>
                  s1.guests[j].deadline == s.guests[j].deadline
                  && (s1.guests[j].status == s.guests[j].status || s1.guests[j].status.Exit?))
    decreases |s.guests| - i
  {
    hide Inv, Settles, DrainWorker, Gone;
    if i == |s.guests| {
      PassStepReflexive(s);
    } else {
      DrainAtKeeps(s, i);
      var (g, w1) := DrainWorker(s.guests[i], s.w);
      if AllGone(s.guests) {
        assert s.guests[i := g] == s.guests;
      }
      DrainFromKeeps(Put(s, i, g, w1), i + 1);
      PassStepTransitive(s, Put(s, i, g, w1), DrainFrom(s, i));
    }
  }

  /** One cyclic pass keeps the invariant, puts no guest into a stopping state and moves no deadline. */
  lemma InternalEventKeeps(s: State)
    requires Inv(s)
    ensures var s1 := InternalEvent(s);
            && Inv(s1) && s.w.clock <= s1.w.clock
            && (forall i :: 0 <= i < |s.guests| ==> Settles(s.guests[i], s1.guests[i], s.sys))
  {
    hide Inv, Settles, RunPass, StopPass;
    match s.sys
    case Run => RunPassKeeps(s);
    case Stop => StopPassKeeps(s);
  }

  ghost predicate AllSettle(gs0: seq<Guest>, gs1: seq<Guest>, sys: SysState) {
    |gs1| == |gs0| && forall i :: 0 <= i < |gs0| ==> Settles(gs0[i], gs1[i], sys)
  }

  lemma AllSettleTransitive(gs0: seq<Guest>, gs1: seq<Guest>, gs2: seq<Guest>, sys: SysState)
    requires AllSettle(gs0, gs1, sys) && AllSettle(gs1, gs2, sys)
    ensures AllSettle(gs0, gs2, sys)
  {
    forall i | 0 <= i < |gs0| ensures Settles(gs0[i], gs2[i], sys) {
      assert Settles(gs0[i], gs1[i], sys) && Settles(gs1[i], gs2[i], sys);
    }
  }

  lemma ClockKeeps(s: State)
    requires Inv(s)
    ensures Inv(s.(w := Now(s.w).1)) && Later(s.w, Now(s.w).1)
  {
    hide Safe, Mode, R.Bound, OnePerRole;
  }

  lemma RunPassKeeps(s: State)
    requires Inv(s) && s.sys.Run?
    ensures Inv(RunPass(s)) && s.w.clock <= RunPass(s).w.clock && AllSettle(s.guests, RunPass(s).guests, Run)
  {
    hide Inv, Settles, VisitFrom, DelayedFrom, KillAll;
    var (now, w1) := Now(s.w);
    ClockKeeps(s);
    VisitFromKeeps(s.(w := w1), 0);
    var s1 := VisitFrom(s.(w := w1), 0);
    KillAllKeeps(s1, now);
    var s2 := s1.(guests := KillAll(s1.guests, now, Run));
    DelayedFromKeeps(s2, 0);
    AllSettleTransitive(s.guests, s1.guests, s2.guests, Run);
    AllSettleTransitive(s.guests, s2.guests, DelayedFrom(s2, 0).guests, Run);
  }

  lemma StopPassKeeps(s: State)
    requires Inv(s) && s.sys.Stop?
    ensures Inv(StopPass(s)) && s.w.clock <= StopPass(s).w.clock && AllSettle(s.guests, StopPass(s).guests, Stop)
  {
    hide Inv, Settles, DrainFrom, KillAll, AllGone;
    var (now, w1) := Now(s.w);
    ClockKeeps(s);
    DrainFromKeeps(s.(w := w1), 0);
    var s1 := DrainFrom(s.(w := w1), 0);
    KillAllKeeps(s1, now);
    AllSettleTransitive(s.guests, s1.guests, KillAll(s1.guests, now, Stop), Stop);
  }

  // ---- events -----------------------------------------------------------------------------------------------

  lemma {:induction false} NetifFromKeeps(s: State, i: nat)
    requires Inv(s) && i <= |s.guests|
    ensures var s1 := NetifFrom(s, i);
            Inv(s1) && s1.sys == s.sys && forall j :: 0 <= j < |s.guests| ==> Settles(s.guests[j], s1.guests[j], s.sys)
    decreases |s.guests| - i
  {
    hide Safe, Mode, R.Bound, OnePerRole, UpdateNetif;
    if i < |s.guests| {
      UpdateNetifSafe(s.guests[i], s.links, s.w, s.sys);
      var (g, w1) := UpdateNetif(s.guests[i], s.links, s.w);
      PutKeeps(s, i, g, w1);
      NetifFromKeeps(Put(s, i, g, w1), i + 1);
    }
  }

  /** One request to one guest. */
  lemma RequestKeeps(s: State, i: nat, reboot: bool)
    requires Inv(s) && i < |s.guests|
    ensures var r := if reboot then RequestReboot(s.guests[i], s.w, s.sys) else RequestShutdown(s.guests[i], s.w, s.sys);
            Inv(Put(s, i, r.g, r.w)) && Stops(s.guests[i], r.g, s.sys, s.w, r.w) && Later(s.w, r.w)
  {
    hide Safe, Mode, R.Bound, OnePerRole, RequestReboot, RequestShutdown;
    RequestRebootSafe(s.guests[i], s.w, s.sys);
    RequestShutdownSafe(s.guests[i], s.w, s.sys);
    var r := if reboot then RequestReboot(s.guests[i], s.w, s.sys) else RequestShutdown(s.guests[i], s.w, s.sys);
    PutKeeps(s, i, r.g, r.w);
  }

  lemma {:induction false} CommandKeeps(s: State, i: nat, name: string, byRole: bool, reboot: bool, accepted: bool)
    requires Inv(s) && i <= |s.guests|
    ensures var s1 := CommandFrom(s, i, name, byRole, reboot, accepted).0;
            && Inv(s1) && Later(s.w, s1.w) && (forall j :: 0 <= j < i ==> s1.guests[j] == s.guests[j])
            && forall j :: 0 <= j < |s.guests| ==> Stops(s.guests[j], s1.guests[j], s.sys, s.w, s1.w)
    decreases |s.guests| - i
  {
    hide Inv, RequestReboot, RequestShutdown, Addressed, Stops;
    if i < |s.guests| {
      if !Addressed(s.guests[i], name, byRole) {
        CommandKeeps(s, i + 1, name, byRole, reboot, accepted);
      } else {
        RequestKeeps(s, i, reboot);
        var r := if reboot then RequestReboot(s.guests[i], s.w, s.sys) else RequestShutdown(s.guests[i], s.w, s.sys);
        CommandKeeps(Put(s, i, r.g, r.w), i + 1, name, byRole, reboot, accepted || r.ret == 0);
        var s1 := CommandFrom(s, i, name, byRole, reboot, accepted).0;
        forall j | 0 <= j < |s.guests| ensures Stops(s.guests[j], s1.guests[j], s.sys, s.w, s1.w) {
          if j == i {
            StopsWiden(s.guests[i], r.g, s.sys, s.w, r.w, s.w, s1.w);
          } else {
            StopsWiden(s.guests[j], s1.guests[j], s.sys, r.w, s1.w, s.w, s1.w);
          }
        }
      }
    } else {
      forall j | 0 <= j < |s.guests| ensures Stops(s.guests[j], s.guests[j], s.sys, s.w, s.w) {
        StopsReflexive(s.guests[j], s.sys, s.w);
      }
    }
  }

  lemma StopsReflexive(g: Guest, sys: SysState, w: World)
    ensures Stops(g, g, sys, w, w)
  {}

  /** While the shutdown request goes round, guests before `i` are in shutdown mode already. */
  lemma {:induction false} ShutdownFromKeeps(s: State, i: nat)
    requires i <= |s.guests| && s.sys.Stop?
    requires forall j :: 0 <= j < |s.guests| ==> Safe(s.guests[j])
    requires forall j :: 0 <= j < i ==> Mode(s.guests[j], Stop)
    requires forall j :: i <= j < |s.guests| ==> Mode(s.guests[j], Run) || Mode(s.guests[j], Stop)
    ensures var s1 := ShutdownFrom(s, i);
            && (forall j :: 0 <= j < |s.guests| ==>
                  Safe(s1.guests[j]) && Mode(s1.guests[j], Stop) && Stops(s.guests[j], s1.guests[j], Stop, s.w, s1.w))
            && (forall j :: 0 <= j < i ==> s1.guests[j] == s.guests[j]) && Later(s.w, s1.w)
    decreases |s.guests| - i
  {
    hide Safe, Mode, RequestShutdown;
    if i < |s.guests| {
      ShutdownEntersStop(s.guests[i], s.w);
      var r := RequestShutdown(s.guests[i], s.w, Stop);
      ShutdownFromKeeps(Put(s, i, r.g, r.w), i + 1);
    }
  }

  lemma ManagerShutdownKeeps(s: State)
    requires Inv(s)
    ensures var s1 := ManagerShutdown(s);
            && Inv(s1) && Later(s.w, s1.w)
            && forall j :: 0 <= j < |s.guests| ==> Stops(s.guests[j], s1.guests[j], Stop, s.w, s1.w)
  {
    ShutdownFromKeeps(s.(sys := Stop), 0);
    hide Safe, Mode, R.Bound;
    SameEnabledKeeps(s.guests, ManagerShutdown(s).guests, s.cfgs, s.roles);
  }

  lemma TestTriggerKeeps(s: State, code: int)
    requires Inv(s)
    ensures Inv(TestTrigger(s, code))
    ensures forall j :: 0 <= j < |s.guests| ==> Settles(s.guests[j], TestTrigger(s, code).guests[j], s.sys)
  {
    hide Safe, Mode, R.Bound, OnePerRole;
    var target := R.Named(s.cfgs, TEST_GUEST, 0);
    if 0 < target < |s.guests| && target < |s.cfgs| && (code == 0 || code == 1) {
      var r := Q.Schedule(s.guests[target].queue, if code == 0 then "fsck" else "erase", TEST_DEVICE, 1, s.w);
      ScheduleSafe(s.guests[target], if code == 0 then "fsck" else "erase", TEST_DEVICE, s.w, s.sys);
      PutKeeps(s, target, s.guests[target].(queue := r.q), r.w);
    } else if 0 < target < |s.guests| && target < |s.cfgs| && code == 2 {
      PutKeeps(s, target, s.guests[target], Try(s.w).1);
    }
  }

  lemma WorkerEndsKeeps(s: State, n: nat, ret: int)
    requires Inv(s)
    ensures Inv(WorkerEnds(s, n, ret))
    ensures forall j :: 0 <= j < |s.guests| ==> Settles(s.guests[j], WorkerEnds(s, n, ret).guests[j], s.sys)
  {
    hide Safe, Mode, R.Bound, OnePerRole;
    if n < |s.guests| && s.guests[n].queue.status.Started? {
      FinishSafe(s.guests[n], ret, s.sys);
      PutKeeps(s, n, s.guests[n].(queue := Q.Finish(s.guests[n].queue, ret)), s.w);
    }
  }

  lemma ChangeKeeps(s: State, name: string)
    requires Inv(s)
    ensures Inv(s.(roles := R.Change(s.cfgs, s.roles, name).1))
  {
    R.ChangeKeepsBound(s.cfgs, s.roles, name);
  }

  lemma GuestExitedKeeps(s: State, n: int)
    requires Inv(s)
    ensures var s1 := GuestExited(s, n);
            Inv(s1) && s1.w == s.w
            && forall j :: 0 <= j < |s.guests| ==> Settles(s.guests[j], s1.guests[j], s.sys)
  {
    hide Safe, Mode, R.Bound, OnePerRole, Exited;
    if 0 <= n < |s.guests| {
      ExitedSafe(s.guests[n], s.sys);
      PutKeeps(s, n, Exited(s.guests[n], s.sys), s.w);
    }
  }

  /**
   What one event may do to a guest.  A guest that is stopping afterwards either was stopping with the
   same deadline, or was running and got its deadline `timeout` after a clock reading within the event.
   Once the system shuts down nothing is launched, and exited and disabled guests stay so.
   */
  ghost predicate EventStep(g0: Guest, g1: Guest, s0: State, s1: State) {
    && SameGuest(g0, g1)
    && (Stopping(g1) ==> if Stopping(g0) then g1.deadline == g0.deadline
                         else g0.status.Started? && s0.w.clock <= g1.deadline - g0.timeout <= s1.w.clock)
    && (s0.sys.Stop? ==>
          && s1.sys.Stop?
          && (g0.status.Exit? ==> g1.status.Exit?) && (g0.status.Disable? ==> g1.status.Disable?)
          && (!g0.lxc ==> !g1.lxc))
  }

  lemma SettledStep(s0: State, s1: State)
    requires s0.sys.Stop? ==> s1.sys.Stop?
    requires AllSettle(s0.guests, s1.guests, s0.sys)
    ensures forall i :: 0 <= i < |s0.guests| ==> EventStep(s0.guests[i], s1.guests[i], s0, s1)
  {}

  lemma StoppedStep(s0: State, s1: State)
    requires |s1.guests| == |s0.guests| && (s0.sys.Stop? ==> s1.sys.Stop?)
    requires forall i :: 0 <= i < |s0.guests| ==> Stops(s0.guests[i], s1.guests[i], s1.sys, s0.w, s1.w)
    ensures forall i :: 0 <= i < |s0.guests| ==> EventStep(s0.guests[i], s1.guests[i], s0, s1)
  {}

  lemma LinksKeep(s: State, links: seq<N.Link>)
    requires Inv(s)
    ensures Inv(s.(links := links))
  {
    hide Safe, Mode, R.Bound, OnePerRole;
  }

  lemma AllSettleReflexive(gs: seq<Guest>, sys: SysState)
    ensures AllSettle(gs, gs, sys)
  {}

  /** What the event's own handler does, before the pass. */
  lemma HandledKeeps(s: State, e: Event)
    requires Inv(s)
    ensures var s1 := Handled(s, e);
            && Inv(s1) && (forall i :: 0 <= i < |s.guests| ==> EventStep(s.guests[i], s1.guests[i], s, s1))
  {
    hide Inv, Settles, Stops, EventStep, NetifFrom, GuestExited, ManagerShutdown, CommandFrom, TestTrigger, WorkerEnds;
    var s1 := Handled(s, e);
    AllSettleReflexive(s.guests, s.sys);
    match e {
      case NetifUpdated => NetifFromKeeps(s, 0);
      case GuestExit(n) => GuestExitedKeeps(s, n);
      case SystemShutdown => ManagerShutdownKeeps(s);
      case ShutdownCommand(name, byRole) => CommandKeeps(s, 0, name, byRole, false, false);
      case RebootCommand(name, byRole) => CommandKeeps(s, 0, name, byRole, true, false);
      case ChangeCommand(name) => ChangeKeeps(s, name);
      case TestCommand(code) => TestTriggerKeeps(s, code);
      case WorkerFinished(n, ret) => WorkerEndsKeeps(s, n, ret);
      case LinkMessage(_, _, _) => LinksKeep(s, s1.links);
      case _ =>
    }
    if e.SystemShutdown? || e.ShutdownCommand? || e.RebootCommand? {
      StoppedStep(s, s1);
    } else {
      SettledStep(s, s1);
    }
  }

  /** A pass after the handler stays within what one event may do. */
  lemma PassAfter(g0: Guest, g1: Guest, g2: Guest, s0: State, s1: State, s2: State)
    requires EventStep(g0, g1, s0, s1) && Settles(g1, g2, s1.sys)
    requires s2.sys == s1.sys && s1.w.clock <= s2.w.clock && (s0.sys.Stop? ==> s1.sys.Stop?)
    ensures EventStep(g0, g2, s0, s2)
  {}

  lemma StepKeeps(s: State, e: Event)
    requires Inv(s)
    ensures var s1 := Step(s, e);
            && Inv(s1)
            && (forall i :: 0 <= i < |s.guests| ==> EventStep(s.guests[i], s1.guests[i], s, s1))
            && (e.SystemShutdown? ==> s1.sys.Stop?)
  {
    hide Inv, InternalEvent, Handled, EventStep, Settles;
    HandledKeeps(s, e);
    if Internal(e) {
      var s1 := Handled(s, e);
      InternalEventKeeps(s1);
      forall i | 0 <= i < |s.guests| ensures EventStep(s.guests[i], InternalEvent(s1).guests[i], s, InternalEvent(s1)) {
        PassAfter(s.guests[i], s1.guests[i], InternalEvent(s1).guests[i], s, s1, InternalEvent(s1));
      }
    }
  }

  lemma {:induction false} StepsKeep(s: State, events: seq<Event>)
    requires Inv(s)
    ensures Inv(Steps(s, events))
    decreases |events|
  {
    if events != [] {
      StepKeeps(s, events[0]);
      StepsKeep(Step(s, events[0]), events[1..]);
    }
  }
}
