/** What an event, and the cyclic pass behind it, does for each guest. */
module LifecycleOutcomes {
  import opened Host
  import opened Options
  import opened DelayedMounts
  import opened Guest
  import opened GuestSafety
  import opened GuestOutcomes
  import opened Lifecycle
  import opened LifecycleSafety
  import R = Roles
  import N = NetIf
  import Q = WorkQueue

  // ---- the turn of one guest in the pass ------------------------------------------------------

  /** Guest `i` is not launched by the turn of another one: it is enabled, or not its role's active guest. */
  ghost predicate Untargeted(s: State, i: nat)
    requires i < |s.guests|
  {
    Enabled(s.guests[i]) || R.ActiveGuest(s.roles, s.guests[i].role) != Some(i)
  }

  /** Guest `i` is about to hand its role over to guest `a`. */
  ghost predicate HandsOver(s: State, i: nat, a: nat)
    requires i < |s.guests|
  {
    i != a && s.guests[i].status.NotStarted? && R.ActiveGuest(s.roles, s.guests[i].role) == Some(a)
  }

  lemma VisitApart(s: State, k: nat, i: nat)
    requires k < |s.guests| && i < |s.guests| && k != i
    requires !(s.guests[k].status.NotStarted? && R.ActiveGuest(s.roles, s.guests[k].role) == Some(i))
    ensures Visit(s, k).guests[i] == s.guests[i]
  {
    hide Start, Cleanup, IdleActive, PollWorker, R.ActiveGuest;
  }

  lemma NotTargeted(s: State, k: nat, i: nat)
    requires Inv(s) && k < |s.guests| && i < |s.guests| && k != i && Untargeted(s, i)
    ensures !(s.guests[k].status.NotStarted? && R.ActiveGuest(s.roles, s.guests[k].role) == Some(i))
  {
    hide Safe, Mode, R.ActiveGuest, R.Bound;
    if s.guests[k].status.NotStarted? && R.ActiveGuest(s.roles, s.guests[k].role) == Some(i) {
      ActiveInRole(s, k);
    }
  }

  /** Until guest `i` hands its role over to `a`, nobody else launches `a`. */
  lemma NotYetTargeted(s: State, k: nat, i: nat, a: nat)
    requires Inv(s) && k < |s.guests| && i < |s.guests| && k != i && a < |s.guests| && HandsOver(s, i, a)
    ensures !(s.guests[k].status.NotStarted? && R.ActiveGuest(s.roles, s.guests[k].role) == Some(a))
  {
    hide Safe, Mode, R.ActiveGuest, R.Bound;
    if s.guests[k].status.NotStarted? && R.ActiveGuest(s.roles, s.guests[k].role) == Some(a) {
      ActiveInRole(s, k);
      ActiveInRole(s, i);
    }
  }

  /** The state in which the turn of guest `i` comes; the guest `a` it hands over to, if any, has not been touched either. */
  lemma {:induction false} TurnComes(s: State, k: nat, i: nat, a: nat) returns (s1: State)
    requires Inv(s) && s.sys.Run? && k <= i < |s.guests| && Untargeted(s, i)
    requires a < |s.guests| && (a == i || HandsOver(s, i, a))
    ensures Inv(s1) && PassStep(s, s1) && Later(s.w, s1.w)
    ensures s1.guests[i] == s.guests[i] && s1.guests[a] == s.guests[a]
    ensures VisitFrom(s, k) == VisitFrom(s1, i)
    decreases i - k
  {
    hide Inv, Settles, Visit, R.ActiveGuest;
    if k == i {
      PassStepReflexive(s);
      s1 := s;
    } else {
      VisitKeeps(s, k);
      NotTargeted(s, k, i);
      VisitApart(s, k, i);
      if a != i {
        NotYetTargeted(s, k, i, a);
        if k != a {
          VisitApart(s, k, a);
        } else {
          HandsOverToDisabled(s, i, a);
          DisabledRests(s, a);
        }
      }
      s1 := TurnComes(Visit(s, k), k + 1, i, a);
      PassStepTransitive(s, Visit(s, k), s1);
    }
  }

  lemma HandsOverToDisabled(s: State, i: nat, a: nat)
    requires Inv(s) && i < |s.guests| && a < |s.guests| && HandsOver(s, i, a)
    ensures s.guests[a].status.Disable? && s.guests[a].role == s.guests[i].role
  {
    hide Safe, Mode, R.ActiveGuest, R.Bound;
    ActiveInRole(s, i);
  }

  lemma DisabledRests(s: State, a: nat)
    requires a < |s.guests| && s.guests[a].status.Disable?
    ensures Visit(s, a) == s
  {}

  lemma {:induction false} TurnOver(s: State, k: nat, i: nat)
    requires Inv(s) && s.sys.Run? && i < k <= |s.guests| && Untargeted(s, i)
    ensures VisitFrom(s, k).guests[i] == s.guests[i]
    decreases |s.guests| - k
  {
    hide Inv, Settles, Visit, R.ActiveGuest;
    if k < |s.guests| {
      VisitKeeps(s, k);
      NotTargeted(s, k, i);
      VisitApart(s, k, i);
      TurnOver(Visit(s, k), k + 1, i);
    }
  }

  /** What the turn of guest `i` makes of it, between the worlds `w1` and `w2`. */
  ghost predicate OwnTurn(roles: seq<R.Role>, i: nat, g: Guest, g1: Guest, w1: World, w2: World) {
    match g.status
    case Dead => var r := Start(g, w1); (g1, w2) == (r.g, r.w)
    case NotStarted =>
      if R.ActiveGuest(roles, g.role) == Some(i) then (g1, w2) == IdleActive(g, w1)
      else g1 == Cleanup(g.(status := Disable), w1, 0).0 && Later(w1, w2)
    case RunWorker => (g1, w2) == PollWorker(g, w1)
    case _ => g1 == g && w1 == w2
  }

  /** Its own turn disables a guest only when another one is the active guest of its role. */
  lemma StaysUntargeted(s: State, i: nat)
    requires Inv(s) && s.sys.Run? && i < |s.guests| && Untargeted(s, i)
    ensures Untargeted(Visit(s, i), i)
  {
    var g := s.guests[i];
    VisitKeeps(s, i);
    SafeAt(s, i);
    assert Visit(s, i).guests[i].role == g.role;
    hide Inv, Safe, Mode, Settles, Start, Cleanup, IdleActive, PollWorker, R.ActiveGuest;
    match g.status
    case Dead => RelaunchSafe(g, s.w);
    case NotStarted => IdleActiveSafe(g, s.w);
    case RunWorker => PollWorkerSafe(g, s.w);
    case _ =>
  }

  lemma SafeAt(s: State, i: nat)
    requires Inv(s) && i < |s.guests|
    ensures Safe(s.guests[i]) && Mode(s.guests[i], s.sys)
  {}

  /** The turn itself, in a state where it has come. */
  lemma TurnTaken(s: State, i: nat) returns (w2: World)
    requires Inv(s) && s.sys.Run? && i < |s.guests| && Untargeted(s, i)
    ensures var s1 := Visit(s, i);
            Inv(s1) && PassStep(s, s1) && Later(w2, s1.w) && Untargeted(s1, i)
    ensures OwnTurn(s.roles, i, s.guests[i], Visit(s, i).guests[i], s.w, w2) && Later(s.w, w2)
  {
    hide Inv, Settles, Start, Cleanup, IdleActive, PollWorker, R.ActiveGuest, Untargeted;
    VisitKeeps(s, i);
    StaysUntargeted(s, i);
    w2 := Visit(s, i).w;
    if s.guests[i].status.NotStarted? {
      ActiveThere(s, i);
      ActiveInRole(s, i);
    }
  }

  lemma ActiveThere(s: State, i: nat)
    requires Inv(s) && i < |s.guests| && Enabled(s.guests[i])
    ensures R.ActiveGuest(s.roles, s.guests[i].role).Some?
  {
    hide Safe, Mode, R.ActiveGuest, R.Bound;
  }

  /** The loop over the guests from `k` on: the turn of guest `i`, if it is among them, comes once, and nothing else touches it. */
  lemma LoopDone(s: State, k: nat, i: nat) returns (w1: World, w2: World)
    requires Inv(s) && s.sys.Run? && k <= |s.guests| && i < |s.guests| && Untargeted(s, i)
    ensures var s1 := VisitFrom(s, k);
            && Later(s.w, w1) && Later(w1, w2) && Later(w2, s1.w) && (!Stopping(s.guests[i]) ==> !Stopping(s1.guests[i]))
            && if k <= i then OwnTurn(s.roles, i, s.guests[i], s1.guests[i], w1, w2) else s1.guests[i] == s.guests[i]
  {
    hide Inv, Visit, OwnTurn, R.ActiveGuest, SameGuest;
    VisitFromKeeps(s, k);
    if k <= i {
      var s1 := TurnComes(s, k, i, i);
      w1 := s1.w;
      w2 := TurnTaken(s1, i);
      VisitFromKeeps(Visit(s1, i), i + 1);
      TurnOver(Visit(s1, i), i + 1, i);
      assert VisitFrom(s1, i) == VisitFrom(Visit(s1, i), i + 1);
    } else {
      w1, w2 := s.w, s.w;
      TurnOver(s, k, i);
    }
  }

  // ---- the whole pass, run mode ---------------------------------------------------------------

  lemma {:induction false} DelayedTurn(s: State, k: nat, i: nat) returns (w1: World)
    requires Inv(s) && s.sys.Run? && k <= i < |s.guests|
    ensures var s1 := DelayedFrom(s, k);
            && Later(s.w, w1) && Later(DoDelayed(s.guests[i], w1).1, s1.w) && s1.guests[i] == DoDelayed(s.guests[i], w1).0
    decreases i - k
  {
    hide Inv, Settles, DoDelayed;
    DelayedAtKeeps(s, k);
    var (g, w) := DoDelayed(s.guests[k], s.w);
    if k == i {
      w1 := s.w;
      DelayedFromKeeps(Put(s, k, g, w), k + 1);
      DelayedBehind(Put(s, k, g, w), k + 1, i);
    } else {
      w1 := DelayedTurn(Put(s, k, g, w), k + 1, i);
    }
  }

  lemma {:induction false} DelayedBehind(s: State, k: nat, i: nat)
    requires i < k <= |s.guests|
    ensures DelayedFrom(s, k).guests[i] == s.guests[i]
    decreases |s.guests| - k
  {
    hide DoDelayed;
    if k < |s.guests| {
      var (g, w) := DoDelayed(s.guests[k], s.w);
      DelayedBehind(Put(s, k, g, w), k + 1, i);
    }
  }

  /** What the rest of the pass makes of a guest after its turn: its deadline is judged, and what is due is mounted into it. */
  function RestOfPass(g: Guest, now: int, w: World): (Guest, World) {
    DoDelayed(KillOnTimeout(g, now, Run), w)
  }

  /** A guest that is not stopping only gets delayed mounts, and only if it runs. */
  lemma RestLeaves(g: Guest, now: int, w: World)
    requires !Stopping(g)
    ensures var g1 := RestOfPass(g, now, w).0;
            g1 == g.(runtime := g1.runtime, delivered := g1.delivered) && (!g.status.Started? ==> g1 == g)
  {}

  /** The pass in run mode: after the turn of guest `i` comes the rest. */
  lemma PassOver(s: State, i: nat) returns (w1: World, w2: World, w3: World, g: Guest)
    requires Inv(s) && s.sys.Run? && i < |s.guests| && Untargeted(s, i)
    ensures var s1 := InternalEvent(s);
            && Later(s.w, w1) && Later(w1, w2) && Later(w2, w3) && Later(w3, s1.w)
            && OwnTurn(s.roles, i, s.guests[i], g, w1, w2) && s1.guests[i] == RestOfPass(g, Now(s.w).0, w3).0
  {
    hide Inv, Settles, OwnTurn, VisitFrom, DelayedFrom, KillAll, DoDelayed, KillOnTimeout, R.ActiveGuest;
    var (now, w) := Now(s.w);
    var s0 := s.(w := w);
    ClockKeeps(s);
    w1, w2 := LoopDone(s0, 0, i);
    VisitFromKeeps(s0, 0);
    var s1 := VisitFrom(s0, 0);
    g := s1.guests[i];
    KillAllKeeps(s1, now);
    var s2 := s1.(guests := KillAll(s1.guests, now, Run));
    w3 := DelayedTurn(s2, 0, i);
    DelayedLater(s2.guests[i], w3);
  }

  lemma DelayedLater(g: Guest, w: World)
    ensures Later(w, DoDelayed(g, w).1)
  {
    if g.status.Started? {
      DeliverAccountedLater(g.entries, g.runtime, 0, g.delivered, g.lxc, w);
    }
  }

  lemma {:induction false} DeliverAccountedLater(entries: seq<Entry>, runtime: seq<nat>, k: nat, delivered: seq<nat>, lxc: bool, w: World)
    requires k <= |runtime|
    ensures Later(w, DeliverFrom(entries, runtime, k, delivered, lxc, w).w)
    decreases |runtime| - k
  {
    if k < |runtime| {
      var e := runtime[k];
      var rest := runtime[..k] + runtime[k + 1..];
      if e >= |entries| || !entries[e].delayed {
        DeliverAccountedLater(entries, rest, k, delivered, lxc, w);
      } else {
        var (ok, w1) := Attempt(lxc, w);
        if ok {
          DeliverAccountedLater(entries, rest, k, delivered + [e], lxc, w1);
        } else {
          DeliverAccountedLater(entries, runtime, k + 1, delivered, lxc, w1);
        }
      }
    }
  }

  /** The pass behind an event. */
  lemma PassBehind(s: State, e: Event, i: nat) returns (w1: World, w2: World, w3: World, g: Guest)
    requires Inv(s) && Internal(e) && i < |s.guests|
    requires Handled(s, e).sys.Run? && Untargeted(Handled(s, e), i)
    ensures var h, s1 := Handled(s, e), Step(s, e);
            && Safe(h.guests[i]) && Mode(h.guests[i], Run)
            && Later(h.w, w1) && Later(w1, w2) && Later(w2, w3) && Later(w3, s1.w)
            && OwnTurn(h.roles, i, h.guests[i], g, w1, w2) && s1.guests[i] == RestOfPass(g, Now(h.w).0, w3).0
  {
    HandledKeeps(s, e);
    var h := Handled(s, e);
    assert Safe(h.guests[i]) && Mode(h.guests[i], Run);
    hide Inv, OwnTurn, RestOfPass, InternalEvent, Handled, Untargeted, Safe, Mode;
    assert Step(s, e) == InternalEvent(h);
    w1, w2, w3, g := PassOver(h, i);
  }

  /** The launch of `g` between the worlds `w1` and `w2`, and how it ended. */
  ghost predicate LaunchedTo(g: Guest, g1: Guest, w1: World, w2: World) {
    var made := Preprocess(g, w1);
    && SameGuest(g, g1) && Later(w1, w2) && g1.root == made.1.root && g1.extra == made.1.extra
    && g1.status == (if !Ready(g1) then g.status else if Try(made.2).0 && Try(Try(made.2).1).0 then Started else Dead)
    && g1.launchErrors == (if !Ready(g1) then g.launchErrors
                           else if Try(made.2).0 && Try(Try(made.2).1).0 then 0
                           else if Try(made.2).0 then g.launchErrors + 1 else g.launchErrors)
    && (g1.lxc <==> g1.status.Started?)
    && (Ready(g1) ==> g1.queue == g.queue)
    && (!Ready(g1) ==> g1.queue == RecoverFrom(g1.extra, 0, g.queue, made.2).0)
  }

  lemma StartLaunches(g: Guest, w: World)
    requires Safe(g) && !g.lxc && !WorkerActive(g) && (g.status.Dead? || g.status.NotStarted?)
    ensures var r := Start(g, w); LaunchedTo(g, r.g, w, r.w) && !Stopping(r.g)
  {
    StartSafe(g, w);
    StartExact(g, w);
    hide Start, Preprocess, RecoverFrom, Safe;
  }

  /**
   Behind every event in run mode: a dead guest has been launched.  It runs exactly when all it needs got mounted and
   its creation and its start succeeded.
   */
  lemma DeadIsLaunched(s: State, e: Event, i: nat)
    requires Inv(s) && Internal(e) && i < |s.guests|
    requires var h := Handled(s, e); h.sys.Run? && h.guests[i].status.Dead?
    ensures var h, s1 := Handled(s, e), Step(s, e);
            exists w1, w2 :: Later(h.w, w1) && Later(w2, s1.w) && LaunchedTo(h.guests[i], s1.guests[i], w1, w2)
  {
    var h := Handled(s, e);
    hide Inv, OwnTurn, RestOfPass, Step, Handled, LaunchedTo, Safe, Mode, R.ActiveGuest;
    var w1, w2, w3, g := PassBehind(s, e, i);
    DeadTurn(h.roles, i, h.guests[i], g, w1, w2);
    RestLeaves(g, Now(h.w).0, w3);
    StillLaunched(h.guests[i], g, RestOfPass(g, Now(h.w).0, w3).0, w1, w2);
  }

  lemma DeadTurn(roles: seq<R.Role>, i: nat, g: Guest, g1: Guest, w1: World, w2: World)
    requires Safe(g) && Mode(g, Run) && g.status.Dead? && OwnTurn(roles, i, g, g1, w1, w2)
    ensures LaunchedTo(g, g1, w1, w2) && !Stopping(g1)
  {
    StartLaunches(g, w1);
    hide Start, LaunchedTo;
  }

  lemma StillLaunched(g: Guest, g1: Guest, g2: Guest, w1: World, w2: World)
    requires LaunchedTo(g, g1, w1, w2) && g2 == g1.(runtime := g2.runtime, delivered := g2.delivered)
    ensures LaunchedTo(g, g2, w1, w2)
  {
    hide Preprocess, RecoverFrom;
  }

  /** The turn of a guest that hands its role over launches the active guest of the role. */
  lemma SwitchTurn(s: State, i: nat, a: nat) returns (w1: World, w2: World)
    requires Inv(s) && s.sys.Run? && i < |s.guests| && a < |s.guests| && HandsOver(s, i, a)
    ensures var s1 := Visit(s, i);
            && Inv(s1) && PassStep(s, s1) && Later(s.w, w1) && Later(w2, s1.w) && Enabled(s1.guests[a])
            && Safe(s1.guests[a]) && Mode(s1.guests[a], Run)
            && s.guests[a].status.Disable? && LaunchedTo(s.guests[a].(status := NotStarted), s1.guests[a], w1, w2)
            && !Stopping(s1.guests[a])
  {
    hide Inv, Settles, Start, Cleanup, Safe, Mode, LaunchedTo, R.ActiveGuest;
    VisitKeeps(s, i);
    HandsOverToDisabled(s, i, a);
    SafeAt(s, a);
    SafeAt(s, i);
    w1, w2 := SwitchLaunches(s.guests[i], s.guests[a], s.w);
    SafeAt(Visit(s, i), a);
  }

  lemma SwitchLaunches(g: Guest, ga: Guest, w: World) returns (w1: World, w2: World)
    requires Safe(g) && Mode(g, Run) && g.status.NotStarted? && Safe(ga) && Mode(ga, Run) && ga.status.Disable?
    ensures w1 == Cleanup(g.(status := Disable), w, 0).1 && Later(w, w1)
    ensures var r := Start(ga.(status := NotStarted), w1);
            r.w == w2 && Enabled(r.g) && LaunchedTo(ga.(status := NotStarted), r.g, w1, w2) && !Stopping(r.g)
  {
    HandOverSafe(g, w);
    w1 := Cleanup(g.(status := Disable), w, 0).1;
    EnabledIsSafe(ga);
    StartLaunches(ga.(status := NotStarted), w1);
    EnableSafe(ga, w1);
    w2 := Start(ga.(status := NotStarted), w1).w;
  }

  lemma EnabledIsSafe(g: Guest)
    requires Safe(g) && Mode(g, Run) && g.status.Disable?
    ensures var g1 := g.(status := NotStarted); Safe(g1) && !g1.lxc && !WorkerActive(g1)
  {}

  /**
   What becomes of the active guest `g` of a role in the pass that launches it: `g1` is how that launch leaves it, and
   if its own turn is still to come, after that of guest `i`, a failed launch is followed up in the same pass.
   */
  ghost predicate TakenOver(roles: seq<R.Role>, i: nat, a: nat, g: Guest, g1: Guest, g2: Guest,
                            w1: World, w2: World, w3: World, w4: World) {
    && LaunchedTo(g.(status := NotStarted), g1, w1, w2) && Later(w2, w3) && Safe(g1) && Mode(g1, Run)
    && if i < a then OwnTurn(roles, a, g1, g2, w3, w4) else g2 == g1
  }

  lemma TakeOverDone(s: State, i: nat, a: nat) returns (g1: Guest, w1: World, w2: World, w3: World, w4: World)
    requires Inv(s) && s.sys.Run? && i < |s.guests| && a < |s.guests| && HandsOver(s, i, a)
    ensures var s1 := VisitFrom(s, 0);
            && Later(s.w, w1) && Later(w4, s1.w) && Later(w3, w4) && !Stopping(s1.guests[a])
            && TakenOver(s.roles, i, a, s.guests[a], g1, s1.guests[a], w1, w2, w3, w4)
  {
    hide Inv, Settles, Visit, OwnTurn, LaunchedTo, R.ActiveGuest;
    var s1 := TurnComes(s, 0, i, a);
    w1, w2 := SwitchTurn(s1, i, a);
    var s2 := Visit(s1, i);
    g1 := s2.guests[a];
    assert VisitFrom(s1, i) == VisitFrom(s2, i + 1);
    w3, w4 := LoopDone(s2, i + 1, a);
  }

  /**
   Behind every event in run mode: a guest that is not started and not the active one of its role is disabled and
   stripped, and the active one has been launched.
   */
  lemma RoleHandedOver(s: State, e: Event, i: nat, a: nat)
    requires Inv(s) && Internal(e) && i < |s.guests| && a < |s.guests|
    requires var h := Handled(s, e); h.sys.Run? && HandsOver(h, i, a)
    ensures var h, s1 := Handled(s, e), Step(s, e);
            && s1.guests[i].status.Disable? && Bare(s1.guests[i]) && !s1.guests[i].lxc
            && exists g1, g2, w1, w2, w3, w4 ::
                 && Later(h.w, w1) && Later(w4, s1.w)
                 && TakenOver(h.roles, i, a, h.guests[a], g1, g2, w1, w2, w3, w4)
                 && s1.guests[a] == g2.(runtime := s1.guests[a].runtime, delivered := s1.guests[a].delivered)
  {
    HandledKeeps(s, e);
    var h := Handled(s, e);
    HandedOverBare(h, i, a);
    hide Inv, OwnTurn, TakenOver, InternalEvent, Handled, LaunchedTo, HandsOver;
    assert Step(s, e) == InternalEvent(h);
    var g1, g2, w1, w2, w3, w4 := TakenOverInPass(h, i, a);
  }

  lemma HandedOverBare(s: State, i: nat, a: nat)
    requires Inv(s) && s.sys.Run? && i < |s.guests| && a < |s.guests| && HandsOver(s, i, a)
    ensures var g1 := InternalEvent(s).guests[i]; g1.status.Disable? && Bare(g1) && !g1.lxc
  {
    assert Untargeted(s, i);
    assert Safe(s.guests[i]) && Mode(s.guests[i], Run);
    hide Inv, RestOfPass, InternalEvent, R.ActiveGuest;
    var w1, w2, w3, g := PassOver(s, i);
    CleanupSafe(s.guests[i].(status := Disable), w1, 0);
    hide Cleanup;
    RestLeaves(g, Now(s.w).0, w3);
  }

  lemma TakenOverInPass(s: State, i: nat, a: nat)
      returns (g1: Guest, g2: Guest, w1: World, w2: World, w3: World, w4: World)
    requires Inv(s) && s.sys.Run? && i < |s.guests| && a < |s.guests| && HandsOver(s, i, a)
    ensures var s1 := InternalEvent(s);
            && Later(s.w, w1) && Later(w4, s1.w)
            && TakenOver(s.roles, i, a, s.guests[a], g1, g2, w1, w2, w3, w4)
            && s1.guests[a] == g2.(runtime := s1.guests[a].runtime, delivered := s1.guests[a].delivered)
  {
    hide Inv, Settles, TakenOver, VisitFrom, DelayedFrom, KillAll, DoDelayed, R.ActiveGuest;
    var (now, w) := Now(s.w);
    var s0 := s.(w := w);
    ClockKeeps(s);
    g1, w1, w2, w3, w4 := TakeOverDone(s0, i, a);
    VisitFromKeeps(s0, 0);
    var s1 := VisitFrom(s0, 0);
    g2 := s1.guests[a];
    KillAllKeeps(s1, now);
    var s2 := s1.(guests := KillAll(s1.guests, now, Run));
    var w5 := DelayedTurn(s2, 0, a);
    DelayedLater(s2.guests[a], w5);
    RestLeaves(g2, now, w5);
  }

  /**
   Behind every event in run mode: an active guest that is not started has been unmounted, and the job that waits for
   it is started; without a thread for it the job is removed.
   */
  lemma JobIsStarted(s: State, e: Event, i: nat)
    requires Inv(s) && Internal(e) && i < |s.guests|
    requires var h := Handled(s, e);
             h.sys.Run? && h.guests[i].status.NotStarted? && R.ActiveGuest(h.roles, h.guests[i].role) == Some(i)
    ensures var g, g1 := Handled(s, e).guests[i], Step(s, e).guests[i];
            && Bare(g1)
            && (!g.queue.status.Scheduled? ==> g1.status.NotStarted? && g1.queue == g.queue)
            && (g.queue.status.Scheduled? ==>
                  exists w ::
                    && Later(Handled(s, e).w, w) && Later(w, Step(s, e).w)
                    && if Ask(w).0 >= 0 then g1.status.RunWorker? && g1.queue == g.queue.(status := Q.Started)
                       else g1.status == (if g.queue.after == 1 then Dead else NotStarted) && g1.queue.status.Inactive?)
  {
    var h := Handled(s, e);
    hide Inv, OwnTurn, RestOfPass, Step, Handled, Safe, Mode, R.ActiveGuest;
    var w1, w2, w3, g := PassBehind(s, e, i);
    IdleTurn(h.roles, i, h.guests[i], g, w1, w2);
    RestLeaves(g, Now(h.w).0, w3);
  }

  lemma IdleTurn(roles: seq<R.Role>, i: nat, g: Guest, g1: Guest, w1: World, w2: World)
    requires Safe(g) && Mode(g, Run) && OwnTurn(roles, i, g, g1, w1, w2)
    requires g.status.NotStarted? && R.ActiveGuest(roles, g.role) == Some(i)
    ensures Bare(g1) && !Stopping(g1) && !g1.status.Started?
    ensures !g.queue.status.Scheduled? ==> g1.status.NotStarted? && g1.queue == g.queue
    ensures g.queue.status.Scheduled? ==>
              exists w :: Later(w1, w) && Later(w, w2)
                          && if Ask(w).0 >= 0 then g1.status.RunWorker? && g1.queue == g.queue.(status := Q.Started)
                             else g1.status == (if g.queue.after == 1 then Dead else NotStarted) && g1.queue.status.Inactive?
  {
    IdleActiveExact(g, w1);
    CleanupSafe(g, w1, 200);
    hide IdleActive, Cleanup, R.ActiveGuest, Safe;
  }

  /** Behind every event in run mode: a guest whose job has completed goes on by the job's flag; one whose job runs waits. */
  lemma JobIsOver(s: State, e: Event, i: nat)
    requires Inv(s) && Internal(e) && i < |s.guests|
    requires var h := Handled(s, e); h.sys.Run? && h.guests[i].status.RunWorker?
    ensures var g, g1 := Handled(s, e).guests[i], Step(s, e).guests[i];
            if g.queue.status.Completed? then JobOver(g, g1) else g1 == g
  {
    var h := Handled(s, e);
    hide Inv, RestOfPass, Step, Handled, R.ActiveGuest, Safe, Mode;
    var w1, w2, w3, g := PassBehind(s, e, i);
    PollWorkerExact(h.guests[i], w1);
    hide PollWorker;
    RestLeaves(g, Now(h.w).0, w3);
  }

  /** Behind every event in run mode: a running guest goes on running, and a disabled one is left alone unless a role comes to it. */
  lemma OthersRest(s: State, e: Event, i: nat)
    requires Inv(s) && Internal(e) && i < |s.guests|
    requires var h := Handled(s, e); h.sys.Run? && (h.guests[i].status.Started? || h.guests[i].status.Disable?) && Untargeted(h, i)
    ensures var g, g1 := Handled(s, e).guests[i], Step(s, e).guests[i];
            g1 == g.(runtime := g1.runtime, delivered := g1.delivered) && (g.status.Disable? ==> g1 == g)
  {
    var h := Handled(s, e);
    hide Inv, RestOfPass, Step, Handled, R.ActiveGuest, Untargeted, Safe, Mode;
    var w1, w2, w3, g := PassBehind(s, e, i);
    RestLeaves(g, Now(h.w).0, w3);
  }

  /**
   Behind every event in run mode, the turn of each delayed mount pending for a running guest comes: it is mounted and off
   the list exactly when its source exists and the guest takes it.
   */
  lemma DelayedMountsDue(s: State, e: Event, i: nat, m: nat)
    requires Inv(s) && Internal(e) && i < |s.guests|
    requires var h := Handled(s, e); h.sys.Run? && h.guests[i].status.Started? && m < |h.guests[i].runtime|
    ensures var h, s1 := Handled(s, e), Step(s, e);
            var g, g1 := h.guests[i], s1.guests[i];
            var entry := g.runtime[m];
            && entry < |g.entries|
            && exists turn ::
                 && Later(h.w, turn)
                 && (entry in g1.delivered <==> g.entries[entry].delayed && Mounts(true, turn))
                 && (entry in g1.runtime <==> g.entries[entry].delayed && !Mounts(true, turn))
  {
    var h := Handled(s, e);
    var g := h.guests[i];
    hide Inv, Step, Handled, R.ActiveGuest, Safe, Mode, KillOnTimeout, Mounts;
    var w1, w2, w3, g1 := PassBehind(s, e, i);
    RunningIsAccounted(g);
    StillRunning(g, Now(h.w).0);
    var turn := DeliverOutcome(g.entries, g.runtime, 0, g.delivered, g.lxc, w3, m);
    hide DeliverFrom, Accounted;
  }

  lemma RunningIsAccounted(g: Guest)
    requires Safe(g) && g.status.Started?
    ensures g.lxc && Accounted(g.entries, g.runtime, g.delivered)
  {}

  lemma StillRunning(g: Guest, now: int)
    requires g.status.Started?
    ensures KillOnTimeout(g, now, Run) == g
  {}

  /** A disabled guest stays as it is while no guest has still to hand its role over to it. */
  lemma {:induction false} DisabledStays(s: State, k: nat, i: nat)
    requires Inv(s) && s.sys.Run? && k <= |s.guests| && i < |s.guests| && s.guests[i].status.Disable?
    requires forall j :: k <= j < |s.guests| ==> !HandsOver(s, j, i)
    ensures VisitFrom(s, k).guests[i] == s.guests[i]
    decreases |s.guests| - k
  {
    hide Inv, Settles, Visit, R.ActiveGuest, HandsOver;
    if k < |s.guests| {
      var s1 := Visit(s, k);
      VisitKeeps(s, k);
      if k == i {
        DisabledRests(s, i);
      } else {
        NoHandOver(s, k, i);
        VisitApart(s, k, i);
      }
      forall j | k + 1 <= j < |s.guests| ensures !HandsOver(s1, j, i) {
        StillNoHandOver(s, k, j, i);
      }
      DisabledStays(s1, k + 1, i);
    }
  }

  lemma NoHandOver(s: State, k: nat, i: nat)
    requires k < |s.guests| && k != i && !HandsOver(s, k, i)
    ensures !(s.guests[k].status.NotStarted? && R.ActiveGuest(s.roles, s.guests[k].role) == Some(i))
  {}

  lemma StillNoHandOver(s: State, k: nat, j: nat, i: nat)
    requires Inv(s) && s.sys.Run? && k < j < |s.guests| && i < |s.guests| && !HandsOver(s, j, i)
    ensures !HandsOver(Visit(s, k), j, i)
  {
    VisitKeeps(s, k);
    assert Visit(s, k).guests[j].role == s.guests[j].role;
    if s.guests[k].status.NotStarted? && R.ActiveGuest(s.roles, s.guests[k].role) == Some(j) {
      ActiveInRole(s, k);
    } else {
      VisitApart(s, k, j);
    }
    hide Inv, Visit, R.ActiveGuest;
  }

  /** Behind every event in run mode: a disabled guest that no guest hands its role over to stays as it is. */
  lemma DisabledIsLeft(s: State, i: nat)
    requires Inv(s) && s.sys.Run? && i < |s.guests| && s.guests[i].status.Disable?
    requires forall j :: 0 <= j < |s.guests| ==> !HandsOver(s, j, i)
    ensures InternalEvent(s).guests[i] == s.guests[i]
  {
    hide Inv, Settles, VisitFrom, DelayedFrom, KillAll, DoDelayed, HandsOver;
    var (now, w) := Now(s.w);
    var s0 := s.(w := w);
    ClockKeeps(s);
    forall j | 0 <= j < |s.guests| ensures !HandsOver(s0, j, i) {
      SameHandOver(s, s0, j, i);
    }
    DisabledStays(s0, 0, i);
    VisitFromKeeps(s0, 0);
    var s1 := VisitFrom(s0, 0);
    KillAllKeeps(s1, now);
    var w1 := DelayedTurn(s1.(guests := KillAll(s1.guests, now, Run)), 0, i);
    RestLeaves(s1.guests[i], now, w1);
  }

  lemma SameHandOver(s: State, s1: State, i: nat, a: nat)
    requires i < |s.guests| && s1.guests == s.guests && s1.roles == s.roles
    ensures HandsOver(s1, i, a) == HandsOver(s, i, a)
  {}

  // ---- the whole pass, shutdown mode ----------------------------------------------------------

  lemma {:induction false} DrainTurn(s: State, k: nat, i: nat) returns (w: World)
    requires k <= |s.guests| && i < |s.guests|
    ensures DrainFrom(s, k).guests[i] == if k <= i then DrainWorker(s.guests[i], w).0 else s.guests[i]
    decreases |s.guests| - k
  {
    hide DrainWorker;
    w := s.w;
    if k < |s.guests| {
      var (g, w1) := DrainWorker(s.guests[k], s.w);
      var w2 := DrainTurn(Put(s, k, g, w1), k + 1, i);
      if k != i {
        w := w2;
      }
    }
  }

  /**
   Behind every event while the system shuts down: a guest has exited when its job has completed or when it is past its
   deadline - a stopping one is killed then -, and is left alone until then.
   */
  lemma StopPassOutcome(s: State, e: Event, i: nat)
    requires Inv(s) && Internal(e) && i < |s.guests| && Handled(s, e).sys.Stop?
    ensures var h := Handled(s, e);
            var g, g1, late := h.guests[i], Step(s, e).guests[i], h.guests[i].deadline < Now(h.w).0;
            && (g.status.RunWorker? && g.queue.status.Completed? ==>
                  g1 == g.(status := Exit, queue := g1.queue) && g1.queue.status.Inactive?)
            && (g.status.RunWorker? && !g.queue.status.Completed? ==> g1 == if late then g.(status := Exit) else g)
            && (g.status.Shutdown? && late ==>
                  g1.status.Exit? && !g1.lxc && g1.handles == 0
                  && g1 == g.(status := Exit, lxc := false, handles := 0, netifs := g1.netifs))
            && (g.status.Shutdown? && !late ==> g1 == g)
            && (!g.status.RunWorker? && !g.status.Shutdown? ==> g1 == g)
  {
    HandledKeeps(s, e);
    var h := Handled(s, e);
    SafeAt(h, i);
    hide Inv, InternalEvent, Handled, Safe;
    assert Step(s, e) == InternalEvent(h);
    StopPassOf(h, i);
    hide Mode;
  }

  lemma StopPassOf(s: State, i: nat)
    requires Inv(s) && s.sys.Stop? && i < |s.guests|
    ensures var g, g1, late := s.guests[i], InternalEvent(s).guests[i], s.guests[i].deadline < Now(s.w).0;
            && (g.status.RunWorker? && g.queue.status.Completed? ==>
                  g1 == g.(status := Exit, queue := g1.queue) && g1.queue.status.Inactive?)
            && (g.status.RunWorker? && !g.queue.status.Completed? ==> g1 == if late then g.(status := Exit) else g)
            && (g.status.Shutdown? && late ==>
                  g1.status.Exit? && !g1.lxc && g1.handles == 0
                  && g1 == g.(status := Exit, lxc := false, handles := 0, netifs := g1.netifs))
            && (g.status.Shutdown? && !late ==> g1 == g)
            && (!g.status.RunWorker? && !g.status.Shutdown? ==> g1 == g)
  {
    SafeAt(s, i);
    var (now, w1) := Now(s.w);
    var w := DrainTurn(s.(w := w1), 0, i);
    DrainWorkerExact(s.guests[i], w);
    var g1 := DrainWorker(s.guests[i], w).0;
    if !g1.status.Exit? {
      assert g1 == s.guests[i];
    }
    TimeoutStop(s.guests[i], now);
    hide Inv, Safe, KillAll, DrainFrom, DrainWorker, KillOnTimeout;
    if g1.status.Exit? {
      KeptExit(g1, now);
    }
    assert AllGone(s.guests) ==> Gone(s.guests[i]);
  }

  lemma TimeoutStop(g: Guest, now: int)
    requires Safe(g)
    ensures var g1, late := KillOnTimeout(g, now, Stop), g.deadline < now;
            && (g.status.Shutdown? && late ==>
                  && g1.status.Exit? && !g1.lxc && g1.handles == 0
                  && g1 == g.(status := Exit, lxc := false, handles := 0, netifs := g1.netifs))
            && (g.status.RunWorker? ==> g1 == if late then g.(status := Exit) else g)
            && (!late ==> g1 == g) && (!Stopping(g) && !g.status.RunWorker? ==> g1 == g)
  {
    TimeoutExact(g, now, Stop);
    hide Safe, KillOnTimeout;
  }

  lemma KeptExit(g: Guest, now: int)
    requires g.status.Exit?
    ensures KillOnTimeout(g, now, Stop) == g
  {}

  // ---- commands ---------------------------------------------------------------------------------

  predicate IsPrefix(p: string, s: string) {
    |p| <= |s| && s[..|p|] == p
  }

  /** A command by name reaches the guests whose name the given one starts with; a command by role, running guests of such a role. */
  predicate Reached(g: Guest, name: string, byRole: bool) {
    if byRole then g.status.Started? && IsPrefix(g.role, name) else IsPrefix(g.name, name)
  }

  function StopCommand(name: string, byRole: bool, reboot: bool): Event {
    if reboot then RebootCommand(name, byRole) else ShutdownCommand(name, byRole)
  }

  lemma RequestLater(s: State, i: nat, reboot: bool)
    requires Inv(s) && i < |s.guests|
    ensures var r := Requested(s.guests[i], s.w, s.sys, reboot);
            Inv(Put(s, i, r.g, r.w)) && Later(s.w, r.w) && (r.ret == 0 <==> !(s.sys.Run? && s.guests[i].status.Exit?))
  {
    RequestKeeps(s, i, reboot);
    SafeAt(s, i);
    RequestExact(s.guests[i], s.w, s.sys, reboot);
    hide Inv, Safe, RequestReboot, RequestShutdown;
  }

  lemma {:induction false} CommandLoop(s: State, k: nat, name: string, byRole: bool, reboot: bool, accepted: bool, i: nat) returns (w: World)
    requires Inv(s) && k <= |s.guests| && i < |s.guests|
    ensures var s1 := CommandFrom(s, k, name, byRole, reboot, accepted).0;
            && Later(s.w, s1.w)
            && if k <= i && Reached(s.guests[i], name, byRole)
               then var r := Requested(s.guests[i], w, s.sys, reboot); s1.guests[i] == r.g && Later(s.w, w) && Later(r.w, s1.w)
               else s1.guests[i] == s.guests[i]
    decreases |s.guests| - k
  {
    hide Inv, RequestReboot, RequestShutdown;
    w := s.w;
    if k < |s.guests| {
      assert Addressed(s.guests[k], name, byRole) == Reached(s.guests[k], name, byRole);
      if Addressed(s.guests[k], name, byRole) {
        RequestLater(s, k, reboot);
        var r := Requested(s.guests[k], s.w, s.sys, reboot);
        var w1 := CommandLoop(Put(s, k, r.g, r.w), k + 1, name, byRole, reboot, accepted || r.ret == 0, i);
        if k != i {
          w := w1;
        }
      } else {
        w := CommandLoop(s, k + 1, name, byRole, reboot, accepted, i);
      }
    }
  }

  /**
   What a shutdown or reboot command does to a guest: one that is reached is asked - a running one through liblxc, one at
   rest by its status alone - and one that is not reached is left alone.
   */
  lemma CommandOutcome(s: State, name: string, byRole: bool, reboot: bool, i: nat)
    requires Inv(s) && i < |s.guests|
    ensures var g, s1 := s.guests[i], Handled(s, StopCommand(name, byRole, reboot));
            var g1 := s1.guests[i];
            && (!Reached(g, name, byRole) ==> g1 == g)
            && (Reached(g, name, byRole) && g.status.Started? ==>
                  exists w :: Later(s.w, w) && Later(Try(w).1, s1.w) && AskedToStop(g, g1, reboot, s.sys, Try(w).0))
            && (Reached(g, name, byRole) && !g.status.Started? ==>
                  g1 == g.(status := AskedAtRest(g.status, reboot, s.sys), deadline := g1.deadline))
  {
    hide Inv, Safe, CommandFrom, Requested, AskedToStop, AskedAtRest, IsPrefix;
    var w := CommandLoop(s, 0, name, byRole, reboot, false, i);
    SafeAt(s, i);
    RequestExact(s.guests[i], w, s.sys, reboot);
    if s.guests[i].status.Started? {
      AskTakesOne(s.guests[i], w, s.sys, reboot);
    }
  }

  lemma AskTakesOne(g: Guest, w: World, sys: SysState, reboot: bool)
    requires Safe(g) && g.status.Started?
    ensures Later(Try(w).1, Requested(g, w, sys, reboot).w)
  {}

  /** The command is accepted exactly when it reaches a guest. */
  lemma CommandAnswered(s: State, name: string, byRole: bool, reboot: bool)
    requires Inv(s)
    ensures CommandFrom(s, 0, name, byRole, reboot, false).1 <==>
              exists i :: 0 <= i < |s.guests| && Reached(s.guests[i], name, byRole)
  {
    CommandAnswers(s, 0, name, byRole, reboot, false);
  }

  lemma {:induction false} CommandAnswers(s: State, k: nat, name: string, byRole: bool, reboot: bool, accepted: bool)
    requires Inv(s) && k <= |s.guests|
    ensures CommandFrom(s, k, name, byRole, reboot, accepted).1 <==>
              accepted || exists i :: k <= i < |s.guests| && Reached(s.guests[i], name, byRole)
    decreases |s.guests| - k
  {
    hide Inv, RequestReboot, RequestShutdown, Reached;
    if k < |s.guests| {
      SafeAt(s, k);
      assert Addressed(s.guests[k], name, byRole) == Reached(s.guests[k], name, byRole) by {
        AddressedIsReached(s.guests[k], name, byRole);
      }
      if Addressed(s.guests[k], name, byRole) {
        RequestLater(s, k, reboot);
        var r := Requested(s.guests[k], s.w, s.sys, reboot);
        CommandAnswers(Put(s, k, r.g, r.w), k + 1, name, byRole, reboot, accepted || r.ret == 0);
      } else {
        CommandAnswers(s, k + 1, name, byRole, reboot, accepted);
      }
    }
  }

  lemma AddressedIsReached(g: Guest, name: string, byRole: bool)
    ensures Addressed(g, name, byRole) == Reached(g, name, byRole)
  {}

  // ---- the other events ---------------------------------------------------------------------------

  lemma {:induction false} ShutdownLoop(s: State, k: nat, i: nat) returns (w: World)
    requires s.sys.Stop? && k <= |s.guests| && i < |s.guests|
    requires forall j :: 0 <= j < |s.guests| ==> Safe(s.guests[j])
    ensures var s1 := ShutdownFrom(s, k);
            && Later(s.w, s1.w)
            && if k <= i then var r := Requested(s.guests[i], w, Stop, false); s1.guests[i] == r.g && Later(s.w, w) && Later(r.w, s1.w)
               else s1.guests[i] == s.guests[i]
    decreases |s.guests| - k
  {
    hide Safe, RequestShutdown;
    w := s.w;
    if k < |s.guests| {
      RequestExact(s.guests[k], s.w, Stop, false);
      var r := Requested(s.guests[k], s.w, Stop, false);
      RequestSafe(s.guests[k], s.w);
      var w1 := ShutdownLoop(Put(s, k, r.g, r.w), k + 1, i);
      if k != i {
        w := w1;
      }
    }
  }

  lemma RequestSafe(g: Guest, w: World)
    requires Safe(g)
    ensures Safe(RequestShutdown(g, w, Stop).g)
  {
    hide RootAgrees, DisksAgree, Accounted;
  }

  lemma AllAreSafe(s: State)
    requires Inv(s)
    ensures forall j :: 0 <= j < |s.guests| ==> Safe(s.guests[j])
  {}

  /** The system shutdown asks every guest to stop. */
  lemma ShutdownOutcome(s: State, i: nat)
    requires Inv(s) && i < |s.guests|
    ensures var g, s1 := s.guests[i], Handled(s, SystemShutdown);
            var g1 := s1.guests[i];
            && s1.sys.Stop?
            && (g.status.Started? ==>
                  exists w :: Later(s.w, w) && Later(Try(w).1, s1.w) && AskedToStop(g, g1, false, Stop, Try(w).0))
            && (!g.status.Started? ==> g1 == g.(status := AskedAtRest(g.status, false, Stop), deadline := g1.deadline))
  {
    hide Inv, Safe, ShutdownFrom, Requested, AskedToStop, AskedAtRest;
    AllAreSafe(s);
    var w := ShutdownLoop(s.(sys := Stop), 0, i);
    SafeAt(s, i);
    RequestExact(s.guests[i], w, Stop, false);
    if s.guests[i].status.Started? {
      AskTakesOne(s.guests[i], w, Stop, false);
    }
  }

  /** A reported exit concerns the guest it names, and only that. */
  lemma ExitOutcome(s: State, n: int, i: nat)
    requires Inv(s) && i < |s.guests|
    ensures var g, g1 := s.guests[i], Handled(s, GuestExit(n)).guests[i];
            if n != i then g1 == g
            else
              && g1.status == (if g.status.Disable? then Status.Disable
                               else if s.sys.Stop? then Exit
                               else if g.status.Started? || g.status.Reboot? then Dead
                               else if g.status.Shutdown? then NotStarted
                               else g.status)
              && !g1.lxc && g1.handles == 0 && (forall k :: 0 <= k < |g1.netifs| ==> g1.netifs[k].ifindex == 0)
              && g1 == g.(status := g1.status, lxc := false, handles := 0, netifs := g1.netifs)
  {
    SafeAt(s, i);
    ExitedExact(s.guests[i], s.sys);
    hide Inv, Safe, Exited;
  }

  lemma {:induction false} NetifLoop(s: State, k: nat, i: nat) returns (w: World)
    requires Inv(s) && k <= |s.guests| && i < |s.guests|
    ensures var s1 := NetifFrom(s, k);
            && Later(s.w, w)
            && if k <= i then s1.guests[i] == UpdateNetif(s.guests[i], s.links, w).0 else s1.guests[i] == s.guests[i]
    decreases |s.guests| - k
  {
    hide UpdateNetif, Inv;
    w := s.w;
    if k < |s.guests| {
      NetifAtKeeps(s, k);
      var (g, w1) := UpdateNetif(s.guests[k], s.links, s.w);
      var w2 := NetifLoop(Put(s, k, g, w1), k + 1, i);
      if k != i {
        w := w2;
      }
    }
  }

  lemma NetifAtKeeps(s: State, i: nat)
    requires Inv(s) && i < |s.guests|
    ensures var (g, w1) := UpdateNetif(s.guests[i], s.links, s.w); Inv(Put(s, i, g, w1)) && Later(s.w, w1)
  {
    N.ScanLater(s.links, 0, N.Clean(s.guests[i].netifs), s.guests[i].lxc, s.w);
    hide UpdateNetif, Safe, Mode, R.Bound, OnePerRole;
    UpdateNetifSafe(s.guests[i], s.links, s.w, s.sys);
    var (g, w1) := UpdateNetif(s.guests[i], s.links, s.w);
    PutKeeps(s, i, g, w1);
  }

  /** Some listed link has that index. */
  ghost predicate Lists(links: seq<N.Link>, ifindex: int) {
    exists l :: l in links && l.ifindex == ifindex
  }

  ghost predicate InterfacesUpdated(links: seq<N.Link>, cs: seq<N.Netif>, cs1: seq<N.Netif>, w: World)
    requires |cs1| == |cs|
  {
    forall k :: 0 <= k < |cs| ==>
      && cs1[k].name == cs[k].name
      && (cs[k].ifindex != 0 ==> cs1[k].ifindex == if cs[k].ifindex > 0 && Lists(links, cs[k].ifindex) then cs[k].ifindex else 0)
      && (cs[k].ifindex == 0 ==> (cs1[k].ifindex != 0 <==> N.Accepted(links, 0, N.Clean(cs), true, w, k)))
  }

  /**
   When links have changed, a running guest keeps the interfaces whose links are listed, loses the others, and gets those
   of its names that it accepts; a guest that does not run is left alone.
   */
  lemma NetifOutcome(s: State, i: nat)
    requires Inv(s) && i < |s.guests|
    ensures var g, g1 := s.guests[i], Handled(s, NetifUpdated).guests[i];
            && g1 == g.(netifs := g1.netifs) && |g1.netifs| == |g.netifs| && (!g.status.Started? ==> g1 == g)
            && (g.status.Started? ==> exists w :: Later(s.w, w) && InterfacesUpdated(s.links, g.netifs, g1.netifs, w))
  {
    var w := NetifLoop(s, 0, i);
    SafeAt(s, i);
    var g := s.guests[i];
    assert g.status.Started? ==> g.lxc;
    hide Inv, Safe, NetifFrom, N.Assign, InterfacesUpdated;
    if g.status.Started? {
      AssignUpdates(s.links, g.netifs, w);
      assert InterfacesUpdated(s.links, g.netifs, Handled(s, NetifUpdated).guests[i].netifs, w);
    }
  }

  lemma AssignUpdates(links: seq<N.Link>, cs: seq<N.Netif>, w: World)
    ensures var cs1 := N.Assign(links, cs, true, w).0; |cs1| == |cs| && InterfacesUpdated(links, cs, cs1, w)
  {
    N.AssignExact(links, cs, true, w);
    hide N.Assign, N.Accepted;
    forall k: nat | k < |cs| && cs[k].ifindex == 0
      ensures N.Assign(links, cs, true, w).0[k].ifindex != 0 <==> N.Accepted(links, 0, N.Clean(cs), true, w, k)
    {
      N.AssignedExactly(links, cs, true, w, k);
    }
  }

  /** The end of a worker thread is the end of the job of its guest, and of nothing else. */
  lemma WorkerOutcome(s: State, n: nat, ret: int, i: nat)
    requires i < |s.guests|
    ensures var g, g1 := s.guests[i], Handled(s, WorkerFinished(n, ret)).guests[i];
            if n == i && g.queue.status.Started?
            then g1 == g.(queue := g1.queue) && g1.queue == g.queue.(status := Q.Completed, result := ret)
            else g1 == g
  {}

  /** Guest `i` is the one the test command is for. */
  ghost predicate UnderTest(s: State, i: nat)
    requires i < |s.guests|
  {
    0 < i && s.guests[i].name == TEST_GUEST && forall j :: 0 <= j < i ==> s.guests[j].name != TEST_GUEST
  }

  /** The test command: the first guest of that name, unless it is guest 0, gets a job for the test device if its queue is idle and the job is taken. */
  lemma TestOutcome(s: State, code: int, i: nat)
    requires Inv(s) && i < |s.guests|
    ensures var g, g1 := s.guests[i], Handled(s, TestCommand(code)).guests[i];
            && g1 == g.(queue := g1.queue)
            && (g1 == g <==> !UnderTest(s, i) || (code != 0 && code != 1) || !g.queue.status.Inactive? || !Try(s.w).0)
            && (g1 != g ==>
                  && (g1.queue.status == if Try(Try(s.w).1).0 then Q.Scheduled else Q.Inactive)
                  && (g1.queue.status.Scheduled? ==>
                        g1.queue.key == (if code == 0 then "fsck" else "erase") && g1.queue.args == TEST_DEVICE && g1.queue.after == 1))
  {
    hide Safe, Mode, R.Bound, OnePerRole;
  }
}
