/**
 The state machine of the container manager: all guests, the role lists and the system state, driven
 by events in any order (src/container-control.c, src/container-control-exec.c,
 src/container-external-interface.c).
 */
module Lifecycle {
  import opened Host
  import opened Guest
  import R = Roles
  import N = NetIf
  import Q = WorkQueue

  datatype State = State(
    guests: seq<Guest>, cfgs: seq<R.Config>, roles: seq<R.Role>,
    sys: SysState, links: seq<N.Link>, w: World)

  datatype Event =
    // delivered through the state machine's own socket; each is followed by the cyclic pass
    | NetifUpdated
    | GuestExit(number: int)
    | SystemShutdown
    | TimerTick
    | OtherCommand
    // external commands
    | ShutdownCommand(name: string, byRole: bool)
    | RebootCommand(name: string, byRole: bool)
    | ChangeCommand(name: string)
    | TestCommand(code: int)
    // the surroundings
    | LinkMessage(kind: N.MessageType, ifindex: int, ifname: string)
    | WorkerFinished(n: nat, ret: int)

  function Put(s: State, i: nat, g: Guest, w: World): State
    requires i < |s.guests|
  {
    s.(guests := s.guests[i := g], w := w)
  }

  // ---- the cyclic pass, run mode ----------------------------------------------------------

  /** Guest `i` is not started and guest `a` is now the active one of its role: disable `i`, launch `a`. */
  function Switch(s: State, i: nat, a: nat): State
    requires i < |s.guests| && a < |s.guests|
  {
    var (g, w1) := Cleanup(s.guests[i].(status := Disable), s.w, 0);
    var s1 := Put(s, i, g, w1);
    var r := Start(s1.guests[a].(status := NotStarted), w1);
    Put(s1, a, r.g, r.w)
  }

  function Visit(s: State, i: nat): (r: State)
    requires i < |s.guests|
    ensures r == s.(guests := r.guests, w := r.w) && |r.guests| == |s.guests|
  {
    var g := s.guests[i];
    match g.status
    case Dead => var r := Start(g, s.w); Put(s, i, r.g, r.w)
    case NotStarted =>
      var a := R.ActiveGuest(s.roles, g.role);
      if a.None? || a.value >= |s.guests| then s
      else if a.value != i then Switch(s, i, a.value)
      else var (g1, w1) := IdleActive(g, s.w); Put(s, i, g1, w1)
    case RunWorker => var (g1, w1) := PollWorker(g, s.w); Put(s, i, g1, w1)
    case _ => s
  }

  function VisitFrom(s: State, i: nat): (r: State)
    requires i <= |s.guests|
    ensures r == s.(guests := r.guests, w := r.w) && |r.guests| == |s.guests|
    decreases |s.guests| - i
  {
    if i == |s.guests| then s else VisitFrom(Visit(s, i), i + 1)
  }

  function KillAll(gs: seq<Guest>, now: int, sys: SysState): (r: seq<Guest>)
    ensures |r| == |gs| && forall i :: 0 <= i < |gs| ==> r[i] == KillOnTimeout(gs[i], now, sys)
  {
    if gs == [] then [] else [KillOnTimeout(gs[0], now, sys)] + KillAll(gs[1..], now, sys)
  }

  function DelayedFrom(s: State, i: nat): (r: State)
    requires i <= |s.guests|
    ensures r == s.(guests := r.guests, w := r.w) && |r.guests| == |s.guests|
    decreases |s.guests| - i
  {
    if i == |s.guests| then s
    else
      var (g, w1) := DoDelayed(s.guests[i], s.w);
      DelayedFrom(Put(s, i, g, w1), i + 1)
  }

  function RunPass(s: State): (r: State)
    ensures r == s.(guests := r.guests, w := r.w) && |r.guests| == |s.guests|
  {
    var (now, w1) := Now(s.w);
    var s1 := VisitFrom(s.(w := w1), 0);
    DelayedFrom(s1.(guests := KillAll(s1.guests, now, Run)), 0)
  }

  // ---- the cyclic pass, shutdown mode --------------------------------------------------------

  predicate Gone(g: Guest) {
    g.status.Exit? || g.status.Disable?
  }

  predicate AllGone(gs: seq<Guest>) {
    forall i :: 0 <= i < |gs| ==> Gone(gs[i])
  }

  function DrainFrom(s: State, i: nat): (r: State)
    requires i <= |s.guests|
    ensures r == s.(guests := r.guests, w := r.w) && |r.guests| == |s.guests|
    decreases |s.guests| - i
  {
    if i == |s.guests| then s
    else
      var (g, w1) := DrainWorker(s.guests[i], s.w);
      DrainFrom(Put(s, i, g, w1), i + 1)
  }

  function StopPass(s: State): (r: State)
    ensures r == s.(guests := r.guests, w := r.w) && |r.guests| == |s.guests|
  {
    var (now, w1) := Now(s.w);
    var s1 := DrainFrom(s.(w := w1), 0);
    if AllGone(s.guests) then s1
    else s1.(guests := KillAll(s1.guests, now, Stop))
  }

  function InternalEvent(s: State): (r: State)
    ensures r == s.(guests := r.guests, w := r.w) && |r.guests| == |s.guests|
  {
    match s.sys
    case Run => RunPass(s)
    case Stop => StopPass(s)
  }

  /** What the pass goes on with for the manager's own disks: it follows a mount job, or ends it all (see module ContainerManager). */
  datatype Tail = NoTail | PollTail | TerminateTail

  function TailOf(s: State): Tail {
    match s.sys
    case Run => PollTail
    case Stop => if AllGone(s.guests) then TerminateTail else NoTail
  }

  // ---- events ------------------------------------------------------------------------------------

  function NetifFrom(s: State, i: nat): (r: State)
    requires i <= |s.guests|
    ensures r == s.(guests := r.guests, w := r.w) && |r.guests| == |s.guests|
    decreases |s.guests| - i
  {
    if i == |s.guests| then s
    else
      var (g, w1) := UpdateNetif(s.guests[i], s.links, s.w);
      NetifFrom(Put(s, i, g, w1), i + 1)
  }

  function GuestExited(s: State, number: int): (r: State)
    ensures r == s.(guests := r.guests, w := r.w) && |r.guests| == |s.guests|
  {
    if number < 0 || number >= |s.guests| then s
    else Put(s, number, Exited(s.guests[number], s.sys), s.w)
  }

  function ShutdownFrom(s: State, i: nat): (r: State)
    requires i <= |s.guests|
    ensures r == s.(guests := r.guests, w := r.w) && |r.guests| == |s.guests|
    decreases |s.guests| - i
  {
    if i == |s.guests| then s
    else
      var r := RequestShutdown(s.guests[i], s.w, s.sys);
      ShutdownFrom(Put(s, i, r.g, r.w), i + 1)
  }

  function ManagerShutdown(s: State): (r: State)
    ensures r == s.(guests := r.guests, w := r.w, sys := Stop) && |r.guests| == |s.guests|
  {
    ShutdownFrom(s.(sys := Stop), 0)
  }

  /** strncmp over the guest's own name (or role): the guest's name is a prefix of the requested one. */
  predicate Addressed(g: Guest, name: string, byRole: bool) {
    if byRole then g.status.Started? && g.role <= name else g.name <= name
  }

  function CommandFrom(s: State, i: nat, name: string, byRole: bool, reboot: bool, accepted: bool): (r: (State, bool))
    requires i <= |s.guests|
    ensures r.0 == s.(guests := r.0.guests, w := r.0.w) && |r.0.guests| == |s.guests|
    decreases |s.guests| - i
  {
    if i == |s.guests| then (s, accepted)
    else if !Addressed(s.guests[i], name, byRole) then CommandFrom(s, i + 1, name, byRole, reboot, accepted)
    else
      var r := if reboot then RequestReboot(s.guests[i], s.w, s.sys) else RequestShutdown(s.guests[i], s.w, s.sys);
      CommandFrom(Put(s, i, r.g, r.w), i + 1, name, byRole, reboot, accepted || r.ret == 0)
  }

  const TEST_GUEST := "agl-momi-ivi-demo"
  const TEST_DEVICE := "device=/dev/mmcblk1p7"

  /** The test trigger schedules a repair job for one fixed guest (never for guest 0), or tries a mount into it. */
  function TestTrigger(s: State, code: int): (r: State)
    ensures r == s.(guests := r.guests, w := r.w) && |r.guests| == |s.guests|
  {
    var target := R.Named(s.cfgs, TEST_GUEST, 0);
    if 0 < target < |s.guests| && target < |s.cfgs| && (code == 0 || code == 1) then
      var r := Q.Schedule(s.guests[target].queue, if code == 0 then "fsck" else "erase", TEST_DEVICE, 1, s.w);
      Put(s, target, s.guests[target].(queue := r.q), r.w)
    else if 0 < target < |s.guests| && target < |s.cfgs| && code == 2 && s.guests[target].status.Started? then
      Put(s, target, s.guests[target], Try(s.w).1)
    else s
  }

  /** The worker thread of guest `n`, if there is one, ends. */
  function WorkerEnds(s: State, n: nat, ret: int): (r: State)
    ensures r == s.(guests := r.guests, w := r.w) && |r.guests| == |s.guests|
  {
    if n < |s.guests| && s.guests[n].queue.status.Started?
    then Put(s, n, s.guests[n].(queue := Q.Finish(s.guests[n].queue, ret)), s.w)
    else s
  }

  /** Delivered through the state machine's own socket, so the cyclic pass follows. */
  predicate Internal(e: Event) {
    e.NetifUpdated? || e.GuestExit? || e.SystemShutdown? || e.TimerTick? || e.OtherCommand?
  }

  /** What the event itself does. */
  function Handled(s: State, e: Event): (r: State)
    ensures |r.guests| == |s.guests| && r.cfgs == s.cfgs && (!e.ChangeCommand? ==> r.roles == s.roles)
    ensures r.sys == (if e.SystemShutdown? then Stop else s.sys) && (!e.LinkMessage? ==> r.links == s.links)
  {
    match e
    case NetifUpdated => NetifFrom(s, 0)
    case GuestExit(n) => GuestExited(s, n)
    case SystemShutdown => ManagerShutdown(s)
    case TimerTick => s
    case OtherCommand => s
    case ShutdownCommand(name, byRole) => CommandFrom(s, 0, name, byRole, false, false).0
    case RebootCommand(name, byRole) => CommandFrom(s, 0, name, byRole, true, false).0
    case ChangeCommand(name) => s.(roles := R.Change(s.cfgs, s.roles, name).1)
    case TestCommand(code) => TestTrigger(s, code)
    case LinkMessage(kind, ifindex, ifname) => s.(links := N.Received(s.links, kind, ifindex, ifname))
    case WorkerFinished(n, ret) => WorkerEnds(s, n, ret)
  }

  function Step(s: State, e: Event): (r: State)
    ensures |r.guests| == |s.guests| && r.cfgs == s.cfgs && (!e.ChangeCommand? ==> r.roles == s.roles)
    ensures r.sys == (if e.SystemShutdown? then Stop else s.sys) && (!e.LinkMessage? ==> r.links == s.links)
  {
    if Internal(e) then InternalEvent(Handled(s, e)) else Handled(s, e)
  }

  function Steps(s: State, events: seq<Event>): (r: State)
    ensures |r.guests| == |s.guests| && r.cfgs == s.cfgs
    decreases |events|
  {
    if events == [] then s else Steps(Step(s, events[0]), events[1..])
  }

  // ---- start-up ---------------------------------------------------------------------------------------

  function StartByRole(s: State, role: string): (r: State)
    ensures r == s.(guests := r.guests, w := r.w) && |r.guests| == |s.guests|
  {
    var a := R.ActiveGuest(s.roles, role);
    if a.None? || a.value >= |s.guests| then s
    else
      var r := Start(s.guests[a.value].(status := NotStarted), s.w);
      Put(s, a.value, r.g, r.w)
  }

  function StartRolesFrom(s: State, r: nat): (s1: State)
    requires r <= |s.roles|
    ensures s1 == s.(guests := s1.guests, w := s1.w) && |s1.guests| == |s.guests|
    decreases |s.roles| - r
  {
    if r == |s.roles| then s else StartRolesFrom(StartByRole(s, s.roles[r].name), r + 1)
  }

  // ---- leaving ----------------------------------------------------------------------------------------

  /** container_mngsm_terminate, after the event loop: every guest is cleaned up, whatever its status. */
  function TerminateFrom(s: State, i: nat): (r: State)
    requires i <= |s.guests|
    ensures r == s.(guests := r.guests, w := r.w) && |r.guests| == |s.guests|
    decreases |s.guests| - i
  {
    if i == |s.guests| then s
    else
      var (g, w1) := Cleanup(s.guests[i], s.w, 500);
      TerminateFrom(Put(s, i, g, w1), i + 1)
  }

  /** A guest as its configuration is read: disabled, nothing mounted, held, assigned or queued. */
  ghost predicate Fresh(g: Guest) {
    && g.status.Disable? && !g.lxc && g.handles == 0 && 0 <= g.side < 2
    && !g.root.mounted && g.root.stack == [] && g.root.leaks == 0
    && (forall i :: 0 <= i < |g.extra| ==> !g.extra[i].mounted && g.extra[i].stack == [])
    && (forall i :: 0 <= i < |g.netifs| ==> g.netifs[i].ifindex == 0)
    && g.queue == Q.EMPTY_QUEUE
  }

  ghost predicate Initial(s: State) {
    && |s.cfgs| == |s.guests|
    && (forall i :: 0 <= i < |s.guests| ==>
          Fresh(s.guests[i]) && s.guests[i].name == s.cfgs[i].name && s.guests[i].role == s.cfgs[i].role)
    && s.roles == R.Bind(s.cfgs, |s.cfgs|)
    && s.sys.Run? && s.links == []
  }

  /** The manager is started and then handles `events`, whatever they are and whatever the world answers. */
  function Execution(s: State, events: seq<Event>): (r: State)
    ensures |r.guests| == |s.guests| && r.cfgs == s.cfgs
  {
    Steps(StartRolesFrom(s, 0), events)
  }
}
