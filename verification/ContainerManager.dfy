/**
 The container manager as a whole: the guests (module Lifecycle) and the manager's own disks (module
 ManagerMount) side by side.  The manager's mount job is started at start-up and followed by the cyclic
 pass; its unmount job is started and followed once no guest is left, and decides when the event loop ends
 (src/container-manager.c, src/container-control-exec.c).  Its worker thread acts between any two events.
 */
module ContainerManager {
  import opened Host
  import opened Options
  import L = Lifecycle
  import LS = LifecycleSafety
  import LP = LifecycleProperties
  import G = Guest
  import GS = GuestSafety
  import R = Roles
  import M = ManagerMount
  import MS = ManagerMountSafety
  import MP = ManagerMountProperties
  import O = ManagerOperation
  import X = LifecycleExamples

  /** `looping`: start-up succeeded, so events are handled. */
  datatype Whole = Whole(guests: L.State, manager: M.System, looping: bool, exitRequested: bool)

  datatype Event = ToGuests(e: L.Event) | ManagerWorks

  /** The end of a pass: the manager's own disks, and whether the event loop is to end. */
  function Closed(s: Whole, tail: L.Tail): Whole {
    match tail
    case NoTail => s
    case PollTail => s.(manager := M.Poll(s.manager).1)
    case TerminateTail =>
      var (exits, m) := M.ShutdownTick(s.manager);
      s.(manager := m, exitRequested := s.exitRequested || exits)
  }

  function Step(s: Whole, e: Event): Whole {
    match e
    case ManagerWorks => s.(manager := M.Work(s.manager))
    case ToGuests(e) =>
      var s1 := s.(guests := L.Step(s.guests, e));
      Closed(s1, if L.Internal(e) then L.TailOf(L.Handled(s.guests, e)) else L.NoTail)
  }

  /** The event loop: it handles events until its end is requested. */
  function Steps(s: Whole, events: seq<Event>): Whole
    decreases |events|
  {
    if events == [] || s.exitRequested then s else Steps(Step(s, events[0]), events[1..])
  }

  /** Start-up: launch the guests, then start the mount job; without a socket pair for it the loop is not entered. */
  function Boot(s: Whole): Whole {
    var (ret, m) := M.Dispatch(s.manager, false);
    s.(guests := L.StartRolesFrom(s.guests, 0), manager := m, looping := ret >= 0)
  }

  ghost predicate Initial(s: Whole) {
    L.Initial(s.guests) && M.Initial(s.manager) && !s.exitRequested
  }

  function Execution(s: Whole, events: seq<Event>): Whole {
    var s1 := Boot(s);
    if s1.looping then Steps(s1, events) else s1
  }

  // ---- every run ------------------------------------------------------------------------------

  ghost predicate Inv(s: Whole) {
    && LS.Inv(s.guests) && MS.Inv(s.manager)
    && (s.exitRequested ==> s.guests.sys.Stop? && L.AllGone(s.guests.guests) && !s.manager.storage)
  }

  lemma TickKeeps(m: M.System)
    requires MS.Inv(m)
    ensures MS.Inv(M.ShutdownTick(m).1) && (M.ShutdownTick(m).0 ==> !M.ShutdownTick(m).1.storage)
  {
    hide MS.Inv, M.Poll;
    MS.DispatchKeeps(m, true);
    MS.PollKeeps(m);
    if M.Poll(m).0 == 1 {
      MP.PollCloses(m);
    }
  }

  /** With all guests gone, a pass leaves them all gone. */
  lemma GoneStays(g: L.State)
    requires LS.Inv(g) && g.sys.Stop? && L.AllGone(g.guests)
    ensures L.InternalEvent(g).guests == g.guests
  {
    var g0 := g.(w := Now(g.w).1);
    hide L.DrainFrom, GS.Settles;
    LS.DrainFromKeeps(g0, 0);
  }

  lemma StepKeeps(s: Whole, e: Event)
    requires Inv(s) && !s.exitRequested
    ensures Inv(Step(s, e))
  {
    hide LS.Inv, MS.Inv, L.Step, L.Handled, L.InternalEvent, M.Work, M.Poll, M.ShutdownTick;
    match e
    case ManagerWorks => MS.WorkKeeps(s.manager);
    case ToGuests(e) =>
      LS.StepKeeps(s.guests, e);
      if L.Internal(e) {
        LS.HandledKeeps(s.guests, e);
        var h := L.Handled(s.guests, e);
        MS.PollKeeps(s.manager);
        TickKeeps(s.manager);
        if h.sys.Stop? && L.AllGone(h.guests) {
          GoneStays(h);
          StepIs(s.guests, e);
        }
      }
  }

  lemma StepIs(g: L.State, e: L.Event)
    requires L.Internal(e)
    ensures L.Step(g, e) == L.InternalEvent(L.Handled(g, e)) && L.Step(g, e).sys == L.Handled(g, e).sys
  {
    hide L.InternalEvent, L.Handled;
  }

  lemma {:induction false} StepsKeep(s: Whole, events: seq<Event>)
    requires Inv(s)
    ensures Inv(Steps(s, events))
    decreases |events|
  {
    hide Inv, Step;
    if events != [] && !s.exitRequested {
      StepKeeps(s, events[0]);
      StepsKeep(Step(s, events[0]), events[1..]);
    }
  }

  lemma BootKeeps(s0: Whole)
    requires Initial(s0)
    ensures Inv(Boot(s0)) && !Boot(s0).exitRequested
  {
    LP.ExecutionInv(s0.guests, []);
    assert L.Execution(s0.guests, []) == L.StartRolesFrom(s0.guests, 0);
    MS.InitialInv(s0.manager);
    hide LS.Inv, MS.Inv, M.Dispatch, L.StartRolesFrom;
    MS.DispatchKeeps(s0.manager, false);
  }

  lemma ExecutionInv(s0: Whole, events: seq<Event>)
    requires Initial(s0)
    ensures Inv(Execution(s0, events))
  {
    hide Inv, Initial, Boot, Steps;
    BootKeeps(s0);
    StepsKeep(Boot(s0), events);
  }

  // ---- leaving the event loop -----------------------------------------------------------------

  /**
   When the event loop has ended, in whatever execution: all guests are exited or disabled and hold no instance, no
   job of the manager is under way, and each of its disks is mounted exactly when its flag is up - for element 0,
   while its flag goes back to an end-of-file, exactly when that was right.
   */
  lemma ExitExactly(s0: Whole, events: seq<Event>)
    requires Initial(s0) && Execution(s0, events).exitRequested
    ensures var s := Execution(s0, events);
            && s.guests.sys.Stop?
            && (forall i :: 0 <= i < |s.guests.guests| ==>
                  var g := s.guests.guests[i]; L.Gone(g) && !g.lxc && g.handles == 0)
            && !s.manager.storage && |s.manager.table| == |s.manager.elems|
            && (forall i :: 0 <= i < |s.manager.elems| ==> (s.manager.table[i] != [] <==> ShowsMounted(s.manager, i)))
  {
    ExecutionInv(s0, events);
    var s := Execution(s0, events);
    hide Initial, Execution;
    GoneIsReleased(s.guests);
    hide LS.Inv;
    FlagsTell(s.manager);
  }

  lemma GoneIsReleased(g: L.State)
    requires LS.Inv(g) && L.AllGone(g.guests)
    ensures forall i :: 0 <= i < |g.guests| ==> L.Gone(g.guests[i]) && !g.guests[i].lxc && g.guests[i].handles == 0
  {
    forall i | 0 <= i < |g.guests| ensures L.Gone(g.guests[i]) && !g.guests[i].lxc && g.guests[i].handles == 0 {
      assert GS.Safe(g.guests[i]);
    }
  }

  /** The flag of element `i`, or what the end-of-file told that raised it. */
  predicate ShowsMounted(m: M.System, i: nat)
    requires i < |m.elems|
  {
    if i == 0 && m.zero.ByEndOfFile? then m.zero.rightly else m.elems[i].mounted
  }

  lemma FlagsTell(m: M.System)
    requires MS.Inv(m) && !m.storage
    ensures |m.table| == |m.elems|
    ensures forall i :: 0 <= i < |m.elems| ==> (m.table[i] != [] <==> ShowsMounted(m, i))
  {
    hide MS.Tokens, MS.Conserved, MS.WorkerInv, MS.AllTruthful;
    forall i | 0 <= i < |m.elems| ensures m.table[i] != [] <==> ShowsMounted(m, i) {
      assert MS.Settled(m.elems[i], m.table[i], MS.OriginOf(m.zero, i));
    }
  }

  /** Is element `i` answered by what a poll reads now? */
  predicate AnsweredNow(m: M.System, i: nat) {
    if m.queue != [] then m.queue[0].index == i else m.worker.phase.Ended? && i == 0
  }

  /** A tick with no guest left ends the event loop exactly when this holds of the manager's own operation. */
  predicate Finishes(m: M.System) {
    if m.storage then MP.Reads(m) && forall i :: 0 <= i < |m.elems| && m.elems[i].dispatched ==> AnsweredNow(m, i)
    else !Try(m.w).0 || forall i :: 0 <= i < |m.elems| ==> !m.elems[i].mounted
  }

  lemma TickFinishes(m: M.System)
    requires MS.Inv(m)
    ensures M.ShutdownTick(m).0 <==> Finishes(m)
  {
    if m.storage {
      PollFinishes(m);
      hide MS.Inv, M.Poll, MP.Reads, AnsweredNow;
    } else {
      NothingFlagged(m.elems);
      hide MS.Inv, M.Copies, M.Poll;
    }
  }

  lemma PollFinishes(m: M.System)
    requires MS.Inv(m) && m.storage
    ensures M.Poll(m).0 == 1 <==> Finishes(m)
  {
    MS.PollIs(m);
    SomethingOpen(m);
    ReadAnswers(m);
    hide MS.Inv, M.Poll, MS.Read, AnsweredNow;
  }

  lemma SomethingOpen(m: M.System)
    requires MS.Inv(m) && m.storage
    ensures m.elems != [] && !M.AllAnswered(m.elems)
  {
    hide MS.InvBut;
  }

  /** What a poll reads leaves nothing open exactly when it answers all that is open. */
  lemma ReadAnswers(m: M.System)
    requires MS.Inv(m) && m.storage
    ensures |MS.Read(m).elems| == |m.elems|
    ensures M.AllAnswered(MS.Read(m).elems) <==> forall i :: 0 <= i < |m.elems| && m.elems[i].dispatched ==> AnsweredNow(m, i)
  {
    if m.queue != [] {
      assert MS.Truthful(m.queue[0], m.elems, m.table);
      DeliverAnswers(m.elems, m.queue[0]);
    } else if m.worker.phase.Ended? {
      SomethingOpen(m);
      DeliverAnswers(m.elems, M.ZEROED);
    }
    hide MS.Inv, M.Deliver, M.Without, M.Rightly;
  }

  lemma DeliverAnswers(elems: seq<M.Elem>, r: M.Response)
    requires r.index < |elems|
    ensures |M.Deliver(elems, r)| == |elems|
    ensures M.AllAnswered(M.Deliver(elems, r)) <==> forall i :: 0 <= i < |elems| && elems[i].dispatched ==> r.index == i
  {
    var elems1 := M.Deliver(elems, r);
    assert forall i :: 0 <= i < |elems| ==> (elems1[i].dispatched <==> elems[i].dispatched && i != r.index);
  }

  lemma NothingFlagged(elems: seq<M.Elem>)
    ensures M.Copies(elems, true, 0) == [] <==> forall i :: 0 <= i < |elems| ==> !elems[i].mounted
  {
    hide M.Copies;
    if forall i :: 0 <= i < |elems| ==> !elems[i].mounted {
      MP.NothingToCopy(elems, 0);
    } else {
      var i :| 0 <= i < |elems| && elems[i].mounted;
      MP.MountedIsCopied(elems, 0, i);
    }
  }

  /**
   The event loop ends exactly at a pass in shutdown mode that finds all guests gone and the manager's own
   operation finished: with no job under way nothing is flagged as mounted or no job can be started, and a job
   under way has every open answer in what is read now.
   */
  lemma ExitsExactly(s: Whole, e: L.Event)
    requires Inv(s) && !s.exitRequested
    ensures var h := L.Handled(s.guests, e);
            Step(s, ToGuests(e)).exitRequested <==>
              L.Internal(e) && h.sys.Stop? && L.AllGone(h.guests) && Finishes(s.manager)
  {
    hide LS.Inv, MS.Inv, L.Step, L.Handled, M.Poll, M.ShutdownTick, Finishes;
    TickFinishes(s.manager);
  }

  /** What that last pass leaves of the manager's disks, told by the state before it. */
  lemma ExitLeaves(s: Whole, e: L.Event)
    requires Inv(s) && !s.exitRequested && Step(s, ToGuests(e)).exitRequested
    ensures var m, m1 := s.manager, Step(s, ToGuests(e)).manager;
            && m1.table == m.table && |m.table| == |m.elems|
            && (forall i :: 0 <= i < |m.elems| ==> (m.table[i] != [] <==> MP.StaysMounted(m, i)))
  {
    hide MP.StaysMounted, LS.Inv, MS.Inv, L.Step, L.Handled, M.Poll, M.ShutdownTick;
    MP.ExitsUnmountedExactly(s.manager);
  }

  // ---- once the unmount job has been started --------------------------------------------------

  lemma TickDrains(m: M.System)
    requires MS.Inv(m) && MP.Draining(m)
    ensures MP.Draining(M.ShutdownTick(m).1)
  {
    MP.PollDrains(m);
    MP.AgainDrains(m);
    hide MS.Inv, MP.Draining, M.Poll;
  }

  lemma StepDrains(s: Whole, e: Event)
    requires Inv(s) && MP.Draining(s.manager)
    ensures MP.Draining(Step(s, e).manager)
  {
    hide LS.Inv, MS.Inv, MP.Draining, L.Step, L.Handled, M.Work, M.Poll, M.ShutdownTick;
    MP.WorkDrains(s.manager);
    MP.PollDrains(s.manager);
    TickDrains(s.manager);
  }

  lemma {:induction false} StepsDrain(s: Whole, events: seq<Event>)
    requires Inv(s) && MP.Draining(s.manager)
    ensures MP.Draining(Steps(s, events).manager)
    decreases |events|
  {
    hide Inv, MP.Draining, Step;
    if events != [] && !s.exitRequested {
      StepKeeps(s, events[0]);
      StepDrains(s, events[0]);
      StepsDrain(Step(s, events[0]), events[1..]);
    }
  }

  lemma DispatchAnswers(m: M.System)
    requires !m.storage && Try(m.w).0
    ensures M.Dispatch(m, true).0 >= 0
  {}

  /** The pass that starts the unmount job: all guests gone, no other job under way, and a socket pair to be had. */
  lemma UnmountStarts(s: Whole, e: L.Event)
    requires Inv(s) && L.Internal(e) && !s.manager.storage && Try(s.manager.w).0
    requires L.Handled(s.guests, e).sys.Stop? && L.AllGone(L.Handled(s.guests, e).guests)
    ensures MP.Draining(Step(s, ToGuests(e)).manager)
  {
    DispatchAnswers(s.manager);
    MP.DispatchDrains(s.manager);
    hide LS.Inv, MS.Inv, MP.Draining, L.Step, L.Handled, M.Dispatch;
  }

  /** From there on, whatever happens, the event loop ends only with every disk of the manager unmounted. */
  lemma UnmountedAtExit(s: Whole, events: seq<Event>)
    requires Inv(s) && MP.Draining(s.manager)
    ensures Steps(s, events).exitRequested ==> MP.AllUnmounted(Steps(s, events).manager.table)
  {
    StepsKeep(s, events);
    StepsDrain(s, events);
    hide Steps, LS.Inv;
    var m := Steps(s, events).manager;
    if Steps(s, events).exitRequested {
      DrainedIsUnmounted(m);
    }
  }

  lemma DrainedIsUnmounted(m: M.System)
    requires MS.Inv(m) && MP.Draining(m) && !m.storage
    ensures MP.AllUnmounted(m.table)
  {
    hide MS.Tokens, MS.Conserved, MS.WorkerInv, MS.AllTruthful;
    forall i | 0 <= i < |m.table| ensures m.table[i] == [] {
      assert MS.Settled(m.elems[i], m.table[i], MS.OriginOf(m.zero, i));
    }
  }

  // ---- the event loop does end ----------------------------------------------------------------

  function Ticks(n: nat): seq<Event> {
    if n == 0 then [] else [ToGuests(L.TimerTick)] + Ticks(n - 1)
  }

  function WorkSteps(n: nat): seq<Event> {
    if n == 0 then [] else [ManagerWorks] + WorkSteps(n - 1)
  }

  lemma {:induction false} StepsAppend(s: Whole, a: seq<Event>, b: seq<Event>)
    ensures Steps(s, a + b) == Steps(Steps(s, a), b)
    decreases |a|
  {
    hide Step;
    if a == [] {
      assert [] + b == b;
    } else if !s.exitRequested {
      assert (a + b)[0] == a[0] && (a + b)[1..] == a[1..] + b;
      StepsAppend(Step(s, a[0]), a[1..], b);
    }
  }

  lemma {:induction false} StepsWork(s: Whole, n: nat)
    requires !s.exitRequested
    ensures Steps(s, WorkSteps(n)) == s.(manager := MP.Works(s.manager, n))
    decreases n
  {
    hide M.Work;
    if n > 0 {
      assert WorkSteps(n)[1..] == WorkSteps(n - 1);
      StepsWork(s.(manager := M.Work(s.manager)), n - 1);
    }
  }

  /** One pass while the thread of the unmount job has ended: it reads one answer, and ends the event loop with the last. */
  lemma DrainedTick(m: M.System)
    requires MS.Inv(m) && MP.Draining(m) && m.storage && m.worker.phase.Ended? && MP.Uninterrupted(m.w)
    ensures var (exits, m1) := M.ShutdownTick(m);
            && m.queue != []
            && (!exits ==> m1.storage && m1.worker.phase.Ended? && MP.Uninterrupted(m1.w) && |m1.queue| == |m.queue| - 1)
  {
    MP.OnePoll(m);
    ClosedIsComplete(m);
    hide MS.Inv, M.Poll, MP.Uninterrupted;
  }

  lemma ClosedIsComplete(m: M.System)
    requires m.storage
    ensures M.Poll(m).0 == 1 <==> !M.Poll(m).1.storage
  {
    MS.PollIs(m);
    hide M.Poll, M.Deliver, M.Without, M.Rightly;
  }

  /** A pass that finds all guests gone concerns the manager's own disks only. */
  lemma GonePass(s: Whole, e: L.Event)
    requires Inv(s) && !s.exitRequested && L.Internal(e)
    requires L.Handled(s.guests, e).sys.Stop? && L.AllGone(L.Handled(s.guests, e).guests)
    ensures var s1, (exits, m) := Step(s, ToGuests(e)), M.ShutdownTick(s.manager);
            && s1.manager == m && s1.exitRequested == exits
            && s1.guests.sys.Stop? && L.AllGone(s1.guests.guests)
  {
    LS.HandledKeeps(s.guests, e);
    GoneStays(L.Handled(s.guests, e));
    StepIs(s.guests, e);
    hide LS.Inv, MS.Inv, L.Step, L.InternalEvent, L.Handled, M.ShutdownTick, L.AllGone;
  }

  lemma GoneTick(s: Whole)
    requires Inv(s) && !s.exitRequested && s.guests.sys.Stop? && L.AllGone(s.guests.guests)
    ensures var s1, (exits, m) := Step(s, ToGuests(L.TimerTick)), M.ShutdownTick(s.manager);
            && s1.manager == m && s1.exitRequested == exits
            && s1.guests.sys.Stop? && L.AllGone(s1.guests.guests)
  {
    assert L.Handled(s.guests, L.TimerTick) == s.guests;
    hide Inv, Step, M.ShutdownTick, L.AllGone, L.Handled;
    GonePass(s, L.TimerTick);
  }

  lemma {:induction false} TicksEnd(s: Whole)
    requires Inv(s) && !s.exitRequested && s.guests.sys.Stop? && L.AllGone(s.guests.guests)
    requires var m := s.manager; MP.Draining(m) && m.storage && m.worker.phase.Ended? && MP.Uninterrupted(m.w)
    ensures Steps(s, Ticks(|s.manager.queue|)).exitRequested
    decreases |s.manager.queue|
  {
    var tick := ToGuests(L.TimerTick);
    hide LS.Inv, MS.Inv, MP.Draining, MP.Uninterrupted, Step, M.ShutdownTick, L.AllGone;
    DrainedTick(s.manager);
    GoneTick(s);
    StepKeeps(s, tick);
    StepDrains(s, tick);
    var n, s1 := |s.manager.queue|, Step(s, tick);
    assert Ticks(n) == [tick] + Ticks(n - 1) && Ticks(n)[1..] == Ticks(n - 1);
    if !s1.exitRequested {
      TicksEnd(s1);
    }
  }

  /** The pass that starts the unmount job, seen from what comes after it. */
  lemma UnmountUnderWay(s: Whole, e: L.Event)
    requires Inv(s) && !s.exitRequested && L.Internal(e) && !s.manager.storage && Try(s.manager.w).0
    requires L.Handled(s.guests, e).sys.Stop? && L.AllGone(L.Handled(s.guests, e).guests)
    ensures var s1 := Step(s, ToGuests(e)); var m := s1.manager;
            && s1.guests.sys.Stop? && L.AllGone(s1.guests.guests)
            && (!s1.exitRequested ==> m.storage && m.queue == [] && m.worker.phase.First? && m.w == Try(s.manager.w).1)
  {
    GonePass(s, e);
    DispatchAnswers(s.manager);
    hide LS.Inv, Step, L.Handled, L.AllGone;
    if M.Dispatch(s.manager, true).0 == 0 {
      O.DispatchStarts(s.manager, true);
    }
    hide MS.Inv, M.Dispatch;
  }

  /**
   Once all guests are gone and the unmount job could be started, the event loop ends: after one step of the thread for
   each element, one more for its end, and one uninterrupted pass for each answer - and then every disk is unmounted.
   */
  lemma LoopEnds(s: Whole, e: L.Event)
    requires Inv(s) && !s.exitRequested && L.Internal(e) && !s.manager.storage
    requires Try(s.manager.w).0 && MP.Uninterrupted(s.manager.w)
    requires L.Handled(s.guests, e).sys.Stop? && L.AllGone(L.Handled(s.guests, e).guests)
    ensures var s1 := Step(s, ToGuests(e)); var n := |s1.manager.worker.todo|;
            var s2 := Steps(s1, WorkSteps(n + 1) + Ticks(n));
            s2.exitRequested && MP.AllUnmounted(s2.manager.table)
  {
    UnmountStarts(s, e);
    UnmountUnderWay(s, e);
    StepKeeps(s, ToGuests(e));
    var s1 := Step(s, ToGuests(e));
    var n := |s1.manager.worker.todo|;
    hide LS.Inv, MS.Inv, MP.Draining, MP.Uninterrupted, Step, L.AllGone, L.Handled, WorkSteps, Ticks;
    UnmountedAtExit(s1, WorkSteps(n + 1) + Ticks(n));
    if !s1.exitRequested {
      O.StillUninterrupted(s.manager.w, s1.manager.w);
      WorkThenTicks(s1);
    }
  }

  lemma WorkThenTicks(s: Whole)
    requires Inv(s) && !s.exitRequested && s.guests.sys.Stop? && L.AllGone(s.guests.guests)
    requires var m := s.manager; MP.Draining(m) && m.storage && m.queue == [] && m.worker.phase.First? && MP.Uninterrupted(m.w)
    ensures var n := |s.manager.worker.todo|; Steps(s, WorkSteps(n + 1) + Ticks(n)).exitRequested
  {
    hide LS.Inv, MS.Inv, MP.Draining, MP.Uninterrupted, Steps, L.AllGone, WorkSteps, Ticks, MP.Works;
    var n := |s.manager.worker.todo|;
    O.UnmountEnds(s.manager);
    StepsWork(s, n + 1);
    StepsKeep(s, WorkSteps(n + 1));
    StepsDrain(s, WorkSteps(n + 1));
    StepsAppend(s, WorkSteps(n + 1), Ticks(n));
    var s1 := Steps(s, WorkSteps(n + 1));
    O.StillUninterrupted(s.manager.w, s1.manager.w);
    TicksEnd(s1);
  }

  // ---- the mount job of the start-up ----------------------------------------------------------

  /** A timer tick in run mode polls the manager's job once. */
  lemma RunTick(s: Whole)
    requires Inv(s) && s.guests.sys.Run?
    ensures var s1 := Step(s, ToGuests(L.TimerTick));
            Inv(s1) && s1.guests.sys.Run? && !s1.exitRequested && s1.manager == M.Poll(s.manager).1
  {
    StepKeeps(s, ToGuests(L.TimerTick));
    StepIs(s.guests, L.TimerTick);
    assert L.Handled(s.guests, L.TimerTick) == s.guests;
    hide LS.Inv, MS.Inv, L.Step, L.InternalEvent, L.Handled, M.Poll;
  }

  lemma {:induction false} RunTicks(s: Whole, n: nat)
    requires Inv(s) && s.guests.sys.Run?
    ensures Steps(s, Ticks(n)).manager == MP.Polls(s.manager, n)
    decreases n
  {
    var tick := ToGuests(L.TimerTick);
    hide LS.Inv, MS.Inv, Step, M.Poll;
    if n > 0 {
      RunTick(s);
      assert Ticks(n) == [tick] + Ticks(n - 1) && Ticks(n)[1..] == Ticks(n - 1);
      RunTicks(Step(s, tick), n - 1);
    }
  }

  /**
   The mount job started at start-up is over, after the life of its thread and an uninterrupted pass for every answer and
   every element given up, exactly when its first pass kept no element other than element 0.
   */
  lemma BootJobCompletes(s0: Whole)
    requires Initial(s0) && M.Dispatch(s0.manager, false).0 == 0 && MP.Uninterrupted(s0.manager.w)
    ensures var s1 := Boot(s0); var m := s1.manager;
            && s1.looping && M.InTable(m.worker.todo, m.table)
            && var life := O.LifeLength(m.worker.todo, m.table, m.w);
               var m1 := MP.Works(m, life);
               var kept := M.Pass(m.worker.todo, false, m.table, m.w).kept;
               !Steps(s1, WorkSteps(life) + Ticks(|m1.queue| + |m1.worker.lost|)).manager.storage <==>
                 forall i :: 0 <= i < |kept| ==> kept[i].index == 0
  {
    hide Initial, MS.Inv, MP.Uninterrupted, M.Dispatch, Boot, Steps, WorkSteps, Ticks, MP.Works, MP.Polls, M.Pass, O.LifeLength;
    ManagerStarts(s0);
    O.JobCompletesExactly(s0.manager, false);
    var m := Boot(s0).manager;
    var m1 := MP.Works(m, O.LifeLength(m.worker.todo, m.table, m.w));
    BootJobRuns(s0, O.LifeLength(m.worker.todo, m.table, m.w), |m1.queue| + |m1.worker.lost|);
  }

  lemma ManagerStarts(s0: Whole)
    requires Initial(s0) && M.Dispatch(s0.manager, false).0 == 0
    ensures MS.Inv(s0.manager) && Boot(s0).looping && Boot(s0).manager == M.Dispatch(s0.manager, false).1
  {
    MS.InitialInv(s0.manager);
    BootRuns(s0);
  }

  lemma BootJobRuns(s0: Whole, life: nat, n: nat)
    requires Initial(s0) && M.Dispatch(s0.manager, false).0 == 0
    ensures Steps(Boot(s0), WorkSteps(life) + Ticks(n)).manager == MP.Polls(MP.Works(Boot(s0).manager, life), n)
  {
    BootKeeps(s0);
    BootRuns(s0);
    hide Initial, Inv, M.Dispatch, Boot, Steps;
    WorkThenPolls(Boot(s0), life, n);
  }

  lemma BootRuns(s0: Whole)
    requires Initial(s0) && M.Dispatch(s0.manager, false).0 >= 0
    ensures Boot(s0).looping && Boot(s0).guests.sys.Run? && Boot(s0).manager == M.Dispatch(s0.manager, false).1
  {
    hide M.Dispatch, L.StartRolesFrom;
  }

  lemma WorkThenPolls(s: Whole, life: nat, n: nat)
    requires Inv(s) && s.guests.sys.Run? && !s.exitRequested
    ensures Steps(s, WorkSteps(life) + Ticks(n)).manager == MP.Polls(MP.Works(s.manager, life), n)
  {
    hide LS.Inv, MS.Inv, Steps, WorkSteps, Ticks, MP.Works, MP.Polls;
    StepsWork(s, life);
    StepsKeep(s, WorkSteps(life));
    StepsAppend(s, WorkSteps(life), Ticks(n));
    RunTicks(Steps(s, WorkSteps(life)), n);
  }

  // ---- after the event loop -------------------------------------------------------------------

  /** The whole life: start-up, the event loop if it is entered, and the cleanup of all guests however it was left. */
  function Life(s: Whole, events: seq<Event>): Whole {
    var s1 := Execution(s, events);
    s1.(guests := L.TerminateFrom(s1.guests, 0))
  }

  /** No guest leaves an instance, an interface or, but for the counted leaks, a mount behind, wherever the events end. */
  lemma NothingLeftBehind(s0: Whole, events: seq<Event>)
    requires Initial(s0)
    ensures forall g :: g in Life(s0, events).guests.guests ==> LP.Released(g)
  {
    ExecutionInv(s0, events);
    hide GS.Safe, LP.Released, Initial, Execution, L.TerminateFrom, MS.Inv;
    LP.TerminateReleases(Execution(s0, events).guests, 0);
  }

  // ---- where the promise stops ----------------------------------------------------------------

  const IDLE := R.Config("guest", "ivi", false, 0)

  /** One guest that is not started at boot. */
  function OneIdleGuest(w: World): L.State {
    L.State([X.NewGuest(X.ROOT, [])], [IDLE], [R.Role("ivi", [None, Some(0)])], G.Run, [], w)
  }

  lemma IdleGuestStays(w: World)
    ensures var g := OneIdleGuest(w);
            && L.Initial(g) && L.StartRolesFrom(g, 0) == g
            && L.Handled(g, L.SystemShutdown) == g.(sys := G.Stop) && L.AllGone(g.guests)
  {
    var g := OneIdleGuest(w);
    assert R.Bind([IDLE], 0) == [];
    assert [None] + [Some(0)] == [None, Some(0)];
    assert R.Place([], IDLE, 0) == g.roles;
    assert R.RoleAt(g.roles, "ivi", 0) == 0;
    assert L.StartRolesFrom(g, 0) == L.StartRolesFrom(g, 1) == g;
    var g1 := g.(sys := G.Stop);
    assert G.RequestShutdown(g.guests[0], w, G.Stop) == G.Result(0, g.guests[0], w);
    assert L.Put(g1, 0, g.guests[0], w) == g1;
    assert L.ShutdownFrom(g1, 0) == L.ShutdownFrom(g1, 1) == g1;
  }

  /** A whole run: shut down while the mount job of the start is pending, the manager leaves with its disk mounted. */
  lemma PendingLaunchExit(w: World)
    ensures var m0 := M.System([MP.DISK], [[]], false, [], M.Worker(M.Absent, [], [], []), M.ByAnswer, World(p => 0, 0, 0));
            var s0 := Whole(OneIdleGuest(w), m0, false, false);
            var s := Execution(s0, [ManagerWorks, ToGuests(L.SystemShutdown)]);
            Initial(s0) && s.exitRequested && s.manager.table == [["a"]]
  {
    var m0 := M.System([MP.DISK], [[]], false, [], M.Worker(M.Absent, [], [], []), M.ByAnswer, World(p => 0, 0, 0));
    var g0 := OneIdleGuest(w);
    var s0 := Whole(g0, m0, false, false);
    MP.PendingLaunchExit();
    MP.LaunchThenWork(m0);
    IdleGuestStays(w);
    assert M.Copies([MP.DISK], false, 0) == [M.JobOf([MP.DISK], 0)] + M.Copies([MP.DISK], false, 1);
    var s1 := Boot(s0);
    assert s1.looping && s1.manager == M.Dispatch(m0, false).1;
    hide M.Work, M.Dispatch, M.ShutdownTick, OneIdleGuest, L.Initial, L.StartRolesFrom, L.Handled, L.Step;
    var e := ToGuests(L.SystemShutdown);
    var s2 := Step(s1, ManagerWorks);
    var s3 := Step(s2, e);
    assert [ManagerWorks, e][1..] == [e] && [e][1..] == [];
    assert Steps(s1, [ManagerWorks, e]) == Steps(s2, [e]) == Steps(s3, []);
  }
}
