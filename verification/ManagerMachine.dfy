/**
 The container manager's object graph in full: the guests' records (module Machine) beside the manager's own
 disks and their worker thread, refining ContainerManager.
 */
module ManagerMachine {
  import opened Host
  import opened MountTable
  import opened ManagerMount
  import opened ManagerOperation
  import C = ContainerManager
  import L = Lifecycle
  import MC = Machine
  import MS = ManagerMountSafety

  /** The manager's own disks: the host's side and, between any two of its steps, the worker thread. */
  class OwnDisks {
    const host: ManagerHost
    const k: Kernel
    var table: seq<Stack>
    // the thread: the pass it is in, the elements it has still to visit and those it went past, its end of the socket
    var phase: Phase
    var todo: seq<Job>
    var kept: seq<Job>
    var socket: Socket?
    ghost var lost: seq<nat>
    ghost var mended: set<nat>
    ghost var zero: Origin

    ghost function View(): System
      reads this, host, host.storage, k
    {
      System(host.elems, table, host.storage != null, if host.storage != null then host.storage.queue else [],
             Worker(phase, todo, kept, lost, mended), zero, k.w)
    }

    /** While a job is under way host and thread hold the two ends of one socket pair; the thread closes its end last. */
    ghost predicate Valid()
      reads this, host, host.storage
    {
      host.storage != null ==> socket == host.storage && (phase.Ended? <==> host.storage.closed)
    }

    constructor (elems: seq<Elem>, table: seq<Stack>, k: Kernel)
      ensures Valid() && this.k == k && fresh(host) && View() == System(elems, table, false, [], Worker(Absent, [], [], []), ByAnswer, k.w)
    {
      host := new ManagerHost(elems);
      this.k, this.table := k, table;
      phase, todo, kept, socket, lost, mended, zero := Absent, [], [], null, [], {}, ByAnswer;
    }

    /** manager_operation_delayed_launch or _terminate, and the thread it creates. */
    method Start(mounted: bool) returns (ret: int)
      requires Valid()
      modifies this, host, k
      ensures Valid() && (ret, View()) == Dispatch(old(View()), mounted)
      ensures socket == old(socket) || fresh(socket)
      ensures host.storage == old(host.storage) || fresh(host.storage)
    {
      var worker: WorkerThread?;
      ghost var s := View();
      if mounted {
        ret, worker := host.DelayedTerminate(table, k, s);
      } else {
        ret, worker := host.DelayedLaunch(table, k, s);
      }
      if worker != null {
        phase, todo, kept, socket, lost, mended := First, worker.list, [], worker.socket, [], {};
      }
    }

    method PollOnce() returns (result: int)
      requires Valid()
      modifies this, host, socket, k
      ensures Valid() && (result, View()) == Poll(old(View()))
      ensures socket == old(socket)
    {
      ghost var s := View();
      result := host.DelayedPoll(k, s);
      lost, zero := Poll(s).1.worker.lost, Poll(s).1.zero;
    }

    /** The tail of the pass in shutdown mode: start the unmount job, or follow the job under way. */
    method TerminateTick() returns (exits: bool)
      requires Valid()
      modifies this, host, socket, k
      ensures Valid() && (exits, View()) == ShutdownTick(old(View()))
      ensures socket == old(socket) || fresh(socket)
    {
      hide Dispatch, Poll;
      var ret := Start(true);
      exits := ret != 0;
      if ret == -1 {
        var polled := PollOnce();
        exits := polled == 1;
      }
    }

    /** A repair process for the next element: without one the element is canceled. */
    method Fork()
      requires Valid() && phase.Recover? && todo != []
      modifies this, k
      ensures Valid() && View() == Work(old(View())) && socket == old(socket)
    {
      var forked := k.CallOk();
      if forked {
        kept := kept + [todo[0]];
      } else {
        lost := lost + [todo[0].index];
      }
      todo := todo[1..];
    }

    /** The next element of a mount pass. */
    method Visit()
      requires Valid() && MS.Inv(View()) && (phase.First? || phase.Retake?) && todo != []
      modifies this, socket, k
      ensures Valid() && View() == Work(old(View())) && socket == old(socket)
    {
      JobStored(View());
      hide Process, MS.Inv;
      var j := todo[0];
      ghost var mends := Mends(j, phase.Retake?, table[j.index], k.w);
      var answer, st := MountElement(j, phase.Retake?, table[j.index], k);
      table := table[j.index := st];
      todo := todo[1..];
      if answer.Some? {
        socket.queue := socket.queue + [answer.value];
      } else {
        kept := kept + [j];
        mended := if mends then mended + {j.index} else mended;
      }
    }

    /** The end of a pass; the thread ends by freeing what it kept and closing its end of the socket. */
    method TurnOver()
      requires Valid() && (todo == [] || phase.Absent? || phase.Ended?)
      modifies this, socket, k
      ensures Valid() && View() == Work(old(View())) && socket == old(socket)
    {
      match phase {
        case Absent =>
        case Ended =>
        case Recover => phase, todo, kept := Retake, kept, [];
        case First =>
          if kept != [] {
            phase, todo, kept := Recover, kept, [];
          } else {
            End();
          }
        case Retake => End();
      }
    }

    /** What is left on the list is freed unanswered. */
    method End()
      requires Valid() && todo == []
      modifies this, socket
      ensures Valid() && socket == old(socket)
      ensures View() == old(View().(worker := Worker(Ended, [], [], lost + Indexes(kept), mended)))
    {
      lost := lost + Indexes(kept);
      phase, kept := Ended, [];
      if socket != null {
        socket.closed := true;
      }
    }

    /** One step of the thread. */
    method Advance()
      requires Valid() && MS.Inv(View())
      modifies this, socket, k
      ensures Valid() && View() == Work(old(View()))
      ensures socket == old(socket)
    {
      if phase.Recover? && todo != [] {
        Fork();
      } else if (phase.First? || phase.Retake?) && todo != [] {
        Visit();
      } else {
        TurnOver();
      }
    }
  }

  /** An element still with the thread is dispatched, so the host has its end of the socket open. */
  lemma JobStored(s: System)
    requires MS.Inv(s) && s.worker.todo != []
    ensures s.storage && s.worker.todo[0].index < |s.table|
  {
    var j := s.worker.todo[0];
    assert MS.Held(s.worker.todo)[j.index] > 0;
    assert MS.Tokens(s.worker, s.queue)[j.index] > 0;
    assert MS.Pending(j, s.elems, s.table);
    assert s.elems[j.index].dispatched;
  }

  class Manager {
    const machine: MC.Containers
    const disks: OwnDisks
    var looping: bool
    var exitRequested: bool

    constructor (machine: MC.Containers, disks: OwnDisks)
      requires machine.Valid() && disks.Valid() && machine.k != disks.k
      ensures this.machine == machine && this.disks == disks
      ensures Valid() && View() == C.Whole(machine.View(), disks.View(), false, false)
    {
      this.machine, this.disks := machine, disks;
      looping, exitRequested := false, false;
    }

    ghost function View(): C.Whole
      reads this, disks, disks.host, disks.host.storage, disks.k, machine, machine.k, machine.roleTable, machine.linkTable, machine.containers, MC.Slots(machine.containers)
    {
      C.Whole(machine.View(), disks.View(), looping, exitRequested)
    }

    ghost predicate Valid()
      reads disks, disks.host, disks.host.storage, machine, machine.roleTable
    {
      machine.Valid() && disks.Valid() && machine.k != disks.k
    }

    /** Start-up, up to the event loop. */
    method Boot()
      requires Valid()
      modifies this, disks, disks.host, disks.k, machine, machine.k, machine.roleTable, machine.linkTable, machine.containers, MC.Slots(machine.containers)
      ensures Valid() && View() == C.Boot(old(View()))
      ensures disks.socket == old(disks.socket) || fresh(disks.socket)
    {
      hide L.StartRolesFrom, Dispatch, MC.Views, MC.Containers.View, MC.Containers.Valid, OwnDisks.View, OwnDisks.Valid;
      machine.StartMachine();
      var ret := disks.Start(false);
      looping := ret >= 0;
    }

    /** One event, or one step of the manager's own worker thread. */
    method Handle(e: C.Event)
      requires Valid() && MS.Inv(disks.View())
      modifies this, disks, disks.host, disks.socket, disks.k, machine, machine.k, machine.roleTable, machine.linkTable, machine.containers, MC.Slots(machine.containers)
      ensures Valid() && View() == C.Step(old(View()), e)
      ensures disks.socket == old(disks.socket) || fresh(disks.socket)
    {
      hide L.Step, L.Handled, L.TailOf, Work, C.Closed, MC.Views, MC.Containers.View, MC.Containers.Valid, OwnDisks.View, OwnDisks.Valid, MS.Inv;
      match e {
        case ManagerWorks =>
          disks.Advance();
          GuestsKept();
        case ToGuests(event) => HandleEvent(event);
      }
    }

    method HandleEvent(event: L.Event)
      requires Valid()
      modifies this`exitRequested, disks, disks.host, disks.socket, disks.k, machine, machine.k, machine.roleTable, machine.linkTable, machine.containers, MC.Slots(machine.containers)
      ensures Valid() && View() == C.Step(old(View()), C.ToGuests(event))
      ensures disks.socket == old(disks.socket) || fresh(disks.socket)
    {
      hide L.Step, L.Handled, L.TailOf, Work, C.Closed, MC.Views, MC.Containers.View, MC.Containers.Valid, OwnDisks.View, OwnDisks.Valid;
      var tail := machine.Handle(event);
      ClosePass(tail);
    }

    /** What happens to the manager's own disks leaves the guests alone. */
    twostate lemma GuestsKept()
      requires old(Valid())
      requires unchanged(machine) && unchanged(machine.k) && unchanged(machine.roleTable) && unchanged(machine.linkTable)
      requires unchanged(machine.containers) && unchanged(MC.Slots(machine.containers))
      ensures machine.Valid() && machine.View() == old(machine.View())
    {
      hide MC.Containers.View, MC.Containers.Valid, MC.Views;
    }

    /** The pass goes on with the manager's own disks. */
    method ClosePass(tail: L.Tail)
      requires Valid()
      modifies this`exitRequested, disks, disks.host, disks.socket, disks.k
      ensures Valid() && machine.View() == old(machine.View())
      ensures disks.socket == old(disks.socket) || fresh(disks.socket)
      ensures View() == C.Closed(old(View()), tail)
    {
      hide Poll, ShutdownTick, MC.Views, MC.Containers.View, MC.Containers.Valid, OwnDisks.View, OwnDisks.Valid;
      match tail {
        case NoTail =>
        case PollTail =>
          var polled := disks.PollOnce();
          GuestsKept();
        case TerminateTail =>
          var exits := disks.TerminateTick();
          GuestsKept();
          exitRequested := exitRequested || exits;
      }
    }

    /** The manager's life: start up, then handle events as they come until the end is requested. */
    method Execute(events: seq<C.Event>)
      requires Valid() && C.Initial(View())
      modifies this, disks, disks.host, disks.socket, disks.k, machine, machine.k, machine.roleTable, machine.linkTable, machine.containers, MC.Slots(machine.containers)
      ensures Valid() && View() == C.Execution(old(View()), events) && C.Inv(View())
    {
      hide C.Inv, C.Initial, C.Step, C.Boot, MC.Views, MC.Containers.View, MC.Containers.Valid, OwnDisks.View, OwnDisks.Valid;
      C.BootKeeps(View());
      Boot();
      if looping {
        ghost var start := View();
        var i := 0;
        while i < |events| && !exitRequested
          invariant i <= |events| && Valid() && C.Inv(View())
          invariant C.Steps(View(), events[i..]) == C.Steps(start, events)
          invariant disks.socket == old(disks.socket) || fresh(disks.socket)
        {
          assert events[i..][1..] == events[i + 1..];
          DisksInv();
          C.StepKeeps(View(), events[i]);
          Handle(events[i]);
          i := i + 1;
        }
      }
    }

    /** The whole life: once the event loop was left, or not entered, every guest is cleaned up. */
    method Run(events: seq<C.Event>)
      requires Valid() && C.Initial(View())
      modifies this, disks, disks.host, disks.socket, disks.k, machine, machine.k, machine.roleTable, machine.linkTable, machine.containers, MC.Slots(machine.containers)
      ensures Valid() && View() == C.Life(old(View()), events)
    {
      hide C.Initial, C.Execution, C.Inv, L.TerminateFrom, MC.Views, MC.Containers.View, MC.Containers.Valid, OwnDisks.View, OwnDisks.Valid;
      Execute(events);
      machine.TerminateMachine();
    }

    lemma DisksInv()
      requires C.Inv(View())
      ensures MS.Inv(disks.View())
    {}
  }
}
