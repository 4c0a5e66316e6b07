/**
 src/container-manager-operations.c in its own form: the host's element list and storage, the packet
 socket between host and worker, and the worker thread with its own list.
 */
module ManagerOperation {
  import opened Host
  import opened MountTable
  import opened Options
  import opened ManagerMount
  import opened ManagerMountSafety
  import opened ManagerMountProperties

  /** The socket pair, seen from the host: packets not yet read, and whether the worker closed its end. */
  class Socket {
    var queue: seq<Response>
    var closed: bool

    constructor ()
      ensures queue == [] && !closed
    {
      queue, closed := [], false;
    }
  }

  // ---- the worker thread ----------------------------------------------------------------------

  /** The recovery between the two passes: elements whose child process could be forked stay, the others are canceled. */
  function Recovered(jobs: seq<Job>, w: World): (seq<Job>, World) {
    if jobs == [] then ([], w)
    else
      var (forked, w1) := Try(w);
      var (rest, w2) := Recovered(jobs[1..], w1);
      (if forked then [jobs[0]] + rest else rest, w2)
  }

  /** The whole life of a worker thread. */
  function Life(jobs: seq<Job>, table: seq<Stack>, w: World): Passed
    requires InTable(jobs, table)
  {
    var first := Pass(jobs, false, table, w);
    if first.kept == [] then first
    else
      var (left, w1) := Recovered(first.kept, first.w);
      PassInTable(jobs, false, table, w);
      RecoveredInTable(first.kept, first.w, first.table);
      var second := Pass(left, true, first.table, w1);
      second.(answers := first.answers + second.answers)
  }

  lemma {:induction false} PassInTable(jobs: seq<Job>, retake: bool, table: seq<Stack>, w: World)
    requires InTable(jobs, table)
    ensures var r := Pass(jobs, retake, table, w);
            |r.table| == |table| && InTable(r.kept, r.table)
    decreases jobs
  {
    if jobs != [] {
      var (answer, st, w1) := Process(jobs[0], retake, table[jobs[0].index], w);
      hide Process;
      PassInTable(jobs[1..], retake, table[jobs[0].index := st], w1);
    }
  }

  lemma {:induction false} RecoveredInTable(jobs: seq<Job>, w: World, table: seq<Stack>)
    requires InTable(jobs, table)
    ensures InTable(Recovered(jobs, w).0, table)
  {
    if jobs != [] {
      RecoveredInTable(jobs[1..], Try(w).1, table);
    }
  }

  /** What a pass comes to when `kept` and `answers` were there before `rest` of it. */
  ghost function Joined(kept: seq<Job>, answers: seq<Response>, rest: Passed): Passed {
    rest.(kept := kept + rest.kept, answers := answers + rest.answers)
  }

  lemma PassNothing(retake: bool, table: seq<Stack>, w: World)
    ensures Pass([], retake, table, w) == Passed([], [], table, w)
  {}

  /** The element at the cursor of the walk, and the walk that is left. */
  lemma TodoStep(list: seq<Job>, i: nat, retake: bool, table: seq<Stack>, w: World, answers: seq<Response>)
    requires i < |list| && InTable(list[i..], table)
    ensures list[i].index < |table|
    ensures var (answer, st, w1) := Process(list[i], retake, table[list[i].index], w);
            var table1 := table[list[i].index := st];
            var before := Joined(list[..i], answers, Pass(list[i..], retake, table, w));
            if answer.Some? then
              var list1 := list[..i] + list[i + 1..];
              && InTable(list1[i..], table1)
              && before == Joined(list1[..i], answers + [answer.value], Pass(list1[i..], retake, table1, w1))
            else
              && InTable(list[i + 1..], table1)
              && before == Joined(list[..i + 1], answers, Pass(list[i + 1..], retake, table1, w1))
  {
    var todo := list[i..];
    assert todo[0] == list[i] && todo[1..] == list[i + 1..];
    var (answer, st, w1) := Process(list[i], retake, table[list[i].index], w);
    hide Process;
    var table1 := table[list[i].index := st];
    assert InTable(todo[1..], table1);
    var rest := Pass(todo[1..], retake, table1, w1);
    if answer.Some? {
      var list1 := list[..i] + list[i + 1..];
      assert list1[i..] == todo[1..] && list1[..i] == list[..i];
      assert answers + ([answer.value] + rest.answers) == (answers + [answer.value]) + rest.answers;
    } else {
      assert list[..i] + ([list[i]] + rest.kept) == list[..i + 1] + rest.kept;
    }
  }

  /** A retake mounts what recovery made mountable, and says nothing about it. */
  lemma {:induction false} RetakeAnswersNothing(jobs: seq<Job>, table: seq<Stack>, w: World)
    requires InTable(jobs, table) && AllRecoverable(jobs)
    ensures Pass(jobs, true, table, w).answers == []
    decreases jobs
  {
    if jobs != [] {
      var j := jobs[0];
      assert j.redundancy.Fsck? || j.redundancy.Mkfs?;
      var (answer, st, w1) := Process(j, true, table[j.index], w);
      assert answer.None?;
      hide Process;
      RetakeAnswersNothing(jobs[1..], table[j.index := st], w1);
    }
  }

  lemma {:induction false} RecoveredRecoverable(jobs: seq<Job>, w: World)
    requires AllRecoverable(jobs)
    ensures AllRecoverable(Recovered(jobs, w).0)
  {
    if jobs != [] {
      RecoveredRecoverable(jobs[1..], Try(w).1);
    }
  }

  /**
   The answers a worker gives in its whole life are those of its first pass: elements that needed a
   repair are never answered, even when the mount after the repair succeeds.
   */
  lemma LifeAnswersFirstPass(jobs: seq<Job>, table: seq<Stack>, w: World)
    requires Ready(jobs, table)
    ensures Life(jobs, table, w).answers == Pass(jobs, false, table, w).answers
    ensures Merges(Indexes(jobs), Indexes(Pass(jobs, false, table, w).kept), AnswerIndexes(Life(jobs, table, w).answers))
  {
    var first := Pass(jobs, false, table, w);
    PassPartitions(jobs, false, table, w);
    PassTruthful(jobs, false, table, w);
    hide Pass, Recovered, Ready, Merges;
    assert InTable(jobs, table);
    PassInTable(jobs, false, table, w);
    RecoveredInTable(first.kept, first.w, first.table);
    RecoveredRecoverable(first.kept, first.w);
    var (left, w1) := Recovered(first.kept, first.w);
    RetakeAnswersNothing(left, first.table, w1);
    assert first.answers + [] == first.answers;
  }

  // ---- the thread's life, step by step --------------------------------------------------------

  lemma {:induction false} WorksAdd(s: System, n: nat, m: nat)
    ensures Works(s, n + m) == Works(Works(s, n), m)
    decreases n
  {
    hide Work;
    if n > 0 {
      WorksAdd(Work(s), n - 1, m);
    }
  }

  /** The elements whose repair process could not be forked. */
  ghost function Canceled(jobs: seq<Job>, w: World): seq<nat> {
    if jobs == [] then []
    else
      var (forked, w1) := Try(w);
      (if forked then [] else [jobs[0].index]) + Canceled(jobs[1..], w1)
  }

  lemma Regroup<T>(a: seq<T>, x: T, b: seq<T>)
    ensures a + ([x] + b) == (a + [x]) + b
  {}

  lemma RecoveredUnfold(jobs: seq<Job>, w: World)
    requires jobs != []
    ensures var (forked, w1) := Try(w);
            var (rest, w2) := Recovered(jobs[1..], w1);
            && Recovered(jobs, w) == (if forked then [jobs[0]] + rest else rest, w2)
            && Canceled(jobs, w) == if forked then Canceled(jobs[1..], w1) else [jobs[0].index] + Canceled(jobs[1..], w1)
  {
    assert [] + Canceled(jobs[1..], Try(w).1) == Canceled(jobs[1..], Try(w).1);
  }

  lemma ForkIs(s: System)
    requires s.worker.phase.Recover? && s.worker.todo != []
    ensures var k, (forked, w1) := s.worker, Try(s.w);
            Work(s) == s.(w := w1, worker := if forked then k.(todo := k.todo[1..], kept := k.kept + [k.todo[0]])
                                             else k.(todo := k.todo[1..], lost := k.lost + [k.todo[0].index]))
  {}

  /** The recovery is what the worker's single steps come to. */
  lemma {:induction false} RecoveredIsWork(s: System)
    requires s.worker.phase.Recover?
    ensures var k := s.worker;
            var (left, w1) := Recovered(k.todo, s.w);
            Works(s, |k.todo|) == s.(w := w1, worker := k.(todo := [], kept := k.kept + left, lost := k.lost + Canceled(k.todo, s.w)))
    decreases |s.worker.todo|
  {
    var k := s.worker;
    if k.todo == [] {
      assert k.kept + [] == k.kept && k.lost + [] == k.lost;
    } else {
      var j := k.todo[0];
      var (forked, w1) := Try(s.w);
      ForkIs(s);
      RecoveredIsWork(Work(s));
      RecoveredUnfold(k.todo, s.w);
      hide Work, Recovered, Canceled, Try;
      if forked {
        Regroup(k.kept, j, Recovered(k.todo[1..], w1).0);
      } else {
        Regroup(k.lost, j.index, Canceled(k.todo[1..], w1));
      }
    }
  }

  /** A pass, and the turn to what comes after it. */
  lemma PassAndTurn(s: System)
    requires (s.worker.phase.First? || s.worker.phase.Retake?) && s.worker.kept == [] && InTable(s.worker.todo, s.table)
    ensures var k, r := s.worker, Pass(s.worker.todo, s.worker.phase.Retake?, s.table, s.w);
            Works(s, |k.todo| + 1)
            == s.(table := r.table, w := r.w, queue := s.queue + r.answers,
                  worker := Turn(k.(todo := [], kept := r.kept, mended := k.mended + MendedBy(s))))
  {
    hide Pass, Works, Work, Turn, MendedBy, InTable;
    PassIsWork(s);
    WorksAdd(s, |s.worker.todo|, 1);
    var s1, r := Works(s, |s.worker.todo|), Pass(s.worker.todo, s.worker.phase.Retake?, s.table, s.w);
    NothingBefore(r.kept);
    TurnIs(s1);
    OneWork(s1);
  }

  lemma NothingBefore(jobs: seq<Job>)
    ensures [] + jobs == jobs
  {}

  lemma OneWork(s: System)
    ensures Works(s, 1) == Work(s)
  {
    hide Work;
    assert Works(Work(s), 0) == Work(s);
  }

  /** The recovery, and the turn to the retake pass. */
  lemma RecoveredAndTurn(s: System)
    requires s.worker.phase.Recover? && s.worker.kept == []
    ensures var k := s.worker;
            var (left, w1) := Recovered(k.todo, s.w);
            Works(s, |k.todo| + 1) == s.(w := w1, worker := Worker(Retake, left, [], k.lost + Canceled(k.todo, s.w), k.mended))
  {
    RecoveredIsWork(s);
    WorksAdd(s, |s.worker.todo|, 1);
    var left := Recovered(s.worker.todo, s.w).0;
    assert [] + left == left;
    hide Recovered, Canceled, Work;
    TurnIs(Works(s, |s.worker.todo|));
    OneWork(Works(s, |s.worker.todo|));
  }

  lemma MendsNothing(table: seq<Stack>, w: World)
    ensures Recovered([], w) == ([], w) && MendedIn([], true, table, w) == {}
  {}

  /** How many single steps a worker's life takes. */
  ghost function LifeLength(jobs: seq<Job>, table: seq<Stack>, w: World): nat
    requires InTable(jobs, table)
  {
    var first := Pass(jobs, false, table, w);
    if first.kept == [] then |jobs| + 1
    else (|jobs| + 1) + (|first.kept| + 1) + (|Recovered(first.kept, first.w).0| + 1)
  }

  /** The elements a worker mends in its life: those whose repair process was forked and whose second mount returned 0. */
  ghost function MendedInLife(jobs: seq<Job>, table: seq<Stack>, w: World): set<nat>
    requires InTable(jobs, table)
  {
    var first := Pass(jobs, false, table, w);
    var (left, w1) := Recovered(first.kept, first.w);
    PassInTable(jobs, false, table, w);
    RecoveredInTable(first.kept, first.w, first.table);
    MendedIn(left, true, first.table, w1)
  }

  lemma {:induction false} FirstMendsNothing(jobs: seq<Job>, table: seq<Stack>, w: World)
    requires InTable(jobs, table)
    ensures MendedIn(jobs, false, table, w) == {}
    decreases jobs
  {
    if jobs != [] {
      MendedElement(jobs, false, table, w);
      var (answer, st, w1) := Process(jobs[0], false, table[jobs[0].index], w);
      hide MendedIn, Process;
      FirstMendsNothing(jobs[1..], table[jobs[0].index := st], w1);
    }
  }

  /** From the first step to the end of the thread, single steps come to what Life says: same answers, same mounts. */
  lemma LifeIsWork(s: System)
    requires s.worker.phase.First? && s.worker.kept == [] && InTable(s.worker.todo, s.table)
    ensures var r := Life(s.worker.todo, s.table, s.w);
            var s1 := Works(s, LifeLength(s.worker.todo, s.table, s.w));
            && s1.worker.phase.Ended? && s1.worker.todo == s1.worker.kept == []
            && s1.worker.mended == s.worker.mended + MendedInLife(s.worker.todo, s.table, s.w)
            && s1 == s.(table := r.table, w := r.w, queue := s.queue + r.answers, worker := s1.worker)
  {
    hide Pass, Recovered, Canceled, Works, MendedIn;
    var jobs := s.worker.todo;
    FirstMendsNothing(jobs, s.table, s.w);
    MendsNothing(Pass(jobs, false, s.table, s.w).table, Pass(jobs, false, s.table, s.w).w);
    var first := Pass(jobs, false, s.table, s.w);
    PassAndTurn(s);
    var s1 := Works(s, |jobs| + 1);
    if first.kept != [] {
      var (left, w1) := Recovered(first.kept, first.w);
      RecoveredAndTurn(s1);
      var s2 := Works(s1, |first.kept| + 1);
      PassInTable(jobs, false, s.table, s.w);
      RecoveredInTable(first.kept, first.w, first.table);
      PassAndTurn(s2);
      var second := Pass(left, true, first.table, w1);
      WorksAdd(s, |jobs| + 1, |first.kept| + 1);
      WorksAdd(s, (|jobs| + 1) + (|first.kept| + 1), |left| + 1);
      assert (s.queue + first.answers) + second.answers == s.queue + (first.answers + second.answers);
    }
  }

  // ---- from the start of a job to its completion ----------------------------------------------

  lemma ProcessLater(j: Job, retake: bool, st: Stack, w: World)
    requires !j.mounted ==> st == []
    ensures Later(w, Process(j, retake, st, w).2)
  {
    hide UnmountDisk, MountOne, MountFailoverFrom;
    if j.mounted {
      var (now, w1) := Now(w);
      UnmountExact(st, now + UNMOUNT_TIMEOUT, UNMOUNT_RETRIES, w1);
    } else {
      MountOneExact(j.devs.At(0), w);
      FailoverExact(j.devs, w);
    }
  }

  lemma WorkLater(s: System)
    requires Inv(s)
    ensures Later(s.w, Work(s).w)
  {
    var k := s.worker;
    if k.todo == [] {
      TurnIs(s);
      hide Work;
    } else if k.phase.First? || k.phase.Retake? {
      HeadApart(s);
      Tails(k.todo, s.elems, s.table);
      WorkElement(s);
      ProcessLater(k.todo[0], k.phase.Retake?, s.table[k.todo[0].index], s.w);
      hide Work, Process, Inv;
    } else {
      hide Process, InvBut;
    }
  }

  lemma {:induction false} WorksLater(s: System, n: nat)
    requires Inv(s)
    ensures Inv(Works(s, n)) && Later(s.w, Works(s, n).w)
    decreases n
  {
    hide Inv, Work;
    if n > 0 {
      WorkKeeps(s);
      WorkLater(s);
      WorksLater(Work(s), n - 1);
    }
  }

  lemma {:induction false} WorksKeepTokens(s: System, n: nat)
    requires Inv(s) && (s.worker.phase.First? ==> s.worker.todo == [])
    ensures Tokens(Works(s, n).worker, []) == Tokens(s.worker, [])
    decreases n
  {
    hide Inv, Work, Tokens;
    if n > 0 {
      RecoveryAnswersNothing(s);
      WorkKeeps(s);
      WorksKeepTokens(Work(s), n - 1);
    }
  }

  lemma {:induction false} HeldIndexes(jobs: seq<Job>)
    ensures forall x :: x in Held(jobs) ==> exists i :: 0 <= i < |jobs| && jobs[i].index == x
  {
    if jobs != [] {
      HeldIndexes(jobs[1..]);
      HeldHead(jobs);
      assert jobs[0].index == jobs[0].index;
      assert forall i :: 0 <= i < |jobs[1..]| ==> jobs[1..][i] == jobs[i + 1];
      hide Held;
    }
  }

  lemma {:induction false} LostIndexes(lost: seq<nat>)
    ensures forall x :: x in Lost(lost) ==> x in lost
  {
    if lost != [] {
      LostIndexes(lost[1..]);
    }
  }

  lemma SameZero(lost: seq<nat>, jobs: seq<Job>)
    requires Lost(lost) == Held(jobs)
    ensures (forall i :: 0 <= i < |lost| ==> lost[i] == 0) <==> (forall i :: 0 <= i < |jobs| ==> jobs[i].index == 0)
  {
    HeldIndexes(jobs);
    LostIndexes(lost);
    HeldMembers(jobs);
    LostMembers(lost);
    hide Held, Lost;
  }

  lemma DispatchStarts(s: System, mounted: bool)
    requires Inv(s) && Dispatch(s, mounted).0 == 0
    ensures var s1 := Dispatch(s, mounted).1;
            && Inv(s1) && s1.storage && s1.queue == [] && s1.worker == Worker(First, Copies(s.elems, mounted, 0), [], [])
            && s1.w == Try(s.w).1 && InTable(s1.worker.todo, s1.table)
  {
    DispatchKeeps(s, mounted);
    var s1 := Dispatch(s, mounted).1;
    hide MarkAll, Copies;
    assert AllPending(s1.worker.todo, s1.elems, s1.table);
  }

  /** After the first pass the thread holds what that kept. */
  lemma FirstPassKeeps(s: System)
    requires Inv(s) && s.worker.phase.First? && s.worker.kept == [] && InTable(s.worker.todo, s.table)
    ensures var s1 := Works(s, |s.worker.todo|);
            Inv(s1) && s1.worker.todo == [] && Tokens(s1.worker, []) == Held(Pass(s.worker.todo, false, s.table, s.w).kept)
  {
    PassIsWork(s);
    WorksLater(s, |s.worker.todo|);
    assert s.worker.lost == [];
    hide Inv, Works, Pass, MendedBy;
    var kept := Pass(s.worker.todo, false, s.table, s.w).kept;
    assert [] + kept == kept;
    KeptTokens(Works(s, |s.worker.todo|).worker);
  }

  lemma LifeEnds(s: System)
    requires s.worker.phase.First? && s.worker.kept == [] && InTable(s.worker.todo, s.table)
    ensures var s1 := Works(s, LifeLength(s.worker.todo, s.table, s.w));
            s1.worker == Worker(Ended, [], [], s1.worker.lost, s1.worker.mended) && s1.storage == s.storage
    ensures LifeLength(s.worker.todo, s.table, s.w) >= |s.worker.todo|
  {
    LifeIsWork(s);
    hide Works, Life, MendedInLife, Pass, Recovered;
  }

  /** What the first pass keeps, and nothing else, is given up when the worker's life is over. */
  lemma LifeLoses(s: System)
    requires Inv(s) && s.worker.phase.First? && s.worker.kept == [] && InTable(s.worker.todo, s.table)
    ensures var k := s.worker;
            var s1 := Works(s, LifeLength(k.todo, s.table, s.w));
            && s1.worker.phase.Ended? && s1.storage == s.storage && Inv(s1) && Later(s.w, s1.w)
            && Lost(s1.worker.lost) == Held(Pass(k.todo, false, s.table, s.w).kept)
  {
    hide Inv, Pass, Works, LifeLength, Held, Lost, Tokens;
    var n, m := |s.worker.todo|, LifeLength(s.worker.todo, s.table, s.w);
    FirstPassKeeps(s);
    LifeEnds(s);
    WorksLater(s, m);
    WorksAdd(s, n, m - n);
    WorksKeepTokens(Works(s, n), m - n);
    EndedTokens(Works(s, m).worker.lost);
  }

  lemma KeptTokens(k: Worker)
    requires k.todo == [] && k.lost == []
    ensures Tokens(k, []) == Held(k.kept)
  {}

  lemma LifeCompletes(s: System)
    requires Inv(s) && s.worker.phase.First? && s.worker.kept == [] && InTable(s.worker.todo, s.table)
    requires s.storage && Uninterrupted(s.w)
    ensures var s1 := Works(s, LifeLength(s.worker.todo, s.table, s.w));
            var kept := Pass(s.worker.todo, false, s.table, s.w).kept;
            !Polls(s1, |s1.queue| + |s1.worker.lost|).storage <==> forall i :: 0 <= i < |kept| ==> kept[i].index == 0
  {
    hide Inv, Works, Polls, Pass, LifeLength, Held, Lost;
    LifeLoses(s);
    var s1 := Works(s, LifeLength(s.worker.todo, s.table, s.w));
    StillUninterrupted(s.w, s1.w);
    hide Uninterrupted;
    CompletesExactly(s1);
    SameZero(s1.worker.lost, Pass(s.worker.todo, false, s.table, s.w).kept);
  }

  /**
   A job that was started and is read without interruption completes exactly when its first pass keeps no element
   other than element 0.
   */
  lemma JobCompletesExactly(s: System, mounted: bool)
    requires Inv(s) && Dispatch(s, mounted).0 == 0 && Uninterrupted(s.w)
    ensures var s1 := Dispatch(s, mounted).1;
            && InTable(s1.worker.todo, s1.table)
            && var s2 := Works(s1, LifeLength(s1.worker.todo, s1.table, s1.w));
               var kept := Pass(s1.worker.todo, false, s1.table, s1.w).kept;
               !Polls(s2, |s2.queue| + |s2.worker.lost|).storage <==> forall i :: 0 <= i < |kept| ==> kept[i].index == 0
  {
    DispatchStarts(s, mounted);
    hide Inv, Dispatch, Works, Polls, Pass, LifeLength, InTable;
    StillUninterrupted(s.w, Try(s.w).1);
    hide Uninterrupted;
    LifeCompletes(Dispatch(s, mounted).1);
  }

  lemma StillUninterrupted(w0: World, w1: World)
    requires Later(w0, w1)
    ensures Uninterrupted(w1) <==> Uninterrupted(w0)
  {}

  /** A pass over elements to be unmounted answers them all. */
  lemma {:induction false} UnmountPass(jobs: seq<Job>, table: seq<Stack>, w: World)
    requires InTable(jobs, table) && forall i :: 0 <= i < |jobs| ==> jobs[i].mounted
    ensures var r := Pass(jobs, false, table, w); r.kept == [] && |r.answers| == |jobs|
    decreases jobs
  {
    if jobs != [] {
      assert jobs[0].mounted;
      var (answer, st, w1) := Process(jobs[0], false, table[jobs[0].index], w);
      assert answer.Some?;
      hide Process;
      UnmountPass(jobs[1..], table[jobs[0].index := st], w1);
    }
  }

  /** The thread of an unmount job has answered every element after one step for each, and ends with the next. */
  lemma UnmountEnds(s: System)
    requires Inv(s) && Draining(s) && s.worker.phase.First?
    ensures var s1 := Works(s, |s.worker.todo| + 1);
            && Inv(s1) && s1.worker.phase.Ended? && s1.worker.lost == [] && s1.storage == s.storage
            && |s1.queue| == |s.queue| + |s.worker.todo| && Later(s.w, s1.w)
  {
    assert AllPending(s.worker.todo, s.elems, s.table);
    assert InTable(s.worker.todo, s.table);
    WorksLater(s, |s.worker.todo| + 1);
    hide Inv, Works, Pass;
    UnmountPass(s.worker.todo, s.table, s.w);
    PassAndTurn(s);
    assert Indexes([]) == [];
  }

  // ---- the code ---------------------------------------------------------------------------------

  /** One element: its disk, and its response if there is one. */
  method MountElement(j: Job, retake: bool, st: Stack, k: Kernel) returns (answer: Option<Response>, st1: Stack)
    modifies k
    ensures (answer, st1, k.w) == Process(j, retake, st, old(k.w))
  {
    hide UnmountDisk, MountFailoverFrom, MountOne, Now;
    st1 := st;
    if j.mounted {
      var now := k.GetCurrentTimeMs();
      st1 := UnmountDiskLoop(st, now + UNMOUNT_TIMEOUT, UNMOUNT_RETRIES, k);
      answer := Some(Response(j.index, UnmountOp, 0));
    } else {
      var ret;
      match j.redundancy {
        case Failover =>
          ret, st1 := MountDiskFailover(j.devs, st, k);
          answer := Some(Response(j.index, MountOp, if ret < 0 then -1 else 0));
        case Ab =>
          answer := Some(Response(j.index, MountOp, -1));
        case _ =>
          ret, st1 := MountDiskOnce(j.devs, st, k);
          answer := if ret != -1 && !retake then Some(Response(j.index, MountOp, if ret < 0 then -1 else 0)) else None;
      }
    }
  }

  class WorkerThread {
    var list: seq<Job>
    var table: seq<Stack>
    const socket: Socket

    constructor (list: seq<Job>, table: seq<Stack>, socket: Socket)
      ensures this.list == list && this.table == table && this.socket == socket
    {
      this.list, this.table, this.socket := list, table, socket;
    }

    /** manager_mount_operation: answered elements leave the list while it is walked. */
    method MountOperation(retake: bool, k: Kernel) returns (result: int)
      requires InTable(list, table)
      modifies this`list, this`table, socket`queue, k
      ensures var r := Pass(old(list), retake, old(table), old(k.w));
              list == r.kept && table == r.table && k.w == r.w && socket.queue == old(socket.queue) + r.answers
      ensures result == if list == [] then 0 else -1
    {
      hide Process, Pass, InTable;
      result := 0;
      var i := 0;
      ghost var total := Pass(list, retake, table, k.w);
      ghost var answers: seq<Response> := [];
      assert list[0..] == list;
      while i < |list|
        invariant i <= |list| && InTable(list[i..], table) && result == if i == 0 then 0 else -1
        invariant socket.queue == old(socket.queue) + answers
        invariant Joined(list[..i], answers, Pass(list[i..], retake, table, k.w)) == total
        decreases |list| - i
      {
        var j := list[i];
        ghost var todo, st0, w0 := list[i..], table, k.w;
        TodoStep(list, i, retake, table, k.w, answers);
        var answer, st := MountElement(j, retake, table[j.index], k);
        table := table[j.index := st];
        if answer.Some? {
          socket.queue := socket.queue + [answer.value];
          answers := answers + [answer.value];
          list := list[..i] + list[i + 1..];
        } else {
          result := -1;
          i := i + 1;
        }
      }
      assert list[i..] == [] && list[..i] == list;
      PassNothing(retake, table, k.w);
    }

    /** manager_worker_exec: a repair process for each element left; those that got none are removed at the end. */
    method Exec(k: Kernel)
      modifies this`list, k
      ensures (list, k.w) == Recovered(old(list), old(k.w))
    {
      var i := 0;
      var survivors: seq<Job> := [];
      assert list[0..] == list && survivors + Recovered(list, k.w).0 == Recovered(list, k.w).0;
      while i < |list|
        invariant i <= |list| && list == old(list)
        invariant var (rest, w1) := Recovered(list[i..], k.w);
                  Recovered(old(list), old(k.w)) == (survivors + rest, w1)
      {
        ghost var todo := list[i..];
        assert todo[0] == list[i] && todo[1..] == list[i + 1..];
        var forked := k.CallOk();
        if forked {
          assert survivors + ([list[i]] + Recovered(todo[1..], k.w).0) == (survivors + [list[i]]) + Recovered(todo[1..], k.w).0;
          survivors := survivors + [list[i]];
        }
        i := i + 1;
      }
      assert list[i..] == [] && survivors + [] == survivors;
      list := survivors;
    }

    /** container_manager_worker_thread: what is left on the list is freed unanswered. */
    method Run(k: Kernel)
      requires InTable(list, table)
      modifies this`list, this`table, socket, k
      ensures var r := Life(old(list), old(table), old(k.w));
              table == r.table && k.w == r.w && socket.queue == old(socket.queue) + r.answers
      ensures list == [] && socket.closed
    {
      hide Pass, Recovered;
      PassInTable(list, false, table, k.w);
      var ret := MountOperation(false, k);
      if ret == -1 {
        RecoveredInTable(list, k.w, table);
        Exec(k);
        ret := MountOperation(true, k);
      }
      list := [];
      socket.closed := true;
    }
  }

  // ---- the host -------------------------------------------------------------------------------

  class ManagerHost {
    var elems: seq<Elem>
    var storage: Socket?

    constructor (elems: seq<Elem>)
      ensures this.elems == elems && storage == null
    {
      this.elems, storage := elems, null;
    }

    /** The host's part of `s`. */
    ghost predicate Matches(s: System)
      reads this, storage
    {
      && s.elems == elems && (s.storage <==> storage != null)
      && (storage != null ==> s.queue == storage.queue && (s.worker.phase.Ended? <==> storage.closed))
    }

    /** The loop that copies the elements concerned for the worker and marks them. */
    method CopyElements(mounted: bool) returns (jobs: seq<Job>)
      modifies this`elems
      ensures jobs == Copies(old(elems), mounted, 0)
      ensures elems == MarkAll(old(elems), mounted)
    {
      jobs := [];
      var i := 0;
      while i < |elems|
        invariant i <= |elems| == |old(elems)|
        invariant forall j :: 0 <= j < i ==> elems[j] == Mark(old(elems)[j], mounted)
        invariant forall j :: i <= j < |elems| ==> elems[j] == old(elems)[j]
        invariant Copies(old(elems), mounted, 0) == jobs + Copies(old(elems), mounted, i)
      {
        if elems[i].mounted == mounted {
          ghost var rest := Copies(old(elems), mounted, i + 1);
          assert jobs + ([JobOf(elems, i)] + rest) == (jobs + [JobOf(elems, i)]) + rest;
          jobs := jobs + [JobOf(elems, i)];
          elems := elems[i := elems[i].(dispatched := true)];
        }
        i := i + 1;
      }
    }

    method Start(mounted: bool, table: seq<Stack>, k: Kernel, ghost s: System) returns (ret: int, worker: WorkerThread?)
      requires Matches(s) && s.w == k.w && s.table == table && s.queue == if s.storage then s.queue else []
      modifies this, k
      ensures var (r, s1) := Dispatch(s, mounted);
              && ret == r && Matches(s1) && k.w == s1.w
              && (worker != null <==> ret == 0)
              && (worker != null ==> fresh(worker) && worker.list == s1.worker.todo && worker.table == table
                                     && storage != null && worker.socket == storage && fresh(storage))
              && (worker == null ==> storage == old(storage))
    {
      worker := null;
      if storage != null {
        return -1, null;
      }
      var paired := k.CallOk();
      if !paired {
        return -2, null;
      }
      var jobs := CopyElements(mounted);
      if jobs == [] {
        NoneMarked(old(elems), mounted, 0);
        assert elems == old(elems);
        return 1, null;
      }
      storage := new Socket();
      worker := new WorkerThread(jobs, table, storage);
      ret := 0;
    }

    method DelayedLaunch(table: seq<Stack>, k: Kernel, ghost s: System) returns (ret: int, worker: WorkerThread?)
      requires Matches(s) && s.w == k.w && s.table == table && s.queue == if s.storage then s.queue else []
      modifies this, k
      ensures ret == Dispatch(s, false).0 && Matches(Dispatch(s, false).1) && k.w == Dispatch(s, false).1.w
      ensures worker != null <==> ret == 0
      ensures worker != null ==> worker.list == Dispatch(s, false).1.worker.todo && worker.socket == storage && fresh(storage)
      ensures worker == null ==> storage == old(storage)
    {
      ret, worker := Start(false, table, k, s);
    }

    method DelayedTerminate(table: seq<Stack>, k: Kernel, ghost s: System) returns (ret: int, worker: WorkerThread?)
      requires Matches(s) && s.w == k.w && s.table == table && s.queue == if s.storage then s.queue else []
      modifies this, k
      ensures ret == Dispatch(s, true).0 && Matches(Dispatch(s, true).1) && k.w == Dispatch(s, true).1.w
      ensures worker != null <==> ret == 0
      ensures worker != null ==> worker.list == Dispatch(s, true).1.worker.todo && worker.socket == storage && fresh(storage)
      ensures worker == null ==> storage == old(storage)
    {
      ret, worker := Start(true, table, k, s);
    }

    /** The loop that looks for the element a response is about. */
    method TakeResponse(wres: Response)
      modifies this`elems
      ensures elems == Deliver(old(elems), wres)
    {
      var i := 0;
      while i < |elems|
        invariant i <= |elems| == |old(elems)|
        invariant elems == if wres.index < i then Deliver(old(elems), wres) else old(elems)
      {
        if i == wres.index {
          if wres.operation.MountOp? {
            if wres.result == 0 {
              elems := elems[i := elems[i].(mounted := true)];
            } else if wres.result == 1 {
              elems := elems[i := elems[i].(mounted := false)];
            } else {
              elems := elems[i := elems[i].(errors := elems[i].errors + 1)];
            }
            elems := elems[i := elems[i].(dispatched := false)];
          } else {
            elems := elems[i := elems[i].(mounted := false, dispatched := false)];
          }
        }
        i := i + 1;
      }
    }

    /** Counts the elements that are answered, and closes the host's end when they all are. */
    method AssessAll(ghost s: System) returns (result: int)
      requires storage != null && Matches(s)
      modifies this`storage
      ensures result == Assess(s).0 && Matches(Assess(s).1)
      ensures storage == old(storage) || storage == null
    {
      result := 0;
      if elems != [] {
        var complete, i := 0, 0;
        while i < |elems|
          invariant 0 <= complete <= i <= |elems|
          invariant complete == i <==> forall j :: 0 <= j < i ==> !elems[j].dispatched
        {
          if !elems[i].dispatched {
            complete := complete + 1;
          }
          i := i + 1;
        }
        if complete == |elems| {
          storage := null;
          result := 1;
        }
      }
    }

    method DelayedPoll(k: Kernel, ghost s: System) returns (result: int)
      requires Matches(s) && s.w == k.w
      modifies this, storage, k
      ensures result == Poll(s).0 && Matches(Poll(s).1) && k.w == Poll(s).1.w
      ensures storage == old(storage) || storage == null
    {
      if storage == null {
        return -1;
      }
      var a := k.Call();
      ghost var s1 := s.(w := k.w);
      if a == 2 {
        return -3;
      }
      if a != 1 {
        if storage.queue != [] {
          var wres := storage.queue[0];
          storage.queue := storage.queue[1..];
          TakeResponse(wres);
          s1 := s1.(queue := s.queue[1..], elems := Deliver(s.elems, s.queue[0]), zero := if s.queue[0].index == 0 then ByAnswer else s.zero);
        } else if storage.closed {
          TakeResponse(ZEROED);
          s1 := s1.(elems := Deliver(s.elems, ZEROED), zero := ByEndOfFile(Rightly(s)), worker := s.worker.(lost := Without(s.worker.lost, 0)));
        }
      }
      result := AssessAll(s1);
    }
  }

  lemma {:induction false} NoneMarked(elems: seq<Elem>, mounted: bool, i: nat)
    requires i <= |elems| && Copies(elems, mounted, i) == []
    ensures forall j :: i <= j < |elems| ==> Mark(elems[j], mounted) == elems[j]
    decreases |elems| - i
  {
    if i < |elems| {
      NoneMarked(elems, mounted, i + 1);
    }
  }
}
