/** What becomes of each of the manager's own disks, told by the mount calls made for it. */
module ManagerMountOutcomes {
  import opened Host
  import opened Options
  import opened MountTable
  import opened ManagerMount
  import opened ManagerMountSafety
  import opened ManagerMountProperties

  // ---- one element of a pass --------------------------------------------------------------------

  /**
   The answer for an element and the mount point it leaves, when its turn comes in world `w`.  A failover element has two
   chances; a file system that can be repaired is answered only when it mounts in the first pass; A/B elements are not
   supported.
   */
  predicate Outcome(j: Job, retake: bool, w: World, answer: Option<Response>, st: Stack) {
    if j.mounted then answer == Some(Response(j.index, UnmountOp, 0)) && st == []
    else match j.redundancy
      case Failover =>
        var first := MountOne(j.devs.primary, [], w);
        var second := MountOne(j.devs.secondary, [], first.w);
        if first.ret == 0 then answer == Some(Response(j.index, MountOp, 0)) && st == [j.devs.primary]
        else if second.ret == 0 then answer == Some(Response(j.index, MountOp, 0)) && st == [j.devs.secondary]
        else answer == Some(Response(j.index, MountOp, -1)) && st == []
      case Ab => answer == Some(Response(j.index, MountOp, -1)) && st == []
      case _ =>
        if MountOne(j.devs.primary, [], w).ret == 0
        then answer == (if retake then None else Some(Response(j.index, MountOp, 0))) && st == [j.devs.primary]
        else answer == None && st == []
  }

  lemma ProcessOutcome(j: Job, retake: bool, st: Stack, w: World)
    requires |st| <= 1 && (!j.mounted ==> st == [])
    ensures var (answer, st1, w1) := Process(j, retake, st, w); Outcome(j, retake, w, answer, st1) && Later(w, w1)
  {
    hide UnmountDisk, MountOne, MountFailoverFrom;
    if j.mounted {
      UnmountAnswered(j, retake, st, w);
      var (now, w1) := Now(w);
      UnmountExact(st, now + UNMOUNT_TIMEOUT, UNMOUNT_RETRIES, w1);
    } else {
      FailoverExact(j.devs, w);
      MountOneExact(j.devs.primary, w);
      MountOneExact(j.devs.secondary, MountOne(j.devs.primary, [], w).w);
    }
  }

  /** What a pass has for element `i`: the one answer, or the job kept. */
  ghost predicate Has(r: Passed, j: Job, answer: Option<Response>) {
    && (forall k :: 0 <= k < |r.answers| && r.answers[k].index == j.index ==> answer == Some(r.answers[k]))
    && (answer.Some? ==> answer.value in r.answers) && (answer.None? <==> j in r.kept)
  }

  /** What a pass answers or keeps is on its list. */
  lemma {:induction false} PassListed(jobs: seq<Job>, retake: bool, table: seq<Stack>, w: World)
    requires Ready(jobs, table)
    ensures var r := Pass(jobs, retake, table, w);
            && (forall k :: 0 <= k < |r.answers| ==> Concerned(jobs, r.answers[k].index))
            && (forall j :: j in r.kept ==> Concerned(jobs, j.index))
            && Later(w, r.w)
    decreases jobs
  {
    if jobs != [] {
      var (answer, st, w1) := Process(jobs[0], retake, table[jobs[0].index], w);
      FirstOfPass(jobs, retake, table, w);
      ReadyHead(jobs, table);
      ProcessOutcome(jobs[0], retake, table[jobs[0].index], w);
      PassListed(jobs[1..], retake, table[jobs[0].index := st], w1);
      hide Process, Ready, Outcome, Concerned, Pass;
      PassUnfoldReady(jobs, retake, table, w);
      ConcernedTails(jobs);
    }
  }

  lemma ReadyHead(jobs: seq<Job>, table: seq<Stack>)
    requires Ready(jobs, table) && jobs != []
    ensures jobs[0].index < |table| && |table[jobs[0].index]| <= 1 && (!jobs[0].mounted ==> table[jobs[0].index] == [])
  {}

  lemma PassUnfoldReady(jobs: seq<Job>, retake: bool, table: seq<Stack>, w: World)
    requires Ready(jobs, table) && jobs != []
    ensures jobs[0].index < |table|
    ensures var (answer, st, w1) := Process(jobs[0], retake, table[jobs[0].index], w);
            var table1 := table[jobs[0].index := st];
            && Ready(jobs[1..], table1)
            && var rest := Pass(jobs[1..], retake, table1, w1);
               Pass(jobs, retake, table, w)
               == if answer.Some? then rest.(answers := [answer.value] + rest.answers) else rest.(kept := [jobs[0]] + rest.kept)
  {
    FirstOfPass(jobs, retake, table, w);
    PassUnfold(jobs, retake, table, w);
    hide Process, Pass;
  }

  lemma ConcernedTails(jobs: seq<Job>)
    requires jobs != []
    ensures forall i: nat :: Concerned(jobs, i) <==> jobs[0].index == i || Concerned(jobs[1..], i)
  {
    forall i: nat ensures Concerned(jobs, i) <==> jobs[0].index == i || Concerned(jobs[1..], i) {
      ConcernedTail(jobs, i);
    }
  }

  /**
   In a pass the turn of each element comes once: its answer, or that it is kept, and the mount point it ends with are
   told by the calls made from that moment on.
   */
  lemma {:induction false} PassOutcome(jobs: seq<Job>, retake: bool, table: seq<Stack>, w: World, k: nat)
      returns (turn: World, answer: Option<Response>)
    requires Ready(jobs, table) && k < |jobs|
    ensures var r, j := Pass(jobs, retake, table, w), jobs[k];
            && j.index < |r.table| && Later(w, turn) && Later(turn, r.w)
            && Outcome(j, retake, turn, answer, r.table[j.index]) && Has(r, j, answer)
    decreases jobs
  {
    var j := jobs[0];
    FirstOfPass(jobs, retake, table, w);
    ReadyHead(jobs, table);
    ProcessOutcome(j, retake, table[j.index], w);
    var (first, st, w1) := Process(j, retake, table[j.index], w);
    var rest := jobs[1..];
    PassListed(rest, retake, table[j.index := st], w1);
    DistinctTail(jobs);
    PassTableLength(rest, retake, table[j.index := st], w1);
    PassUnfoldReady(jobs, retake, table, w);
    if k == 0 {
      turn, answer := w, first;
      TurnOfFirst(jobs, retake, table, w);
      hide Process, Ready, Outcome, Pass, Concerned, Has, DistinctJobs;
    } else {
      NotFirst(jobs, k);
      hide Process, Ready, Outcome, Pass, Concerned, Has, DistinctJobs;
      turn, answer := PassOutcome(rest, retake, table[j.index := st], w1, k - 1);
      HasBehind(Pass(rest, retake, table[j.index := st], w1), j, first, jobs[k], answer);
    }
  }

  /** What the rest of a pass has for an element, the whole pass has. */
  lemma HasBehind(r: Passed, j0: Job, first: Option<Response>, j: Job, answer: Option<Response>)
    requires Has(r, j, answer) && j.index != j0.index && (first.Some? ==> first.value.index == j0.index)
    ensures Has(if first.Some? then r.(answers := [first.value] + r.answers) else r.(kept := [j0] + r.kept), j, answer)
  {
    if first.Some? {
      var answers := [first.value] + r.answers;
      assert forall k :: 1 <= k < |answers| ==> answers[k] == r.answers[k - 1];
    }
  }

  lemma PassTableLength(jobs: seq<Job>, retake: bool, table: seq<Stack>, w: World)
    requires Ready(jobs, table)
    ensures |Pass(jobs, retake, table, w).table| == |table|
  {
    PassTruthful(jobs, retake, table, w);
  }

  lemma NotFirst(jobs: seq<Job>, k: nat)
    requires DistinctJobs(jobs) && 0 < k < |jobs|
    ensures jobs[k].index != jobs[0].index && jobs[k] == jobs[1..][k - 1]
  {}

  lemma TurnOfFirst(jobs: seq<Job>, retake: bool, table: seq<Stack>, w: World)
    requires Ready(jobs, table) && jobs != []
    ensures jobs[0].index < |table|
    ensures var (answer, st, w1) := Process(jobs[0], retake, table[jobs[0].index], w);
            var r := Pass(jobs, retake, table, w);
            && |r.table| == |table| && r.table[jobs[0].index] == st
            && Has(r, jobs[0], answer)
  {
    var j := jobs[0];
    FirstOfPass(jobs, retake, table, w);
    var (answer, st, w1) := Process(j, retake, table[j.index], w);
    var table1, rest := table[j.index := st], jobs[1..];
    DistinctTail(jobs);
    PassListed(rest, retake, table1, w1);
    assert InTable(rest, table1);
    PassElsewhere(rest, retake, table1, w1, j.index);
    hide Process, Ready, Pass, Concerned;
    PassUnfoldReady(jobs, retake, table, w);
  }

  // ---- the host ---------------------------------------------------------------------------------

  ghost predicate IncreasingIndexes(jobs: seq<Job>) {
    forall i, j :: 0 <= i < j < |jobs| ==> jobs[i].index < jobs[j].index
  }

  lemma {:induction false} CopiesIncrease(elems: seq<Elem>, mounted: bool, i: nat)
    requires i <= |elems|
    ensures IncreasingIndexes(Copies(elems, mounted, i))
    decreases |elems| - i
  {
    if i < |elems| {
      CopiesIncrease(elems, mounted, i + 1);
      CopiesMembers(elems, mounted, i + 1);
      CopiesUnfold(elems, mounted, i);
      hide Copies;
    }
  }

  lemma {:induction false} CopiesComplete(elems: seq<Elem>, mounted: bool, from: nat, i: nat)
    requires from <= i < |elems|
    ensures elems[i].mounted == mounted <==> JobOf(elems, i) in Copies(elems, mounted, from)
    decreases i - from
  {
    CopiesUnfold(elems, mounted, from);
    CopiesMembers(elems, mounted, from + 1);
    if from < i {
      CopiesComplete(elems, mounted, from + 1, i);
    }
    hide Copies;
  }

  /**
   A job is started exactly when none is under way, a socket pair is had and some element is concerned: one not flagged
   as mounted for a launch, one flagged for a termination.  It has exactly the elements concerned, in their order.
   */
  lemma DispatchOutcome(s: System, mounted: bool)
    requires Inv(s)
    ensures var (ret, s1) := Dispatch(s, mounted);
            && ret == (if s.storage then -1 else if !Try(s.w).0 then -2
                       else if exists i :: 0 <= i < |s.elems| && s.elems[i].mounted == mounted then 0 else 1)
            && s1.table == s.table && |s1.elems| == |s.elems|
            && (ret != 0 ==> s1.elems == s.elems && s1.worker == s.worker && s1.storage == s.storage)
            && (ret == 0 ==>
                  && s1.storage && s1.worker.phase.First? && IncreasingIndexes(s1.worker.todo)
                  && forall i :: 0 <= i < |s.elems| ==>
                       && (s1.elems[i].dispatched <==> s.elems[i].mounted == mounted)
                       && s1.elems[i] == s.elems[i].(dispatched := s1.elems[i].dispatched)
                       && (JobOf(s.elems, i) in s1.worker.todo <==> s.elems[i].mounted == mounted))
  {
    hide InvBut, Copies, MarkAll;
    CopiesIncrease(s.elems, mounted, 0);
    CopiesMembers(s.elems, mounted, 0);
    forall i | 0 <= i < |s.elems| ensures s.elems[i].mounted == mounted <==> JobOf(s.elems, i) in Copies(s.elems, mounted, 0) {
      CopiesComplete(s.elems, mounted, 0, i);
    }
    var jobs := Copies(s.elems, mounted, 0);
    if jobs != [] {
      assert s.elems[jobs[0].index].mounted == mounted;
    }
  }

  /** An interrupted or failed read changes nothing; it is not taken for the end of the job. */
  lemma InterruptedOutcome(s: System)
    requires Inv(s) && s.storage && !Reads(s)
    ensures Poll(s) == (if Ask(s.w).0 == 2 then -3 else 0, s.(w := Ask(s.w).1))
  {
    PollIs(s);
    assert SomeDispatched(s.elems);
    hide InvBut, Poll, Read;
  }

  /** While the worker is at work and nothing is to be read, a poll changes nothing either. */
  lemma WaitingOutcome(s: System)
    requires Inv(s) && Reads(s) && s.queue == [] && !s.worker.phase.Ended?
    ensures Poll(s) == (0, s.(w := Ask(s.w).1))
  {
    PollIs(s);
    assert SomeDispatched(s.elems);
    hide InvBut, Poll;
  }

  /**
   A poll that reads a packet settles the element it is about: its flag tells from then on whether its disk is mounted,
   and a mount that failed is counted.  The packet is gone, and no other element is touched.
   */
  lemma PacketOutcome(s: System)
    requires Inv(s) && Reads(s) && s.queue != []
    ensures var s1, r := Poll(s).1, s.queue[0];
            && r.index < |s.elems| == |s1.elems| == |s.table| && s1.table == s.table
            && !s1.elems[r.index].dispatched && (s1.elems[r.index].mounted <==> s.table[r.index] != [])
            && s1.elems[r.index].errors == s.elems[r.index].errors + (if r.operation.MountOp? && s.table[r.index] == [] then 1 else 0)
            && s1.elems[r.index].redundancy == s.elems[r.index].redundancy && s1.elems[r.index].devs == s.elems[r.index].devs
            && (forall i :: 0 <= i < |s.elems| && i != r.index ==> s1.elems[i] == s.elems[i])
            && s1.queue == (if s1.storage then s.queue[1..] else [])
            && (s1.storage <==> exists i :: 0 <= i < |s.elems| && i != r.index && s.elems[i].dispatched)
  {
    var r := s.queue[0];
    assert Truthful(r, s.elems, s.table);
    ResponseApart(s);
    PollIs(s);
    hide Inv, Poll, Without, Rightly;
  }
}
