/** What the manager's own mounts promise over whole runs, and where the promise stops. */
module ManagerMountProperties {
  import opened Host
  import opened MountTable
  import opened ManagerMount
  import opened ManagerMountSafety

  // ---- every run ------------------------------------------------------------------------------

  /** In every run, at every point: each dispatched element is at the worker, or given up, or answered, exactly once. */
  lemma EveryTokenOnce(s0: System, acts: seq<Action>)
    requires Initial(s0)
    ensures var s := Steps(s0, acts);
            && (forall i: nat :: Tokens(s.worker, s.queue)[i] == if i < |s.elems| && s.elems[i].dispatched then 1 else 0)
            && (s.storage <==> exists i :: 0 <= i < |s.elems| && s.elems[i].dispatched)
  {
    InitialInv(s0);
    StepsKeep(s0, acts);
    hide Steps, Tokens, Initial;
  }

  /**
   When a poll reports completion, nothing is under way and every flag tells whether the disk is mounted; while the
   flag of element 0 goes back to an end-of-file, its disk is mounted exactly when that was right.
   */
  lemma CompletionTruthful(s0: System, acts: seq<Action>)
    requires Initial(s0) && Poll(Steps(s0, acts)).0 == 1
    ensures var s := Poll(Steps(s0, acts)).1;
            && !s.storage && s.queue == [] && s.worker.todo == [] && s.worker.kept == [] && s.worker.lost == []
            && |s.table| == |s.elems|
            && (forall i :: 0 <= i < |s.elems| ==> !s.elems[i].dispatched && |s.table[i]| <= 1)
            && (forall i :: 0 <= i < |s.elems| ==>
                  if i == 0 && s.zero.ByEndOfFile? then s.elems[0].mounted && (s.table[0] != [] <==> s.zero.rightly)
                  else s.elems[i].mounted <==> s.table[i] != [])
  {
    InitialInv(s0);
    StepsKeep(s0, acts);
    hide Steps, Initial;
    var s := Steps(s0, acts);
    PollKeeps(s);
    PollCloses(s);
    NothingLeft(Poll(s).1);
    hide Poll, Tokens;
  }

  lemma PollCloses(s: System)
    requires Poll(s).0 == 1
    ensures !Poll(s).1.storage
  {
    hide Deliver, Without;
  }

  // ---- one pass -------------------------------------------------------------------------------

  /** `all` is `a` and `b` merged, each in its order. */
  ghost predicate Merges<T(!new)>(all: seq<T>, a: seq<T>, b: seq<T>) {
    if all == [] then a == [] && b == []
    else (a != [] && a[0] == all[0] && Merges(all[1..], a[1..], b)) || (b != [] && b[0] == all[0] && Merges(all[1..], a, b[1..]))
  }

  ghost predicate DistinctJobs(jobs: seq<Job>) {
    forall i, j :: 0 <= i < j < |jobs| ==> jobs[i].index != jobs[j].index
  }

  function AnswerIndexes(answers: seq<Response>): seq<nat> {
    if answers == [] then [] else [answers[0].index] + AnswerIndexes(answers[1..])
  }

  lemma MergesMore<T(!new)>(x: T, all: seq<T>, a: seq<T>, b: seq<T>)
    requires Merges(all, a, b)
    ensures Merges([x] + all, [x] + a, b) && Merges([x] + all, a, [x] + b)
  {
    assert ([x] + all)[1..] == all && ([x] + a)[1..] == a && ([x] + b)[1..] == b;
  }

  lemma IndexesMore(j: Job, jobs: seq<Job>)
    ensures Indexes([j] + jobs) == [j.index] + Indexes(jobs)
  {}

  lemma AnswersMore(r: Response, answers: seq<Response>)
    ensures AnswerIndexes([r] + answers) == [r.index] + AnswerIndexes(answers)
  {
    assert ([r] + answers)[1..] == answers;
  }

  lemma PassUnfold(jobs: seq<Job>, retake: bool, table: seq<Stack>, w: World)
    requires InTable(jobs, table) && jobs != []
    ensures var (answer, st, w1) := Process(jobs[0], retake, table[jobs[0].index], w);
            var table1 := table[jobs[0].index := st];
            && InTable(jobs[1..], table1)
            && var rest := Pass(jobs[1..], retake, table1, w1);
               Pass(jobs, retake, table, w)
               == if answer.Some? then rest.(answers := [answer.value] + rest.answers) else rest.(kept := [jobs[0]] + rest.kept)
  {
    hide Process;
  }

  /** No element is skipped: each is answered by exactly one response, or kept, in the order of the list. */
  lemma {:induction false} PassPartitions(jobs: seq<Job>, retake: bool, table: seq<Stack>, w: World)
    requires Ready(jobs, table)
    ensures var r := Pass(jobs, retake, table, w);
            Merges(Indexes(jobs), Indexes(r.kept), AnswerIndexes(r.answers))
    decreases jobs
  {
    if jobs != [] {
      var j := jobs[0];
      var (answer, st, w1) := Process(j, retake, table[j.index], w);
      FirstOfPass(jobs, retake, table, w);
      hide Process;
      var table1, rest := table[j.index := st], jobs[1..];
      PassPartitions(rest, retake, table1, w1);
      var r1 := Pass(rest, retake, table1, w1);
      MergesMore(j.index, Indexes(rest), Indexes(r1.kept), AnswerIndexes(r1.answers));
      assert [j] + rest == jobs;
      IndexesMore(j, rest);
      hide Pass, Merges, Indexes, AnswerIndexes, Ready;
      PassUnfold(jobs, retake, table, w);
      if answer.Some? {
        AnswersMore(answer.value, r1.answers);
      } else {
        IndexesMore(j, r1.kept);
      }
    }
  }

  ghost predicate Concerned(jobs: seq<Job>, i: nat) {
    exists k :: 0 <= k < |jobs| && jobs[k].index == i
  }

  /** The response tells what is mounted. */
  ghost predicate Told(r: Response, table: seq<Stack>) {
    r.index < |table| && if r.operation.UnmountOp? then table[r.index] == [] else (r.result == 0 <==> table[r.index] != [])
  }

  lemma ConcernedTail(jobs: seq<Job>, i: nat)
    requires jobs != []
    ensures Concerned(jobs, i) <==> jobs[0].index == i || Concerned(jobs[1..], i)
  {
    var rest := jobs[1..];
    assert forall k :: 0 <= k < |rest| ==> rest[k] == jobs[k + 1];
    if Concerned(jobs, i) && jobs[0].index != i {
      var k :| 0 <= k < |jobs| && jobs[k].index == i;
      assert rest[k - 1].index == i;
    }
  }

  lemma DistinctTail(jobs: seq<Job>)
    requires DistinctJobs(jobs) && jobs != []
    ensures DistinctJobs(jobs[1..]) && !Concerned(jobs[1..], jobs[0].index)
  {
    assert forall k :: 0 <= k < |jobs[1..]| ==> jobs[1..][k] == jobs[k + 1];
  }

  /** A pass touches only the mount points of its jobs. */
  lemma {:induction false} PassElsewhere(jobs: seq<Job>, retake: bool, table: seq<Stack>, w: World, i: nat)
    requires InTable(jobs, table) && i < |table| && !Concerned(jobs, i)
    ensures |Pass(jobs, retake, table, w).table| == |table| && Pass(jobs, retake, table, w).table[i] == table[i]
    decreases jobs
  {
    if jobs != [] {
      ConcernedTail(jobs, i);
      hide Concerned, Process;
      var (answer, st, w1) := Process(jobs[0], retake, table[jobs[0].index], w);
      PassElsewhere(jobs[1..], retake, table[jobs[0].index := st], w1, i);
    }
  }

  /** The jobs and mount points a pass may start from. */
  ghost predicate Ready(jobs: seq<Job>, table: seq<Stack>) {
    && InTable(jobs, table) && DistinctJobs(jobs)
    && (forall i :: 0 <= i < |table| ==> |table[i]| <= 1)
    && (forall i :: 0 <= i < |jobs| && !jobs[i].mounted ==> table[jobs[i].index] == [])
  }

  /** Processing the first job leaves the others ready, and tells what it did. */
  lemma FirstOfPass(jobs: seq<Job>, retake: bool, table: seq<Stack>, w: World)
    requires Ready(jobs, table) && jobs != []
    ensures var (answer, st, w1) := Process(jobs[0], retake, table[jobs[0].index], w);
            && Ready(jobs[1..], table[jobs[0].index := st])
            && (answer.Some? ==> answer.value.index == jobs[0].index && Told(answer.value, table[jobs[0].index := st]))
            && (answer.None? ==> AllRecoverable([jobs[0]]) && (!retake ==> st == []))
  {
    var j := jobs[0];
    assert |table[j.index]| <= 1;
    if j.mounted {
      UnmountAnswered(j, retake, table[j.index], w);
    } else {
      MountAnswered(j, retake, w);
    }
    hide Process;
    assert forall k :: 0 <= k < |jobs[1..]| ==> jobs[1..][k] == jobs[k + 1];
  }

  /** What the pass reports is what it did, and what it keeps is a file system that could not be mounted. */
  lemma {:induction false} PassTruthful(jobs: seq<Job>, retake: bool, table: seq<Stack>, w: World)
    requires Ready(jobs, table)
    ensures var r := Pass(jobs, retake, table, w);
            && |r.table| == |table| && AllRecoverable(r.kept)
            && (forall i :: 0 <= i < |r.answers| ==> Told(r.answers[i], r.table))
            && (forall i :: 0 <= i < |r.kept| && !retake ==> r.kept[i].index < |r.table| && r.table[r.kept[i].index] == [])
    decreases jobs
  {
    if jobs != [] {
      var j := jobs[0];
      FirstOfPass(jobs, retake, table, w);
      DistinctTail(jobs);
      var (answer, st, w1) := Process(j, retake, table[j.index], w);
      assert InTable(jobs[1..], table[j.index := st]);
      hide Process, Ready, Concerned, InTable;
      PassElsewhere(jobs[1..], retake, table[j.index := st], w1, j.index);
      PassTruthful(jobs[1..], retake, table[j.index := st], w1);
    }
  }

  /** The elements a pass mends. */
  ghost function MendedIn(jobs: seq<Job>, retake: bool, table: seq<Stack>, w: World): set<nat>
    requires InTable(jobs, table)
    decreases jobs
  {
    if jobs == [] then {}
    else
      var j := jobs[0];
      var (answer, st, w1) := Process(j, retake, table[j.index], w);
      (if answer.None? && Mends(j, retake, table[j.index], w) then {j.index} else {}) + MendedIn(jobs[1..], retake, table[j.index := st], w1)
  }

  lemma MendedElement(jobs: seq<Job>, retake: bool, table: seq<Stack>, w: World)
    requires InTable(jobs, table) && jobs != []
    ensures var j := jobs[0];
            var (answer, st, w1) := Process(j, retake, table[j.index], w);
            && InTable(jobs[1..], table[j.index := st])
            && MendedIn(jobs, retake, table, w) == (if answer.None? && Mends(j, retake, table[j.index], w) then {j.index} else {})
                                                   + MendedIn(jobs[1..], retake, table[j.index := st], w1)
  {
    hide Process, Mends;
  }

  ghost function MendedBy(s: System): set<nat>
    requires InTable(s.worker.todo, s.table)
  {
    MendedIn(s.worker.todo, s.worker.phase.Retake?, s.table, s.w)
  }

  /** Without the host in between, the worker's steps through the list are the pass. */
  lemma {:induction false} PassIsWork(s: System)
    requires (s.worker.phase.First? || s.worker.phase.Retake?) && InTable(s.worker.todo, s.table)
    ensures var r := Pass(s.worker.todo, s.worker.phase.Retake?, s.table, s.w);
            Works(s, |s.worker.todo|) == s.(table := r.table, w := r.w, queue := s.queue + r.answers,
                                            worker := s.worker.(todo := [], kept := s.worker.kept + r.kept,
                                                                mended := s.worker.mended + MendedBy(s)))
    decreases |s.worker.todo|
  {
    hide Process, Work, Pass, MendedIn;
    var k := s.worker;
    if k.todo == [] {
      PassEmpty(s);
    } else {
      var j, rest, retake := k.todo[0], k.todo[1..], k.phase.Retake?;
      var (answer, st, w1) := Process(j, retake, s.table[j.index], s.w);
      WorkElement(s);
      PassElement(k.todo, retake, s.table, s.w);
      MendedElement(k.todo, retake, s.table, s.w);
      PassIsWork(Work(s));
      var r1 := Pass(rest, retake, s.table[j.index := st], w1);
      if answer.Some? {
        assert s.queue + ([answer.value] + r1.answers) == (s.queue + [answer.value]) + r1.answers;
      } else {
        assert k.kept + ([j] + r1.kept) == (k.kept + [j]) + r1.kept;
      }
    }
  }

  lemma PassEmpty(s: System)
    requires s.worker.todo == []
    ensures var r := Pass([], s.worker.phase.Retake?, s.table, s.w);
            s == s.(table := r.table, w := r.w, queue := s.queue + r.answers,
                    worker := s.worker.(todo := [], kept := s.worker.kept + r.kept, mended := s.worker.mended + MendedBy(s)))
  {}

  lemma PassElement(jobs: seq<Job>, retake: bool, table: seq<Stack>, w: World)
    requires InTable(jobs, table) && jobs != []
    ensures var j := jobs[0];
            var (answer, st, w1) := Process(j, retake, table[j.index], w);
            var table1 := table[j.index := st];
            && InTable(jobs[1..], table1)
            && (var rest := Pass(jobs[1..], retake, table1, w1);
                Pass(jobs, retake, table, w)
                == if answer.Some? then rest.(answers := [answer.value] + rest.answers) else rest.(kept := [j] + rest.kept))
  {
    hide Process;
  }

  lemma WorkElement(s: System)
    requires (s.worker.phase.First? || s.worker.phase.Retake?) && s.worker.todo != [] && s.worker.todo[0].index < |s.table|
    ensures var k, j := s.worker, s.worker.todo[0];
            var (answer, st, w1) := Process(j, k.phase.Retake?, s.table[j.index], s.w);
            var s1 := s.(table := s.table[j.index := st], w := w1);
            Work(s) == if answer.Some? then s1.(queue := s.queue + [answer.value], worker := k.(todo := k.todo[1..]))
                       else s1.(worker := k.(todo := k.todo[1..], kept := k.kept + [j],
                                             mended := if Mends(j, k.phase.Retake?, s.table[j.index], s.w)
                                                       then k.mended + {j.index} else k.mended))
  {
    hide Process;
  }

  // ---- completion -----------------------------------------------------------------------------

  /** An element of the recovery or of the retake pass is dealt with without an answer. */
  lemma ElementAnswersNothing(s: System)
    requires Inv(s) && s.worker.todo != [] && (s.worker.phase.Recover? || s.worker.phase.Retake?)
    ensures var k, k1 := s.worker, Work(s).worker;
            && Work(s).queue == s.queue && k1.phase == k.phase
            && (k1 == k.(todo := k.todo[1..], kept := k.kept + [k.todo[0]], mended := k1.mended)
                || k1 == k.(todo := k.todo[1..], lost := k.lost + [k.todo[0].index]))
  {
    var j := s.worker.todo[0];
    Tails(s.worker.todo, s.elems, s.table);
    assert [j][0] == j && !j.mounted && (j.redundancy.Fsck? || j.redundancy.Mkfs?);
    hide Process, InvBut;
    MountAnswered(j, true, s.w);
  }

  /** Recovery and the passes after it answer nothing and move no element out of the worker's hands. */
  lemma RecoveryAnswersNothing(s: System)
    requires Inv(s) && (s.worker.phase.First? ==> s.worker.todo == [])
    ensures Work(s).queue == s.queue && Tokens(Work(s).worker, []) == Tokens(s.worker, [])
    ensures !Work(s).worker.phase.First?
  {
    var k := s.worker;
    assert k.phase.Absent? || k.phase.Ended? ==> k.todo == [];
    hide Work, Turn, Tokens, InvBut;
    if k.todo == [] {
      TurnIs(s);
      TurnTokens(k, []);
      TurnPhase(k);
    } else {
      TokenMoves(k, []);
      ElementAnswersNothing(s);
    }
  }

  lemma TurnPhase(k: Worker)
    ensures !Turn(k).phase.First?
  {}

  /** An element other than 0 that the worker has given up stays dispatched, and no job ever completes again. */
  lemma GivenUpStays(s: System, x: nat, a: Action)
    requires Inv(s) && x in s.worker.lost && x != 0
    ensures s.storage && x in Step(s, a).worker.lost && Poll(s).0 != 1 && Dispatch(s, false).0 == Dispatch(s, true).0 == -1
  {
    LostDispatched(s, x);
    assert s.storage;
    hide InvBut, Poll, Work;
    WorkKeepsLost(s, x);
    PollKeepsLost(s, x);
  }

  lemma LostDispatched(s: System, x: nat)
    requires InvBut(s) && x in s.worker.lost
    ensures x < |s.elems| && s.elems[x].dispatched && SomeDispatched(s.elems)
  {
    LostMembers(s.worker.lost);
    assert Tokens(s.worker, s.queue)[x] >= 1;
  }

  lemma WorkKeepsLost(s: System, x: nat)
    requires x in s.worker.lost
    ensures x in Work(s).worker.lost
  {
    hide Process;
  }

  lemma PollKeepsLost(s: System, x: nat)
    requires Inv(s) && x in s.worker.lost && x != 0 && s.storage
    ensures x in Poll(s).1.worker.lost && Poll(s).0 != 1
  {
    var s1, s2 := s.(w := Ask(s.w).1), Read(s);
    hide InvBut, Poll, Lost;
    ReadKeeps(s);
    WithoutExact(s.worker.lost, 0);
    PollIs(s);
    assert x in s2.worker.lost;
    hide Read;
    LostDispatched(s1, x);
    LostDispatched(s2, x);
  }

  lemma {:induction false} GivenUpForever(s: System, x: nat, acts: seq<Action>)
    requires Inv(s) && x in s.worker.lost && x != 0
    ensures var s1 := Steps(s, acts); s1.storage && Poll(s1).0 != 1 && Dispatch(s1, false).0 == Dispatch(s1, true).0 == -1
    decreases acts
  {
    hide Inv, Poll, Dispatch, Step;
    if acts == [] {
      GivenUpStays(s, x, DoPoll);
    } else {
      GivenUpStays(s, x, acts[0]);
      StepKeeps(s, acts[0]);
      GivenUpForever(Step(s, acts[0]), x, acts[1..]);
    }
  }

  function Polls(s: System, n: nat): System
    decreases n
  {
    if n == 0 then s else Polls(Poll(s).1, n - 1)
  }

  /** Reads are not interrupted and do not fail. */
  ghost predicate Uninterrupted(w: World) {
    forall p: nat :: w.script(p) != 1 && w.script(p) != 2
  }

  lemma {:induction false} LostOnce(lost: seq<nat>)
    requires forall i :: 0 <= i < |lost| ==> lost[i] == 0
    ensures |lost| == Lost(lost)[0]
  {
    if lost != [] {
      LostOnce(lost[1..]);
    }
  }

  lemma {:induction false} WithoutZeros(lost: seq<nat>)
    requires forall i :: 0 <= i < |lost| ==> lost[i] == 0
    ensures Without(lost, 0) == []
  {
    if lost != [] {
      WithoutZeros(lost[1..]);
    }
  }

  lemma {:induction false} PollsKeep(s: System, n: nat)
    requires Inv(s)
    ensures Inv(Polls(s, n))
    decreases n
  {
    hide Inv, Poll;
    if n > 0 {
      PollKeeps(s);
      PollsKeep(Poll(s).1, n - 1);
    }
  }

  lemma {:induction false} LostThroughPolls(s: System, x: nat, n: nat)
    requires Inv(s) && x in s.worker.lost && x != 0
    ensures Polls(s, n).storage
    decreases n
  {
    hide Inv, Poll, Dispatch;
    GivenUpStays(s, x, DoPoll);
    if n > 0 {
      PollKeeps(s);
      LostThroughPolls(Poll(s).1, x, n - 1);
    }
  }

  lemma ClosedPolls(s: System, n: nat)
    requires !s.storage
    ensures Polls(s, n) == s
  {}

  /** With the worker gone, every poll takes one response, or the end-of-file for element 0. */
  lemma OnePoll(s: System)
    requires Inv(s) && s.storage && s.worker.phase.Ended? && Uninterrupted(s.w)
    requires forall i :: 0 <= i < |s.worker.lost| ==> s.worker.lost[i] == 0
    ensures |s.queue| + |s.worker.lost| > 0 && |s.worker.lost| <= 1
    ensures var s1 := Poll(s).1;
            !s1.storage || (&& s1.worker.phase.Ended? && Uninterrupted(s1.w)
                            && (forall i :: 0 <= i < |s1.worker.lost| ==> s1.worker.lost[i] == 0)
                            && |s1.queue| + |s1.worker.lost| == |s.queue| + |s.worker.lost| - 1)
  {
    EndedSomething(s);
    LostAtMostOnce(s);
    WithoutZeros(s.worker.lost);
    PollIs(s);
    hide Inv, Deliver, Poll, Without;
  }

  lemma LostAtMostOnce(s: System)
    requires Inv(s) && forall i :: 0 <= i < |s.worker.lost| ==> s.worker.lost[i] == 0
    ensures |s.worker.lost| <= 1
  {
    LostOnce(s.worker.lost);
    assert Tokens(s.worker, s.queue)[0] <= 1;
  }

  lemma EndedSomething(s: System)
    requires Inv(s) && s.storage && s.worker.phase.Ended?
    ensures s.queue != [] || s.worker.lost != []
  {
    var i :| 0 <= i < |s.elems| && s.elems[i].dispatched;
    assert Tokens(s.worker, s.queue)[i as nat] == 1;
    assert s.worker.todo == [] && s.worker.kept == [];
  }

  lemma {:induction false} AllRead(s: System)
    requires Inv(s) && s.storage && s.worker.phase.Ended? && Uninterrupted(s.w)
    requires forall i :: 0 <= i < |s.worker.lost| ==> s.worker.lost[i] == 0
    ensures !Polls(s, |s.queue| + |s.worker.lost|).storage
    decreases |s.queue| + |s.worker.lost|
  {
    hide Inv, Poll, Uninterrupted;
    OnePoll(s);
    PollKeeps(s);
    var s1 := Poll(s).1;
    if s1.storage {
      AllRead(s1);
    } else {
      ClosedPolls(s1, |s.queue| + |s.worker.lost| - 1);
    }
  }

  /**
   Once the worker has ended, reading what is there completes the job exactly when no element other than
   element 0 was given up: those are never answered, and end-of-file stands in for an answer of element 0.
   */
  lemma CompletesExactly(s: System)
    requires Inv(s) && s.storage && s.worker.phase.Ended? && Uninterrupted(s.w)
    ensures !Polls(s, |s.queue| + |s.worker.lost|).storage <==> forall i :: 0 <= i < |s.worker.lost| ==> s.worker.lost[i] == 0
  {
    hide Inv, Polls, Uninterrupted;
    if i :| 0 <= i < |s.worker.lost| && s.worker.lost[i] != 0 {
      LostThroughPolls(s, s.worker.lost[i], |s.queue| + |s.worker.lost|);
    } else {
      AllRead(s);
    }
  }

  function Works(s: System, n: nat): System
    decreases n
  {
    if n == 0 then s else Works(Work(s), n - 1)
  }

  /** The worker has not ended before the last of the actions. */
  ghost predicate StillWorking(s: System, acts: seq<Action>)
    decreases acts
  {
    acts != [] ==> !s.worker.phase.Ended? && StillWorking(Step(s, acts[0]), acts[1..])
  }

  /** `later` is what is left of `queue` after some packets were read. */
  ghost predicate Suffix(later: seq<Response>, queue: seq<Response>) {
    |later| <= |queue| && later == queue[|queue| - |later|..]
  }

  lemma SuffixTransitive(a: seq<Response>, b: seq<Response>, c: seq<Response>)
    requires Suffix(a, b) && Suffix(b, c)
    ensures Suffix(a, c)
  {
    assert c[|c| - |b|..][|b| - |a|..] == c[|c| - |a|..];
  }

  /** A job with an element in the worker's hands stays open: nothing is dispatched, and polls leave the worker alone. */
  lemma HostLeavesWorker(s: System, a: Action)
    requires Inv(s) && !a.DoWork? && !s.worker.phase.Ended? && Tokens(s.worker, []) != multiset{}
    ensures Step(s, a).worker == s.worker && Suffix(Step(s, a).queue, s.queue)
  {
    WorkerHoldsDispatched(s);
    Suffixes(s.queue);
    hide Inv, Tokens, Poll, Suffix;
    if a.DoPoll? {
      PollLeavesWorker(s);
    }
  }

  lemma PollLeavesWorker(s: System)
    requires s.storage && !s.worker.phase.Ended?
    ensures Poll(s).1.worker == s.worker && Suffix(Poll(s).1.queue, s.queue)
  {
    PollIs(s);
    Suffixes(s.queue);
    hide Poll, Deliver, Without, Suffix, AllAnswered, Ask;
  }

  lemma Suffixes(queue: seq<Response>)
    ensures Suffix([], queue) && Suffix(queue, queue) && (queue != [] ==> Suffix(queue[1..], queue))
  {
    assert queue[|queue|..] == [] && queue[|queue| - |queue|..] == queue;
    if queue != [] {
      assert queue[|queue| - |queue[1..]|..] == queue[1..];
    }
  }

  lemma WorkerHoldsDispatched(s: System)
    requires Inv(s) && Tokens(s.worker, []) != multiset{}
    ensures s.storage
  {
    var x :| x in Tokens(s.worker, []);
    assert Tokens(s.worker, s.queue)[x] >= Tokens(s.worker, [])[x] >= 1;
    assert x < |s.elems| && s.elems[x].dispatched;
  }

  lemma {:induction false} RunAnswersNothing(s: System, acts: seq<Action>)
    requires Inv(s) && (s.worker.phase.First? ==> s.worker.todo == [])
    requires Tokens(s.worker, []) != multiset{} && StillWorking(s, acts)
    ensures Tokens(Steps(s, acts).worker, []) == Tokens(s.worker, []) && Suffix(Steps(s, acts).queue, s.queue)
    decreases acts
  {
    hide Inv, Work, Poll, Dispatch, Tokens, Suffix;
    if acts == [] {
      assert Suffix(s.queue, s.queue) by {
        SuffixReflexive(s.queue);
      }
    } else {
      var s1 := Step(s, acts[0]);
      if acts[0].DoWork? {
        RecoveryAnswersNothing(s);
        SuffixReflexive(s.queue);
      } else {
        HostLeavesWorker(s, acts[0]);
      }
      StepKeeps(s, acts[0]);
      RunAnswersNothing(s1, acts[1..]);
      SuffixTransitive(Steps(s1, acts[1..]).queue, s1.queue, s.queue);
    }
  }

  lemma SuffixReflexive(queue: seq<Response>)
    ensures Suffix(queue, queue)
  {}

  /**
   What the first pass keeps is lost, whatever the host does meanwhile: fsck, mkfs and the retaken mounts bring
   no element back to it, and write nothing.
   */
  lemma KeptIsLost(s: System, acts: seq<Action>)
    requires Inv(s) && s.worker.phase.First? && s.worker.todo == [] && s.worker.kept != [] && StillWorking(s, acts)
    ensures var s1 := Steps(s, acts);
            && Suffix(s1.queue, s.queue)
            && (s1.worker.phase.Ended? ==> Lost(s1.worker.lost) == Held(s.worker.kept))
  {
    StepsKeep(s, acts);
    HeldHead(s.worker.kept);
    assert Tokens(s.worker, []) == Held(s.worker.kept);
    assert s.worker.kept[0].index in Tokens(s.worker, []);
    hide StillWorking, Lost, Steps, Suffix;
    RunAnswersNothing(s, acts);
    var k := Steps(s, acts).worker;
    if k.phase.Ended? {
      EndedTokens(k.lost);
      assert k == Worker(Ended, [], [], k.lost, k.mended);
    }
  }

  /** Does this poll read a packet, or the end-of-file behind the last one? */
  predicate Reads(s: System) {
    s.storage && Ask(s.w).0 != 1 && Ask(s.w).0 != 2
  }

  predicate ReadsEndOfFile(s: System) {
    Reads(s) && s.queue == [] && s.worker.phase.Ended?
  }

  /** What the flag of element 0 goes back to after this poll: its own answer ends what an end-of-file began. */
  function OriginAfter(s: System): Origin {
    if ReadsEndOfFile(s) then ByEndOfFile(Rightly(s))
    else if Reads(s) && s.queue != [] && s.queue[0].index == 0 then ByAnswer
    else s.zero
  }

  /**
   End-of-file is taken for an answer only if an element was given up.  It raises the flag of element 0 and touches no
   other element.  The raised flag is right exactly when element 0 was given up after its repair process had been
   forked and its second mount had returned 0, or, if it was not given up, when it was flagged rightly before.
   */
  lemma EndOfFileExactly(s: System)
    requires Inv(s) && ReadsEndOfFile(s)
    ensures var s1 := Poll(s).1;
            && s.worker.lost != [] && |s1.elems| == |s.elems| == |s1.table| > 0
            && s1.elems[0].mounted && s1.elems[1..] == s.elems[1..]
            && (0 in s.worker.lost ==> !s.elems[0].mounted && (s1.table[0] != [] <==> 0 in s.worker.mended))
            && (0 !in s.worker.lost && s.zero.ByAnswer? ==> (s1.table[0] != [] <==> s.elems[0].mounted))
            && (0 !in s.worker.lost && s.zero.ByEndOfFile? ==> s.elems[0].mounted && (s1.table[0] != [] <==> s.zero.rightly))
  {
    assert |s.elems| == |s.table| > 0;
    EndedSomething(s);
    ZeroKnown(s);
    if 0 in s.worker.lost {
      var i :| 0 <= i < |s.worker.lost| && s.worker.lost[i] == 0;
      assert GivenUp(s.worker.lost[i], s.elems, s.table, s.worker.mended);
    }
    hide InvBut, Poll;
    EndOfFileEffect(s);
  }

  lemma PollOrigin(s: System)
    ensures Poll(s).1.zero == OriginAfter(s)
  {
    hide Deliver, Without, Rightly;
  }

  lemma EndOfFileEffect(s: System)
    requires ReadsEndOfFile(s) && s.elems != []
    ensures var s1 := Poll(s).1;
            |s1.elems| == |s.elems| && s1.table == s.table && s1.elems[0].mounted && s1.elems[1..] == s.elems[1..]
  {
    hide Without;
  }

  // ---- unmounting at the end ------------------------------------------------------------------

  /** An unmount job is under way or over: every element is at the worker's or known to be unmounted. */
  ghost predicate Draining(s: System) {
    && (forall i :: 0 <= i < |s.elems| ==> s.elems[i].dispatched || !s.elems[i].mounted)
    && (forall i :: 0 <= i < |s.queue| ==> s.queue[i].operation.UnmountOp?)
    && (forall i :: 0 <= i < |s.worker.todo| ==> s.worker.todo[i].mounted)
    && s.worker.kept == [] && s.worker.lost == []
  }

  lemma DispatchDrains(s: System)
    requires Inv(s) && !s.storage && Dispatch(s, true).0 >= 0
    ensures Draining(Dispatch(s, true).1)
  {
    NothingLeft(s);
    CopiesDrain(s.elems);
    hide Inv, Copies, MarkAll;
  }

  /** An unmount job takes every mounted element, and no other. */
  lemma CopiesDrain(elems: seq<Elem>)
    ensures var marked, jobs := MarkAll(elems, true), Copies(elems, true, 0);
            && (forall i :: 0 <= i < |marked| ==> marked[i].dispatched || !marked[i].mounted)
            && (forall i :: 0 <= i < |jobs| ==> jobs[i].mounted)
            && (jobs == [] ==> forall i :: 0 <= i < |elems| ==> !elems[i].mounted)
  {
    CopiesMembers(elems, true, 0);
    if Copies(elems, true, 0) == [] {
      forall i | 0 <= i < |elems| ensures !elems[i].mounted {
        MountedIsCopied(elems, 0, i);
      }
    }
  }

  /** A mounted element is copied. */
  lemma {:induction false} MountedIsCopied(elems: seq<Elem>, from: nat, i: nat)
    requires from <= i < |elems|
    ensures elems[i].mounted ==> Copies(elems, true, from) != []
    decreases i - from
  {
    if from < i {
      MountedIsCopied(elems, from + 1, i);
    }
  }

  lemma RecoverableHead(jobs: seq<Job>)
    ensures jobs != [] && AllRecoverable(jobs) ==> !jobs[0].mounted
  {}

  lemma {:induction false} NothingToCopy(elems: seq<Elem>, from: nat)
    requires from <= |elems| && forall i :: from <= i < |elems| ==> !elems[i].mounted
    ensures Copies(elems, true, from) == []
    decreases |elems| - from
  {
    if from < |elems| {
      NothingToCopy(elems, from + 1);
    }
  }

  lemma WorkDrains(s: System)
    requires Inv(s) && Draining(s)
    ensures Draining(Work(s))
  {
    var k := s.worker;
    RecoverableHead(k.todo);
    if k.todo == [] {
      TurnIs(s);
      assert Indexes([]) == [];
    } else if k.phase.First? {
      HeadApart(s);
      Tails(k.todo, s.elems, s.table);
      var j := k.todo[0];
      assert |s.table[j.index]| <= 1;
      WorkElement(s);
      hide Process, InvBut, Work;
      UnmountAnswered(j, false, s.table[j.index], s.w);
    }
  }

  lemma PollDrains(s: System)
    requires Inv(s) && Draining(s)
    ensures Draining(Poll(s).1)
  {
    if s.storage {
      PollIs(s);
      if s.queue != [] {
        assert Truthful(s.queue[0], s.elems, s.table);
        assert s.queue[0].operation.UnmountOp?;
      } else if s.worker.phase.Ended? {
        EndedSomething(s);
      }
      hide Inv, Poll;
    }
  }

  /** A further unmount request finds nothing more to do. */
  lemma AgainDrains(s: System)
    requires Inv(s) && Draining(s)
    ensures Draining(Dispatch(s, true).1)
  {
    if !s.storage {
      NothingToCopy(s.elems, 0);
    }
    hide InvBut, MarkAll;
  }

  lemma {:induction false} StepsDrain(s: System, acts: seq<Action>)
    requires Inv(s) && Draining(s) && DoLaunch !in acts
    ensures Draining(Steps(s, acts)) && Inv(Steps(s, acts))
    decreases acts
  {
    hide Inv, Draining, Work, Poll, Dispatch;
    if acts != [] {
      var a := acts[0];
      assert a in acts;
      WorkDrains(s);
      PollDrains(s);
      AgainDrains(s);
      StepKeeps(s, a);
      StepsDrain(Step(s, a), acts[1..]);
    }
  }

  ghost predicate AllUnmounted(table: seq<Stack>) {
    forall i :: 0 <= i < |table| ==> table[i] == []
  }

  /** Whatever happened before: once an unmount job has been accepted and has completed, no managed disk is mounted. */
  lemma UnmountCompletes(s0: System, before: seq<Action>, after: seq<Action>)
    requires Initial(s0) && DoLaunch !in after
    requires var s := Steps(s0, before); !s.storage && Dispatch(s, true).0 >= 0
    ensures var s := Steps(Dispatch(Steps(s0, before), true).1, after);
            !s.storage ==> AllUnmounted(s.table)
  {
    hide Steps, Dispatch, Initial;
    InitialInv(s0);
    StepsKeep(s0, before);
    var s := Steps(s0, before);
    DispatchDrains(s);
    DispatchKeeps(s, true);
    StepsDrain(Dispatch(s, true).1, after);
  }

  // ---- the last ticks of a shutdown -----------------------------------------------------------

  /** Is the element's flag up after the tick: by the answer the tick reads, or as it was? */
  predicate StaysFlagged(s: System, i: nat)
    requires i < |s.elems|
  {
    if s.storage && s.queue != [] && s.queue[0].index == i then s.queue[0].operation == MountOp && s.queue[0].result == 0
    else s.elems[i].mounted
  }

  /** Is the element's disk mounted after the tick, by its flag - or, for element 0 after an end-of-file, by what that told? */
  predicate StaysMounted(s: System, i: nat)
    requires i < |s.elems|
  {
    if i == 0 && OriginAfter(s).ByEndOfFile? then OriginAfter(s).rightly else StaysFlagged(s, i)
  }

  /**
   What the manager leaves mounted when it exits, element by element.  A flag may stay up when the job followed is a
   pending launch rather than an unmount job, and when no socket pair could be had for the unmount job.
   */
  lemma ExitsUnmountedExactly(s: System)
    requires Inv(s) && ShutdownTick(s).0
    ensures ShutdownTick(s).1.table == s.table && |s.table| == |s.elems|
    ensures forall i :: 0 <= i < |s.elems| ==> (s.table[i] == [] <==> !StaysMounted(s, i))
    ensures AllUnmounted(s.table) <==> forall i :: 0 <= i < |s.elems| ==> !StaysMounted(s, i)
  {
    var s1 := ShutdownTick(s).1;
    DispatchKeeps(s, true);
    PollKeeps(s);
    if s.storage {
      PollCloses(s);
      PollFlags(s);
      assert s1 == Poll(s).1;
    } else {
      DispatchExits(s);
      assert s1 == s.(w := Try(s.w).1);
    }
    assert !SomeDispatched(s1.elems);
    assert s1.zero == OriginAfter(s);
    hide Poll, Dispatch, Tokens, Conserved, WorkerInv, AllTruthful, OriginAfter, StaysFlagged;
    assert |s1.elems| == |s.elems| == |s1.table|;
    forall i | 0 <= i < |s.elems| ensures StaysMounted(s, i) <==> s1.table[i] != [] {
      assert Settled(s1.elems[i], s1.table[i], OriginOf(s1.zero, i));
    }
  }

  lemma DispatchExits(s: System)
    requires !s.storage && Dispatch(s, true).0 != 0
    ensures Dispatch(s, true).1 == s.(w := Try(s.w).1) && Dispatch(s, true).0 != -1
  {}

  lemma PollFlags(s: System)
    requires Inv(s) && Poll(s).0 == 1
    ensures var s1 := Poll(s).1;
            && s1.table == s.table && |s1.elems| == |s.elems| && s1.zero == OriginAfter(s)
            && forall i :: 0 <= i < |s.elems| && !(i == 0 && OriginAfter(s).ByEndOfFile?) ==>
                 (s1.elems[i].mounted <==> StaysFlagged(s, i))
  {
    PollReads(s);
    if s.queue != [] {
      assert Truthful(s.queue[0], s.elems, s.table);
    }
    hide Poll, Inv, Without, Rightly;
  }

  /** A poll completes only by reading something. */
  lemma PollReads(s: System)
    requires Inv(s) && Poll(s).0 == 1
    ensures Reads(s) && Poll(s).1 == Read(s).(storage := false, queue := [])
  {
    PollIs(s);
    assert SomeDispatched(s.elems);
    hide Poll, Read;
  }

  // ---- where the promise stops ----------------------------------------------------------------

  const DISK := Elem(Failover, Devices("a", "b"), false, false, 0)
  const CHECKED := Elem(Fsck, Devices("a", "b"), false, false, 0)

  /** Shutdown while the mount job of the start is still pending: the answer is read, and the manager exits with the disk mounted. */
  lemma PendingLaunchExit()
    ensures var s0 := System([DISK], [[]], false, [], Worker(Absent, [], [], []), ByAnswer, World(p => 0, 0, 0));
            var (exits, s1) := ShutdownTick(Steps(s0, [DoLaunch, DoWork]));
            Initial(s0) && exits && s1.table == [["a"]]
  {
    var s0 := System([DISK], [[]], false, [], Worker(Absent, [], [], []), ByAnswer, World(p => 0, 0, 0));
    var s1 := Step(s0, DoLaunch);
    assert Copies([DISK], false, 1) == [];
    assert Copies([DISK], false, 0) == [JobOf([DISK], 0)];
    assert s1.worker == Worker(First, [Job(0, Failover, Devices("a", "b"), false)], [], []);
    var s2 := Step(s1, DoWork);
    assert MountFailoverFrom(Devices("a", "b"), 0, [], s1.w).ret == 0;
    FailoverExact(Devices("a", "b"), s1.w);
    assert s2.table == [["a"]] && s2.queue == [Response(0, MountOp, 0)];
    assert Steps(s0, [DoLaunch, DoWork]) == s2 by {
      assert [DoLaunch, DoWork][1..] == [DoWork] && [DoWork][1..] == [];
    }
  }

  lemma LaunchThenWork(s: System)
    ensures Steps(s, [DoLaunch, DoWork]) == Work(Dispatch(s, false).1)
  {
    hide Work, Dispatch;
    assert [DoLaunch, DoWork][1..] == [DoWork] && [DoWork][1..] == [];
    assert Steps(s, [DoLaunch, DoWork]) == Steps(Step(s, DoLaunch), [DoWork]) == Steps(Step(Step(s, DoLaunch), DoWork), []);
  }

  lemma WorksSix(s: System)
    ensures Works(s, 6) == Work(Work(Work(Work(Work(Work(s)))))) && Works(s, 7) == Works(Work(s), 6)
  {
    hide Work;
  }

  /** The life of a thread with one element left, that fails its first mount and is checked: it ends without an answer. */
  lemma RepairLife(s: System, j: Job)
    requires s.worker == Worker(First, [j], [], []) && !j.mounted && j.redundancy.Fsck?
    requires j.index < |s.table| && s.table[j.index] == []
    requires var r1 := MountOne(j.devs.At(0), [], s.w); r1.ret == -1 && Try(r1.w).0
    ensures var r2 := MountOne(j.devs.At(0), [], Try(MountOne(j.devs.At(0), [], s.w).w).1);
            Works(s, 6) == s.(table := s.table[j.index := r2.stack], w := r2.w, worker := Worker(Ended, [], [], [j.index], if r2.ret == 0 then {j.index} else {}))
  {
    MountOneExact(j.devs.At(0), s.w);
    hide MountOne, Try, Indexes;
    var r1 := MountOne(j.devs.At(0), [], s.w);
    var w2 := Try(r1.w).1;
    var r2 := MountOne(j.devs.At(0), [], w2);
    assert s.table[j.index := []] == s.table;
    var s2 := s.(w := r1.w, worker := Worker(First, [], [j], []));
    assert Work(s) == s2;
    var s4 := s2.(w := w2, worker := Worker(Recover, [], [j], []));
    assert Work(Work(s2)) == s4;
    var s5 := s4.(worker := Worker(Retake, [j], [], []));
    assert Work(s4) == s5;
    var mended := if r2.ret == 0 then {j.index} else {};
    var s6 := s5.(table := s.table[j.index := r2.stack], w := r2.w, worker := Worker(Retake, [], [j], [], mended));
    assert Work(s5) == s6;
    hide Process;
    IndexesMore(j, []);
    assert Indexes([]) == [];
    WorksSix(s);
  }

  /** The start of a job with just that element, and the life of its thread. */
  lemma RepairOf(w: World)
    requires var r1 := MountOne("a", [], Try(w).1); Try(w).0 && r1.ret == -1 && Try(r1.w).0
    ensures var s0 := System([CHECKED], [[]], false, [], Worker(Absent, [], [], []), ByAnswer, w);
            var r2 := MountOne("a", [], Try(MountOne("a", [], Try(w).1).w).1);
            Works(Step(s0, DoLaunch), 6)
            == System([CHECKED.(dispatched := true)], [r2.stack], true, [],
                      Worker(Ended, [], [], [0], if r2.ret == 0 then {0} else {}), ByAnswer, r2.w)
  {
    var s0 := System([CHECKED], [[]], false, [], Worker(Absent, [], [], []), ByAnswer, w);
    var s1 := Step(s0, DoLaunch);
    var j := Job(0, Fsck, Devices("a", "b"), false);
    assert Copies([CHECKED], false, 1) == [];
    assert Copies([CHECKED], false, 0) == [j];
    hide MountOne, Works, Try;
    RepairLife(s1, j);
  }

  /** A disk that cannot be mounted, even after its file system was checked, ends up flagged as mounted when it is element 0. */
  lemma MistakenForMounted()
    ensures var s0 := System([CHECKED], [[]], false, [], Worker(Absent, [], [], []), ByAnswer,
                             World(p => if p == 1 || p == 3 then 2 else 0, 0, 0));
            var (ret, s1) := Poll(Works(Step(s0, DoLaunch), 6));
            Initial(s0) && ret == 1 && s1.elems[0].mounted && s1.zero == ByEndOfFile(false) && s1.table == [[]]
  {
    hide Works, Step;
    RepairOf(World(p => if p == 1 || p == 3 then 2 else 0, 0, 0));
  }

  /** A disk mounted only after its file system was checked: the end-of-file ends the job, and a shutdown exits with it mounted. */
  lemma RecoveredDiskExit()
    ensures var s0 := System([CHECKED], [[]], false, [], Worker(Absent, [], [], []), ByAnswer,
                             World(p => if p == 1 then 2 else 0, 0, 0));
            var (exits, s1) := ShutdownTick(Works(Step(s0, DoLaunch), 6));
            Initial(s0) && exits && s1.zero == ByEndOfFile(true) && s1.table == [["a"]]
  {
    hide Works, Step, ShutdownTick, MountOne;
    RecoveredExits(World(p => if p == 1 then 2 else 0, 0, 0));
  }

  lemma RecoveredExits(w: World)
    requires w == World(w.script, 0, 0) && w.script(1) == 2 && w.script(0) == w.script(2) == w.script(3) == w.script(4) == 0
    ensures var s0 := System([CHECKED], [[]], false, [], Worker(Absent, [], [], []), ByAnswer, w);
            var (exits, s1) := ShutdownTick(Works(Step(s0, DoLaunch), 6));
            exits && s1.zero == ByEndOfFile(true) && s1.table == [["a"]]
  {
    var s := Works(Step(System([CHECKED], [[]], false, [], Worker(Absent, [], [], []), ByAnswer, w), DoLaunch), 6);
    assert MountOne("a", [], World(w.script, 1, 0)) == Mounted(-1, [], World(w.script, 2, 0));
    assert MountOne("a", [], World(w.script, 3, 0)) == Mounted(0, ["a"], World(w.script, 4, 0));
    hide Works, Step, ShutdownTick, MountOne;
    RepairOf(w);
    EndOfFileExits(s);
  }

  lemma EndOfFileExits(s: System)
    requires |s.elems| == 1 && ReadsEndOfFile(s)
    ensures ShutdownTick(s).0 && ShutdownTick(s).1.zero == ByEndOfFile(Rightly(s)) && ShutdownTick(s).1.table == s.table
  {
    assert Deliver(s.elems, ZEROED) == [Received(s.elems[0], ZEROED)];
  }

  /** A recovered element other than 0: it is given up, and blocks every later job for ever. */
  lemma GivenUpExample(acts: seq<Action>)
    ensures var s0 := System([DISK, CHECKED], [[], []], false, [], Worker(Absent, [], [], []), ByAnswer,
                             World(p => if p == 2 then 2 else 0, 0, 0));
            var s := Works(Step(s0, DoLaunch), 7);
            && Initial(s0) && s.worker.phase.Ended? && s.worker.lost == [1]
            && Steps(s, acts).storage && Poll(Steps(s, acts)).0 != 1
  {
    var s0 := System([DISK, CHECKED], [[], []], false, [], Worker(Absent, [], [], []), ByAnswer,
                     World(p => if p == 2 then 2 else 0, 0, 0));
    var s1 := Step(s0, DoLaunch);
    var j := Job(1, Fsck, Devices("a", "b"), false);
    FirstOfTwo(s0.w);
    WorksSix(s1);
    FailsThenForks(s0.w.script);
    hide Works, Step, Work, Process, MountOne, Try, Copies, MarkAll, Poll, Dispatch, Steps;
    RepairLife(Work(s1), j);
    WorksReach(s0, 7);
    GivenUpForever(Works(s1, 7), 1, acts);
  }

  lemma FailsThenForks(script: nat -> int)
    requires script(2) == 2 && script(3) == 0
    ensures var r := MountOne("a", [], World(script, 2, 0)); r.ret == -1 && Try(r.w).0
  {}

  lemma FirstOfTwo(w: World)
    requires w == World(w.script, 0, 0) && w.script(0) == w.script(1) == 0
    ensures var s0 := System([DISK, CHECKED], [[], []], false, [], Worker(Absent, [], [], []), ByAnswer, w);
            var s2 := Work(Step(s0, DoLaunch));
            && s2.worker == Worker(First, [Job(1, Fsck, Devices("a", "b"), false)], [], [])
            && s2.w == World(w.script, 2, 0) && s2.table == [["a"], []]
  {
    var s0 := System([DISK, CHECKED], [[], []], false, [], Worker(Absent, [], [], []), ByAnswer, w);
    var i, j := Job(0, Failover, Devices("a", "b"), false), Job(1, Fsck, Devices("a", "b"), false);
    assert Copies(s0.elems, false, 2) == [];
    assert Copies(s0.elems, false, 1) == [j];
    assert Copies(s0.elems, false, 0) == [i] + [j];
    var s1 := Step(s0, DoLaunch);
    assert s1.worker == Worker(First, [i, j], [], []) && s1.w == World(w.script, 1, 0) && s1.table == [[], []];
    FailoverExact(i.devs, s1.w);
    hide Copies, MarkAll, Dispatch, Step;
  }

  lemma {:induction false} WorksKeep(s: System, n: nat)
    requires Inv(s)
    ensures Inv(Works(s, n))
    decreases n
  {
    hide Inv, Work;
    if n > 0 {
      WorkKeeps(s);
      WorksKeep(Work(s), n - 1);
    }
  }

  lemma WorksReach(s0: System, n: nat)
    requires Initial(s0)
    ensures Inv(Works(Step(s0, DoLaunch), n))
  {
    InitialInv(s0);
    StepKeeps(s0, DoLaunch);
    hide Inv, Step, Works;
    WorksKeep(Step(s0, DoLaunch), n);
  }
}
