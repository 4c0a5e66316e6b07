/** What host and worker of ManagerMount keep in every interleaving. */
module ManagerMountSafety {
  import opened Host
  import opened MountTable
  import opened Options
  import opened ManagerMount

  // ---- conservation ---------------------------------------------------------------------------

  ghost function Held(jobs: seq<Job>): multiset<nat> {
    if jobs == [] then multiset{} else multiset{jobs[0].index} + Held(jobs[1..])
  }

  ghost function Unread(queue: seq<Response>): multiset<nat> {
    if queue == [] then multiset{} else multiset{queue[0].index} + Unread(queue[1..])
  }

  ghost function Lost(lost: seq<nat>): multiset<nat> {
    if lost == [] then multiset{} else multiset{lost[0]} + Lost(lost[1..])
  }

  /** Where the elements handed to the worker are: still with it, given up, or answered and unread. */
  ghost function Tokens(worker: Worker, queue: seq<Response>): multiset<nat> {
    Held(worker.todo) + Held(worker.kept) + Lost(worker.lost) + Unread(queue)
  }

  /** Every dispatched element is in exactly one of those places, once; no other element is. */
  ghost predicate Conserved(elems: seq<Elem>, tokens: multiset<nat>) {
    forall i: nat :: tokens[i] == if i < |elems| && elems[i].dispatched then 1 else 0
  }

  // ---- truthfulness ---------------------------------------------------------------------------

  /** An element nobody is working on: its flag tells whether its disk is mounted, unless an end-of-file raised it wrongly. */
  ghost predicate Settled(e: Elem, st: Stack, origin: Origin) {
    !e.dispatched ==> if e.mounted then st != [] <==> (origin.ByEndOfFile? ==> origin.rightly) else st == []
  }

  /** A copy at the worker: as the host's element, and not mounted in fact if it is to be mounted. */
  ghost predicate Pending(j: Job, elems: seq<Elem>, table: seq<Stack>)
    requires |table| == |elems|
  {
    && j.index < |elems| && j == JobOf(elems, j.index)
    && (!j.mounted ==> table[j.index] == [])
  }

  /** An unread response tells the outcome. */
  ghost predicate Truthful(r: Response, elems: seq<Elem>, table: seq<Stack>)
    requires |table| == |elems|
  {
    && r.index < |elems|
    && (if r.operation.UnmountOp? then table[r.index] == []
        else !elems[r.index].mounted && (r.result == 0 || r.result == -1) && (r.result == 0 <==> table[r.index] != []))
  }

  /** Only file systems that can be checked or made anew go through recovery. */
  ghost predicate AllRecoverable(jobs: seq<Job>) {
    forall i :: 0 <= i < |jobs| ==> !jobs[i].mounted && (jobs[i].redundancy.Fsck? || jobs[i].redundancy.Mkfs?)
  }

  /** The host has the flag of an element given up down; its disk is mounted exactly when its second mount returned 0. */
  ghost predicate GivenUp(i: nat, elems: seq<Elem>, table: seq<Stack>, mended: set<nat>)
    requires |table| == |elems|
  {
    i < |elems| && !elems[i].mounted && (table[i] != [] <==> i in mended)
  }

  ghost predicate AllPending(jobs: seq<Job>, elems: seq<Elem>, table: seq<Stack>)
    requires |table| == |elems|
  {
    forall i :: 0 <= i < |jobs| ==> Pending(jobs[i], elems, table)
  }

  ghost predicate AllTruthful(queue: seq<Response>, elems: seq<Elem>, table: seq<Stack>)
    requires |table| == |elems|
  {
    forall i :: 0 <= i < |queue| ==> Truthful(queue[i], elems, table)
  }

  ghost predicate AllGivenUp(lost: seq<nat>, elems: seq<Elem>, table: seq<Stack>, mended: set<nat>)
    requires |table| == |elems|
  {
    forall i :: 0 <= i < |lost| ==> GivenUp(lost[i], elems, table, mended)
  }

  ghost predicate Unmended(jobs: seq<Job>, mended: set<nat>) {
    forall i :: 0 <= i < |jobs| ==> jobs[i].index !in mended
  }

  /** What the flag of element `i` goes back to. */
  function OriginOf(zero: Origin, i: nat): Origin {
    if i == 0 then zero else ByAnswer
  }

  ghost predicate AllSettled(elems: seq<Elem>, table: seq<Stack>, zero: Origin)
    requires |table| == |elems|
  {
    && (forall i :: 0 <= i < |elems| ==> Settled(elems[i], table[i], OriginOf(zero, i)))
    && (forall i :: 0 <= i < |elems| ==> |table[i]| <= 1)
    && (zero.ByEndOfFile? ==> elems != [] && elems[0].mounted)
  }

  ghost predicate WorkerInv(k: Worker, elems: seq<Elem>, table: seq<Stack>)
    requires |table| == |elems|
  {
    && AllPending(k.todo, elems, table) && AllRecoverable(k.kept) && AllGivenUp(k.lost, elems, table, k.mended)
    && Unmended(k.todo, k.mended) && (k.phase.Absent? || k.phase.First? || k.phase.Recover? ==> k.mended == {})
    && (!k.phase.First? ==> AllRecoverable(k.todo))
    && (if k.phase.Retake? then AllGivenUp(Indexes(k.kept), elems, table, k.mended) else AllPending(k.kept, elems, table))
    && (k.phase.Absent? || k.phase.Ended? ==> k.todo == k.kept == [])
    && (k.phase.Absent? || k.phase.First? ==> k.lost == [])
  }

  ghost predicate SomeDispatched(elems: seq<Elem>) {
    exists i :: 0 <= i < |elems| && elems[i].dispatched
  }

  ghost predicate Inv(s: System) {
    InvBut(s) && (s.storage <==> SomeDispatched(s.elems))
  }

  /** Between reading a response and judging whether all are answered, only the host's storage may be behind. */
  ghost predicate InvBut(s: System) {
    && |s.table| == |s.elems|
    && Conserved(s.elems, Tokens(s.worker, s.queue))
    && WorkerInv(s.worker, s.elems, s.table)
    && AllTruthful(s.queue, s.elems, s.table)
    && AllSettled(s.elems, s.table, s.zero)
  }

  // ---- the worker keeps it --------------------------------------------------------------------

  lemma UnmountAnswered(j: Job, retake: bool, st: Stack, w: World)
    requires |st| <= 1 && j.mounted
    ensures var (answer, st1, w1) := Process(j, retake, st, w);
            answer == Some(Response(j.index, UnmountOp, 0)) && st1 == []
  {
    hide UnmountDisk, Now;
    var (now, w1) := Now(w);
    UnmountExact(st, now + UNMOUNT_TIMEOUT, UNMOUNT_RETRIES, w1);
  }

  /** One element to be mounted: an answer tells the outcome, and only a failed mount or a retake goes unanswered. */
  lemma MountAnswered(j: Job, retake: bool, w: World)
    requires !j.mounted
    ensures var (answer, st1, w1) := Process(j, retake, [], w);
            && |st1| <= 1
            && (answer.Some? ==> answer.value.index == j.index && answer.value.operation == MountOp
                                 && (answer.value.result == 0 || answer.value.result == -1)
                                 && (answer.value.result == 0 <==> st1 != []))
            && (answer.None? ==> j.redundancy.Fsck? || j.redundancy.Mkfs?)
            && (answer.None? && !retake ==> st1 == [])
            && (answer.Some? && (j.redundancy.Fsck? || j.redundancy.Mkfs?) ==> !retake && st1 != [])
            && (Mends(j, retake, [], w) ==> answer.None?) && (answer.None? ==> (Mends(j, retake, [], w) <==> st1 != []))
  {
    FailoverExact(j.devs, w);
    MountOneExact(j.devs.At(0), w);
    hide MountOne, MountFailoverFrom;
  }

  lemma {:induction false} HeldAppend(jobs: seq<Job>, j: Job)
    ensures Held(jobs + [j]) == Held(jobs) + multiset{j.index}
  {
    if jobs != [] {
      assert (jobs + [j])[1..] == jobs[1..] + [j];
      HeldAppend(jobs[1..], j);
    }
  }

  lemma {:induction false} UnreadAppend(queue: seq<Response>, r: Response)
    ensures Unread(queue + [r]) == Unread(queue) + multiset{r.index}
  {
    if queue != [] {
      assert (queue + [r])[1..] == queue[1..] + [r];
      UnreadAppend(queue[1..], r);
    }
  }

  lemma {:induction false} LostAppend(lost: seq<nat>, jobs: seq<Job>)
    ensures Lost(lost + Indexes(jobs)) == Lost(lost) + Held(jobs)
    decreases |lost|, |jobs|
  {
    if lost != [] {
      assert (lost + Indexes(jobs))[1..] == lost[1..] + Indexes(jobs);
      LostAppend(lost[1..], jobs);
    } else if jobs != [] {
      assert [] + Indexes(jobs) == [jobs[0].index] + ([] + Indexes(jobs[1..]));
      LostAppend([], jobs[1..]);
    }
  }

  lemma {:induction false} HeldMembers(jobs: seq<Job>)
    ensures forall i :: 0 <= i < |jobs| ==> jobs[i].index in Held(jobs)
  {
    if jobs != [] {
      HeldMembers(jobs[1..]);
      assert forall i :: 1 <= i < |jobs| ==> jobs[i] == jobs[1..][i - 1];
    }
  }

  lemma {:induction false} UnreadMembers(queue: seq<Response>)
    ensures forall i :: 0 <= i < |queue| ==> queue[i].index in Unread(queue)
  {
    if queue != [] {
      UnreadMembers(queue[1..]);
      assert forall i :: 1 <= i < |queue| ==> queue[i] == queue[1..][i - 1];
    }
  }

  lemma {:induction false} LostMembers(lost: seq<nat>)
    ensures forall i :: 0 <= i < |lost| ==> lost[i] in Lost(lost)
  {
    if lost != [] {
      LostMembers(lost[1..]);
      assert forall i :: 1 <= i < |lost| ==> lost[i] == lost[1..][i - 1];
    }
  }

  /** The first element of the current pass is dispatched, and in no other place. */
  lemma HeadApart(s: System)
    requires Conserved(s.elems, Tokens(s.worker, s.queue)) && s.worker.todo != []
    ensures var h := s.worker.todo[0].index;
            && h < |s.elems| && s.elems[h].dispatched
            && (forall i :: 1 <= i < |s.worker.todo| ==> s.worker.todo[i].index != h)
            && (forall i :: 0 <= i < |s.worker.kept| ==> s.worker.kept[i].index != h)
            && (forall i :: 0 <= i < |s.worker.lost| ==> s.worker.lost[i] != h)
            && (forall i :: 0 <= i < |s.queue| ==> s.queue[i].index != h)
  {
    var k, h := s.worker, s.worker.todo[0].index;
    HeldMembers(k.todo[1..]);
    HeldMembers(k.kept);
    LostMembers(k.lost);
    UnreadMembers(s.queue);
    assert Held(k.todo) == multiset{h} + Held(k.todo[1..]);
    assert h in Tokens(k, s.queue) && Tokens(k, s.queue)[h] <= 1;
    hide Held, Unread, Lost;
    assert h !in Held(k.todo[1..]) && h !in Held(k.kept) && h !in Lost(k.lost) && h !in Unread(s.queue);
    assert forall i :: 1 <= i < |k.todo| ==> k.todo[i] == k.todo[1..][i - 1];
  }

  lemma HeldHead(jobs: seq<Job>)
    requires jobs != []
    ensures Held(jobs) == multiset{jobs[0].index} + Held(jobs[1..])
  {}

  lemma LostAppendOne(lost: seq<nat>, j: Job)
    ensures Lost(lost + [j.index]) == Lost(lost) + multiset{j.index}
  {
    LostAppend(lost, [j]);
    assert Indexes([j]) == [j.index];
    HeldHead([j]);
  }

  /** Moving the first element of the pass elsewhere moves its token. */
  lemma TokenMoves(k: Worker, queue: seq<Response>)
    requires k.todo != []
    ensures forall mended :: Tokens(k.(todo := k.todo[1..], kept := k.kept + [k.todo[0]], mended := mended), queue) == Tokens(k, queue)
    ensures Tokens(k.(todo := k.todo[1..], lost := k.lost + [k.todo[0].index]), queue) == Tokens(k, queue)
  {
    hide Held, Lost, Unread;
    HeldHead(k.todo);
    HeldAppend(k.kept, k.todo[0]);
    LostAppendOne(k.lost, k.todo[0]);
  }

  lemma TokenAnswered(k: Worker, queue: seq<Response>, r: Response)
    requires k.todo != [] && r.index == k.todo[0].index
    ensures Tokens(k.(todo := k.todo[1..]), queue + [r]) == Tokens(k, queue)
  {
    hide Held, Lost, Unread;
    HeldHead(k.todo);
    UnreadAppend(queue, r);
  }

  /** The turn from one pass to the next moves all tokens. */
  lemma TokensMove(k: Worker, queue: seq<Response>, phase: Phase)
    requires k.todo == []
    ensures Tokens(k.(phase := phase, todo := k.kept, kept := []), queue) == Tokens(k, queue)
    ensures Tokens(k.(phase := phase, kept := [], lost := k.lost + Indexes(k.kept)), queue) == Tokens(k, queue)
  {
    LostAppend(k.lost, k.kept);
    assert Held([]) == multiset{};
    hide Held, Lost, Unread;
  }

  // ---- lists of jobs: tails, one more, a mount point of somebody else -----------------------------

  lemma Tails(jobs: seq<Job>, elems: seq<Elem>, table: seq<Stack>)
    requires |table| == |elems| && AllPending(jobs, elems, table) && jobs != []
    ensures AllPending(jobs[1..], elems, table) && Pending(jobs[0], elems, table)
    ensures AllRecoverable(jobs) ==> AllRecoverable(jobs[1..]) && AllRecoverable([jobs[0]])
  {}

  /** An element not mounted and not mended may be given up. */
  lemma HeadGivenUp(jobs: seq<Job>, elems: seq<Elem>, table: seq<Stack>, mended: set<nat>)
    requires |table| == |elems| && jobs != [] && AllPending(jobs, elems, table) && AllRecoverable(jobs) && Unmended(jobs, mended)
    ensures GivenUp(jobs[0].index, elems, table, mended)
  {}

  lemma OneMore(jobs: seq<Job>, j: Job, elems: seq<Elem>, table: seq<Stack>, mended: set<nat>)
    requires |table| == |elems|
    ensures AllPending(jobs, elems, table) && Pending(j, elems, table) ==> AllPending(jobs + [j], elems, table)
    ensures AllRecoverable(jobs) && AllRecoverable([j]) ==> AllRecoverable(jobs + [j])
    ensures AllGivenUp(Indexes(jobs), elems, table, mended) && GivenUp(j.index, elems, table, mended) ==>
              AllGivenUp(Indexes(jobs + [j]), elems, table, mended)
  {
    assert [j][0] == j;
  }

  lemma GivenUpMore(lost: seq<nat>, more: seq<nat>, elems: seq<Elem>, table: seq<Stack>, mended: set<nat>)
    requires |table| == |elems| && AllGivenUp(lost, elems, table, mended) && AllGivenUp(more, elems, table, mended)
    ensures AllGivenUp(lost + more, elems, table, mended)
  {}

  lemma GivenUpElsewhere(lost: seq<nat>, elems: seq<Elem>, table: seq<Stack>, mended: set<nat>, h: nat, st: Stack, mends: bool)
    requires |table| == |elems| && h < |table| && AllGivenUp(lost, elems, table, mended)
    requires forall i :: 0 <= i < |lost| ==> lost[i] != h
    ensures AllGivenUp(lost, elems, table[h := st], if mends then mended + {h} else mended)
  {}

  /** Changing one mount point concerns only those who deal with it. */
  lemma PendingElsewhere(jobs: seq<Job>, elems: seq<Elem>, table: seq<Stack>, h: nat, st: Stack)
    requires |table| == |elems| && h < |table| && AllPending(jobs, elems, table)
    requires forall i :: 0 <= i < |jobs| ==> jobs[i].index != h
    ensures AllPending(jobs, elems, table[h := st])
  {}

  lemma TruthfulElsewhere(queue: seq<Response>, elems: seq<Elem>, table: seq<Stack>, h: nat, st: Stack)
    requires |table| == |elems| && h < |table| && AllTruthful(queue, elems, table)
    requires forall i :: 0 <= i < |queue| ==> queue[i].index != h
    ensures AllTruthful(queue, elems, table[h := st])
  {}

  lemma TruthfulAppend(queue: seq<Response>, r: Response, elems: seq<Elem>, table: seq<Stack>)
    requires |table| == |elems| && AllTruthful(queue, elems, table) && Truthful(r, elems, table)
    ensures AllTruthful(queue + [r], elems, table)
  {}

  lemma RecoverableOne(j: Job)
    requires !j.mounted && (j.redundancy.Fsck? || j.redundancy.Mkfs?)
    ensures AllRecoverable([j])
  {}

  /** The worker's part of one element of a pass. */
  lemma ElementWorkerInv(s: System, answered: bool, st: Stack, mends: bool)
    requires Inv(s) && s.worker.todo != [] && (s.worker.phase.First? || s.worker.phase.Retake?)
    requires var j := s.worker.todo[0];
             !answered ==> !j.mounted && (j.redundancy.Fsck? || j.redundancy.Mkfs?) && (st != [] <==> mends)
    requires mends ==> !answered && s.worker.phase.Retake?
    ensures var k := s.worker;
            var mended := if mends then k.mended + {k.todo[0].index} else k.mended;
            var k1 := if answered then k.(todo := k.todo[1..])
                      else k.(todo := k.todo[1..], kept := k.kept + [k.todo[0]], mended := mended);
            k.todo[0].index < |s.table| && WorkerInv(k1, s.elems, s.table[k.todo[0].index := st])
  {
    hide Conserved, Tokens, AllSettled, AllTruthful, AllPending, AllRecoverable, AllGivenUp, Indexes;
    var k, j := s.worker, s.worker.todo[0];
    HeadApart(s);
    Tails(k.todo, s.elems, s.table);
    var rest, table1 := k.todo[1..], s.table[j.index := st];
    var mended := if mends then k.mended + {j.index} else k.mended;
    assert forall i :: 0 <= i < |rest| ==> rest[i] == k.todo[i + 1];
    PendingElsewhere(rest, s.elems, s.table, j.index, st);
    GivenUpElsewhere(k.lost, s.elems, s.table, k.mended, j.index, st, mends);
    if k.phase.First? {
      PendingElsewhere(k.kept, s.elems, s.table, j.index, st);
    } else {
      GivenUpElsewhere(Indexes(k.kept), s.elems, s.table, k.mended, j.index, st, mends);
    }
    if !answered {
      RecoverableOne(j);
      OneMore(k.kept, j, s.elems, table1, mended);
    }
  }

  lemma ElementKeeps(s: System)
    requires Inv(s) && s.worker.todo != [] && (s.worker.phase.First? || s.worker.phase.Retake?)
    ensures Inv(Work(s))
  {
    var k := s.worker;
    var j := k.todo[0];
    HeadApart(s);
    Tails(k.todo, s.elems, s.table);
    assert |s.table[j.index]| <= 1;
    hide WorkerInv, AllTruthful, Conserved, Tokens, Process, AllSettled, SomeDispatched;
    var (answer, st, w1) := Process(j, k.phase.Retake?, s.table[j.index], s.w);
    TokenMoves(k, s.queue);
    var mends := Mends(j, k.phase.Retake?, s.table[j.index], s.w);
    if j.mounted {
      UnmountAnswered(j, k.phase.Retake?, s.table[j.index], s.w);
    } else {
      MountAnswered(j, k.phase.Retake?, s.w);
    }
    hide Mends;
    ElementWorkerInv(s, answer.Some?, st, mends);
    TruthfulElsewhere(s.queue, s.elems, s.table, j.index, st);
    SettledElsewhere(s.elems, s.table, s.zero, j.index, st);
    if answer.Some? {
      TokenAnswered(k, s.queue, answer.value);
      TruthfulAppend(s.queue, answer.value, s.elems, s.table[j.index := st]);
    }
  }

  lemma SettledElsewhere(elems: seq<Elem>, table: seq<Stack>, zero: Origin, h: nat, st: Stack)
    requires |table| == |elems| && h < |table| && AllSettled(elems, table, zero) && elems[h].dispatched && |st| <= 1
    ensures AllSettled(elems, table[h := st], zero)
  {}

  lemma RecoverKeeps(s: System)
    requires Inv(s) && s.worker.phase.Recover? && s.worker.todo != []
    ensures Inv(Work(s))
  {
    hide Process, Conserved, Tokens, AllTruthful, AllSettled, AllPending, AllRecoverable, AllGivenUp, Indexes;
    var k, j := s.worker, s.worker.todo[0];
    TokenMoves(k, s.queue);
    Tails(k.todo, s.elems, s.table);
    OneMore(k.kept, j, s.elems, s.table, k.mended);
    HeadGivenUp(k.todo, s.elems, s.table, k.mended);
    GivenUpOne(k.lost, j, s.elems, s.table, k.mended);
  }

  lemma GivenUpOne(lost: seq<nat>, j: Job, elems: seq<Elem>, table: seq<Stack>, mended: set<nat>)
    requires |table| == |elems|
    ensures AllGivenUp(lost, elems, table, mended) && GivenUp(j.index, elems, table, mended) ==>
              AllGivenUp(lost + [j.index], elems, table, mended)
  {}

  lemma GiveUpKept(k: Worker, elems: seq<Elem>, table: seq<Stack>)
    requires |table| == |elems| && WorkerInv(k, elems, table)
    ensures AllGivenUp(Indexes(k.kept), elems, table, k.mended)
  {}

  /** What the worker turns to when a pass is over. */
  ghost function Turn(k: Worker): Worker {
    match k.phase
    case Absent => k
    case Ended => k
    case Recover => k.(phase := Retake, todo := k.kept, kept := [])
    case First =>
      if k.kept != [] then k.(phase := Recover, todo := k.kept, kept := [])
      else k.(phase := Ended, kept := [], lost := k.lost + Indexes(k.kept))
    case Retake => k.(phase := Ended, kept := [], lost := k.lost + Indexes(k.kept))
  }

  lemma TurnIs(s: System)
    requires s.worker.todo == []
    ensures Work(s) == s.(worker := Turn(s.worker))
  {
    hide Process, Indexes;
  }

  lemma TurnInv(k: Worker, elems: seq<Elem>, table: seq<Stack>)
    requires |table| == |elems| && WorkerInv(k, elems, table) && k.todo == []
    ensures WorkerInv(Turn(k), elems, table)
  {
    GiveUpKept(k, elems, table);
    NoJobs(elems, table, k.mended);
    hide AllPending, AllGivenUp, AllRecoverable, Indexes;
    GivenUpMore(k.lost, Indexes(k.kept), elems, table, k.mended);
  }

  lemma TurnTokens(k: Worker, queue: seq<Response>)
    requires k.todo == []
    ensures Tokens(Turn(k), queue) == Tokens(k, queue)
  {
    hide Tokens, Indexes;
    TokensMove(k, queue, Recover);
    TokensMove(k, queue, Retake);
    TokensMove(k, queue, Ended);
  }

  lemma PassEndKeeps(s: System)
    requires Inv(s) && s.worker.todo == []
    ensures Inv(Work(s))
  {
    hide Work, Turn, Conserved, Tokens, AllTruthful, AllSettled, WorkerInv, SomeDispatched;
    TurnIs(s);
    TurnInv(s.worker, s.elems, s.table);
    TurnTokens(s.worker, s.queue);
  }

  lemma NoJobs(elems: seq<Elem>, table: seq<Stack>, mended: set<nat>)
    requires |table| == |elems|
    ensures AllPending([], elems, table) && AllRecoverable([]) && AllGivenUp([], elems, table, mended) && AllTruthful([], elems, table)
    ensures AllGivenUp(Indexes([]), elems, table, mended)
  {}

  /** Each step of the worker thread keeps the invariant. */
  lemma WorkKeeps(s: System)
    requires Inv(s)
    ensures Inv(Work(s))
  {
    hide Inv, Process;
    if s.worker.todo == [] {
      PassEndKeeps(s);
    } else if s.worker.phase.Recover? {
      RecoverKeeps(s);
    } else if s.worker.phase.First? || s.worker.phase.Retake? {
      ElementKeeps(s);
    }
  }

  // ---- the host keeps it ----------------------------------------------------------------------

  lemma CopiesUnfold(elems: seq<Elem>, mounted: bool, i: nat)
    requires i < |elems|
    ensures var rest := Copies(elems, mounted, i + 1);
            Copies(elems, mounted, i) == if elems[i].mounted == mounted then [JobOf(elems, i)] + rest else rest
  {}

  lemma {:induction false} CopiesMembers(elems: seq<Elem>, mounted: bool, i: nat)
    requires i <= |elems|
    ensures var jobs := Copies(elems, mounted, i);
            forall k :: 0 <= k < |jobs| ==>
              i <= jobs[k].index < |elems| && jobs[k].mounted == mounted && jobs[k] == JobOf(elems, jobs[k].index)
    decreases |elems| - i
  {
    hide Copies;
    if i < |elems| {
      CopiesMembers(elems, mounted, i + 1);
      CopiesUnfold(elems, mounted, i);
    } else {
      CopiesEnd(elems, mounted);
    }
  }

  lemma CopiesEnd(elems: seq<Elem>, mounted: bool)
    ensures Copies(elems, mounted, |elems|) == [] && Held([]) == multiset{}
  {}

  lemma {:induction false} CopiesTokens(elems: seq<Elem>, mounted: bool, i: nat)
    requires i <= |elems|
    ensures forall e: nat :: Held(Copies(elems, mounted, i))[e] == if i <= e < |elems| && elems[e].mounted == mounted then 1 else 0
    decreases |elems| - i
  {
    hide Copies, Held;
    if i < |elems| {
      CopiesTokens(elems, mounted, i + 1);
      CopiesUnfold(elems, mounted, i);
      var rest := Copies(elems, mounted, i + 1);
      HeldHead([JobOf(elems, i)] + rest);
      assert ([JobOf(elems, i)] + rest)[1..] == rest;
    } else {
      CopiesEnd(elems, mounted);
    }
  }

  /** The copies made: one of each element concerned. */
  lemma CopiesExact(elems: seq<Elem>, mounted: bool, i: nat)
    requires i <= |elems|
    ensures var jobs := Copies(elems, mounted, i);
            && (forall k :: 0 <= k < |jobs| ==>
                  i <= jobs[k].index < |elems| && jobs[k].mounted == mounted && jobs[k] == JobOf(elems, jobs[k].index))
            && (forall e: nat :: Held(jobs)[e] == if i <= e < |elems| && elems[e].mounted == mounted then 1 else 0)
  {
    hide Copies, Held;
    CopiesMembers(elems, mounted, i);
    CopiesTokens(elems, mounted, i);
  }

  lemma NoTokens(jobs: seq<Job>, lost: seq<nat>, queue: seq<Response>)
    ensures jobs != [] ==> Held(jobs)[jobs[0].index] >= 1
    ensures lost != [] ==> Lost(lost)[lost[0]] >= 1
    ensures queue != [] ==> Unread(queue)[queue[0].index] >= 1
  {}

  /** Nothing is left from an earlier job when no job is under way. */
  lemma NothingLeft(s: System)
    requires Conserved(s.elems, Tokens(s.worker, s.queue)) && !SomeDispatched(s.elems)
    ensures s.queue == [] && s.worker.todo == [] && s.worker.kept == [] && s.worker.lost == []
  {
    var tokens := Tokens(s.worker, s.queue);
    assert forall i: nat :: tokens[i] == 0;
    NoTokens(s.worker.todo, s.worker.lost, s.queue);
    NoTokens(s.worker.kept, [], []);
    hide Unread, Held, Lost;
  }

  /** The copies are all the worker holds, and what it does not yet know of is settled. */
  lemma CopiesInv(elems: seq<Elem>, table: seq<Stack>, zero: Origin, mounted: bool)
    requires |table| == |elems| && AllSettled(elems, table, zero) && !SomeDispatched(elems)
    ensures var marked, jobs := MarkAll(elems, mounted), Copies(elems, mounted, 0);
            && AllPending(jobs, marked, table) && AllSettled(marked, table, zero)
            && Conserved(marked, Held(jobs)) && (jobs != [] ==> SomeDispatched(marked))
  {
    var marked, jobs := MarkAll(elems, mounted), Copies(elems, mounted, 0);
    CopiesExact(elems, mounted, 0);
    hide Held, Copies, MarkAll, AllSettled, AllPending, Conserved;
    MarkSettles(elems, table, zero, mounted);
    MarkPends(elems, table, zero, mounted, jobs);
    assert jobs != [] ==> marked[jobs[0].index].dispatched;
    assert Conserved(marked, Held(jobs)) by {
      MarkConserves(elems, mounted, Held(jobs));
    }
  }

  lemma MarkSettles(elems: seq<Elem>, table: seq<Stack>, zero: Origin, mounted: bool)
    requires |table| == |elems| && AllSettled(elems, table, zero)
    ensures AllSettled(MarkAll(elems, mounted), table, zero)
  {
    hide MarkAll;
  }

  lemma MarkPends(elems: seq<Elem>, table: seq<Stack>, zero: Origin, mounted: bool, jobs: seq<Job>)
    requires |table| == |elems| && AllSettled(elems, table, zero) && !SomeDispatched(elems)
    requires forall k :: 0 <= k < |jobs| ==> jobs[k].index < |elems| && jobs[k] == JobOf(elems, jobs[k].index)
    ensures AllPending(jobs, MarkAll(elems, mounted), table)
  {
    hide MarkAll;
  }

  lemma MarkConserves(elems: seq<Elem>, mounted: bool, tokens: multiset<nat>)
    requires !SomeDispatched(elems)
    requires forall e: nat :: tokens[e] == if e < |elems| && elems[e].mounted == mounted then 1 else 0
    ensures Conserved(MarkAll(elems, mounted), tokens)
  {
    hide MarkAll;
  }

  lemma DispatchKeeps(s: System, mounted: bool)
    requires Inv(s)
    ensures Inv(Dispatch(s, mounted).1)
  {
    hide Conserved, AllPending, AllSettled, AllGivenUp, AllTruthful, AllRecoverable, SomeDispatched;
    hide MarkAll, Copies, Indexes, Held, Lost, Unread;
    if !s.storage {
      CopiesInv(s.elems, s.table, s.zero, mounted);
      NoJobs(MarkAll(s.elems, mounted), s.table, {});
      TokensOfCopies(Copies(s.elems, mounted, 0));
    }
  }

  lemma TokensOfCopies(jobs: seq<Job>)
    ensures Tokens(Worker(First, jobs, [], []), []) == Held(jobs)
  {}

  /** The response at the head of the queue is the only trace of its element. */
  lemma ResponseApart(s: System)
    requires Conserved(s.elems, Tokens(s.worker, s.queue)) && s.queue != []
    ensures var h := s.queue[0].index;
            && h < |s.elems| && s.elems[h].dispatched
            && (forall i :: 0 <= i < |s.worker.todo| ==> s.worker.todo[i].index != h)
            && (forall i :: 0 <= i < |s.worker.kept| ==> s.worker.kept[i].index != h)
            && (forall i :: 0 <= i < |s.worker.lost| ==> s.worker.lost[i] != h)
            && (forall i :: 0 <= i < |s.queue[1..]| ==> s.queue[1..][i].index != h)
    ensures Tokens(s.worker, s.queue) == Tokens(s.worker, s.queue[1..]) + multiset{s.queue[0].index}
  {
    var k, h := s.worker, s.queue[0].index;
    HeldMembers(k.todo);
    HeldMembers(k.kept);
    LostMembers(k.lost);
    UnreadMembers(s.queue[1..]);
    assert Unread(s.queue) == multiset{h} + Unread(s.queue[1..]);
    assert h in Tokens(k, s.queue) && Tokens(k, s.queue)[h] <= 1;
    hide Held, Unread, Lost;
    assert h !in Held(k.todo) && h !in Held(k.kept) && h !in Lost(k.lost) && h !in Unread(s.queue[1..]);
  }

  /** Updating one element concerns only those who deal with it. */
  lemma UpdateElsewhere(jobs: seq<Job>, lost: seq<nat>, queue: seq<Response>, elems: seq<Elem>, table: seq<Stack>, h: nat, e: Elem)
    requires |table| == |elems| && h < |elems|
    requires forall i :: 0 <= i < |jobs| ==> jobs[i].index != h
    requires forall i :: 0 <= i < |lost| ==> lost[i] != h
    requires forall i :: 0 <= i < |queue| ==> queue[i].index != h
    ensures AllPending(jobs, elems, table) ==> AllPending(jobs, elems[h := e], table)
    ensures forall mended :: AllGivenUp(lost, elems, table, mended) ==> AllGivenUp(lost, elems[h := e], table, mended)
    ensures AllTruthful(queue, elems, table) ==> AllTruthful(queue, elems[h := e], table)
  {}

  /** The answered element itself: its flag now tells the outcome. */
  lemma DeliverSettles(elems: seq<Elem>, table: seq<Stack>, zero: Origin, r: Response, before: multiset<nat>, after: multiset<nat>)
    requires |table| == |elems| && AllSettled(elems, table, zero) && Truthful(r, elems, table)
    requires Conserved(elems, before) && before == after + multiset{r.index} && elems[r.index].dispatched
    ensures var elems1 := Deliver(elems, r);
            AllSettled(elems1, table, if r.index == 0 then ByAnswer else zero) && Conserved(elems1, after)
    ensures |Deliver(elems, r)| == |elems| && Deliver(elems, r) == elems[r.index := Deliver(elems, r)[r.index]]
  {}

  lemma DeliverKeeps(s: System)
    requires InvBut(s) && s.queue != []
    ensures InvBut(s.(queue := s.queue[1..], elems := Deliver(s.elems, s.queue[0]), zero := if s.queue[0].index == 0 then ByAnswer else s.zero))
  {
    var k, r, rest := s.worker, s.queue[0], s.queue[1..];
    var h, elems := r.index, Deliver(s.elems, s.queue[0]);
    ResponseApart(s);
    assert Truthful(r, s.elems, s.table);
    assert AllTruthful(rest, s.elems, s.table) by {
      assert forall i :: 0 <= i < |rest| ==> rest[i] == s.queue[i + 1];
    }
    DeliverSettles(s.elems, s.table, s.zero, r, Tokens(k, s.queue), Tokens(k, rest));
    hide Conserved, Tokens, AllSettled, Truthful, AllTruthful, AllPending, AllGivenUp, AllRecoverable, Indexes, Deliver;
    UpdateElsewhere(k.todo, k.lost, rest, s.elems, s.table, h, elems[h]);
    UpdateElsewhere(k.kept, Indexes(k.kept), [], s.elems, s.table, h, elems[h]);
  }

  lemma {:induction false} WithoutExact(lost: seq<nat>, x: nat)
    ensures forall e: nat :: Lost(Without(lost, x))[e] == if e == x then 0 else Lost(lost)[e]
    ensures forall e: nat :: e in Without(lost, x) <==> e in lost && e != x
  {
    if lost != [] {
      WithoutExact(lost[1..], x);
      var rest := Without(lost[1..], x);
      assert lost == [lost[0]] + lost[1..];
      if lost[0] == x {
        assert Without(lost, x) == [] + rest == rest;
      } else {
        assert Without(lost, x) == [lost[0]] + rest;
        assert Without(lost, x)[1..] == rest;
      }
    }
  }

  /** Reading end-of-file: element 0 counts as mounted from now on, whether or not it is. */
  lemma EndOfFileSettles(elems: seq<Elem>, table: seq<Stack>, zero: Origin, rightly: bool)
    requires |table| == |elems| > 0 && AllSettled(elems, table, zero) && (table[0] != [] <==> rightly)
    ensures var elems1 := Deliver(elems, ZEROED);
            |elems1| == |elems| && elems1 == elems[0 := elems1[0]] && AllSettled(elems1, table, ByEndOfFile(rightly))
  {}

  lemma EndOfFileConserves(elems: seq<Elem>, lost: seq<nat>)
    requires elems != [] && Conserved(elems, Lost(lost))
    ensures Conserved(Deliver(elems, ZEROED), Lost(Without(lost, 0)))
  {
    WithoutExact(lost, 0);
    hide Lost, Without;
  }

  lemma EndOfFileLost(elems: seq<Elem>, table: seq<Stack>, lost: seq<nat>, mended: set<nat>)
    requires |table| == |elems| > 0 && AllGivenUp(lost, elems, table, mended)
    ensures var elems1 := Deliver(elems, ZEROED); |elems1| == |elems| && AllGivenUp(Without(lost, 0), elems1, table, mended)
  {
    var elems1, lost1 := Deliver(elems, ZEROED), Without(lost, 0);
    WithoutExact(lost, 0);
    hide Lost, Without;
    forall i | 0 <= i < |lost1| ensures GivenUp(lost1[i], elems1, table, mended) {
      assert lost1[i] in lost1;
      var j :| 0 <= j < |lost| && lost[j] == lost1[i];
      assert GivenUp(lost[j], elems, table, mended);
    }
  }

  lemma EndedTokens(lost: seq<nat>)
    ensures forall mended :: Tokens(Worker(Ended, [], [], lost, mended), []) == Lost(lost)
  {}

  /** With the worker gone and nothing left to read, element 0 is given up or nobody deals with it; so much is known of its disk. */
  lemma ZeroKnown(s: System)
    requires InvBut(s) && s.queue == [] && s.worker.phase.Ended? && s.elems != []
    ensures s.table[0] != [] <==> Rightly(s)
  {
    EndedTokens(s.worker.lost);
    assert s.worker == Worker(Ended, [], [], s.worker.lost, s.worker.mended);
    hide Tokens, Lost;
    if 0 in s.worker.lost {
      var i :| 0 <= i < |s.worker.lost| && s.worker.lost[i] == 0;
      assert GivenUp(s.worker.lost[i], s.elems, s.table, s.worker.mended);
    } else {
      NotLost(s.worker.lost, 0);
      assert Settled(s.elems[0], s.table[0], OriginOf(s.zero, 0));
    }
  }

  lemma {:induction false} NotLost(lost: seq<nat>, x: nat)
    requires x !in lost
    ensures Lost(lost)[x] == 0
  {
    if lost != [] {
      NotLost(lost[1..], x);
    }
  }

  lemma EndOfFileKeeps(s: System)
    requires InvBut(s) && s.queue == [] && s.worker.phase.Ended? && s.elems != []
    ensures InvBut(s.(elems := Deliver(s.elems, ZEROED), zero := ByEndOfFile(Rightly(s)),
                      worker := s.worker.(lost := Without(s.worker.lost, 0))))
  {
    ZeroKnown(s);
    hide Tokens, Conserved, AllSettled, AllTruthful, AllPending, AllGivenUp, AllRecoverable, Indexes, Deliver, Without, Rightly;
    EndedTokens(s.worker.lost);
    EndedTokens(Without(s.worker.lost, 0));
    EndOfFileSettles(s.elems, s.table, s.zero, Rightly(s));
    EndOfFileConserves(s.elems, s.worker.lost);
    EndOfFileLost(s.elems, s.table, s.worker.lost, s.worker.mended);
    NoJobs(Deliver(s.elems, ZEROED), s.table, s.worker.mended);
  }

  lemma AssessKeeps(s: System)
    requires InvBut(s) && s.storage && s.elems != []
    ensures Inv(Assess(s).1)
  {
    if AllAnswered(s.elems) {
      NothingLeft(s);
    }
    hide Tokens, Conserved, WorkerInv, AllSettled, AllTruthful;
  }

  /** What one poll reads, before it is judged whether all are answered. */
  ghost function Read(s: System): System {
    var s1 := s.(w := Ask(s.w).1);
    if s.queue != [] then
      s1.(queue := s.queue[1..], elems := Deliver(s.elems, s.queue[0]), zero := if s.queue[0].index == 0 then ByAnswer else s.zero)
    else if s.worker.phase.Ended? then
      s1.(elems := Deliver(s.elems, ZEROED), zero := ByEndOfFile(Rightly(s)), worker := s.worker.(lost := Without(s.worker.lost, 0)))
    else s1
  }

  lemma PollIs(s: System)
    requires s.storage
    ensures var a := Ask(s.w).0;
            Poll(s) == if a == 1 then Assess(s.(w := Ask(s.w).1)) else if a == 2 then (-3, s.(w := Ask(s.w).1)) else Assess(Read(s))
  {
    hide Assess, Deliver, Without;
  }

  lemma ReadKeeps(s: System)
    requires InvBut(s) && s.elems != []
    ensures InvBut(Read(s)) && |Read(s).elems| == |s.elems| && Read(s).storage == s.storage
    ensures InvBut(s.(w := Ask(s.w).1))
  {
    var s1 := s.(w := Ask(s.w).1);
    assert InvBut(s1);
    hide InvBut, Deliver, Without;
    if s.queue != [] {
      DeliverKeeps(s1);
      DeliverLength(s.elems, s.queue[0]);
    } else if s.worker.phase.Ended? {
      EndOfFileKeeps(s1);
      DeliverLength(s.elems, ZEROED);
    }
  }

  lemma PollKeeps(s: System)
    requires Inv(s)
    ensures Inv(Poll(s).1)
  {
    hide InvBut, Assess, Read, Poll;
    if s.storage {
      PollIs(s);
      ReadKeeps(s);
      assert s.elems != [];
      AssessKeeps(s.(w := Ask(s.w).1));
      AssessKeeps(Read(s));
    } else {
      PollWithoutStorage(s);
    }
  }

  lemma PollWithoutStorage(s: System)
    requires !s.storage
    ensures Poll(s) == (-1, s)
  {}

  lemma DeliverLength(elems: seq<Elem>, r: Response)
    ensures |Deliver(elems, r)| == |elems|
  {}

  lemma StepKeeps(s: System, a: Action)
    requires Inv(s)
    ensures Inv(Step(s, a))
  {
    hide Inv, Dispatch, Poll, Work;
    DispatchKeeps(s, false);
    DispatchKeeps(s, true);
    PollKeeps(s);
    WorkKeeps(s);
  }

  lemma {:induction false} StepsKeep(s: System, acts: seq<Action>)
    requires Inv(s)
    ensures Inv(Steps(s, acts))
    decreases acts
  {
    if acts != [] {
      StepKeeps(s, acts[0]);
      StepsKeep(Step(s, acts[0]), acts[1..]);
    }
  }

  lemma InitialInv(s: System)
    requires Initial(s)
    ensures Inv(s)
  {}
}
