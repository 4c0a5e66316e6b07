/**
 The per-guest delayed bind mounts (src/container-control-exec.c): the configured entries, and the
 run-time list of those still to be mounted into the running guest, as positions in the configuration.
 */
module DelayedMounts {
  import opened Host

  datatype Entry = Entry(from: string, to: string, delayed: bool)

  datatype Delivery = Delivery(runtime: seq<nat>, delivered: seq<nat>, w: World)

  function AllPositions(n: nat): (r: seq<nat>)
    ensures |r| == n && forall i :: 0 <= i < n ==> r[i] == i
  {
    if n == 0 then [] else AllPositions(n - 1) + [n - 1]
  }

  ghost predicate InRange(entries: seq<Entry>, runtime: seq<nat>) {
    forall k :: 0 <= k < |runtime| ==> runtime[k] < |entries|
  }

  /** Is the entry due: does the source exist by now, and does the guest accept the mount? */
  function Attempt(lxc: bool, w: World): (bool, World) {
    var (found, w1) := Try(w);
    if !found || !lxc then (false, w1) else Try(w1)
  }

  /** One walk over the run-time list from element `k` on; `delivered` logs the mounts made. */
  function DeliverFrom(entries: seq<Entry>, runtime: seq<nat>, k: nat, delivered: seq<nat>, lxc: bool, w: World): Delivery
    requires k <= |runtime|
    decreases |runtime| - k
  {
    if k == |runtime| then Delivery(runtime, delivered, w)
    else
      var e := runtime[k];
      var rest := runtime[..k] + runtime[k + 1..];
      if e >= |entries| || !entries[e].delayed then DeliverFrom(entries, rest, k, delivered, lxc, w)
      else
        var (ok, w1) := Attempt(lxc, w);
        if ok then DeliverFrom(entries, rest, k, delivered + [e], lxc, w1)
        else DeliverFrom(entries, runtime, k + 1, delivered, lxc, w1)
  }

  ghost predicate Increasing(s: seq<nat>) {
    forall i, j :: 0 <= i < j < |s| ==> s[i] < s[j]
  }

  ghost predicate NoDuplicates(s: seq<nat>) {
    forall i, j :: 0 <= i < j < |s| ==> s[i] != s[j]
  }

  /**
   Every configured delayed entry is either still on the run-time list or has been mounted, once; the
   list keeps the configured order.
   */
  ghost predicate Accounted(entries: seq<Entry>, runtime: seq<nat>, delivered: seq<nat>) {
    && InRange(entries, runtime) && Increasing(runtime) && NoDuplicates(delivered)
    && (forall e: nat :: e in delivered ==> e < |entries| && entries[e].delayed && e !in runtime)
    && (forall e :: 0 <= e < |entries| && entries[e].delayed ==> e in runtime || e in delivered)
  }

  lemma RemovedElement(s: seq<nat>, k: nat)
    requires Increasing(s) && k < |s|
    ensures var r := s[..k] + s[k + 1..];
            Increasing(r) && forall e: nat :: e in r <==> e in s && e != s[k]
  {
    var r := s[..k] + s[k + 1..];
    forall e: nat ensures e in r <==> e in s && e != s[k] {
      if e in s && e != s[k] {
        var i :| 0 <= i < |s| && s[i] == e;
        assert r[if i < k then i else i - 1] == e;
      }
    }
  }

  lemma {:induction false} DeliverAccounted(entries: seq<Entry>, runtime: seq<nat>, k: nat, delivered: seq<nat>, lxc: bool, w: World)
    requires k <= |runtime| && Accounted(entries, runtime, delivered)
    ensures var r := DeliverFrom(entries, runtime, k, delivered, lxc, w);
            Accounted(entries, r.runtime, r.delivered) && delivered <= r.delivered && Later(w, r.w)
    decreases |runtime| - k
  {
    if k < |runtime| {
      var e := runtime[k];
      var rest := runtime[..k] + runtime[k + 1..];
      RemovedElement(runtime, k);
      if !entries[e].delayed {
        DeliverAccounted(entries, rest, k, delivered, lxc, w);
      } else {
        var (ok, w1) := Attempt(lxc, w);
        if ok {
          DeliverAccounted(entries, rest, k, delivered + [e], lxc, w1);
        } else {
          DeliverAccounted(entries, runtime, k + 1, delivered, lxc, w1);
        }
      }
    }
  }

  /** What a walk leaves pending or has mounted was pending before, and elements it has passed stay. */
  lemma {:induction false} DeliverWithin(entries: seq<Entry>, runtime: seq<nat>, k: nat, delivered: seq<nat>, lxc: bool, w: World)
    requires k <= |runtime|
    ensures var r := DeliverFrom(entries, runtime, k, delivered, lxc, w);
            && (forall e :: e in r.runtime ==> e in runtime) && (forall e :: e in r.delivered ==> e in delivered || e in runtime)
            && runtime[..k] <= r.runtime
    decreases |runtime| - k
  {
    if k < |runtime| {
      var e := runtime[k];
      var rest := runtime[..k] + runtime[k + 1..];
      assert rest[..k] == runtime[..k] && runtime[..k] <= runtime[..k + 1];
      var (ok, w1) := Attempt(lxc, w);
      hide Attempt;
      if e >= |entries| || !entries[e].delayed {
        DeliverWithin(entries, rest, k, delivered, lxc, w);
      } else if ok {
        DeliverWithin(entries, rest, k, delivered + [e], lxc, w1);
      } else {
        DeliverWithin(entries, runtime, k + 1, delivered, lxc, w1);
      }
    }
  }

  /** When its turn comes: the source is there, an instance is held, and the guest takes the mount. */
  predicate Mounts(lxc: bool, w: World) {
    Try(w).0 && lxc && Try(Try(w).1).0
  }

  /**
   The turn of each pending entry comes once in a walk: it is mounted and leaves the list exactly when its source exists
   and the guest takes it; an entry that is not a delayed one just leaves.
   */
  lemma {:induction false} DeliverOutcome(entries: seq<Entry>, runtime: seq<nat>, k: nat, delivered: seq<nat>, lxc: bool, w: World, m: nat)
      returns (turn: World)
    requires k <= m < |runtime| && Accounted(entries, runtime, delivered)
    ensures var r, e := DeliverFrom(entries, runtime, k, delivered, lxc, w), runtime[m];
            && Later(w, turn)
            && (e in r.delivered <==> entries[e].delayed && Mounts(lxc, turn))
            && (e in r.runtime <==> entries[e].delayed && !Mounts(lxc, turn))
    decreases |runtime| - k
  {
    hide Attempt, Accounted, Mounts, DeliverFrom;
    turn := w;
    if k == m {
      DeliverHere(entries, runtime, k, delivered, lxc, w);
    } else {
      var e := runtime[k];
      var rest := Dropped(runtime, k);
      var (ok, w1) := Attempt(lxc, w);
      NextAccounted(entries, runtime, k, delivered);
      AttemptIs(lxc, w);
      DeliverNext(entries, runtime, k, delivered, lxc, w);
      if !entries[e].delayed {
        turn := DeliverOutcome(entries, rest, k, delivered, lxc, w, m - 1);
      } else if ok {
        turn := DeliverOutcome(entries, rest, k, delivered + [e], lxc, w1, m - 1);
      } else {
        turn := DeliverOutcome(entries, runtime, k + 1, delivered, lxc, w1, m);
      }
    }
  }

  function Dropped(s: seq<nat>, k: nat): (r: seq<nat>)
    requires k < |s|
    ensures |r| == |s| - 1 && forall i :: 0 <= i < |r| ==> r[i] == if i < k then s[i] else s[i + 1]
  {
    s[..k] + s[k + 1..]
  }

  lemma DeliverNext(entries: seq<Entry>, runtime: seq<nat>, k: nat, delivered: seq<nat>, lxc: bool, w: World)
    requires k < |runtime| && runtime[k] < |entries|
    ensures var e, rest, (ok, w1) := runtime[k], Dropped(runtime, k), Attempt(lxc, w);
            DeliverFrom(entries, runtime, k, delivered, lxc, w)
            == if !entries[e].delayed then DeliverFrom(entries, rest, k, delivered, lxc, w)
               else if ok then DeliverFrom(entries, rest, k, delivered + [e], lxc, w1)
               else DeliverFrom(entries, runtime, k + 1, delivered, lxc, w1)
  {
    hide Attempt;
  }

  lemma AttemptIs(lxc: bool, w: World)
    ensures Attempt(lxc, w).0 == Mounts(lxc, w) && Later(w, Attempt(lxc, w).1)
  {}

  lemma NextAccounted(entries: seq<Entry>, runtime: seq<nat>, k: nat, delivered: seq<nat>)
    requires k < |runtime| && Accounted(entries, runtime, delivered)
    ensures var e, rest := runtime[k], Dropped(runtime, k);
            && e < |entries|
            && (!entries[e].delayed ==> Accounted(entries, rest, delivered))
            && (entries[e].delayed ==> Accounted(entries, rest, delivered + [e]))
  {
    RemovedElement(runtime, k);
  }

  /** The entry whose turn it is. */
  lemma DeliverHere(entries: seq<Entry>, runtime: seq<nat>, k: nat, delivered: seq<nat>, lxc: bool, w: World)
    requires k < |runtime| && Accounted(entries, runtime, delivered)
    ensures var r, e := DeliverFrom(entries, runtime, k, delivered, lxc, w), runtime[k];
            && (e in r.delivered <==> entries[e].delayed && Mounts(lxc, w))
            && (e in r.runtime <==> entries[e].delayed && !Mounts(lxc, w))
  {
    var e := runtime[k];
    var rest := runtime[..k] + runtime[k + 1..];
    var (ok, w1) := Attempt(lxc, w);
    AttemptIs(lxc, w);
    NextAccounted(entries, runtime, k, delivered);
    RemovedElement(runtime, k);
    assert e in runtime && e !in delivered && e !in rest;
    hide Attempt, Mounts;
    if !entries[e].delayed {
      DeliverWithin(entries, rest, k, delivered, lxc, w);
    } else if ok {
      DeliverWithin(entries, rest, k, delivered + [e], lxc, w1);
      DeliverAccounted(entries, rest, k, delivered + [e], lxc, w1);
      assert (delivered + [e])[|delivered|] == e;
    } else {
      DeliverWithin(entries, runtime, k + 1, delivered, lxc, w1);
      DeliverAccounted(entries, runtime, k + 1, delivered, lxc, w1);
      assert runtime[..k + 1][k] == e;
    }
  }

  /** The order in which entries remain is forced: the list is the configuration minus what was mounted or dropped. */
  ghost function Remaining(n: nat, gone: iset<nat>): seq<nat> {
    if n == 0 then [] else Remaining(n - 1, gone) + if n - 1 in gone then [] else [n - 1]
  }

  lemma {:induction false} RemainingMembers(n: nat, gone: iset<nat>)
    ensures Increasing(Remaining(n, gone))
    ensures forall e: nat :: e in Remaining(n, gone) <==> e < n && e !in gone
  {
    if n > 0 {
      RemainingMembers(n - 1, gone);
      var before := Remaining(n - 1, gone);
      assert forall k :: 0 <= k < |before| ==> before[k] in before;
      if n - 1 in gone {
        assert Remaining(n, gone) == before + [] == before;
      } else {
        assert Remaining(n, gone) == before + [(n - 1) as nat];
      }
    }
  }

  lemma MembersButLast(s: seq<nat>)
    requires Increasing(s) && s != []
    ensures forall e: nat :: e in s[..|s| - 1] <==> e in s && e < s[|s| - 1]
    ensures forall e: nat :: e in s ==> e <= s[|s| - 1]
  {
    assert s == s[..|s| - 1] + [s[|s| - 1]];
  }

  lemma {:induction false} IncreasingUnique(a: seq<nat>, b: seq<nat>)
    requires Increasing(a) && Increasing(b) && forall e: nat :: e in a <==> e in b
    ensures a == b
    decreases |a|
  {
    assert |b| > 0 ==> b[0] in b;
    if a != [] {
      assert a[0] in b;
      MembersButLast(a);
      MembersButLast(b);
      assert a[|a| - 1] in b && b[|b| - 1] in a;
      assert a[|a| - 1] == b[|b| - 1];
      var a', b' := a[..|a| - 1], b[..|b| - 1];
      forall e: nat ensures e in a' <==> e in b' {
        assert e in a <==> e in b;
      }
      IncreasingUnique(a', b');
      assert a == a[..|a| - 1] + [a[|a| - 1]] && b == b[..|b| - 1] + [b[|b| - 1]];
    }
  }

  /** With only delayed entries configured, the run-time list is the configured list minus the entries mounted so far. */
  lemma RuntimeIsInitialMinusDelivered(entries: seq<Entry>, runtime: seq<nat>, delivered: seq<nat>)
    requires Accounted(entries, runtime, delivered) && forall i :: 0 <= i < |entries| ==> entries[i].delayed
    ensures runtime == Remaining(|entries|, iset e: nat | e in delivered)
  {
    RemainingMembers(|entries|, iset e: nat | e in delivered);
    IncreasingUnique(runtime, Remaining(|entries|, iset e: nat | e in delivered));
  }
}
