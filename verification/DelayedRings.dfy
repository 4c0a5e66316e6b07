/**
 The delayed bind mounts as they are stored (src/container-control-exec.c): every configured element sits
 on two rings at once, the configured list and the run-time list.  The run-time list is rebuilt at every
 launch by re-initialising heads and links without unlinking anything first, so links of the previous
 run are stale; the operations below still refine those on lists of positions in module DelayedMounts.
 */
module DelayedRings {
  import opened Host
  import opened Ring
  import opened DelayedMounts

  /** The elements' positions in the configuration, in ring order. */
  ghost function Positions(nodes: seq<Node>): (r: seq<nat>)
    ensures |r| == |nodes| && forall i :: 0 <= i < |nodes| ==> r[i] == nodes[i].entry
  {
    if nodes == [] then [] else [nodes[0].entry] + Positions(nodes[1..])
  }

  lemma PositionsOf(nodes: seq<Node>, r: seq<nat>)
    requires |r| == |nodes| && forall i :: 0 <= i < |nodes| ==> r[i] == nodes[i].entry
    ensures Positions(nodes) == r
  {}

  lemma LinksApart(initialList: Node, initialNodes: seq<Node>, runtimeList: Node, runtimeNodes: seq<Node>)
    requires Distinct([initialList] + initialNodes + [runtimeList] + runtimeNodes)
    ensures Distinct(initialNodes) && Distinct(runtimeNodes) && Distinct([])
    ensures initialList !in initialNodes && runtimeList !in runtimeNodes
    ensures runtimeList != initialList && runtimeList !in initialNodes && initialList !in runtimeNodes
    ensures forall i, j :: 0 <= i < |runtimeNodes| && 0 <= j < |initialNodes| ==> runtimeNodes[i] != initialNodes[j]
  {
    var all, n := [initialList] + initialNodes + [runtimeList] + runtimeNodes, |initialNodes|;
    assert all[0] == initialList && all[n + 1] == runtimeList;
    assert forall i :: 0 <= i < n ==> initialNodes[i] == all[i + 1];
    assert forall i :: 0 <= i < |runtimeNodes| ==> runtimeNodes[i] == all[n + 2 + i];
  }

  lemma OnlyHead(list: Node)
    requires IsRing([list])
    ensures Positions([list][1..]) == []
  {}

  method LinkAll(list: Node, links: seq<Node>)
    requires Distinct(links) && list !in links
    modifies list, links
    ensures IsRing([list] + links)
  {
    Init(list);
    for k := 0 to |links|
      invariant IsRing([list] + links[..k])
    {
      ghost var ring := [list] + links[..k];
      AddTail(list, links[k], ring);
      assert [list] + links[..k + 1] == ring + [links[k]];
    }
    assert links[..|links|] == links;
  }

  /** An element's link, whatever it holds from an earlier run, goes to the end of the list. */
  method Relink(list: Node, link: Node, ghost ring: seq<Node>)
    requires IsRing(ring) && ring[0] == list && link !in ring
    modifies ring, link
    ensures IsRing(ring + [link])
  {
    Init(link);
    AddTail(list, link, ring);
  }

  lemma DeliverDone(entries: seq<Entry>, runtime: seq<nat>, delivered: seq<nat>, lxc: bool, w: World)
    ensures DeliverFrom(entries, runtime, |runtime|, delivered, lxc, w) == Delivery(runtime, delivered, w)
  {}

  class DelayedOperation {
    const entries: seq<Entry>
    const initialList: Node
    const runtimeList: Node
    const initialNodes: seq<Node>
    const runtimeNodes: seq<Node>
    ghost var ring: seq<Node>

    ghost predicate Configured()
      reads this, initialList, initialNodes
    {
      && |initialNodes| == |runtimeNodes| == |entries|
      && IsRing([initialList] + initialNodes)
      && (forall i :: 0 <= i < |entries| ==> initialNodes[i].entry == runtimeNodes[i].entry == i)
      && Distinct(runtimeNodes)
      && runtimeList !in runtimeNodes
      && runtimeList != initialList && runtimeList !in initialNodes && initialList !in runtimeNodes
      && (forall i, j :: 0 <= i < |entries| && 0 <= j < |entries| ==> runtimeNodes[i] != initialNodes[j])
    }

    ghost predicate Valid()
      reads this, initialList, initialNodes, runtimeList, runtimeNodes, ring
    {
      Configured() && Queued()
    }

    ghost predicate Queued()
      reads this, ring
    {
      && ring != [] && ring[0] == runtimeList && IsRing(ring)
      && (forall i :: 1 <= i < |ring| ==> ring[i] in runtimeNodes && ring[i].entry < |entries|)
    }

    ghost function Pending(): seq<nat>
      requires ring != []
      reads this
    {
      Positions(ring[1..])
    }

    /** As read from the configuration, whose elements bring their links along: all on the configured list, none pending. */
    constructor (entries: seq<Entry>, initialList: Node, runtimeList: Node, initialNodes: seq<Node>, runtimeNodes: seq<Node>)
      requires |initialNodes| == |runtimeNodes| == |entries|
      requires forall i :: 0 <= i < |entries| ==> initialNodes[i].entry == runtimeNodes[i].entry == i
      requires Distinct([initialList] + initialNodes + [runtimeList] + runtimeNodes)
      modifies initialList, initialNodes, runtimeList
      ensures Valid() && this.entries == entries && Pending() == []
    {
      LinksApart(initialList, initialNodes, runtimeList, runtimeNodes);
      this.entries := entries;
      this.initialList, this.runtimeList, this.initialNodes, this.runtimeNodes := initialList, runtimeList, initialNodes, runtimeNodes;
      ring := [runtimeList];
      new;
      hide Distinct, IsRing, Positions;
      LinkAll(runtimeList, []);
      LinkAll(initialList, initialNodes);
      assert [runtimeList] + [] == ring;
      OnlyHead(runtimeList);
    }

    /** The element behind the `k` first ones of the configured list. */
    lemma NextConfigured(k: nat)
      requires Configured() && k <= |entries|
      ensures var next := if k == |entries| then initialList else initialNodes[k];
              (if k == 0 then initialList else initialNodes[k - 1]).next == next && (k < |entries| ==> next != initialList)
      ensures |initialNodes| == |runtimeNodes| == |entries| && (k < |entries| ==> initialNodes[k].entry == k)
      ensures k < |entries| ==> runtimeNodes[k] !in [runtimeList] + runtimeNodes[..k]
      ensures runtimeList !in initialNodes && runtimeList != initialList
      ensures forall i :: 0 <= i < |initialNodes| ==> initialNodes[i] !in runtimeNodes
      ensures initialList !in runtimeNodes
    {
      NextOf([initialList] + initialNodes, k);
    }

    /** The walk over the configured list, putting every element behind those already pending. */
    method EnqueueAll()
      requires Configured() && IsRing([runtimeList])
      modifies runtimeList, runtimeNodes
      ensures IsRing([runtimeList] + runtimeNodes) && Configured()
    {
      hide *;
      NextConfigured(0);
      assert runtimeNodes[..0] == [] && [runtimeList] + [] == [runtimeList];
      var item: Node := initialList.next;
      ghost var k := 0;
      while item != initialList
        invariant k <= |entries| == |initialNodes| == |runtimeNodes|
        invariant item == if k == |entries| then initialList else initialNodes[k]
        invariant IsRing([runtimeList] + runtimeNodes[..k])
        invariant Configured()
        decreases |entries| - k
      {
        NextConfigured(k);
        var link := runtimeNodes[item.entry];
        Relink(runtimeList, link, [runtimeList] + runtimeNodes[..k]);
        assert [runtimeList] + runtimeNodes[..k + 1] == [runtimeList] + runtimeNodes[..k] + [link];
        k := k + 1;
        NextConfigured(k);
        item := item.next;
      }
      if k < |entries| { NextConfigured(k); }
      assert runtimeNodes[..k] == runtimeNodes;
    }

    /** container_setup_delayed_operation: whatever the links held before, the whole configuration is pending again. */
    method Setup()
      requires Configured()
      modifies this`ring, runtimeList, runtimeNodes
      ensures Valid() && Pending() == AllPositions(|entries|)
    {
      NextConfigured(0);
      hide *;
      Init(runtimeList);
      EnqueueAll();
      ring := [runtimeList] + runtimeNodes;
      AllPending();
    }

    lemma AllPending()
      requires Configured() && ring == [runtimeList] + runtimeNodes && IsRing(ring)
      ensures Valid() && Pending() == AllPositions(|entries|)
    {
      hide IsRing;
      PositionsOf(ring[1..], AllPositions(|entries|));
    }

    /** Positions of the list without its `k`-th node. */
    lemma PendingRemoved(before: seq<Node>, k: nat)
      requires 1 <= k < |before|
      ensures var p := Positions(before[1..]);
              Positions(Removed(before, k)[1..]) == p[..k - 1] + p[k..]
    {
      var p := Positions(before[1..]);
      PositionsOf(Removed(before, k)[1..], p[..k - 1] + p[k..]);
    }

    lemma MembersStay(before: seq<Node>, k: nat)
      requires 1 <= k < |before| && forall i :: 1 <= i < |before| ==> before[i] in runtimeNodes && before[i].entry < |entries|
      ensures var after := Removed(before, k);
              forall i :: 1 <= i < |after| ==> after[i] in runtimeNodes && after[i].entry < |entries|
    {}

    /** The element behind `link` is not disturbed by taking `link` off the run-time list. */
    method Drop(link: Node, drop: bool, ghost k: nat) returns (ghost next: nat)
      requires Queued() && 1 <= k < |ring| && ring[k] == link
      modifies this`ring, runtimeList, runtimeNodes
      ensures Queued() && k <= next <= |ring| && next == if drop then k else k + 1
      ensures ring == if drop then Removed(old(ring), k) else old(ring)
      ensures |ring| == if drop then |old(ring)| - 1 else |old(ring)|
      ensures old(link.next) == At(ring, next) && At(ring, next).next != null
    {
      MembersStay(ring, k);
      NextOf(ring, k);
      WithoutNode(ring, k);
      hide IsRing, Removed;
      ghost var before := ring;
      if drop {
        Del(link, ring, k);
        Init(link);
        ring, next := Removed(before, k), k;
      } else {
        next := k + 1;
      }
      NextOf(ring, if next == |ring| then 0 else next);
    }

    lemma WithoutNode(before: seq<Node>, k: nat)
      requires IsRing(before) && 1 <= k < |before|
      ensures var after := Removed(before, k);
              && |after| == |before| - 1 && after[0] == before[0] && before[k] !in after
              && At(after, k) == At(before, k + 1)
    {}

    /** Is the element to leave the list, and has it been mounted? */
    method Consider(e: nat, lxc: bool, kernel: Kernel) returns (drop: bool)
      requires e < |entries|
      modifies kernel
      ensures !entries[e].delayed ==> drop && kernel.w == old(kernel.w)
      ensures entries[e].delayed ==> (drop, kernel.w) == Attempt(lxc, old(kernel.w))
    {
      if !entries[e].delayed {
        return true;
      }
      var found := kernel.CallOk();
      drop := false;
      if found && lxc {
        drop := kernel.CallOk();
      }
    }

    /** One step of DeliverFrom, by what Consider found out. */
    lemma DeliverStep(p: seq<nat>, i: nat, delivered: seq<nat>, lxc: bool, w: World, drop: bool, w1: World)
      requires i < |p| && p[i] < |entries|
      requires if entries[p[i]].delayed then (drop, w1) == Attempt(lxc, w) else drop && w1 == w
      ensures var made := if drop && entries[p[i]].delayed then delivered + [p[i]] else delivered;
              var p1 := if drop then p[..i] + p[i + 1..] else p;
              var i1 := if drop then i else i + 1;
              DeliverFrom(entries, p1, i1, made, lxc, w1) == DeliverFrom(entries, p, i, delivered, lxc, w)
    {}

    lemma QueuedAt(k: nat)
      requires Queued() && 1 <= k <= |ring|
      ensures k < |ring| ==> ring[k].entry < |entries| && Pending()[k - 1] == ring[k].entry
      ensures At(ring, k) == runtimeList <==> k == |ring|
      ensures |Pending()| == |ring| - 1 && ring[0].next == At(ring, 1) && At(ring, k).next != null
    {}

    /** One element considered for mounting, as DeliverFrom does at its position. */
    method Turn(link: Node, lxc: bool, kernel: Kernel, ghost k: nat, ghost delivered: seq<nat>)
        returns (ghost next: nat, ghost made: seq<nat>)
      requires Queued() && 1 <= k < |ring| && ring[k] == link
      modifies this`ring, runtimeList, runtimeNodes, kernel
      ensures Queued() && 1 <= next <= |ring| && |ring| - next < |old(ring)| - k
      ensures old(link.next) == At(ring, next) && At(ring, next).next != null
      ensures DeliverFrom(entries, Pending(), next - 1, made, lxc, kernel.w)
              == DeliverFrom(entries, old(Pending()), k - 1, delivered, lxc, old(kernel.w))
    {
      QueuedAt(k);
      ghost var before, w := ring, kernel.w;
      hide IsRing, Distinct, Removed, DeliverFrom, Attempt, Positions, At;
      var drop := Consider(link.entry, lxc, kernel);
      next := Drop(link, drop, k);
      made := if drop && entries[link.entry].delayed then delivered + [link.entry] else delivered;
      TurnDelivers(before, k, delivered, lxc, w, drop, kernel.w, next, made);
    }

    /** What Consider found out and Drop did is one step of DeliverFrom. */
    lemma TurnDelivers(before: seq<Node>, k: nat, delivered: seq<nat>, lxc: bool, w: World, drop: bool, w1: World,
                       next: nat, made: seq<nat>)
      requires 1 <= k < |before| && before[k].entry < |entries|
      requires var e := before[k].entry; if entries[e].delayed then (drop, w1) == Attempt(lxc, w) else drop && w1 == w
      requires ring == (if drop then Removed(before, k) else before) && next == if drop then k else k + 1
      requires made == if drop && entries[before[k].entry].delayed then delivered + [before[k].entry] else delivered
      ensures |Pending()| >= next - 1
      ensures DeliverFrom(entries, Pending(), next - 1, made, lxc, w1)
              == DeliverFrom(entries, Positions(before[1..]), k - 1, delivered, lxc, w)
    {
      PendingRemoved(before, k);
      hide Attempt, DeliverFrom;
      DeliverStep(Positions(before[1..]), k - 1, delivered, lxc, w, drop, w1);
    }

    /** The walk itself, from the first element on. */
    method Walk(lxc: bool, kernel: Kernel) returns (ghost delivered: seq<nat>)
      requires Queued()
      modifies this`ring, runtimeList, runtimeNodes, kernel
      ensures Queued()
      ensures Delivery(Pending(), delivered, kernel.w) == DeliverFrom(entries, old(Pending()), 0, [], lxc, old(kernel.w))
    {
      QueuedAt(1);
      assert ring != [] && ring[0] == runtimeList;
      hide Queued, IsRing, DeliverFrom, Positions;
      delivered := [];
      var link: Node := runtimeList.next;
      var n: Node := link.next;
      ghost var k := 1;
      while link != runtimeList
        invariant 1 <= k <= |ring| && Queued() && link == At(ring, k) && n == link.next
        invariant |Pending()| == |ring| - 1
        invariant DeliverFrom(entries, Pending(), k - 1, delivered, lxc, kernel.w)
                  == DeliverFrom(entries, old(Pending()), 0, [], lxc, old(kernel.w))
        decreases |ring| - k
      {
        QueuedAt(k);
        k, delivered := Turn(link, lxc, kernel, k, delivered);
        QueuedAt(k);
        link := n;
        n := n.next;
      }
      QueuedAt(k);
      DeliverDone(entries, Pending(), delivered, lxc, kernel.w);
    }

    /** container_do_delayed_operation for a started guest. */
    method Do(lxc: bool, kernel: Kernel) returns (ghost delivered: seq<nat>)
      requires Valid()
      modifies this`ring, runtimeList, runtimeNodes, kernel
      ensures Valid()
      ensures Delivery(Pending(), delivered, kernel.w) == DeliverFrom(entries, old(Pending()), 0, [], lxc, old(kernel.w))
    {
      delivered := [];
      var empty := Empty(runtimeList, ring);
      if !empty {
        delivered := Walk(lxc, kernel);
      }
    }

    /** container_cleanup_delayed_operation. */
    method Cleanup()
      requires Configured()
      modifies this`ring, runtimeList
      ensures Valid() && Pending() == []
    {
      Init(runtimeList);
      ring := [runtimeList];
    }
  }
}
