/**
 3rdparty/wpa-supplicant/list.h: circular doubly linked lists threaded through the elements.  A list
 is its head node followed by the nodes of its elements; the operations refine operations on that
 sequence, and the sequence stays a consistent ring in both directions.
 */
module Ring {

  /** A link embedded in an element; `entry` tells which element (dl_list_entry). */
  class Node {
    const entry: nat
    var next: Node?
    var prev: Node?

    /** A node of an element not on any list yet. */
    constructor (entry: nat)
      ensures this.entry == entry && next == prev == null
    {
      this.entry := entry;
      next, prev := null, null;
    }
  }

  ghost predicate Distinct(ring: seq<Node>) {
    forall i, j :: 0 <= i < j < |ring| ==> ring[i] != ring[j]
  }

  /** The nodes of `ring` form a list whose head is the first of them. */
  ghost predicate IsRing(ring: seq<Node>)
    reads ring
  {
    && ring != [] && Distinct(ring)
    && (forall i {:trigger ring[i].next} :: 0 <= i < |ring| - 1 ==> ring[i].next == ring[i + 1])
    && ring[|ring| - 1].next == ring[0]
    && (forall i {:trigger ring[i].prev} :: 1 <= i < |ring| ==> ring[i].prev == ring[i - 1])
    && ring[0].prev == ring[|ring| - 1]
  }

  /** Following `next` from a position leads to the following one, or back to the head. */
  lemma NextOf(ring: seq<Node>, k: nat)
    requires IsRing(ring) && k < |ring|
    ensures ring[k].next == if k == |ring| - 1 then ring[0] else ring[k + 1]
    ensures k > 0 ==> ring[k] != ring[0]
  {}

  function Removed<T>(s: seq<T>, k: nat): seq<T>
    requires k < |s|
  {
    s[..k] + s[k + 1..]
  }

  lemma InsertedAt(ring: seq<Node>, item: Node, k: nat)
    requires Distinct(ring) && k < |ring| && item !in ring
    ensures var after := ring[..k + 1] + [item] + ring[k + 1..];
            && Distinct(after) && |after| == |ring| + 1
            && (forall i :: 0 <= i < |after| ==> after[i] == if i <= k then ring[i] else if i == k + 1 then item else ring[i - 1])
  {}

  lemma RemovedAt(ring: seq<Node>, k: nat)
    requires Distinct(ring) && 1 <= k < |ring|
    ensures var after := Removed(ring, k);
            && Distinct(after) && |after| == |ring| - 1
            && (forall i :: 0 <= i < |after| ==> after[i] == if i < k then ring[i] else ring[i + 1])
  {}

  method Init(list: Node)
    modifies list
    ensures IsRing([list])
  {
    list.next := list;
    list.prev := list;
  }

  /** dl_list_add: links `item` behind the node at position `k` (behind the head for k == 0). */
  method Add(list: Node, item: Node, ghost ring: seq<Node>, ghost k: nat)
    requires IsRing(ring) && k < |ring| && ring[k] == list && item !in ring
    modifies ring, item
    ensures IsRing(ring[..k + 1] + [item] + ring[k + 1..])
  {
    ghost var after := ring[..k + 1] + [item] + ring[k + 1..];
    ghost var n := if k == |ring| - 1 then 0 else k + 1;
    assert list.next == ring[n];
    item.next := list.next;
    item.prev := list;
    list.next.prev := item;
    list.next := item;
    assert forall i {:trigger ring[i].next} :: 0 <= i < |ring| && i != k ==> ring[i].next == old(ring[i].next);
    assert forall i {:trigger ring[i].prev} :: 0 <= i < |ring| && i != n ==> ring[i].prev == old(ring[i].prev);
    InsertedAt(ring, item, k);
    hide Distinct;
    forall i | 0 <= i < |after| - 1 ensures var node: Node := after[i]; node.next == after[i + 1] {
      if i < k {
        assert ring[i].next == ring[i + 1];
      } else if i > k + 1 {
        assert ring[i - 1].next == ring[i];
      }
    }
    forall i | 1 <= i < |after| ensures var node: Node := after[i]; node.prev == after[i - 1] {
      if i <= k {
        assert ring[i].prev == ring[i - 1];
      } else if i > k + 2 {
        assert ring[i - 1].prev == ring[i - 2];
      }
    }
  }

  /** dl_list_add_tail on a list head. */
  method AddTail(list: Node, item: Node, ghost ring: seq<Node>)
    requires IsRing(ring) && ring[0] == list && item !in ring
    modifies ring, item
    ensures IsRing(ring + [item])
  {
    ghost var k := |ring| - 1;
    assert ring[..k + 1] + [item] + ring[k + 1..] == ring + [item];
    Add(list.prev, item, ring, k);
  }

  /** dl_list_del of the element at position `k`. */
  method Del(item: Node, ghost ring: seq<Node>, ghost k: nat)
    requires IsRing(ring) && 1 <= k < |ring| && ring[k] == item
    modifies ring
    ensures IsRing(Removed(ring, k)) && item.next == item.prev == null
  {
    ghost var after := Removed(ring, k);
    ghost var n := if k == |ring| - 1 then 0 else k + 1;
    assert item.next == ring[n] && item.prev == ring[k - 1];
    item.next.prev := item.prev;
    item.prev.next := item.next;
    item.next := null;
    item.prev := null;
    assert forall i {:trigger ring[i].next} :: 0 <= i < |ring| && i != k - 1 && i != k ==> ring[i].next == old(ring[i].next);
    assert forall i {:trigger ring[i].prev} :: 0 <= i < |ring| && i != n && i != k ==> ring[i].prev == old(ring[i].prev);
    RemovedAt(ring, k);
    hide Distinct, Removed;
    forall i | 0 <= i < |after| - 1 ensures var node: Node := after[i]; node.next == after[i + 1] {
      if i < k - 1 {
        assert ring[i].next == ring[i + 1];
      } else if i >= k {
        assert ring[i + 1].next == ring[i + 2];
      }
    }
    forall i | 1 <= i < |after| ensures var node: Node := after[i]; node.prev == after[i - 1] {
      if i < k {
        assert ring[i].prev == ring[i - 1];
      } else if i > k {
        assert ring[i + 1].prev == ring[i];
      }
    }
    var last := |after| - 1;
    assert after[last].next == after[0] && after[0].prev == after[last];
  }

  method Empty(list: Node, ghost ring: seq<Node>) returns (empty: bool)
    requires IsRing(ring) && ring[0] == list
    ensures empty <==> |ring| == 1
  {
    empty := list.next == list;
  }

  method Len(list: Node, ghost ring: seq<Node>) returns (count: nat)
    requires IsRing(ring) && ring[0] == list
    ensures count == |ring| - 1
  {
    count := 0;
    var item := list.next;
    while item != list
      invariant count < |ring|
      invariant item == if count == |ring| - 1 then list else ring[count + 1]
      decreases |ring| - count
    {
      count := count + 1;
      item := item.next;
    }
  }

  function Keep<T(==)>(s: seq<T>, doomed: set<T>): seq<T> {
    if s == [] then [] else (if s[0] in doomed then [] else [s[0]]) + Keep(s[1..], doomed)
  }

  /** The node reached by walking to position `k`: behind the last element it is the head again. */
  ghost function At(ring: seq<Node>, k: nat): Node
    requires ring != [] && k <= |ring|
  {
    if k == |ring| then ring[0] else ring[k]
  }

  /**
   One turn of dl_list_for_each_safe: the body may delete the current element; what is before it and
   what is behind it stay as they are, and the walk goes on at the element that was behind it.
   */
  method Visit(item: Node, doomed: bool, ghost ring: seq<Node>, ghost k: nat)
      returns (ghost after: seq<Node>, ghost next: nat)
    requires IsRing(ring) && 1 <= k < |ring| && ring[k] == item
    modifies ring
    ensures after == if doomed then Removed(ring, k) else ring
    ensures next == if doomed then k else k + 1
    ensures next <= |after| && IsRing(after) && after[0] == ring[0]
    ensures after[next..] == ring[k + 1..]
    ensures after[1..next] == ring[1..k] + if doomed then [] else [item]
    ensures forall i :: 0 <= i < |after| ==> after[i] in ring
    ensures old(item.next) == At(after, next) && At(after, next).next != null
    ensures doomed ==> item.next == item.prev == null && item !in after
  {
    NextOf(ring, k);
    AroundRemoved(ring, k);
    hide Removed;
    if doomed {
      RemovedAt(ring, k);
      Del(item, ring, k);
      after, next := Removed(ring, k), k;
    } else {
      after, next := ring, k + 1;
    }
    ghost var at := if next == |after| then 0 else next;
    assert at < |after| && At(after, next) == after[at];
    if at < |after| - 1 {
      NextOf(after, at);
    }
  }

  lemma AroundRemoved<T>(s: seq<T>, k: nat)
    requires 1 <= k < |s|
    ensures var after := Removed(s, k); |after| == |s| - 1 && after[k..] == s[k + 1..] && after[1..k] == s[1..k]
    ensures s[1..k + 1] == s[1..k] + [s[k]]
  {}

  /** Walking `ring`, `visited` has been seen; the list is `now`, and its positions from `k` on are still to come. */
  ghost predicate Walked(ring: seq<Node>, doomed: set<Node>, visited: seq<Node>, now: seq<Node>, k: nat)
    requires ring != []
  {
    && 1 <= k <= |now| && now[0] == ring[0]
    && (forall i :: 0 <= i < |now| ==> now[i] in ring)
    && visited + now[k..] == ring[1..]
    && now[1..k] == Keep(visited, doomed)
  }

  lemma WalkStep(ring: seq<Node>, doomed: set<Node>, visited: seq<Node>, now: seq<Node>, k: nat)
    requires ring != [] && Walked(ring, doomed, visited, now, k) && k < |now|
    ensures var item := now[k];
            if item in doomed then Walked(ring, doomed, visited + [item], Removed(now, k), k)
            else Walked(ring, doomed, visited + [item], now, k + 1)
  {
    KeepOneMore(visited, now[k], doomed);
    assert now[k..] == [now[k]] + now[k + 1..];
    assert Removed(now, k)[k..] == now[k + 1..] && Removed(now, k)[1..k] == now[1..k];
    assert now[1..k + 1] == now[1..k] + [now[k]];
  }

  lemma WalkEnds(ring: seq<Node>, doomed: set<Node>, visited: seq<Node>, now: seq<Node>, k: nat)
    requires ring != [] && Walked(ring, doomed, visited, now, k) && k == |now|
    ensures visited == ring[1..] && now == [ring[0]] + Keep(ring[1..], doomed)
  {
    assert now[k..] == [] && now[1..k] == now[1..] && now == [now[0]] + now[1..];
  }

  /**
   dl_list_for_each_safe whose body deletes the current element whenever it is doomed: every element is
   visited exactly once, in order, and exactly the others remain, in order.
   */
  method ForEachSafe(list: Node, doomed: set<Node>, ghost ring: seq<Node>) returns (visited: seq<Node>)
    requires IsRing(ring) && ring[0] == list
    modifies ring
    ensures visited == ring[1..]
    ensures IsRing([list] + Keep(ring[1..], doomed))
  {
    assert ring[0].next == At(ring, 1) && At(ring, 1).next != null;
    hide IsRing, Keep, Removed;
    visited := [];
    ghost var now, k: nat := ring, 1;
    var item: Node := list.next;
    var n: Node := item.next;
    KeepOneMore([], list, doomed);
    while item != list
      invariant Walked(ring, doomed, visited, now, k) && IsRing(now)
      invariant item == At(now, k) && item.next == n
      decreases |now| - k
    {
      hide Walked;
      WalkStep(ring, doomed, visited, now, k);
      now, k := Visit(item, item in doomed, now, k);
      visited := visited + [item];
      item := n;
      n := n.next;
    }
    WalkEnds(ring, doomed, visited, now, k);
  }

  // ---- what is kept ------------------------------------------------------------------------

  /** Keeping and dropping partition the elements, and keeping preserves order. */
  lemma {:induction false} KeepExact<T>(s: seq<T>, doomed: set<T>)
    ensures forall x :: x in Keep(s, doomed) <==> x in s && x !in doomed
    ensures |Keep(s, doomed)| <= |s|
    ensures (forall x :: x in s ==> x !in doomed) ==> Keep(s, doomed) == s
  {
    if s != [] {
      KeepExact(s[1..], doomed);
      assert s == [s[0]] + s[1..];
    }
  }

  lemma KeepOneMore<T>(s: seq<T>, x: T, doomed: set<T>)
    ensures Keep<T>([], doomed) == []
    ensures Keep(s + [x], doomed) == Keep(s, doomed) + (if x in doomed then [] else [x])
  {
    KeepAppend(s, [x], doomed);
  }

  lemma {:induction false} KeepAppend<T>(s: seq<T>, t: seq<T>, doomed: set<T>)
    ensures Keep(s + t, doomed) == Keep(s, doomed) + Keep(t, doomed)
  {
    if s == [] {
      assert s + t == t;
    } else {
      assert (s + t)[1..] == s[1..] + t;
      KeepAppend(s[1..], t, doomed);
    }
  }

  /** Two walks compose: deleting in one walk what two walks delete gives the same list. */
  lemma {:induction false} KeepTwice<T>(s: seq<T>, a: set<T>, b: set<T>)
    ensures Keep(Keep(s, a), b) == Keep(s, a + b)
  {
    if s != [] {
      KeepTwice(s[1..], a, b);
      KeepAppend(if s[0] in a then [] else [s[0]], Keep(s[1..], a), b);
      assert s[0] !in a ==> Keep([s[0]], b) == if s[0] in b then [] else [s[0]];
    }
  }
}
