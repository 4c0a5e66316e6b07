/**
 The list of one role as it is linked: a ring of elements, one of which, the terminator, has no guest.  The change
 command unlinks and relinks its elements (src/container-external-interface.c), which comes to Roles.Reorder.
 */
module RoleRings {
  import opened Options
  import opened Ring
  import R = Roles

  /** Every element behind the head is one of the elements whose guests are listed in `cc`. */
  ghost predicate Listed(ring: seq<Node>, cc: seq<Option<nat>>) {
    ring != [] && forall i :: 1 <= i < |ring| ==> ring[i].entry < |cc|
  }

  ghost function Members(ring: seq<Node>, cc: seq<Option<nat>>): (m: seq<Option<nat>>)
    requires Listed(ring, cc)
    ensures |m| == |ring| - 1 && forall i :: 0 <= i < |m| ==> m[i] == cc[ring[i + 1].entry]
  {
    seq(|ring| - 1, i requires 0 <= i < |ring| - 1 => cc[ring[i + 1].entry])
  }

  /** Taking the element at `k` off, and what that does to the members. */
  lemma OffTheList(ring: seq<Node>, cc: seq<Option<nat>>, k: nat)
    requires Distinct(ring) && Listed(ring, cc) && 1 <= k < |ring|
    ensures var left := Removed(ring, k);
            && ring[k] !in left && Listed(left, cc) && left[0] == ring[0]
            && Members(left, cc) == Members(ring, cc)[..k - 1] + Members(ring, cc)[k..]
  {
    RemovedAt(ring, k);
    var left := Removed(ring, k);
    hide Removed;
    assert Members(left, cc) == Members(ring, cc)[..k - 1] + Members(ring, cc)[k..];
  }

  lemma LinkedAt(ring: seq<Node>, cc: seq<Option<nat>>, item: Node)
    requires Listed(ring, cc) && item.entry < |cc|
    ensures Listed(ring + [item], cc) && Members(ring + [item], cc) == Members(ring, cc) + [cc[item.entry]]
    ensures var front := ring[..1] + [item] + ring[1..]; Listed(front, cc) && Members(front, cc) == [cc[item.entry]] + Members(ring, cc)
  {
    var front := ring[..1] + [item] + ring[1..];
    assert forall i :: 0 <= i < |front| ==> front[i] == if i == 0 then ring[0] else if i == 1 then item else ring[i - 1];
    assert Members(ring + [item], cc) == Members(ring, cc) + [cc[item.entry]];
    assert Members(front, cc) == [cc[item.entry]] + Members(ring, cc);
  }

  /** The first element goes behind all others. */
  method Rotate(list: Node, cc: seq<Option<nat>>, ghost ring: seq<Node>) returns (ghost after: seq<Node>)
    requires IsRing(ring) && Listed(ring, cc) && ring[0] == list && |ring| > 1
    modifies ring
    ensures IsRing(after) && Listed(after, cc) && after[0] == list && forall node :: node in after <==> node in ring
    ensures Members(after, cc) == Members(ring, cc)[1..] + [Members(ring, cc)[0]]
  {
    NextOf(ring, 0);
    OffTheList(ring, cc, 1);
    SameNodes(ring, 1);
    ghost var left := Removed(ring, 1);
    var item := list.next;
    LinkedAt(left, cc, item);
    hide Removed, Distinct, Members;
    Del(item, ring, 1);
    AddTail(list, item, left);
    after := left + [item];
  }

  /** The element at `k` goes to the front. */
  method ToFront(list: Node, item: Node, cc: seq<Option<nat>>, ghost ring: seq<Node>, ghost k: nat) returns (ghost after: seq<Node>)
    requires IsRing(ring) && Listed(ring, cc) && ring[0] == list && 1 <= k < |ring| && ring[k] == item
    modifies ring
    ensures IsRing(after) && Listed(after, cc) && after[0] == list && forall node :: node in after <==> node in ring
    ensures var m := Members(ring, cc); Members(after, cc) == [m[k - 1]] + m[..k - 1] + m[k..]
  {
    Fronted(ring, cc, k);
    hide IsRing, Removed, Distinct, Listed, Members;
    ghost var left := Removed(ring, k);
    after := left[..1] + [item] + left[1..];
    Del(item, ring, k);
    Add(list, item, left, 0);
  }

  lemma Fronted(ring: seq<Node>, cc: seq<Option<nat>>, k: nat)
    requires Distinct(ring) && Listed(ring, cc) && 1 <= k < |ring|
    ensures var left, m := Removed(ring, k), Members(ring, cc);
            var after := left[..1] + [ring[k]] + left[1..];
            && ring[k] !in left && left[0] == ring[0] && (forall node :: node in left ==> node in ring)
            && Listed(after, cc) && after[0] == ring[0] && (forall node :: node in after <==> node in ring)
            && Members(after, cc) == [m[k - 1]] + m[..k - 1] + m[k..]
  {
    OffTheList(ring, cc, k);
    SameNodes(ring, k);
    LinkedAt(Removed(ring, k), cc, ring[k]);
    hide Removed, Distinct, Members;
  }

  lemma SameNodes(ring: seq<Node>, k: nat)
    requires 1 <= k < |ring|
    ensures var left := Removed(ring, k);
            && (forall node :: node in ring <==> node in left || node == ring[k])
            && (forall node :: node in ring <==> node in left[..1] + [ring[k]] + left[1..])
  {
    var left := Removed(ring, k);
    assert ring == ring[..k] + [ring[k]] + ring[k + 1..];
    assert left == left[..1] + left[1..];
  }

  /** The part of the change command behind the look-up of the role: nothing is done while the role has no active guest. */
  method MakeActive(list: Node, cc: seq<Option<nat>>, cfgs: seq<R.Config>, name: string, ghost ring: seq<Node>)
      returns (response: R.Response, ghost after: seq<Node>)
    requires IsRing(ring) && Listed(ring, cc) && ring[0] == list
    modifies ring
    ensures IsRing(after) && Listed(after, cc) && after[0] == list && forall node :: node in after <==> node in ring
    ensures (response, Members(after, cc)) == R.Reorder(cfgs, Members(ring, cc), name)
  {
    response, after := R.Error, ring;
    NextOf(ring, 0);
    if list.next != list && cc[list.next.entry].Some? {
      after := Rotate(list, cc, ring);
      ghost var turned := after;
      assert forall i :: 0 <= i < |turned| ==> turned[i] in ring;
      hide IsRing, Distinct;
      NextOf(turned, 0);
      var item := list.next;
      ghost var k := 1;
      while item != list
        invariant 1 <= k <= |turned| && after == turned && IsRing(turned) && response.Error?
        invariant item == if k == |turned| then list else turned[k]
        invariant R.MemberAt(cfgs, Members(turned, cc), name, 0) == R.MemberAt(cfgs, Members(turned, cc), name, k - 1)
        decreases |turned| - k
      {
        NextOf(turned, k);
        var guest := cc[item.entry];
        if guest.Some? && guest.value < |cfgs| && cfgs[guest.value].name == name {
          after := ToFront(list, item, cc, turned, k);
          response := R.Accept;
          break;
        }
        item := item.next;
        k := k + 1;
      }
    }
  }
}
