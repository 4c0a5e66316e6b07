/**
 src/net-util.c (the link list) and the dynamic network interfaces of a guest
 (src/container-control-exec.c).
 */
module NetIf {
  import opened Host

  /** A host link as reported by netlink. */
  datatype Link = Link(ifindex: int, name: string)

  /** An interface name that a guest wants; `ifindex` is 0 while it is not assigned. */
  datatype Netif = Netif(name: string, ifindex: int, available: bool)

  datatype MessageType = NewLink | DelLink | Other

  predicate Blacklisted(name: string) {
    "veth" <= name || "lxcbr" <= name
  }

  function Without(links: seq<Link>, ifindex: int): seq<Link> {
    if links == [] then []
    else (if links[0].ifindex == ifindex then [] else [links[0]]) + Without(links[1..], ifindex)
  }

  function Received(links: seq<Link>, kind: MessageType, ifindex: int, name: string): seq<Link> {
    if Blacklisted(name) then links
    else
      match kind
      case NewLink => [Link(ifindex, name)] + Without(links, ifindex)
      case DelLink => Without(links, ifindex)
      case Other => links
  }

  class LinkTable {
    var links: seq<Link>

    constructor ()
      ensures links == []
    {
      links := [];
    }

    /** The list update of data_cb. */
    method DataCb(kind: MessageType, ifindex: int, name: string)
      modifies this
      ensures links == Received(old(links), kind, ifindex, name)
    {
      if "veth" <= name || "lxcbr" <= name {
        return;
      }
      if kind.NewLink? || kind.DelLink? {
        Purge(ifindex);
      }
      if kind.NewLink? {
        links := [Link(ifindex, name)] + links;
      }
    }

    /** Deletes every element with the given index while walking the list. */
    method Purge(ifindex: int)
      modifies this
      ensures links == Without(old(links), ifindex)
    {
      var i := 0;
      while i < |links|
        invariant 0 <= i <= |links|
        invariant links[..i] + Without(links[i..], ifindex) == Without(old(links), ifindex)
        decreases |links| - i
      {
        ghost var before := links;
        if links[i].ifindex == ifindex {
          links := links[..i] + links[i + 1..];
          assert links[..i] == before[..i] && links[i..] == before[i..][1..];
        } else {
          assert links[i..][1..] == links[i + 1..] && links[..i + 1] == links[..i] + [links[i]];
          i := i + 1;
        }
      }
      assert links[..i] == links && links[i..] == [];
    }
  }

  // ---- the list refines a map from index to latest name ------------------------------

  ghost predicate DistinctIndexes(links: seq<Link>) {
    forall i, j :: 0 <= i < j < |links| ==> links[i].ifindex != links[j].ifindex
  }

  ghost function AsMap(links: seq<Link>): map<int, string> {
    if links == [] then map[] else AsMap(links[1..])[links[0].ifindex := links[0].name]
  }

  lemma {:induction false} WithoutMap(links: seq<Link>, ifindex: int)
    ensures AsMap(Without(links, ifindex)) == AsMap(links) - {ifindex}
  {
    if links != [] {
      var rest := Without(links[1..], ifindex);
      WithoutMap(links[1..], ifindex);
      if links[0].ifindex == ifindex {
        assert Without(links, ifindex) == rest;
      } else {
        assert Without(links, ifindex)[1..] == rest;
      }
    }
  }

  lemma {:induction false} WithoutMembers(links: seq<Link>, ifindex: int)
    ensures forall l :: l in Without(links, ifindex) <==> l in links && l.ifindex != ifindex
    ensures DistinctIndexes(links) ==> DistinctIndexes(Without(links, ifindex))
  {
    if links != [] {
      var rest := Without(links[1..], ifindex);
      WithoutMembers(links[1..], ifindex);
      if DistinctIndexes(links) {
        forall l | l in rest ensures l.ifindex != links[0].ifindex {
          var j :| 0 <= j < |links[1..]| && links[1..][j] == l;
          assert links[j + 1].ifindex != links[0].ifindex;
        }
      }
    }
  }

  lemma Prepended(l: Link, rest: seq<Link>)
    requires DistinctIndexes(rest) && forall x :: x in rest ==> x.ifindex != l.ifindex
    ensures DistinctIndexes([l] + rest) && AsMap([l] + rest) == AsMap(rest)[l.ifindex := l.name]
  {
    assert ([l] + rest)[1..] == rest;
  }

  lemma DropThenSet(m: map<int, string>, ifindex: int, name: string)
    ensures (m - {ifindex})[ifindex := name] == m[ifindex := name]
  {}

  /** What a message says about the interfaces of the host. */
  ghost function Noted(m: map<int, string>, kind: MessageType, ifindex: int, name: string): map<int, string> {
    if Blacklisted(name) then m
    else match kind
      case NewLink => m[ifindex := name]
      case DelLink => m - {ifindex}
      case Other => m
  }

  /** Each message updates the map it is about, and the list never holds one index twice. */
  lemma ReceivedRefinesMap(links: seq<Link>, kind: MessageType, ifindex: int, name: string)
    requires DistinctIndexes(links)
    ensures var l := Received(links, kind, ifindex, name);
            DistinctIndexes(l) && AsMap(l) == Noted(AsMap(links), kind, ifindex, name)
  {
    var rest := Without(links, ifindex);
    WithoutMap(links, ifindex);
    WithoutMembers(links, ifindex);
    Prepended(Link(ifindex, name), rest);
    DropThenSet(AsMap(links), ifindex, name);
    hide AsMap, DistinctIndexes, Without, Blacklisted;
  }

  // ---- assigning links to a guest ------------------------------------------------------

  function Clean(cs: seq<Netif>): (r: seq<Netif>)
    ensures |r| == |cs| && forall i :: 0 <= i < |cs| ==> r[i] == cs[i].(available := false)
  {
    if cs == [] then [] else [cs[0].(available := false)] + Clean(cs[1..])
  }

  function DropStale(cs: seq<Netif>): (r: seq<Netif>)
    ensures |r| == |cs|
    ensures forall i :: 0 <= i < |cs| ==> r[i] == if cs[i].available then cs[i] else cs[i].(ifindex := 0)
  {
    if cs == [] then []
    else [if cs[0].available then cs[0] else cs[0].(ifindex := 0)] + DropStale(cs[1..])
  }

  function Unassign(cs: seq<Netif>): (r: seq<Netif>)
    ensures |r| == |cs| && forall i :: 0 <= i < |cs| ==> r[i] == cs[i].(ifindex := 0)
  {
    if cs == [] then [] else [cs[0].(ifindex := 0)] + Unassign(cs[1..])
  }

  /** One link against one wanted interface; attaching needs a running instance. */
  function Attach(link: Link, c: Netif, lxc: bool, w: World): (Netif, World) {
    if c.ifindex == 0 && link.name == c.name then
      var (ok, w1) := if lxc then Try(w) else (false, w);
      (if ok then c.(ifindex := link.ifindex, available := true) else c.(available := false), w1)
    else if c.ifindex == link.ifindex then (c.(available := true), w)
    else (c, w)
  }

  function AttachFrom(link: Link, cs: seq<Netif>, j: nat, lxc: bool, w: World): (r: (seq<Netif>, World))
    requires j <= |cs|
    ensures |r.0| == |cs|
    decreases |cs| - j
  {
    if j == |cs| then (cs, w)
    else
      var (c, w1) := Attach(link, cs[j], lxc, w);
      AttachFrom(link, cs[j := c], j + 1, lxc, w1)
  }

  function ScanFrom(links: seq<Link>, i: nat, cs: seq<Netif>, lxc: bool, w: World): (r: (seq<Netif>, World))
    requires i <= |links|
    ensures |r.0| == |cs|
    decreases |links| - i
  {
    if i == |links| then (cs, w)
    else if links[i].ifindex <= 0 then ScanFrom(links, i + 1, cs, lxc, w)
    else
      var (cs1, w1) := AttachFrom(links[i], cs, 0, lxc, w);
      ScanFrom(links, i + 1, cs1, lxc, w1)
  }

  function Assign(links: seq<Link>, cs: seq<Netif>, lxc: bool, w: World): (seq<Netif>, World) {
    var (cs1, w1) := ScanFrom(links, 0, Clean(cs), lxc, w);
    (DropStale(cs1), w1)
  }

  /** `c` is what interface `c0` may have become while scanning `links`: available only through one of these links. */
  ghost predicate Scanned(links: seq<Link>, c0: Netif, c: Netif) {
    && c.name == c0.name
    && (c0.ifindex != 0 ==> c.ifindex == c0.ifindex)
    && (c.available ==> c.ifindex > 0 && exists l :: l in links && l.ifindex == c.ifindex
                                                      && (c0.ifindex == 0 ==> l.name == c.name))
    && (c0.ifindex == 0 && c.ifindex != 0 ==> c.available)
  }

  lemma {:induction false} AttachFromScans(links: seq<Link>, link: Link, cs0: seq<Netif>, cs: seq<Netif>, j: nat, lxc: bool, w: World)
    requires link in links && link.ifindex > 0 && j <= |cs| == |cs0|
    requires forall k :: 0 <= k < |cs| ==> Scanned(links, cs0[k], cs[k])
    ensures var r := AttachFrom(link, cs, j, lxc, w).0;
            && (forall k :: 0 <= k < |cs| ==> Scanned(links, cs0[k], r[k]))
            && (forall k :: 0 <= k < j ==> r[k] == cs[k])
            && (forall k :: j <= k < |cs| && cs[k].ifindex == link.ifindex ==> r[k].available)
            && (forall k :: j <= k < |cs| && cs[k].available && cs[k].ifindex != 0 ==> r[k].available)
    decreases |cs| - j
  {
    if j < |cs| {
      var (c, w1) := Attach(link, cs[j], lxc, w);
      AttachFromScans(links, link, cs0, cs[j := c], j + 1, lxc, w1);
    }
  }

  lemma {:induction false} ScanFromScans(links: seq<Link>, i: nat, cs0: seq<Netif>, cs: seq<Netif>, lxc: bool, w: World)
    requires i <= |links| && |cs| == |cs0|
    requires forall k :: 0 <= k < |cs| ==> Scanned(links, cs0[k], cs[k])
    ensures var r := ScanFrom(links, i, cs, lxc, w).0;
            && (forall k :: 0 <= k < |cs| ==> Scanned(links, cs0[k], r[k]))
            && (forall k, n :: 0 <= k < |cs| && i <= n < |links| && cs0[k].ifindex == links[n].ifindex > 0 ==> r[k].available)
            && (forall k :: 0 <= k < |cs| && cs[k].available && cs[k].ifindex != 0 ==> r[k].available)
    decreases |links| - i
  {
    if i < |links| {
      if links[i].ifindex <= 0 {
        ScanFromScans(links, i + 1, cs0, cs, lxc, w);
      } else {
        AttachFromScans(links, links[i], cs0, cs, 0, lxc, w);
        var (cs1, w1) := AttachFrom(links[i], cs, 0, lxc, w);
        ScanFromScans(links, i + 1, cs0, cs1, lxc, w1);
      }
    }
  }

  lemma {:induction false} AttachLater(link: Link, cs: seq<Netif>, j: nat, lxc: bool, w: World)
    requires j <= |cs|
    ensures Later(w, AttachFrom(link, cs, j, lxc, w).1)
    decreases |cs| - j
  {
    if j < |cs| {
      var (c, w1) := Attach(link, cs[j], lxc, w);
      AttachLater(link, cs[j := c], j + 1, lxc, w1);
    }
  }

  lemma {:induction false} ScanLater(links: seq<Link>, i: nat, cs: seq<Netif>, lxc: bool, w: World)
    requires i <= |links|
    ensures Later(w, ScanFrom(links, i, cs, lxc, w).1)
    decreases |links| - i
  {
    if i < |links| {
      if links[i].ifindex <= 0 {
        ScanLater(links, i + 1, cs, lxc, w);
      } else {
        var (cs1, w1) := AttachFrom(links[i], cs, 0, lxc, w);
        AttachLater(links[i], cs, 0, lxc, w);
        hide AttachFrom;
        ScanLater(links, i + 1, cs1, lxc, w1);
      }
    }
  }

  // ---- when an interface gets a link -----------------------------------------------------------

  /** The world when the walk with `link`, now at interface `j`, comes to interface `k`. */
  ghost function WorldAt(link: Link, cs: seq<Netif>, j: nat, lxc: bool, w: World, k: nat): World
    requires j <= k <= |cs|
    decreases k - j
  {
    if j == k then w
    else
      var (c, w1) := Attach(link, cs[j], lxc, w);
      WorldAt(link, cs[j := c], j + 1, lxc, w1, k)
  }

  /** Is some link from `i` on of the name of interface `k`, and accepted by the running instance when it is tried? */
  ghost predicate Accepted(links: seq<Link>, i: nat, cs: seq<Netif>, lxc: bool, w: World, k: nat)
    requires i <= |links| && k < |cs|
    decreases |links| - i
  {
    if i == |links| then false
    else if links[i].ifindex <= 0 then Accepted(links, i + 1, cs, lxc, w, k)
    else
      var (cs1, w1) := AttachFrom(links[i], cs, 0, lxc, w);
      (links[i].name == cs[k].name && lxc && Try(WorldAt(links[i], cs, 0, lxc, w, k)).0) || Accepted(links, i + 1, cs1, lxc, w1, k)
  }

  lemma {:induction false} AttachFromAt(link: Link, cs: seq<Netif>, j: nat, lxc: bool, w: World, k: nat)
    requires j <= |cs| && k < |cs|
    ensures AttachFrom(link, cs, j, lxc, w).0[k]
            == if j <= k then Attach(link, cs[k], lxc, WorldAt(link, cs, j, lxc, w, k)).0 else cs[k]
    decreases |cs| - j
  {
    if j < |cs| {
      var (c, w1) := Attach(link, cs[j], lxc, w);
      hide Attach;
      AttachFromAt(link, cs[j := c], j + 1, lxc, w1, k);
    }
  }

  lemma {:induction false} ScanAssigns(links: seq<Link>, i: nat, cs: seq<Netif>, lxc: bool, w: World, k: nat)
    requires i <= |links| && k < |cs|
    ensures var c := ScanFrom(links, i, cs, lxc, w).0[k];
            && (cs[k].ifindex != 0 ==> c.ifindex == cs[k].ifindex)
            && (cs[k].ifindex == 0 ==> (c.ifindex != 0 <==> Accepted(links, i, cs, lxc, w, k)))
    decreases |links| - i
  {
    if i < |links| {
      if links[i].ifindex <= 0 {
        ScanAssigns(links, i + 1, cs, lxc, w, k);
      } else {
        var (cs1, w1) := AttachFrom(links[i], cs, 0, lxc, w);
        AttachFromAt(links[i], cs, 0, lxc, w, k);
        hide AttachFrom, WorldAt;
        ScanAssigns(links, i + 1, cs1, lxc, w1, k);
      }
    }
  }

  /** An interface without a link gets one in an update exactly when a listed link of its name is accepted. */
  lemma AssignedExactly(links: seq<Link>, cs: seq<Netif>, lxc: bool, w: World, k: nat)
    requires k < |cs| && cs[k].ifindex == 0
    ensures Assign(links, cs, lxc, w).0[k].ifindex != 0 <==> Accepted(links, 0, Clean(cs), lxc, w, k)
  {
    var cs1 := Clean(cs);
    ScanAssigns(links, 0, cs1, lxc, w, k);
    ScanFromScans(links, 0, cs1, cs1, lxc, w);
    hide ScanFrom, Accepted;
  }

  /**
   After an update every assigned index is the index of a listed link, an assignment made earlier is
   kept exactly when its link is still listed, and a new one goes to a link of the wanted name.
   */
  lemma AssignExact(links: seq<Link>, cs: seq<Netif>, lxc: bool, w: World)
    ensures var r := Assign(links, cs, lxc, w).0;
            && |r| == |cs|
            && forall k :: 0 <= k < |cs| ==>
                 && r[k].name == cs[k].name
                 && (r[k].ifindex != 0 ==> r[k].ifindex > 0 && exists l :: l in links && l.ifindex == r[k].ifindex
                                                                && (cs[k].ifindex == 0 ==> l.name == cs[k].name))
                 && (cs[k].ifindex != 0 ==>
                       r[k].ifindex == if cs[k].ifindex > 0 && exists l :: l in links && l.ifindex == cs[k].ifindex
                                       then cs[k].ifindex else 0)
  {
    var cs1 := Clean(cs);
    ScanFromScans(links, 0, cs1, cs1, lxc, w);
  }
}
