/**
 The role lists: binding guests to roles at start-up (src/container-config.c), finding the active
 guest of a role (src/container-control-exec.c) and changing it (src/container-external-interface.c).
 A role list is a sequence of guest positions with one terminator (None) between the guests that may
 boot and those that may not; the guest at its head is the active one.
 */
module Roles {
  import opened Options

  datatype Config = Config(name: string, role: string, autoboot: bool, bootpriority: int)

  datatype Role = Role(name: string, members: seq<Option<nat>>)

  datatype Response = Error | Accept | NoName

  // ---- specification ----------------------------------------------------------------------

  /** Position of the first role called `name` at or after `j`, or |roles|. */
  function RoleAt(roles: seq<Role>, name: string, j: nat): (r: nat)
    requires j <= |roles|
    ensures j <= r <= |roles| && (r < |roles| ==> roles[r].name == name)
    ensures forall i :: j <= i < r ==> roles[i].name != name
    decreases |roles| - j
  {
    if j == |roles| || roles[j].name == name then j else RoleAt(roles, name, j + 1)
  }

  function Head(m: seq<Option<nat>>): Option<nat> {
    if m == [] then None else m[0]
  }

  function ActiveGuest(roles: seq<Role>, role: string): Option<nat> {
    var r := RoleAt(roles, role, 0);
    if r == |roles| then None else Head(roles[r].members)
  }

  function Enlist(m: seq<Option<nat>>, k: nat, autoboot: bool): seq<Option<nat>> {
    if autoboot then [Some(k)] + m else m + [Some(k)]
  }

  function Place(roles: seq<Role>, c: Config, k: nat): seq<Role> {
    var r := RoleAt(roles, c.role, 0);
    if r < |roles| then roles[r := Role(c.role, Enlist(roles[r].members, k, c.autoboot))]
    else roles + [Role(c.role, Enlist([None], k, c.autoboot))]
  }

  /** The role lists after the first `n` guests. */
  function Bind(cfgs: seq<Config>, n: nat): seq<Role>
    requires n <= |cfgs|
  {
    if n == 0 then [] else Place(Bind(cfgs, n - 1), cfgs[n - 1], n - 1)
  }

  function Named(cfgs: seq<Config>, name: string, i: nat): (r: nat)
    requires i <= |cfgs|
    ensures i <= r <= |cfgs| && (r < |cfgs| ==> cfgs[r].name == name)
    ensures forall j :: i <= j < r ==> cfgs[j].name != name
    decreases |cfgs| - i
  {
    if i == |cfgs| || cfgs[i].name == name then i else Named(cfgs, name, i + 1)
  }

  predicate IsNamed(cfgs: seq<Config>, e: Option<nat>, name: string) {
    e.Some? && e.value < |cfgs| && cfgs[e.value].name == name
  }

  function MemberAt(cfgs: seq<Config>, m: seq<Option<nat>>, name: string, i: nat): (r: nat)
    requires i <= |m|
    ensures i <= r <= |m| && (r < |m| ==> IsNamed(cfgs, m[r], name))
    ensures forall j :: i <= j < r ==> !IsNamed(cfgs, m[j], name)
    decreases |m| - i
  {
    if i == |m| || IsNamed(cfgs, m[i], name) then i else MemberAt(cfgs, m, name, i + 1)
  }

  /** The head goes to the tail, then the named guest to the head. */
  function Reorder(cfgs: seq<Config>, m: seq<Option<nat>>, name: string): (Response, seq<Option<nat>>) {
    if Head(m).None? then (Error, m)
    else
      var m1 := m[1..] + [m[0]];
      var i := MemberAt(cfgs, m1, name, 0);
      if i == |m1| then (Error, m1) else (Accept, [m1[i]] + m1[..i] + m1[i + 1..])
  }

  function Change(cfgs: seq<Config>, roles: seq<Role>, name: string): (Response, seq<Role>) {
    var g := Named(cfgs, name, 0);
    if g == |cfgs| then (NoName, roles)
    else
      var r := RoleAt(roles, cfgs[g].role, 0);
      if r == |roles| then (Error, roles)
      else
        var (resp, m) := Reorder(cfgs, roles[r].members, name);
        (resp, roles[r := Role(roles[r].name, m)])
  }

  // ---- in the source's form -------------------------------------------------------------------

  class RoleTable {
    var roles: seq<Role>

    constructor ()
      ensures roles == []
    {
      roles := [];
    }

    method BindContainers(cfgs: seq<Config>)
      requires roles == []
      modifies this
      ensures roles == Bind(cfgs, |cfgs|)
    {
      for i := 0 to |cfgs|
        invariant roles == Bind(cfgs, i)
      {
        BindDistinct(cfgs, i);
        PlaceContainer(cfgs[i], i);
      }
    }

    method PlaceContainer(c: Config, k: nat)
      requires DistinctRoles(roles)
      modifies this
      ensures roles == Place(old(roles), c, k)
    {
      var isSet := false;
      ghost var before := roles;
      for j := 0 to |roles|
        invariant |roles| == |before|
        invariant isSet <==> RoleAt(before, c.role, 0) < j
        invariant roles == if isSet then Place(before, c, k) else before
      {
        if roles[j].name == c.role {
          roles := roles[j := Role(roles[j].name, if c.autoboot then [Some(k)] + roles[j].members
                                                  else roles[j].members + [Some(k)])];
          isSet := true;
        }
      }
      if !isSet {
        var members: seq<Option<nat>> := [None];
        members := if c.autoboot then [Some(k)] + members else members + [Some(k)];
        roles := roles + [Role(c.role, members)];
      }
    }

    method GetActiveGuest(role: string) returns (active: Option<nat>)
      ensures active == ActiveGuest(roles, role)
    {
      var j := 0;
      while j < |roles|
        invariant j <= |roles| && RoleAt(roles, role, 0) == RoleAt(roles, role, j)
      {
        if roles[j].name == role {
          return if roles[j].members == [] then None else roles[j].members[0];
        }
        j := j + 1;
      }
      active := None;
    }

    method CommandChange(cfgs: seq<Config>, guestName: string) returns (response: Response)
      modifies this
      ensures (response, roles) == Change(cfgs, old(roles), guestName)
    {
      var i := 0;
      while i < |cfgs| && cfgs[i].name != guestName
        invariant i <= |cfgs| && Named(cfgs, guestName, 0) == Named(cfgs, guestName, i)
      {
        i := i + 1;
      }
      if i == |cfgs| {
        return NoName;
      }
      response := Error;
      var j := 0;
      while j < |roles|
        invariant j <= |roles| && roles == old(roles) && response == Error
        invariant RoleAt(roles, cfgs[i].role, 0) == RoleAt(roles, cfgs[i].role, j)
      {
        if roles[j].name == cfgs[i].role {
          var members := roles[j].members;
          if members != [] && members[0].Some? {
            members := members[1..] + [members[0]];
            var n := 0;
            while n < |members|
              invariant n <= |members| && response == Error
              invariant MemberAt(cfgs, members, guestName, 0) == MemberAt(cfgs, members, guestName, n)
            {
              var e := members[n];
              if e.Some? && e.value < |cfgs| && cfgs[e.value].name == guestName {
                members := [e] + members[..n] + members[n + 1..];
                response := Accept;
                break;
              }
              n := n + 1;
            }
          }
          roles := roles[j := Role(roles[j].name, members)];
          return;
        }
        j := j + 1;
      }
    }
  }

  // ---- what binding achieves ----------------------------------------------------------------------

  ghost predicate DistinctRoles(roles: seq<Role>) {
    forall i, j :: 0 <= i < j < |roles| ==> roles[i].name != roles[j].name
  }

  lemma {:induction false} BindDistinct(cfgs: seq<Config>, n: nat)
    requires n <= |cfgs|
    ensures DistinctRoles(Bind(cfgs, n))
  {
    if n > 0 {
      BindDistinct(cfgs, n - 1);
    }
  }

  /** The autoboot guests of a role among the first `n`, last one first. */
  function Booting(cfgs: seq<Config>, n: nat, role: string): seq<Option<nat>>
    requires n <= |cfgs|
  {
    if n == 0 then []
    else (if cfgs[n - 1].role == role && cfgs[n - 1].autoboot then [Some(n - 1)] else []) + Booting(cfgs, n - 1, role)
  }

  /** The other guests of a role among the first `n`, in order. */
  function Waiting(cfgs: seq<Config>, n: nat, role: string): seq<Option<nat>>
    requires n <= |cfgs|
  {
    if n == 0 then []
    else Waiting(cfgs, n - 1, role) + if cfgs[n - 1].role == role && !cfgs[n - 1].autoboot then [Some(n - 1)] else []
  }

  predicate Mentions(cfgs: seq<Config>, n: nat, role: string)
    requires n <= |cfgs|
  {
    exists i :: 0 <= i < n && cfgs[i].role == role
  }

  ghost predicate Shaped(cfgs: seq<Config>, n: nat, r: Role)
    requires n <= |cfgs|
  {
    r.members == Booting(cfgs, n, r.name) + [None] + Waiting(cfgs, n, r.name)
  }

  lemma OneMore(cfgs: seq<Config>, n: nat, r: Role)
    requires n < |cfgs| && Shaped(cfgs, n, r)
    ensures Shaped(cfgs, n + 1, if cfgs[n].role == r.name then r.(members := Enlist(r.members, n, cfgs[n].autoboot)) else r)
  {
    var b, w := Booting(cfgs, n, r.name), Waiting(cfgs, n, r.name);
    assert [] + b == b && w + [] == w;
    assert [Some(n)] + (b + [None] + w) == ([Some(n)] + b) + [None] + w;
    assert (b + [None] + w) + [Some(n)] == b + [None] + (w + [Some(n)]);
  }

  lemma {:induction false} BindMentions(cfgs: seq<Config>, n: nat)
    requires n <= |cfgs|
    ensures forall r :: 0 <= r < |Bind(cfgs, n)| ==> Mentions(cfgs, n, Bind(cfgs, n)[r].name)
    ensures forall i :: 0 <= i < n ==> RoleAt(Bind(cfgs, n), cfgs[i].role, 0) < |Bind(cfgs, n)|
  {
    if n > 0 {
      var roles0, roles := Bind(cfgs, n - 1), Bind(cfgs, n);
      BindMentions(cfgs, n - 1);
      var at := RoleAt(roles0, cfgs[n - 1].role, 0);
      forall r | 0 <= r < |roles| ensures Mentions(cfgs, n, roles[r].name) {
        if r == at {
          assert cfgs[n - 1].role == roles[r].name;
        } else {
          assert Mentions(cfgs, n - 1, roles0[r].name);
        }
      }
      forall i | 0 <= i < n ensures RoleAt(roles, cfgs[i].role, 0) < |roles| {
        assert roles[if i < n - 1 then RoleAt(roles0, cfgs[i].role, 0) else at].name == cfgs[i].role;
      }
    }
  }

  /** A list is: autoboot guests in reverse, the terminator, the others in order. */
  lemma {:induction false} BindShape(cfgs: seq<Config>, n: nat)
    requires n <= |cfgs|
    ensures forall r :: 0 <= r < |Bind(cfgs, n)| ==> Shaped(cfgs, n, Bind(cfgs, n)[r])
  {
    if n > 0 {
      var roles0, roles, c := Bind(cfgs, n - 1), Bind(cfgs, n), cfgs[n - 1];
      BindShape(cfgs, n - 1);
      BindDistinct(cfgs, n);
      var at := RoleAt(roles0, c.role, 0);
      forall r | 0 <= r < |roles| ensures Shaped(cfgs, n, roles[r]) {
        if at == |roles0| == r {
          BindMentions(cfgs, n - 1);
          NeverMentioned(cfgs, n - 1, c.role);
          OneMore(cfgs, n - 1, Role(c.role, [None]));
        } else {
          OneMore(cfgs, n - 1, roles0[r]);
          if r != at && at < |roles| {
            assert roles[r].name != roles[at].name;
          }
        }
      }
    }
  }

  lemma {:induction false} NeverMentioned(cfgs: seq<Config>, n: nat, role: string)
    requires n <= |cfgs| && forall i :: 0 <= i < n ==> cfgs[i].role != role
    ensures Booting(cfgs, n, role) == [] && Waiting(cfgs, n, role) == []
  {
    if n > 0 {
      NeverMentioned(cfgs, n - 1, role);
    }
  }

  ghost predicate Sorted(cfgs: seq<Config>) {
    forall i, j :: 0 <= i < j < |cfgs| ==> cfgs[i].bootpriority <= cfgs[j].bootpriority
  }

  ghost predicate LeastPriority(cfgs: seq<Config>, n: nat, role: string, p: int)
    requires n <= |cfgs|
  {
    && (exists i :: 0 <= i < n && cfgs[i].role == role && cfgs[i].bootpriority == p)
    && (forall i :: 0 <= i < n && cfgs[i].role == role ==> p <= cfgs[i].bootpriority)
  }

  /** Every guest of role `b` has a guest of role `a` before it. */
  ghost predicate Earlier(cfgs: seq<Config>, n: nat, a: string, b: string)
    requires n <= |cfgs|
  {
    forall i :: 0 <= i < n && cfgs[i].role == b ==> Mentions(cfgs, i, a)
  }

  /** Roles are listed in the order of their first guests. */
  lemma {:induction false} BindOrder(cfgs: seq<Config>, n: nat, r: nat, s: nat)
    requires n <= |cfgs| && r < s < |Bind(cfgs, n)|
    ensures Earlier(cfgs, n, Bind(cfgs, n)[r].name, Bind(cfgs, n)[s].name)
    decreases n
  {
    if n > 0 {
      var roles0, roles := Bind(cfgs, n - 1), Bind(cfgs, n);
      BindMentions(cfgs, n - 1);
      assert roles[r].name == roles0[r].name;
      assert Mentions(cfgs, n - 1, roles0[r].name);
      if s < |roles0| {
        assert roles[s].name == roles0[s].name;
        BindOrder(cfgs, n - 1, r, s);
      }
    }
  }

  /** qsort by compare_bootpri comes first: then the role list is ordered by each role's least boot priority. */
  lemma RolesOrderedByPriority(cfgs: seq<Config>, r: nat, s: nat, p: int, q: int)
    requires Sorted(cfgs) && r < s < |Bind(cfgs, |cfgs|)|
    requires LeastPriority(cfgs, |cfgs|, Bind(cfgs, |cfgs|)[r].name, p)
    requires LeastPriority(cfgs, |cfgs|, Bind(cfgs, |cfgs|)[s].name, q)
    ensures p <= q
  {
    var roles := Bind(cfgs, |cfgs|);
    BindOrder(cfgs, |cfgs|, r, s);
    var i :| 0 <= i < |cfgs| && cfgs[i].role == roles[s].name && cfgs[i].bootpriority == q;
    assert Mentions(cfgs, i, roles[r].name);
  }

  // ---- the invariant of the role lists ---------------------------------------------------------------

  function Occurrences(cfgs: seq<Config>, e: Option<nat>, role: string): nat {
    match e
    case None => 1
    case Some(k) => if k < |cfgs| && cfgs[k].role == role then 1 else 0
  }

  /**
   Every guest is in exactly one role list, that of its own role, once; every list has one terminator;
   no two lists have the same name.
   */
  ghost predicate Bound(cfgs: seq<Config>, roles: seq<Role>) {
    && DistinctRoles(roles)
    && (forall i :: 0 <= i < |cfgs| ==> RoleAt(roles, cfgs[i].role, 0) < |roles|)
    && (forall r, e :: 0 <= r < |roles| ==>
          multiset(roles[r].members)[e] == Occurrences(cfgs, e, roles[r].name))
  }

  lemma ConsCounts(x: Option<nat>, m: seq<Option<nat>>, e: Option<nat>)
    ensures multiset([x] + m)[e] == multiset(m)[e] + if x == e then 1 else 0
    ensures multiset(m + [x])[e] == multiset(m)[e] + if x == e then 1 else 0
  {
  }

  ghost function Listed(cfgs: seq<Config>, n: nat, role: string, e: Option<nat>): nat
    requires n <= |cfgs|
  {
    multiset(Booting(cfgs, n, role))[e] + multiset(Waiting(cfgs, n, role))[e]
  }

  lemma OneMoreCounts(cfgs: seq<Config>, n: nat, role: string, e: Option<nat>)
    requires n < |cfgs|
    ensures Listed(cfgs, n + 1, role, e) == Listed(cfgs, n, role, e) + if cfgs[n].role == role && e == Some(n) then 1 else 0
  {
    var b, w := Booting(cfgs, n, role), Waiting(cfgs, n, role);
    ConsCounts(Some(n), b, e);
    ConsCounts(Some(n), w, e);
    assert [] + b == b && w + [] == w;
  }

  lemma NothingListed(cfgs: seq<Config>, role: string, e: Option<nat>)
    ensures Listed(cfgs, 0, role, e) == 0
  {
  }

  lemma {:induction false} GuestListedOnce(cfgs: seq<Config>, n: nat, role: string, k: nat)
    requires n <= |cfgs|
    ensures Listed(cfgs, n, role, Some(k)) == if k < n && cfgs[k].role == role then 1 else 0
  {
    hide *;
    if n == 0 {
      NothingListed(cfgs, role, Some(k));
    } else {
      GuestListedOnce(cfgs, n - 1, role, k);
      OneMoreCounts(cfgs, n - 1, role, Some(k));
    }
  }

  lemma {:induction false} NoTerminatorListed(cfgs: seq<Config>, n: nat, role: string)
    requires n <= |cfgs|
    ensures Listed(cfgs, n, role, None) == 0
  {
    hide *;
    if n == 0 {
      NothingListed(cfgs, role, None);
    } else {
      NoTerminatorListed(cfgs, n - 1, role);
      OneMoreCounts(cfgs, n - 1, role, None);
    }
  }

  lemma BindIsBound(cfgs: seq<Config>)
    ensures Bound(cfgs, Bind(cfgs, |cfgs|))
  {
    var roles := Bind(cfgs, |cfgs|);
    BindDistinct(cfgs, |cfgs|);
    BindMentions(cfgs, |cfgs|);
    BindShape(cfgs, |cfgs|);
    forall r, e | 0 <= r < |roles|
      ensures multiset(roles[r].members)[e] == Occurrences(cfgs, e, roles[r].name)
    {
      match e
      case None => NoTerminatorListed(cfgs, |cfgs|, roles[r].name);
      case Some(k) => GuestListedOnce(cfgs, |cfgs|, roles[r].name, k);
    }
  }

  lemma MemberHasRole(cfgs: seq<Config>, roles: seq<Role>, r: nat, i: nat)
    requires Bound(cfgs, roles) && r < |roles| && i < |roles[r].members| && roles[r].members[i].Some?
    ensures roles[r].members[i].value < |cfgs| && cfgs[roles[r].members[i].value].role == roles[r].name
  {
    assert roles[r].members[i] in multiset(roles[r].members);
  }

  lemma ActiveHasRole(cfgs: seq<Config>, roles: seq<Role>, role: string)
    requires Bound(cfgs, roles) && ActiveGuest(roles, role).Some?
    ensures ActiveGuest(roles, role).value < |cfgs| && cfgs[ActiveGuest(roles, role).value].role == role
  {
    MemberHasRole(cfgs, roles, RoleAt(roles, role, 0), 0);
  }

  // ---- what a change achieves ---------------------------------------------------------------------------

  lemma ReorderExact(cfgs: seq<Config>, m: seq<Option<nat>>, name: string)
    ensures var (resp, m1) := Reorder(cfgs, m, name);
            && multiset(m1) == multiset(m)
            && (Head(m).None? ==> m1 == m)
            && (resp == Accept ==> Head(m).Some? && IsNamed(cfgs, Head(m1), name))
            && (resp == Accept <==> Head(m).Some? && exists i :: 0 <= i < |m| && IsNamed(cfgs, m[i], name))
  {
    if Head(m).Some? {
      var m1 := m[1..] + [m[0]];
      assert m == [m[0]] + m[1..];
      assert multiset(m1) == multiset(m);
      var i := MemberAt(cfgs, m1, name, 0);
      if i < |m1| {
        assert m1 == m1[..i] + [m1[i]] + m1[i + 1..];
        assert IsNamed(cfgs, m[if i == |m1| - 1 then 0 else i + 1], name);
      } else {
        forall j | 0 <= j < |m| ensures !IsNamed(cfgs, m[j], name) {
          assert m[j] == m1[if j == 0 then |m1| - 1 else j - 1];
        }
      }
    }
  }

  lemma SameRolePositions(a: seq<Role>, b: seq<Role>)
    requires |a| == |b| && forall r :: 0 <= r < |a| ==> a[r].name == b[r].name
    ensures forall role :: RoleAt(a, role, 0) == RoleAt(b, role, 0)
  {
    forall role ensures RoleAt(a, role, 0) == RoleAt(b, role, 0) {
      var i, j := RoleAt(a, role, 0), RoleAt(b, role, 0);
      assert i < |a| ==> b[i].name == role;
      assert j < |b| ==> a[j].name == role;
    }
  }

  /** The list of the named guest's role is the one a change works on, and the guest is on it. */
  lemma NamedIsListed(cfgs: seq<Config>, roles: seq<Role>, name: string)
    requires Bound(cfgs, roles) && Named(cfgs, name, 0) < |cfgs|
    ensures var r := RoleAt(roles, cfgs[Named(cfgs, name, 0)].role, 0);
            r < |roles| && exists i :: 0 <= i < |roles[r].members| && IsNamed(cfgs, roles[r].members[i], name)
  {
    var g := Named(cfgs, name, 0);
    var m := roles[RoleAt(roles, cfgs[g].role, 0)].members;
    assert Some(g) in multiset(m);
    var i :| 0 <= i < |m| && m[i] == Some(g);
    assert IsNamed(cfgs, m[i], name);
  }

  ghost predicate Permutes(before: seq<Role>, after: seq<Role>) {
    && |after| == |before|
    && forall r :: 0 <= r < |before| ==>
         after[r].name == before[r].name && multiset(after[r].members) == multiset(before[r].members)
  }

  /**
   A change command permutes one role list and leaves the others alone.  It is accepted exactly when the
   role of the named guest has an active guest, and then the named guest is at the head; otherwise
   nothing changes.
   */
  lemma ChangeExact(cfgs: seq<Config>, roles: seq<Role>, name: string)
    requires Bound(cfgs, roles)
    ensures var (resp, roles1) := Change(cfgs, roles, name);
            var g := Named(cfgs, name, 0);
            && (resp == NoName <==> g == |cfgs|)
            && (resp == Accept <==> g < |cfgs| && ActiveGuest(roles, cfgs[g].role).Some?)
            && (resp == Accept ==> IsNamed(cfgs, ActiveGuest(roles1, cfgs[g].role), name))
            && (resp != Accept ==> roles1 == roles)
            && Permutes(roles, roles1)
            && (g < |cfgs| ==> forall r :: 0 <= r < |roles| && roles[r].name != cfgs[g].role ==> roles1[r] == roles[r])
  {
    var g := Named(cfgs, name, 0);
    if g < |cfgs| {
      var r := RoleAt(roles, cfgs[g].role, 0);
      NamedIsListed(cfgs, roles, name);
      ReorderExact(cfgs, roles[r].members, name);
      SameRolePositions(roles, Change(cfgs, roles, name).1);
    }
  }

  /** So changes keep the role lists well-formed, and the same roles have an active guest before and after. */
  lemma ChangeKeepsBound(cfgs: seq<Config>, roles: seq<Role>, name: string)
    requires Bound(cfgs, roles)
    ensures Bound(cfgs, Change(cfgs, roles, name).1)
    ensures forall role :: ActiveGuest(Change(cfgs, roles, name).1, role).Some? <==> ActiveGuest(roles, role).Some?
  {
    var roles1 := Change(cfgs, roles, name).1;
    ChangeExact(cfgs, roles, name);
    SameRolePositions(roles, roles1);
    forall role ensures ActiveGuest(roles1, role).Some? <==> ActiveGuest(roles, role).Some? {
      var g := Named(cfgs, name, 0);
      if g < |cfgs| && role != cfgs[g].role {
        var r := RoleAt(roles, role, 0);
        assert r < |roles| ==> roles1[r] == roles[r];
      }
    }
  }
}
