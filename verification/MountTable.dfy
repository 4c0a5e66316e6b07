/**
 src/cm-utils.c: the mount primitives.  Mount points are distinct and nothing else mounts
 on them, so the kernel's mount table is kept per mount point: the stack of devices mounted
 there, the visible one last.
 */
module MountTable {
  import opened Host

  type Device = string
  type Stack = seq<Device>

  /** The block devices configured for one mount point: side a and side b. */
  datatype Devices = Devices(primary: Device, secondary: Device) {
    function At(i: int): Device {
      if i == 0 then primary else secondary
    }
  }

  /** What a mount or umount system call reports: success, errno == EBUSY, or any other errno. */
  datatype Outcome = Done | Busy | Refused

  datatype Mounted = Mounted(ret: int, stack: Stack, w: World)

  // ---- the kernel ------------------------------------------------------------

  function Answer(w: World): (Outcome, World) {
    var (a, w1) := Ask(w);
    (if a == 0 then Done else if a == 1 then Busy else Refused, w1)
  }

  /** mount(dev, path, ...): succeeds by stacking `dev` on the mount point, or fails without effect. */
  function MountCall(dev: Device, st: Stack, w: World): (Outcome, Stack, World) {
    var (o, w1) := Answer(w);
    (o, if o.Done? then st + [dev] else st, w1)
  }

  /** umount2(path, MNT_DETACH): succeeds whenever something is mounted. */
  function Detach(st: Stack): (bool, Stack) {
    if st == [] then (false, st) else (true, st[..|st| - 1])
  }

  /** umount(path): EINVAL when nothing is mounted, else it succeeds or reports busy. */
  function UmountCall(st: Stack, w: World): (Outcome, Stack, World) {
    var (o, w1) := Answer(w);
    if st == [] then (Refused, st, w1)
    else if o.Done? then (Done, st[..|st| - 1], w1)
    else (Busy, st, w1)
  }

  // ---- the manager's mount procedures, as functions ---------------------------

  /** mount; on EBUSY detach and mount again. */
  function MountOne(dev: Device, st: Stack, w: World): Mounted {
    var (o, st1, w1) := MountCall(dev, st, w);
    match o
    case Done => Mounted(0, st1, w1)
    case Refused => Mounted(-1, st1, w1)
    case Busy =>
      var (ok, st2) := Detach(st1);
      if !ok then Mounted(-1, st2, w1)
      else
        var (o2, st3, w2) := MountCall(dev, st2, w1);
        Mounted(if o2.Done? then 0 else -1, st3, w2)
  }

  function MountAb(devs: Devices, side: int, st: Stack, w: World): Mounted
  {
    if side < 0 || side >= 2 then Mounted(-3, st, w) else MountOne(devs.At(side), st, w)
  }

  /** Tries the devices from index `i` on; the result is the index of the one mounted, or -1. */
  function MountFailoverFrom(devs: Devices, i: nat, st: Stack, w: World): Mounted
    requires i <= 2
    decreases 2 - i
  {
    if i == 2 then Mounted(-1, st, w)
    else
      var r := MountOne(devs.At(i), st, w);
      if r.ret == 0 then r.(ret := i) else MountFailoverFrom(devs, i + 1, r.stack, r.w)
  }

  function MountBind(src: Device, readOnly: bool, st: Stack, w: World): Mounted {
    var (o, st1, w1) := MountCall(src, st, w);
    if !o.Done? then Mounted(-1, st1, w1)
    else if !readOnly then Mounted(0, st1, w1)
    else
      var (remounted, w2) := Try(w1);
      if remounted then Mounted(0, st1, w2)
      else
        var (_, st2, w3) := UmountCall(st1, w2);
        Mounted(-1, st2, w3)
  }

  /** Up to `tries` umount calls, then a lazy unmount. */
  function UnmountDisk(st: Stack, deadline: int, tries: nat, w: World): (Stack, World)
    decreases tries
  {
    if tries == 0 then (Detach(st).1, w)
    else
      var (o, st1, w1) := UmountCall(st, w);
      if !o.Busy? then (st1, w1)
      else
        var (now, w2) := Now(w1);
        if deadline < now then (Detach(st1).1, w2) else UnmountDisk(st1, deadline, tries - 1, w2)
  }

  // ---- the manager's mount procedures, in the source's form --------------------

  method MountDiskAb(devs: Devices, side: int, st: Stack, k: Kernel) returns (ret: int, stack: Stack)
    modifies k
    ensures Mounted(ret, stack, k.w) == MountAb(devs, side, st, old(k.w))
  {
    stack := st;
    if side < 0 || side >= 2 {
      return -3, stack;
    }
    ret, stack := MountWithRetry(devs.At(side), stack, k);
  }

  method MountDiskOnce(devs: Devices, st: Stack, k: Kernel) returns (ret: int, stack: Stack)
    modifies k
    ensures Mounted(ret, stack, k.w) == MountOne(devs.At(0), st, old(k.w))
  {
    ret, stack := MountWithRetry(devs.At(0), st, k);
  }

  /** The mount / detach / mount-again sequence shared by the block-device procedures. */
  method MountWithRetry(dev: Device, st: Stack, k: Kernel) returns (ret: int, stack: Stack)
    modifies k
    ensures Mounted(ret, stack, k.w) == MountOne(dev, st, old(k.w))
  {
    var o;
    o, stack := SysMount(dev, st, k);
    if o.Busy? {
      var detached := Detach(stack);
      stack := detached.1;
      if !detached.0 {
        return -1, stack;
      }
      o, stack := SysMount(dev, stack, k);
    }
    ret := if o.Done? then 0 else -1;
  }

  method MountDiskFailover(devs: Devices, st: Stack, k: Kernel) returns (mntdisk: int, stack: Stack)
    modifies k
    ensures Mounted(mntdisk, stack, k.w) == MountFailoverFrom(devs, 0, st, old(k.w))
  {
    mntdisk, stack := -1, st;
    var i := 0;
    while i < 2
      invariant 0 <= i <= 2 && mntdisk == -1
      invariant MountFailoverFrom(devs, i, stack, k.w) == MountFailoverFrom(devs, 0, st, old(k.w))
    {
      var ret;
      ret, stack := MountWithRetry(devs.At(i), stack, k);
      if ret == 0 {
        mntdisk := i;
        break;
      }
      i := i + 1;
    }
  }

  method MountDiskBind(src: Device, readOnly: bool, st: Stack, k: Kernel) returns (ret: int, stack: Stack)
    modifies k
    ensures Mounted(ret, stack, k.w) == MountBind(src, readOnly, st, old(k.w))
  {
    var o;
    o, stack := SysMount(src, st, k);
    if !o.Done? {
      return -1, stack;
    }
    if readOnly {
      var remounted := k.CallOk();
      if !remounted {
        o, stack := SysUmount(stack, k);
        return -1, stack;
      }
    }
    ret := 0;
  }

  method UnmountDiskLoop(st: Stack, deadline: int, retryMax: nat, k: Kernel) returns (stack: Stack)
    modifies k
    ensures (stack, k.w) == UnmountDisk(st, deadline, retryMax, old(k.w))
  {
    stack := st;
    var complete := false;
    var retryCount := 0;
    while retryCount < retryMax
      invariant retryCount <= retryMax && !complete
      invariant UnmountDisk(stack, deadline, retryMax - retryCount, k.w) == UnmountDisk(st, deadline, retryMax, old(k.w))
    {
      var o;
      o, stack := SysUmount(stack, k);
      if !o.Busy? {
        complete := true;
        break;
      }
      var now := k.GetCurrentTimeMs();
      if deadline < now {
        break;
      }
      retryCount := retryCount + 1;
    }
    if !complete {
      stack := Detach(stack).1;
    }
  }

  method SysMount(dev: Device, st: Stack, k: Kernel) returns (o: Outcome, stack: Stack)
    modifies k
    ensures (o, stack, k.w) == MountCall(dev, st, old(k.w))
  {
    var a := k.Call();
    o := if a == 0 then Done else if a == 1 then Busy else Refused;
    stack := if o.Done? then st + [dev] else st;
  }

  method SysUmount(st: Stack, k: Kernel) returns (o: Outcome, stack: Stack)
    modifies k
    ensures (o, stack, k.w) == UmountCall(st, old(k.w))
  {
    var a := k.Call();
    o := if st == [] then Refused else if a == 0 then Done else Busy;
    stack := if o.Done? then st[..|st| - 1] else st;
  }

  // ---- what the procedures promise ---------------------------------------------

  /**
   On a clean mount point a block-device mount either puts exactly that device there and reports
   success, or reports failure and leaves the mount point clean.
   */
  lemma MountOneExact(dev: Device, w: World)
    ensures var r := MountOne(dev, [], w);
            Later(w, r.w) && (r.ret == 0 || r.ret == -1) && r.stack == if r.ret == 0 then [dev] else []
  {
  }

  /**
   A block-device mount over whatever is there: it succeeds at once, or after a mount that was in the way has been
   detached - which is tried exactly when the first call reports busy and something is mounted.
   */
  lemma MountOneOutcome(dev: Device, st: Stack, w: World)
    ensures var r, (first, w1) := MountOne(dev, st, w), Answer(w);
            var (second, w2) := Answer(w1);
            var again := first.Busy? && st != [];
            && (r.ret == 0 <==> first.Done? || (again && second.Done?)) && (r.ret == 0 || r.ret == -1)
            && r.stack == (if first.Done? then st + [dev]
                           else if !again then st
                           else if second.Done? then st[..|st| - 1] + [dev] else st[..|st| - 1])
            && r.w == if again then w2 else w1
  {}

  /** Whatever was there before, success leaves `dev` visible, and never more than one mount is added. */
  lemma MountOneVisible(dev: Device, st: Stack, w: World)
    ensures var r := MountOne(dev, st, w);
            && (r.ret == 0 ==> r.stack != [] && r.stack[|r.stack| - 1] == dev)
            && |st| - 1 <= |r.stack| <= |st| + 1
            && (r.ret != 0 ==> r.stack <= st)
  {
  }

  /** Failover reports which device it mounted: the first one, or the second only after the first failed. */
  lemma FailoverExact(devs: Devices, w: World)
    ensures var r := MountFailoverFrom(devs, 0, [], w);
            && Later(w, r.w) && -1 <= r.ret < 2
            && r.stack == (if r.ret < 0 then [] else [devs.At(r.ret)])
            && (r.ret == 0 <==> MountOne(devs.At(0), [], w).ret == 0)
            && (r.ret == -1 <==> MountOne(devs.At(0), [], w).ret != 0
                                 && MountOne(devs.At(1), [], MountOne(devs.At(0), [], w).w).ret != 0)
  {
    var r0 := MountOne(devs.At(0), [], w);
    MountOneExact(devs.At(0), w);
    MountOneExact(devs.At(1), r0.w);
    assert MountFailoverFrom(devs, 1, r0.stack, r0.w) ==
           var r := MountOne(devs.At(1), r0.stack, r0.w); if r.ret == 0 then r.(ret := 1) else MountFailoverFrom(devs, 2, r.stack, r.w);
  }

  /** The calls MountBind(_, readOnly, _, w) makes: did the read-only remount fail, and was the clean-up umount busy? */
  predicate BindLeaks(readOnly: bool, w: World) {
    var (o, w1) := Answer(w);
    var (remounted, w2) := Try(w1);
    readOnly && o.Done? && !remounted && !Answer(w2).0.Done?
  }

  /**
   A failed bind mount leaves the mount point as it was, except when the read-only remount
   fails and the umount that should undo the first mount is busy too: then the mount stays
   behind although failure is reported.
   */
  lemma BindExact(src: Device, readOnly: bool, st: Stack, w: World)
    ensures var r := MountBind(src, readOnly, st, w);
            && Later(w, r.w) && (r.ret == 0 || r.ret == -1)
            && (r.ret == 0 <==> Answer(w).0.Done? && (readOnly ==> Try(Answer(w).1).0))
            && (r.ret == 0 ==> r.stack == st + [src])
            && (r.ret == -1 ==> (r.stack == st <==> !BindLeaks(readOnly, w)))
            && (r.ret == -1 && r.stack != st ==> r.stack == st + [src])
  {
    var (o, st1, w1) := MountCall(src, st, w);
    if o.Done? {
      assert st1[..|st1| - 1] == st;
    }
  }

  /** Unmounting always gets rid of the visible mount, by umount or lazily, however often umount is busy. */
  lemma {:induction false} UnmountExact(st: Stack, deadline: int, tries: nat, w: World)
    ensures var (st1, w1) := UnmountDisk(st, deadline, tries, w);
            Later(w, w1) && st1 == if st == [] then [] else st[..|st| - 1]
    decreases tries
  {
    if tries > 0 {
      var (o, st1, w1) := UmountCall(st, w);
      if o.Busy? {
        UnmountExact(st1, deadline, tries - 1, Now(w1).1);
      }
    }
  }
}
