/** The device manager object: its list of connections, updated in place by its methods. */
module DeviceManager {
  import opened Wrappers
  import opened Connections

  class Manager {
    var disks: seq<Disk>
    var ifaces: map<Place, Client>
    var sched: seq<nat>
    var next: nat
    var statics: seq<Static>
    var errands: seq<Place>
    var fault: bool

    ghost function Abs(): Mgr
      reads this
    {
      Mgr(disks, ifaces, sched, next, statics, errands, fault)
    }

    constructor ()
      ensures Abs() == Initial
    {
      disks, ifaces, sched, next, statics, errands, fault := [], map[], [], 0, [], [], false;
    }

    method AttachClient(pl: Place)
      modifies this
      ensures Abs() == Attach(old(Abs()), pl)
    {
      ifaces := ifaces[pl := Client(next, true, false, 0)];
      sched := sched + [next];
      next := next + 1;
    }

    /** Ask disk `d` and its partitions for a device called `name` and attach a new client to it. */
    method CreateInterfaceFor(d: nat, name: string) returns (ret: Code)
      requires d < |disks|
      modifies this
      ensures (Abs(), ret) == CreateInterface(old(Abs()), d, name)
    {
      var disk := disks[d];
      if !disk.running {
        return Eio;
      }
      if Place(d, None) in ifaces {
        return if ContainsDevice(disk, name) then Ebusy else Enodev;
      }
      var busy, p := false, 0;
      while p < |disk.parts|
        invariant 0 <= p <= |disk.parts| && Abs() == old(Abs())
        invariant busy <==> PartAttached(Abs(), d, p)
        invariant FirstPart(Abs(), d, 0, name) == FirstPart(Abs(), d, p, name)
      {
        if Place(d, Some(p)) in ifaces {
          busy := true;
        }
        ret := AskPart(d, p, name);
        if ret != Enodev {
          return ret;
        }
        p := p + 1;
      }
      if name !in disk.names {
        return Enodev;
      }
      if busy {
        return Ebusy;
      }
      AttachClient(Place(d, None));
      return Ok;
    }

    /** The same on a partition, which has no partitions of its own. */
    method AskPart(d: nat, p: nat, name: string) returns (ret: Code)
      requires d < |disks| && p < |disks[d].parts|
      modifies this
      ensures ret == AnswerPart(old(Abs()), d, p, name)
      ensures Abs() == if ret == Ok then Attach(old(Abs()), Place(d, Some(p))) else old(Abs())
    {
      if !disks[d].running {
        return Eio;
      }
      if Place(d, Some(p)) in ifaces {
        return if name in disks[d].parts[p] then Ebusy else Enodev;
      }
      if name !in disks[d].parts[p] {
        return Enodev;
      }
      AttachClient(Place(d, Some(p)));
      return Ok;
    }

    method CreateDynamicClient(name: string) returns (ret: Code)
      modifies this
      ensures (Abs(), ret) == CreateDynamic(old(Abs()), |old(disks)|, name)
    {
      var d := |disks|;
      while d > 0
        invariant 0 <= d <= |disks| && Abs() == old(Abs())
        invariant CreateDynamic(Abs(), |disks|, name) == CreateDynamic(Abs(), d, name)
      {
        ret := CreateInterfaceFor(d - 1, name);
        if ret != Enodev {
          return ret;
        }
        d := d - 1;
      }
      return Enodev;
    }

    /** A disk has been scanned: connect the clients that wait for it or one of its partitions. */
    method AddScannedDisk(names: set<string>, parts: seq<set<string>>)
      modifies this
      ensures Abs() == AddDisk(old(Abs()), names, parts)
    {
      var d := |disks|;
      disks := disks + [Disk(names, parts, true)];
      ghost var start, now := Abs(), Abs();
      var i := 0;
      while i < |statics|
        invariant Abs() == now && 0 <= i <= |now.statics| && d < |now.disks|
        invariant ConnectStatics(start, d, 0) == ConnectStatics(now, d, i)
      {
        ghost var (next, goes) := ConnectOne(now, d, i);
        var go := ConnectNext(d, i);
        now := next;
        if !go {
          return;
        }
        i := i + 1;
      }
    }

    /** Let waiting client `i` ask disk `d`; the answer is whether the next one may ask too. */
    method ConnectNext(d: nat, i: nat) returns (go: bool)
      requires d < |disks| && i < |statics|
      modifies this
      ensures (Abs(), go) == ConnectOne(old(Abs()), d, i)
    {
      if !statics[i].gate {
        return true;
      }
      var ret := CreateInterfaceFor(d, statics[i].name);
      if ret == Ok {
        statics := statics[i := statics[i].(gate := false, uses := statics[i].uses + 1)];
        return true;
      }
      return ret == Enodev;
    }

    /** Disconnect a client, or schedule that for later while the device still works for it. */
    method Remove(pl: Place)
      requires pl in ifaces
      modifies this
      ensures Abs() == RemoveClient(old(Abs()), pl)
    {
      var c := ifaces[pl].(gone := true);
      ifaces := ifaces[pl := c];
      if c.inFlight != 0 {
        errands := errands + [pl];
        return;
      }
      sched := Without(sched, c.id);
      ifaces := ifaces - {pl};
      assert ifaces == old(ifaces) - {pl};
    }

    /** Look for dead clients of one disk; its partitions matter only while the disk itself is free. */
    method CheckDisk(d: nat)
      requires d < |disks|
      modifies this
      ensures Abs() == RemoveEach(old(Abs()), DeadAt(old(Abs()), d)) && disks == old(disks)
    {
      ghost var start := Abs();
      if Place(d, None) in ifaces {
        if !ifaces[Place(d, None)].alive {
          Remove(Place(d, None));
        }
        RemoveOne(start, Place(d, None));
        return;
      }
      var p := 0;
      while p < |disks[d].parts|
        invariant disks == start.disks && 0 <= p <= |disks[d].parts|
        invariant Abs() == RemoveEach(start, DeadParts(start, d, p))
      {
        NextPart(start, d, p);
        if Place(d, Some(p)) in ifaces && !ifaces[Place(d, Some(p))].alive {
          Remove(Place(d, Some(p)));
        }
        p := p + 1;
      }
    }

    /** Look for dead clients everywhere, removing them on the way. */
    method Check()
      modifies this
      ensures Abs() == CheckClients(old(Abs()))
    {
      ghost var start := Abs();
      var d := |disks|;
      while d > 0
        invariant 0 <= d <= |disks| && Swept(Abs(), d) == Swept(start, |start.disks|)
      {
        ghost var before := Abs();
        CheckDisk(d - 1);
        NextDisk(before, d, Abs());
        d := d - 1;
      }
      SweptNone(Abs());
    }
  }

  // Removing clients one by one while looking for them, or all that were found at once

  lemma RemoveOne(m: Mgr, pl: Place)
    ensures RemoveEach(m, [pl]) == RemoveClient(m, pl)
  {
    assert [pl][1..] == [];
  }

  lemma {:induction false} RemoveJoin(m: Mgr, a: seq<Place>, b: seq<Place>)
    ensures RemoveEach(m, a + b) == RemoveEach(RemoveEach(m, a), b)
    decreases |a|
  {
    if a == [] {
      assert a + b == b;
    } else {
      RemoveJoin(RemoveClient(m, a[0]), a[1..], b);
      assert (a + b)[1..] == a[1..] + b;
    }
  }

  /** Removing some clients does not change what there is to say about another. */
  lemma {:induction false} RemoveOthers(m: Mgr, ps: seq<Place>, pl: Place)
    requires pl !in ps
    ensures var m' := RemoveEach(m, ps);
      && m'.disks == m.disks
      && (pl in m'.ifaces <==> pl in m.ifaces)
      && (pl in m.ifaces ==> m'.ifaces[pl] == m.ifaces[pl])
    decreases |ps|
  {
    if ps != [] {
      RemoveOthers(RemoveClient(m, ps[0]), ps[1..], pl);
    }
  }

  lemma {:induction false} DeadPartsSame(m: Mgr, ps: seq<Place>, d: nat, n: nat)
    requires forall pl :: pl in ps ==> pl.disk != d
    ensures DeadParts(RemoveEach(m, ps), d, n) == DeadParts(m, d, n)
  {
    if n > 0 {
      DeadPartsSame(m, ps, d, n - 1);
      RemoveOthers(m, ps, Place(d, Some(n - 1)));
    }
  }

  lemma DeadAtSame(m: Mgr, ps: seq<Place>, d: nat)
    requires d < |m.disks| && forall pl :: pl in ps ==> pl.disk != d
    ensures RemoveEach(m, ps).disks == m.disks && DeadAt(RemoveEach(m, ps), d) == DeadAt(m, d)
  {
    RemoveOthers(m, ps, Place(d, None));
    DeadPartsSame(m, ps, d, |m.disks[d].parts|);
  }

  lemma NextPart(m: Mgr, d: nat, p: nat)
    ensures var pl, m' := Place(d, Some(p)), RemoveEach(m, DeadParts(m, d, p));
      && (Dead(m', pl) <==> Dead(m, pl)) && m'.disks == m.disks
      && RemoveEach(m, DeadParts(m, d, p + 1)) == if Dead(m, pl) then RemoveClient(m', pl) else m'
  {
    var pl, ps := Place(d, Some(p)), DeadParts(m, d, p);
    DeadPartsAre(m, d, p);
    RemoveOthers(m, ps, pl);
    if Dead(m, pl) {
      RemoveJoin(m, ps, [pl]);
      RemoveOne(RemoveEach(m, ps), pl);
    } else {
      assert ps + [] == ps;
    }
  }

  lemma DeadAllNext(m: Mgr, d: nat)
    requires 0 < d <= |m.disks|
    ensures DeadAll(m, d) == DeadAt(m, d - 1) + DeadAll(m, d - 1)
  {
    JoinedPrefix(DeadLists(m, d), DeadLists(m, d - 1), d - 1);
  }

  lemma {:induction false} JoinedPrefix(a: seq<seq<Place>>, b: seq<seq<Place>>, n: nat)
    requires n <= |a| && n <= |b| && forall e :: 0 <= e < n ==> a[e] == b[e]
    ensures Joined(a, n) == Joined(b, n)
  {
    if n > 0 { JoinedPrefix(a, b, n - 1); }
  }

  lemma DeadAllAgree(m: Mgr, m': Mgr, d: nat)
    requires d <= |m.disks| == |m'.disks| && forall e :: 0 <= e < d ==> DeadAt(m', e) == DeadAt(m, e)
    ensures DeadAll(m', d) == DeadAll(m, d)
  {
    assert DeadLists(m', d) == DeadLists(m, d);
  }

  lemma DeadAllSame(m: Mgr, ps: seq<Place>, d: nat)
    requires d <= |m.disks| && forall pl :: pl in ps ==> pl.disk >= d
    ensures RemoveEach(m, ps).disks == m.disks && DeadAll(RemoveEach(m, ps), d) == DeadAll(m, d)
  {
    DisksStay(m, ps);
    var m' := RemoveEach(m, ps);
    forall e | 0 <= e < d
      ensures DeadAt(m', e) == DeadAt(m, e)
    {
      DeadAtSame(m, ps, e);
    }
    DeadAllAgree(m, m', d);
  }

  /** What is left once the disks before `d` have been looked at too. */
  ghost function Swept(m: Mgr, d: nat): Mgr {
    if d <= |m.disks| then RemoveEach(m, DeadAll(m, d)) else m
  }

  lemma SweptNone(m: Mgr)
    ensures Swept(m, 0) == m
  {
  }

  lemma DeadAtElsewhere(m: Mgr, d: nat)
    requires d < |m.disks|
    ensures forall pl :: pl in DeadAt(m, d) ==> pl.disk == d
  {
    DeadAtAre(m, d);
  }

  lemma SweptJoin(m: Mgr, m': Mgr, here: seq<Place>, rest: seq<Place>, all: seq<Place>)
    requires all == here + rest && m' == RemoveEach(m, here)
    ensures RemoveEach(m, all) == RemoveEach(m', rest)
  {
    RemoveJoin(m, here, rest);
  }

  lemma NextDisk(m: Mgr, d: nat, m': Mgr)
    requires 0 < d <= |m.disks| && m' == RemoveEach(m, DeadAt(m, d - 1))
    ensures m'.disks == m.disks && Swept(m, d) == Swept(m', d - 1)
  {
    DeadAllNext(m, d);
    DeadAtElsewhere(m, d - 1);
    DeadAllSame(m, DeadAt(m, d - 1), d - 1);
    SweptJoin(m, m', DeadAt(m, d - 1), DeadAll(m, d - 1), DeadAll(m, d));
  }

  lemma {:induction false} DisksStay(m: Mgr, ps: seq<Place>)
    ensures RemoveEach(m, ps).disks == m.disks
    decreases |ps|
  {
    if ps != [] {
      DisksStay(RemoveClient(m, ps[0]), ps[1..]);
    }
  }
}
