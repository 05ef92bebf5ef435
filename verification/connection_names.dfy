/** Who gets connected to what: a client is only ever attached to a device that carries the name it asked for,
    and the answer it gets says exactly how that device was found. */
module ConnectionNames {
  import opened Wrappers
  import opened Connections

  function NamesOf(m: Mgr, pl: Place): set<string>
    requires Exists(m, pl)
  {
    if pl.part.None? then m.disks[pl.disk].names else m.disks[pl.disk].parts[pl.part.value]
  }

  /** There is a device at `pl` and it carries the name. */
  predicate Named(m: Mgr, pl: Place, name: string) { Exists(m, pl) && name in NamesOf(m, pl) }

  /** The device of disk `d` that answers to `name`: the first such partition, or else the disk itself. */
  predicate Target(m: Mgr, d: nat, name: string, pl: Place)
    requires d < |m.disks|
  {
    && pl.disk == d && Named(m, pl, name)
    && forall q :: 0 <= q < (if pl.part.Some? then pl.part.value else |m.disks[d].parts|) ==>
         name !in m.disks[d].parts[q]
  }

  /** Somebody is attached to it, or to what it is a part of, or to a part of it. */
  predicate Occupied(m: Mgr, pl: Place) {
    || pl in m.ifaces
    || (pl.part.Some? && Place(pl.disk, None) in m.ifaces)
    || (pl.part.None? && pl.disk < |m.disks|
        && exists p :: 0 <= p < |m.disks[pl.disk].parts| && Place(pl.disk, Some(p)) in m.ifaces)
  }

  lemma OneTarget(m: Mgr, d: nat, name: string, pl: Place, q: Place)
    requires d < |m.disks| && Target(m, d, name, pl) && Target(m, d, name, q)
    ensures pl == q
  {
  }

  /** There is such a device if and only if the disk or a partition carries the name. */
  lemma TargetIff(m: Mgr, d: nat, name: string)
    requires d < |m.disks|
    ensures (exists pl :: Target(m, d, name, pl)) <==>
            name in m.disks[d].names || exists p :: 0 <= p < |m.disks[d].parts| && name in m.disks[d].parts[p]
  {
    var parts := m.disks[d].parts;
    if p :| 0 <= p < |parts| && name in parts[p] {
      var k := FirstNamed(parts, name, p);
      assert Target(m, d, name, Place(d, Some(k)));
    } else if name in m.disks[d].names {
      assert Target(m, d, name, Place(d, None));
    }
  }

  lemma {:induction false} FirstNamed(parts: seq<set<string>>, name: string, p: nat) returns (k: nat)
    requires p < |parts| && name in parts[p]
    ensures k <= p && name in parts[k] && forall q :: 0 <= q < k ==> name !in parts[q]
    decreases p
  {
    k := p;
    if q :| 0 <= q < p && name in parts[q] {
      k := FirstNamed(parts, name, q);
    }
  }

  /** What asking disk `d` means when `pl` is the device that answers to the name. */
  lemma AskFound(m: Mgr, d: nat, name: string, pl: Place)
    requires d < |m.disks| && m.disks[d].running && Target(m, d, name, pl)
    ensures CreateInterface(m, d, name) == if Occupied(m, pl) then (m, Ebusy) else (Attach(m, pl), Ok)
  {
    var parts := m.disks[d].parts;
    if pl.part.Some? { assert AnswerPart(m, d, pl.part.value, name) != Enodev; }
    forall q | 0 <= q < (if pl.part.Some? then pl.part.value else |parts|) ensures AnswerPart(m, d, q, name) == Enodev {
      assert name !in parts[q];
    }
  }

  lemma AskUnknown(m: Mgr, d: nat, name: string)
    requires d < |m.disks| && m.disks[d].running && forall pl :: !Target(m, d, name, pl)
    ensures CreateInterface(m, d, name) == (m, Enodev)
  {
    TargetIff(m, d, name);
    forall q | 0 <= q < |m.disks[d].parts| ensures AnswerPart(m, d, q, name) == Enodev {
      assert name !in m.disks[d].parts[q];
    }
  }

  /** The answer of a disk, exactly: it fails while the disk is shutting down; otherwise the device that
      answers to the name is attached if it is free, is busy if it is not, or does not exist. */
  lemma InterfaceAnswer(m: Mgr, d: nat, name: string)
    requires d < |m.disks|
    ensures var (m', ret) := CreateInterface(m, d, name);
      && (ret == Eio <==> !m.disks[d].running)
      && (ret == Enodev <==> m.disks[d].running && forall pl :: !Target(m, d, name, pl))
      && (ret == Ebusy <==> m.disks[d].running && exists pl :: Target(m, d, name, pl) && Occupied(m, pl))
      && (ret == Ok <==> m.disks[d].running && exists pl :: Target(m, d, name, pl) && !Occupied(m, pl))
      && (ret != Ok ==> m' == m)
      && (ret == Ok ==> exists pl :: Target(m, d, name, pl) && m' == Attach(m, pl))
  {
    if m.disks[d].running {
      if pl :| Target(m, d, name, pl) {
        AskFound(m, d, name, pl);
        forall q | Target(m, d, name, q) ensures q == pl { OneTarget(m, d, name, pl, q); }
      } else {
        AskUnknown(m, d, name);
      }
    }
  }

  /** Exactly what is attached in one go: `pl`, by somebody who asked for `name`. */
  predicate AttachedFor(m: Mgr, m': Mgr, pl: Place, name: string) {
    && Named(m, pl, name) && m'.ifaces == m.ifaces[pl := Client(m.next, true, false, 0)]
    && m'.sched == m.sched + [m.next] && m'.next == m.next + 1
  }

  lemma InterfaceAttaches(m: Mgr, d: nat, name: string)
    requires d < |m.disks| && CreateInterface(m, d, name).1 == Ok
    ensures exists pl :: pl !in m.ifaces && CreateInterface(m, d, name).0 == Attach(m, pl) && Named(m, pl, name)
  {
    InterfaceAnswer(m, d, name);
    var pl :| Target(m, d, name, pl) && CreateInterface(m, d, name).0 == Attach(m, pl);
    AskFound(m, d, name, pl);
    assert pl !in m.ifaces && Named(m, pl, name);
  }

  // ---------------------------------------------------------------- a client that asks for a device

  /** The disk has something to say about the name: it is shutting down, or carries it. */
  predicate Speaks(disk: Disk, name: string) { !disk.running || ContainsDevice(disk, name) }

  lemma SpeaksIff(m: Mgr, d: nat, name: string)
    requires d < |m.disks|
    ensures CreateInterface(m, d, name).1 != Enodev <==> Speaks(m.disks[d], name)
  {
    InterfaceAnswer(m, d, name);
    TargetIff(m, d, name);
  }

  /** The youngest disk with something to say decides, and decides what is attached. */
  lemma {:induction false} YoungestDecides(m: Mgr, d: nat, name: string, e: nat)
    requires e < d <= |m.disks| && Speaks(m.disks[e], name) && forall k :: e < k < d ==> !Speaks(m.disks[k], name)
    ensures CreateDynamic(m, d, name) == CreateInterface(m, e, name)
    decreases d
  {
    SpeaksIff(m, d - 1, name);
    if e < d - 1 { YoungestDecides(m, d - 1, name, e); }
  }

  /** No device is found if and only if no disk has anything to say. */
  lemma {:induction false} NobodySpeaks(m: Mgr, d: nat, name: string)
    requires d <= |m.disks|
    ensures CreateDynamic(m, d, name).1 == Enodev <==> forall e :: 0 <= e < d ==> !Speaks(m.disks[e], name)
  {
    if d > 0 {
      SpeaksIff(m, d - 1, name);
      NobodySpeaks(m, d - 1, name);
    }
  }

  lemma {:induction false} DynamicAttaches(m: Mgr, d: nat, name: string)
    requires d <= |m.disks|
    ensures var (m', ret) := CreateDynamic(m, d, name);
      && (ret != Ok ==> m' == m)
      && (ret == Ok ==> exists pl :: pl !in m.ifaces && AttachedFor(m, m', pl, name))
  {
    if d > 0 {
      InterfaceAnswer(m, d - 1, name);
      if CreateInterface(m, d - 1, name).1 == Ok {
        InterfaceAttaches(m, d - 1, name);
        var pl :| pl !in m.ifaces && CreateInterface(m, d - 1, name).0 == Attach(m, pl) && Named(m, pl, name);
        assert AttachedFor(m, CreateInterface(m, d - 1, name).0, pl, name);
      } else {
        DynamicAttaches(m, d - 1, name);
      }
    }
  }

  // ---------------------------------------------------------------- clients that wait for a device

  /** The waiting client `i` is connected in this step and waits no longer. */
  predicate Connected(m: Mgr, m': Mgr, i: nat) {
    i < |m.statics| == |m'.statics| && m.statics[i].gate && !m'.statics[i].gate
  }

  /** A client that waited for a name of `pl` was connected. */
  ghost predicate ForWaiting(m: Mgr, m': Mgr, pl: Place) {
    exists i: nat :: Connected(m, m', i) && Named(m, pl, m.statics[i].name)
  }

  /** A device that carries the name was attached. */
  ghost predicate NewDevice(m: Mgr, m': Mgr, name: string) {
    exists pl :: pl in m'.ifaces && pl !in m.ifaces && Named(m, pl, name)
  }

  /** The disks and the names waited for stay, and so do the attached clients; nobody starts to wait again. */
  predicate Onwards(m: Mgr, m': Mgr) {
    && m'.disks == m.disks && |m'.statics| == |m.statics|
    && (forall i :: 0 <= i < |m.statics| ==>
          m'.statics[i].name == m.statics[i].name && (m'.statics[i].gate ==> m.statics[i].gate))
    && forall pl :: pl in m.ifaces ==> pl in m'.ifaces && m'.ifaces[pl] == m.ifaces[pl]
  }

  /** Everything newly attached was attached to a device that carries the name of a client that waited, and every
      client that waits no longer has such a device. */
  ghost predicate Matched(m: Mgr, m': Mgr) {
    && Onwards(m, m')
    && (forall pl :: pl in m'.ifaces && pl !in m.ifaces ==> ForWaiting(m, m', pl))
    && forall i: nat :: Connected(m, m', i) ==> NewDevice(m, m', m.statics[i].name)
  }

  /** Waiting client `i` gets the device at `pl` and waits no longer. */
  function Served(m: Mgr, i: nat, pl: Place): Mgr
    requires i < |m.statics|
  {
    Attach(m, pl).(statics := m.statics[i := m.statics[i].(gate := false, uses := m.statics[i].uses + 1)])
  }

  lemma ConnectOneIs(m: Mgr, d: nat, i: nat)
    requires d < |m.disks| && i < |m.statics|
    ensures ConnectOne(m, d, i).0 == m || (m.statics[i].gate && exists pl ::
              pl !in m.ifaces && Named(m, pl, m.statics[i].name) && ConnectOne(m, d, i).0 == Served(m, i, pl))
  {
    var st := m.statics[i];
    InterfaceAnswer(m, d, st.name);
    if st.gate && CreateInterface(m, d, st.name).1 == Ok {
      InterfaceAttaches(m, d, st.name);
      var pl :| pl !in m.ifaces && CreateInterface(m, d, st.name).0 == Attach(m, pl) && Named(m, pl, st.name);
      assert ConnectOne(m, d, i).0 == Served(m, i, pl);
    }
  }

  lemma ConnectOneMatched(m: Mgr, d: nat, i: nat)
    requires d < |m.disks| && i < |m.statics|
    ensures Matched(m, ConnectOne(m, d, i).0)
  {
    var m' := ConnectOne(m, d, i).0;
    ConnectOneIs(m, d, i);
    if m' != m {
      var pl :| pl !in m.ifaces && Named(m, pl, m.statics[i].name) && m' == Served(m, i, pl);
      OneMatched(m, m', i, pl);
    }
  }

  lemma OneMatched(m: Mgr, m': Mgr, i: nat, pl: Place)
    requires i < |m.statics| && m.statics[i].gate && pl !in m.ifaces && Named(m, pl, m.statics[i].name)
    requires m' == Served(m, i, pl)
    ensures Matched(m, m')
  {
    assert Connected(m, m', i) && pl in m'.ifaces;
    forall q | q in m'.ifaces && q !in m.ifaces ensures ForWaiting(m, m', q) {
      assert q == pl;
    }
    forall j: nat | Connected(m, m', j) ensures NewDevice(m, m', m.statics[j].name) {
      assert j == i;
    }
  }

  lemma WaitingThen(m: Mgr, m1: Mgr, m2: Mgr, pl: Place)
    requires Onwards(m, m1) && Onwards(m1, m2) && (ForWaiting(m, m1, pl) || ForWaiting(m1, m2, pl))
    ensures ForWaiting(m, m2, pl)
  {
    if ForWaiting(m, m1, pl) {
      var i: nat :| Connected(m, m1, i) && Named(m, pl, m.statics[i].name);
      assert Connected(m, m2, i);
    } else {
      var i: nat :| Connected(m1, m2, i) && Named(m1, pl, m1.statics[i].name);
      assert Connected(m, m2, i) && Named(m, pl, m.statics[i].name);
    }
  }

  lemma DeviceThen(m: Mgr, m1: Mgr, m2: Mgr, i: nat)
    requires Onwards(m, m1) && Onwards(m1, m2) && Connected(m, m2, i)
    requires Connected(m, m1, i) ==> NewDevice(m, m1, m.statics[i].name)
    requires Connected(m1, m2, i) ==> NewDevice(m1, m2, m.statics[i].name)
    ensures NewDevice(m, m2, m.statics[i].name)
  {
    var name := m.statics[i].name;
    if m1.statics[i].gate {
      assert Connected(m1, m2, i) && m1.statics[i].name == name;
      var pl :| pl in m2.ifaces && pl !in m1.ifaces && Named(m1, pl, name);
      assert pl !in m.ifaces && Named(m, pl, name);
    } else {
      assert Connected(m, m1, i);
      var pl :| pl in m1.ifaces && pl !in m.ifaces && Named(m, pl, name);
      assert pl in m2.ifaces;
    }
  }

  lemma MatchedThen(m: Mgr, m1: Mgr, m2: Mgr)
    requires Matched(m, m1) && Matched(m1, m2)
    ensures Matched(m, m2)
  {
    forall pl | pl in m2.ifaces && pl !in m.ifaces ensures ForWaiting(m, m2, pl) {
      WaitingThen(m, m1, m2, pl);
    }
    forall i: nat | Connected(m, m2, i) ensures NewDevice(m, m2, m.statics[i].name) {
      assert m1.statics[i].name == m.statics[i].name;
      DeviceThen(m, m1, m2, i);
    }
  }

  /** A new disk connects waiting clients to devices that carry the names they wait for. */
  lemma {:induction false} StaticsMatched(m: Mgr, d: nat, i: nat)
    requires d < |m.disks| && i <= |m.statics|
    ensures Matched(m, ConnectStatics(m, d, i))
    decreases |m.statics| - i
  {
    if i < |m.statics| {
      ConnectOneMatched(m, d, i);
      var (m1, go) := ConnectOne(m, d, i);
      if go {
        StaticsMatched(m1, d, i + 1);
        MatchedThen(m, m1, ConnectStatics(m, d, i));
      }
    }
  }

  /** Which waiting clients a new disk connects: in order, each one that asks for a free device of the disk;
      one that asks for a taken device stops the round. */
  lemma ConnectAnswer(m: Mgr, d: nat, i: nat)
    requires d < |m.disks| && i < |m.statics| && m.disks[d].running
    ensures var (m', go) := ConnectOne(m, d, i);
      && (Connected(m, m', i) <==>
            m.statics[i].gate && exists pl :: Target(m, d, m.statics[i].name, pl) && !Occupied(m, pl))
      && (!go <==> m.statics[i].gate && exists pl :: Target(m, d, m.statics[i].name, pl) && Occupied(m, pl))
      && (!Connected(m, m', i) ==> m' == m)
  {
    InterfaceAnswer(m, d, m.statics[i].name);
  }

  // ---------------------------------------------------------------- every run

  /** Somebody who asked for `name` during the run. */
  ghost predicate AskedIn(es: seq<Event>, name: string) { Dynamic(name) in es || NewStatic(name) in es }

  /** The place carries a name that somebody asked for. */
  ghost predicate Wanted(m: Mgr, es: seq<Event>, pl: Place) {
    exists name :: AskedIn(es, name) && Named(m, pl, name)
  }

  ghost predicate AskedFor(m: Mgr, es: seq<Event>) {
    && (forall pl :: pl in m.ifaces ==> Wanted(m, es, pl))
    && (forall i :: 0 <= i < |m.statics| ==> AskedIn(es, m.statics[i].name))
  }

  /** Disks keep their names and partitions, and nothing is attached. */
  predicate NothingNew(m: Mgr, m': Mgr) {
    SameNames(m, m') && m'.statics == m.statics && forall pl :: pl in m'.ifaces ==> pl in m.ifaces
  }

  predicate SameNames(m: Mgr, m': Mgr) {
    && |m.disks| <= |m'.disks|
    && forall d :: 0 <= d < |m.disks| ==> m'.disks[d].names == m.disks[d].names && m'.disks[d].parts == m.disks[d].parts
  }

  lemma StillWanted(m: Mgr, m': Mgr, es: seq<Event>, pl: Place)
    requires Wanted(m, es, pl) && SameNames(m, m')
    ensures Wanted(m', es, pl)
  {
    var name :| AskedIn(es, name) && Named(m, pl, name);
    assert Named(m', pl, name);
  }

  lemma StillAskedFor(m: Mgr, m': Mgr, es: seq<Event>)
    requires AskedFor(m, es) && NothingNew(m, m')
    ensures AskedFor(m', es)
  {
    forall pl | pl in m'.ifaces ensures Wanted(m', es, pl) {
      StillWanted(m, m', es, pl);
    }
  }

  lemma {:induction false} RemoveEachNothingNew(m: Mgr, ps: seq<Place>)
    ensures NothingNew(m, RemoveEach(m, ps))
    decreases |ps|
  {
    if ps != [] { RemoveEachNothingNew(RemoveClient(m, ps[0]), ps[1..]); }
  }

  lemma DynamicAsked(m: Mgr, name: string, es: seq<Event>)
    requires AskedFor(m, es) && AskedIn(es, name)
    ensures AskedFor(CreateDynamic(m, |m.disks|, name).0, es)
  {
    DynamicAttaches(m, |m.disks|, name);
    CreateDynamicExtends(m, |m.disks|, name);
    var (m', ret) := CreateDynamic(m, |m.disks|, name);
    DynamicKeepsTables(m, |m.disks|, name);
    if ret == Ok {
      var own :| own !in m.ifaces && AttachedFor(m, m', own, name);
      forall pl | pl in m'.ifaces ensures Wanted(m', es, pl) {
        if pl == own { assert Named(m', pl, name); } else { StillWanted(m, m', es, pl); }
      }
    }
  }

  lemma {:induction false} DynamicKeepsTables(m: Mgr, d: nat, name: string)
    requires d <= |m.disks|
    ensures var m' := CreateDynamic(m, d, name).0; m'.disks == m.disks && m'.statics == m.statics
  {
    if d > 0 {
      InterfaceAnswer(m, d - 1, name);
      DynamicKeepsTables(m, d - 1, name);
    }
  }

  lemma WaitedFor(m: Mgr, m': Mgr, es: seq<Event>, pl: Place)
    requires Onwards(m, m') && ForWaiting(m, m', pl)
    requires forall i :: 0 <= i < |m.statics| ==> AskedIn(es, m.statics[i].name)
    ensures Wanted(m', es, pl)
  {
    var i: nat :| Connected(m, m', i) && Named(m, pl, m.statics[i].name);
    assert AskedIn(es, m.statics[i].name) && Named(m', pl, m.statics[i].name);
  }

  lemma StaticsAsked(m: Mgr, d: nat, es: seq<Event>)
    requires AskedFor(m, es) && d < |m.disks|
    ensures AskedFor(ConnectStatics(m, d, 0), es)
  {
    StaticsMatched(m, d, 0);
    var m' := ConnectStatics(m, d, 0);
    forall pl | pl in m'.ifaces ensures Wanted(m', es, pl) {
      if pl in m.ifaces { StillWanted(m, m', es, pl); } else { WaitedFor(m, m', es, pl); }
    }
    forall i | 0 <= i < |m'.statics| ensures AskedIn(es, m'.statics[i].name) {
      assert m'.statics[i].name == m.statics[i].name;
    }
  }

  lemma StepAsked(m: Mgr, e: Event, es: seq<Event>)
    requires AskedFor(m, es) && Enabled(m, e) && e in es
    ensures AskedFor(Step(m, e), es)
  {
    match e
    case NewDisk(names, parts) =>
      var m1 := m.(disks := m.disks + [Disk(names, parts, true)]);
      StillAskedFor(m, m1, es);
      StaticsAsked(m1, |m.disks|, es);
    case NewStatic(name) => NewStaticAsked(m, name, es);
    case Dynamic(name) => DynamicAsked(m, name, es);
    case Check =>
      RemoveEachNothingNew(m, DeadAll(m, |m.disks|));
      StillAskedFor(m, CheckClients(m), es);
    case _ => StillAskedFor(m, Step(m, e), es);
  }

  lemma NewStaticAsked(m: Mgr, name: string, es: seq<Event>)
    requires AskedFor(m, es) && NewStatic(name) in es
    ensures AskedFor(Step(m, NewStatic(name)), es)
  {
    var m' := Step(m, NewStatic(name));
    assert m'.disks == m.disks && m'.ifaces == m.ifaces;
    forall pl | pl in m'.ifaces ensures Wanted(m', es, pl) {
      StillWanted(m, m', es, pl);
    }
    forall i | 0 <= i < |m'.statics| ensures AskedIn(es, m'.statics[i].name) {
      if i < |m.statics| { assert m'.statics[i] == m.statics[i]; }
    }
  }

  lemma {:induction false} RunAsked(m: Mgr, fs: seq<Event>, es: seq<Event>)
    requires AskedFor(m, es) && Run(m, fs) && forall k :: 0 <= k < |fs| ==> fs[k] in es
    ensures AskedFor(After(m, fs), es)
    decreases |fs|
  {
    if fs != [] {
      StepAsked(m, fs[0], es);
      RunAsked(Step(m, fs[0]), fs[1..], es);
    }
  }

  /** Over every run: nobody is attached to a device under a name that nobody asked for. */
  lemma OnlyAskedForAttached(es: seq<Event>, pl: Place)
    requires Run(Initial, es) && pl in After(Initial, es).ifaces
    ensures Wanted(After(Initial, es), es, pl)
  {
    RunAsked(Initial, es, es);
  }
}
