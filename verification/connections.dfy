/**
 The connection tree of the device manager: disks with their partitions, the clients attached to
 them, the clients waiting for a device, and the deferred removal of clients that disappeared.
 */
module Connections {
  import opened Wrappers

  datatype Code = Ok | Enodev | Ebusy | Eio

  /** A connection point: a disk or one of its partitions. */
  datatype Place = Place(disk: nat, part: Option<nat>)

  /** The names a disk and its partitions answer to, and whether it is not shutting down. */
  datatype Disk = Disk(names: set<string>, parts: seq<set<string>>, running: bool)

  /** `alive`: its gate is still valid; `gone`: it was told so; `inFlight`: requests with the device. */
  datatype Client = Client(id: nat, alive: bool, gone: bool, inFlight: nat)

  /** A client waiting for a device to appear; `uses` counts how often it was attached. */
  datatype Static = Static(name: string, gate: bool, uses: nat)

  /** `fault` records that a removal found nothing to remove (a failed assertion in the program). */
  datatype Mgr = Mgr(
    disks: seq<Disk>, ifaces: map<Place, Client>, sched: seq<nat>, next: nat,
    statics: seq<Static>, errands: seq<Place>, fault: bool)

  predicate Exists(m: Mgr, pl: Place) {
    pl.disk < |m.disks| && (pl.part.Some? ==> pl.part.value < |m.disks[pl.disk].parts|)
  }

  // ---------------------------------------------------------------- attaching

  function Attach(m: Mgr, pl: Place): Mgr {
    m.(ifaces := m.ifaces[pl := Client(m.next, true, false, 0)], sched := m.sched + [m.next], next := m.next + 1)
  }

  /** The answer of partition `p` to somebody asking for `name`. */
  function AnswerPart(m: Mgr, d: nat, p: nat, name: string): Code
    requires d < |m.disks| && p < |m.disks[d].parts|
  {
    if !m.disks[d].running then Eio
    else if Place(d, Some(p)) in m.ifaces then (if name in m.disks[d].parts[p] then Ebusy else Enodev)
    else if name in m.disks[d].parts[p] then Ok else Enodev
  }

  /** The first partition from `p` on that does not say it is not the one. */
  function FirstPart(m: Mgr, d: nat, p: nat, name: string): (r: nat)
    requires d < |m.disks| && p <= |m.disks[d].parts|
    ensures p <= r <= |m.disks[d].parts|
    ensures forall k :: p <= k < r ==> AnswerPart(m, d, k, name) == Enodev
    ensures r < |m.disks[d].parts| ==> AnswerPart(m, d, r, name) != Enodev
    decreases |m.disks[d].parts| - p
  {
    if p == |m.disks[d].parts| || AnswerPart(m, d, p, name) != Enodev then p else FirstPart(m, d, p + 1, name)
  }

  predicate PartAttached(m: Mgr, d: nat, n: nat) {
    exists p :: 0 <= p < n && Place(d, Some(p)) in m.ifaces
  }

  predicate ContainsDevice(disk: Disk, name: string) {
    name in disk.names || exists p :: 0 <= p < |disk.parts| && name in disk.parts[p]
  }

  /** `create_interface_for` on disk `d`. */
  function CreateInterface(m: Mgr, d: nat, name: string): (Mgr, Code)
    requires d < |m.disks|
  {
    var disk := m.disks[d];
    if !disk.running then (m, Eio)
    else if Place(d, None) in m.ifaces then (m, if ContainsDevice(disk, name) then Ebusy else Enodev)
    else
      var p := FirstPart(m, d, 0, name);
      if p < |disk.parts| then
        var ret := AnswerPart(m, d, p, name);
        (if ret == Ok then Attach(m, Place(d, Some(p))) else m, ret)
      else if name !in disk.names then (m, Enodev)
      else if PartAttached(m, d, |disk.parts|) then (m, Ebusy)
      else (Attach(m, Place(d, None)), Ok)
  }

  /** `create_dynamic_client`: ask the disks from the youngest on, `d` of them left. */
  function CreateDynamic(m: Mgr, d: nat, name: string): (Mgr, Code)
    requires d <= |m.disks|
  {
    if d == 0 then (m, Enodev)
    else
      var (m1, ret) := CreateInterface(m, d - 1, name);
      if ret == Enodev then CreateDynamic(m, d - 1, name) else (m1, ret)
  }

  /** One waiting client asks disk `d`; the flag tells whether the next one may ask too. */
  function ConnectOne(m: Mgr, d: nat, i: nat): (r: (Mgr, bool))
    requires d < |m.disks| && i < |m.statics|
    ensures |r.0.disks| == |m.disks| && |r.0.statics| == |m.statics|
  {
    var st := m.statics[i];
    if !st.gate then (m, true)
    else
      var (m1, ret) := CreateInterface(m, d, st.name);
      if ret == Ok then (m1.(statics := m.statics[i := st.(gate := false, uses := st.uses + 1)]), true)
      else (m, ret == Enodev)
  }

  /** `connect_static_clients` for disk `d`, from waiting client `i` on. */
  function ConnectStatics(m: Mgr, d: nat, i: nat): Mgr
    requires d < |m.disks| && i <= |m.statics|
    decreases |m.statics| - i
  {
    if i == |m.statics| then m
    else
      var (m1, go) := ConnectOne(m, d, i);
      if go then ConnectStatics(m1, d, i + 1) else m1
  }

  function AddDisk(m: Mgr, names: set<string>, parts: seq<set<string>>): Mgr {
    ConnectStatics(m.(disks := m.disks + [Disk(names, parts, true)]), |m.disks|, 0)
  }

  // ---------------------------------------------------------------- removing

  function Without(ids: seq<nat>, id: nat): (r: seq<nat>)
    ensures forall x :: x in r <==> x in ids && x != id
    ensures NoDup(ids) ==> NoDup(r)
  {
    if ids == [] then []
    else
      NoDupCons(ids[0], ids[1..]);
      var rest := Without(ids[1..], id);
      assert ids == [ids[0]] + ids[1..];
      if ids[0] == id then rest else (NoDupCons(ids[0], rest); [ids[0]] + rest)
  }

  predicate NoDup<T(==)>(s: seq<T>) { forall i, j :: 0 <= i < j < |s| ==> s[i] != s[j] }

  lemma NoDupCons<T>(x: T, s: seq<T>)
    ensures NoDup([x] + s) <==> x !in s && NoDup(s)
  {
    var t := [x] + s;
    if NoDup(t) {
      forall i | 0 <= i < |s| ensures s[i] != x { assert t[0] == x && t[i + 1] == s[i]; }
      forall i, j | 0 <= i < j < |s| ensures s[i] != s[j] { assert t[i + 1] == s[i] && t[j + 1] == s[j]; }
    }
  }

  lemma NoDupSnoc<T>(s: seq<T>, x: T)
    requires NoDup(s)
    ensures NoDup(s + [x]) <==> x !in s
  {
    var t := s + [x];
    if NoDup(t) {
      forall i | 0 <= i < |s| ensures s[i] != x { assert t[i] == s[i] && t[|s|] == x; }
    }
  }

  /** `remove_client`: tell the client it is gone, and drop it now or, while it is busy, later. */
  function RemoveClient(m: Mgr, pl: Place): Mgr {
    if pl !in m.ifaces then m.(fault := true)
    else
      var c := m.ifaces[pl].(gone := true);
      if c.inFlight != 0 then m.(ifaces := m.ifaces[pl := c], errands := m.errands + [pl])
      else m.(ifaces := m.ifaces - {pl}, sched := Without(m.sched, c.id))
  }

  function RemoveEach(m: Mgr, ps: seq<Place>): Mgr
    decreases |ps|
  {
    if ps == [] then m else RemoveEach(RemoveClient(m, ps[0]), ps[1..])
  }

  predicate Dead(m: Mgr, pl: Place) { pl in m.ifaces && !m.ifaces[pl].alive }

  function DeadParts(m: Mgr, d: nat, n: nat): seq<Place> {
    if n == 0 then []
    else DeadParts(m, d, n - 1) + (if Dead(m, Place(d, Some(n - 1))) then [Place(d, Some(n - 1))] else [])
  }

  /** The connection points of disk `d` whose client `check_clients` finds dead. */
  function DeadAt(m: Mgr, d: nat): seq<Place>
    requires d < |m.disks|
  {
    if Place(d, None) in m.ifaces then (if Dead(m, Place(d, None)) then [Place(d, None)] else [])
    else DeadParts(m, d, |m.disks[d].parts|)
  }

  /** What is found on each of the first `d` disks. */
  function DeadLists(m: Mgr, d: nat): (r: seq<seq<Place>>)
    requires d <= |m.disks|
    ensures |r| == d && forall e :: 0 <= e < d ==> r[e] == DeadAt(m, e)
  {
    if d == 0 then [] else DeadLists(m, d - 1) + [DeadAt(m, d - 1)]
  }

  /** All of it in one list; the last disk comes first. */
  function Joined(lists: seq<seq<Place>>, n: nat): seq<Place>
    requires n <= |lists|
  {
    if n == 0 then [] else lists[n - 1] + Joined(lists, n - 1)
  }

  function DeadAll(m: Mgr, d: nat): seq<Place>
    requires d <= |m.disks|
  {
    Joined(DeadLists(m, d), d)
  }

  lemma {:induction false} DeadPartsAre(m: Mgr, d: nat, n: nat)
    ensures forall pl :: pl in DeadParts(m, d, n) <==> pl.disk == d && pl.part.Some? && pl.part.value < n && Dead(m, pl)
    ensures NoDup(DeadParts(m, d, n))
  {
    if n > 0 { DeadPartsAre(m, d, n - 1); }
  }

  lemma DeadAtAre(m: Mgr, d: nat)
    requires d < |m.disks|
    ensures NoDup(DeadAt(m, d)) && forall pl :: pl in DeadAt(m, d) ==> pl.disk == d && Dead(m, pl)
  {
    DeadPartsAre(m, d, |m.disks[d].parts|);
  }

  lemma DisksApart(a: seq<Place>, b: seq<Place>, d: nat)
    requires NoDup(a) && NoDup(b) && (forall pl :: pl in a ==> pl.disk == d) && forall pl :: pl in b ==> pl.disk < d
    ensures NoDup(a + b)
  {
    var t := a + b;
    forall i, j | 0 <= i < j < |t| ensures t[i] != t[j] {
      if i < |a| <= j { assert t[i] in a && t[j] in b; }
    }
  }

  lemma {:induction false} JoinedApart(lists: seq<seq<Place>>, n: nat)
    requires n <= |lists|
    requires forall e :: 0 <= e < n ==> NoDup(lists[e]) && forall pl :: pl in lists[e] ==> pl.disk == e
    ensures NoDup(Joined(lists, n)) && forall pl :: pl in Joined(lists, n) ==> pl.disk < n
  {
    if n > 0 {
      JoinedApart(lists, n - 1);
      DisksApart(lists[n - 1], Joined(lists, n - 1), n - 1);
    }
  }

  lemma {:induction false} JoinedHas(lists: seq<seq<Place>>, n: nat, pl: Place)
    requires n <= |lists|
    ensures pl in Joined(lists, n) <==> exists e :: 0 <= e < n && pl in lists[e]
  {
    if n > 0 { JoinedHas(lists, n - 1, pl); }
  }

  /** Every place found is one of a dead client, and none is found twice. */
  lemma DeadAllAre(m: Mgr, d: nat)
    requires d <= |m.disks|
    ensures NoDup(DeadAll(m, d)) && forall pl :: pl in DeadAll(m, d) ==> pl.disk < d && Dead(m, pl)
  {
    var lists := DeadLists(m, d);
    forall e | 0 <= e < d
      ensures NoDup(lists[e]) && forall pl: Place :: pl in lists[e] ==> pl.disk == e && Dead(m, pl)
    {
      DeadAtAre(m, e);
    }
    JoinedApart(lists, d);
    forall pl | pl in Joined(lists, d) ensures Dead(m, pl) {
      JoinedHas(lists, d, pl);
    }
  }

  /** No dead client is missed, as long as attachment is exclusive. */
  lemma DeadAllHas(m: Mgr, d: nat, pl: Place)
    requires d <= |m.disks| && pl.disk < d && Exists(m, pl) && Exclusive(m) && Dead(m, pl)
    ensures pl in DeadAll(m, d)
  {
    DeadPartsAre(m, pl.disk, |m.disks[pl.disk].parts|);
    assert pl in DeadLists(m, d)[pl.disk];
    JoinedHas(DeadLists(m, d), d, pl);
  }

  /** `check_clients`: remove every client whose gate is no longer valid. */
  function CheckClients(m: Mgr): Mgr { RemoveEach(m, DeadAll(m, |m.disks|)) }

  // ---------------------------------------------------------------- events

  datatype Event =
    | NewDisk(names: set<string>, parts: seq<set<string>>)
    | NewStatic(name: string)
    | Dynamic(name: string)
    | Shutdown(running: bool)
    | Dies(place: Place)
    | Traffic(place: Place, inFlight: nat)
    | Check
    | ErrandFires(k: nat)

  predicate Enabled(m: Mgr, e: Event) {
    match e
    case Dies(pl) => pl in m.ifaces
    case Traffic(pl, _) => pl in m.ifaces
    case ErrandFires(k) => k < |m.errands|
    case _ => true
  }

  function Step(m: Mgr, e: Event): Mgr
    requires Enabled(m, e)
  {
    match e
    case NewDisk(names, parts) => AddDisk(m, names, parts)
    case NewStatic(name) => m.(statics := m.statics + [Static(name, true, 0)])
    case Dynamic(name) => CreateDynamic(m, |m.disks|, name).0
    case Shutdown(running) =>
      m.(disks := seq(|m.disks|, d requires 0 <= d < |m.disks| => m.disks[d].(running := running)))
    case Dies(pl) => m.(ifaces := m.ifaces[pl := m.ifaces[pl].(alive := false)])
    case Traffic(pl, n) => m.(ifaces := m.ifaces[pl := m.ifaces[pl].(inFlight := n)])
    case Check => CheckClients(m)
    case ErrandFires(k) => RemoveClient(m.(errands := m.errands[..k] + m.errands[k + 1..]), m.errands[k])
  }

  predicate Run(m: Mgr, es: seq<Event>)
    decreases |es|
  {
    es == [] || (Enabled(m, es[0]) && Run(Step(m, es[0]), es[1..]))
  }

  function After(m: Mgr, es: seq<Event>): Mgr
    requires Run(m, es)
    decreases |es|
  {
    if es == [] then m else After(Step(m, es[0]), es[1..])
  }

  const Initial: Mgr := Mgr([], map[], [], 0, [], [], false)

  // ---------------------------------------------------------------- exclusive attachment

  /** A disk and one of its partitions are never attached together. */
  predicate Exclusive(m: Mgr) {
    forall pl :: pl in m.ifaces && pl.part.Some? ==> Place(pl.disk, None) !in m.ifaces
  }

  /** The scheduler's list holds exactly the attached clients, each once. */
  predicate Scheduled(m: Mgr) {
    && NoDup(m.sched)
    && (forall pl :: pl in m.ifaces ==> m.ifaces[pl].id in m.sched && m.ifaces[pl].id < m.next)
    && (forall id :: id in m.sched ==> id < m.next && exists pl :: pl in m.ifaces && m.ifaces[pl].id == id)
    && (forall pl, q :: pl in m.ifaces && q in m.ifaces && m.ifaces[pl].id == m.ifaces[q].id ==> pl == q)
  }

  /** A waiting client is attached at most once. */
  predicate StaticOnce(m: Mgr) {
    forall i :: 0 <= i < |m.statics| ==> m.statics[i].uses == if m.statics[i].gate then 0 else 1
  }

  predicate Placed(m: Mgr) { Exclusive(m) && forall pl :: pl in m.ifaces ==> Exists(m, pl) }

  predicate Inv(m: Mgr) { Placed(m) && Scheduled(m) && StaticOnce(m) }

  lemma AttachScheduled(m: Mgr, pl: Place)
    requires Scheduled(m) && pl !in m.ifaces
    ensures Scheduled(Attach(m, pl))
  {
    var m' := Attach(m, pl);
    NoDupSnoc(m.sched, m.next);
    forall id | id in m'.sched ensures exists q :: q in m'.ifaces && m'.ifaces[q].id == id {
      if id in m.sched {
        var q :| q in m.ifaces && m.ifaces[q].id == id;
        assert q in m'.ifaces && m'.ifaces[q] == m.ifaces[q];
      } else {
        assert pl in m'.ifaces;
      }
    }
  }

  lemma AttachInv(m: Mgr, pl: Place)
    requires Inv(m) && pl !in m.ifaces && Exists(m, pl)
    requires forall q :: q in m.ifaces && q.disk == pl.disk ==> q.part.Some? && pl.part.Some?
    ensures Inv(Attach(m, pl))
  {
    AttachScheduled(m, pl);
    AttachPlaced(m, pl);
  }

  lemma AttachPlaced(m: Mgr, pl: Place)
    requires Placed(m) && pl !in m.ifaces && Exists(m, pl)
    requires forall q :: q in m.ifaces && q.disk == pl.disk ==> q.part.Some? && pl.part.Some?
    ensures Placed(Attach(m, pl))
  {
    assert Place(pl.disk, None) !in m.ifaces;
  }

  lemma DropScheduled(m: Mgr, pl: Place)
    requires Scheduled(m) && pl in m.ifaces
    ensures Scheduled(m.(ifaces := m.ifaces - {pl}, sched := Without(m.sched, m.ifaces[pl].id)))
  {
    var ifaces, sched := m.ifaces - {pl}, Without(m.sched, m.ifaces[pl].id);
    forall id | id in sched ensures exists q :: q in ifaces && ifaces[q].id == id {
      var q :| q in m.ifaces && m.ifaces[q].id == id;
      assert q in ifaces && ifaces[q].id == id;
    }
    forall q | q in ifaces ensures ifaces[q].id in sched {
      assert q in m.ifaces && ifaces[q] == m.ifaces[q];
    }
  }

  lemma RemoveScheduled(m: Mgr, pl: Place)
    requires Scheduled(m) && pl in m.ifaces
    ensures Scheduled(RemoveClient(m, pl))
  {
    var c := m.ifaces[pl].(gone := true);
    if c.inFlight != 0 {
      UpdateScheduled(m, pl, c);
      assert Scheduled(m.(ifaces := m.ifaces[pl := c], errands := m.errands + [pl]));
    } else {
      DropScheduled(m, pl);
    }
  }

  lemma RemoveInv(m: Mgr, pl: Place)
    requires Inv(m)
    ensures Inv(RemoveClient(m, pl))
  {
    if pl in m.ifaces {
      RemoveScheduled(m, pl);
      RemovePlaced(m, pl);
    }
  }

  lemma RemovePlaced(m: Mgr, pl: Place)
    requires Placed(m) && pl in m.ifaces
    ensures Placed(RemoveClient(m, pl))
  {
    var m' := RemoveClient(m, pl);
    assert forall q :: q in m'.ifaces ==> q in m.ifaces;
  }

  lemma CreateInterfaceInv(m: Mgr, d: nat, name: string)
    requires Inv(m) && d < |m.disks|
    ensures Inv(CreateInterface(m, d, name).0)
    ensures var (m', ret) := CreateInterface(m, d, name);
            m'.statics == m.statics && m'.disks == m.disks && (ret != Ok ==> m' == m)
  {
    var disk := m.disks[d];
    if disk.running && Place(d, None) !in m.ifaces {
      forall q | q in m.ifaces && q.disk == d ensures q.part.Some? && q.part.value < |disk.parts| {
        assert Exists(m, q);
        assert q.part.None? ==> q == Place(d, None);
      }
      forall q | q in m.ifaces && q.disk == d ensures PartAttached(m, d, |disk.parts|) {
        assert Place(d, Some(q.part.value)) in m.ifaces;
      }
      var p := FirstPart(m, d, 0, name);
      if p < |disk.parts| {
        if AnswerPart(m, d, p, name) == Ok { AttachInv(m, Place(d, Some(p))); }
      } else if name in disk.names && !PartAttached(m, d, |disk.parts|) {
        AttachInv(m, Place(d, None));
      }
    }
  }

  lemma {:induction false} CreateDynamicInv(m: Mgr, d: nat, name: string)
    requires Inv(m) && d <= |m.disks|
    ensures Inv(CreateDynamic(m, d, name).0)
    decreases d
  {
    if d > 0 {
      var (m', ret) := CreateInterface(m, d - 1, name);
      if ret == Enodev {
        CreateDynamicInv(m, d - 1, name);
        assert CreateDynamic(m, d, name) == CreateDynamic(m, d - 1, name);
      } else {
        CreateInterfaceInv(m, d - 1, name);
        assert CreateDynamic(m, d, name).0 == m';
      }
    }
  }

  lemma ConnectOneInv(m: Mgr, d: nat, i: nat)
    requires Inv(m) && d < |m.disks| && i < |m.statics|
    ensures Inv(ConnectOne(m, d, i).0)
  {
    CreateInterfaceInv(m, d, m.statics[i].name);
    var (m1, ret) := CreateInterface(m, d, m.statics[i].name);
    var m2 := ConnectOne(m, d, i).0;
    assert m2 == m || m2 == m1.(statics := m2.statics);
    assert Placed(m2) && Scheduled(m2) by {
      assert m2.ifaces == m1.ifaces || m2 == m;
    }
  }

  lemma {:induction false} ConnectStaticsInv(m: Mgr, d: nat, i: nat)
    requires Inv(m) && d < |m.disks| && i <= |m.statics|
    ensures Inv(ConnectStatics(m, d, i))
    decreases |m.statics| - i
  {
    if i < |m.statics| {
      ConnectOneInv(m, d, i);
      var (m1, go) := ConnectOne(m, d, i);
      if go { ConnectStaticsInv(m1, d, i + 1); }
    }
  }

  lemma {:induction false} RemoveEachInv(m: Mgr, ps: seq<Place>)
    requires Inv(m)
    ensures Inv(RemoveEach(m, ps))
    decreases |ps|
  {
    if ps != [] {
      RemoveInv(m, ps[0]);
      RemoveEachInv(RemoveClient(m, ps[0]), ps[1..]);
    }
  }

  lemma UpdateScheduled(m: Mgr, pl: Place, c: Client)
    requires Scheduled(m) && pl in m.ifaces && c.id == m.ifaces[pl].id
    ensures Scheduled(m.(ifaces := m.ifaces[pl := c]))
  {
    var m' := m.(ifaces := m.ifaces[pl := c]);
    assert forall q :: q in m'.ifaces ==> q in m.ifaces && m'.ifaces[q].id == m.ifaces[q].id;
    forall id | id in m'.sched ensures exists q :: q in m'.ifaces && m'.ifaces[q].id == id {
      var q :| q in m.ifaces && m.ifaces[q].id == id;
      assert q in m'.ifaces && m'.ifaces[q].id == id;
    }
  }

  lemma UpdateInv(m: Mgr, pl: Place, c: Client)
    requires Inv(m) && pl in m.ifaces && c.id == m.ifaces[pl].id
    ensures Inv(m.(ifaces := m.ifaces[pl := c]))
  {
    UpdateScheduled(m, pl, c);
  }

  lemma NewDiskInv(m: Mgr, names: set<string>, parts: seq<set<string>>)
    requires Inv(m)
    ensures Inv(m.(disks := m.disks + [Disk(names, parts, true)]))
  {
    var m' := m.(disks := m.disks + [Disk(names, parts, true)]);
    forall pl | pl in m'.ifaces ensures Exists(m', pl) { assert Exists(m, pl); }
  }

  lemma NewStaticInv(m: Mgr, name: string)
    requires Inv(m)
    ensures Inv(m.(statics := m.statics + [Static(name, true, 0)]))
  {
    var m' := m.(statics := m.statics + [Static(name, true, 0)]);
    forall pl | pl in m'.ifaces ensures Exists(m', pl) { assert Exists(m, pl); }
  }

  lemma ShutdownInv(m: Mgr, running: bool)
    requires Inv(m)
    ensures Inv(Step(m, Shutdown(running)))
  {
    var m' := Step(m, Shutdown(running));
    forall pl | pl in m'.ifaces ensures Exists(m', pl) { assert Exists(m, pl); }
  }

  lemma ErrandInv(m: Mgr, k: nat)
    requires Inv(m) && k < |m.errands|
    ensures Inv(Step(m, ErrandFires(k)))
  {
    var m' := m.(errands := m.errands[..k] + m.errands[k + 1..]);
    forall pl | pl in m'.ifaces ensures Exists(m', pl) { assert Exists(m, pl); }
    RemoveInv(m', m.errands[k]);
  }

  lemma StepInv(m: Mgr, e: Event)
    requires Inv(m) && Enabled(m, e)
    ensures Inv(Step(m, e))
  {
    match e
    case NewDisk(names, parts) =>
      NewDiskInv(m, names, parts);
      ConnectStaticsInv(m.(disks := m.disks + [Disk(names, parts, true)]), |m.disks|, 0);
    case NewStatic(name) => NewStaticInv(m, name);
    case Dynamic(name) => CreateDynamicInv(m, |m.disks|, name);
    case Shutdown(running) => ShutdownInv(m, running);
    case Dies(pl) => UpdateInv(m, pl, m.ifaces[pl].(alive := false));
    case Traffic(pl, n) => UpdateInv(m, pl, m.ifaces[pl].(inFlight := n));
    case Check => RemoveEachInv(m, DeadAll(m, |m.disks|));
    case ErrandFires(k) => ErrandInv(m, k);
  }

  /** Over every run: at most one client per device, never a disk together with one of its partitions,
      the scheduler serving exactly the attached clients, and no waiting client attached twice. */
  lemma {:induction false} AttachmentIsExclusive(m: Mgr, es: seq<Event>)
    requires Inv(m) && Run(m, es)
    ensures Inv(After(m, es))
    decreases |es|
  {
    if es != [] {
      StepInv(m, es[0]);
      AttachmentIsExclusive(Step(m, es[0]), es[1..]);
    }
  }

  /** No step destroys a client that has requests in flight: a client that disappears had none, and was
      told that it is gone. */
  lemma RemoveDropsIdleOnly(m: Mgr, pl: Place, q: Place)
    requires q in m.ifaces && q !in RemoveClient(m, pl).ifaces
    ensures q == pl && m.ifaces[q].inFlight == 0
  {
  }

  lemma {:induction false} RemoveEachDropsIdleOnly(m: Mgr, ps: seq<Place>, q: Place)
    requires q in m.ifaces && q !in RemoveEach(m, ps).ifaces
    ensures q in ps && m.ifaces[q].inFlight == 0
    decreases |ps|
  {
    if ps != [] {
      var m1 := RemoveClient(m, ps[0]);
      if q in m1.ifaces {
        RemoveEachDropsIdleOnly(m1, ps[1..], q);
      }
    }
  }

  /** Attaching never takes a place away. */
  lemma {:induction false} StaticsKeep(m: Mgr, d: nat, i: nat)
    requires d < |m.disks| && i <= |m.statics|
    ensures m.ifaces.Keys <= ConnectStatics(m, d, i).ifaces.Keys
    decreases |m.statics| - i
  {
    if i < |m.statics| {
      var (m1, go) := ConnectOne(m, d, i);
      if go { StaticsKeep(m1, d, i + 1); }
    }
  }

  lemma {:induction false} DynamicKeeps(m: Mgr, d: nat, name: string)
    requires d <= |m.disks|
    ensures m.ifaces.Keys <= CreateDynamic(m, d, name).0.ifaces.Keys
    decreases d
  {
    if d > 0 { DynamicKeeps(m, d - 1, name); }
  }

  lemma DestroyedOnlyIdle(m: Mgr, e: Event, q: Place)
    requires Enabled(m, e) && q in m.ifaces && q !in Step(m, e).ifaces
    ensures m.ifaces[q].inFlight == 0 && (e.Check? || e.ErrandFires?)
  {
    match e
    case NewDisk(names, parts) => StaticsKeep(m.(disks := m.disks + [Disk(names, parts, true)]), |m.disks|, 0);
    case Dynamic(name) => DynamicKeeps(m, |m.disks|, name);
    case Check => RemoveEachDropsIdleOnly(m, DeadAll(m, |m.disks|), q);
    case ErrandFires(k) => RemoveDropsIdleOnly(m.(errands := m.errands[..k] + m.errands[k + 1..]), m.errands[k], q);
    case _ =>
  }

  // ---------------------------------------------------------------- deferred removals

  /** Every deferred removal will find the dead client it was scheduled for, and is scheduled once. */
  predicate ErrandsSound(m: Mgr) {
    && NoDup(m.errands)
    && forall pl :: pl in m.errands ==> Dead(m, pl) && m.ifaces[pl].gone
  }

  /** Removing a list of dead clients leaves each of them either dropped or with one more errand. */
  lemma {:induction false} RemoveEachEffect(m: Mgr, ps: seq<Place>, pl: Place)
    requires NoDup(ps) && pl in m.ifaces
    requires forall q :: q in ps ==> q in m.ifaces
    ensures
      var m' := RemoveEach(m, ps);
      if pl !in ps then
        pl in m'.ifaces && m'.ifaces[pl] == m.ifaces[pl] && multiset(m'.errands)[pl] == multiset(m.errands)[pl]
      else if m.ifaces[pl].inFlight == 0 then
        pl !in m'.ifaces && multiset(m'.errands)[pl] == multiset(m.errands)[pl]
      else
        pl in m'.ifaces && m'.ifaces[pl] == m.ifaces[pl].(gone := true)
        && multiset(m'.errands)[pl] == multiset(m.errands)[pl] + 1
    decreases |ps|
  {
    if ps != [] {
      assert ps == [ps[0]] + ps[1..];
      NoDupCons(ps[0], ps[1..]);
      var m1 := RemoveClient(m, ps[0]);
      if pl in m1.ifaces {
        RemoveEachEffect(m1, ps[1..], pl);
      } else {
        RemoveEachGone(m1, ps[1..], pl);
      }
    }
  }

  lemma {:induction false} RemoveEachGone(m: Mgr, ps: seq<Place>, pl: Place)
    requires pl !in m.ifaces && pl !in ps
    ensures pl !in RemoveEach(m, ps).ifaces && multiset(RemoveEach(m, ps).errands)[pl] == multiset(m.errands)[pl]
    decreases |ps|
  {
    if ps != [] { RemoveEachGone(RemoveClient(m, ps[0]), ps[1..], pl); }
  }

  lemma {:induction false} NoDupCounts<T(!new)>(s: seq<T>)
    ensures NoDup(s) <==> forall x :: multiset(s)[x] <= 1
  {
    if s != [] {
      var t := s[1..];
      assert s == [s[0]] + t;
      NoDupCons(s[0], t);
      NoDupCounts(t);
      assert forall x :: multiset(s)[x] == multiset(t)[x] + (if x == s[0] then 1 else 0);
      if NoDup(s) {
        assert multiset(t)[s[0]] == 0;
      } else if NoDup(t) {
        assert multiset(s)[s[0]] >= 2;
      } else {
        var x :| multiset(t)[x] > 1;
        assert multiset(s)[x] > 1;
      }
    }
  }

  lemma CheckFromRest(m: Mgr)
    requires Inv(m) && m.errands == []
    ensures ErrandsSound(CheckClients(m)) && CheckClients(m).fault == m.fault
  {
    var ps := DeadAll(m, |m.disks|);
    DeadAllAre(m, |m.disks|);
    var m' := CheckClients(m);
    forall pl ensures multiset(m'.errands)[pl] <= 1 && (pl in m'.errands ==> Dead(m', pl) && m'.ifaces[pl].gone) {
      if pl in m.ifaces { RemoveEachEffect(m, ps, pl); } else { RemoveEachGone(m, ps, pl); }
    }
    NoDupCounts(m'.errands);
    RemoveEachFault(m, ps);
  }

  lemma {:induction false} RemoveEachFault(m: Mgr, ps: seq<Place>)
    requires NoDup(ps) && forall q :: q in ps ==> q in m.ifaces
    ensures RemoveEach(m, ps).fault == m.fault
    decreases |ps|
  {
    if ps != [] {
      assert ps == [ps[0]] + ps[1..];
      NoDupCons(ps[0], ps[1..]);
      RemoveEachFault(RemoveClient(m, ps[0]), ps[1..]);
    }
  }

  lemma CheckTooEarly(m: Mgr, pl: Place)
    requires Inv(m) && ErrandsSound(m) && pl in m.errands
    ensures !ErrandsSound(CheckClients(m))
  {
    var ps := DeadAll(m, |m.disks|);
    DeadAllAre(m, |m.disks|);
    assert Exists(m, pl) && Dead(m, pl) && Exclusive(m);
    DeadAllHas(m, |m.disks|, pl);
    RemoveEachEffect(m, ps, pl);
    var m' := CheckClients(m);
    assert multiset(m.errands)[pl] >= 1;
    if m.ifaces[pl].inFlight == 0 {
      assert pl in multiset(m'.errands);
      assert pl in m'.errands && !Dead(m', pl);
    } else {
      NoDupCounts(m'.errands);
      assert multiset(m'.errands)[pl] >= 2;
    }
  }

  /** Looking for dead clients keeps the deferred removals sound exactly if none is outstanding. */
  lemma CheckIsSafe(m: Mgr)
    requires Inv(m) && ErrandsSound(m)
    ensures ErrandsSound(CheckClients(m)) <==> m.errands == []
  {
    if m.errands == [] { CheckFromRest(m); } else { CheckTooEarly(m, m.errands[0]); }
  }

  lemma ErrandKeepsSound(m: Mgr, k: nat)
    requires ErrandsSound(m) && k < |m.errands|
    ensures ErrandsSound(Step(m, ErrandFires(k)))
  {
    TakeOut(m.errands, k);
    var pl, rest := m.errands[k], m.errands[..k] + m.errands[k + 1..];
    assert forall x :: x in rest ==> x in m.errands && x != pl;
    assert pl in m.errands && Dead(m, pl) && m.ifaces[pl].gone;
    NoDupSnoc(rest, pl);
  }

  /** A sound deferred removal finds its client, removes only clients that are dead, and stays sound. */
  lemma ErrandIsSafe(m: Mgr, k: nat, q: Place)
    requires ErrandsSound(m) && k < |m.errands|
    ensures var m' := Step(m, ErrandFires(k));
            && ErrandsSound(m') && m'.fault == m.fault
            && (q in m.ifaces && q !in m'.ifaces ==> !m.ifaces[q].alive)
  {
    ErrandKeepsSound(m, k);
    assert m.errands[k] in m.errands;
  }

  lemma TakeOut(s: seq<Place>, k: nat)
    requires NoDup(s) && k < |s|
    ensures var rest := s[..k] + s[k + 1..]; NoDup(rest) && s[k] !in rest && forall x :: x in rest ==> x in s
  {
    var rest := s[..k] + s[k + 1..];
    forall i | 0 <= i < |rest| ensures rest[i] == s[if i < k then i else i + 1] {
    }
  }

  /** Dead clients are only looked for while no removal is deferred. */
  predicate Patient(m: Mgr, es: seq<Event>)
    requires Run(m, es)
    decreases |es|
  {
    es == [] || ((es[0].Check? ==> m.errands == []) && Patient(Step(m, es[0]), es[1..]))
  }

  /** Attaching leaves errands and the clients already there alone. */
  predicate Extends(m: Mgr, m': Mgr) {
    && m'.errands == m.errands && m'.fault == m.fault
    && forall pl :: pl in m.ifaces ==> pl in m'.ifaces && m'.ifaces[pl] == m.ifaces[pl]
  }

  lemma CreateInterfaceExtends(m: Mgr, d: nat, name: string)
    requires d < |m.disks|
    ensures Extends(m, CreateInterface(m, d, name).0)
  {
  }

  lemma {:induction false} CreateDynamicExtends(m: Mgr, d: nat, name: string)
    requires d <= |m.disks|
    ensures Extends(m, CreateDynamic(m, d, name).0)
    decreases d
  {
    if d > 0 {
      CreateInterfaceExtends(m, d - 1, name);
      CreateDynamicExtends(m, d - 1, name);
    }
  }

  lemma {:induction false} ConnectStaticsExtends(m: Mgr, d: nat, i: nat)
    requires d < |m.disks| && i <= |m.statics|
    ensures Extends(m, ConnectStatics(m, d, i))
    decreases |m.statics| - i
  {
    if i < |m.statics| {
      CreateInterfaceExtends(m, d, m.statics[i].name);
      var (m1, go) := ConnectOne(m, d, i);
      assert Extends(m, m1);
      if go { ConnectStaticsExtends(m1, d, i + 1); }
    }
  }

  lemma StepSound(m: Mgr, e: Event)
    requires Inv(m) && ErrandsSound(m) && !m.fault && Enabled(m, e) && (e.Check? ==> m.errands == [])
    ensures ErrandsSound(Step(m, e)) && !Step(m, e).fault
  {
    match e
    case NewDisk(names, parts) =>
      ConnectStaticsExtends(m.(disks := m.disks + [Disk(names, parts, true)]), |m.disks|, 0);
    case Dynamic(name) => CreateDynamicExtends(m, |m.disks|, name);
    case Check => CheckFromRest(m);
    case ErrandFires(k) => ErrandIsSafe(m, k, m.errands[k]);
    case _ =>
  }

  /** The client attached at `q` is attached there no longer, whether or not another one is. */
  predicate Loses(m: Mgr, m': Mgr, q: Place) {
    q in m.ifaces && (q !in m'.ifaces || m'.ifaces[q].id != m.ifaces[q].id)
  }

  lemma CheckSpares(m: Mgr, q: Place)
    ensures Loses(m, CheckClients(m), q) ==> !m.ifaces[q].alive && m.ifaces[q].inFlight == 0
  {
    var ps := DeadAll(m, |m.disks|);
    DeadAllAre(m, |m.disks|);
    if q in m.ifaces { RemoveEachEffect(m, ps, q); }
  }

  lemma ErrandSpares(m: Mgr, k: nat, q: Place)
    requires ErrandsSound(m) && k < |m.errands|
    ensures Loses(m, Step(m, ErrandFires(k)), q) ==> !m.ifaces[q].alive && m.ifaces[q].inFlight == 0
  {
    assert m.errands[k] in m.errands && Dead(m, m.errands[k]);
  }

  /** Only dead clients without requests in flight are ever detached. */
  lemma StepSpares(m: Mgr, e: Event, q: Place)
    requires ErrandsSound(m) && Enabled(m, e)
    ensures Loses(m, Step(m, e), q) ==> !m.ifaces[q].alive && m.ifaces[q].inFlight == 0
  {
    match e
    case NewDisk(names, parts) =>
      ConnectStaticsExtends(m.(disks := m.disks + [Disk(names, parts, true)]), |m.disks|, 0);
    case Dynamic(name) => CreateDynamicExtends(m, |m.disks|, name);
    case Check => CheckSpares(m, q);
    case ErrandFires(k) => ErrandSpares(m, k, q);
    case _ =>
  }

  ghost predicate SparesLive(m: Mgr, es: seq<Event>)
    requires Run(m, es)
    decreases |es|
  {
    es == [] ||
    (var m' := Step(m, es[0]);
     && (forall q :: Loses(m, m', q) ==> !m.ifaces[q].alive && m.ifaces[q].inFlight == 0)
     && SparesLive(m', es[1..]))
  }

  /** In every run that looks for dead clients only while no removal is deferred, no removal ever finds
      its client missing, and at no step a client that is alive or has requests in flight is removed. */
  lemma {:induction false} PatientRunIsSound(m: Mgr, es: seq<Event>)
    requires Inv(m) && ErrandsSound(m) && !m.fault && Run(m, es) && Patient(m, es)
    ensures ErrandsSound(After(m, es)) && !After(m, es).fault && SparesLive(m, es)
    decreases |es|
  {
    if es != [] {
      StepInv(m, es[0]);
      StepSound(m, es[0]);
      forall q ensures Loses(m, Step(m, es[0]), q) ==> !m.ifaces[q].alive && m.ifaces[q].inFlight == 0 {
        StepSpares(m, es[0], q);
      }
      PatientRunIsSound(Step(m, es[0]), es[1..]);
    }
  }

  // ---------------------------------------------------------------- what goes wrong otherwise

  lemma {:induction false} RemoveEachErrands(m: Mgr, ps: seq<Place>)
    ensures m.errands <= RemoveEach(m, ps).errands
    decreases |ps|
  {
    if ps != [] { RemoveEachErrands(RemoveClient(m, ps[0]), ps[1..]); }
  }

  lemma CheckDrops(m: Mgr, pl: Place)
    requires Inv(m) && pl in m.ifaces && Dead(m, pl) && m.ifaces[pl].inFlight == 0
    ensures pl !in CheckClients(m).ifaces && m.errands <= CheckClients(m).errands
  {
    var ps := DeadAll(m, |m.disks|);
    DeadAllAre(m, |m.disks|);
    assert Exists(m, pl) && Exclusive(m);
    DeadAllHas(m, |m.disks|, pl);
    RemoveEachEffect(m, ps, pl);
    RemoveEachErrands(m, ps);
  }

  /** Once the requests of a client awaiting its deferred removal have drained, a look for dead clients
      removes it first, and the deferred removal then fails. */
  lemma EarlyCheckFaults(m: Mgr, k: nat)
    requires Inv(m) && ErrandsSound(m) && k < |m.errands|
    requires m.errands[k] in m.ifaces && m.ifaces[m.errands[k]].inFlight == 0
    ensures var m' := Step(m, Check); Enabled(m', ErrandFires(k)) && Step(m', ErrandFires(k)).fault
  {
    var pl, m' := m.errands[k], CheckClients(m);
    assert pl in m.errands;
    CheckDrops(m, pl);
    assert m'.errands[k] == pl;
  }

  lemma {:induction false} DynamicClientIsNew(m: Mgr, d: nat, name: string, pl: Place)
    requires d <= |m.disks| && pl !in m.ifaces && pl in CreateDynamic(m, d, name).0.ifaces
    ensures CreateDynamic(m, d, name).0.ifaces[pl] == Client(m.next, true, false, 0)
    decreases d
  {
    var (m1, ret) := CreateInterface(m, d - 1, name);
    if ret == Enodev {
      DynamicClientIsNew(m, d - 1, name, pl);
    }
  }

  lemma ErrandRemoves(m: Mgr, k: nat)
    requires k < |m.errands| && m.errands[k] in m.ifaces && m.ifaces[m.errands[k]].inFlight == 0
    ensures Enabled(m, ErrandFires(k)) && m.errands[k] !in Step(m, ErrandFires(k)).ifaces
  {
  }

  lemma SuccessorRemoved(m: Mgr, k: nat, name: string, m': Mgr)
    requires k < |m.errands| && m.errands[k] !in m.ifaces
    requires m' == CreateDynamic(m, |m.disks|, name).0 && m.errands[k] in m'.ifaces
    ensures m'.ifaces[m.errands[k]].alive && m'.ifaces[m.errands[k]].id == m.next
    ensures Enabled(m', ErrandFires(k)) && m.errands[k] !in Step(m', ErrandFires(k)).ifaces
  {
    DynamicClientIsNew(m, |m.disks|, name, m.errands[k]);
    CreateDynamicExtends(m, |m.disks|, name);
    ErrandRemoves(m', k);
  }

  /** If after such an early look a new client is attached to the same device, the deferred removal that
      was meant for its predecessor removes it, although it is alive. */
  lemma EarlyCheckHitsSuccessor(m: Mgr, k: nat, name: string)
    requires Inv(m) && ErrandsSound(m) && k < |m.errands|
    requires m.errands[k] in m.ifaces && m.ifaces[m.errands[k]].inFlight == 0
    requires m.errands[k] in Step(Step(m, Check), Dynamic(name)).ifaces
    ensures
      var pl, m1 := m.errands[k], Step(m, Check);
      var m2 := Step(m1, Dynamic(name));
      && m2.ifaces[pl].alive && m2.ifaces[pl].id == m1.next
      && Enabled(m2, ErrandFires(k)) && pl !in Step(m2, ErrandFires(k)).ifaces
  {
    var pl, m1 := m.errands[k], CheckClients(m);
    assert pl in m.errands;
    CheckDrops(m, pl);
    assert m1.errands[k] == pl;
    SuccessorRemoved(m1, k, name, CreateDynamic(m1, |m1.disks|, name).0);
  }

  lemma {:induction false} Extend(m: Mgr, es: seq<Event>, e: Event)
    requires Run(m, es) && Enabled(After(m, es), e)
    ensures Run(m, es + [e]) && After(m, es + [e]) == Step(After(m, es), e)
    decreases |es|
  {
    if es == [] {
      assert es + [e] == [e] && [e][1..] == [];
    } else {
      assert (es + [e])[1..] == es[1..] + [e] && (es + [e])[0] == es[0];
      Extend(Step(m, es[0]), es[1..], e);
    }
  }

  const TheDisk: Place := Place(0, None)

  lemma OneClient() returns (es: seq<Event>)
    ensures Run(Initial, es)
    ensures After(Initial, es) ==
            Mgr([Disk({"disk"}, [], true)], map[TheDisk := Client(0, true, false, 0)], [0], 1, [], [], false)
  {
    es := [];
    Extend(Initial, es, NewDisk({"disk"}, [])); es := es + [NewDisk({"disk"}, [])];
    var m := After(Initial, es);
    assert m == Mgr([Disk({"disk"}, [], true)], map[], [], 0, [], [], false);
    assert CreateInterface(m, 0, "disk") == (Attach(m, TheDisk), Ok);
    Extend(Initial, es, Dynamic("disk")); es := es + [Dynamic("disk")];
  }

  lemma OnlyDiskDead(m: Mgr)
    requires |m.disks| == 1 && Dead(m, TheDisk)
    ensures DeadAll(m, 1) == [TheDisk]
  {
    var lists := DeadLists(m, 1);
    assert lists[0] == [TheDisk] && Joined(lists, 0) == [];
    assert Joined(lists, 1) == lists[0] + Joined(lists, 0);
  }

  /** The client of the only disk died with a request in flight, which has finished by now: its removal is
      still deferred. */
  const Drained: Mgr :=
    Mgr([Disk({"disk"}, [], true)], map[TheDisk := Client(0, false, true, 0)], [0], 1, [], [TheDisk], false)

  const Dying: Mgr :=
    Mgr([Disk({"disk"}, [], true)], map[TheDisk := Client(0, false, false, 1)], [0], 1, [], [], false)

  lemma DyingRun() returns (es: seq<Event>)
    ensures Run(Initial, es) && After(Initial, es) == Dying
  {
    es := OneClient();
    Extend(Initial, es, Traffic(TheDisk, 1)); es := es + [Traffic(TheDisk, 1)];
    Extend(Initial, es, Dies(TheDisk)); es := es + [Dies(TheDisk)];
    assert After(Initial, es).ifaces == Dying.ifaces;
  }

  lemma DrainedRun() returns (es: seq<Event>)
    ensures Run(Initial, es) && After(Initial, es) == Drained && Inv(Drained) && ErrandsSound(Drained)
  {
    es := DyingRun();
    var m := Dying;
    OnlyDiskDead(m);
    assert RemoveEach(m, [TheDisk]) == RemoveClient(m, TheDisk) by { assert [TheDisk][1..] == []; }
    Extend(Initial, es, Check); es := es + [Check];
    Extend(Initial, es, Traffic(TheDisk, 0)); es := es + [Traffic(TheDisk, 0)];
    assert After(Initial, es).ifaces == Drained.ifaces;
    AttachmentIsExclusive(Initial, es);
  }

  /** A run in which the program's assertion about the removed client fails. */
  lemma ImpatientRun() returns (es: seq<Event>)
    ensures Run(Initial, es) && After(Initial, es).fault
  {
    es := DrainedRun();
    EarlyCheckFaults(Drained, 0);
    Extend(Initial, es, Check); es := es + [Check];
    Extend(Initial, es, ErrandFires(0)); es := es + [ErrandFires(0)];
  }

  /** What the early look leaves behind, and a new client finds. */
  lemma DrainedChecked()
    ensures var m := CheckClients(Drained);
      m.ifaces == map[] && CreateDynamic(m, |m.disks|, "disk") == (Attach(m, TheDisk), Ok)
  {
    OnlyDiskDead(Drained);
    assert RemoveEach(Drained, [TheDisk]) == RemoveClient(Drained, TheDisk) by { assert [TheDisk][1..] == []; }
    var m := CheckClients(Drained);
    assert CreateInterface(m, 0, "disk") == (Attach(m, TheDisk), Ok);
  }

  /** A run whose last event, the deferred removal of one client, removes another one that is alive. */
  lemma SuccessorRun() returns (es: seq<Event>)
    ensures Run(Initial, es) && Run(Initial, es + [ErrandFires(0)])
    ensures TheDisk in After(Initial, es).ifaces && After(Initial, es).ifaces[TheDisk].alive
    ensures TheDisk !in After(Initial, es + [ErrandFires(0)]).ifaces
  {
    es := DrainedRun();
    Extend(Initial, es, Check); es := es + [Check];
    DrainedChecked();
    Extend(Initial, es, Dynamic("disk")); es := es + [Dynamic("disk")];
    EarlyCheckHitsSuccessor(Drained, 0, "disk");
    Extend(Initial, es, ErrandFires(0));
  }
}
