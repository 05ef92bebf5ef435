/** The receive queue between network driver and device (section 2.7 of VIRTIO 1.2): two rings of 16
    slots with 16-bit indices that wrap, used by two sides that run at the same time. */
module Virtqueue {
  const SIZE: nat := 16
  const WRAP: nat := 0x1_0000

  /** Where the driver is in handling one received buffer. */
  datatype Pc = Wait | Got | Slotted | Published

  /** What is in memory, and what each side has in its registers. */
  datatype Shared = Shared(
    availRing: seq<nat>, availIdx: nat, usedRing: seq<nat>, usedIdx: nat,
    lastUsed: nat, pc: Pc, id: nat, devAvail: nat, devHeld: seq<nat>)

  /** The same protocol without rings or wrap-around: descriptors move through two queues. `avail` are
      published and not taken, `held` are with the device, `used` are returned and not read. The
      counters say how many were ever published, taken, returned and finished with. */
  datatype Ideal = Ideal(
    avail: seq<nat>, held: seq<nat>, used: seq<nat>, hand: seq<nat>,
    published: nat, taken: nat, returned: nat, consumed: nat)

  datatype Rx = Rx(m: Shared, q: Ideal)

  datatype Event = DriverRead | DriverSlot | DriverPublish | DriverAdvance | DeviceTake | DeviceReturn(j: nat)

  // What the code does

  function SharedStep(m: Shared, e: Event): Shared
    requires |m.availRing| == SIZE && |m.usedRing| == SIZE && SharedEnabled(m, e)
  {
    match e
    case DriverRead => m.(id := m.usedRing[m.lastUsed % SIZE], pc := Got)
    case DriverSlot => m.(availRing := m.availRing[m.availIdx % SIZE := m.id], pc := Slotted)
    case DriverPublish => m.(availIdx := (m.availIdx + 1) % WRAP, pc := Published)
    case DriverAdvance => m.(lastUsed := (m.lastUsed + 1) % WRAP, pc := Wait)
    case DeviceTake =>
      m.(devHeld := m.devHeld + [m.availRing[m.devAvail % SIZE]], devAvail := (m.devAvail + 1) % WRAP)
    case DeviceReturn(j) =>
      m.(usedRing := m.usedRing[m.usedIdx % SIZE := m.devHeld[j]], usedIdx := (m.usedIdx + 1) % WRAP,
         devHeld := m.devHeld[..j] + m.devHeld[j + 1..])
  }

  /** The driver looks for returned buffers, and the device for offered ones, by comparing indices; the
      device returns only what it holds, in any order. */
  predicate SharedEnabled(m: Shared, e: Event) {
    match e
    case DriverRead => m.pc == Wait && m.lastUsed != m.usedIdx
    case DriverSlot => m.pc == Got
    case DriverPublish => m.pc == Slotted
    case DriverAdvance => m.pc == Published
    case DeviceTake => m.devAvail != m.availIdx
    case DeviceReturn(j) => j < |m.devHeld|
  }

  // What that means

  function IdealStep(q: Ideal, e: Event): Ideal {
    match e
    case DriverRead => if q.used == [] then q else q.(hand := [q.used[0]], used := q.used[1..])
    case DriverSlot => q
    case DriverPublish => q.(avail := q.avail + q.hand, hand := [], published := q.published + 1)
    case DriverAdvance => q.(consumed := q.consumed + 1)
    case DeviceTake =>
      if q.avail == [] then q
      else q.(held := q.held + [q.avail[0]], avail := q.avail[1..], taken := q.taken + 1)
    case DeviceReturn(j) =>
      if j >= |q.held| then q
      else q.(used := q.used + [q.held[j]], held := q.held[..j] + q.held[j + 1..], returned := q.returned + 1)
  }

  function Step(s: Rx, e: Event): Rx
    requires |s.m.availRing| == SIZE && |s.m.usedRing| == SIZE && SharedEnabled(s.m, e)
  {
    Rx(SharedStep(s.m, e), IdealStep(s.q, e))
  }

  // The invariant

  /** Ring slots `from`, `from + 1`, ... hold the queue `items`. */
  predicate Shows(ring: seq<nat>, from: nat, items: seq<nat>) {
    |ring| == SIZE && |items| <= SIZE && forall k :: 0 <= k < |items| ==> Shown(ring, from, items, k)
  }

  predicate Shown(ring: seq<nat>, from: nat, items: seq<nat>, k: nat)
    requires |ring| == SIZE && k < |items|
  {
    ring[(from + k) % SIZE] == items[k]
  }

  function Read(s: Rx): nat {
    s.q.consumed + if s.m.pc == Wait then 0 else 1
  }

  /** The counters agree with the queues, and 16 more were published than finished with. */
  predicate Counted(s: Rx) {
    && s.q.published == s.q.consumed + SIZE + (if s.m.pc == Published then 1 else 0)
    && s.q.published == s.q.taken + |s.q.avail|
    && s.q.taken == s.q.returned + |s.q.held|
    && s.q.returned == Read(s) + |s.q.used|
    && |s.q.hand| == if s.m.pc == Got || s.m.pc == Slotted then 1 else 0
  }

  predicate Indexed(s: Rx) {
    && s.m.availIdx == s.q.published % WRAP
    && s.m.usedIdx == s.q.returned % WRAP
    && s.m.lastUsed == s.q.consumed % WRAP
    && s.m.devAvail == s.q.taken % WRAP
  }

  predicate Mirrored(s: Rx) {
    && s.m.devHeld == s.q.held
    && Shows(s.m.availRing, s.q.taken, s.q.avail)
    && Shows(s.m.usedRing, Read(s), s.q.used)
    && (s.m.pc == Got || s.m.pc == Slotted ==> s.q.hand == [s.m.id])
    && (s.m.pc == Slotted ==> |s.m.availRing| == SIZE && s.m.availRing[s.q.published % SIZE] == s.m.id)
  }

  function Count(items: seq<nat>, d: nat): nat {
    if items == [] then 0 else Count(items[1..], d) + if items[0] == d then 1 else 0
  }

  function Owners(q: Ideal, d: nat): nat {
    Count(q.avail, d) + Count(q.held, d) + Count(q.used, d) + Count(q.hand, d)
  }

  /** Each of the 16 descriptors is with exactly one side. */
  ghost predicate Owned(q: Ideal) {
    forall d: nat :: Owners(q, d) == if d < SIZE then 1 else 0
  }

  ghost predicate Inv(s: Rx) {
    Counted(s) && Indexed(s) && Mirrored(s) && Owned(s.q)
  }

  // Arithmetic of wrapping indices

  lemma SlotOfIndex(n: nat)
    ensures (n % WRAP) % SIZE == n % SIZE
  {
  }

  lemma NextIndex(n: nat)
    ensures (n % WRAP + 1) % WRAP == (n + 1) % WRAP
  {
  }

  /** Two counters less than 65536 apart have equal indices only if they are equal. */
  lemma SameIndex(a: nat, b: nat)
    requires a <= b < a + WRAP
    ensures a % WRAP == b % WRAP <==> a == b
  {
  }

  lemma OtherSlot(a: nat, b: nat)
    requires a < b < a + SIZE
    ensures a % SIZE != b % SIZE
  {
  }

  lemma ShowsPush(ring: seq<nat>, from: nat, items: seq<nat>, x: nat, slot: nat)
    requires Shows(ring, from, items) && |items| < SIZE && slot == (from + |items|) % SIZE
    ensures Shows(ring[slot := x], from, items) && Shows(ring[slot := x], from, items + [x])
  {
    var ring', items' := ring[slot := x], items + [x];
    forall k | 0 <= k < |items|
      ensures Shown(ring', from, items, k) && Shown(ring', from, items', k)
    {
      OtherSlot(from + k, from + |items|);
      assert Shown(ring, from, items, k);
    }
    assert Shown(ring', from, items', |items|);
  }

  lemma ShowsPushed(ring: seq<nat>, from: nat, items: seq<nat>, x: nat)
    requires Shows(ring, from, items) && |items| < SIZE && ring[(from + |items|) % SIZE] == x
    ensures Shows(ring, from, items + [x])
  {
    forall k | 0 <= k < |items| + 1
      ensures Shown(ring, from, items + [x], k)
    {
      if k < |items| {
        assert Shown(ring, from, items, k);
      }
    }
  }

  lemma ShowsPop(ring: seq<nat>, from: nat, items: seq<nat>)
    requires Shows(ring, from, items) && items != []
    ensures ring[from % SIZE] == items[0] && Shows(ring, from + 1, items[1..])
  {
    assert Shown(ring, from, items, 0);
    var next, rest := from + 1, items[1..];
    forall k | 0 <= k < |rest|
      ensures Shown(ring, next, rest, k)
    {
      assert Shown(ring, from, items, k + 1);
    }
  }

  // Descriptors are neither lost nor doubled

  lemma {:induction false} CountJoin(a: seq<nat>, b: seq<nat>, d: nat)
    ensures Count(a + b, d) == Count(a, d) + Count(b, d)
  {
    if a == [] {
      assert a + b == b;
    } else {
      assert (a + b)[1..] == a[1..] + b;
      CountJoin(a[1..], b, d);
    }
  }

  lemma CountOne(x: nat, d: nat)
    ensures Count([x], d) == if x == d then 1 else 0
  {
    assert [x][1..] == [];
  }

  lemma CountCut(a: seq<nat>, j: nat, d: nat)
    requires j < |a|
    ensures Count(a, d) == Count(a[..j] + a[j + 1..], d) + if a[j] == d then 1 else 0
  {
    assert a == a[..j] + ([a[j]] + a[j + 1..]);
    CountJoin(a[..j], [a[j]] + a[j + 1..], d);
    CountJoin([a[j]], a[j + 1..], d);
    CountJoin(a[..j], a[j + 1..], d);
    CountOne(a[j], d);
  }

  /** No step changes how many places a descriptor is in. */
  lemma OwnersKept(q: Ideal, e: Event, d: nat)
    requires e.DriverRead? ==> q.hand == []
    ensures Owners(IdealStep(q, e), d) == Owners(q, d)
  {
    match e {
      case DriverRead =>
        if q.used != [] { CountOne(q.used[0], d); }
      case DriverPublish =>
        CountJoin(q.avail, q.hand, d);
      case DeviceTake =>
        if q.avail != [] {
          CountJoin(q.held, [q.avail[0]], d);
          CountOne(q.avail[0], d);
        }
      case DeviceReturn(j) =>
        if j < |q.held| {
          CountJoin(q.used, [q.held[j]], d);
          CountOne(q.held[j], d);
          CountCut(q.held, j, d);
        }
      case _ =>
    }
  }

  lemma OwnedKept(q: Ideal, e: Event)
    requires Owned(q) && (e.DriverRead? ==> q.hand == [])
    ensures Owned(IdealStep(q, e))
  {
    forall d: nat
      ensures Owners(IdealStep(q, e), d) == if d < SIZE then 1 else 0
    {
      OwnersKept(q, e, d);
    }
  }

  /** Comparing 16-bit indices tells each side exactly whether there is something for it. */
  lemma GuardsExact(s: Rx)
    requires Inv(s)
    ensures s.m.pc == Wait ==> (s.m.lastUsed != s.m.usedIdx <==> s.q.used != [])
    ensures s.m.devAvail != s.m.availIdx <==> s.q.avail != []
  {
    SameIndex(s.q.consumed, s.q.returned);
    SameIndex(s.q.taken, s.q.published);
  }

  // Every step keeps the invariant

  lemma ReadKept(s: Rx)
    requires Inv(s) && SharedEnabled(s.m, DriverRead)
    ensures Inv(Step(s, DriverRead)) && Step(s, DriverRead).m.id == s.q.used[0]
  {
    GuardsExact(s);
    SlotOfIndex(s.q.consumed);
    ShowsPop(s.m.usedRing, s.q.consumed, s.q.used);
    OwnedKept(s.q, DriverRead);
  }

  /** The driver writes only a slot whose former content the device has already taken. */
  lemma SlotKept(s: Rx)
    requires Inv(s) && SharedEnabled(s.m, DriverSlot)
    ensures Inv(Step(s, DriverSlot)) && s.q.taken > s.q.published - SIZE
  {
    SlotOfIndex(s.q.published);
    ShowsPush(s.m.availRing, s.q.taken, s.q.avail, s.m.id, s.q.published % SIZE);
    OwnedKept(s.q, DriverSlot);
  }

  lemma PublishKept(s: Rx)
    requires Inv(s) && SharedEnabled(s.m, DriverPublish)
    ensures Inv(Step(s, DriverPublish))
  {
    NextIndex(s.q.published);
    ShowsPushed(s.m.availRing, s.q.taken, s.q.avail, s.m.id);
    OwnedKept(s.q, DriverPublish);
  }

  lemma AdvanceKept(s: Rx)
    requires Inv(s) && SharedEnabled(s.m, DriverAdvance)
    ensures Inv(Step(s, DriverAdvance))
  {
    NextIndex(s.q.consumed);
    OwnedKept(s.q, DriverAdvance);
  }

  lemma TakeKept(s: Rx)
    requires Inv(s) && SharedEnabled(s.m, DeviceTake)
    ensures Inv(Step(s, DeviceTake))
  {
    GuardsExact(s);
    NextIndex(s.q.taken);
    SlotOfIndex(s.q.taken);
    ShowsPop(s.m.availRing, s.q.taken, s.q.avail);
    OwnedKept(s.q, DeviceTake);
  }

  /** The device writes only a slot whose former content the driver has already read. */
  lemma ReturnKept(s: Rx, j: nat)
    requires Inv(s) && SharedEnabled(s.m, DeviceReturn(j))
    ensures Inv(Step(s, DeviceReturn(j))) && Read(s) > s.q.returned - SIZE
  {
    NextIndex(s.q.returned);
    SlotOfIndex(s.q.returned);
    ShowsPush(s.m.usedRing, Read(s), s.q.used, s.q.held[j], s.q.returned % SIZE);
    OwnedKept(s.q, DeviceReturn(j));
  }

  lemma StepKept(s: Rx, e: Event)
    requires Inv(s) && SharedEnabled(s.m, e)
    ensures Inv(Step(s, e))
  {
    match e {
      case DriverRead => ReadKept(s);
      case DriverSlot => SlotKept(s);
      case DriverPublish => PublishKept(s);
      case DriverAdvance => AdvanceKept(s);
      case DeviceTake => TakeKept(s);
      case DeviceReturn(j) => ReturnKept(s, j);
    }
  }

  // Runs

  ghost predicate Run(s: Rx, events: seq<Event>)
    decreases |events|
  {
    |s.m.availRing| == SIZE && |s.m.usedRing| == SIZE &&
    (events == [] || (SharedEnabled(s.m, events[0]) && Run(Step(s, events[0]), events[1..])))
  }

  ghost function After(s: Rx, events: seq<Event>): Rx
    requires Run(s, events)
    decreases |events|
  {
    if events == [] then s else After(Step(s, events[0]), events[1..])
  }

  function Numbers(n: nat): (r: seq<nat>)
    ensures |r| == n && forall i :: 0 <= i < n ==> r[i] == i
  {
    if n == 0 then [] else Numbers(n - 1) + [n - 1]
  }

  /** The state that filling the queue at start-up leaves behind. */
  function Prefilled(ring: seq<nat>, usedRing: seq<nat>): Rx {
    Rx(Shared(ring, SIZE, usedRing, 0, 0, Wait, 0, 0, []), Ideal(Numbers(SIZE), [], [], [], SIZE, 0, 0, 0))
  }

  lemma {:induction false} CountNumbers(n: nat, d: nat)
    ensures Count(Numbers(n), d) == if d < n then 1 else 0
  {
    if n > 0 {
      CountNumbers(n - 1, d);
      CountJoin(Numbers(n - 1), [n - 1], d);
      CountOne(n - 1, d);
    }
  }

  lemma SmallSlot(k: nat)
    requires k < SIZE
    ensures (0 + k) % SIZE == k
  {
  }

  lemma NumbersShown(ring: seq<nat>, n: nat)
    requires n == SIZE && ring == Numbers(n)
    ensures Shows(ring, 0, Numbers(n))
  {
    forall k | 0 <= k < n
      ensures Shown(ring, 0, Numbers(n), k)
    {
      SmallSlot(k);
    }
  }

  lemma AllOwned(n: nat)
    requires n == SIZE
    ensures Owned(Ideal(Numbers(n), [], [], [], n, 0, 0, 0))
  {
    forall d: nat
      ensures Owners(Ideal(Numbers(n), [], [], [], n, 0, 0, 0), d) == if d < n then 1 else 0
    {
      CountNumbers(n, d);
    }
  }

  lemma PrefilledInv(ring: seq<nat>, usedRing: seq<nat>)
    requires ring == Numbers(SIZE) && |usedRing| == SIZE
    ensures Inv(Prefilled(ring, usedRing))
  {
    NumbersShown(ring, SIZE);
    AllOwned(SIZE);
  }

  lemma {:induction false} AfterInv(s: Rx, events: seq<Event>)
    requires Inv(s) && Run(s, events)
    ensures Inv(After(s, events))
    decreases |events|
  {
    if events != [] {
      StepKept(s, events[0]);
      AfterInv(Step(s, events[0]), events[1..]);
    }
  }

  lemma Conserved(s: Rx, d: nat)
    requires Inv(s)
    ensures Owners(s.q, d) == (if d < SIZE then 1 else 0) && s.m.devHeld == s.q.held
    ensures s.m.pc == Wait ==> (s.m.availIdx - s.m.lastUsed) % WRAP == SIZE
    ensures s.m.pc == Wait ==> (s.m.lastUsed != s.m.usedIdx <==> s.q.used != [])
    ensures s.m.devAvail != s.m.availIdx <==> s.q.avail != []
  {
    GuardsExact(s);
    if s.m.pc == Wait {
      Ahead(s.q.consumed);
    }
  }

  /** Over every run, however the two sides interleave and however often the indices wrap: every
      descriptor is in exactly one place, and between two rounds of the driver 16 more descriptors
      have been published than finished with. */
  lemma QueueIsConserved(ring: seq<nat>, usedRing: seq<nat>, events: seq<Event>, d: nat)
    requires ring == Numbers(SIZE) && |usedRing| == SIZE && Run(Prefilled(ring, usedRing), events)
    ensures var s := After(Prefilled(ring, usedRing), events);
      && Owners(s.q, d) == (if d < SIZE then 1 else 0)
      && s.m.devHeld == s.q.held
      && (s.m.pc == Wait ==> (s.m.availIdx - s.m.lastUsed) % WRAP == SIZE)
      && (s.m.pc == Wait ==> (s.m.lastUsed != s.m.usedIdx <==> s.q.used != []))
      && (s.m.devAvail != s.m.availIdx <==> s.q.avail != [])
  {
    PrefilledInv(ring, usedRing);
    AfterInv(Prefilled(ring, usedRing), events);
    Conserved(After(Prefilled(ring, usedRing), events), d);
  }

  lemma Ahead(n: nat)
    ensures ((n + SIZE) % WRAP - n % WRAP) % WRAP == SIZE
  {
  }

  // The driver's code

  datatype Descriptor = Descriptor(addr: nat, len: nat, flags: nat, next: nat)

  const BUFFER: nat := 2048
  const WRITE: nat := 2

  /** Offer all 16 buffers to the device. */
  method PrefillRx(base: nat, desc: array<Descriptor>, ring: array<nat>) returns (idx: nat)
    requires desc.Length == SIZE && ring.Length == SIZE
    modifies desc, ring
    ensures ring[..] == Numbers(SIZE) && idx == SIZE
    ensures forall i :: 0 <= i < SIZE ==> desc[i] == Descriptor(base + i * BUFFER, BUFFER, WRITE, 0)
  {
    var i := 0;
    while i < SIZE
      invariant 0 <= i <= SIZE
      invariant forall k :: 0 <= k < i ==> ring[k] == k && desc[k] == Descriptor(base + k * BUFFER, BUFFER, WRITE, 0)
    {
      desc[i] := Descriptor(base + i * BUFFER, BUFFER, WRITE, 0);
      ring[i] := i;
      i := i + 1;
    }
    idx := SIZE % WRAP;
  }
}
