/** The transmit path: one buffer for all packets, handed to the device and waited for. */
module TransmitQueue {
  import Virtqueue

  const SIZE: nat := Virtqueue.SIZE
  const WRAP: nat := Virtqueue.WRAP
  const HEADER: nat := 10
  const BUFFER: nat := 2048

  /** Where the sender is: the steps of sending one packet, in order. */
  datatype Pc = Idle | Filled | Slotted | Posted | Waiting | Draining

  /** The shared indices, the sender's own ones, the slot contents, and how many packets were ever
      handed over, given back, and noticed to be back. */
  datatype Tx = Tx(
    availIdx: nat, usedIdx: nat, nextIdx: nat, lastUsed: nat, ring: seq<nat>, pc: Pc,
    posted: nat, returned: nat, noticed: nat)

  datatype Event = Send(len: nat) | Slot | Post | Bump | Seen | Drain | Done | DeviceReturn

  /** The device can only give back a packet that it has. */
  predicate Enabled(t: Tx, e: Event) {
    match e
    case Send(_) => t.pc == Idle
    case Slot => t.pc == Filled
    case Post => t.pc == Slotted
    case Bump => t.pc == Posted
    case Seen => t.pc == Waiting && t.usedIdx != t.lastUsed
    case Drain => t.pc == Draining && t.lastUsed != t.usedIdx
    case Done => t.pc == Draining && t.lastUsed == t.usedIdx
    case DeviceReturn => t.returned < t.posted
  }

  /** The length that goes into the descriptor, header included, is a 16-bit value. */
  function PacketLength(len: nat): nat {
    (HEADER + len) % WRAP
  }

  predicate Refused(len: nat) {
    PacketLength(len) > BUFFER
  }

  /** For a packet of less than 64 KiB: what is not refused fits the buffer, if and only if its length
      with the header is still a 16-bit value. */
  lemma AcceptedFitsIff(len: nat)
    requires len < WRAP && !Refused(len)
    ensures HEADER + len <= BUFFER <==> len < WRAP - HEADER
  {
  }

  /** A packet that is not refused and does not fit. */
  lemma LongPacketAccepted()
    ensures !Refused(65530) && HEADER + 65530 > BUFFER
  {
  }

  /** A packet that is refused leaves the buffer untouched. */
  function Step(t: Tx, e: Event): Tx
    requires |t.ring| == SIZE
  {
    match e
    case Send(len) => if Refused(len) then t else t.(pc := Filled)
    case Slot => t.(ring := t.ring[t.nextIdx % SIZE := t.nextIdx % SIZE], pc := Slotted)
    case Post => t.(availIdx := (t.nextIdx + 1) % WRAP, posted := t.posted + 1, pc := Posted)
    case Bump => t.(nextIdx := (t.nextIdx + 1) % WRAP, pc := Waiting)
    case Seen => t.(pc := Draining)
    case Drain => t.(lastUsed := (t.lastUsed + 1) % WRAP, noticed := t.noticed + 1)
    case Done => t.(pc := Idle)
    case DeviceReturn => t.(usedIdx := (t.usedIdx + 1) % WRAP, returned := t.returned + 1)
  }

  /** The device has the buffer. */
  predicate DeviceOwns(t: Tx) {
    t.returned < t.posted
  }

  predicate Inv(t: Tx) { Indexed(t) && SlotsFilled(t) }

  predicate Indexed(t: Tx) {
    && t.availIdx == t.posted % WRAP
    && t.usedIdx == t.returned % WRAP
    && t.lastUsed == t.noticed % WRAP
    && t.nextIdx == (if t.pc == Posted then t.posted - 1 else t.posted) % WRAP
    && t.noticed <= t.returned <= t.posted <= t.noticed + 1
    && (t.pc == Posted ==> t.posted >= 1)
    && (t.pc == Idle || t.pc == Filled || t.pc == Slotted ==> t.noticed == t.posted)
    && (t.pc == Posted || t.pc == Waiting ==> t.noticed < t.posted)
    && (t.pc == Draining ==> t.returned == t.posted)
  }

  predicate SlotsFilled(t: Tx) {
    && |t.ring| == SIZE
    && (t.pc == Slotted ==> t.ring[t.posted % SIZE] == t.posted % SIZE)
    && (t.posted > t.noticed ==> t.ring[(t.posted - 1) % SIZE] == (t.posted - 1) % SIZE)
  }

  lemma NextIndex(n: nat)
    ensures (n % WRAP + 1) % WRAP == (n + 1) % WRAP && (n % WRAP) % SIZE == n % SIZE
  {
    Virtqueue.NextIndex(n);
    Virtqueue.SlotOfIndex(n);
  }

  lemma SameIndex(a: nat, b: nat)
    requires a <= b <= a + 1
    ensures a % WRAP == b % WRAP <==> a == b
  {
  }

  lemma StepSlots(t: Tx, e: Event)
    requires Inv(t) && Enabled(t, e)
    ensures SlotsFilled(Step(t, e))
  {
    NextIndex(t.posted);
  }

  lemma StepInv(t: Tx, e: Event)
    requires Inv(t) && Enabled(t, e)
    ensures Inv(Step(t, e))
  {
    StepSlots(t, e);
    StepIndexed(t, e);
  }

  lemma StepIndexed(t: Tx, e: Event)
    requires Inv(t) && Enabled(t, e)
    ensures Indexed(Step(t, e))
  {
    match e
    case Post => NextIndex(t.posted);
    case Bump => NextIndex(t.posted - 1);
    case Seen => SameIndex(t.noticed, t.returned);
    case Drain => DrainIndexed(t);
    case DeviceReturn => NextIndex(t.returned);
    case _ => SameIndex(t.noticed, t.returned);
  }

  lemma DrainIndexed(t: Tx)
    requires Inv(t) && Enabled(t, Drain)
    ensures Indexed(Step(t, Drain))
  {
    SameIndex(t.noticed, t.returned);
    NextIndex(t.noticed);
  }

  const Fresh: Tx := Tx(0, 0, 0, 0, seq(SIZE, i => 0), Idle, 0, 0, 0)

  predicate Run(t: Tx, events: seq<Event>)
    decreases |events|
  {
    |t.ring| == SIZE && (events == [] || (Enabled(t, events[0]) && Run(Step(t, events[0]), events[1..])))
  }

  function After(t: Tx, events: seq<Event>): Tx
    requires Run(t, events)
    decreases |events|
  {
    if events == [] then t else After(Step(t, events[0]), events[1..])
  }

  lemma {:induction false} AfterInv(t: Tx, events: seq<Event>)
    requires Inv(t) && Run(t, events)
    ensures Inv(After(t, events))
    decreases |events|
  {
    if events != [] {
      StepInv(t, events[0]);
      AfterInv(Step(t, events[0]), events[1..]);
    }
  }

  /** How many of the packets in a run are short enough: with the header, as a 16-bit value, at most 2048 bytes. */
  function Accepted(events: seq<Event>): nat {
    if events == [] then 0
    else Accepted(events[1..]) + if events[0].Send? && (10 + events[0].len) % 65536 <= 2048 then 1 else 0
  }

  /** The packet on its way to the device. */
  function Underway(t: Tx): nat { if t.pc == Filled || t.pc == Slotted then 1 else 0 }

  lemma {:induction false} CountPosted(t: Tx, events: seq<Event>)
    requires Run(t, events)
    ensures After(t, events).posted + Underway(After(t, events)) == t.posted + Underway(t) + Accepted(events)
    decreases |events|
  {
    if events != [] { CountPosted(Step(t, events[0]), events[1..]); }
  }

  /** Over every run: each packet that is short enough is handed to the device, once, and no other is; the ring slot
      that the device looks at while it has the packet names the descriptor that was filled for it. */
  lemma EveryPacketHandedOver(events: seq<Event>)
    requires Run(Fresh, events)
    ensures var t := After(Fresh, events);
      && t.posted + Underway(t) == Accepted(events)
      && (t.pc == Idle ==> t.returned == Accepted(events))
      && |t.ring| == SIZE && (DeviceOwns(t) ==> t.ring[t.returned % SIZE] == t.returned % SIZE)
  {
    AfterInv(Fresh, events);
    CountPosted(Fresh, events);
  }

  /** Over every run: whenever the sender may write the buffer, a descriptor or a ring slot, the device
      has nothing; and a send that ended has got its packet back. */
  lemma BufferNeverShared(events: seq<Event>)
    requires Run(Fresh, events)
    ensures var t := After(Fresh, events);
      && (t.pc == Idle || t.pc == Filled || t.pc == Slotted ==> !DeviceOwns(t))
      && (t.pc == Idle ==> t.usedIdx == t.lastUsed && t.availIdx == t.usedIdx && t.nextIdx == t.availIdx)
      && t.posted <= t.returned + 1
  {
    AfterInv(Fresh, events);
  }

  /** What the sender does next, in any state but the wait for the device. */
  function NextOf(t: Tx): Event {
    match t.pc
    case Idle => Send(0)
    case Filled => Slot
    case Slotted => Post
    case Posted => Bump
    case Waiting => Seen
    case Draining => if t.lastUsed != t.usedIdx then Drain else Done
  }

  /** How many steps the sender is from the end of a send. */
  function StepsLeft(t: Tx): nat {
    match t.pc
    case Idle => 0
    case Filled => 6
    case Slotted => 5
    case Posted => 4
    case Waiting => 3
    case Draining => if t.lastUsed != t.usedIdx then 2 else 1
  }

  /** A send ends: the sender always has a step, except while the device has the packet in the wait loop, and every
      step brings the end closer. */
  lemma SendEnds(t: Tx)
    requires Inv(t) && t.pc != Idle
    ensures Enabled(t, NextOf(t)) <==> !(t.pc == Waiting && DeviceOwns(t))
    ensures Enabled(t, NextOf(t)) ==> StepsLeft(Step(t, NextOf(t))) < StepsLeft(t)
  {
    WaitIsExact(t);
  }

  /** Leaving the wait loop means exactly that the packet is back; one catch-up step then ends the send. */
  lemma WaitIsExact(t: Tx)
    requires Inv(t)
    ensures t.pc == Waiting ==> (Enabled(t, Seen) <==> !DeviceOwns(t))
    ensures t.pc == Draining && Enabled(t, Drain) ==> Enabled(Step(t, Drain), Done)
  {
    SameIndex(t.noticed, t.returned);
    if t.pc == Draining && Enabled(t, Drain) {
      StepInv(t, Drain);
    }
  }
}
