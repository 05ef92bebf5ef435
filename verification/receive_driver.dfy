/** The receive loop of the network driver on its own, between two moves of the device. */
module ReceiveDriver {
  import opened Virtqueue

  /** One pass of the inner loop. */
  ghost function Round(s: Rx): Rx
    requires Inv(s) && SharedEnabled(s.m, DriverRead)
  {
    ReadKept(s);
    var s1 := Step(s, DriverRead);
    SlotKept(s1);
    var s2 := Step(s1, DriverSlot);
    PublishKept(s2);
    Step(Step(s2, DriverPublish), DriverAdvance)
  }

  lemma RoundEffect(s: Rx)
    requires Inv(s) && SharedEnabled(s.m, DriverRead)
    ensures Inv(Round(s)) && Round(s).m.pc == Wait && s.q.used != []
    ensures Round(s).q.used == s.q.used[1..] && Round(s).q.avail == s.q.avail + [s.q.used[0]]
    ensures Round(s).q.held == s.q.held && Round(s).m.usedIdx == s.m.usedIdx
  {
    GuardsExact(s);
    ReadKept(s);
    var s1 := Step(s, DriverRead);
    SlotKept(s1);
    var s2 := Step(s1, DriverSlot);
    PublishKept(s2);
    AdvanceKept(Step(s2, DriverPublish));
  }

  /** What a pass does to the memory. */
  lemma RoundMemory(s: Rx)
    requires Inv(s) && SharedEnabled(s.m, DriverRead)
    ensures var got := s.m.usedRing[s.m.lastUsed % SIZE];
      Round(s).m == s.m.(availRing := s.m.availRing[s.m.availIdx % SIZE := got], id := got,
                         availIdx := (s.m.availIdx + 1) % WRAP, lastUsed := (s.m.lastUsed + 1) % WRAP)
  {
    ReadKept(s);
    var s1 := Step(s, DriverRead);
    SlotKept(s1);
    var s2 := Step(s1, DriverSlot);
    PublishKept(s2);
  }

  lemma Requeued(a: seq<nat>, u: seq<nat>)
    requires u != []
    ensures (a + [u[0]]) + u[1..] == a + u
  {
  }

  class Receiver {
    var availRing: array<nat>
    var availIdx: nat
    var usedRing: array<nat>
    var usedIdx: nat
    var lastUsed: nat
    ghost var devAvail: nat
    ghost var id: nat
    ghost var q: Ideal

    ghost predicate Valid()
      reads this, availRing, usedRing
    {
      availRing.Length == SIZE && usedRing.Length == SIZE && availRing != usedRing && Inv(Abs())
    }

    ghost function Abs(): Rx
      reads this, availRing, usedRing
    {
      Rx(Shared(availRing[..], availIdx, usedRing[..], usedIdx, lastUsed, Wait, id, devAvail, q.held), q)
    }

    /** Take one returned buffer and offer it to the device again. */
    method HandleOne()
      requires Valid() && lastUsed != usedIdx
      modifies this, availRing
      ensures Valid() && Abs() == Round(old(Abs()))
      ensures availRing == old(availRing) && usedRing == old(usedRing) && usedIdx == old(usedIdx)
      ensures old(q.used) != [] && q.used == old(q.used)[1..]
      ensures q.avail == old(q.avail) + [old(q.used)[0]] && q.held == old(q.held)
      ensures lastUsed != usedIdx <==> q.used != []
    {
      ghost var was, next := Abs(), Round(Abs());
      RoundEffect(was);
      RoundMemory(was);
      var got := usedRing[lastUsed % SIZE];
      availRing[availIdx % SIZE] := got;
      availIdx := (availIdx + 1) % WRAP;
      lastUsed := (lastUsed + 1) % WRAP;
      id, q := got, next.q;
      assert Abs() == next;
      GuardsExact(next);
    }

    /** The inner loop: everything returned goes back to the device, in order, and nothing else moves. */
    method HandleAll()
      requires Valid()
      modifies this, availRing
      ensures Valid() && lastUsed == usedIdx
      ensures q.avail == old(q.avail) + old(q.used) && q.used == [] && q.held == old(q.held)
      ensures availRing == old(availRing) && usedRing == old(usedRing) && usedIdx == old(usedIdx)
    {
      GuardsExact(Abs());
      while lastUsed != usedIdx
        invariant Valid() && availRing == old(availRing) && usedRing == old(usedRing) && usedIdx == old(usedIdx)
        invariant q.avail + q.used == old(q.avail) + old(q.used) && q.held == old(q.held)
        invariant lastUsed != usedIdx <==> q.used != []
        decreases |q.used|
      {
        Requeued(q.avail, q.used);
        HandleOne();
      }
    }
  }
}
