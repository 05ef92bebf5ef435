/** The kernel log: a ring of the last 256 entries, written under a lock. */
module KlogRing {
  const SIZE: nat := 256

  datatype Entry = Entry(seqNo: nat, level: int, msg: string)

  /** At most the last 256 entries. */
  function Kept(s: seq<Entry>): (r: seq<Entry>)
    ensures |r| <= SIZE
  {
    if |s| <= SIZE then s else s[|s| - SIZE..]
  }

  /** Consecutive sequence numbers that end with `last`. */
  predicate Consecutive(s: seq<Entry>, last: nat) {
    |s| <= last && forall i :: 0 <= i < |s| ==> s[i].seqNo == last - |s| + 1 + i
  }

  /** Where entry `i` of the last `count` before `head` lives. */
  function Spot(head: nat, count: nat, i: nat): (p: nat)
    requires head < SIZE && i < count <= SIZE
    ensures p < SIZE
  {
    if head + i >= count then head + i - count else head + i - count + SIZE
  }

  /** The same, as the code finds it. */
  function Place(head: nat, count: nat, i: nat): (p: nat)
    requires head < SIZE && i < count <= SIZE
    ensures p == Spot(head, count, i)
  {
    ((head - count + SIZE) % SIZE + i) % SIZE
  }

  predicate Shown(ring: seq<Entry>, head: nat, count: nat, items: seq<Entry>, i: nat)
    requires |ring| == SIZE && head < SIZE && i < count <= SIZE && count == |items|
  {
    ring[Spot(head, count, i)] == items[i]
  }

  /** The ring shows `items`, oldest first. */
  ghost predicate Shows(ring: seq<Entry>, head: nat, count: nat, items: seq<Entry>) {
    && |ring| == SIZE && head < SIZE && count == |items| <= SIZE
    && forall i :: 0 <= i < count ==> Shown(ring, head, count, items, i)
  }

  lemma NextHead(head: nat)
    requires head < SIZE
    ensures (head + 1) % SIZE == if head + 1 == SIZE then 0 else head + 1
  {
  }

  lemma PushedRoom(ring: seq<Entry>, head: nat, next: nat, items: seq<Entry>, e: Entry)
    requires Shows(ring, head, |items|, items) && |items| < SIZE && next == if head + 1 == SIZE then 0 else head + 1
    ensures Shows(ring[head := e], next, |items| + 1, items + [e])
  {
    var ring', items' := ring[head := e], items + [e];
    forall i | 0 <= i < |items'|
      ensures Shown(ring', next, |items'|, items', i)
    {
      if i < |items| {
        assert Shown(ring, head, |items|, items, i);
      }
    }
  }

  lemma PushedFull(ring: seq<Entry>, head: nat, next: nat, items: seq<Entry>, e: Entry)
    requires Shows(ring, head, SIZE, items) && next == if head + 1 == SIZE then 0 else head + 1
    ensures Shows(ring[head := e], next, SIZE, items[1..] + [e])
  {
    var ring', items' := ring[head := e], items[1..] + [e];
    forall i | 0 <= i < SIZE
      ensures Shown(ring', next, SIZE, items', i)
    {
      if i < SIZE - 1 {
        assert Shown(ring, head, SIZE, items, i + 1);
      }
    }
  }

  /** Writing at the head drops the oldest entry exactly when the ring is full. */
  lemma Pushed(ring: seq<Entry>, head: nat, items: seq<Entry>, e: Entry)
    requires Shows(ring, head, |items|, items)
    ensures Shows(ring[head := e], (head + 1) % SIZE, |Kept(items + [e])|, Kept(items + [e]))
    ensures |Kept(items + [e])| == if |items| < SIZE then |items| + 1 else SIZE
  {
    NextHead(head);
    if |items| < SIZE {
      PushedRoom(ring, head, (head + 1) % SIZE, items, e);
    } else {
      PushedFull(ring, head, (head + 1) % SIZE, items, e);
      assert Kept(items + [e]) == items[1..] + [e];
    }
  }

  lemma KeptStep(s: seq<Entry>, e: Entry)
    ensures Kept(s + [e]) == Kept(Kept(s) + [e])
  {
  }

  lemma KeptConsecutive(s: seq<Entry>, last: nat, e: Entry)
    requires Consecutive(s, last) && e.seqNo == last + 1
    ensures Consecutive(Kept(s + [e]), last + 1)
  {
  }

  /** One entry more: it is shown, and the numbers stay consecutive. */
  lemma Written(ring: seq<Entry>, head: nat, items: seq<Entry>, last: nat, e: Entry) returns (items': seq<Entry>)
    requires Shows(ring, head, |items|, items) && Consecutive(items, last) && e.seqNo == last + 1
    ensures items' == Kept(items + [e]) && Consecutive(items', last + 1)
    ensures Shows(ring[head := e], (head + 1) % SIZE, if |items| < SIZE then |items| + 1 else |items|, items')
  {
    items' := Kept(items + [e]);
    Pushed(ring, head, items, e);
    KeptConsecutive(items, last, e);
  }

  /** What is left after writing the entries one after the other into an empty ring. */
  function Rolled(es: seq<Entry>): seq<Entry> {
    if es == [] then [] else Kept(Rolled(es[..|es| - 1]) + [es[|es| - 1]])
  }

  /** That is always the last 256 of them. */
  lemma {:induction false} RolledIsKept(es: seq<Entry>)
    ensures Rolled(es) == Kept(es)
  {
    if es != [] {
      RolledIsKept(es[..|es| - 1]);
      KeptStep(es[..|es| - 1], es[|es| - 1]);
      assert es[..|es| - 1] + [es[|es| - 1]] == es;
    }
  }

  /** Of the first `k` entries, those newer than `seen`. */
  function Newer(s: seq<Entry>, k: nat, seen: nat): seq<Entry>
    requires k <= |s|
  {
    if k == 0 then [] else Newer(s, k - 1, seen) + if s[k - 1].seqNo > seen then [s[k - 1]] else []
  }

  /** Of the first `k` entries, those at least as urgent as `min`. */
  function AtLevel(s: seq<Entry>, k: nat, min: int): seq<Entry>
    requires k <= |s|
  {
    if k == 0 then [] else AtLevel(s, k - 1, min) + if s[k - 1].level <= min then [s[k - 1]] else []
  }

  predicate Rising(s: seq<Entry>) {
    forall i, j :: 0 <= i < j < |s| ==> s[i].seqNo < s[j].seqNo
  }

  /** Exactly the urgent entries are shown, each once and oldest first. */
  lemma {:induction false} AtLevelShows(s: seq<Entry>, k: nat, last: nat, min: int)
    requires Consecutive(s, last) && k <= |s|
    ensures forall i :: 0 <= i < k && s[i].level <= min ==> s[i] in AtLevel(s, k, min)
    ensures forall e :: e in AtLevel(s, k, min) ==> e.level <= min && e.seqNo <= last - |s| + k
    ensures forall e :: e in AtLevel(s, k, min) ==> exists i :: 0 <= i < k && s[i] == e
    ensures Rising(AtLevel(s, k, min))
  {
    if k > 0 { AtLevelShows(s, k - 1, last, min); }
  }

  function Max(a: nat, b: nat): nat {
    if a > b then a else b
  }

  /** Of consecutive entries, the newer ones are a suffix. */
  lemma {:induction false} NewerIsSuffix(s: seq<Entry>, k: nat, last: nat, seen: nat)
    requires Consecutive(s, last) && k <= |s|
    ensures Newer(s, k, seen) == s[NewFrom(|s|, k, last, seen)..k]
  {
    if k > 0 {
      NewerIsSuffix(s, k - 1, last, seen);
      var from := NewFrom(|s|, k, last, seen);
      assert s[k - 1].seqNo == last - |s| + k;
      if s[k - 1].seqNo > seen {
        assert s[from..k] == s[from..k - 1] + [s[k - 1]];
      } else {
        assert s[from..k] == [];
      }
    }
  }

  /** The first of `k` entries that is newer than `seen`. */
  function NewFrom(n: nat, k: nat, last: nat, seen: nat): (r: nat)
    requires k <= n <= last
    ensures r <= k
  {
    if seen <= last - n then 0 else if seen - (last - n) < k then seen - (last - n) else k
  }

  class Ring {
    const slots: array<Entry>
    var head: nat
    var count: nat
    var globalSeq: nat
    var fileSeq: nat
    ghost var kept: seq<Entry>

    /** The ring shows what is kept, with consecutive numbers up to the latest. */
    ghost predicate Valid()
      reads this, slots
    {
      Shows(slots[..], head, count, kept) && Consecutive(kept, globalSeq)
    }

    constructor ()
      ensures Valid() && kept == [] && globalSeq == 0 && fileSeq == 0 && fresh(slots)
    {
      slots := new Entry[SIZE](_ => Entry(0, 0, ""));
      head, count, globalSeq, fileSeq, kept := 0, 0, 0, 0, [];
    }

    method Write(level: int, msg: string)
      requires Valid()
      modifies this, slots
      ensures Valid() && kept == Kept(old(kept) + [Entry(old(globalSeq) + 1, level, msg)])
      ensures globalSeq == old(globalSeq) + 1 && fileSeq == old(fileSeq)
    {
      globalSeq := globalSeq + 1;
      var e := Entry(globalSeq, level, msg);
      ghost var ring, at := slots[..], head;
      ghost var items := Written(ring, head, kept, globalSeq - 1, e);
      slots[head] := e;
      head := (head + 1) % SIZE;
      if count < SIZE {
        count := count + 1;
      }
      kept := items;
      assert slots[..] == ring[at := e];
    }

    method Clear()
      requires Valid()
      modifies this, slots
      ensures Valid() && kept == [] && globalSeq == old(globalSeq) && fileSeq == old(fileSeq)
    {
      forall i | 0 <= i < SIZE {
        slots[i] := Entry(0, 0, "");
      }
      head, count, kept := 0, 0, [];
    }

    method CountNew(snap: seq<Entry>) returns (n: nat)
      requires Valid() && snap == slots[..]
      ensures n == |Newer(kept, count, fileSeq)|
    {
      n := 0;
      var i := 0;
      while i < count
        invariant 0 <= i <= count && n == |Newer(kept, i, fileSeq)|
      {
        assert Shown(slots[..], head, count, kept, i);
        if snap[Place(head, count, i)].seqNo > fileSeq {
          n := n + 1;
        }
        i := i + 1;
      }
    }

    /** What a flush finds to write: two passes over a snapshot, oldest entry first. */
    method Collect() returns (lines: seq<Entry>, maxSeq: nat)
      requires Valid()
      ensures lines == Newer(kept, count, fileSeq)
      ensures maxSeq == if lines == [] then fileSeq else globalSeq
    {
      var snap := slots[..];
      var newCount := CountNew(snap);
      lines, maxSeq := [], fileSeq;
      if newCount == 0 {
        return;
      }
      var i := 0;
      while i < count
        invariant 0 <= i <= count && lines == Newer(kept, i, fileSeq)
        invariant maxSeq == if i > 0 then Max(fileSeq, globalSeq - count + i) else fileSeq
        invariant lines != [] <==> globalSeq - count + i > fileSeq && i > 0
      {
        assert Shown(slots[..], head, count, kept, i);
        var e := snap[Place(head, count, i)];
        if e.seqNo > fileSeq {
          lines := lines + [e];
          if e.seqNo > maxSeq {
            maxSeq := e.seqNo;
          }
        }
        i := i + 1;
      }
    }

    /** Report the flushed numbers, unless somebody else reported newer ones. */
    method Publish(maxSeq: nat)
      requires Valid()
      modifies this`fileSeq
      ensures Valid() && fileSeq == Max(old(fileSeq), maxSeq)
    {
      if maxSeq > fileSeq {
        fileSeq := maxSeq;
      }
    }

    method Dump(minLevel: int) returns (shown: seq<Entry>)
      requires Valid()
      ensures shown == AtLevel(kept, count, minLevel)
      ensures Rising(shown) && forall e :: e in shown <==> e in kept && e.level <= minLevel
    {
      AtLevelShows(kept, |kept|, globalSeq, minLevel);
      shown := [];
      var i := 0;
      while i < count
        invariant 0 <= i <= count && shown == AtLevel(kept, i, minLevel)
      {
        assert Shown(slots[..], head, count, kept, i);
        var e := slots[Place(head, count, i)];
        if e.level <= minLevel {
          shown := shown + [e];
        }
        i := i + 1;
      }
    }
  }
}
