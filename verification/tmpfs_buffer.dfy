/** The content of a tmpfs file: a growable buffer that behaves as a plain sequence of bytes. */
module TmpfsBuffer {
  type Byte = bv8

  const WORD: nat := 0x1_0000_0000_0000_0000
  const HALF: nat := 0x8000_0000_0000_0000

  /** A file offset or length as the caller passes it: a signed 64-bit number. */
  type Off64 = x: int | -0x8000_0000_0000_0000 <= x < 0x8000_0000_0000_0000

  const EINVAL: int := 22
  const ENOSPC: int := 28

  function Min(a: nat, b: nat): nat {
    if a < b then a else b
  }

  function Zeros(n: nat): (z: seq<Byte>)
    ensures |z| == n && forall i :: 0 <= i < n ==> z[i] == 0
  {
    seq(n, i => 0)
  }

  // What the operations mean on a sequence of bytes

  function ReadAt(s: seq<Byte>, len: nat, off: int): seq<Byte> {
    if off < 0 || off >= |s| then [] else s[off..off + Min(len, |s| - off)]
  }

  function Resized(s: seq<Byte>, n: nat): (t: seq<Byte>)
    ensures |t| == n
  {
    if n <= |s| then s[..n] else s + Zeros(n - |s|)
  }

  /** Set byte `i`, filling any gap before it with zeros. */
  function PutByte(s: seq<Byte>, i: nat, b: Byte): seq<Byte> {
    if i < |s| then s[i := b] else Resized(s, i) + [b]
  }

  /** Write `src` from `off` on, byte by byte. */
  function WriteAt(s: seq<Byte>, src: seq<Byte>, off: nat): seq<Byte> {
    if src == [] then s
    else PutByte(WriteAt(s, src[..|src| - 1], off), off + |src| - 1, src[|src| - 1])
  }

  /** The first `k` elements, concatenated. */
  function Flat(parts: seq<seq<Byte>>, k: nat): seq<Byte>
    requires k <= |parts|
  {
    if k == 0 then [] else Flat(parts, k - 1) + parts[k - 1]
  }

  /** The lengths from element `i` on, added up. */
  function Sum(lens: seq<nat>, i: nat): nat
    decreases |lens| - i
  {
    if i >= |lens| then 0 else lens[i] + Sum(lens, i + 1)
  }

  /** What a vectored read asks for from element `i` on, before it meets an empty element. */
  function Wanted(lens: seq<nat>, i: nat): nat
    decreases |lens| - i
  {
    if i >= |lens| || lens[i] == 0 then 0 else lens[i] + Wanted(lens, i + 1)
  }

  function LengthAfter(s: seq<Byte>, src: seq<Byte>, off: nat): nat {
    if src != [] && off + |src| > |s| then off + |src| else |s|
  }

  lemma {:induction false} WrittenLength(s: seq<Byte>, src: seq<Byte>, off: nat)
    ensures |WriteAt(s, src, off)| == LengthAfter(s, src, off)
  {
    if src != [] {
      WrittenLength(s, src[..|src| - 1], off);
    }
  }

  /** The written bytes replace those in their place; all others are kept, and a hole is zero. */
  lemma {:induction false} WrittenByte(s: seq<Byte>, src: seq<Byte>, off: nat, i: nat)
    requires i < LengthAfter(s, src, off)
    ensures i < |WriteAt(s, src, off)|
    ensures WriteAt(s, src, off)[i] ==
            if off <= i < off + |src| then src[i - off] else if i < |s| then s[i] else 0
  {
    WrittenLength(s, src, off);
    if src != [] {
      var init := src[..|src| - 1];
      WrittenLength(s, init, off);
      if i < LengthAfter(s, init, off) {
        WrittenByte(s, init, off, i);
      }
    }
  }

  /** What is written reads back. */
  lemma WriteThenRead(s: seq<Byte>, src: seq<Byte>, off: nat)
    requires src != []
    ensures ReadAt(WriteAt(s, src, off), |src|, off) == src
  {
    var t := WriteAt(s, src, off);
    WrittenLength(s, src, off);
    forall i | 0 <= i < |src|
      ensures t[off + i] == src[i]
    {
      WrittenByte(s, src, off, off + i);
    }
    assert t[off..off + |src|] == src;
  }

  /** Bytes cut off by a shrink never come back: growing again shows zeros. */
  lemma RegrownIsZero(s: seq<Byte>, short: nat, long: nat, i: nat)
    requires short <= i < long
    ensures Resized(Resized(s, short), long)[i] == 0
    ensures forall k :: 0 <= k < short && k < |s| ==> Resized(Resized(s, short), long)[k] == s[k]
  {
  }

  /** Two writes, the second where the first ended, are one write of both. */
  lemma {:induction false} WritesJoin(s: seq<Byte>, a: seq<Byte>, b: seq<Byte>, off: nat)
    ensures WriteAt(WriteAt(s, a, off), b, off + |a|) == WriteAt(s, a + b, off)
    decreases |b|
  {
    if b == [] {
      assert a + b == a;
    } else {
      var init := b[..|b| - 1];
      WritesJoin(s, a, init, off);
      assert (a + b)[..|a + b| - 1] == a + init;
    }
  }

  /** `out` is what lies between `off` and `at`: nothing if `off` is no place in `s`. */
  ghost predicate Reading(s: seq<Byte>, off: int, at: int, out: seq<Byte>) {
    if off < 0 || off >= |s| then out == [] && at == off
    else off <= at <= |s| && out == s[off..at]
  }

  lemma ReadNext(s: seq<Byte>, off: int, at: int, out: seq<Byte>, len: nat, r: seq<Byte>)
    requires Reading(s, off, at, out) && r == ReadAt(s, len, at)
    ensures Reading(s, off, at + |r|, out + r) && |r| <= len
    ensures |r| < len ==> off < 0 || at + |r| >= |s|
  {
    if 0 <= off < |s| && at < |s| {
      assert s[off..at] + s[at..at + |r|] == s[off..at + |r|];
    }
  }

  lemma ReadAll(s: seq<Byte>, off: int, at: int, out: seq<Byte>, want: nat)
    requires Reading(s, off, at, out)
    requires |out| == want || (|out| < want && (off < 0 || at >= |s|))
    ensures out == ReadAt(s, want, off)
  {
  }

  lemma {:induction false} WantedAtMostSum(lens: seq<nat>, i: nat)
    ensures Wanted(lens, i) <= Sum(lens, i)
    ensures (forall k :: i <= k < |lens| ==> lens[k] > 0) ==> Wanted(lens, i) == Sum(lens, i)
    decreases |lens| - i
  {
    if i < |lens| {
      WantedAtMostSum(lens, i + 1);
    }
  }

  /** A vectored read returns a prefix of what one read of the same total would return. It returns
      all of it exactly when no bytes are asked for after an empty element, or none are left. */
  lemma VectoredReadIsMaximal(s: seq<Byte>, lens: seq<nat>, off: int)
    ensures ReadAt(s, Wanted(lens, 0), off) <= ReadAt(s, Sum(lens, 0), off)
    ensures ReadAt(s, Wanted(lens, 0), off) == ReadAt(s, Sum(lens, 0), off) <==>
            Wanted(lens, 0) == Sum(lens, 0) || off < 0 || off + Wanted(lens, 0) >= |s|
    ensures (forall k :: 0 <= k < |lens| ==> lens[k] > 0) ==> Wanted(lens, 0) == Sum(lens, 0)
  {
    WantedAtMostSum(lens, 0);
  }

  /** An empty element in the middle cuts the read short, with bytes left to read. */
  lemma EmptyElementStopsRead(s: seq<Byte>, m: nat, n: nat)
    requires 0 < m < |s| && n > 0
    ensures ReadAt(s, Wanted([m, 0, n], 0), 0) < ReadAt(s, Sum([m, 0, n], 0), 0)
  {
    var lens := [m, 0, n];
    assert Wanted(lens, 1) == 0 && Wanted(lens, 0) == m;
    assert Sum(lens, 3) == 0 && Sum(lens, 2) == n && Sum(lens, 1) == n && Sum(lens, 0) == m + n;
    VectoredReadIsMaximal(s, lens, 0);
  }

  // Capacity doubling, in 64-bit words

  function Pow2(e: nat): (p: nat)
    ensures p >= 1
  {
    if e == 0 then 1 else 2 * Pow2(e - 1)
  }

  lemma {:induction false} Pow2Grows(d: nat, e: nat)
    requires d < e
    ensures 2 * Pow2(d) <= Pow2(e)
  {
    if d + 1 < e {
      Pow2Grows(d, e - 1);
    }
  }

  lemma Pow2Times8(e: nat)
    ensures Pow2(e + 3) == 8 * Pow2(e)
  {
    assert Pow2(e + 2) == 2 * Pow2(e + 1);
  }

  lemma Pow2Times512(e: nat)
    ensures Pow2(e + 9) == 512 * Pow2(e)
  {
    Pow2Times8(e);
    Pow2Times8(e + 3);
    Pow2Times8(e + 6);
  }

  lemma Pow2Times2To27(e: nat)
    ensures Pow2(e + 27) == 0x800_0000 * Pow2(e)
  {
    Pow2Times512(e);
    Pow2Times512(e + 9);
    Pow2Times512(e + 18);
  }

  lemma Pow2Is64(e: nat)
    requires e == 6
    ensures Pow2(e) == 64
  {
    Pow2Times8(e - 3);
    Pow2Times8(e - 6);
  }

  lemma Pow2IsHalf(e: nat)
    requires e == 63
    ensures Pow2(e) == HALF
  {
    Pow2Times2To27(e - 27);
    Pow2Times2To27(e - 54);
    Pow2Times512(e - 63);
  }

  lemma Pow2Below(e: nat)
    ensures (e < 63 <==> 2 * Pow2(e) <= HALF) && (e <= 63 <==> Pow2(e) <= HALF) && (e == 63 <==> Pow2(e) == HALF)
  {
    var top := 63;
    Pow2IsHalf(top);
    if e < top {
      Pow2Grows(e, top);
    } else if e > top {
      Pow2Grows(top, e);
    }
  }

  /** A capacity: none yet, or 64 doubled some number of times within a 64-bit word. */
  ghost predicate Capacity(c: nat) {
    c == 0 || exists e: nat :: 6 <= e <= 63 && c == Pow2(e)
  }

  /** The capacity after `k` doublings of a 64-bit word. */
  function Doubled(c: nat, k: nat): nat {
    if k == 0 then c else Doubled(c, k - 1) * 2 % WORD
  }

  lemma DoubleOnce(c: nat)
    requires c <= HALF
    ensures c * 2 % WORD == if c == HALF then 0 else c * 2
  {
  }

  lemma {:induction false} DoubledValue(e: nat, k: nat)
    requires e <= 63
    ensures Doubled(Pow2(e), k) == if e + k <= 63 then Pow2(e + k) else 0
  {
    if k > 0 {
      DoubledValue(e, k - 1);
      if e + k <= 64 {
        Pow2Below(e + k - 1);
        DoubleOnce(Pow2(e + k - 1));
        assert Pow2(e + k) == 2 * Pow2(e + k - 1);
      }
    }
  }

  /** The doubling loop reaches the size it needs if and only if that is at most 2^63. */
  lemma DoublingReachesIff(e: nat, need: nat)
    requires 6 <= e <= 63
    ensures (exists k: nat :: Doubled(Pow2(e), k) >= need) <==> need <= HALF
  {
    if need <= HALF {
      var k := 63 - e;
      DoubledValue(e, k);
      Pow2Below(e + k);
      assert Doubled(Pow2(e), k) >= need;
    } else {
      forall k: nat
        ensures Doubled(Pow2(e), k) < need
      {
        DoubledValue(e, k);
        Pow2Below(e + k);
      }
    }
  }

  /** What a capacity is doubled from. */
  function Seed(cap: nat): nat {
    if cap != 0 then cap else 64
  }

  lemma CapacityIsPower(cap: nat) returns (e: nat)
    requires Capacity(cap)
    ensures 6 <= e <= 63 && Seed(cap) == Pow2(e)
  {
    e := 6;
    Pow2Is64(e);
    if cap != 0 {
      e :| 6 <= e <= 63 && cap == Pow2(e);
    }
  }

  /** Growing a buffer ends if and only if the size it needs is at most 2^63. */
  lemma GrowingEndsIff(cap: nat, need: nat)
    requires Capacity(cap)
    ensures (exists k: nat :: Doubled(Seed(cap), k) >= need) <==> need <= HALF
  {
    var c := Seed(cap);
    var e := CapacityIsPower(cap);
    DoublingReachesIff(e, need);
    if need <= HALF {
      var k: nat :| Doubled(Pow2(e), k) >= need;
      assert Doubled(c, k) >= need;
    } else {
      forall k: nat
        ensures Doubled(c, k) < need
      {
        assert Doubled(Pow2(e), k) < need;
      }
    }
  }

  /** Two bytes written at the largest offset there is need 2^63 + 1 bytes: the loop never ends. */
  lemma FarWriteNeverEnds(cap: nat, off: Off64, src: seq<Byte>)
    requires Capacity(cap) && off == 0x7FFF_FFFF_FFFF_FFFF && |src| == 2
    ensures forall k: nat :: Doubled(Seed(cap), k) < off + |src|
  {
    GrowingEndsIff(cap, off + |src|);
  }

  /** What is stored at `off`, which may be a refused negative offset. */
  function Stored(s: seq<Byte>, src: seq<Byte>, off: int): seq<Byte> {
    if off < 0 then s else WriteAt(s, src, off)
  }

  lemma StoredSnoc(s: seq<Byte>, parts: seq<seq<Byte>>, k: nat, off: nat)
    requires k < |parts|
    ensures WriteAt(Stored(s, Flat(parts, k), off), parts[k], off + |Flat(parts, k)|)
            == Stored(s, Flat(parts, k + 1), off)
  {
    var head, last := Flat(parts, k), parts[k];
    assert Flat(parts, k + 1) == head + last;
    WritesJoin(s, head, last, off);
  }

  lemma {:induction false} FlatGrows(parts: seq<seq<Byte>>, k: nat, m: nat)
    requires k <= m <= |parts|
    ensures |Flat(parts, k)| <= |Flat(parts, m)|
  {
    if k < m {
      FlatGrows(parts, k, m - 1);
    }
  }

  /** The answer `n` of a vectored write from `base` on whose first refused element is `k`, if there is one. */
  predicate Answered(parts: seq<seq<Byte>>, rooms: seq<bool>, base: int, k: nat, n: int) {
    && k <= |parts| == |rooms|
    && (k < |parts| ==> parts[k] != [] && (base < 0 || !rooms[k]))
    && (base < 0 ==> Flat(parts, k) == [])
    && n == if Flat(parts, k) != [] || k == |parts| then |Flat(parts, k)|
            else if base < 0 then -EINVAL else -ENOSPC
  }

  /** Of a vectored write from `base` on, `n` bytes of the first `i` elements are stored, up to `at`. */
  predicate Writing(parts: seq<seq<Byte>>, i: nat, base: int, at: int, n: int) {
    i <= |parts| && at == base + n && n == |Flat(parts, i)| && (base < 0 ==> n == 0)
  }

  lemma WritingNext(parts: seq<seq<Byte>>, i: nat, base: int, at: int, n: int)
    requires i < |parts| && Writing(parts, i, base, at, n) && (parts[i] != [] ==> base >= 0)
    ensures Writing(parts, i + 1, base, at + |parts[i]|, n + |parts[i]|)
  {
    assert |Flat(parts, i + 1)| == |Flat(parts, i)| + |parts[i]|;
  }

  lemma RoomLeft(parts: seq<seq<Byte>>, i: nat, base: int, at: int, n: int)
    requires i < |parts| && Writing(parts, i, base, at, n) && base + |Flat(parts, |parts|)| <= HALF
    ensures at + |parts[i]| <= HALF
  {
    FlatGrows(parts, i + 1, |parts|);
    assert |Flat(parts, i + 1)| == |Flat(parts, i)| + |parts[i]|;
  }

  lemma AnsweredRefused(parts: seq<seq<Byte>>, rooms: seq<bool>, i: nat, base: int, at: int, n: int, r: int)
    requires i < |parts| == |rooms| && Writing(parts, i, base, at, n) && parts[i] != [] && (base < 0 || !rooms[i])
    requires r == if base < 0 then -EINVAL else -ENOSPC
    ensures Answered(parts, rooms, base, i, if n != 0 then n else r)
  {
  }

  /** The shared content of a regular file. */
  class Inode {
    var data: array<Byte>
    var size: nat
    var cap: nat

    ghost predicate Valid()
      reads this
    {
      size <= cap == data.Length && Capacity(cap)
    }

    ghost function Content(): seq<Byte>
      requires Valid()
      reads this, data
    {
      data[..size]
    }

    constructor ()
      ensures Valid() && Content() == [] && fresh(data)
    {
      data := new Byte[0];
      size, cap := 0, 0;
    }

    method Pread(len: nat, off: int) returns (r: seq<Byte>)
      requires Valid()
      ensures r == ReadAt(Content(), len, off)
    {
      if off < 0 || off >= size {
        return [];
      }
      var n := len;
      var avail := size - off;
      if n > avail {
        n := avail;
      }
      r := data[off..off + n];
    }

    /** The capacity doubled until it covers `need`. */
    static method Grown(cap: nat, need: nat) returns (ncap: nat)
      requires Capacity(cap) && need <= HALF
      ensures Capacity(ncap) && ncap >= need && ncap >= cap
    {
      ncap := Seed(cap);
      ghost var e: nat := CapacityIsPower(cap);
      while ncap < need
        invariant 6 <= e <= 63 && ncap == Pow2(e) && ncap >= cap
        decreases 63 - e
      {
        Pow2Below(e);
        DoubleOnce(ncap);
        ncap := ncap * 2 % WORD;
        e := e + 1;
      }
    }

    /** Make the buffer hold `need` bytes; `room` says whether the allocator can. */
    method Ensure(need: nat, room: bool) returns (ok: bool)
      requires Valid() && need <= HALF
      modifies this
      ensures Valid() && Content() == old(Content()) && size == old(size)
      ensures data == old(data) || fresh(data)
      ensures ok <==> need <= old(cap) || room
      ensures ok ==> need <= cap
    {
      if need <= cap {
        return true;
      }
      var ncap := Grown(cap, need);
      if !room {
        return false;
      }
      var p := new Byte[ncap];
      forall i | 0 <= i < cap {
        p[i] := data[i];
      }
      assert p[..size] == data[..size];
      data, cap := p, ncap;
      return true;
    }

    /** Zero the bytes from the end of the content up to `end`. */
    method ZeroTo(end: nat)
      requires Valid() && size <= end <= cap
      modifies data
      ensures Valid() && Content() == old(Content()) && data[..end] == Resized(old(Content()), end)
    {
      forall i | size <= i < end {
        data[i] := 0;
      }
    }

    /** Copy `src` over the bytes from `off`, where everything before `off` is already there. */
    method CopyIn(src: seq<Byte>, off: nat, ghost was: seq<Byte>)
      requires Valid() && src != [] && off + |src| <= cap
      requires size == |was| && data[..size] == was && data[..off] == Resized(was, off)
      modifies this`size, data
      ensures Valid() && Content() == WriteAt(was, src, off)
    {
      forall i | 0 <= i < |src| {
        data[off + i] := src[i];
      }
      if off + |src| > size {
        size := off + |src|;
      }
      WrittenLength(was, src, off);
      forall i | 0 <= i < size
        ensures data[i] == WriteAt(was, src, off)[i]
      {
        WrittenByte(was, src, off, i);
        if i < off {
          assert data[i] == Resized(was, off)[i];
        }
      }
    }

    method Pwrite(src: seq<Byte>, off: int, room: bool) returns (n: int)
      requires Valid() && off + |src| <= HALF
      modifies this, data
      ensures Valid() && (data == old(data) || fresh(data))
      ensures off < 0 ==> n == -EINVAL
      ensures off >= 0 && src == [] ==> n == 0
      ensures off >= 0 && src != [] ==> n == if off + |src| <= old(cap) || room then |src| else -ENOSPC
      ensures Content() == if n > 0 then Stored(old(Content()), src, off) else old(Content())
    {
      if off < 0 {
        return -EINVAL;
      }
      if src == [] {
        return 0;
      }
      var ok := Ensure(off + |src|, room);
      if !ok {
        return -ENOSPC;
      }
      if off > size {
        ZeroTo(off);
      } else {
        assert data[..off] == data[..size][..off];
      }
      CopyIn(src, off, old(Content()));
      return |src|;
    }

    method Truncate(len: Off64, room: bool) returns (err: int)
      requires Valid()
      modifies this, data
      ensures Valid() && (data == old(data) || fresh(data))
      ensures err == if len < 0 then -EINVAL else if len <= old(cap) || room then 0 else -ENOSPC
      ensures Content() == if err == 0 then Resized(old(Content()), len) else old(Content())
    {
      if len < 0 {
        return -EINVAL;
      }
      if len > size {
        var ok := Ensure(len, room);
        if !ok {
          return -ENOSPC;
        }
        ZeroTo(len);
      }
      size := len;
      return 0;
    }
  }

  /** An open handle on a file. */
  class File {
    const ino: Inode
    const append: bool

    constructor (ino: Inode, append: bool)
      ensures this.ino == ino && this.append == append
    {
      this.ino, this.append := ino, append;
    }

    /** Fill the elements in turn; `out` is everything read, in order. */
    method Preadv(lens: seq<nat>, off: int) returns (out: seq<Byte>)
      requires ino.Valid()
      ensures out == ReadAt(ino.Content(), Wanted(lens, 0), off)
    {
      out := [];
      var i, at := 0, off;
      while i < |lens|
        invariant 0 <= i <= |lens|
        invariant Reading(ino.Content(), off, at, out)
        invariant |out| + Wanted(lens, i) == Wanted(lens, 0)
      {
        var r := ino.Pread(lens[i], at);
        ReadNext(ino.Content(), off, at, out, lens[i], r);
        if |r| == 0 {
          ReadAll(ino.Content(), off, at, out, Wanted(lens, 0));
          return;
        }
        out := out + r;
        at := at + |r|;
        if |r| < lens[i] {
          break;
        }
        i := i + 1;
      }
      ReadAll(ino.Content(), off, at, out, Wanted(lens, 0));
    }

    /** Element `i` of a vectored write, when those before it are stored from `base` on. */
    method PwriteNext(parts: seq<seq<Byte>>, i: nat, at: int, room: bool, ghost base: int, ghost was: seq<Byte>)
      returns (r: int)
      requires ino.Valid() && i < |parts| && at + |parts[i]| <= HALF
      requires at == base + |Flat(parts, i)| && (base < 0 ==> Flat(parts, i) == [])
      requires ino.Content() == Stored(was, Flat(parts, i), base)
      modifies ino, ino.data
      ensures ino.Valid() && (ino.data == old(ino.data) || fresh(ino.data))
      ensures r == |parts[i]| || (r < 0 && r == if base < 0 then -EINVAL else -ENOSPC)
      ensures r < 0 ==> parts[i] != [] && (base < 0 || !room)
      ensures r > 0 ==> base >= 0
      ensures ino.Content() == Stored(was, Flat(parts, if r < 0 then i else i + 1), base)
    {
      if |parts[i]| == 0 {
        assert Flat(parts, i + 1) == Flat(parts, i);
        return 0;
      }
      r := ino.Pwrite(parts[i], at, room);
      if r >= 0 {
        StoredSnoc(was, parts, i, base);
      }
    }

    /** Write the elements one after the other, at the end of the file in append mode. Element `k`
        is the first one refused, or there is none; all before it are stored as one write. */
    method Pwritev(parts: seq<seq<Byte>>, off: int, rooms: seq<bool>) returns (n: int, ghost k: nat)
      requires ino.Valid() && |rooms| == |parts|
      requires (if append then ino.size else off) + |Flat(parts, |parts|)| <= HALF
      modifies ino, ino.data
      ensures ino.Valid()
      ensures var base := if append then old(ino.size) else off;
        && Answered(parts, rooms, base, k, n)
        && ino.Content() == Stored(old(ino.Content()), Flat(parts, k), base)
    {
      var at := off;
      if append {
        at := ino.size;
      }
      ghost var base, was := at, ino.Content();
      var i := 0;
      n, k := 0, 0;
      while i < |parts|
        invariant k == i <= |parts| && Writing(parts, i, base, at, n)
        invariant ino.Valid() && (ino.data == old(ino.data) || fresh(ino.data))
        invariant ino.Content() == Stored(was, Flat(parts, i), base)
      {
        RoomLeft(parts, i, base, at, n);
        var r := PwriteNext(parts, i, at, rooms[i], base, was);
        if r < 0 {
          AnsweredRefused(parts, rooms, i, base, at, n, r);
          n := if n != 0 then n else r;
          return;
        }
        WritingNext(parts, i, base, at, n);
        at := at + r;
        n := n + r;
        i, k := i + 1, k + 1;
      }
    }
  }
}
