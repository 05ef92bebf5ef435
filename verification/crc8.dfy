/** The 1-Wire CRC-8 in its reflected form, and the bytes it protects. */
module Crc8 {
  type Byte = bv8

  // The reference: one division step at a time, least significant bit first

  function Shift(x: Byte): Byte {
    (x >> 1) ^ (if x & 1 == 1 then 0x8C else 0)
  }

  function Two(x: Byte): Byte {
    Shift(Shift(x))
  }

  function Four(x: Byte): Byte {
    Two(Two(x))
  }

  function Eight(x: Byte): Byte {
    Four(Four(x))
  }

  function Plus(x: Byte, y: Byte): Byte {
    x ^ y
  }

  /** A register that takes in symbols one after the other: `plus` mixes one in, `f` shifts it out. */
  function Fold<T>(zero: T, plus: (T, T) -> T, f: T -> T, data: seq<T>): T {
    if data == [] then zero else f(plus(Fold(zero, plus, f, data[..|data| - 1]), data[|data| - 1]))
  }

  function Crc(data: seq<Byte>): Byte {
    Fold(0, Plus, Eight, data)
  }

  // The driver's loops

  /** `n` steps. */
  function Steps(n: nat, x: Byte): Byte {
    if n == 0 then x else Steps(n - 1, Shift(x))
  }

  lemma EightSteps(x: Byte)
    ensures Steps(8, x) == Eight(x)
  {
    var x2, x4, x6 := Two(x), Four(x), Two(Four(x));
    assert Steps(8, x) == Steps(6, x2);
    assert Steps(6, x2) == Steps(4, x4);
    assert Steps(4, x4) == Steps(2, x6);
    assert Steps(1, Shift(x6)) == Steps(0, Shift(Shift(x6))) == Two(x6);
  }

  lemma StepMixes(crc: Byte, byte: Byte)
    ensures ((crc >> 1) ^ (if (crc ^ byte) & 1 != 0 then 0x8C else 0)) ^ (byte >> 1) == Shift(crc ^ byte)
  {
  }

  /** The largest byte after `b` shifts to the right. */
  function Top(b: nat): Byte {
    if b == 0 then 255 else Top(b - 1) >> 1
  }

  lemma ShiftedDown(x: Byte, y: Byte)
    requires x <= y
    ensures x >> 1 <= y >> 1
  {
  }

  lemma TopRunsOut(x: Byte)
    requires x <= Top(8)
    ensures x == 0
  {
  }

  /** One bit: both the register and the byte are shifted. */
  method ComputeBit(crc: Byte, byte: Byte) returns (crc': Byte, byte': Byte)
    ensures crc' ^ byte' == Shift(crc ^ byte) && byte' == byte >> 1
  {
    StepMixes(crc, byte);
    var mix := (crc ^ byte) & 1;
    crc' := crc >> 1;
    if mix != 0 {
      crc' := crc' ^ 0x8C;
    }
    byte' := byte >> 1;
  }

  lemma XorZero(x: Byte, y: Byte)
    ensures x ^ y == 0 <==> x == y
    ensures x ^ 0 == x
  {
  }

  method ComputeByte(start: Byte, data: Byte) returns (crc: Byte)
    ensures crc == Eight(start ^ data)
  {
    crc := start;
    var byte := data;
    var b := 0;
    EightSteps(start ^ data);
    while b < 8
      invariant 0 <= b <= 8 && Steps(8 - b, crc ^ byte) == Eight(start ^ data) && byte <= Top(b)
    {
      ShiftedDown(byte, Top(b));
      crc, byte := ComputeBit(crc, byte);
      b := b + 1;
    }
    TopRunsOut(byte);
    XorZero(crc, byte);
  }

  /** The checksum as the driver computes it. */
  method ComputeCrc(data: seq<Byte>) returns (crc: Byte)
    ensures crc == Crc(data)
  {
    crc := 0;
    var i := 0;
    assert data[..0] == [];
    while i < |data|
      invariant 0 <= i <= |data| && crc == Crc(data[..i])
    {
      crc := ComputeByte(crc, data[i]);
      assert data[..i + 1][..i] == data[..i];
      i := i + 1;
    }
    assert data[..i] == data;
  }

  // Linearity

  ghost predicate Linear<T(!new)>(plus: (T, T) -> T, f: T -> T) {
    forall x, y :: f(plus(x, y)) == plus(f(x), f(y))
  }

  /** The order of a sum of four does not matter, and zero adds nothing to itself. */
  ghost predicate Sums<T(!new)>(zero: T, plus: (T, T) -> T) {
    && plus(zero, zero) == zero
    && forall p, q, x, y :: plus(plus(p, q), plus(x, y)) == plus(plus(p, x), plus(q, y))
  }

  lemma TwiceLinear<T(!new)>(plus: (T, T) -> T, f: T -> T, g: T -> T)
    requires Linear(plus, f) && forall x :: g(x) == f(f(x))
    ensures Linear(plus, g)
  {
    forall x, y
      ensures g(plus(x, y)) == plus(g(x), g(y))
    {
      assert f(plus(x, y)) == plus(f(x), f(y));
      assert f(plus(f(x), f(y))) == plus(f(f(x)), f(f(y)));
    }
  }

  function Added<T>(plus: (T, T) -> T, a: seq<T>, b: seq<T>): (c: seq<T>)
    requires |a| == |b|
    ensures |c| == |a| && forall i :: 0 <= i < |a| ==> c[i] == plus(a[i], b[i])
  {
    if a == [] then [] else Added(plus, a[..|a| - 1], b[..|b| - 1]) + [plus(a[|a| - 1], b[|b| - 1])]
  }

  lemma {:induction false} FoldLinear<T(!new)>(zero: T, plus: (T, T) -> T, f: T -> T, a: seq<T>, b: seq<T>)
    requires |a| == |b| && Linear(plus, f) && Sums(zero, plus)
    ensures Fold(zero, plus, f, Added(plus, a, b)) == plus(Fold(zero, plus, f, a), Fold(zero, plus, f, b))
  {
    if a != [] {
      var a0, b0, x, y := a[..|a| - 1], b[..|b| - 1], a[|a| - 1], b[|b| - 1];
      FoldLinear(zero, plus, f, a0, b0);
      assert Added(plus, a, b)[..|a| - 1] == Added(plus, a0, b0);
      var p, q := Fold(zero, plus, f, a0), Fold(zero, plus, f, b0);
      assert plus(plus(p, q), plus(x, y)) == plus(plus(p, x), plus(q, y));
      assert f(plus(plus(p, x), plus(q, y))) == plus(f(plus(p, x)), f(plus(q, y)));
    }
  }

  lemma ShiftLinear(x: Byte, y: Byte)
    ensures Shift(Plus(x, y)) == Plus(Shift(x), Shift(y))
  {
  }

  lemma Regroup(p: Byte, q: Byte, x: Byte, y: Byte)
    ensures (p ^ q) ^ (x ^ y) == (p ^ x) ^ (q ^ y)
  {
  }

  lemma PlusRegroup(p: Byte, q: Byte, x: Byte, y: Byte)
    ensures Plus(Plus(p, q), Plus(x, y)) == Plus(Plus(p, x), Plus(q, y))
  {
    calc {
      Plus(Plus(p, q), Plus(x, y));
      (p ^ q) ^ (x ^ y);
      { Regroup(p, q, x, y); }
      (p ^ x) ^ (q ^ y);
      Plus(Plus(p, x), Plus(q, y));
    }
  }

  lemma EightLinear()
    ensures Linear(Plus, Eight)
  {
    forall x, y
      ensures Shift(Plus(x, y)) == Plus(Shift(x), Shift(y))
    {
      ShiftLinear(x, y);
    }
    TwiceLinear(Plus, Shift, Two);
    TwiceLinear(Plus, Two, Four);
    TwiceLinear(Plus, Four, Eight);
  }

  lemma ByteSums()
    ensures Sums(0, Plus)
  {
    XorZero(0, 0);
    forall p, q, x, y
      ensures Plus(Plus(p, q), Plus(x, y)) == Plus(Plus(p, x), Plus(q, y))
    {
      PlusRegroup(p, q, x, y);
    }
  }

  function Xor(a: seq<Byte>, b: seq<Byte>): (c: seq<Byte>)
    requires |a| == |b|
    ensures |c| == |a|
  {
    Added(Plus, a, b)
  }

  /** The CRC of the difference of two messages is the difference of their CRCs. */
  lemma CrcLinear(a: seq<Byte>, b: seq<Byte>)
    requires |a| == |b|
    ensures Crc(Xor(a, b)) == Crc(a) ^ Crc(b)
  {
    EightLinear();
    ByteSums();
    FoldLinear(0, Plus, Eight, a, b);
  }

  // What makes it a checksum

  lemma EightInjective(x: Byte)
    ensures Eight(x) == 0 <==> x == 0
  {
  }

  lemma SumOut(x: Byte, y: Byte)
    ensures Eight(x ^ y) == 0 <==> y == x
  {
    XorZero(x, y);
    EightInjective(x ^ y);
  }

  /** A message followed by a byte has CRC 0 exactly when that byte is the CRC of the message. */
  lemma AppendedCrc(m: seq<Byte>, c: Byte)
    ensures Crc(m + [c]) == 0 <==> c == Crc(m)
  {
    assert (m + [c])[..|m|] == m;
    assert Crc(m + [c]) == Eight(Crc(m) ^ c);
    SumOut(Crc(m), c);
  }

  // Bursts: bit `j` of byte `i` is bit 8i + j of the message

  function Mask(j: nat): Byte {
    if j == 0 then 1 else if j == 1 then 2 else if j == 2 then 4 else if j == 3 then 8
    else if j == 4 then 16 else if j == 5 then 32 else if j == 6 then 64 else 128
  }

  predicate Bit(b: Byte, j: nat) {
    b & Mask(j) != 0
  }

  predicate BitAt(e: seq<Byte>, pos: nat)
    requires pos < 8 * |e|
  {
    Bit(e[pos / 8], pos % 8)
  }

  /** Some bit is set, and all set bits lie within the 8 from `start` on. */
  ghost predicate Burst(e: seq<Byte>, start: nat) {
    && (exists i :: 0 <= i < |e| && e[i] != 0)
    && forall pos :: 0 <= pos < 8 * |e| && BitAt(e, pos) ==> start <= pos < start + 8
  }

  lemma NoBits(b: Byte)
    requires forall j :: 0 <= j < 8 ==> !Bit(b, j)
    ensures b == 0
  {
    assert !Bit(b, 0) && !Bit(b, 1) && !Bit(b, 2) && !Bit(b, 3);
    assert !Bit(b, 4) && !Bit(b, 5) && !Bit(b, 6) && !Bit(b, 7);
  }

  lemma BitPlace(e: seq<Byte>, i: nat, j: nat)
    requires i < |e| && j < 8
    ensures 8 * i + j < 8 * |e| && BitAt(e, 8 * i + j) == Bit(e[i], j)
  {
  }

  /** Low bits of one byte clear, high bits of the next clear: a burst that starts at bit `s`. */
  predicate Straddles(x: Byte, y: Byte, s: nat) {
    (forall j :: 0 <= j < s ==> !Bit(x, j)) && (forall j :: s <= j < 8 ==> !Bit(y, j))
  }

  lemma BurstBytes(e: seq<Byte>, start: nat, i: nat)
    requires Burst(e, start) && i < |e|
    ensures i < start / 8 || i > start / 8 + 1 ==> e[i] == 0
    ensures i == start / 8 ==> forall j :: 0 <= j < start % 8 ==> !Bit(e[i], j)
    ensures i == start / 8 + 1 ==> forall j :: start % 8 <= j < 8 ==> !Bit(e[i], j)
  {
    forall j | 0 <= j < 8
      ensures !(start <= 8 * i + j < start + 8) ==> !Bit(e[i], j)
    {
      BitPlace(e, i, j);
    }
    if i < start / 8 || i > start / 8 + 1 {
      NoBits(e[i]);
    }
  }

  lemma MaskedClear(x: Byte, y: Byte, s: nat)
    requires s < 8 && Straddles(x, y, s)
    ensures x & (Mask(s) - 1) == 0 && y & (Mask(s) - 1) == y
  {
    if s > 0 { assert !Bit(x, 0); } else { assert !Bit(y, 0); }
    if s > 1 { assert !Bit(x, 1); } else { assert !Bit(y, 1); }
    if s > 2 { assert !Bit(x, 2); } else { assert !Bit(y, 2); }
    if s > 3 { assert !Bit(x, 3); } else { assert !Bit(y, 3); }
    if s > 4 { assert !Bit(x, 4); } else { assert !Bit(y, 4); }
    if s > 5 { assert !Bit(x, 5); } else { assert !Bit(y, 5); }
    if s > 6 { assert !Bit(x, 6); } else { assert !Bit(y, 6); }
    assert !Bit(y, 7);
  }

  /** What is carried out of the first byte of a burst is never cancelled by its second byte. */
  lemma NotCancelled(x: Byte, y: Byte, m: Byte)
    requires m == 1 || m == 2 || m == 4 || m == 8 || m == 16 || m == 32 || m == 64 || m == 128
    requires x & (m - 1) == 0 && y & (m - 1) == y && x != 0
    ensures Eight(x) != y
  {
  }

  lemma {:induction false} ZerosFirst(e: seq<Byte>, k: nat)
    requires k <= |e| && forall i :: 0 <= i < k ==> e[i] == 0
    ensures Crc(e[..k]) == 0
  {
    if k > 0 {
      ZerosFirst(e, k - 1);
      assert e[..k][..k - 1] == e[..k - 1];
      XorZero(0, 0);
      EightInjective(0);
    }
  }

  lemma {:induction false} ZerosLast(e: seq<Byte>, k: nat)
    requires k <= |e| && Crc(e[..k]) != 0 && forall i :: k <= i < |e| ==> e[i] == 0
    ensures Crc(e) != 0
    decreases |e| - k
  {
    if k == |e| {
      assert e[..k] == e;
    } else {
      assert e[..k + 1][..k] == e[..k];
      XorZero(Crc(e[..k]), e[k]);
      EightInjective(Crc(e[..k]) ^ e[k]);
      ZerosLast(e, k + 1);
    }
  }

  lemma CrcNext(e: seq<Byte>, k: nat)
    requires k < |e|
    ensures Crc(e[..k + 1]) == Eight(Crc(e[..k]) ^ e[k])
  {
    assert e[..k + 1][..k] == e[..k];
  }

  lemma TwoByteBurst(x: Byte, y: Byte, s: nat)
    requires s < 8 && Straddles(x, y, s) && (x != 0 || y != 0)
    ensures Eight(Eight(x) ^ y) != 0
  {
    MaskedClear(x, y, s);
    XorZero(Eight(x), y);
    EightInjective(Eight(x) ^ y);
    EightInjective(x);
    if x != 0 {
      NotCancelled(x, y, Mask(s));
    }
  }

  lemma FirstSeen(e: seq<Byte>, k: nat)
    requires k < |e| && e[k] != 0 && forall i :: 0 <= i < k ==> e[i] == 0
    ensures Crc(e[..k + 1]) != 0
  {
    ZerosFirst(e, k);
    CrcNext(e, k);
    XorZero(e[k], 0);
    EightInjective(e[k]);
  }

  lemma CrcOfPair(e: seq<Byte>, k: nat)
    requires k + 1 < |e| && forall i :: 0 <= i < k ==> e[i] == 0
    ensures Crc(e[..k + 2]) == Eight(Eight(e[k]) ^ e[k + 1])
  {
    var x := e[k];
    assert Crc(e[..k + 1]) == Eight(x) by {
      ZerosFirst(e, k);
      CrcNext(e, k);
      XorZero(x, 0);
    }
    CrcNext(e, k + 1);
  }

  lemma PairSeen(e: seq<Byte>, k: nat, s: nat)
    requires k + 1 < |e| && s < 8 && Straddles(e[k], e[k + 1], s) && (e[k] != 0 || e[k + 1] != 0)
    requires forall i :: 0 <= i < k ==> e[i] == 0
    ensures Crc(e[..k + 2]) != 0
  {
    CrcOfPair(e, k);
    TwoByteBurst(e[k], e[k + 1], s);
  }

  lemma BurstConfined(e: seq<Byte>, start: nat)
    requires Burst(e, start)
    ensures forall i :: 0 <= i < |e| && (i < start / 8 || i > start / 8 + 1) ==> e[i] == 0
    ensures start / 8 < |e|
    ensures start / 8 + 1 < |e| ==> Straddles(e[start / 8], e[start / 8 + 1], start % 8)
    ensures e[start / 8] != 0 || (start / 8 + 1 < |e| && e[start / 8 + 1] != 0)
  {
    forall i | 0 <= i < |e|
      ensures i < start / 8 || i > start / 8 + 1 ==> e[i] == 0
      ensures i == start / 8 ==> forall j :: 0 <= j < start % 8 ==> !Bit(e[i], j)
      ensures i == start / 8 + 1 ==> forall j :: start % 8 <= j < 8 ==> !Bit(e[i], j)
    {
      BurstBytes(e, start, i);
    }
  }

  /** A burst never has CRC 0. */
  lemma BurstSeen(e: seq<Byte>, start: nat)
    requires Burst(e, start)
    ensures Crc(e) != 0
  {
    var k := start / 8;
    BurstConfined(e, start);
    if k + 1 < |e| {
      PairSeen(e, k, start % 8);
      ZerosLast(e, k + 2);
    } else {
      FirstSeen(e, k);
      ZerosLast(e, k + 1);
    }
  }

  // The scratchpad

  predicate Accepted(buf: seq<Byte>) {
    |buf| == 9 && Crc(buf[..8]) == buf[8]
  }

  /** A valid scratchpad with a burst of errors of up to 8 bits is always rejected. */
  lemma CorruptionRejected(buf: seq<Byte>, e: seq<Byte>, start: nat)
    requires Accepted(buf) && |e| == 9 && Burst(e, start)
    ensures !Accepted(Xor(buf, e))
  {
    var bad := Xor(buf, e);
    assert buf == buf[..8] + [buf[8]] && bad == bad[..8] + [bad[8]];
    AppendedCrc(buf[..8], buf[8]);
    AppendedCrc(bad[..8], bad[8]);
    CrcLinear(buf, e);
    BurstSeen(e, start);
    XorZero(Crc(buf), Crc(e));
  }
}
