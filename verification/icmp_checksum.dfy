/** The Internet checksum (section 1 of RFC 1071) as the ping code computes it. */
module IcmpChecksum {
  type Byte = x: int | 0 <= x < 256

  const WORDS: nat := 0x1_0000
  const ONES: nat := 0xFFFF
  const REGISTER: nat := 0x1_0000_0000
  const LIMIT: nat := 0x2_0002

  function Word(lo: int, hi: int): int {
    lo + 256 * hi
  }

  /** The sum of the little-endian 16-bit words from byte `i` on; an odd last byte stands alone. */
  function WordSum(data: seq<Byte>, i: nat): nat
    decreases |data| - i
  {
    if i >= |data| then 0
    else if i + 1 == |data| then data[i]
    else Word(data[i], data[i + 1]) + WordSum(data, i + 2)
  }

  /** Adding the carries back in until there are none. */
  function Folded(sum: nat): nat {
    if sum < WORDS then sum else Folded(sum % WORDS + sum / WORDS)
  }

  function Checksum(data: seq<Byte>): int {
    ONES - Folded(WordSum(data, 0))
  }

  lemma {:induction false} WordSumBound(data: seq<Byte>, i: nat)
    requires i % 2 == 0
    ensures 2 * WordSum(data, i) <= ONES * (if i < |data| then |data| - i + 1 else 0)
    decreases |data| - i
  {
    if i + 1 < |data| {
      WordSumBound(data, i + 2);
    }
  }

  /** A buffer of at most 131074 bytes, 65537 words, never overflows the 32-bit accumulator. */
  lemma NoOverflow(data: seq<Byte>, i: nat)
    requires |data| <= LIMIT && i % 2 == 0
    ensures WordSum(data, i) < REGISTER
  {
    WordSumBound(data, i);
    if |data| == LIMIT && i < |data| {
      EvenBound(data, i);
    }
  }

  lemma {:induction false} EvenBound(data: seq<Byte>, i: nat)
    requires i % 2 == 0 && |data| % 2 == 0 && i <= |data|
    ensures 2 * WordSum(data, i) <= ONES * (|data| - i)
    decreases |data| - i
  {
    if i < |data| {
      EvenBound(data, i + 2);
    }
  }

  // Folding is arithmetic modulo 65535 with 65535 standing for a non-zero multiple of it

  lemma ModStep(n: nat, q: nat)
    requires n >= q * ONES + 1
    ensures (n - q * ONES - 1) % ONES == (n - 1) % ONES
    decreases q
  {
    if q > 0 {
      ModStep(n - ONES, q - 1);
      assert (n - 1) % ONES == (n - ONES - 1) % ONES;
    }
  }

  lemma {:induction false} FoldedValue(n: nat)
    ensures Folded(n) == if n == 0 then 0 else (n - 1) % ONES + 1
  {
    if n < WORDS {
      if n == WORDS - 1 {
        assert (n - 1) % ONES == ONES - 1;
      }
    } else {
      var q, r := n / WORDS, n % WORDS;
      FoldedValue(r + q);
      ModStep(n, q);
    }
  }

  /** The folded sum is congruent to the sum, and zero only for zero. */
  lemma FoldedCongruent(n: nat)
    ensures Folded(n) % ONES == n % ONES && Folded(n) <= ONES && (Folded(n) == 0 <==> n == 0)
  {
    FoldedValue(n);
    if n > 0 {
      var m := (n - 1) % ONES;
      assert (m + 1) % ONES == n % ONES by {
        assert n - 1 == ONES * ((n - 1) / ONES) + m;
        Shifted(m + 1, (n - 1) / ONES);
      }
    }
  }

  lemma {:induction false} Shifted(x: nat, q: nat)
    ensures (ONES * q + x) % ONES == x % ONES
  {
    if q > 0 {
      Shifted(x, q - 1);
      assert (ONES * (q - 1) + x + ONES) % ONES == (ONES * (q - 1) + x) % ONES;
    }
  }

  /** A sum that is a positive multiple of 65535 folds to 65535, and only such a sum does. */
  lemma FoldsToOnes(n: nat)
    ensures Folded(n) == ONES <==> n > 0 && n % ONES == 0
  {
    FoldedCongruent(n);
  }

  lemma ModUnique(x: nat, q: nat, r: nat)
    requires x == q * REGISTER + r && r < REGISTER
    ensures x % REGISTER == r
  {
  }

  /** One addition in the register; `q` counts the carries it has lost. */
  method AddWord(sum: nat, w: nat, ghost q: nat) returns (sum': nat, ghost q': nat)
    ensures sum' < REGISTER && sum' + q' * REGISTER == sum + w + q * REGISTER
  {
    sum' := (sum + w) % REGISTER;
    q' := q + (sum + w) / REGISTER;
  }

  /** The words added up in a 32-bit register. */
  method AddWords(data: seq<Byte>) returns (sum: nat)
    ensures sum == WordSum(data, 0) % REGISTER
  {
    sum := 0;
    ghost var q: nat := 0;
    var i, len := 0, |data|;
    while len > 1
      invariant 0 <= len <= |data| && i == |data| - len && sum < REGISTER
      invariant sum + q * REGISTER + WordSum(data, i) == WordSum(data, 0)
    {
      sum, q := AddWord(sum, Word(data[i], data[i + 1]), q);
      i, len := i + 2, len - 2;
    }
    if len > 0 {
      sum, q := AddWord(sum, data[i], q);
    }
    ModUnique(WordSum(data, 0), q, sum);
  }

  method FoldCarries(start: nat) returns (sum: nat)
    ensures sum == Folded(start) <= ONES
  {
    sum := start;
    while sum >= WORDS
      invariant Folded(sum) == Folded(start)
    {
      sum := sum % WORDS + sum / WORDS;
    }
  }

  /** The checksum of what the 32-bit register holds. */
  method IcmpChksum(data: seq<Byte>) returns (c: nat)
    ensures c == ONES - Folded(WordSum(data, 0) % REGISTER)
    ensures |data| <= LIMIT ==> c == Checksum(data)
  {
    var sum := AddWords(data);
    sum := FoldCarries(sum);
    c := ONES - sum;
    if |data| <= LIMIT { NoOverflow(data, 0); }
  }

  lemma Carried(q: nat, r: nat)
    ensures (q * REGISTER + r) % ONES == (q + r) % ONES
  {
    assert REGISTER == 65537 * ONES + 1;
    assert q * REGISTER + r == ONES * (65537 * q) + (q + r);
    Shifted(q + r, 65537 * q);
  }

  /** Carries lost by the register, `q` of them, do no harm if and only if there are none, or a multiple of
      65535 of them with something left in the register. */
  lemma LostCarriesHarmlessIff(sum: nat)
    ensures
      var q, r := sum / REGISTER, sum % REGISTER;
      Folded(r) == Folded(sum) <==> q == 0 || (q % ONES == 0 && r > 0)
  {
    var q, r := sum / REGISTER, sum % REGISTER;
    Carried(q, r);
    FoldedCongruent(r);
    FoldedCongruent(sum);
    SameFold(r, sum);
    SumMod(q, r);
  }

  /** Two sums fold alike if and only if they are congruent and both or neither are zero. */
  lemma SameFold(a: nat, b: nat)
    ensures Folded(a) == Folded(b) <==> a % ONES == b % ONES && (a == 0 <==> b == 0)
  {
    FoldedCongruent(a);
    FoldedCongruent(b);
  }

  lemma SumMod(q: nat, r: nat)
    ensures (q + r) % ONES == r % ONES <==> q % ONES == 0
  {
    assert q == ONES * (q / ONES) + q % ONES && r == ONES * (r / ONES) + r % ONES;
    var k := q % ONES + r % ONES;
    Shifted(k, q / ONES + r / ONES);
    assert q + r == ONES * (q / ONES + r / ONES) + k;
  }

  lemma {:induction false} OnesSum(data: seq<Byte>, i: nat)
    requires i % 2 == 0 && i <= |data| && forall k :: 0 <= k < |data| ==> data[k] == 255
    ensures 2 * WordSum(data, i) ==
            if |data| % 2 == 0 then ONES * (|data| - i) else ONES * (|data| - 1 - i) + 510
    decreases |data| - i
  {
    if i + 1 < |data| { OnesSum(data, i + 2); }
  }

  /** One byte more, all ones: a carry is lost and the checksum is wrong. */
  lemma LongBufferMiscounted(data: seq<Byte>)
    requires |data| == LIMIT + 1 && forall k :: 0 <= k < |data| ==> data[k] == 255
    ensures ONES - Folded(WordSum(data, 0) % REGISTER) != Checksum(data)
  {
    OnesSum(data, 0);
    LostCarriesHarmlessIff(WordSum(data, 0));
  }

  // Storing the checksum

  /** Store a 16-bit value at byte `at`, low byte first. */
  function Put(data: seq<Byte>, at: nat, w: nat): (r: seq<Byte>)
    requires at + 1 < |data| && w <= ONES
    ensures |r| == |data|
  {
    data[at := w % 256][at + 1 := w / 256]
  }

  function WordAt(data: seq<Byte>, at: nat): nat
    requires at + 1 < |data|
  {
    Word(data[at], data[at + 1])
  }

  lemma BytesOfWord(w: nat)
    requires w <= ONES
    ensures Word(w % 256, w / 256) == w
  {
  }

  /** Aligned words do not overlap. */
  lemma PutAt(data: seq<Byte>, at: nat, w: nat, k: nat)
    requires at + 1 < |data| && w <= ONES && k < |data|
    ensures Put(data, at, w)[k] == if k == at then w % 256 else if k == at + 1 then w / 256 else data[k]
  {
  }

  lemma Aligned(at: nat, i: nat)
    requires at % 2 == 0 && i % 2 == 0
    ensures i + 1 != at && i != at + 1
  {
  }

  lemma PutWord(data: seq<Byte>, at: nat, w: nat, i: nat)
    requires at + 1 < |data| && w <= ONES && at % 2 == 0 && i % 2 == 0 && i + 1 < |data|
    ensures WordAt(Put(data, at, w), i) == if i == at then w else WordAt(data, i)
  {
    PutAt(data, at, w, i);
    PutAt(data, at, w, i + 1);
    BytesOfWord(w);
    Aligned(at, i);
  }

  lemma {:induction false} PutSum(data: seq<Byte>, at: nat, w: nat, i: nat)
    requires at + 1 < |data| && w <= ONES && at % 2 == 0 && i % 2 == 0
    ensures WordSum(Put(data, at, w), i) == WordSum(data, i) + if i <= at then w - WordAt(data, at) else 0
    decreases |data| - i
  {
    if i + 1 < |data| {
      PutSum(data, at, w, i + 2);
      PutWord(data, at, w, i);
    }
  }

  /** Storing the checksum in its zeroed field makes the checksum of the whole 0. */
  lemma StoredChecksumVerifies(data: seq<Byte>, at: nat)
    requires at + 1 < |data| && at % 2 == 0 && data[at] == 0 && data[at + 1] == 0
    ensures 0 <= Checksum(data) <= ONES
    ensures Checksum(Put(data, at, Checksum(data))) == 0
  {
    var s := WordSum(data, 0);
    FoldedCongruent(s);
    var c := Checksum(data);
    PutSum(data, at, c, 0);
    assert (s + c) % ONES == 0 by { Cancels(s, Folded(s)); }
    assert s + c > 0;
    FoldsToOnes(s + c);
  }

  lemma Cancels(s: nat, f: nat)
    requires f <= ONES && f % ONES == s % ONES
    ensures (s + (ONES - f)) % ONES == 0
  {
    var q := s / ONES;
    assert s == ONES * q + s % ONES;
    if f == ONES {
      Shifted(0, q);
    } else {
      assert f == s % ONES;
      Shifted(0, q + 1);
      assert s + (ONES - f) == ONES * (q + 1) + 0;
    }
  }

  /** A packet that verifies still verifies after one aligned word changed if and only if the change is
      invisible modulo 65535, that is 0 for 65535 or 65535 for 0, and something is left of the sum. */
  lemma WordChangeSeen(data: seq<Byte>, at: nat, w: nat)
    requires at + 1 < |data| && at % 2 == 0 && w <= ONES && Checksum(data) == 0
    ensures Checksum(Put(data, at, w)) == 0 <==>
            w % ONES == WordAt(data, at) % ONES && WordSum(Put(data, at, w), 0) > 0
  {
    var s, o := WordSum(data, 0), WordAt(data, at);
    PutSum(data, at, w, 0);
    FoldsToOnes(s);
    FoldsToOnes(WordSum(Put(data, at, w), 0));
    Replaced(s, o, w, WordSum(Put(data, at, w), 0));
  }

  lemma Replaced(s: nat, o: nat, w: nat, t: nat)
    requires s % ONES == 0 && o <= ONES && w <= ONES && t == s - o + w
    ensures t % ONES == 0 <==> w % ONES == o % ONES
  {
    var q := s / ONES;
    assert s == ONES * q;
    if t % ONES == 0 {
      var p := t / ONES;
      assert t == ONES * p && w - o == ONES * (p - q);
      assert p - q == 0 || p - q == 1 || p - q == -1;
    }
    if w % ONES == o % ONES {
      assert w == o || w == o + ONES || o == w + ONES;
      if w == o + ONES {
        assert t == ONES * (q + 1) + 0;
        Shifted(0, q + 1);
      } else if o == w + ONES {
        assert q >= 1 && t == ONES * (q - 1) + 0;
        Shifted(0, q - 1);
      }
    }
  }
}
