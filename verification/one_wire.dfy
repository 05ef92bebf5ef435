/** Bytes on the 1-Wire bus, and the two reads that a CRC protects. */
module OneWire {
  import opened Crc8

  const EIO: int := 5

  /** The first `k` bits of a byte, in the order they cross the bus. */
  function FirstBits(b: Byte, k: nat): (s: seq<bool>)
    ensures |s| == k && forall j :: 0 <= j < k ==> s[j] == Bit(b, j)
  {
    if k == 0 then [] else FirstBits(b, k - 1) + [Bit(b, k - 1)]
  }

  function BitsOf(b: Byte): (s: seq<bool>)
    ensures |s| == 8 && forall j :: 0 <= j < 8 ==> s[j] == Bit(b, j)
  {
    FirstBits(b, 8)
  }

  /** The byte that the first `k` of 8 bits make. */
  function Gathered(s: seq<bool>, k: nat): Byte
    requires k <= 8 <= |s|
  {
    if k == 0 then 0 else Gathered(s, k - 1) | (if s[k - 1] then Mask(k - 1) else 0)
  }

  /** Setting the bit with mask `m` changes the bit with mask `n` only if they are the same. */
  lemma OneBitSet(x: Byte, m: Byte, n: Byte)
    requires n != 0 && m & n == if m == n then n else 0
    ensures (x | m) & n != 0 <==> x & n != 0 || m == n
  {
  }

  lemma MasksApart(k: nat, j: nat)
    requires k < 8 && j < 8
    ensures Mask(j) != 0 && (Mask(k) == Mask(j) <==> k == j) && Mask(k) & Mask(j) == if k == j then Mask(j) else 0
  {
  }

  lemma BitIs(x: Byte, j: nat, n: Byte)
    requires n == Mask(j)
    ensures Bit(x, j) <==> x & n != 0
  {
  }

  lemma BitSet(x: Byte, y: Byte, k: nat, j: nat, m: Byte, n: Byte)
    requires k < 8 && j < 8 && m == Mask(k) && n == Mask(j) && y == x | m
    ensures Bit(y, j) <==> Bit(x, j) || k == j
  {
    MasksApart(k, j);
    OneBitSet(x, m, n);
    BitIs(x, j, n);
    BitIs(y, j, n);
  }

  lemma GatheredIs(s: seq<bool>, k: nat, x: Byte, y: Byte, m: Byte)
    requires k < 8 <= |s| && x == Gathered(s, k) && y == Gathered(s, k + 1) && m == Mask(k)
    ensures y == if s[k] then x | m else x
  {
    OrZero(x);
  }

  lemma GatheredNext(s: seq<bool>, k: nat, j: nat, x: Byte, y: Byte)
    requires k < 8 <= |s| && j < 8 && x == Gathered(s, k) && y == Gathered(s, k + 1)
    ensures Bit(y, j) <==> Bit(x, j) || (k == j && s[k])
  {
    GatheredIs(s, k, x, y, Mask(k));
    if s[k] {
      BitSet(x, y, k, j, Mask(k), Mask(j));
    }
  }

  lemma NoBitInZero(j: nat)
    ensures !Bit(0, j)
  {
  }

  /** Bit `j` of what has been gathered. */
  lemma {:induction false} GatheredBit(s: seq<bool>, k: nat, j: nat)
    requires k <= 8 <= |s| && j < 8
    ensures Bit(Gathered(s, k), j) <==> j < k && s[j]
  {
    if k == 0 {
      NoBitInZero(j);
    } else {
      GatheredBit(s, k - 1, j);
      GatheredNext(s, k - 1, j, Gathered(s, k - 1), Gathered(s, k));
    }
  }

  lemma SameBits(x: Byte, y: Byte)
    requires forall j :: 0 <= j < 8 ==> Bit(x, j) == Bit(y, j)
    ensures x == y
  {
    assert Bit(x, 0) == Bit(y, 0) && Bit(x, 1) == Bit(y, 1) && Bit(x, 2) == Bit(y, 2) && Bit(x, 3) == Bit(y, 3);
    assert Bit(x, 4) == Bit(y, 4) && Bit(x, 5) == Bit(y, 5) && Bit(x, 6) == Bit(y, 6) && Bit(x, 7) == Bit(y, 7);
  }

  /** What is sent is what arrives. */
  lemma SentArrives(b: Byte)
    ensures Gathered(BitsOf(b), 8) == b
  {
    forall j | 0 <= j < 8
      ensures Bit(Gathered(BitsOf(b), 8), j) == Bit(b, j)
    {
      GatheredBit(BitsOf(b), 8, j);
    }
    SameBits(Gathered(BitsOf(b), 8), b);
  }

  /** And what arrives is what was sent. */
  lemma ArrivedWasSent(s: seq<bool>)
    requires |s| == 8
    ensures BitsOf(Gathered(s, 8)) == s
  {
    forall j | 0 <= j < 8
      ensures BitsOf(Gathered(s, 8))[j] == s[j]
    {
      GatheredBit(s, 8, j);
    }
  }

  /** The bytes in the first `8n` bits. */
  function Bytes(s: seq<bool>, n: nat): (r: seq<Byte>)
    requires 8 * n <= |s|
    ensures |r| == n
  {
    if n == 0 then [] else Bytes(s, n - 1) + [Gathered(s[8 * n - 8..8 * n], 8)]
  }

  class Ds18b20 {
    /** Everything written so far, and what the sensor still has to say. */
    var sent: seq<bool>
    var incoming: seq<bool>

    method WriteBit(b: bool)
      modifies this`sent
      ensures sent == old(sent) + [b]
    {
      sent := sent + [b];
    }

    method ReadBit() returns (b: bool)
      requires incoming != []
      modifies this`incoming
      ensures b == old(incoming)[0] && incoming == old(incoming)[1..]
    {
      b := incoming[0];
      incoming := incoming[1..];
    }

    method WriteByte(byte: Byte)
      modifies this`sent
      ensures sent == old(sent) + BitsOf(byte)
    {
      var i := 0;
      while i < 8
        invariant 0 <= i <= 8 && sent == old(sent) + FirstBits(byte, i)
      {
        WriteBit(Bit(byte, i));
        i := i + 1;
      }
    }

    method ReadByte() returns (byte: Byte)
      requires |incoming| >= 8
      modifies this`incoming
      ensures byte == Gathered(old(incoming)[..8], 8) && incoming == old(incoming)[8..]
    {
      byte := 0;
      var i := 0;
      while i < 8
        invariant 0 <= i <= 8 && incoming == old(incoming)[i..] && byte == Gathered(old(incoming)[..8], i)
      {
        var b := ReadBit();
        if b {
          byte := byte | Mask(i);
        }
        OrZero(Gathered(old(incoming)[..8], i));
        i := i + 1;
      }
    }

    method ReadBytes(n: nat) returns (buf: seq<Byte>)
      requires |incoming| >= 8 * n
      modifies this`incoming
      ensures buf == Bytes(old(incoming), n) && incoming == old(incoming)[8 * n..]
    {
      buf := [];
      var i := 0;
      while i < n
        invariant 0 <= i <= n && incoming == old(incoming)[8 * i..] && buf == Bytes(old(incoming), i)
      {
        var b := ReadByte();
        assert old(incoming)[8 * i..][..8] == old(incoming)[8 * i..8 * i + 8];
        assert old(incoming)[8 * i..][8..] == old(incoming)[8 * (i + 1)..];
        buf := buf + [b];
        i := i + 1;
      }
    }

    /** Accepted if and only if the ninth byte is the CRC of the eight before it. */
    method ReadScratchpad() returns (err: int, buf: seq<Byte>)
      requires |incoming| >= 72
      modifies this`incoming
      ensures buf == Bytes(old(incoming), 9) && incoming == old(incoming)[72..]
      ensures err == if Accepted(buf) then 0 else -EIO
    {
      buf := ReadBytes(9);
      var crc := ComputeCrc(buf[..8]);
      if crc != buf[8] {
        return -EIO, buf;
      }
      return 0, buf;
    }

    /** The ROM code, least significant byte first, if a sensor is there and its CRC is right. */
    method ReadRom(present: bool) returns (err: int, rom: seq<Byte>)
      requires |incoming| >= 64
      modifies this
      ensures !present ==> err == -EIO && sent == old(sent) && incoming == old(incoming)
      ensures present ==> sent == old(sent) + BitsOf(0x33) && incoming == old(incoming)[64..]
      ensures present ==> err == if Crc(Bytes(old(incoming), 8)) == 0 then 0 else -EIO
      ensures err == 0 ==> rom == Bytes(old(incoming), 8)
    {
      rom := [];
      if !present {
        return -EIO, rom;
      }
      WriteByte(0x33);
      var buf := ReadBytes(8);
      var crc := ComputeCrc(buf[..7]);
      AppendedCrc(buf[..7], buf[7]);
      assert buf == buf[..7] + [buf[7]];
      if crc != buf[7] {
        return -EIO, rom;
      }
      return 0, buf;
    }
  }

  lemma OrZero(x: Byte)
    ensures x | 0 == x
  {
  }
}
