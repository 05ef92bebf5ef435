/** The AT24C02 driver over a device that, inside one page write, wraps around in its 8-byte page. */
module Eeprom {
  import opened Wrappers

  type Byte = bv8

  const CAPACITY: nat := 256
  const PAGE: nat := 8
  const EINVAL: int := 22

  // The device

  /** Where byte `k` of a page write to `addr` ends up. */
  function Slot(addr: nat, k: nat): nat {
    addr - addr % PAGE + (addr % PAGE + k) % PAGE
  }

  lemma SlotInMemory(addr: nat, k: nat)
    requires addr < CAPACITY
    ensures Slot(addr, k) < CAPACITY
    ensures addr % PAGE + k < PAGE ==> Slot(addr, k) == addr + k
  {
  }

  /** The memory after the device took `k` bytes of one page write in turn, from `bytes[from]` on. */
  function PageStored(mem: seq<Byte>, addr: nat, bytes: seq<Byte>, from: nat, k: nat): (r: seq<Byte>)
    requires |mem| == CAPACITY && addr < CAPACITY && from + k <= |bytes|
    ensures |r| == CAPACITY
  {
    if k == 0 then mem else
      SlotInMemory(addr, k - 1);
      PageStored(mem, addr, bytes, from, k - 1)[Slot(addr, k - 1) := bytes[from + k - 1]]
  }

  /** A memory without pages after the first `k` bytes were stored from `addr` on. */
  function Stored(mem: seq<Byte>, addr: nat, bytes: seq<Byte>, k: nat): (r: seq<Byte>)
    requires addr + k <= |mem| && k <= |bytes|
    ensures |r| == |mem|
  {
    if k == 0 then mem else Stored(mem, addr, bytes, k - 1)[addr + k - 1 := bytes[k - 1]]
  }

  /** That sets exactly the range it should and nothing else. */
  lemma {:induction false} StoredIsUpdate(mem: seq<Byte>, addr: nat, bytes: seq<Byte>, k: nat)
    requires addr + k <= |mem| && k <= |bytes|
    ensures Stored(mem, addr, bytes, k) == mem[..addr] + bytes[..k] + mem[addr + k..]
  {
    if k > 0 {
      StoredIsUpdate(mem, addr, bytes, k - 1);
    }
  }

  /** A page write that stays inside its page goes on where the bytes before it ended. */
  lemma {:induction false} InsidePage(mem: seq<Byte>, addr: nat, bytes: seq<Byte>, from: nat, k: nat)
    requires |mem| == CAPACITY && from + k <= |bytes| && addr + from < CAPACITY && (addr + from) % PAGE + k <= PAGE
    ensures addr + from + k <= CAPACITY
    ensures PageStored(Stored(mem, addr, bytes, from), addr + from, bytes, from, k)
            == Stored(mem, addr, bytes, from + k)
  {
    if k > 0 {
      InsidePage(mem, addr, bytes, from, k - 1);
      SlotInMemory(addr + from, k - 1);
    }
  }

  /** No page write reaches outside the page it starts in; one that runs past its end comes back to
      the start of the page instead of going on. */
  lemma {:induction false} OtherPagesKept(mem: seq<Byte>, addr: nat, bytes: seq<Byte>, k: nat, i: nat)
    requires |mem| == CAPACITY && addr < CAPACITY && i < CAPACITY && i / PAGE != addr / PAGE && k <= |bytes|
    ensures PageStored(mem, addr, bytes, 0, k)[i] == mem[i]
  {
    if k > 0 {
      OtherPagesKept(mem, addr, bytes, k - 1, i);
      assert Slot(addr, k - 1) / PAGE == addr / PAGE;
    }
  }

  function Clamped(addr: nat, len: nat): (n: nat)
    requires addr < CAPACITY
    ensures n <= len && addr + n <= CAPACITY
  {
    if addr + len > CAPACITY then CAPACITY - addr else len
  }

  /** The bus accepted the message for the page of byte `a`. */
  predicate Granted(answers: seq<int>, a: nat) {
    a / PAGE < |answers| && answers[a / PAGE] >= 0
  }

  lemma SamePage(answers: seq<int>, cur: nat, chunk: nat)
    requires cur % PAGE + chunk <= PAGE && Granted(answers, cur)
    ensures forall a :: cur <= a < cur + chunk ==> Granted(answers, a)
    ensures cur % PAGE + chunk == PAGE ==> (cur + chunk) % PAGE == 0
  {
    forall a | cur <= a < cur + chunk
      ensures Granted(answers, a)
    {
      assert a / PAGE == cur / PAGE;
    }
  }

  // The driver

  class At24c02 {
    const mem: array<Byte>

    constructor (mem: array<Byte>)
      requires mem.Length == CAPACITY
      ensures this.mem == mem
    {
      this.mem := mem;
    }

    /** One I2C write message; `answer` is what the bus returns, and a refused message stores nothing. */
    method WritePage(addr: nat, bytes: seq<Byte>, from: nat, len: nat, answer: int) returns (r: int)
      requires mem.Length == CAPACITY && addr < CAPACITY && from + len <= |bytes|
      modifies mem
      ensures r == answer
      ensures mem[..] == if r < 0 then old(mem[..]) else PageStored(old(mem[..]), addr, bytes, from, len)
    {
      if answer >= 0 {
        var k := 0;
        while k < len
          invariant 0 <= k <= len && mem[..] == PageStored(old(mem[..]), addr, bytes, from, k)
        {
          SlotInMemory(addr, k);
          mem[Slot(addr, k)] := bytes[from + k];
          k := k + 1;
        }
      }
      return answer;
    }

    /** The next chunk of a write: up to the end of the page, and never across it. */
    method WriteChunk(addr: nat, bytes: seq<Byte>, written: nat, len: nat, answers: seq<int>, ghost was: seq<Byte>)
      returns (r: int, chunk: nat)
      requires mem.Length == CAPACITY && |answers| == CAPACITY / PAGE && |was| == CAPACITY
      requires written < len <= |bytes| && addr + len <= CAPACITY
      requires mem[..] == Stored(was, addr, bytes, written)
      modifies mem
      ensures 0 < chunk <= len - written && (addr + written) % PAGE + chunk <= PAGE
      ensures chunk == len - written || (addr + written + chunk) % PAGE == 0
      ensures r == answers[(addr + written) / PAGE]
      ensures mem[..] == Stored(was, addr, bytes, if r < 0 then written else written + chunk)
      ensures r >= 0 ==> forall a :: addr + written <= a < addr + written + chunk ==> Granted(answers, a)
    {
      var cur := addr + written;
      var inPage := PAGE - cur % PAGE;
      chunk := len - written;
      if chunk > inPage {
        chunk := inPage;
      }
      r := WritePage(cur, bytes, written, chunk, answers[cur / PAGE]);
      if r >= 0 {
        SamePage(answers, cur, chunk);
        InsidePage(was, addr, bytes, written, chunk);
      }
    }

    /** Write, one page at a time; `answers[p]` is the bus's answer for page `p`. On failure the first
        `done` bytes are stored, up to a page boundary, and nothing else. */
    method Write(addr: nat, data: Option<seq<Byte>>, answers: seq<int>) returns (r: int, ghost done: nat)
      requires mem.Length == CAPACITY && addr < CAPACITY && |answers| == CAPACITY / PAGE
      modifies mem
      ensures data == None || data.value == [] ==> r == -EINVAL && mem[..] == old(mem[..])
      ensures data.Some? && data.value != [] ==>
        && done <= Clamped(addr, |data.value|)
        && mem[..] == Stored(old(mem[..]), addr, data.value, done)
        && (r < 0 <==> done < Clamped(addr, |data.value|))
        && (r < 0 ==> (done == 0 || (addr + done) % PAGE == 0) && r == answers[(addr + done) / PAGE])
        && (r >= 0 ==> r == 0)
        && forall a :: addr <= a < addr + done ==> Granted(answers, a)
    {
      done := 0;
      if data == None || data.value == [] {
        return -EINVAL, 0;
      }
      var bytes := data.value;
      var len := Clamped(addr, |bytes|);
      ghost var was := mem[..];
      var written := 0;
      while written < len
        invariant done == written <= len
        invariant mem[..] == Stored(was, addr, bytes, written)
        invariant written == 0 || written == len || (addr + written) % PAGE == 0
        invariant forall a :: addr <= a < addr + written ==> Granted(answers, a)
      {
        var chunk;
        r, chunk := WriteChunk(addr, bytes, written, len, answers, was);
        if r < 0 {
          return;
        }
        written := written + chunk;
        done := written;
      }
      r := 0;
    }

    /** Sequential read; the length goes onto the bus as a single byte. */
    method Read(addr: nat, len: nat, answer: int) returns (r: int, data: seq<Byte>)
      requires mem.Length == CAPACITY && addr < CAPACITY
      ensures len == 0 ==> r == -EINVAL && data == []
      ensures len > 0 ==> r == answer
      ensures len > 0 ==> data == if r < 0 then [] else ReadBytes(mem[..], addr, len)
    {
      if len == 0 {
        return -EINVAL, [];
      }
      var n := len;
      if addr + n > CAPACITY {
        n := CAPACITY - addr;
      }
      if answer < 0 {
        return answer, [];
      }
      return answer, mem[addr..addr + n % 256];
    }
  }

  function ReadBytes(mem: seq<Byte>, addr: nat, len: nat): seq<Byte>
    requires |mem| == CAPACITY && addr < CAPACITY
  {
    mem[addr..addr + Clamped(addr, len) % 256]
  }

  /** What a successful write stored reads back if and only if the clamped length is not 256, which
      only a write of the whole memory reaches. */
  lemma ReadBackIff(mem: seq<Byte>, addr: nat, bytes: seq<Byte>, n: nat, after: seq<Byte>)
    requires |mem| == CAPACITY && addr < CAPACITY && bytes != []
    requires n == Clamped(addr, |bytes|) && after == Stored(mem, addr, bytes, n)
    ensures ReadBytes(after, addr, |bytes|) == bytes[..n] <==> n < CAPACITY
    ensures n < CAPACITY <==> addr > 0 || |bytes| < CAPACITY
  {
    if n < CAPACITY {
      ReadsBack(mem, addr, bytes, n);
    }
    assert |ReadBytes(after, addr, |bytes|)| == n % 256;
  }

  lemma ReadsBack(mem: seq<Byte>, addr: nat, bytes: seq<Byte>, n: nat)
    requires n <= |bytes| && addr + n <= |mem|
    ensures Stored(mem, addr, bytes, n)[addr..addr + n] == bytes[..n]
  {
    StoredIsUpdate(mem, addr, bytes, n);
  }

  /** The failing case: writing all 256 bytes and reading 256 bytes back gives none. */
  lemma WholeMemoryReadsNothing(mem: seq<Byte>)
    requires |mem| == CAPACITY
    ensures ReadBytes(mem, 0, CAPACITY) == []
  {
  }
}
