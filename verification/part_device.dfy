/**
 A partition as a device of its own: the bound checks it adds, and that they compose with the
 checks of the partition's client into containment on the disk.
 */
module PartDevice {
  import opened Wrappers
  import opened Arith
  import opened VirtioClient

  /** Disk sectors `first` to `last`, both included. */
  datatype Partition = Partition(first: nat, last: nat) {
    predicate Valid() { first <= last }
    function Size(): nat
      requires Valid()
    {
      last - first + 1
    }
    predicate Contains(sector: nat, sectors: nat) { first <= sector && sector + sectors <= last + 1 }
  }

  /** `inout_data`: refuse, or pass the same blocks to the disk from another sector on. */
  method InoutData(p: Partition, sector: nat, blocks: seq<Block>) returns (start: Option<nat>)
    requires p.Valid()
    ensures start.Some? <==> sector < p.Size() && sector + TotalSectors(blocks) <= p.Size()
    ensures start.Some? ==> start.value == p.first + sector && p.Contains(start.value, TotalSectors(blocks))
  {
    if sector >= p.Size() {
      return None;
    }
    var total, i := 0, 0;
    while i < |blocks|
      invariant 0 <= i <= |blocks| && total == TotalSectors(blocks[..i])
    {
      assert blocks[..i + 1][..i] == blocks[..i];
      total := total + blocks[i].sectors;
      i := i + 1;
    }
    assert blocks[..i] == blocks;
    if total > p.Size() - sector {
      return None;
    }
    return Some(sector + p.first);
  }

  /** A range inside a partition, counted from `offset`. */
  predicate RangeFits(p: Partition, offset: nat, b: Block)
    requires p.Valid()
  {
    offset + b.sector < p.Size() && offset + b.sector + b.sectors <= p.Size()
  }

  /** `discard`: refuse, or pass the same ranges to the disk with another offset. */
  method DiscardRanges(p: Partition, offset: nat, blocks: seq<Block>) returns (start: Option<nat>)
    requires p.Valid() && blocks != []
    ensures start.Some? <==> forall k :: 0 <= k < |blocks| ==> RangeFits(p, offset, blocks[k])
    ensures start.Some? ==> start.value == offset + p.first
    ensures start.Some? ==>
              forall k :: 0 <= k < |blocks| ==> p.Contains(start.value + blocks[k].sector, blocks[k].sectors)
  {
    var sz := p.Size();
    if offset > sz {
      assert !RangeFits(p, offset, blocks[0]);
      return None;
    }
    var i := 0;
    while i < |blocks|
      invariant 0 <= i <= |blocks| && forall k :: 0 <= k < i ==> RangeFits(p, offset, blocks[k])
    {
      var b := blocks[i];
      if b.sector >= sz - offset || b.sectors > sz || offset + b.sector > sz - b.sectors {
        assert !RangeFits(p, offset, blocks[i]);
        return None;
      }
      i := i + 1;
    }
    return Some(offset + p.first);
  }

  // ---------------------------------------------------------------- end to end

  /** The client of a partition sees a device of the partition's size. */
  predicate Serves(cfg: Config, p: Partition) {
    cfg.Valid() && p.Valid() && cfg.capacity == p.Size() * cfg.sectorSize
  }

  lemma ServedSectors(cfg: Config, p: Partition)
    requires Serves(cfg, p)
    ensures cfg.Sps() > 0 && cfg.Sectors() == p.Size()
  {
    cfg.SpsPositive();
    QuotUnique(cfg.capacity, cfg.sectorSize, p.Size());
  }

  function Bytes(data: seq<Data>): nat {
    if data == [] then 0
    else Bytes(data[..|data| - 1]) + (if data[|data| - 1].Data? then data[|data| - 1].len else 0)
  }

  lemma {:induction false} SectorsInBytes(cfg: Config, data: seq<Data>)
    requires cfg.Valid() && forall k :: 0 <= k < |data| ==> Usable(cfg, data[k])
    ensures DataSectors(cfg, data) * cfg.sectorSize == Bytes(data)
  {
    if data != [] {
      var n := |data| - 1;
      SectorsInBytes(cfg, data[..n]);
      DataSectorsSplit(cfg, data, n);
      assert data[..n + 1] == data && Usable(cfg, data[n]);
      Times(DataSectors(cfg, data[..n]), SectorsOf(cfg, data[n]), cfg.sectorSize);
    }
  }

  lemma UsableInBytes(cfg: Config, d: Data)
    requires cfg.Valid()
    ensures Usable(cfg, d) <==> d.Data? && d.len % cfg.sectorSize == 0 && d.dma.Some?
  {
    if d.Data? { QuotExact(d.len, cfg.sectorSize); }
  }

  /** Which reads and writes are accepted, in bytes: none that write to a read-only device, and only whole device
      sectors in at most so many mappable pieces that end within the capacity. */
  lemma AcceptableInBytes(cfg: Config, kind: Kind, sector: nat, data: seq<Data>)
    requires cfg.Valid() && cfg.Sps() > 0
    ensures Acceptable(cfg, kind, sector, data) <==>
      && !(kind.Out? && cfg.readOnly) && (sector * 512) % cfg.sectorSize == 0 && |data| <= cfg.maxSegments
      && (forall k :: 0 <= k < |data| ==> data[k].Data? && data[k].len % cfg.sectorSize == 0 && data[k].dma.Some?)
      && (data == [] || sector * 512 + Bytes(data) <= cfg.capacity)
  {
    var start := Quot(sector, cfg.Sps());
    AlignedIff(cfg, sector);
    forall k | 0 <= k < |data|
      ensures Usable(cfg, data[k]) <==> data[k].Data? && data[k].len % cfg.sectorSize == 0 && data[k].dma.Some?
    {
      UsableInBytes(cfg, data[k]);
    }
    if start * cfg.Sps() == sector && forall k :: 0 <= k < |data| ==> Usable(cfg, data[k]) {
      SectorsInBytes(cfg, data);
      Aligned(cfg, start, sector);
      Times(start, DataSectors(cfg, data), cfg.sectorSize);
      QuotAtLeast(cfg.capacity, cfg.sectorSize, start + DataSectors(cfg, data));
    }
  }

  lemma AlignedIff(cfg: Config, sector: nat)
    requires cfg.Valid() && cfg.Sps() > 0
    ensures Quot(sector, cfg.Sps()) * cfg.Sps() == sector <==> (sector * 512) % cfg.sectorSize == 0
  {
    cfg.SpsPositive();
    var q, ss := Quot(sector, cfg.Sps()), cfg.sectorSize;
    if q * cfg.Sps() == sector {
      Aligned(cfg, q, sector);
      QuotUnique(sector * 512, ss, q);
      QuotExact(sector * 512, ss);
    }
    if (sector * 512) % ss == 0 {
      QuotExact(sector * 512, ss);
      var p := Quot(sector * 512, ss);
      assert p * ss == sector * 512 && p * (cfg.Sps() * 512) == (p * cfg.Sps()) * 512;
      QuotUnique(sector, cfg.Sps(), p);
    }
  }

  /** The blocks before block `k` hold exactly the bytes of the descriptors before it. */
  lemma {:induction false} BytesBefore(cfg: Config, blocks: seq<Block>, data: seq<Data>, writeBack: bool, k: nat)
    requires cfg.Valid() && data != [] && BlocksOf(cfg, blocks, data, writeBack) && k <= |data|
    ensures TotalSectors(blocks[..k]) * cfg.sectorSize == Bytes(data[..k])
    ensures TotalSectors(blocks[..k]) <= TotalSectors(blocks)
    decreases k
  {
    if k > 0 {
      BytesBefore(cfg, blocks, data, writeBack, k - 1);
      assert blocks[..k][..k - 1] == blocks[..k - 1] && data[..k][..k - 1] == data[..k - 1];
      assert Carries(cfg, blocks[k - 1], data[k - 1], writeBack);
      Times(TotalSectors(blocks[..k - 1]), blocks[k - 1].sectors, cfg.sectorSize);
    }
    PrefixTotal(blocks, k);
  }

  lemma Times(a: nat, b: nat, n: nat)
    ensures (a + b) * n == a * n + b * n
  {
  }

  lemma {:induction false} PrefixTotal(blocks: seq<Block>, k: nat)
    requires k <= |blocks|
    ensures TotalSectors(blocks[..k]) <= TotalSectors(blocks)
  {
    if k == |blocks| {
      assert blocks[..k] == blocks;
    } else {
      PrefixTotal(blocks[..|blocks| - 1], k);
      assert blocks[..|blocks| - 1][..k] == blocks[..k];
    }
  }

  /** Every block of a read or write that a partition's client accepts lies inside the partition on
      disk, right after its predecessor. */
  lemma InoutContained(cfg: Config, p: Partition, kind: Kind, sector: nat, data: seq<Data>, blocks: seq<Block>, k: nat)
    requires Serves(cfg, p) && cfg.Sps() > 0 && k < |data|
    requires Acceptable(cfg, kind, sector, data) && TotalSectors(blocks) == DataSectors(cfg, data)
    requires |blocks| == |data|
    ensures p.Contains(p.first + Quot(sector, cfg.Sps()) + TotalSectors(blocks[..k]), blocks[k].sectors)
    ensures TotalSectors(blocks[..k + 1]) == TotalSectors(blocks[..k]) + blocks[k].sectors
  {
    ServedSectors(cfg, p);
    assert blocks[..k + 1][..k] == blocks[..k];
    PrefixTotal(blocks, k + 1);
  }

  /** It lies at the byte position the request asked for, and is as long as its descriptor. */
  lemma InoutInPlace(cfg: Config, sector: nat, data: seq<Data>, blocks: seq<Block>, writeBack: bool, k: nat)
    requires cfg.Valid() && cfg.Sps() > 0 && Quot(sector, cfg.Sps()) * cfg.Sps() == sector
    requires k < |data| && BlocksOf(cfg, blocks, data, writeBack)
    ensures (Quot(sector, cfg.Sps()) + TotalSectors(blocks[..k])) * cfg.sectorSize == sector * 512 + Bytes(data[..k])
    ensures blocks[k].sectors * cfg.sectorSize == data[k].len
  {
    BytesBefore(cfg, blocks, data, writeBack, k);
    assert Carries(cfg, blocks[k], data[k], writeBack);
    Times(Quot(sector, cfg.Sps()), TotalSectors(blocks[..k]), cfg.sectorSize);
    Aligned(cfg, Quot(sector, cfg.Sps()), sector);
  }

  lemma Aligned(cfg: Config, start: nat, sector: nat)
    requires cfg.Valid() && start * cfg.Sps() == sector
    ensures start * cfg.sectorSize == sector * 512
  {
    cfg.SpsPositive();
    assert start * (cfg.Sps() * 512) == (start * cfg.Sps()) * 512;
  }

  /** A request accepted by the client is refused by the partition exactly if it transfers nothing
      and starts behind the last sector; one that transfers something never is. */
  lemma RefusedOnlyIfEmpty(cfg: Config, p: Partition, kind: Kind, sector: nat, data: seq<Data>, blocks: seq<Block>)
    requires Serves(cfg, p) && cfg.Sps() > 0
    requires Acceptable(cfg, kind, sector, data) && TotalSectors(blocks) == DataSectors(cfg, data)
    ensures
      var start := Quot(sector, cfg.Sps());
      !(start < p.Size() && start + TotalSectors(blocks) <= p.Size())
      <==> TotalSectors(blocks) == 0 && start >= p.Size()
  {
    ServedSectors(cfg, p);
  }

  /** Every range of a discard or write-zeroes request that a partition's client accepts lies inside
      the partition on disk at the right place; the partition refuses the request exactly if it holds
      an empty range right behind its last sector. */
  lemma DiscardContained(cfg: Config, p: Partition, discard: bool, cmds: seq<Cmd>, blocks: seq<Block>, k: nat)
    requires Serves(cfg, p) && cfg.Sps() > 0
    requires CmdAcceptable(cfg, discard, 0, cmds) && RangesOf(cfg, discard, blocks, ItemsOf(cmds))
    requires k < |ItemsOf(cmds)|
    ensures
      var item := ItemsOf(cmds)[k];
      && p.Contains(p.first + blocks[k].sector, blocks[k].sectors)
      && blocks[k].sector * cfg.sectorSize == item.sector * 512
      && blocks[k].sectors * cfg.sectorSize == item.sectors * 512
      && (!RangeFits(p, 0, blocks[k]) <==> blocks[k].sectors == 0 && blocks[k].sector == p.Size())
  {
    ServedSectors(cfg, p);
    var item := ItemsOf(cmds)[k];
    assert Judge(cfg, discard, item).Ok?;
    Aligned(cfg, blocks[k].sector, item.sector);
    Aligned(cfg, blocks[k].sectors, item.sectors);
  }

  /** Block `k` of a transfer from disk sector `start` on lies inside the partition, at the bytes that
      descriptor `k` of a request for virtio sector `sector` stands for. */
  predicate InPlace(cfg: Config, p: Partition, sector: nat, data: seq<Data>, start: nat, blocks: seq<Block>, k: nat)
    requires k < |data| && k < |blocks|
  {
    var at := start + TotalSectors(blocks[..k]);
    && p.Contains(at, blocks[k].sectors)
    && (at - p.first) * cfg.sectorSize == sector * 512 + Bytes(data[..k])
    && data[k].Data? && blocks[k].sectors * cfg.sectorSize == data[k].len && data[k].dma == Some(blocks[k].dma)
  }

  /** A read or write on its way to the disk: refused by the client, refused by the partition, or handed to
      the disk from sector `start` on, with every block in its place. */
  method TransferOnPartition(cfg: Config, p: Partition, kind: Kind, sector: nat, data: seq<Data>)
    returns (ret: Code, start: Option<nat>, blocks: seq<Block>)
    requires Serves(cfg, p) && (kind.In? || kind.Out?)
    ensures cfg.Sps() > 0 && (ret.Ok? <==> Acceptable(cfg, kind, sector, data))
    ensures start.Some? <==> ret.Ok? && (DataSectors(cfg, data) > 0 || Quot(sector, cfg.Sps()) < p.Size())
    ensures start.Some? && data != [] ==>
      |blocks| == |data| && forall k :: 0 <= k < |data| ==> InPlace(cfg, p, sector, data, start.value, blocks, k)
  {
    var mapped;
    ret, blocks, mapped := BuildInoutBlocks(cfg, kind, sector, data);
    if !ret.Ok? {
      return ret, None, blocks;
    }
    ServedSectors(cfg, p);
    RefusedOnlyIfEmpty(cfg, p, kind, sector, data, blocks);
    start := InoutData(p, Quot(sector, cfg.Sps()), blocks);
    if start.Some? && data != [] {
      forall k | 0 <= k < |data| ensures InPlace(cfg, p, sector, data, start.value, blocks, k) {
        InoutContained(cfg, p, kind, sector, data, blocks, k);
        InoutInPlace(cfg, sector, data, blocks, kind.Out? && cfg.WriteBack(), k);
        assert Carries(cfg, blocks[k], data[k], kind.Out? && cfg.WriteBack());
      }
    }
  }

  /** Range `k` on disk: inside the partition, and the bytes that the client asked for. */
  predicate RangeInPlace(cfg: Config, p: Partition, item: Item, start: nat, b: Block) {
    && p.Contains(start + b.sector, b.sectors)
    && (start + b.sector - p.first) * cfg.sectorSize == item.sector * 512
    && b.sectors * cfg.sectorSize == item.sectors * 512
  }

  /** The same for a discard or write-zeroes request. */
  method DiscardOnPartition(cfg: Config, p: Partition, discard: bool, sector: nat, cmds: seq<Cmd>)
    returns (ret: Code, start: Option<nat>, blocks: seq<Block>)
    requires Serves(cfg, p)
    ensures cfg.Sps() > 0 && (ret.Ok? <==> CmdAcceptable(cfg, discard, sector, cmds))
    ensures start.Some? ==> ret.Ok?
    ensures ret.Ok? && ItemsOf(cmds) != [] ==>
      var items := ItemsOf(cmds);
      && |blocks| == |items|
      && (start.None? <==> exists k :: 0 <= k < |items| && blocks[k].sectors == 0 && blocks[k].sector == p.Size())
      && (start.Some? ==> forall k :: 0 <= k < |items| ==> RangeInPlace(cfg, p, items[k], start.value, blocks[k]))
  {
    ret, blocks := BuildDiscardBlocks(cfg, discard, sector, cmds);
    if !ret.Ok? {
      return ret, None, blocks;
    }
    start := DiscardRanges(p, 0, blocks);
    ghost var items := ItemsOf(cmds);
    if items != [] {
      forall k | 0 <= k < |items|
        ensures !RangeFits(p, 0, blocks[k]) <==> blocks[k].sectors == 0 && blocks[k].sector == p.Size()
        ensures RangeInPlace(cfg, p, items[k], p.first, blocks[k])
      {
        DiscardContained(cfg, p, discard, cmds, blocks, k);
      }
    }
  }

  // ---------------------------------------------------------------- refused although accepted

  /** On every partition: a read of nothing right behind the last sector passes the client's checks and is
      refused by the partition. */
  lemma EmptyReadBehindEnd(cfg: Config, p: Partition)
    requires Serves(cfg, p)
    ensures cfg.Sps() > 0
    ensures
      var sector := p.Size() * cfg.Sps();
      && Acceptable(cfg, In, sector, []) && BlocksOf(cfg, [EmptyBlock], [], false)
      && !(Quot(sector, cfg.Sps()) < p.Size())
  {
    ServedSectors(cfg, p);
    QuotUnique(p.Size() * cfg.Sps(), cfg.Sps(), p.Size());
  }

  /** On every writable partition of a disk that can discard: so does a discard of an empty range there. */
  lemma EmptyDiscardBehindEnd(cfg: Config, p: Partition)
    requires Serves(cfg, p) && !cfg.readOnly && cfg.discard && cfg.info.maxDiscardSeg >= 1
    ensures cfg.Sps() > 0
    ensures
      var item := Item(p.Size() * cfg.Sps(), 0, false, false);
      && CmdAcceptable(cfg, true, 0, [Cmd(16, [item])]) && ItemsOf([Cmd(16, [item])]) == [item]
      && !RangeFits(p, 0, BlockOf(cfg, true, item))
  {
    ServedSectors(cfg, p);
    var item := Item(p.Size() * cfg.Sps(), 0, false, false);
    QuotUnique(item.sector, cfg.Sps(), p.Size());
    QuotUnique(0, cfg.Sps(), 0);
    var cmds := [Cmd(16, [item])];
    assert cmds[..0] == [] && ItemsOf([]) == [] && ItemsOf(cmds) == [item];
  }
}
