/**
 How a client turns the descriptors of a request into a list of blocks for the device:
 sanity checks, 512-byte conversion, bounds, and the DMA mappings made on the way.
 */
module VirtioClient {
  import opened Wrappers
  import opened Arith
  import opened BlockSystem

  datatype Code = Ok | Eio | Enosys | Einval | Other(code: nat)

  datatype DiscardInfo = DiscardInfo(
    maxDiscardSectors: nat, maxDiscardSeg: nat,
    maxWriteZeroesSectors: nat, maxWriteZeroesSeg: nat, mayUnmap: bool)

  /** The device as its client sees it, and what was negotiated. */
  datatype Config = Config(
    sectorSize: nat, capacity: nat, maxSegments: nat, readOnly: bool,
    configWce: bool, writeback: nat, flush: bool, discard: bool, writeZeroes: bool, info: DiscardInfo)
  {
    predicate Valid() { sectorSize > 0 && sectorSize % 512 == 0 }

    /** Virtio sectors of 512 bytes in one device sector. */
    function Sps(): nat { sectorSize / 512 }

    lemma SpsPositive()
      requires Valid()
      ensures Sps() > 0 && Sps() * 512 == sectorSize
    {
    }

    function Sectors(): nat
      requires Valid()
    {
      Quot(capacity, sectorSize)
    }

    /** Whether a write may stay in the device's cache. */
    predicate WriteBack() { if configWce then writeback == 1 else flush }
  }

  datatype Kind = In | Out | Discard | WriteZeroes

  /** One data descriptor: unreadable, or `len` bytes for which `dma_map` answers `dma`. */
  datatype Data = Bad | Data(len: nat, dma: Option<nat>, error: nat)

  /** An element of the list handed to the device. */
  datatype Block = Block(dma: nat, sector: nat, sectors: nat, writeBack: bool, unmap: bool)

  const EmptyBlock: Block := Block(0, 0, 0, false, false)

  function TotalSectors(blocks: seq<Block>): nat {
    if blocks == [] then 0 else TotalSectors(blocks[..|blocks| - 1]) + blocks[|blocks| - 1].sectors
  }

  /** What `release_dma` unmaps. */
  function Released(blocks: seq<Block>): seq<Mapping> {
    if blocks == [] then []
    else
      var last := blocks[|blocks| - 1];
      Released(blocks[..|blocks| - 1]) + (if last.sectors > 0 then [Mapping(last.dma, last.sectors)] else [])
  }

  lemma TotalSnoc(blocks: seq<Block>, b: Block)
    ensures TotalSectors(blocks + [b]) == TotalSectors(blocks) + b.sectors
    ensures Released(blocks + [b]) == Released(blocks) + (if b.sectors > 0 then [Mapping(b.dma, b.sectors)] else [])
  {
    assert (blocks + [b])[..|blocks|] == blocks;
  }

  lemma {:induction false} NonEmptySnoc(maps: seq<Mapping>, m: Mapping)
    ensures NonEmpty(maps + [m]) == NonEmpty(maps) + (if m.sectors > 0 then [m] else [])
  {
    if maps == [] {
      assert maps + [m] == [m];
    } else {
      var head := if maps[0].sectors > 0 then [maps[0]] else [];
      assert (maps + [m])[1..] == maps[1..] + [m];
      NonEmptySnoc(maps[1..], m);
      assert NonEmpty(maps + [m]) == head + NonEmpty(maps[1..] + [m]);
    }
  }

  /** `release_dma`: walk the list and unmap every non-empty block, in order. */
  method ReleaseDma(blocks: seq<Block>) returns (unmapped: seq<Mapping>)
    ensures unmapped == Released(blocks)
  {
    unmapped := [];
    var i := 0;
    while i < |blocks|
      invariant 0 <= i <= |blocks| && unmapped == Released(blocks[..i])
    {
      assert blocks[..i + 1] == blocks[..i] + [blocks[i]];
      TotalSnoc(blocks[..i], blocks[i]);
      if blocks[i].sectors != 0 {
        unmapped := unmapped + [Mapping(blocks[i].dma, blocks[i].sectors)];
      }
      i := i + 1;
    }
    assert blocks[..i] == blocks;
  }

  // ---------------------------------------------------------------- read and write

  function SectorsOf(cfg: Config, d: Data): nat
    requires cfg.Valid()
  {
    if d.Bad? then 0 else Quot(d.len, cfg.sectorSize)
  }

  function DataSectors(cfg: Config, data: seq<Data>): nat
    requires cfg.Valid()
  {
    if data == [] then 0 else SectorsOf(cfg, data[0]) + DataSectors(cfg, data[1..])
  }

  /** A descriptor that can be transferred: whole sectors, and mappable. */
  predicate Usable(cfg: Config, d: Data)
    requires cfg.Valid()
  {
    d.Data? && SectorsOf(cfg, d) * cfg.sectorSize == d.len && d.dma.Some?
  }

  /** The descriptors can be transferred from device sector `start` on. */
  predicate Fitting(cfg: Config, start: nat, data: seq<Data>)
    requires cfg.Valid()
  {
    && |data| <= cfg.maxSegments
    && (forall k :: 0 <= k < |data| ==> Usable(cfg, data[k]))
    && (data == [] || start + DataSectors(cfg, data) <= cfg.Sectors())
  }

  /** Which read and write requests are to be accepted. */
  predicate Acceptable(cfg: Config, kind: Kind, sector: nat, data: seq<Data>)
    requires cfg.Valid() && cfg.Sps() > 0
  {
    var start := Quot(sector, cfg.Sps());
    && !(kind.Out? && cfg.readOnly)
    && start * cfg.Sps() == sector
    && Fitting(cfg, start, data)
  }

  /** Block `b` of the list carries descriptor `d` of the request. */
  predicate Carries(cfg: Config, b: Block, d: Data, writeBack: bool)
    requires cfg.Valid()
  {
    Usable(cfg, d) && b == Block(d.dma.value, 0, SectorsOf(cfg, d), writeBack, false)
  }

  /** The list built from the descriptors of an accepted request; its head is always there. */
  predicate BlocksOf(cfg: Config, blocks: seq<Block>, data: seq<Data>, writeBack: bool)
    requires cfg.Valid()
  {
    if data == [] then blocks == [EmptyBlock]
    else |blocks| == |data| && forall k :: 0 <= k < |data| ==> Carries(cfg, blocks[k], data[k], writeBack)
  }

  /** The list under construction after descriptors `data[..i]`. */
  ghost predicate Built(cfg: Config, blocks: seq<Block>, mapped: seq<Mapping>, data: seq<Data>, i: nat, writeBack: bool)
    requires cfg.Valid()
  {
    && i <= |data|
    && BlocksOf(cfg, blocks, data[..i], writeBack)
    && Released(blocks) == NonEmpty(mapped)
    && TotalSectors(blocks) == DataSectors(cfg, data[..i])
  }

  lemma {:induction false} DataSectorsSplit(cfg: Config, data: seq<Data>, i: nat)
    requires cfg.Valid() && i < |data|
    ensures DataSectors(cfg, data[..i + 1]) == DataSectors(cfg, data[..i]) + SectorsOf(cfg, data[i])
    ensures DataSectors(cfg, data[..i + 1]) <= DataSectors(cfg, data)
  {
    if i == 0 {
      assert data[..1][1..] == [] && data[..1][0] == data[0];
    } else {
      DataSectorsSplit(cfg, data[1..], i - 1);
      assert data[..i + 1][1..] == data[1..][..i] && data[..i][1..] == data[1..][..i - 1];
    }
  }

  lemma BuiltStep(cfg: Config, blocks: seq<Block>, mapped: seq<Mapping>, data: seq<Data>, i: nat,
                  blk: Block, writeBack: bool)
    requires cfg.Valid() && Built(cfg, blocks, mapped, data, i, writeBack)
    requires i < |data| && Carries(cfg, blk, data[i], writeBack)
    ensures
      var blocks' := (if i == 0 then [] else blocks) + [blk];
      Built(cfg, blocks', mapped + [Mapping(blk.dma, blk.sectors)], data, i + 1, writeBack)
  {
    var done := if i == 0 then [] else blocks;
    assert Released([]) == [] && TotalSectors([]) == 0;
    if i == 0 {
      TotalSnoc([], EmptyBlock);
      assert [] + [EmptyBlock] == [EmptyBlock];
    }
    TotalSnoc(done, blk);
    NonEmptySnoc(mapped, Mapping(blk.dma, blk.sectors));
    DataSectorsSplit(cfg, data, i);
  }

  /** The checks on descriptor `i`, given that those before it end at device sector `current`. */
  method CheckData(cfg: Config, data: seq<Data>, i: nat, current: nat) returns (ok: bool, sz: nat)
    requires cfg.Valid() && i < |data|
    ensures sz == SectorsOf(cfg, data[i])
    ensures ok <==> data[i].Data? && sz * cfg.sectorSize == data[i].len && current + sz <= cfg.Sectors()
  {
    var d, sectors := data[i], cfg.Sectors();
    if d.Bad? {
      return false, 0;
    }
    sz := Quot(d.len, cfg.sectorSize);
    ok := sz * cfg.sectorSize == d.len && sz <= sectors && current <= sectors - sz;
  }

  lemma Unfit(cfg: Config, start: nat, data: seq<Data>, i: nat)
    requires cfg.Valid() && i < |data|
    requires i + 1 > cfg.maxSegments || !Usable(cfg, data[i])
             || start + DataSectors(cfg, data[..i + 1]) > cfg.Sectors()
    ensures !Fitting(cfg, start, data)
  {
    DataSectorsSplit(cfg, data, i);
  }

  lemma BuiltNone(cfg: Config, data: seq<Data>, writeBack: bool)
    requires cfg.Valid()
    ensures Built(cfg, [EmptyBlock], [], data, 0, writeBack)
  {
    TotalSnoc([], EmptyBlock);
    assert [] + [EmptyBlock] == [EmptyBlock];
  }

  lemma LinkedEmpty(cfg: Config, blocks: seq<Block>, mapped: seq<Mapping>, data: seq<Data>, i: nat, writeBack: bool)
    requires cfg.Valid() && i <= |data| && Built(cfg, blocks, mapped, data, i, writeBack)
    ensures Released(blocks) == NonEmpty(mapped) && Released(blocks + [EmptyBlock]) == NonEmpty(mapped)
  {
    TotalSnoc(blocks, EmptyBlock);
  }

  /** Mapping the descriptor fails with this answer. */
  predicate Unmappable(d: Data, ret: Code) { d.Data? && d.dma.None? && ret == Other(d.error) }

  /** Descriptors `data[..i]` passed the checks, are in the list and end before device sector `current`. */
  ghost predicate Passed(cfg: Config, start: nat, blocks: seq<Block>, mapped: seq<Mapping>, data: seq<Data>, i: nat,
                         writeBack: bool, current: nat)
    requires cfg.Valid()
  {
    && Built(cfg, blocks, mapped, data, i, writeBack) && i <= cfg.maxSegments
    && current == start + DataSectors(cfg, data[..i]) && (i > 0 ==> current <= cfg.Sectors())
    && forall k :: 0 <= k < i ==> Usable(cfg, data[k])
  }

  /** The body of that loop: check descriptor `i`, map it and append it to the list. */
  method AppendData(cfg: Config, ghost start: nat, data: seq<Data>, i: nat, writeBack: bool, current: nat,
                    blocks: seq<Block>, mapped: seq<Mapping>)
    returns (ret: Code, blocks': seq<Block>, mapped': seq<Mapping>)
    requires cfg.Valid() && i < |data| && Passed(cfg, start, blocks, mapped, data, i, writeBack, current)
    ensures Released(blocks') == NonEmpty(mapped')
    ensures if !ret.Ok? then !Fitting(cfg, start, data)
            else Passed(cfg, start, blocks', mapped', data, i + 1, writeBack, current + SectorsOf(cfg, data[i]))
    ensures !ret.Ok? ==> ret == Eio || Unmappable(data[i], ret)
  {
    DataSectorsSplit(cfg, data, i);
    if i + 1 > cfg.maxSegments {
      Unfit(cfg, start, data, i);
      return Eio, blocks, mapped;
    }
    var ok, sz := CheckData(cfg, data, i, current);
    if !ok {
      Unfit(cfg, start, data, i);
      return Eio, blocks, mapped;
    }
    if data[i].dma.None? {
      // the new list element is already linked in, still empty
      Unfit(cfg, start, data, i);
      LinkedEmpty(cfg, blocks, mapped, data, i, writeBack);
      return Other(data[i].error), if i == 0 then blocks else blocks + [EmptyBlock], mapped;
    }
    var blk := Block(data[i].dma.value, 0, sz, writeBack, false);
    BuiltStep(cfg, blocks, mapped, data, i, blk, writeBack);
    return Code.Ok, (if i == 0 then [] else blocks) + [blk], mapped + [Mapping(blk.dma, sz)];
  }

  /** The loop of `build_inout_blocks` over the descriptors. */
  method BuildBlocks(cfg: Config, start: nat, data: seq<Data>, writeBack: bool)
    returns (ret: Code, blocks: seq<Block>, mapped: seq<Mapping>)
    requires cfg.Valid()
    ensures Released(blocks) == NonEmpty(mapped)
    ensures ret.Ok? <==> Fitting(cfg, start, data)
    ensures ret.Ok? ==> Built(cfg, blocks, mapped, data, |data|, writeBack)
    ensures !ret.Ok? ==> ret == Eio || exists k :: 0 <= k < |data| && Unmappable(data[k], ret)
  {
    ret, blocks, mapped := Code.Ok, [EmptyBlock], [];
    BuiltNone(cfg, data, writeBack);
    var i: nat, current: nat := 0, start;
    while i < |data|
      invariant i <= |data| && ret.Ok? && Passed(cfg, start, blocks, mapped, data, i, writeBack, current)
    {
      ret, blocks, mapped := AppendData(cfg, start, data, i, writeBack, current, blocks, mapped);
      if !ret.Ok? {
        return;
      }
      current := current + SectorsOf(cfg, data[i]);
      i := i + 1;
    }
    assert data[..i] == data;
  }

  /** `build_inout_blocks`: a request is accepted exactly if it is acceptable; then the blocks carry its
      descriptors in order.  On every path, also when building fails part-way, the mappings made are
      exactly those `release_dma` will undo. */
  method BuildInoutBlocks(cfg: Config, kind: Kind, sector: nat, data: seq<Data>)
    returns (ret: Code, blocks: seq<Block>, mapped: seq<Mapping>)
    requires cfg.Valid() && (kind.In? || kind.Out?)
    ensures Released(blocks) == NonEmpty(mapped)
    ensures cfg.Sps() > 0 && (ret.Ok? <==> Acceptable(cfg, kind, sector, data))
    ensures ret.Ok? ==> BlocksOf(cfg, blocks, data, kind.Out? && cfg.WriteBack())
    ensures ret.Ok? ==> TotalSectors(blocks) == DataSectors(cfg, data)
    ensures ret.Ok? && data != [] ==> |blocks| == |data| && forall k :: 0 <= k < |data| ==>
      && data[k].Data? && data[k].dma == Some(blocks[k].dma) && !blocks[k].unmap
      && blocks[k].sectors * cfg.sectorSize == data[k].len
      && (blocks[k].writeBack <==>
            kind.Out? && ((cfg.configWce && cfg.writeback == 1) || (!cfg.configWce && cfg.flush)))
    ensures !ret.Ok? ==> ret == Eio || exists k :: 0 <= k < |data| && Unmappable(data[k], ret)
  {
    cfg.SpsPositive();
    var start := Quot(sector, cfg.Sps());
    TotalSnoc([], EmptyBlock);
    assert [] + [EmptyBlock] == [EmptyBlock] && data[..|data|] == data;
    var writeBack := false;
    if kind.Out? {
      if cfg.readOnly {
        return Eio, [EmptyBlock], [];
      }
      if cfg.configWce {
        writeBack := cfg.writeback == 1;
      } else if cfg.flush {
        writeBack := true;
      }
    }
    if start * cfg.Sps() != sector {
      return Eio, [EmptyBlock], [];
    }
    ret, blocks, mapped := BuildBlocks(cfg, start, data, writeBack);
    if ret.Ok? && data != [] {
      forall k | 0 <= k < |data| ensures Carries(cfg, blocks[k], data[k], writeBack) {
      }
    }
  }

  // ---------------------------------------------------------------- discard and write zeroes

  /** A range in 512-byte sectors, as the client wrote it. */
  datatype Item = Item(sector: nat, sectors: nat, unmap: bool, reserved: bool)

  /** One descriptor of a command: unreadable, or `len` bytes holding whole items of 16 bytes. */
  datatype Cmd = BadCmd | Cmd(len: nat, items: seq<Item>)

  predicate Whole(c: Cmd) { c.Cmd? && |c.items| * 16 == c.len }

  function ItemsOf(cmds: seq<Cmd>): seq<Item> {
    if cmds == [] then []
    else ItemsOf(cmds[..|cmds| - 1]) + (if cmds[|cmds| - 1].Cmd? then cmds[|cmds| - 1].items else [])
  }

  /** The verdict on one range. */
  function Judge(cfg: Config, discard: bool, p: Item): Code
    requires cfg.Valid() && cfg.Sps() > 0
  {
    var sector, sectors := Quot(p.sector, cfg.Sps()), Quot(p.sectors, cfg.Sps());
    if sector * cfg.Sps() != p.sector || sectors * cfg.Sps() != p.sectors then Eio
    else if sector + sectors > cfg.Sectors() then Eio
    else if p.reserved then Enosys
    else if discard && p.unmap then Enosys
    else if sectors > (if discard then cfg.info.maxDiscardSectors else cfg.info.maxWriteZeroesSectors) then Eio
    else Code.Ok
  }

  /** Whole device sectors that end within the capacity, in the client's units of 512 bytes. */
  predicate InBounds(cfg: Config, p: Item)
    requires cfg.Valid() && cfg.Sps() > 0
  {
    p.sector % cfg.Sps() == 0 && p.sectors % cfg.Sps() == 0 && (p.sector + p.sectors) * 512 <= cfg.capacity
  }

  /** Flags that the kind of command does not know. */
  predicate BadFlags(discard: bool, p: Item) { p.reserved || (discard && p.unmap) }

  /** The ranges a client may ask for. */
  predicate Permitted(cfg: Config, discard: bool, p: Item)
    requires cfg.Valid() && cfg.Sps() > 0
  {
    && InBounds(cfg, p) && !BadFlags(discard, p)
    && (discard ==> p.sectors <= cfg.info.maxDiscardSectors * cfg.Sps())
    && (!discard ==> p.sectors <= cfg.info.maxWriteZeroesSectors * cfg.Sps())
  }

  lemma BoundsInBytes(cfg: Config, p: Item)
    requires cfg.Valid() && cfg.Sps() > 0
    ensures
      var sector, sectors := Quot(p.sector, cfg.Sps()), Quot(p.sectors, cfg.Sps());
      sector * cfg.Sps() == p.sector && sectors * cfg.Sps() == p.sectors && sector + sectors <= cfg.Sectors()
      <==> InBounds(cfg, p)
  {
    var sector, sectors := Quot(p.sector, cfg.Sps()), Quot(p.sectors, cfg.Sps());
    QuotExact(p.sector, cfg.Sps());
    QuotExact(p.sectors, cfg.Sps());
    if sector * cfg.Sps() == p.sector && sectors * cfg.Sps() == p.sectors {
      QuotAtLeast(cfg.capacity, cfg.sectorSize, sector + sectors);
      InBytes(cfg, sector, sectors);
    }
  }

  lemma InBytes(cfg: Config, sector: nat, sectors: nat)
    requires cfg.Valid()
    ensures (sector + sectors) * cfg.sectorSize == (sector * cfg.Sps() + sectors * cfg.Sps()) * 512
  {
    cfg.SpsPositive();
    assert sector * (cfg.Sps() * 512) == sector * cfg.Sps() * 512;
    assert sectors * (cfg.Sps() * 512) == sectors * cfg.Sps() * 512;
    assert (sector + sectors) * cfg.sectorSize == sector * cfg.sectorSize + sectors * cfg.sectorSize;
  }

  /** The verdict is what the client's own units say: accepted if and only if permitted, and `Enosys` if and
      only if only the flags are wrong before the length is looked at. */
  lemma JudgedByRules(cfg: Config, discard: bool, p: Item)
    requires cfg.Valid() && cfg.Sps() > 0
    ensures Judge(cfg, discard, p).Ok? <==> Permitted(cfg, discard, p)
    ensures Judge(cfg, discard, p).Enosys? <==> InBounds(cfg, p) && BadFlags(discard, p)
    ensures Judge(cfg, discard, p) in {Code.Ok, Enosys, Eio}
  {
    var sectors := Quot(p.sectors, cfg.Sps());
    BoundsInBytes(cfg, p);
    MulCompare(sectors, cfg.info.maxDiscardSectors, cfg.Sps());
    MulCompare(sectors, cfg.info.maxWriteZeroesSectors, cfg.Sps());
  }

  /** An accepted range in device sectors. */
  function BlockOf(cfg: Config, discard: bool, p: Item): Block
    requires cfg.Valid() && cfg.Sps() > 0
  {
    Block(0, Quot(p.sector, cfg.Sps()), Quot(p.sectors, cfg.Sps()), false, !discard && p.unmap && cfg.info.mayUnmap)
  }

  predicate RangesOf(cfg: Config, discard: bool, blocks: seq<Block>, items: seq<Item>)
    requires cfg.Valid() && cfg.Sps() > 0
  {
    if items == [] then blocks == [EmptyBlock]
    else |blocks| == |items| && forall k :: 0 <= k < |items| ==> blocks[k] == BlockOf(cfg, discard, items[k])
  }

  function MaxSeg(cfg: Config, discard: bool): nat {
    if discard then cfg.info.maxDiscardSeg else cfg.info.maxWriteZeroesSeg
  }

  /** Which discard and write-zeroes requests are to be accepted. */
  predicate CmdAcceptable(cfg: Config, discard: bool, sector: nat, cmds: seq<Cmd>)
    requires cfg.Valid() && cfg.Sps() > 0
  {
    var items := ItemsOf(cmds);
    && !cfg.readOnly && sector == 0
    && (if discard then cfg.discard else cfg.writeZeroes)
    && (forall k :: 0 <= k < |cmds| ==> Whole(cmds[k]))
    && |items| <= MaxSeg(cfg, discard)
    && forall k :: 0 <= k < |items| ==> Judge(cfg, discard, items[k]).Ok?
  }

  /** The same in the client's units, command by command. */
  predicate CmdPermitted(cfg: Config, discard: bool, sector: nat, cmds: seq<Cmd>)
    requires cfg.Valid() && cfg.Sps() > 0
  {
    var items := ItemsOf(cmds);
    && !cfg.readOnly && sector == 0
    && (discard ==> cfg.discard && |items| <= cfg.info.maxDiscardSeg)
    && (!discard ==> cfg.writeZeroes && |items| <= cfg.info.maxWriteZeroesSeg)
    && (forall k :: 0 <= k < |cmds| ==> cmds[k].Cmd? && cmds[k].len == 16 * |cmds[k].items|)
    && forall k :: 0 <= k < |items| ==> Permitted(cfg, discard, items[k])
  }

  lemma AcceptableIffPermitted(cfg: Config, discard: bool, sector: nat, cmds: seq<Cmd>)
    requires cfg.Valid() && cfg.Sps() > 0
    ensures CmdAcceptable(cfg, discard, sector, cmds) <==> CmdPermitted(cfg, discard, sector, cmds)
  {
    var items := ItemsOf(cmds);
    forall k | 0 <= k < |items|
      ensures Judge(cfg, discard, items[k]).Ok? <==> Permitted(cfg, discard, items[k])
    {
      JudgedByRules(cfg, discard, items[k]);
    }
  }

  /** A block of an accepted command: the bytes of its range, to be unmapped if and only if zeroes are to be
      written, the client asked for it and the device may. */
  predicate StandsFor(cfg: Config, discard: bool, b: Block, p: Item) {
    && b.sector * cfg.sectorSize == p.sector * 512 && b.sectors * cfg.sectorSize == p.sectors * 512
    && (b.unmap <==> !discard && p.unmap && cfg.info.mayUnmap)
    && b.dma == 0 && !b.writeBack
  }

  lemma RangeStands(cfg: Config, discard: bool, p: Item)
    requires cfg.Valid() && cfg.Sps() > 0 && Permitted(cfg, discard, p)
    ensures StandsFor(cfg, discard, BlockOf(cfg, discard, p), p)
  {
    QuotExact(p.sector, cfg.Sps());
    QuotExact(p.sectors, cfg.Sps());
    InBytes(cfg, Quot(p.sector, cfg.Sps()), 0);
    InBytes(cfg, Quot(p.sectors, cfg.Sps()), 0);
  }

  lemma RangesStand(cfg: Config, discard: bool, blocks: seq<Block>, items: seq<Item>)
    requires cfg.Valid() && cfg.Sps() > 0 && RangesOf(cfg, discard, blocks, items) && items != []
    requires forall k :: 0 <= k < |items| ==> Permitted(cfg, discard, items[k])
    ensures |blocks| == |items| && forall k :: 0 <= k < |items| ==> StandsFor(cfg, discard, blocks[k], items[k])
  {
    forall k | 0 <= k < |items| ensures StandsFor(cfg, discard, blocks[k], items[k]) {
      RangeStands(cfg, discard, items[k]);
    }
  }

  /** Item `k` is the first one not permitted, and `ret` says why. */
  predicate FirstRefused(cfg: Config, discard: bool, items: seq<Item>, k: nat, ret: Code)
    requires cfg.Valid() && cfg.Sps() > 0
  {
    && k < |items| && !Permitted(cfg, discard, items[k])
    && (forall j :: 0 <= j < k ==> Permitted(cfg, discard, items[j]))
    && ret == if InBounds(cfg, items[k]) && BadFlags(discard, items[k]) then Enosys else Eio
  }

  lemma {:induction false} ItemsSplit(cmds: seq<Cmd>, i: nat)
    requires i < |cmds|
    ensures ItemsOf(cmds[..i + 1]) == ItemsOf(cmds[..i]) + (if cmds[i].Cmd? then cmds[i].items else [])
    ensures ItemsOf(cmds[..i + 1]) <= ItemsOf(cmds)
  {
    assert cmds[..i + 1][..i] == cmds[..i];
    if i + 1 < |cmds| {
      ItemsSplit(cmds[..|cmds| - 1], i);
      assert cmds[..|cmds| - 1][..i + 1] == cmds[..i + 1] && cmds[..|cmds| - 1][..i] == cmds[..i];
    } else {
      assert cmds[..i + 1] == cmds;
    }
  }

  lemma RefusedByRules(cfg: Config, discard: bool, items: seq<Item>, i: nat, ret: Code)
    requires cfg.Valid() && cfg.Sps() > 0 && i < |items| && ret == Judge(cfg, discard, items[i]) && !ret.Ok?
    requires forall k :: 0 <= k < i ==> Judge(cfg, discard, items[k]).Ok?
    ensures FirstRefused(cfg, discard, items, i, ret)
  {
    forall j | 0 <= j <= i
      ensures Judge(cfg, discard, items[j]).Ok? <==> Permitted(cfg, discard, items[j])
    {
      JudgedByRules(cfg, discard, items[j]);
    }
    JudgedByRules(cfg, discard, items[i]);
  }

  /** The checks on one range, in the order of the code, and the block that it becomes. */
  method CheckRange(cfg: Config, discard: bool, p: Item) returns (ret: Code, blk: Block)
    requires cfg.Valid() && cfg.Sps() > 0
    ensures ret == Judge(cfg, discard, p)
    ensures ret.Ok? ==> blk == BlockOf(cfg, discard, p)
  {
    blk := EmptyBlock;
    var sps, sectors := cfg.Sps(), cfg.Sectors();
    QuotExact(p.sector, sps);
    QuotExact(p.sectors, sps);
    if p.sector % sps != 0 || p.sectors % sps != 0 {
      return Eio, blk;
    }
    var sector, num := Quot(p.sector, sps), Quot(p.sectors, sps);
    if num > sectors || sector > sectors - num {
      return Eio, blk;
    }
    if p.reserved {
      return Enosys, blk;
    }
    blk := blk.(sector := sector, sectors := num);
    if discard {
      if p.unmap {
        return Enosys, blk;
      }
      if num > cfg.info.maxDiscardSectors {
        return Eio, blk;
      }
    } else {
      if p.unmap && cfg.info.mayUnmap {
        blk := blk.(unmap := true);
      }
      if num > cfg.info.maxWriteZeroesSectors {
        return Eio, blk;
      }
    }
    return Code.Ok, blk;
  }

  /** The inner loop: check the ranges of one descriptor and append them to the list. */
  method AppendRanges(cfg: Config, discard: bool, before: seq<Item>, items: seq<Item>, blocks: seq<Block>)
    returns (ret: Code, blocks': seq<Block>)
    requires cfg.Valid() && cfg.Sps() > 0 && RangesOf(cfg, discard, blocks, before)
    ensures ret.Ok? <==> forall k :: 0 <= k < |items| ==> Judge(cfg, discard, items[k]).Ok?
    ensures ret.Ok? ==> RangesOf(cfg, discard, blocks', before + items)
    ensures !ret.Ok? ==> exists k: nat :: FirstRefused(cfg, discard, items, k, ret)
  {
    blocks' := blocks;
    var i: nat := 0;
    assert before + items[..0] == before;
    while i < |items|
      invariant 0 <= i <= |items|
      invariant forall k :: 0 <= k < i ==> Judge(cfg, discard, items[k]).Ok?
      invariant RangesOf(cfg, discard, blocks', before + items[..i])
    {
      var blk;
      ret, blk := CheckRange(cfg, discard, items[i]);
      if !ret.Ok? {
        RefusedByRules(cfg, discard, items, i, ret);
        return;
      }
      var list := before + items[..i];
      assert before + items[..i + 1] == list + [items[i]];
      blocks' := (if list == [] then [] else blocks') + [blk];
      i := i + 1;
    }
    assert items[..i] == items;
    ret := Code.Ok;
  }

  lemma CmdUnacceptable(cfg: Config, discard: bool, sector: nat, cmds: seq<Cmd>, i: nat)
    requires cfg.Valid() && cfg.Sps() > 0 && i < |cmds|
    requires !Whole(cmds[i]) || |ItemsOf(cmds[..i + 1])| > MaxSeg(cfg, discard)
             || exists k :: 0 <= k < |cmds[i].items| && !Judge(cfg, discard, cmds[i].items[k]).Ok?
    ensures !CmdAcceptable(cfg, discard, sector, cmds)
  {
    ItemsSplit(cmds, i);
    if Whole(cmds[i]) && |ItemsOf(cmds[..i + 1])| <= MaxSeg(cfg, discard) {
      var k :| 0 <= k < |cmds[i].items| && !Judge(cfg, discard, cmds[i].items[k]).Ok?;
      assert ItemsOf(cmds)[|ItemsOf(cmds[..i])| + k] == cmds[i].items[k];
    }
  }

  /** Descriptors `cmds[..i]` passed the checks and their ranges are in the list. */
  predicate Collected(cfg: Config, discard: bool, cmds: seq<Cmd>, i: nat, blocks: seq<Block>)
    requires cfg.Valid() && cfg.Sps() > 0 && i <= |cmds|
  {
    var items := ItemsOf(cmds[..i]);
    && (forall k :: 0 <= k < i ==> Whole(cmds[k]))
    && (i == 0 || |items| <= MaxSeg(cfg, discard))
    && RangesOf(cfg, discard, blocks, items)
    && forall k :: 0 <= k < |items| ==> Judge(cfg, discard, items[k]).Ok?
  }

  lemma CollectedNext(cfg: Config, discard: bool, cmds: seq<Cmd>, i: nat, blocks: seq<Block>, blocks': seq<Block>)
    requires cfg.Valid() && cfg.Sps() > 0 && i < |cmds| && Collected(cfg, discard, cmds, i, blocks)
    requires Whole(cmds[i]) && |ItemsOf(cmds[..i])| + |cmds[i].items| <= MaxSeg(cfg, discard)
    requires RangesOf(cfg, discard, blocks', ItemsOf(cmds[..i]) + cmds[i].items)
    requires forall k :: 0 <= k < |cmds[i].items| ==> Judge(cfg, discard, cmds[i].items[k]).Ok?
    ensures Collected(cfg, discard, cmds, i + 1, blocks')
  {
    ItemsSplit(cmds, i);
    var before, items := ItemsOf(cmds[..i]), ItemsOf(cmds[..i + 1]);
    forall k | 0 <= k < |items| ensures Judge(cfg, discard, items[k]).Ok? {
      assert items[k] == if k < |before| then before[k] else cmds[i].items[k - |before|];
    }
  }

  lemma CollectedAll(cfg: Config, discard: bool, cmds: seq<Cmd>, blocks: seq<Block>)
    requires cfg.Valid() && cfg.Sps() > 0 && Collected(cfg, discard, cmds, |cmds|, blocks)
    requires !cfg.readOnly && if discard then cfg.discard else cfg.writeZeroes
    ensures CmdAcceptable(cfg, discard, 0, cmds) && RangesOf(cfg, discard, blocks, ItemsOf(cmds))
  {
    assert cmds[..|cmds|] == cmds;
  }

  /** Why the descriptors of a command are refused: they are malformed or too many, or the first range that is
      not permitted says so. */
  ghost predicate Misfit(cfg: Config, discard: bool, cmds: seq<Cmd>, ret: Code)
    requires cfg.Valid() && cfg.Sps() > 0
  {
    || (ret == Eio && ((exists k :: 0 <= k < |cmds| && !Whole(cmds[k])) || |ItemsOf(cmds)| > MaxSeg(cfg, discard)))
    || exists k: nat :: FirstRefused(cfg, discard, ItemsOf(cmds), k, ret)
  }

  ghost predicate Refusal(cfg: Config, discard: bool, sector: nat, cmds: seq<Cmd>, ret: Code)
    requires cfg.Valid() && cfg.Sps() > 0
  {
    if cfg.readOnly then ret == Eio
    else if sector != 0 || (if discard then !cfg.discard else !cfg.writeZeroes) then ret == Enosys
    else Misfit(cfg, discard, cmds, ret)
  }

  lemma MisfitItem(cfg: Config, discard: bool, cmds: seq<Cmd>, i: nat, ret: Code)
    requires cfg.Valid() && cfg.Sps() > 0 && i < |cmds| && cmds[i].Cmd?
    requires forall k :: 0 <= k < |ItemsOf(cmds[..i])| ==> Judge(cfg, discard, ItemsOf(cmds[..i])[k]).Ok?
    requires exists k: nat :: FirstRefused(cfg, discard, cmds[i].items, k, ret)
    ensures Misfit(cfg, discard, cmds, ret)
  {
    var k: nat :| FirstRefused(cfg, discard, cmds[i].items, k, ret);
    ItemsSplit(cmds, i);
    var before, all := ItemsOf(cmds[..i]), ItemsOf(cmds);
    forall j | 0 <= j < |before| + k ensures Permitted(cfg, discard, all[j]) {
      if j < |before| {
        assert all[j] == before[j];
        JudgedByRules(cfg, discard, before[j]);
      } else {
        assert all[j] == cmds[i].items[j - |before|];
      }
    }
    assert all[|before| + k] == cmds[i].items[k];
    assert FirstRefused(cfg, discard, all, |before| + k, ret);
  }

  /** The body of the outer loop: check descriptor `i`, which follows `seg` ranges, and append its ranges. */
  method AppendCmd(cfg: Config, discard: bool, cmds: seq<Cmd>, i: nat, seg: nat, blocks: seq<Block>)
    returns (ret: Code, blocks': seq<Block>)
    requires cfg.Valid() && cfg.Sps() > 0 && i < |cmds| && Collected(cfg, discard, cmds, i, blocks)
    requires seg == |ItemsOf(cmds[..i])|
    ensures ret.Ok? ==> Collected(cfg, discard, cmds, i + 1, blocks')
    ensures ret.Ok? ==> |ItemsOf(cmds[..i + 1])| == seg + |cmds[i].items|
    ensures !ret.Ok? ==> !CmdAcceptable(cfg, discard, 0, cmds) && Misfit(cfg, discard, cmds, ret)
  {
    ItemsSplit(cmds, i);
    if !Whole(cmds[i]) || seg + |cmds[i].items| > MaxSeg(cfg, discard) {
      CmdUnacceptable(cfg, discard, 0, cmds, i);
      return Eio, blocks;
    }
    ret, blocks' := AppendRanges(cfg, discard, ItemsOf(cmds[..i]), cmds[i].items, blocks);
    if ret.Ok? {
      CollectedNext(cfg, discard, cmds, i, blocks, blocks');
    } else {
      CmdUnacceptable(cfg, discard, 0, cmds, i);
      MisfitItem(cfg, discard, cmds, i, ret);
    }
  }

  /** `build_discard_cmd_blocks`: accepted exactly if acceptable, and then the list holds the ranges the
      client asked for, in order and in device sectors. */
  method BuildDiscardBlocks(cfg: Config, discard: bool, sector: nat, cmds: seq<Cmd>)
    returns (ret: Code, blocks: seq<Block>)
    requires cfg.Valid()
    ensures cfg.Sps() > 0 && (ret.Ok? <==> CmdAcceptable(cfg, discard, sector, cmds))
    ensures ret.Ok? ==> RangesOf(cfg, discard, blocks, ItemsOf(cmds))
    ensures ret.Ok? <==> CmdPermitted(cfg, discard, sector, cmds)
    ensures ret.Ok? && ItemsOf(cmds) != [] ==>
      && |blocks| == |ItemsOf(cmds)|
      && forall k :: 0 <= k < |blocks| ==> StandsFor(cfg, discard, blocks[k], ItemsOf(cmds)[k])
    ensures !ret.Ok? ==> Refusal(cfg, discard, sector, cmds, ret)
  {
    cfg.SpsPositive();
    AcceptableIffPermitted(cfg, discard, sector, cmds);
    ret, blocks := Code.Ok, [EmptyBlock];
    if cfg.readOnly {
      return Eio, blocks;
    }
    if sector != 0 {
      return Enosys, blocks;
    }
    if if discard then !cfg.discard else !cfg.writeZeroes {
      return Enosys, blocks;
    }
    var i, seg := 0, 0;
    while i < |cmds|
      invariant 0 <= i <= |cmds| && ret.Ok? && seg == |ItemsOf(cmds[..i])| && Collected(cfg, discard, cmds, i, blocks)
    {
      ret, blocks := AppendCmd(cfg, discard, cmds, i, seg, blocks);
      if !ret.Ok? {
        return;
      }
      seg := seg + |cmds[i].items|;
      i := i + 1;
    }
    CollectedAll(cfg, discard, cmds, blocks);
    if ItemsOf(cmds) != [] { RangesStand(cfg, discard, blocks, ItemsOf(cmds)); }
  }
}
