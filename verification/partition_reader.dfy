/** The partition readers as objects: their fields are changed from callback to callback. */
module PartitionReader {
  import opened Wrappers
  import opened MbrTable
  import opened PartitionScan

  class Reader {
    const sbSector: nat
    var mode: Mode
    var fired: nat
    var partCb: Option<Callback>
    var gptCb: Option<Callback>
    var mbrCb: Option<Callback>
    var gptCount: nat
    var gptRead: bool
    var table: Table
    var count: nat
    var diskId: nat
    var cur: nat
    var labels: set<nat>
    var extReads: nat

    ghost function Abs(): Scan
      reads this
    {
      Scan(sbSector, mode, fired, partCb, gptCb, mbrCb, gptCount, gptRead, table, count, diskId, cur, labels, extReads)
    }

    constructor (sectorSize: nat)
      requires sectorSize > 0
      ensures Abs() == Start(sectorSize) && Valid(Abs())
    {
      StartValid(sectorSize);
      sbSector := PartitionScan.Start(sectorSize).sbSector;
      mode, fired := Polling(GptHeader, 0, 0), 0;
      partCb, gptCb, mbrCb := Some(User), Some(GptFinished), None;
      gptCount, gptRead, table, count := 0, false, EmptyTable, 0;
      diskId, cur, labels, extReads := 0, 0, {}, 0;
    }

    /** Ask the device for a sector; `Event` does the polling. */
    method ReadSectors(purpose: Purpose, sector: nat)
      modifies this`mode, this`extReads
      ensures Abs() == Read(old(Abs()), purpose, sector)
    {
      mode := Polling(purpose, sector, 0);
      if purpose.ExtSector? {
        extReads := extReads + 1;
      }
    }

    method InvokePartCallback()
      modifies this`partCb, this`mode, this`fired
      ensures Abs() == InvokePart(old(Abs()))
    {
      var cb := partCb;
      partCb := None;
      mode := Finished;
      if cb == Some(User) {
        fired := fired + 1;
      }
    }

    /** Move on to the next partition that may have a label. */
    method Next() returns (found: bool)
      requires count <= |table.slots|
      modifies this`cur
      ensures Abs() == old(Abs()).(cur := NextLabel(old(Abs()), old(cur)))
      ensures found <==> cur < count
      ensures found ==> Labelable(Abs(), cur)
    {
      ghost var start := Abs();
      while cur < count
        invariant Abs() == start.(cur := cur) && count <= |table.slots|
        invariant NextLabel(start, start.cur) == NextLabel(start, cur)
        decreases count - cur
      {
        if table.slots[cur].Used? && table.slots[cur].first <= table.slots[cur].last && table.slots[cur].kind == LINUX {
          return true;
        }
        cur := cur + 1;
      }
      return false;
    }

    /** Read the next label, or call back when there is none. */
    method LabelNextPartition()
      requires count <= |table.slots|
      modifies this
      ensures Abs() == LabelFrom(old(Abs()), old(cur))
    {
      var found := Next();
      if found {
        ReadSectors(LabelSector, table.slots[cur].first + sbSector);
      } else {
        mbrCb := None;
        InvokePartCallback();
      }
    }

    method InvokeMbrCallback()
      requires count <= |table.slots| && (mbrCb == Some(LabelNext) || mbrCb == Some(MbrFinished))
      modifies this
      ensures Abs() == InvokeMbr(old(Abs()))
    {
      var cb := mbrCb;
      mbrCb := None;
      if cb == Some(LabelNext) {
        mbrCb := Some(MbrFinished);
        LabelNextPartition();
      } else {
        InvokePartCallback();
      }
    }

    method InvokeGptCallback()
      requires gptCb == Some(GptFinished)
      modifies this
      ensures Abs() == InvokeGpt(old(Abs()))
    {
      gptCb := None;
      if gptCount == 0 {
        mbrCb := Some(LabelNext);
        ReadSectors(MbrSector, 0);
      } else {
        InvokePartCallback();
      }
    }

    /** The reader that waits for a sector gets its callback invoked without one. */
    method InvokeCallback(purpose: Purpose)
      requires Valid(Abs()) && !mode.Finished? && purpose == mode.purpose
      modifies this
      ensures Abs() == Invoke(old(Abs()), purpose)
    {
      if purpose.GptHeader? || purpose.GptArray? {
        InvokeGptCallback();
      } else {
        InvokeMbrCallback();
      }
    }

    method GetHeader(c: Content)
      requires gptCb == Some(GptFinished)
      modifies this
      ensures Abs() == GotHeader(old(Abs()), c)
    {
      if !c.gptSignature {
        InvokeGptCallback();
        return;
      }
      gptCount := if c.gptCount <= MAX_GPT then c.gptCount else MAX_GPT;
      ReadSectors(GptArray, c.gptLba);
    }

    method GetMbr(c: Content)
      requires ContentValid(c) && mbrCb == Some(LabelNext) && count <= |table.slots|
      modifies this
      ensures Abs() == GotMbr(old(Abs()), c)
    {
      if !c.mbrSignature {
        InvokeMbrCallback();
        return;
      }
      var t := RegisterPrimary(c.entries, c.diskId);
      table, count, diskId := t, PRIMARY, c.diskId;
      assert Abs() == old(Abs()).(table := t, count := PRIMARY, diskId := c.diskId);
      if t.chain.None? {
        InvokeMbrCallback();
      } else {
        table := t.(offset := Wrap(t.offset + t.chain.value));
        ReadSectors(ExtSector, t.chain.value);
      }
    }

    method GetExt(c: Content)
      requires ContentValid(c) && mbrCb == Some(LabelNext) && count <= |table.slots|
      modifies this
      ensures Abs() == GotExt(old(Abs()), c)
    {
      if !c.mbrSignature {
        InvokeMbrCallback();
        return;
      }
      AddExt(c);
    }

    /** Register the partition of an extended boot record and go on with the next record. */
    method AddExt(c: Content)
      requires ContentValid(c) && mbrCb == Some(LabelNext) && count <= |table.slots|
      modifies this
      ensures Abs() == FoundExt(old(Abs()), c)
    {
      var chain := table.chain;
      table := Register(table, c.entries[0], diskId, count);
      if !Listed(c.entries[0]) {
        InvokeMbrCallback();
        return;
      }
      count := count + 1;
      FollowChain(chain, c.entries[1].start);
    }

    /** Read the next record of the chain, or stop. */
    method FollowChain(chain: Option<nat>, next: nat)
      requires mbrCb == Some(LabelNext) && count <= |table.slots|
      modifies this
      ensures Abs() == Follow(old(Abs()), chain, next)
    {
      if next != 0 && count < MAX_PARTITIONS && chain.Some? {
        table := table.(offset := Wrap(chain.value + next));
        ReadSectors(ExtSector, table.offset);
      } else {
        InvokeMbrCallback();
      }
    }

    method GetLabel(c: Content)
      requires count <= |table.slots|
      modifies this
      ensures Abs() == GotLabel(old(Abs()), c)
    {
      if c.labelled {
        labels := labels + {cur + 1};
      }
      cur := cur + 1;
      LabelNextPartition();
    }

    /** One answer of the device, or one completed read. */
    method Handle(e: Event)
      requires Valid(Abs()) && Enabled(Abs(), e)
      modifies this
      ensures Abs() == Step(old(Abs()), e) && Valid(Abs())
    {
      StepValid(Abs(), e);
      var purpose := mode.purpose;
      match e {
        case Accept => mode := Waiting(purpose, mode.sector);
        case Refuse => InvokeCallback(purpose);
        case Busy =>
          if mode.polls < RETRIES {
            mode := mode.(polls := mode.polls + 1);
          } else {
            InvokeCallback(purpose);
          }
        case Complete(error, c) =>
          if error && purpose.GptArray? {
            gptCount := 0;
            InvokeGptCallback();
          } else if error {
            InvokeCallback(purpose);
          } else {
            Got(purpose, c);
          }
      }
    }

    method Got(purpose: Purpose, c: Content)
      requires Valid(Abs()) && ContentValid(c) && !mode.Finished? && purpose == mode.purpose
      modifies this
      ensures Abs() == PartitionScan.Got(old(Abs()), purpose, c)
    {
      match purpose {
        case GptHeader => GetHeader(c);
        case GptArray =>
          gptRead := true;
          InvokeGptCallback();
        case MbrSector => GetMbr(c);
        case ExtSector => GetExt(c);
        case LabelSector => GetLabel(c);
      }
    }

    /** The server loop until the scan is over. The device answers poll `k` by `polls(k)` and finishes an
        accepted read by `results(k)`, whatever these are. Only steps of the scan are taken, not more than its
        measure allows; at the end the one callback has been called, and none is left. */
    method RunScan(polls: nat -> Event, results: nat -> Event) returns (ghost events: seq<Event>)
      requires Valid(Abs())
      requires forall k :: !polls(k).Complete?
      requires forall k :: results(k).Complete? && ContentValid(results(k).content)
      modifies this
      ensures Valid(Abs()) && mode.Finished? && fired == 1 && extReads <= 251
      ensures partCb.None? && gptCb.None? && mbrCb.None?
      ensures Run(old(Abs()), events) && Abs() == After(old(Abs()), events) && |events| <= Measure(old(Abs()))
    {
      events := [];
      var k := 0;
      while !mode.Finished?
        invariant Valid(Abs()) && Run(old(Abs()), events) && Abs() == After(old(Abs()), events)
        invariant |events| + Measure(Abs()) <= Measure(old(Abs()))
        decreases Measure(Abs())
      {
        var e := if mode.Polling? then polls(k) else results(k);
        StepDecreases(Abs(), e);
        PartitionScan.RunSnoc(old(Abs()), events, e);
        Handle(e);
        events := events + [e];
        k := k + 1;
      }
    }
  }

  /** A whole scan of a disk, from the first read on: it ends within 6108 answers of the device. */
  method ReadPartitions(sectorSize: nat, polls: nat -> Event, results: nat -> Event)
    returns (r: Reader, ghost events: seq<Event>)
    requires sectorSize > 0
    requires forall k :: !polls(k).Complete?
    requires forall k :: results(k).Complete? && ContentValid(results(k).content)
    ensures fresh(r) && Valid(r.Abs()) && r.mode.Finished? && r.fired == 1 && r.extReads <= 251
    ensures Run(Start(sectorSize), events) && r.Abs() == After(Start(sectorSize), events) && |events| <= 6108
  {
    StartValid(sectorSize);
    r := new Reader(sectorSize);
    events := r.RunScan(polls, results);
  }
}
