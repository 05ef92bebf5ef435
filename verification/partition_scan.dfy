/**
 The partition scan: a chain of reads driven by callbacks that tries a GUID partition table first,
 then the master boot record with its chain of extended records, then the labels of Linux
 partitions, and finally calls back whoever asked for the scan.
 */
module PartitionScan {
  import opened Wrappers
  import opened Arith
  import opened MbrTable
  import DeviceNames

  const MAX_GPT: nat := 1024
  const RETRIES: nat := 10

  /** What a reader's stored callback will do. */
  datatype Callback =
    | User          // the callback of the scan
    | GptFinished   // the combined reader after the GUID table
    | LabelNext     // the labelling reader after the boot records
    | MbrFinished   // the combined reader after the labels

  datatype Purpose = GptHeader | GptArray | MbrSector | ExtSector | LabelSector

  /** Between events the scan is polling the device to accept a read, waiting for one, or over. */
  datatype Mode =
    | Polling(purpose: Purpose, sector: nat, polls: nat)
    | Waiting(purpose: Purpose, sector: nat)
    | Finished

  /** The parts of a sector the readers look at. */
  datatype Content = Content(
    gptSignature: bool, gptCount: nat, gptLba: nat,
    mbrSignature: bool, diskId: nat, entries: seq<Entry>,
    labelled: bool)

  datatype Scan = Scan(
    sbSector: nat,   // sectors in front of a file system's superblock
    mode: Mode, fired: nat,
    partCb: Option<Callback>, gptCb: Option<Callback>, mbrCb: Option<Callback>,
    gptCount: nat, gptRead: bool, table: Table, count: nat, diskId: nat,
    cur: nat, labels: set<nat>, extReads: nat)

  /** A device that completes a read inside the submit call is `Accept` followed by `Complete`. */
  datatype Event =
    | Accept
    | Busy
    | Refuse
    | Complete(error: bool, content: Content)

  predicate ContentValid(c: Content) {
    |c.entries| == PRIMARY && c.diskId < U32 && forall k :: 0 <= k < PRIMARY ==> c.entries[k].Valid()
  }

  /** `read_sectors`: the first poll follows at once, further ones from the timeout queue. */
  function Read(s: Scan, purpose: Purpose, sector: nat): Scan {
    s.(mode := Polling(purpose, sector, 0), extReads := if purpose.ExtSector? then s.extReads + 1 else s.extReads)
  }

  /** The superblock lies 1024 bytes into the file system. */
  function Start(sectorSize: nat): Scan
    requires sectorSize > 0
  {
    Read(Scan(Quot(1024, sectorSize), Finished, 0, Some(User), Some(GptFinished), None,
              0, false, EmptyTable, 0, 0, 0, {}, 0), GptHeader, 0)
  }

  // ---------------------------------------------------------------- callbacks

  /** `invoke_callback` of the combined reader. */
  function InvokePart(s: Scan): Scan {
    s.(partCb := None, mode := Finished, fired := if s.partCb == Some(User) then s.fired + 1 else s.fired)
  }

  /** Whether slot `i` holds a partition whose label should be read. */
  predicate Labelable(s: Scan, i: nat) {
    i < s.count && i < |s.table.slots|
    && s.table.slots[i].Used? && s.table.slots[i].first <= s.table.slots[i].last && s.table.slots[i].kind == LINUX
  }

  /** `next`: the first labelable slot from `i` on, or the end of the list. */
  function NextLabel(s: Scan, i: nat): (r: nat)
    ensures i <= s.count ==> i <= r <= s.count
    ensures i <= s.count && r < s.count ==> Labelable(s, r)
    ensures forall k :: i <= k < r ==> !Labelable(s, k)
    decreases s.count - i
  {
    if i >= s.count || Labelable(s, i) then i else NextLabel(s, i + 1)
  }

  /** Go on with the next label, or call back when there is none. */
  function LabelFrom(s: Scan, i: nat): Scan {
    var n := NextLabel(s, i);
    if n < s.count && n < |s.table.slots| && s.table.slots[n].Used? then
      Read(s.(cur := n), LabelSector, s.table.slots[n].first + s.sbSector)
    else
      InvokePart(s.(cur := n, mbrCb := None))
  }

  /** `invoke_callback` of the boot record reader; the callback is cleared before it runs. */
  function InvokeMbr(s: Scan): Scan {
    match s.mbrCb
    case Some(LabelNext) => LabelFrom(s.(mbrCb := Some(MbrFinished)), s.cur)
    case Some(MbrFinished) => InvokePart(s.(mbrCb := None))
    case _ => s.(mode := Finished)
  }

  /** `invoke_callback` of the GUID reader: fall back to the boot record if it found nothing. */
  function InvokeGpt(s: Scan): Scan {
    match s.gptCb
    case Some(GptFinished) =>
      var s1 := s.(gptCb := None);
      if s.gptCount == 0 then Read(s1.(mbrCb := Some(LabelNext)), MbrSector, 0) else InvokePart(s1)
    case _ => s.(mode := Finished)
  }

  function Invoke(s: Scan, purpose: Purpose): Scan {
    if purpose.GptHeader? || purpose.GptArray? then InvokeGpt(s) else InvokeMbr(s)
  }

  // ---------------------------------------------------------------- completed reads

  function GotHeader(s: Scan, c: Content): Scan {
    if !c.gptSignature then InvokeGpt(s)
    else
      var n := if c.gptCount <= MAX_GPT then c.gptCount else MAX_GPT;
      Read(s.(gptCount := n), GptArray, c.gptLba)
  }

  function GotMbr(s: Scan, c: Content): Scan
    requires ContentValid(c)
  {
    if !c.mbrSignature then InvokeMbr(s)
    else
      var t := Primary(c.entries, c.diskId);
      var s1 := s.(table := t, count := PRIMARY, diskId := c.diskId);
      match t.chain
      case None => InvokeMbr(s1)
      case Some(start) => Read(s1.(table := t.(offset := Wrap(t.offset + start))), ExtSector, start)
  }

  /** The next record lies `next` sectors after the start of the chain; 0 ends the chain. */
  function Follow(s: Scan, chain: Option<nat>, next: nat): Scan {
    if next != 0 && s.count < MAX_PARTITIONS && chain.Some? then
      var at := Wrap(chain.value + next);
      Read(s.(table := s.table.(offset := at)), ExtSector, at)
    else InvokeMbr(s)
  }

  function FoundExt(s: Scan, c: Content): Scan
    requires ContentValid(c) && s.count <= |s.table.slots|
  {
    var t := Register(s.table, c.entries[0], s.diskId, s.count);
    if !Listed(c.entries[0]) then InvokeMbr(s.(table := t))
    else Follow(s.(table := t, count := s.count + 1), s.table.chain, c.entries[1].start)
  }

  function GotExt(s: Scan, c: Content): Scan
    requires ContentValid(c) && s.count <= |s.table.slots|
  {
    if !c.mbrSignature then InvokeMbr(s) else FoundExt(s, c)
  }

  /** The label, if there is one, is noted for the current partition, and the next one is current. */
  function Noted(s: Scan, c: Content): Scan {
    s.(labels := if c.labelled then s.labels + {s.cur + 1} else s.labels, cur := s.cur + 1)
  }

  function GotLabel(s: Scan, c: Content): Scan { LabelFrom(Noted(s, c), s.cur + 1) }

  function Got(s: Scan, purpose: Purpose, c: Content): Scan
    requires ContentValid(c) && s.count <= |s.table.slots|
  {
    match purpose
    case GptHeader => GotHeader(s, c)
    case GptArray => InvokeGpt(s.(gptRead := true))
    case MbrSector => GotMbr(s, c)
    case ExtSector => GotExt(s, c)
    case LabelSector => GotLabel(s, c)
  }

  predicate Enabled(s: Scan, e: Event) {
    match e
    case Complete(_, c) => s.mode.Waiting? && ContentValid(c)
    case _ => s.mode.Polling?
  }

  function Step(s: Scan, e: Event): Scan
    requires Enabled(s, e) && s.count <= |s.table.slots|
  {
    match e
    case Accept => s.(mode := Waiting(s.mode.purpose, s.mode.sector))
    case Refuse => Invoke(s, s.mode.purpose)
    case Busy =>
      // one immediate poll, then at most RETRIES from the timeout queue
      if s.mode.polls < RETRIES then s.(mode := s.mode.(polls := s.mode.polls + 1))
      else Invoke(s, s.mode.purpose)
    case Complete(error, c) =>
      if error then Invoke(if s.mode.purpose.GptArray? then s.(gptCount := 0) else s, s.mode.purpose)
      else Got(s, s.mode.purpose, c)
  }

  predicate Run(s: Scan, es: seq<Event>)
    decreases |es|
  {
    es == [] || (s.count <= |s.table.slots| && Enabled(s, es[0]) && Run(Step(s, es[0]), es[1..]))
  }

  function After(s: Scan, es: seq<Event>): Scan
    requires Run(s, es)
    decreases |es|
  {
    if es == [] then s else After(Step(s, es[0]), es[1..])
  }

  // ---------------------------------------------------------------- invariant

  /** Exactly one callback per unfinished reader, and it is the right one for what is being read. */
  predicate CallbacksValid(s: Scan) {
    match s.mode
    case Finished => s.partCb.None? && s.gptCb.None? && s.mbrCb.None? && s.fired == 1
    case _ =>
      && s.partCb == Some(User) && s.fired == 0
      && match s.mode.purpose
         case GptHeader => s.gptCb == Some(GptFinished) && s.mbrCb.None? && s.gptCount == 0
         case GptArray => s.gptCb == Some(GptFinished) && s.mbrCb.None?
         case MbrSector => s.gptCb.None? && s.mbrCb == Some(LabelNext)
         case ExtSector => s.gptCb.None? && s.mbrCb == Some(LabelNext)
         case LabelSector => s.gptCb.None? && s.mbrCb == Some(MbrFinished)
  }

  predicate TableValid(s: Scan) {
    && s.count <= |s.table.slots| <= MAX_PARTITIONS && Numbered(s.table.slots) && s.diskId < U32
    && (s.cur <= s.count || s.count == 0)
    && match s.mode
       case Finished => s.extReads <= MAX_PARTITIONS - PRIMARY
       case _ =>
         && (s.mode.Polling? ==> s.mode.polls <= RETRIES)
         && match s.mode.purpose
            case ExtSector =>
              && PRIMARY <= s.count < MAX_PARTITIONS && s.cur == 0
              && s.extReads == s.count - PRIMARY + 1
              && s.table.chain.Some? && s.mode.sector == s.table.offset
            case LabelSector => s.cur < s.count && s.extReads <= MAX_PARTITIONS - PRIMARY
            case _ => s.count == 0 && s.cur == 0 && s.extReads == 0
  }

  predicate Valid(s: Scan) { CallbacksValid(s) && TableValid(s) }

  lemma InvokeMbrValid(s: Scan)
    requires s.partCb == Some(User) && s.fired == 0 && s.gptCb.None?
    requires s.mbrCb == Some(LabelNext) || s.mbrCb == Some(MbrFinished)
    requires s.count <= |s.table.slots| <= MAX_PARTITIONS && Numbered(s.table.slots) && s.diskId < U32
    requires s.cur <= s.count && s.extReads <= MAX_PARTITIONS - PRIMARY
    ensures Valid(InvokeMbr(s)) && (InvokeMbr(s).mode.Finished? || InvokeMbr(s).mode.purpose.LabelSector?)
  {
  }

  lemma RegisteredExt(s: Scan, e: Entry, t: Table)
    requires TableValid(s) && s.table.chain.Some? && t == Register(s.table, e, s.diskId, s.count)
    ensures Numbered(t.slots) && |t.slots| == s.count + 1 && t.chain.Some?
  {
    RegisterNumbered(s.table, e, s.diskId, s.count);
  }

  lemma UnlistedValid(s: Scan, t: Table)
    requires Valid(s) && s.mode.Waiting? && s.mode.purpose.ExtSector?
    requires Numbered(t.slots) && |t.slots| == s.count + 1
    ensures Valid(InvokeMbr(s.(table := t)))
  {
    InvokeMbrValid(s.(table := t));
  }

  lemma FoundExtValid(s: Scan, c: Content, t: Table)
    requires Valid(s) && s.mode.Waiting? && s.mode.purpose.ExtSector? && ContentValid(c)
    requires t == Register(s.table, c.entries[0], s.diskId, s.count)
    ensures Valid(FoundExt(s, c))
  {
    RegisteredExt(s, c.entries[0], t);
    if Listed(c.entries[0]) {
      assert FoundExt(s, c) == Follow(s.(table := t, count := s.count + 1), s.table.chain, c.entries[1].start);
      FollowValid(s, t, c.entries[1].start);
    } else {
      assert FoundExt(s, c) == InvokeMbr(s.(table := t));
      UnlistedValid(s, t);
    }
  }

  lemma GotExtValid(s: Scan, c: Content)
    requires Valid(s) && s.mode.Waiting? && s.mode.purpose.ExtSector? && ContentValid(c)
    ensures Valid(GotExt(s, c))
  {
    if c.mbrSignature {
      FoundExtValid(s, c, Register(s.table, c.entries[0], s.diskId, s.count));
    } else {
      InvokeMbrValid(s);
    }
  }

  lemma FollowValid(s: Scan, t: Table, next: nat)
    requires Valid(s) && s.mode.Waiting? && s.mode.purpose.ExtSector?
    requires Numbered(t.slots) && |t.slots| == s.count + 1 && t.chain.Some?
    ensures Valid(Follow(s.(table := t, count := s.count + 1), s.table.chain, next))
  {
    InvokeMbrValid(s.(table := t, count := s.count + 1));
  }

  lemma PrimaryNumbered(c: Content)
    requires ContentValid(c)
    ensures var t := Primary(c.entries, c.diskId); Numbered(t.slots) && |t.slots| == PRIMARY && t.offset == 0
    ensures Primary(c.entries, c.diskId).chain.Some? ==> Primary(c.entries, c.diskId).chain.value < U32
  {
    ChainIsFirstExtended(c.entries, c.diskId);
  }

  lemma GotMbrValid(s: Scan, c: Content)
    requires Valid(s) && s.mode.Waiting? && s.mode.purpose.MbrSector? && ContentValid(c)
    ensures Valid(GotMbr(s, c))
  {
    if !c.mbrSignature {
      InvokeMbrValid(s);
    } else {
      PrimaryNumbered(c);
      var t := Primary(c.entries, c.diskId);
      FoundMbrValid(s, t, c);
      var s1 := s.(table := t, count := PRIMARY, diskId := c.diskId);
      if t.chain.None? { InvokeMbrValid(s1); }
    }
  }

  /** The boot record starts a chain. */
  lemma FoundMbrValid(s: Scan, t: Table, c: Content)
    requires Valid(s) && s.mode.Waiting? && s.mode.purpose.MbrSector? && c.diskId < U32
    requires Numbered(t.slots) && |t.slots| == PRIMARY && t.offset == 0
    ensures t.chain.Some? && t.chain.value < U32 ==>
      var s1 := s.(table := t.(offset := Wrap(t.offset + t.chain.value)), count := PRIMARY, diskId := c.diskId);
      Valid(Read(s1, ExtSector, t.chain.value))
  {
  }

  lemma InvokeValid(s: Scan)
    requires Valid(s) && !s.mode.Finished?
    ensures Valid(Invoke(s, s.mode.purpose))
  {
    if !s.mode.purpose.GptHeader? && !s.mode.purpose.GptArray? { InvokeMbrValid(s); }
  }

  lemma GotGptValid(s: Scan, c: Content)
    requires Valid(s) && s.mode.Waiting? && ContentValid(c)
    requires s.mode.purpose.GptHeader? || s.mode.purpose.GptArray?
    ensures Valid(Got(s, s.mode.purpose, c))
  {
  }

  lemma GotLabelValid(s: Scan, c: Content)
    requires Valid(s) && s.mode.Waiting? && s.mode.purpose.LabelSector?
    ensures Valid(GotLabel(s, c))
  {
  }

  lemma GotValid(s: Scan, c: Content)
    requires Valid(s) && s.mode.Waiting? && ContentValid(c)
    ensures Valid(Got(s, s.mode.purpose, c))
  {
    match s.mode.purpose
    case GptHeader => GotGptValid(s, c);
    case GptArray => GotGptValid(s, c);
    case MbrSector => GotMbrValid(s, c);
    case ExtSector => GotExtValid(s, c);
    case LabelSector => GotLabelValid(s, c);
  }

  lemma FailedValid(s: Scan)
    requires Valid(s) && s.mode.Waiting?
    ensures Valid(Invoke(if s.mode.purpose.GptArray? then s.(gptCount := 0) else s, s.mode.purpose))
  {
    if !s.mode.purpose.GptArray? { InvokeValid(s); }
  }

  lemma StepValid(s: Scan, e: Event)
    requires Valid(s) && Enabled(s, e)
    ensures Valid(Step(s, e))
  {
    match e
    case Accept =>
    case Refuse => InvokeValid(s);
    case Busy => InvokeValid(s);
    case Complete(error, c) =>
      if error { FailedValid(s); } else { GotValid(s, c); }
  }

  // ---------------------------------------------------------------- the scan ends, and calls back once

  /** How many reads can still be started after the current one. */
  function ReadsAfter(s: Scan): nat
    requires Valid(s) && !s.mode.Finished?
  {
    match s.mode.purpose
    case GptHeader => 508
    case GptArray => 507
    case MbrSector => 506
    case ExtSector => 254 - s.count + 255
    case LabelSector => 254 - s.cur
  }

  /** How many events can still happen. */
  function Measure(s: Scan): nat
    requires Valid(s)
  {
    match s.mode
    case Finished => 0
    case Polling(_, _, polls) => 12 * ReadsAfter(s) + 12 - polls
    case Waiting(_, _) => 12 * ReadsAfter(s) + 1
  }

  /** Only labels, if anything, are read after the boot record reader calls back. */
  lemma InvokeMbrMeasure(s: Scan)
    requires s.cur <= s.count && Valid(InvokeMbr(s))
    ensures InvokeMbr(s).mode.Finished? || (InvokeMbr(s).mode.purpose.LabelSector? && InvokeMbr(s).mode.Polling?)
            ==> Measure(InvokeMbr(s)) <= 12 * 255
    ensures s.mbrCb == Some(MbrFinished) ==> InvokeMbr(s).mode.Finished?
  {
  }

  lemma InvokeDecreases(s: Scan)
    requires Valid(s) && !s.mode.Finished?
    ensures Valid(Invoke(s, s.mode.purpose)) && Measure(Invoke(s, s.mode.purpose)) < Measure(s)
  {
    InvokeValid(s);
    if !s.mode.purpose.GptHeader? && !s.mode.purpose.GptArray? {
      InvokeMbrValid(s);
      InvokeMbrMeasure(s);
    }
  }

  lemma GotExtDecreases(s: Scan, c: Content)
    requires Valid(s) && s.mode.Waiting? && s.mode.purpose.ExtSector? && ContentValid(c)
    ensures Valid(GotExt(s, c)) && Measure(GotExt(s, c)) < Measure(s)
  {
    GotExtValid(s, c);
  }

  lemma GotDecreases(s: Scan, c: Content)
    requires Valid(s) && s.mode.Waiting? && ContentValid(c)
    ensures Valid(Got(s, s.mode.purpose, c)) && Measure(Got(s, s.mode.purpose, c)) < Measure(s)
  {
    GotValid(s, c);
    if s.mode.purpose.ExtSector? { GotExtDecreases(s, c); }
  }

  lemma StepDecreases(s: Scan, e: Event)
    requires Valid(s) && Enabled(s, e)
    ensures Valid(Step(s, e)) && Measure(Step(s, e)) < Measure(s)
  {
    StepValid(s, e);
    match e
    case Accept =>
    case Refuse => InvokeDecreases(s);
    case Busy => InvokeDecreases(s);
    case Complete(error, c) =>
      if !error { GotDecreases(s, c); }
      else if !s.mode.purpose.GptArray? { InvokeDecreases(s); }
  }

  /** Whatever the device answers, a scan makes finitely many steps and its callback is called exactly
      once, at the very end; until then some step is always due.  At most 251 extended boot records are
      read even if their chain is cyclic, and while one is read the offset added to its entries is its
      own sector number. */
  lemma {:induction false} ScanCallsBackOnce(s: Scan, es: seq<Event>)
    requires Valid(s) && Run(s, es)
    ensures
      var s' := After(s, es);
      && Valid(s') && |es| + Measure(s') <= Measure(s)
      && s'.fired == (if s'.mode.Finished? then 1 else 0)
      && s'.extReads <= 251
      && (!s'.mode.Finished? && s'.mode.purpose.ExtSector? ==> s'.mode.sector == s'.table.offset)
    decreases |es|
  {
    if es != [] {
      StepDecreases(s, es[0]);
      ScanCallsBackOnce(Step(s, es[0]), es[1..]);
    }
  }

  lemma StartValid(sectorSize: nat)
    requires sectorSize > 0
    ensures Valid(Start(sectorSize)) && Measure(Start(sectorSize)) == 6108
  {
  }

  /** At any moment of a scan, the partitions found so far in boot records have different identifiers. */
  lemma FoundPartitionsDiffer(s: Scan, es: seq<Event>, j: nat, k: nat)
    requires Valid(s) && Run(s, es)
    requires var t := After(s, es).table; j < k < |t.slots| && t.slots[j].Used? && t.slots[k].Used?
    ensures var t := After(s, es).table;
      && t.slots[j].number == j + 1 && t.slots[k].number == k + 1 && k + 1 < 256
      && t.slots[j].diskId < U32 && t.slots[k].diskId < U32
      && DeviceNames.RenderMbr(t.slots[j].diskId, j + 1) != DeviceNames.RenderMbr(t.slots[k].diskId, k + 1)
  {
    ScanCallsBackOnce(s, es);
    var t := After(s, es).table;
    DeviceNames.MbrDistinct(t.slots[j].diskId, j + 1, t.slots[k].diskId, k + 1);
  }

  function Busies(k: nat): seq<Event> {
    if k == 0 then [] else [Busy] + Busies(k - 1)
  }

  /** A read stays with the device through `RETRIES` busy answers; one more gives it up, so that each
      read is polled at most eleven times. */
  lemma {:induction false} PollsAtMostEleven(s: Scan, k: nat)
    requires Valid(s) && s.mode.Polling? && s.mode.polls + k <= RETRIES
    ensures Run(s, Busies(k)) && After(s, Busies(k)) == s.(mode := s.mode.(polls := s.mode.polls + k))
    ensures s.mode.polls + k == RETRIES ==>
              Step(After(s, Busies(k)), Busy) == Invoke(After(s, Busies(k)), s.mode.purpose)
    decreases k
  {
    if k > 0 {
      assert ([Busy] + Busies(k - 1))[1..] == Busies(k - 1);
      PollsAtMostEleven(Step(s, Busy), k - 1);
    }
  }

  // ---------------------------------------------------------------- an unread table

  /** A GUID table whose header was found but whose array could not be read should not be used.  That is
      so when the read fails after the device accepted it; but when the device never accepts it, the scan
      ends with the announced number of partitions, an array that was not read, and no look at the boot
      record. */
  lemma UnreadTableKept(s: Scan, e: Event)
    requires Valid(s) && Enabled(s, e) && !s.mode.Finished? && s.mode.purpose.GptArray? && !s.gptRead
    ensures
      var s' := Step(s, e);
      s'.mode.Finished? && s'.gptCount > 0 && !s'.gptRead
      <==> s.gptCount > 0 && (e.Refuse? || (e.Busy? && s.mode.polls == RETRIES))
  {
  }

  const NoEntry: Entry := Entry(0, 0, 0)

  const FoundHeader: Content :=
    Content(true, 1, 2, false, 0, [NoEntry, NoEntry, NoEntry, NoEntry], false)

  lemma {:induction false} RunSnoc(s: Scan, es: seq<Event>, e: Event)
    requires Run(s, es) && After(s, es).count <= |After(s, es).table.slots| && Enabled(After(s, es), e)
    ensures Run(s, es + [e]) && After(s, es + [e]) == Step(After(s, es), e)
    decreases |es|
  {
    if es == [] {
      assert es + [e] == [e] && [e][1..] == [];
    } else {
      assert (es + [e])[1..] == es[1..] + [e] && (es + [e])[0] == es[0];
      RunSnoc(Step(s, es[0]), es[1..], e);
    }
  }

  /** Such a scan: the header announces one partition, and the device refuses to read the array. */
  lemma UnreadTableRun() returns (es: seq<Event>)
    ensures Run(Start(512), es)
    ensures var s := After(Start(512), es); s.mode.Finished? && s.fired == 1 && s.gptCount == 1 && !s.gptRead
  {
    es := [];
    RunSnoc(Start(512), es, Accept); es := es + [Accept];
    RunSnoc(Start(512), es, Complete(false, FoundHeader)); es := es + [Complete(false, FoundHeader)];
    RunSnoc(Start(512), es, Refuse); es := es + [Refuse];
  }
}
