/** Where a scan reads the extended boot records, when it stops, and what it makes of them, told by the sectors
    that were read. */
module PartitionChain {
  import opened Wrappers
  import opened MbrTable
  import opened PartitionScan

  // ---------------------------------------------------------------- what happened in a run

  function ContentOf(s: Scan, e: Event, purpose: Purpose): seq<Content>
    requires Enabled(s, e)
  {
    if e.Complete? && !e.error && s.mode.purpose == purpose then [e.content] else []
  }

  /** The contents of the sectors that were read for `purpose`, in order. */
  function Contents(s: Scan, es: seq<Event>, purpose: Purpose): seq<Content>
    requires Run(s, es)
    decreases |es|
  {
    if es == [] then [] else ContentOf(s, es[0], purpose) + Contents(Step(s, es[0]), es[1..], purpose)
  }

  /** The sector of the read for `purpose` that an event begins, if it does. */
  function BegunBy(s: Scan, e: Event, purpose: Purpose): seq<nat>
    requires Enabled(s, e) && s.count <= |s.table.slots|
  {
    Begins(Step(s, e), purpose)
  }

  function Begins(s: Scan, purpose: Purpose): seq<nat> {
    if s.mode.Polling? && s.mode.polls == 0 && s.mode.purpose == purpose then [s.mode.sector] else []
  }

  /** The sectors of all reads for `purpose` that were begun, in order. */
  function Begun(s: Scan, es: seq<Event>, purpose: Purpose): seq<nat>
    requires Run(s, es)
    decreases |es|
  {
    if es == [] then [] else BegunBy(s, es[0], purpose) + Begun(Step(s, es[0]), es[1..], purpose)
  }

  // ---------------------------------------------------------------- what the disk says

  ghost predicate AllValid(cs: seq<Content>) { forall j :: 0 <= j < |cs| ==> ContentValid(cs[j]) }

  /** A record with a signature and a listed partition. */
  predicate Good(c: Content) { ContentValid(c) && c.mbrSignature && Listed(c.entries[0]) }

  /** After the boot record and the records `exts` there is one more to be read: the boot record has a listed
      extended entry, and the last record is good and links to another one within the limit of 255. */
  predicate Goes(mbr: Content, exts: seq<Content>) {
    && ContentValid(mbr) && mbr.mbrSignature && ChainOf(mbr.entries).Some?
    && (exts == [] || (Good(exts[|exts| - 1]) && exts[|exts| - 1].entries[1].start != 0 && |exts| < 251))
  }

  /** The sector of record `k` of a chain that starts at `start`, where `exts` are the records: every link counts
      from the start of the chain. */
  function ChainSector(start: nat, exts: seq<Content>, k: nat): nat
    requires k <= |exts| && forall j :: 0 <= j < |exts| ==> ContentValid(exts[j])
  {
    if k == 0 then start else
      assert ContentValid(exts[k - 1]);
      (start + exts[k - 1].entries[1].start) % U32
  }

  /** The partition that an entry describes when it is read from sector `at`, as partition number `n`. */
  function PartitionOf(e: Entry, diskId: nat, n: nat, at: nat): Slot {
    Used(n, diskId, (at + e.start) % U32, (at + e.start + e.num - 1) % U32, e.kind)
  }

  /** The reads were begun where the chain says. */
  ghost predicate Located(start: nat, exts: seq<Content>, at: seq<nat>) {
    && AllValid(exts) && |exts| <= |at| <= |exts| + 1
    && forall k :: 0 <= k < |at| ==> at[k] == ChainSector(start, exts, k)
  }

  /** Primary entry `k` is in slot `k` if it is listed. */
  ghost predicate PrimaryListed(slots: seq<Slot>, mbr: Content)
    requires ContentValid(mbr)
  {
    |slots| >= PRIMARY && forall k :: 0 <= k < PRIMARY ==>
      slots[k] == if Listed(mbr.entries[k]) then PartitionOf(mbr.entries[k], mbr.diskId, k + 1, 0) else Unused
  }

  /** Entry 0 of record `k`, read from sector `at`, is in slot 4 + `k` if it is listed. */
  ghost predicate ExtListed(slots: seq<Slot>, diskId: nat, c: Content, at: nat, k: nat)
    requires ContentValid(c)
  {
    Good(c) ==> PRIMARY + k < |slots| && slots[PRIMARY + k] == PartitionOf(c.entries[0], diskId, PRIMARY + k + 1, at)
  }

  ghost predicate AllListed(slots: seq<Slot>, diskId: nat, exts: seq<Content>, at: seq<nat>) {
    && AllValid(exts) && |exts| <= |at|
    && forall k :: 0 <= k < |exts| ==> ExtListed(slots, diskId, exts[k], at[k], k)
  }

  /** How many partitions are found: the four of the boot record and one per good record. */
  function CountOf(mbr: Content, exts: seq<Content>): int {
    if !mbr.mbrSignature then 0
    else PRIMARY + |exts| - if exts != [] && !Good(exts[|exts| - 1]) then 1 else 0
  }

  // ---------------------------------------------------------------- the invariant

  /** Up to now the boot record `mbr` was read, then the records `exts`; reads were begun at the sectors `at`. */
  ghost predicate Told(slots: seq<Slot>, count: nat, mbr: Content, exts: seq<Content>, at: seq<nat>) {
    && ContentValid(mbr) && AllValid(exts)
    && |at| == |exts| + (if Goes(mbr, exts) then 1 else 0)
    && (forall k :: 0 <= k < |exts| ==> Goes(mbr, exts[..k]))
    && (ChainOf(mbr.entries).Some? ==> Located(ChainOf(mbr.entries).value, exts, at))
    && (mbr.mbrSignature ==> PrimaryListed(slots, mbr))
    && AllListed(slots, mbr.diskId, exts, at) && count == CountOf(mbr, exts)
  }

  predicate Reading(s: Scan, purpose: Purpose) { !s.mode.Finished? && s.mode.purpose == purpose }

  /** The record being read is the next of the chain. */
  ghost predicate Next(s: Scan, mbr: Content, exts: seq<Content>, at: seq<nat>) {
    && Goes(mbr, exts) && |at| == |exts| + 1 && !s.mode.Finished? && s.mode.sector == at[|exts|]
    && s.diskId == mbr.diskId && s.table.chain == ChainOf(mbr.entries) && |exts| == s.count - PRIMARY
  }

  /** What the state knows of the sectors read so far; `mbrs` is the boot record, once it has been read. */
  ghost predicate Traced(s: Scan, mbrs: seq<Content>, exts: seq<Content>, at: seq<nat>) {
    && Valid(s)
    && if mbrs == [] then exts == [] && at == [] && !Reading(s, ExtSector) && !Reading(s, LabelSector)
       else
         && |mbrs| == 1 && Told(s.table.slots, s.count, mbrs[0], exts, at)
         && (Reading(s, ExtSector) ==> Next(s, mbrs[0], exts, at))
         && !Reading(s, GptHeader) && !Reading(s, GptArray) && !Reading(s, MbrSector)
  }

  // ---------------------------------------------------------------- each step

  lemma InvokeMbrKeeps(s: Scan)
    requires s.mbrCb == Some(LabelNext) || s.mbrCb == Some(MbrFinished)
    ensures var s' := InvokeMbr(s);
      && s'.table == s.table && s'.count == s.count && s'.diskId == s.diskId
      && s'.gptCount == s.gptCount && s'.gptRead == s.gptRead
      && (s'.mode.Finished? || s'.mode.purpose == LabelSector)
      && (s'.mode.Finished? || s.count > 0) && Begins(s', ExtSector) == []
  {
  }

  lemma InvokeTraced(s: Scan, mbrs: seq<Content>, exts: seq<Content>, at: seq<nat>)
    requires Traced(s, mbrs, exts, at) && !s.mode.Finished?
    ensures Traced(Invoke(s, s.mode.purpose), mbrs, exts, at) && Begins(Invoke(s, s.mode.purpose), ExtSector) == []
  {
    InvokeValid(s);
    if !s.mode.purpose.GptHeader? && !s.mode.purpose.GptArray? { InvokeMbrKeeps(s); }
  }

  /** The boot record has been read. */
  lemma MbrTraced(s: Scan, c: Content)
    requires Traced(s, [], [], []) && s.mode.Waiting? && s.mode.purpose == MbrSector && ContentValid(c)
    ensures Traced(GotMbr(s, c), [c], [], Begins(GotMbr(s, c), ExtSector))
  {
    GotMbrValid(s, c);
    if !c.mbrSignature {
      InvokeMbrKeeps(s);
    } else {
      var t := Primary(c.entries, c.diskId);
      PrimaryChain(c.entries, c.diskId);
      PrimaryTold(t, c);
      InvokeMbrKeeps(s.(table := t, count := PRIMARY, diskId := c.diskId));
    }
  }

  lemma PrimaryTold(t: Table, c: Content)
    requires ContentValid(c) && t == Primary(c.entries, c.diskId)
    ensures PrimaryListed(t.slots, c)
  {
    forall k | 0 <= k < PRIMARY
      ensures t.slots[k] == if Listed(c.entries[k]) then PartitionOf(c.entries[k], c.diskId, k + 1, 0) else Unused
    {
      assert t.slots[k] == SlotOf(c.entries[k], c.diskId, k, 0);
    }
  }

  /** A record of the chain has been read, and the next one, if there is one, is begun. */
  lemma LocatedRead(start: nat, exts: seq<Content>, at: seq<nat>, c: Content, more: seq<nat>)
    requires Located(start, exts, at) && |at| == |exts| + 1 && ContentValid(c)
    requires more == [] || more == [(start + c.entries[1].start) % U32]
    ensures Located(start, exts + [c], at + more)
  {
    var all, at' := exts + [c], at + more;
    forall k | 0 <= k < |at'| ensures at'[k] == ChainSector(start, all, k) {
      if k < |at| { assert at[k] == ChainSector(start, exts, k); }
    }
  }

  lemma ReadListed(slots: seq<Slot>, slots': seq<Slot>, diskId: nat, exts: seq<Content>, at: seq<nat>, c: Content,
                   more: seq<nat>)
    requires AllListed(slots, diskId, exts, at) && |at| == |exts| + 1 && ContentValid(c)
    requires PRIMARY + |exts| <= |slots| && PRIMARY + |exts| <= |slots'|
    requires forall k :: 0 <= k < PRIMARY + |exts| ==> slots'[k] == slots[k]
    requires ExtListed(slots', diskId, c, at[|exts|], |exts|)
    ensures AllListed(slots', diskId, exts + [c], at + more)
  {
    var all, at' := exts + [c], at + more;
    forall k | 0 <= k < |all| ensures ExtListed(slots', diskId, all[k], at'[k], k) {
      if k < |exts| { assert ExtListed(slots, diskId, exts[k], at[k], k); }
    }
  }

  lemma PrimaryStays(slots: seq<Slot>, slots': seq<Slot>, mbr: Content)
    requires ContentValid(mbr) && PrimaryListed(slots, mbr) && |slots'| >= PRIMARY
    requires forall k :: 0 <= k < PRIMARY ==> slots'[k] == slots[k]
    ensures PrimaryListed(slots', mbr)
  {
  }

  lemma StillGoes(mbr: Content, exts: seq<Content>, c: Content)
    requires Goes(mbr, exts) && forall k :: 0 <= k < |exts| ==> Goes(mbr, exts[..k])
    ensures forall k :: 0 <= k < |exts + [c]| ==> Goes(mbr, (exts + [c])[..k])
  {
    forall k | 0 <= k < |exts + [c]| ensures Goes(mbr, (exts + [c])[..k]) {
      assert (exts + [c])[..k] == exts[..k];
      if k == |exts| { assert exts[..k] == exts; }
    }
  }

  /** The record `c` has been read into a table `slots'` that keeps what it held; `more` is the next read. */
  lemma ToldRead(slots: seq<Slot>, slots': seq<Slot>, count: nat, mbr: Content, exts: seq<Content>, at: seq<nat>,
                 c: Content, more: seq<nat>)
    requires Told(slots, PRIMARY + |exts|, mbr, exts, at) && Goes(mbr, exts) && ContentValid(c)
    requires PRIMARY + |exts| <= |slots| && PRIMARY + |exts| <= |slots'|
    requires forall k :: 0 <= k < PRIMARY + |exts| ==> slots'[k] == slots[k]
    requires ExtListed(slots', mbr.diskId, c, at[|exts|], |exts|)
    requires count == PRIMARY + |exts| + if Good(c) then 1 else 0
    requires if Good(c) && c.entries[1].start != 0 && |exts| + 1 < 251
             then more == [(ChainOf(mbr.entries).value + c.entries[1].start) % U32] else more == []
    ensures Told(slots', count, mbr, exts + [c], at + more)
  {
    LocatedRead(ChainOf(mbr.entries).value, exts, at, c, more);
    ReadListed(slots, slots', mbr.diskId, exts, at, c, more);
    PrimaryStays(slots, slots', mbr);
    StillGoes(mbr, exts, c);
  }

  /** A record with a signature: its entry is registered in the slot behind the others. */
  lemma RegisterKeeps(s: Scan, c: Content, t: Table)
    requires Valid(s) && Reading(s, ExtSector) && ContentValid(c) && c.mbrSignature
    requires t == Register(s.table, c.entries[0], s.diskId, s.count)
    ensures t.chain == s.table.chain && |t.slots| == s.count + 1
    ensures forall k :: 0 <= k < s.count ==> t.slots[k] == s.table.slots[k]
    ensures ExtListed(t.slots, s.diskId, c, s.mode.sector, s.count - PRIMARY)
  {
    var n := s.count;
    forall k | 0 <= k < n ensures t.slots[k] == s.table.slots[k] {
      assert t.slots[..n][k] == s.table.slots[..n][k];
    }
    assert t.slots[n] == SlotOf(c.entries[0], s.diskId, n, s.table.offset);
  }

  lemma UnsignedTraced(s: Scan, mbr: Content, exts: seq<Content>, at: seq<nat>, c: Content)
    requires Traced(s, [mbr], exts, at) && Reading(s, ExtSector) && ContentValid(c) && !c.mbrSignature
    requires Valid(InvokeMbr(s))
    ensures Traced(InvokeMbr(s), [mbr], exts + [c], at)
  {
    InvokeMbrKeeps(s);
    ToldRead(s.table.slots, s.table.slots, s.count, mbr, exts, at, c, []);
    assert at + [] == at;
  }

  lemma UnlistedTraced(s: Scan, mbr: Content, exts: seq<Content>, at: seq<nat>, c: Content, t: Table)
    requires Traced(s, [mbr], exts, at) && Reading(s, ExtSector) && ContentValid(c) && c.mbrSignature
    requires t == Register(s.table, c.entries[0], s.diskId, s.count) && !Listed(c.entries[0])
    requires Valid(InvokeMbr(s.(table := t)))
    ensures Traced(InvokeMbr(s.(table := t)), [mbr], exts + [c], at)
  {
    RegisterKeeps(s, c, t);
    InvokeMbrKeeps(s.(table := t));
    ToldRead(s.table.slots, t.slots, s.count, mbr, exts, at, c, []);
    assert at + [] == at;
  }

  /** The link to the next record counts from the start of the chain; no link ends the chain. */
  lemma FollowedTraced(s: Scan, mbr: Content, exts: seq<Content>, at: seq<nat>, c: Content, t: Table, s': Scan)
    requires Traced(s, [mbr], exts, at) && Reading(s, ExtSector) && Good(c)
    requires t == Register(s.table, c.entries[0], s.diskId, s.count)
    requires s' == Follow(s.(table := t, count := s.count + 1), s.table.chain, c.entries[1].start) && Valid(s')
    ensures Traced(s', [mbr], exts + [c], at + Begins(s', ExtSector))
  {
    RegisterKeeps(s, c, t);
    InvokeMbrKeeps(s.(table := t, count := s.count + 1));
    ToldRead(s.table.slots, t.slots, s.count + 1, mbr, exts, at, c, Begins(s', ExtSector));
  }

  lemma ExtTraced(s: Scan, mbr: Content, exts: seq<Content>, at: seq<nat>, c: Content)
    requires Traced(s, [mbr], exts, at) && s.mode.Waiting? && s.mode.purpose == ExtSector && ContentValid(c)
    ensures Traced(GotExt(s, c), [mbr], exts + [c], at + Begins(GotExt(s, c), ExtSector))
  {
    GotExtValid(s, c);
    assert at + [] == at;
    if !c.mbrSignature {
      InvokeMbrKeeps(s);
      UnsignedTraced(s, mbr, exts, at, c);
    } else {
      var t := Register(s.table, c.entries[0], s.diskId, s.count);
      if Listed(c.entries[0]) {
        FollowedTraced(s, mbr, exts, at, c, t, GotExt(s, c));
      } else {
        InvokeMbrKeeps(s.(table := t));
        UnlistedTraced(s, mbr, exts, at, c, t);
      }
    }
  }

  lemma LabelTraced(s: Scan, mbrs: seq<Content>, exts: seq<Content>, at: seq<nat>, c: Content)
    requires Traced(s, mbrs, exts, at) && s.mode.Waiting? && s.mode.purpose == LabelSector && ContentValid(c)
    ensures Traced(GotLabel(s, c), mbrs, exts, at) && Begins(GotLabel(s, c), ExtSector) == []
  {
    GotLabelValid(s, c);
  }

  lemma GptTraced(s: Scan, mbrs: seq<Content>, exts: seq<Content>, at: seq<nat>, c: Content)
    requires Traced(s, mbrs, exts, at) && s.mode.Waiting? && ContentValid(c)
    requires s.mode.purpose == GptHeader || s.mode.purpose == GptArray
    ensures var s' := Got(s, s.mode.purpose, c); Traced(s', mbrs, exts, at) && Begins(s', ExtSector) == []
  {
    GotGptValid(s, c);
  }

  lemma FailedTraced(s: Scan, mbrs: seq<Content>, exts: seq<Content>, at: seq<nat>)
    requires Traced(s, mbrs, exts, at) && s.mode.Waiting?
    ensures var s' := Invoke(if s.mode.purpose.GptArray? then s.(gptCount := 0) else s, s.mode.purpose);
      Traced(s', mbrs, exts, at) && Begins(s', ExtSector) == []
  {
    FailedValid(s);
    if !s.mode.purpose.GptArray? { InvokeTraced(s, mbrs, exts, at); }
  }

  lemma FirstTraced(s: Scan, mbrs: seq<Content>, exts: seq<Content>, at: seq<nat>, c: Content, s': Scan)
    requires Traced(s, mbrs, exts, at) && s.mode.Waiting? && s.mode.purpose == MbrSector && ContentValid(c)
    requires s' == GotMbr(s, c)
    ensures Traced(s', mbrs + [c], exts, at + Begins(s', ExtSector))
  {
    MbrTraced(s, c);
    assert mbrs + [c] == [c] && at + Begins(s', ExtSector) == Begins(s', ExtSector);
  }

  lemma GotTraced(s: Scan, mbrs: seq<Content>, exts: seq<Content>, at: seq<nat>, c: Content)
    requires Traced(s, mbrs, exts, at) && s.mode.Waiting? && ContentValid(c)
    ensures var e, s' := Complete(false, c), Got(s, s.mode.purpose, c);
      Traced(s', mbrs + ContentOf(s, e, MbrSector), exts + ContentOf(s, e, ExtSector), at + Begins(s', ExtSector))
  {
    assert mbrs + [] == mbrs && exts + [] == exts && at + [] == at;
    match s.mode.purpose
    case GptHeader => GptTraced(s, mbrs, exts, at, c);
    case GptArray => GptTraced(s, mbrs, exts, at, c);
    case MbrSector => FirstTraced(s, mbrs, exts, at, c, GotMbr(s, c));
    case ExtSector =>
      assert mbrs == [mbrs[0]];
      ExtTraced(s, mbrs[0], exts, at, c);
    case LabelSector => LabelTraced(s, mbrs, exts, at, c);
  }

  lemma BusyTraced(s: Scan, mbrs: seq<Content>, exts: seq<Content>, at: seq<nat>)
    requires Traced(s, mbrs, exts, at) && s.mode.Polling?
    ensures Traced(Step(s, Busy), mbrs, exts, at) && BegunBy(s, Busy, ExtSector) == []
  {
    StepValid(s, Busy);
    if s.mode.polls >= RETRIES { InvokeTraced(s, mbrs, exts, at); }
  }

  lemma AcceptTraced(s: Scan, mbrs: seq<Content>, exts: seq<Content>, at: seq<nat>)
    requires Traced(s, mbrs, exts, at) && s.mode.Polling?
    ensures Traced(Step(s, Accept), mbrs, exts, at) && BegunBy(s, Accept, ExtSector) == []
  {
    StepValid(s, Accept);
  }

  lemma StepTraced(s: Scan, mbrs: seq<Content>, exts: seq<Content>, at: seq<nat>, e: Event)
    requires Traced(s, mbrs, exts, at) && Enabled(s, e)
    ensures Traced(Step(s, e), mbrs + ContentOf(s, e, MbrSector), exts + ContentOf(s, e, ExtSector),
                   at + BegunBy(s, e, ExtSector))
  {
    assert mbrs + [] == mbrs && exts + [] == exts && at + [] == at;
    match e
    case Accept => AcceptTraced(s, mbrs, exts, at);
    case Refuse => InvokeTraced(s, mbrs, exts, at);
    case Busy => BusyTraced(s, mbrs, exts, at);
    case Complete(error, c) =>
      if error { FailedTraced(s, mbrs, exts, at); } else { GotTraced(s, mbrs, exts, at, c); }
  }

  /** All that was read so far. */
  datatype Trace = Trace(mbrs: seq<Content>, exts: seq<Content>, at: seq<nat>)

  function Longer(t: Trace, s: Scan, e: Event): Trace
    requires Enabled(s, e) && s.count <= |s.table.slots|
  {
    Trace(t.mbrs + ContentOf(s, e, MbrSector), t.exts + ContentOf(s, e, ExtSector), t.at + BegunBy(s, e, ExtSector))
  }

  function TraceOf(t: Trace, s: Scan, es: seq<Event>): Trace
    requires Run(s, es)
    decreases |es|
  {
    if es == [] then t else TraceOf(Longer(t, s, es[0]), Step(s, es[0]), es[1..])
  }

  lemma {:induction false} RunTraced(t: Trace, s: Scan, es: seq<Event>)
    requires Traced(s, t.mbrs, t.exts, t.at) && Run(s, es)
    ensures var t' := TraceOf(t, s, es); Traced(After(s, es), t'.mbrs, t'.exts, t'.at)
    decreases |es|
  {
    if es != [] {
      StepTraced(s, t.mbrs, t.exts, t.at, es[0]);
      RunTraced(Longer(t, s, es[0]), Step(s, es[0]), es[1..]);
    }
  }

  lemma Regroup<T>(a: seq<T>, b: seq<T>, c: seq<T>)
    ensures (a + b) + c == a + (b + c)
  {
  }

  lemma {:induction false} TraceIs(t: Trace, s: Scan, es: seq<Event>)
    requires Run(s, es)
    ensures TraceOf(t, s, es) == Trace(t.mbrs + Contents(s, es, MbrSector), t.exts + Contents(s, es, ExtSector),
                                       t.at + Begun(s, es, ExtSector))
    decreases |es|
  {
    if es == [] {
      assert t.mbrs + [] == t.mbrs && t.exts + [] == t.exts && t.at + [] == t.at;
    } else {
      var s', e, rest := Step(s, es[0]), es[0], es[1..];
      TraceIs(Longer(t, s, e), s', rest);
      Regroup(t.mbrs, ContentOf(s, e, MbrSector), Contents(s', rest, MbrSector));
      Regroup(t.exts, ContentOf(s, e, ExtSector), Contents(s', rest, ExtSector));
      Regroup(t.at, BegunBy(s, e, ExtSector), Begun(s', rest, ExtSector));
    }
  }

  // ---------------------------------------------------------------- every scan

  lemma ScanTraced(sectorSize: nat, es: seq<Event>)
    requires sectorSize > 0 && Run(Start(sectorSize), es)
    ensures var s := Start(sectorSize);
      Traced(After(s, es), Contents(s, es, MbrSector), Contents(s, es, ExtSector), Begun(s, es, ExtSector))
  {
    StartValid(sectorSize);
    var s := Start(sectorSize);
    RunTraced(Trace([], [], []), s, es);
    TraceIs(Trace([], [], []), s, es);
    assert [] + Contents(s, es, MbrSector) == Contents(s, es, MbrSector);
    assert [] + Contents(s, es, ExtSector) == Contents(s, es, ExtSector);
    assert [] + Begun(s, es, ExtSector) == Begun(s, es, ExtSector);
  }

  lemma ToldSector(slots: seq<Slot>, count: nat, mbr: Content, exts: seq<Content>, at: seq<nat>, k: nat)
    returns (j: nat)
    requires Told(slots, count, mbr, exts, at) && k < |at|
    ensures |exts| <= |at| <= |exts| + 1 && FirstChain(mbr.entries, j)
    ensures at[k] == ChainSector(mbr.entries[j].start, exts, k)
  {
    ChainOfFirst(mbr.entries);
    if exts != [] { assert Goes(mbr, exts[..0]); }
    j :| FirstChain(mbr.entries, j) && mbr.entries[j].start == ChainOf(mbr.entries).value;
  }

  /** Over every scan: the first extended record is read from the start of the first listed extended entry of
      the boot record, and every further one from that same start plus the link in the record read before it. */
  lemma RecordIsReadFrom(sectorSize: nat, es: seq<Event>, k: nat)
    requires sectorSize > 0 && Run(Start(sectorSize), es) && k < |Begun(Start(sectorSize), es, ExtSector)|
    ensures
      var s := Start(sectorSize);
      var mbrs, exts, at := Contents(s, es, MbrSector), Contents(s, es, ExtSector), Begun(s, es, ExtSector);
      && |mbrs| == 1 && |exts| <= |at| <= |exts| + 1 && AllValid(exts)
      && exists j: nat :: FirstChain(mbrs[0].entries, j)
           && at[k] == if k == 0 then mbrs[0].entries[j].start
                       else (mbrs[0].entries[j].start + exts[k - 1].entries[1].start) % U32
  {
    ScanTraced(sectorSize, es);
    var s := Start(sectorSize);
    var mbrs, exts, at := Contents(s, es, MbrSector), Contents(s, es, ExtSector), Begun(s, es, ExtSector);
    var j := ToldSector(After(s, es).table.slots, After(s, es).count, mbrs[0], exts, at, k);
  }

  /** Over every scan: one more record is begun if and only if there is one to be read, and the number of
      partitions found is four plus that of the good records. */
  lemma ChainIsReadToItsEnd(sectorSize: nat, es: seq<Event>)
    requires sectorSize > 0 && Run(Start(sectorSize), es)
    ensures
      var s := Start(sectorSize);
      var mbrs, exts, at := Contents(s, es, MbrSector), Contents(s, es, ExtSector), Begun(s, es, ExtSector);
      if mbrs == [] then exts == [] && at == []
      else |at| == |exts| + (if Goes(mbrs[0], exts) then 1 else 0) && After(s, es).count == CountOf(mbrs[0], exts)
  {
    ScanTraced(sectorSize, es);
  }

  /** Over every scan: what is found is what the sectors said. Slot `k` of the first four is primary entry `k`;
      slot 4 + `k` is entry 0 of extended record `k`, shifted by the sector that record was read from. */
  lemma FoundIsWhatWasRead(sectorSize: nat, es: seq<Event>, k: nat)
    requires sectorSize > 0 && Run(Start(sectorSize), es) && Contents(Start(sectorSize), es, MbrSector) != []
    ensures
      var s := Start(sectorSize);
      var mbr, exts, at := Contents(s, es, MbrSector)[0], Contents(s, es, ExtSector), Begun(s, es, ExtSector);
      var slots := After(s, es).table.slots;
      && ContentValid(mbr) && AllValid(exts) && |exts| <= |at|
      && (k < PRIMARY && mbr.mbrSignature ==>
            k < |slots|
            && slots[k] == if Listed(mbr.entries[k]) then PartitionOf(mbr.entries[k], mbr.diskId, k + 1, 0) else Unused)
      && (k < |exts| && Good(exts[k]) ==>
            PRIMARY + k < |slots|
            && slots[PRIMARY + k] == PartitionOf(exts[k].entries[0], mbr.diskId, PRIMARY + k + 1, at[k]))
  {
    ScanTraced(sectorSize, es);
    var s := Start(sectorSize);
    var exts, at := Contents(s, es, ExtSector), Begun(s, es, ExtSector);
    if k < |exts| {
      assert ExtListed(After(s, es).table.slots, Contents(s, es, MbrSector)[0].diskId, exts[k], at[k], k);
    }
  }
}
