/** Which tables a scan looks at: the GUID partition table first, and the boot record only if that has nothing. */
module PartitionFallback {
  import opened Wrappers
  import opened MbrTable
  import opened PartitionScan
  import opened PartitionChain

  /** The header of a GUID partition table has been read. */
  predicate HasTable(hdrs: seq<Content>) { |hdrs| == 1 && hdrs[0].gptSignature }

  /** As many partitions as the header announces, but no more than 1024. */
  function Announced(hdr: Content): nat { if hdr.gptCount > 1024 then 1024 else hdr.gptCount }

  /** Headers `hdrs` and arrays `arrs` were read; arrays were begun at `arrAt` and boot records at `mbrAt`. */
  datatype Tables = Tables(hdrs: seq<Content>, arrs: seq<Content>, arrAt: seq<nat>, mbrAt: seq<nat>)

  /** The array is read from where the header says, and the boot record, from sector 0, if and only if the GUID
      table turned out to hold no partitions. */
  ghost predicate Decided(s: Scan, t: Tables) {
    && (s.gptCount == 0 || (HasTable(t.hdrs) && s.gptCount == Announced(t.hdrs[0]) && s.mode.Finished?))
    && t.mbrAt == (if s.gptCount == 0 then [0] else [])
    && (t.arrs != [] ==> HasTable(t.hdrs) && s.gptCount == Announced(t.hdrs[0]))
    && (Reading(s, MbrSector) ==> s.mode.sector == 0)
  }

  ghost predicate Looked(s: Scan, t: Tables) {
    && Valid(s) && |t.hdrs| <= 1 && (t.arrs != [] ==> HasTable(t.hdrs)) && s.gptRead == (t.arrs != [])
    && if Reading(s, GptHeader) then t == Tables([], [], [], []) && s.mode.sector == 0
       else
         && t.arrAt == (if HasTable(t.hdrs) then [t.hdrs[0].gptLba] else [])
         && if Reading(s, GptArray) then
              && HasTable(t.hdrs) && s.mode.sector == t.hdrs[0].gptLba && s.gptCount == Announced(t.hdrs[0])
              && t.mbrAt == [] && t.arrs == []
            else Decided(s, t)
  }

  function Longer(t: Tables, s: Scan, e: Event): Tables
    requires Enabled(s, e) && s.count <= |s.table.slots|
  {
    Tables(t.hdrs + ContentOf(s, e, GptHeader), t.arrs + ContentOf(s, e, GptArray),
           t.arrAt + BegunBy(s, e, GptArray), t.mbrAt + BegunBy(s, e, MbrSector))
  }

  lemma NothingMore(t: Tables)
    ensures Tables(t.hdrs + [], t.arrs + [], t.arrAt + [], t.mbrAt + []) == t
  {
  }

  // ---------------------------------------------------------------- each step

  /** Once the boot record is up, the GUID table is settled. */
  lemma LaterLooked(s: Scan, t: Tables, s': Scan)
    requires Looked(s, t) && !Reading(s, GptHeader) && !Reading(s, GptArray) && s.gptCount == 0
    requires Valid(s') && s'.gptCount == 0 && s'.gptRead == s.gptRead
    requires !Reading(s', GptHeader) && !Reading(s', GptArray)
    requires Reading(s', MbrSector) ==> Reading(s, MbrSector) && s'.mode.sector == s.mode.sector
    ensures Looked(s', t)
  {
  }

  /** The GUID reader calls back: the boot record is next, or the scan is over. */
  lemma InvokeGptLooked(s: Scan, t: Tables)
    requires Valid(InvokeGpt(s)) && s.gptCb == Some(GptFinished) && s.partCb == Some(User) && s.fired == 0
    requires |t.hdrs| <= 1 && (t.arrs != [] ==> HasTable(t.hdrs) && s.gptCount == Announced(t.hdrs[0]))
    requires s.gptRead == (t.arrs != []) && t.mbrAt == []
    requires t.arrAt == (if HasTable(t.hdrs) then [t.hdrs[0].gptLba] else [])
    requires s.gptCount == 0 || (HasTable(t.hdrs) && s.gptCount == Announced(t.hdrs[0]))
    ensures var s' := InvokeGpt(s);
      Looked(s', t.(mbrAt := Begins(s', MbrSector))) && Begins(s', GptArray) == []
  {
  }

  lemma InvokeLooked(s: Scan, t: Tables)
    requires Looked(s, t) && !s.mode.Finished?
    ensures var s' := Invoke(s, s.mode.purpose);
      Looked(s', t.(mbrAt := t.mbrAt + Begins(s', MbrSector))) && Begins(s', GptArray) == []
  {
    InvokeValid(s);
    var s' := Invoke(s, s.mode.purpose);
    if s.mode.purpose.GptHeader? || s.mode.purpose.GptArray? {
      InvokeGptLooked(s, t);
      assert [] + Begins(s', MbrSector) == Begins(s', MbrSector);
    } else {
      LaterLooked(s, t, s');
      assert t.mbrAt + [] == t.mbrAt;
    }
  }

  lemma GotHeaderLooked(s: Scan, t: Tables, c: Content)
    requires Looked(s, t) && s.mode.Waiting? && s.mode.purpose == GptHeader && ContentValid(c)
    ensures var s' := GotHeader(s, c); Looked(s', Tables([c], [], Begins(s', GptArray), Begins(s', MbrSector)))
  {
    GotGptValid(s, c);
    if !c.gptSignature { InvokeGptLooked(s, Tables([c], [], [], [])); }
  }

  lemma GotArrayLooked(s: Scan, t: Tables, c: Content)
    requires Looked(s, t) && s.mode.Waiting? && s.mode.purpose == GptArray && ContentValid(c)
    ensures var s' := InvokeGpt(s.(gptRead := true));
      Looked(s', t.(arrs := [c], mbrAt := Begins(s', MbrSector))) && Begins(s', GptArray) == []
  {
    GotGptValid(s, c);
    InvokeGptLooked(s.(gptRead := true), t.(arrs := [c]));
  }

  lemma GotLaterLooked(s: Scan, t: Tables, c: Content)
    requires Looked(s, t) && s.mode.Waiting? && ContentValid(c)
    requires s.mode.purpose != GptHeader && s.mode.purpose != GptArray
    ensures var s' := Got(s, s.mode.purpose, c);
      Looked(s', t) && Begins(s', GptArray) == [] && Begins(s', MbrSector) == []
  {
    GotValid(s, c);
    GotKeepsTable(s, c);
    LaterLooked(s, t, Got(s, s.mode.purpose, c));
  }

  lemma GotKeepsTable(s: Scan, c: Content)
    requires Valid(s) && s.mode.Waiting? && ContentValid(c) && s.mode.purpose != GptHeader && s.mode.purpose != GptArray
    ensures var s' := Got(s, s.mode.purpose, c);
      && s'.gptCount == s.gptCount && s'.gptRead == s.gptRead
      && (s'.mode.Finished? || s'.mode.purpose == ExtSector || s'.mode.purpose == LabelSector)
  {
    match s.mode.purpose
    case MbrSector => MbrKeepsTable(s, c);
    case ExtSector => ExtKeepsTable(s, c, Register(s.table, c.entries[0], s.diskId, s.count));
    case LabelSector =>
  }

  predicate KeepsTable(s: Scan, s': Scan) {
    && s'.gptCount == s.gptCount && s'.gptRead == s.gptRead
    && (s'.mode.Finished? || s'.mode.purpose == ExtSector || s'.mode.purpose == LabelSector)
  }

  lemma MbrKeepsTable(s: Scan, c: Content)
    requires s.mbrCb == Some(LabelNext) && ContentValid(c)
    ensures KeepsTable(s, GotMbr(s, c))
  {
    InvokeMbrKeeps(s);
    InvokeMbrKeeps(s.(table := Primary(c.entries, c.diskId), count := PRIMARY, diskId := c.diskId));
  }

  lemma ExtKeepsTable(s: Scan, c: Content, t: Table)
    requires s.mbrCb == Some(LabelNext) && ContentValid(c) && s.count <= |s.table.slots|
    requires t == Register(s.table, c.entries[0], s.diskId, s.count)
    ensures KeepsTable(s, GotExt(s, c))
  {
    InvokeMbrKeeps(s);
    InvokeMbrKeeps(s.(table := t));
    InvokeMbrKeeps(s.(table := t, count := s.count + 1));
  }

  lemma GotLooked(s: Scan, t: Tables, c: Content)
    requires Looked(s, t) && s.mode.Waiting? && ContentValid(c)
    ensures Looked(Got(s, s.mode.purpose, c), Longer(t, s, Complete(false, c)))
  {
    var s', e := Got(s, s.mode.purpose, c), Complete(false, c);
    NothingMore(t);
    if s.mode.purpose == GptHeader {
      GotHeaderLooked(s, t, c);
      assert Longer(t, s, e) == Tables([c], [], Begins(s', GptArray), Begins(s', MbrSector));
    } else if s.mode.purpose == GptArray {
      GotArrayLooked(s, t, c);
      assert Longer(t, s, e) == t.(arrs := [c], mbrAt := Begins(s', MbrSector));
    } else {
      GotLaterLooked(s, t, c);
    }
  }

  /** A failed array read means no partitions. */
  lemma FailedLooked(s: Scan, t: Tables)
    requires Looked(s, t) && s.mode.Waiting?
    ensures var s' := Invoke(if s.mode.purpose.GptArray? then s.(gptCount := 0) else s, s.mode.purpose);
      Looked(s', t.(mbrAt := t.mbrAt + Begins(s', MbrSector))) && Begins(s', GptArray) == []
  {
    FailedValid(s);
    if s.mode.purpose.GptArray? {
      var s' := InvokeGpt(s.(gptCount := 0));
      InvokeGptLooked(s.(gptCount := 0), t);
      assert [] + Begins(s', MbrSector) == Begins(s', MbrSector);
    } else {
      InvokeLooked(s, t);
    }
  }

  lemma PolledLooked(s: Scan, t: Tables, e: Event)
    requires Looked(s, t) && s.mode.Polling? && (e.Accept? || (e.Busy? && s.mode.polls < RETRIES))
    ensures Looked(Step(s, e), t) && BegunBy(s, e, GptArray) == [] && BegunBy(s, e, MbrSector) == []
  {
    StepValid(s, e);
  }

  lemma StepLooked(s: Scan, t: Tables, e: Event)
    requires Looked(s, t) && Enabled(s, e)
    ensures Looked(Step(s, e), Longer(t, s, e))
  {
    NothingMore(t);
    match e
    case Accept => PolledLooked(s, t, e);
    case Refuse => InvokeLooked(s, t);
    case Busy => if s.mode.polls < RETRIES { PolledLooked(s, t, e); } else { InvokeLooked(s, t); }
    case Complete(error, c) => if error { FailedLooked(s, t); } else { GotLooked(s, t, c); }
  }

  // ---------------------------------------------------------------- every scan

  function TablesOf(t: Tables, s: Scan, es: seq<Event>): Tables
    requires Run(s, es)
    decreases |es|
  {
    if es == [] then t else TablesOf(Longer(t, s, es[0]), Step(s, es[0]), es[1..])
  }

  lemma {:induction false} RunLooked(t: Tables, s: Scan, es: seq<Event>)
    requires Looked(s, t) && Run(s, es)
    ensures Looked(After(s, es), TablesOf(t, s, es))
    decreases |es|
  {
    if es != [] {
      StepLooked(s, t, es[0]);
      RunLooked(Longer(t, s, es[0]), Step(s, es[0]), es[1..]);
    }
  }

  lemma {:induction false} TablesAre(t: Tables, s: Scan, es: seq<Event>)
    requires Run(s, es)
    ensures TablesOf(t, s, es) ==
            Tables(t.hdrs + Contents(s, es, GptHeader), t.arrs + Contents(s, es, GptArray),
                   t.arrAt + Begun(s, es, GptArray), t.mbrAt + Begun(s, es, MbrSector))
    decreases |es|
  {
    if es == [] {
      NothingMore(t);
    } else {
      var s', e, rest := Step(s, es[0]), es[0], es[1..];
      TablesAre(Longer(t, s, e), s', rest);
      Regroup(t.hdrs, ContentOf(s, e, GptHeader), Contents(s', rest, GptHeader));
      Regroup(t.arrs, ContentOf(s, e, GptArray), Contents(s', rest, GptArray));
      Regroup(t.arrAt, BegunBy(s, e, GptArray), Begun(s', rest, GptArray));
      Regroup(t.mbrAt, BegunBy(s, e, MbrSector), Begun(s', rest, MbrSector));
    }
  }

  /** Over every scan that is over: at most one header was read, and its array from where it says; the boot record
      was looked at, in sector 0, if and only if the GUID table holds no partitions; otherwise it holds as many as
      announced, up to 1024. */
  lemma BootRecordIfNoTable(sectorSize: nat, es: seq<Event>)
    requires sectorSize > 0 && Run(Start(sectorSize), es) && After(Start(sectorSize), es).mode.Finished?
    ensures
      var s, s' := Start(sectorSize), After(Start(sectorSize), es);
      var hdrs, arrs := Contents(s, es, GptHeader), Contents(s, es, GptArray);
      && |hdrs| <= 1
      && Begun(s, es, GptArray) == (if HasTable(hdrs) then [hdrs[0].gptLba] else [])
      && Begun(s, es, MbrSector) == (if s'.gptCount == 0 then [0] else [])
      && (s'.gptCount == 0 || (HasTable(hdrs) && s'.gptCount == Announced(hdrs[0])))
      && (arrs != [] ==> HasTable(hdrs) && s'.gptCount == Announced(hdrs[0]))
  {
    var s := Start(sectorSize);
    StartValid(sectorSize);
    var t := Tables([], [], [], []);
    RunLooked(t, s, es);
    TablesAre(t, s, es);
    assert [] + Contents(s, es, GptHeader) == Contents(s, es, GptHeader);
    assert [] + Contents(s, es, GptArray) == Contents(s, es, GptArray);
    assert [] + Begun(s, es, GptArray) == Begun(s, es, GptArray);
    assert [] + Begun(s, es, MbrSector) == Begun(s, es, MbrSector);
  }
}
