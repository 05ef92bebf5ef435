/** Which file-system labels a scan reads, from where, and to which partitions it gives them. */
module PartitionLabels {
  import opened Wrappers
  import opened MbrTable
  import opened PartitionScan
  import opened PartitionChain

  /** A partition of the Linux kind that is not empty. */
  predicate IsLinux(slot: Slot) { slot.Used? && slot.first <= slot.last && slot.kind == 0x83 }

  /** The places of the Linux partitions among the first `n` slots. */
  function Linux(slots: seq<Slot>, n: nat): seq<nat>
    requires n <= |slots|
  {
    if n == 0 then [] else Linux(slots, n - 1) + if IsLinux(slots[n - 1]) then [n - 1] else []
  }

  lemma {:induction false} LinuxPlaces(slots: seq<Slot>, n: nat)
    requires n <= |slots|
    ensures forall k :: 0 <= k < |Linux(slots, n)| ==> Linux(slots, n)[k] < n && IsLinux(slots[Linux(slots, n)[k]])
    ensures forall i :: 0 <= i < n && IsLinux(slots[i]) ==> i in Linux(slots, n)
  {
    if n > 0 { LinuxPlaces(slots, n - 1); }
  }

  lemma {:induction false} LinuxPrefix(slots: seq<Slot>, a: nat, b: nat)
    requires a <= b <= |slots|
    ensures Linux(slots, a) <= Linux(slots, b)
  {
    if a < b { LinuxPrefix(slots, a, b - 1); }
  }

  lemma {:induction false} LinuxSkip(slots: seq<Slot>, a: nat, b: nat)
    requires a <= b <= |slots| && forall i :: a <= i < b ==> !IsLinux(slots[i])
    ensures Linux(slots, b) == Linux(slots, a)
  {
    if a < b { LinuxSkip(slots, a, b - 1); }
  }

  /** The place of Linux partition `k`, read when those before it have been. */
  lemma LinuxAt(slots: seq<Slot>, cur: nat, n: nat)
    requires cur < n <= |slots| && IsLinux(slots[cur])
    ensures var k := |Linux(slots, cur)|; k < |Linux(slots, n)| && Linux(slots, n)[k] == cur
    ensures Linux(slots, cur + 1) == Linux(slots, cur) + [cur]
  {
    LinuxPrefix(slots, cur + 1, n);
  }

  // ---------------------------------------------------------------- the invariant

  /** Reads were begun at the superblocks of the Linux partitions in order; `sb` is how far into a file system its
      superblock lies, in sectors. */
  ghost predicate SuperblocksAt(slots: seq<Slot>, places: seq<nat>, sb: nat, at: seq<nat>) {
    && |at| <= |places|
    && forall k :: 0 <= k < |at| ==>
         places[k] < |slots| && slots[places[k]].Used? && at[k] == slots[places[k]].first + sb
  }

  /** Partition `n` is labelled if and only if a superblock with a label was read from it. */
  ghost predicate LabelsAre(labels: set<nat>, places: seq<nat>, labs: seq<Content>) {
    && |labs| <= |places|
    && forall n :: n in labels <==> exists k :: 0 <= k < |labs| && labs[k].labelled && n == places[k] + 1
  }

  ghost predicate Labelled(s: Scan, sb: nat, labs: seq<Content>, at: seq<nat>) {
    && Valid(s) && s.sbSector == sb
    && if !s.mode.Finished? && s.mode.purpose != LabelSector then labs == [] && at == [] && s.labels == {} && s.cur == 0
       else
         var places := Linux(s.table.slots, s.count);
         && LabelsAre(s.labels, places, labs) && SuperblocksAt(s.table.slots, places, sb, at)
         && |at| == |labs| + (if |labs| < |places| then 1 else 0)
         && (Reading(s, LabelSector) ==> AtLinux(s, labs, at))
  }

  ghost predicate AtLinux(s: Scan, labs: seq<Content>, at: seq<nat>) {
    && s.cur < s.count <= |s.table.slots| && IsLinux(s.table.slots[s.cur])
    && |Linux(s.table.slots, s.cur)| == |labs| && |at| == |labs| + 1
    && !s.mode.Finished? && s.mode.sector == at[|labs|]
  }

  // ---------------------------------------------------------------- each step

  lemma LabelableIff(s: Scan, i: nat)
    requires i < s.count <= |s.table.slots|
    ensures Labelable(s, i) <==> IsLinux(s.table.slots[i])
  {
  }

  lemma NextIsLinux(s: Scan, i: nat, n: nat)
    requires s.count <= |s.table.slots| && i <= s.count && n == NextLabel(s, i)
    ensures n <= s.count && Linux(s.table.slots, n) == Linux(s.table.slots, i)
    ensures n < s.count ==> IsLinux(s.table.slots[n])
  {
    forall k | i <= k < n ensures !IsLinux(s.table.slots[k]) { LabelableIff(s, k); }
    LinuxSkip(s.table.slots, i, n);
    if n < s.count { LabelableIff(s, n); }
  }

  /** The next Linux partition is at `n`: its superblock is begun. */
  lemma BegunLabelled(s: Scan, n: nat, labs: seq<Content>, at: seq<nat>, s': Scan)
    requires n < s.count <= |s.table.slots| && IsLinux(s.table.slots[n])
    requires |Linux(s.table.slots, n)| == |labs| == |at|
    requires s' == Read(s.(cur := n), LabelSector, s.table.slots[n].first + s.sbSector) && Valid(s')
    requires SuperblocksAt(s.table.slots, Linux(s.table.slots, s.count), s.sbSector, at)
    requires LabelsAre(s.labels, Linux(s.table.slots, s.count), labs)
    ensures Labelled(s', s.sbSector, labs, at + Begins(s', LabelSector))
  {
    LinuxAt(s.table.slots, n, s.count);
  }

  lemma DoneLabelled(s: Scan, labs: seq<Content>, at: seq<nat>, s': Scan)
    requires s.count <= |s.table.slots| && |Linux(s.table.slots, s.count)| == |labs| == |at|
    requires s'.mode.Finished? && s'.table == s.table && s'.count == s.count && s'.labels == s.labels && Valid(s')
    requires s'.sbSector == s.sbSector
    requires SuperblocksAt(s.table.slots, Linux(s.table.slots, s.count), s.sbSector, at)
    requires LabelsAre(s.labels, Linux(s.table.slots, s.count), labs)
    ensures Labelled(s', s.sbSector, labs, at + Begins(s', LabelSector))
  {
    assert at + [] == at;
  }

  /** Going on from place `i`: the next Linux partition is read, or all have been. */
  lemma LabelFromLabelled(s: Scan, i: nat, labs: seq<Content>, at: seq<nat>)
    requires s.count <= |s.table.slots| && i <= s.count && |Linux(s.table.slots, i)| == |labs| == |at|
    requires s.partCb == Some(User) && Valid(LabelFrom(s, i))
    requires SuperblocksAt(s.table.slots, Linux(s.table.slots, s.count), s.sbSector, at)
    requires LabelsAre(s.labels, Linux(s.table.slots, s.count), labs)
    ensures var s' := LabelFrom(s, i); Labelled(s', s.sbSector, labs, at + Begins(s', LabelSector))
  {
    var n := NextLabel(s, i);
    NextIsLinux(s, i, n);
    if n < s.count {
      assert LabelFrom(s, i) == Read(s.(cur := n), LabelSector, s.table.slots[n].first + s.sbSector);
      BegunLabelled(s, n, labs, at, LabelFrom(s, i));
    } else {
      assert LabelFrom(s, i) == InvokePart(s.(cur := n, mbrCb := None));
      DoneLabelled(s, labs, at, LabelFrom(s, i));
    }
  }

  lemma NoneYet(s: Scan)
    requires s.labels == {}
    ensures LabelsAre(s.labels, Linux(s.table.slots, if s.count <= |s.table.slots| then s.count else 0), [])
  {
  }

  /** The boot records are done: labels come next. */
  lemma InvokeMbrLabelled(s: Scan)
    requires s.mbrCb == Some(LabelNext) && s.partCb == Some(User) && s.cur == 0 && s.labels == {}
    requires s.count <= |s.table.slots| && Valid(InvokeMbr(s))
    ensures Labelled(InvokeMbr(s), s.sbSector, [], Begins(InvokeMbr(s), LabelSector))
  {
    var s1 := s.(mbrCb := Some(MbrFinished));
    NoneYet(s1);
    LabelFromLabelled(s1, 0, [], []);
    assert [] + Begins(InvokeMbr(s), LabelSector) == Begins(InvokeMbr(s), LabelSector);
  }

  lemma InvokeLabelled(s: Scan, sb: nat, labs: seq<Content>, at: seq<nat>)
    requires Labelled(s, sb, labs, at) && !s.mode.Finished?
    ensures var s' := Invoke(s, s.mode.purpose); Labelled(s', sb, labs, at + Begins(s', LabelSector))
  {
    InvokeValid(s);
    var s' := Invoke(s, s.mode.purpose);
    if s.mode.purpose == MbrSector || s.mode.purpose == ExtSector {
      InvokeMbrLabelled(s);
      assert at + Begins(s', LabelSector) == Begins(s', LabelSector);
    } else if s.mode.purpose == LabelSector {
      assert at + [] == at;
    } else {
      GptLabelled(s, sb, s');
      assert at + [] == at;
    }
  }

  /** While there is no boot record there is nothing to label. */
  lemma GptLabelled(s: Scan, sb: nat, s': Scan)
    requires Valid(s) && s.sbSector == sb && s.labels == {} && s.count == 0 && s.cur == 0
    requires Valid(s') && s'.sbSector == sb && s'.labels == {} && s'.count == 0 && s'.cur == 0
    requires s'.mode.Finished? || (s'.mode.purpose != LabelSector && s'.mode.purpose != ExtSector)
    ensures Labelled(s', sb, [], []) && Begins(s', LabelSector) == []
  {
  }

  lemma GotMbrLabelled(s: Scan, sb: nat, c: Content)
    requires Labelled(s, sb, [], []) && s.mode.Waiting? && s.mode.purpose == MbrSector && ContentValid(c)
    ensures Labelled(GotMbr(s, c), sb, [], Begins(GotMbr(s, c), LabelSector))
  {
    GotMbrValid(s, c);
    if !c.mbrSignature {
      InvokeMbrLabelled(s);
    } else {
      var t := Primary(c.entries, c.diskId);
      if t.chain.None? { InvokeMbrLabelled(s.(table := t, count := PRIMARY, diskId := c.diskId)); }
    }
  }

  lemma FoundExtLabelled(s: Scan, sb: nat, c: Content, t: Table)
    requires Labelled(s, sb, [], []) && s.mode.Waiting? && s.mode.purpose == ExtSector && ContentValid(c)
    requires t == Register(s.table, c.entries[0], s.diskId, s.count) && Valid(FoundExt(s, c))
    ensures Labelled(FoundExt(s, c), sb, [], Begins(FoundExt(s, c), LabelSector))
  {
    if Listed(c.entries[0]) {
      var s1 := s.(table := t, count := s.count + 1);
      assert FoundExt(s, c) == Follow(s1, s.table.chain, c.entries[1].start);
      FollowLabelled(s1, s.table.chain, c.entries[1].start);
    } else {
      assert FoundExt(s, c) == InvokeMbr(s.(table := t));
      InvokeMbrLabelled(s.(table := t));
    }
  }

  lemma GotExtLabelled(s: Scan, sb: nat, c: Content)
    requires Labelled(s, sb, [], []) && s.mode.Waiting? && s.mode.purpose == ExtSector && ContentValid(c)
    ensures Labelled(GotExt(s, c), sb, [], Begins(GotExt(s, c), LabelSector))
  {
    GotExtValid(s, c);
    if !c.mbrSignature {
      assert GotExt(s, c) == InvokeMbr(s);
      InvokeMbrLabelled(s);
    } else {
      FoundExtLabelled(s, sb, c, Register(s.table, c.entries[0], s.diskId, s.count));
    }
  }

  lemma FollowLabelled(s: Scan, chain: Option<nat>, next: nat)
    requires s.mbrCb == Some(LabelNext) && s.partCb == Some(User) && s.cur == 0 && s.labels == {}
    requires s.count <= |s.table.slots| && Valid(Follow(s, chain, next))
    ensures var s' := Follow(s, chain, next); Labelled(s', s.sbSector, [], Begins(s', LabelSector))
  {
    if !(next != 0 && s.count < MAX_PARTITIONS && chain.Some?) { InvokeMbrLabelled(s); }
  }

  lemma MoreLabels(labels: set<nat>, places: seq<nat>, labs: seq<Content>, c: Content)
    requires LabelsAre(labels, places, labs) && |labs| < |places|
    ensures LabelsAre(if c.labelled then labels + {places[|labs|] + 1} else labels, places, labs + [c])
  {
    var labels', labs' := if c.labelled then labels + {places[|labs|] + 1} else labels, labs + [c];
    forall n
      ensures n in labels' <==> exists k :: 0 <= k < |labs'| && labs'[k].labelled && n == places[k] + 1
    {
      if n in labels {
        var k :| 0 <= k < |labs| && labs[k].labelled && n == places[k] + 1;
        assert labs'[k].labelled;
      } else if n in labels' {
        assert labs'[|labs|].labelled;
      }
      if k :| 0 <= k < |labs'| && labs'[k].labelled && n == places[k] + 1 && k < |labs| {
        assert labs[k].labelled;
      }
    }
  }

  /** A superblock has been read; the search goes on behind its partition. */
  lemma GotFacts(s: Scan, sb: nat, labs: seq<Content>, at: seq<nat>, c: Content, s1: Scan)
    requires Labelled(s, sb, labs, at) && Reading(s, LabelSector)
    requires s1 == Noted(s, c)
    ensures s1.cur == s.cur + 1 <= s1.count <= |s1.table.slots| && s1.partCb == Some(User) && s1.sbSector == sb
    ensures |Linux(s1.table.slots, s1.cur)| == |labs + [c]| == |at|
    ensures SuperblocksAt(s1.table.slots, Linux(s1.table.slots, s1.count), sb, at)
    ensures LabelsAre(s1.labels, Linux(s1.table.slots, s1.count), labs + [c])
  {
    LinuxAt(s.table.slots, s.cur, s.count);
    MoreLabels(s.labels, Linux(s.table.slots, s.count), labs, c);
  }

  /** What the search for the next label starts from: everything before place `i` has been read. */
  ghost predicate Searching(s: Scan, sb: nat, i: nat, labs: seq<Content>, at: seq<nat>) {
    && i <= s.count <= |s.table.slots| && s.partCb == Some(User) && s.sbSector == sb
    && |Linux(s.table.slots, i)| == |labs| == |at|
    && SuperblocksAt(s.table.slots, Linux(s.table.slots, s.count), sb, at)
    && LabelsAre(s.labels, Linux(s.table.slots, s.count), labs)
  }

  lemma Searched(s: Scan, sb: nat, i: nat, labs: seq<Content>, at: seq<nat>, s': Scan)
    requires Searching(s, sb, i, labs, at) && s' == LabelFrom(s, i) && Valid(s')
    ensures Labelled(s', sb, labs, at + Begins(s', LabelSector))
  {
    LabelFromLabelled(s, i, labs, at);
  }

  lemma NowSearching(s: Scan, sb: nat, labs: seq<Content>, at: seq<nat>, c: Content, s1: Scan)
    requires Labelled(s, sb, labs, at) && Reading(s, LabelSector) && s1 == Noted(s, c)
    ensures Searching(s1, sb, s.cur + 1, labs + [c], at)
  {
    GotFacts(s, sb, labs, at, c, s1);
  }

  lemma GotLabelLabelled(s: Scan, sb: nat, labs: seq<Content>, at: seq<nat>, c: Content, s': Scan)
    requires Labelled(s, sb, labs, at) && s.mode.Waiting? && s.mode.purpose == LabelSector && ContentValid(c)
    requires s' == GotLabel(s, c)
    ensures Labelled(s', sb, labs + [c], at + Begins(s', LabelSector))
  {
    GotLabelValid(s, c);
    NowSearching(s, sb, labs, at, c, Noted(s, c));
    Searched(Noted(s, c), sb, s.cur + 1, labs + [c], at, s');
  }

  lemma GotGptLabelled(s: Scan, sb: nat, c: Content)
    requires Labelled(s, sb, [], []) && s.mode.Waiting? && ContentValid(c)
    requires s.mode.purpose == GptHeader || s.mode.purpose == GptArray
    ensures var s' := Got(s, s.mode.purpose, c); Labelled(s', sb, [], []) && Begins(s', LabelSector) == []
  {
    GotGptValid(s, c);
    GptLabelled(s, sb, Got(s, s.mode.purpose, c));
  }

  lemma GotLabelled(s: Scan, sb: nat, labs: seq<Content>, at: seq<nat>, c: Content)
    requires Labelled(s, sb, labs, at) && s.mode.Waiting? && ContentValid(c)
    ensures var e, s' := Complete(false, c), Got(s, s.mode.purpose, c);
      Labelled(s', sb, labs + ContentOf(s, e, LabelSector), at + Begins(s', LabelSector))
  {
    var s' := Got(s, s.mode.purpose, c);
    assert labs + [] == labs && at + [] == at;
    if s.mode.purpose == LabelSector {
      GotLabelLabelled(s, sb, labs, at, c, s');
    } else {
      assert at + Begins(s', LabelSector) == Begins(s', LabelSector);
      if s.mode.purpose == MbrSector {
        GotMbrLabelled(s, sb, c);
      } else if s.mode.purpose == ExtSector {
        GotExtLabelled(s, sb, c);
      } else {
        GotGptLabelled(s, sb, c);
      }
    }
  }

  lemma FailedLabelled(s: Scan, sb: nat, labs: seq<Content>, at: seq<nat>)
    requires Labelled(s, sb, labs, at) && s.mode.Waiting?
    ensures var s' := Invoke(if s.mode.purpose.GptArray? then s.(gptCount := 0) else s, s.mode.purpose);
      Labelled(s', sb, labs, at + Begins(s', LabelSector))
  {
    FailedValid(s);
    if s.mode.purpose.GptArray? {
      GptLabelled(s, sb, Invoke(s.(gptCount := 0), s.mode.purpose));
      assert at + [] == at;
    } else {
      InvokeLabelled(s, sb, labs, at);
    }
  }

  lemma PolledLabelled(s: Scan, sb: nat, labs: seq<Content>, at: seq<nat>, e: Event)
    requires Labelled(s, sb, labs, at) && s.mode.Polling? && (e.Accept? || (e.Busy? && s.mode.polls < RETRIES))
    ensures Labelled(Step(s, e), sb, labs, at) && BegunBy(s, e, LabelSector) == []
  {
    StepValid(s, e);
  }

  lemma StepLabelled(s: Scan, sb: nat, labs: seq<Content>, at: seq<nat>, e: Event)
    requires Labelled(s, sb, labs, at) && Enabled(s, e)
    ensures Labelled(Step(s, e), sb, labs + ContentOf(s, e, LabelSector), at + BegunBy(s, e, LabelSector))
  {
    assert labs + [] == labs && at + [] == at;
    match e
    case Accept => PolledLabelled(s, sb, labs, at, e);
    case Refuse => InvokeLabelled(s, sb, labs, at);
    case Busy =>
      if s.mode.polls < RETRIES { PolledLabelled(s, sb, labs, at, e); } else { InvokeLabelled(s, sb, labs, at); }
    case Complete(error, c) =>
      if error { FailedLabelled(s, sb, labs, at); } else { GotLabelled(s, sb, labs, at, c); }
  }

  // ---------------------------------------------------------------- every scan

  datatype Reads = Reads(labs: seq<Content>, at: seq<nat>)

  function Longer(t: Reads, s: Scan, e: Event): Reads
    requires Enabled(s, e) && s.count <= |s.table.slots|
  {
    Reads(t.labs + ContentOf(s, e, LabelSector), t.at + BegunBy(s, e, LabelSector))
  }

  function ReadsOf(t: Reads, s: Scan, es: seq<Event>): Reads
    requires Run(s, es)
    decreases |es|
  {
    if es == [] then t else ReadsOf(Longer(t, s, es[0]), Step(s, es[0]), es[1..])
  }

  lemma {:induction false} RunLabelled(t: Reads, s: Scan, sb: nat, es: seq<Event>)
    requires Labelled(s, sb, t.labs, t.at) && Run(s, es)
    ensures var t' := ReadsOf(t, s, es); Labelled(After(s, es), sb, t'.labs, t'.at)
    decreases |es|
  {
    if es != [] {
      StepLabelled(s, sb, t.labs, t.at, es[0]);
      RunLabelled(Longer(t, s, es[0]), Step(s, es[0]), sb, es[1..]);
    }
  }

  lemma {:induction false} ReadsAre(t: Reads, s: Scan, es: seq<Event>)
    requires Run(s, es)
    ensures ReadsOf(t, s, es) == Reads(t.labs + Contents(s, es, LabelSector), t.at + Begun(s, es, LabelSector))
    decreases |es|
  {
    if es == [] {
      assert t.labs + [] == t.labs && t.at + [] == t.at;
    } else {
      var s', e, rest := Step(s, es[0]), es[0], es[1..];
      ReadsAre(Longer(t, s, e), s', rest);
      Regroup(t.labs, ContentOf(s, e, LabelSector), Contents(s', rest, LabelSector));
      Regroup(t.at, BegunBy(s, e, LabelSector), Begun(s', rest, LabelSector));
    }
  }

  /** Over every scan that is over: the superblocks of the Linux partitions were read in order, each 1024 bytes
      into its partition, until a read failed; and the partitions with a label are exactly those whose superblock
      had one. */
  lemma LabelsAreWhatWasRead(sectorSize: nat, es: seq<Event>)
    requires sectorSize > 0 && Run(Start(sectorSize), es) && After(Start(sectorSize), es).mode.Finished?
    ensures
      var s, s' := Start(sectorSize), After(Start(sectorSize), es);
      var labs, at := Contents(s, es, LabelSector), Begun(s, es, LabelSector);
      && s'.count <= |s'.table.slots|
      && var places := Linux(s'.table.slots, s'.count);
      && |at| == |labs| + (if |labs| < |places| then 1 else 0)
      && SuperblocksAt(s'.table.slots, places, 1024 / sectorSize, at) && LabelsAre(s'.labels, places, labs)
  {
    var s := Start(sectorSize);
    StartValid(sectorSize);
    var sb := s.sbSector;
    RunLabelled(Reads([], []), s, sb, es);
    ReadsAre(Reads([], []), s, es);
    assert [] + Contents(s, es, LabelSector) == Contents(s, es, LabelSector);
    assert [] + Begun(s, es, LabelSector) == Begun(s, es, LabelSector);
  }
}
