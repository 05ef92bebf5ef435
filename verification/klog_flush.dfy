/** Flushing the kernel log to its file while other threads go on writing: the lock is only held to take
    a snapshot and to report what was written. Entries are known by their sequence numbers. */
module KlogFlush {
  import opened KlogRing

  /** One flush under way: entries `lo + 1 .. hi` were in the ring, those up to `seen` are not new. */
  datatype Snap = Snap(lo: nat, hi: nat, seen: nat, stored: bool)

  /** The ring holds `last - count + 1 .. last`. `lost` are the numbers that left the ring while they
      were neither in the file nor in a snapshot on its way there. */
  datatype Log = Log(last: nat, count: nat, fileSeq: nat, file: seq<nat>, snaps: map<nat, Snap>, lost: iset<nat>)

  datatype Event = Write | Clear | Begin(f: nat) | Append(f: nat) | GiveUp(f: nat) | End(f: nat)

  const Empty: Log := Log(0, 0, 0, [], map[], iset{})

  /** `a + 1 .. b` */
  function Range(a: nat, b: nat): (r: seq<nat>)
    ensures |r| == if a < b then b - a else 0
    ensures forall i :: 0 <= i < |r| ==> r[i] == a + 1 + i
  {
    if a >= b then [] else Range(a, b - 1) + [b]
  }

  function From(s: Snap): nat {
    Max(s.lo, s.seen)
  }

  /** The last number in the file once this snapshot is written. */
  function Reached(s: Snap): nat {
    if From(s) < s.hi then s.hi else s.seen
  }

  /** The number before the oldest one in the ring. */
  function Low(log: Log): nat {
    Max(log.last, log.count) - log.count
  }

  /** On its way to the file. */
  ghost predicate Pending(log: Log, n: nat) {
    exists f :: f in log.snaps && !log.snaps[f].stored && From(log.snaps[f]) < n <= log.snaps[f].hi
  }

  predicate InRing(log: Log, n: nat) {
    Low(log) < n <= log.last
  }

  predicate Enabled(log: Log, e: Event) {
    match e
    case Write => true
    case Clear => true
    case Begin(f) => f !in log.snaps
    case Append(f) => f in log.snaps && !log.snaps[f].stored
    case GiveUp(f) => f in log.snaps && !log.snaps[f].stored
    case End(f) => f in log.snaps && log.snaps[f].stored
  }

  /** The steps without the bookkeeping of what got lost. */
  function Move(log: Log, e: Event): Log
    requires Enabled(log, e)
  {
    match e
    case Write => log.(last := log.last + 1, count := if log.count < SIZE then log.count + 1 else log.count)
    case Clear => log.(count := 0)
    case Begin(f) =>
      log.(snaps := log.snaps[f := Snap(Low(log), log.last, log.fileSeq, false)])
    case Append(f) =>
      var s := log.snaps[f];
      log.(file := log.file + Range(From(s), s.hi), snaps := log.snaps[f := s.(stored := true)])
    case GiveUp(f) => log.(snaps := log.snaps - {f})
    case End(f) =>
      var s := log.snaps[f];
      log.(fileSeq := Max(log.fileSeq, Reached(s)), snaps := log.snaps - {f})
  }

  ghost predicate Safe(log: Log, n: nat) {
    InRing(log, n) || n in log.file || Pending(log, n)
  }

  ghost function Step(log: Log, e: Event): Log
    requires Enabled(log, e)
  {
    var next := Move(log, e);
    next.(lost := iset n: nat | n in log.lost || (Safe(log, n) && !Safe(next, n)))
  }

  // What the ring's methods do is what the steps say

  function Numbers(s: seq<Entry>): (r: seq<nat>)
    ensures |r| == |s| && forall i :: 0 <= i < |s| ==> r[i] == s[i].seqNo
  {
    if s == [] then [] else Numbers(s[..|s| - 1]) + [s[|s| - 1].seqNo]
  }

  lemma SuffixNumbers(kept: seq<Entry>, suffix: seq<Entry>, from: nat, start: nat, last: nat)
    requires Consecutive(kept, last) && from <= |kept| && suffix == kept[from..]
    requires if from == |kept| then start >= last else start == last - |kept| + from
    ensures Numbers(suffix) == Range(start, last)
  {
    var a, b := Numbers(suffix), Range(start, last);
    forall i | 0 <= i < |a|
      ensures a[i] == b[i]
    {
      assert a[i] == suffix[i].seqNo && suffix[i] == kept[from + i];
    }
  }

  /** The entries collected from a ring that ends with `last` are numbered consecutively up to `last`. */
  lemma CollectedNumbers(kept: seq<Entry>, low: nat, last: nat, seen: nat)
    requires Consecutive(kept, last) && low == last - |kept|
    ensures Numbers(Newer(kept, |kept|, seen)) == Range(Max(low, seen), last)
  {
    var from := NewFrom(|kept|, |kept|, last, seen);
    NewerIsSuffix(kept, |kept|, last, seen);
    SuffixNumbers(kept, Newer(kept, |kept|, seen), from, Max(low, seen), last);
  }

  lemma FlushAppends(log: Log, f: nat, nums: seq<nat>)
    requires f !in log.snaps && nums == Range(Max(Low(log), log.fileSeq), log.last)
    ensures var began := Move(log, Begin(f));
      && Move(began, Append(f)).file == log.file + nums
      && Reached(began.snaps[f]) == if nums == [] then log.fileSeq else log.last
  {
    assert From(Snap(Low(log), log.last, log.fileSeq, false)) == Max(Low(log), log.fileSeq);
  }

  /** A flush of the ring appends to the file the numbers of what `Collect` finds, and reports the number
      that `Collect` returns. */
  lemma FlushIsCollect(log: Log, f: nat, kept: seq<Entry>, lines: seq<Entry>)
    requires Consecutive(kept, log.last) && log.count == |kept| && f !in log.snaps
    requires lines == Newer(kept, |kept|, log.fileSeq)
    ensures var began := Move(log, Begin(f));
      && Move(began, Append(f)).file == log.file + Numbers(lines)
      && Reached(began.snaps[f]) == if lines == [] then log.fileSeq else log.last
  {
    CollectedNumbers(kept, Low(log), log.last, log.fileSeq);
    FlushAppends(log, f, Numbers(lines));
  }

  // Order in the file

  predicate Increasing(s: seq<nat>) {
    forall i, j :: 0 <= i < j < |s| ==> s[i] < s[j]
  }

  function FileEnd(s: seq<nat>): nat {
    if s == [] then 0 else s[|s| - 1]
  }

  /** Appending a snapshot keeps the numbers in the file strictly increasing if and only if it has
      nothing new or everything in the file is older than what it counts as new. */
  lemma AppendKeepsOrderIff(log: Log, f: nat)
    requires Enabled(log, Append(f)) && Increasing(log.file)
    ensures var s := log.snaps[f];
      Increasing(Move(log, Append(f)).file) <==> s.hi <= From(s) || FileEnd(log.file) <= From(s)
  {
    var s, file := log.snaps[f], log.file;
    var r := Range(From(s), s.hi);
    var joined := file + r;
    if r == [] {
      assert joined == file;
    } else if FileEnd(file) <= From(s) {
      forall i, j | 0 <= i < j < |joined|
        ensures joined[i] < joined[j]
      {
        if i < |file| {
          assert file[i] <= FileEnd(file);
        }
      }
    } else {
      assert joined[|file| - 1] >= joined[|file|];
    }
  }

  /** Two flushes at the same time can both write the same entry. */
  lemma OverlapDuplicates()
    ensures var run := [Write, Begin(0), Begin(1), Append(0), Append(1)];
      Run(Empty, run) && After(Empty, run).file == [1, 1]
  {
    var l1 := Step(Empty, Write);
    var l2 := Step(l1, Begin(0));
    var l3 := Step(l2, Begin(1));
    var l4 := Step(l3, Append(0));
    var l5 := Step(l4, Append(1));
    assert l4.file == [1] && l5.file == [1, 1];
    var run := [Write, Begin(0), Begin(1), Append(0), Append(1)];
    assert run[1..] == [Begin(0), Begin(1), Append(0), Append(1)];
    assert run[1..][1..] == [Begin(1), Append(0), Append(1)];
    assert run[1..][1..][1..] == [Append(0), Append(1)];
    assert run[1..][1..][1..][1..] == [Append(1)];
    assert [Append(1)][1..] == [];
    assert Run(l5, []) && After(l5, []) == l5;
    assert Run(l4, [Append(1)]) && After(l4, [Append(1)]) == l5;
    assert Run(l3, [Append(0), Append(1)]) && After(l3, [Append(0), Append(1)]) == l5;
    assert Run(l2, [Begin(1), Append(0), Append(1)]) && After(l2, [Begin(1), Append(0), Append(1)]) == l5;
  }

  // Runs

  ghost predicate Run(log: Log, events: seq<Event>)
    decreases |events|
  {
    events == [] || (Enabled(log, events[0]) && Run(Step(log, events[0]), events[1..]))
  }

  ghost function After(log: Log, events: seq<Event>): Log
    requires Run(log, events)
    decreases |events|
  {
    if events == [] then log else After(Step(log, events[0]), events[1..])
  }

  /** No flush begins while another is under way. */
  ghost predicate OneAtATime(log: Log, events: seq<Event>)
    requires Run(log, events)
    decreases |events|
  {
    events == [] || ((events[0].Begin? ==> log.snaps == map[]) && OneAtATime(Step(log, events[0]), events[1..]))
  }

  // One flush at a time

  /** The snapshot is of the past, and its idea of the file is still right. */
  predicate SnapFits(log: Log, s: Snap) {
    && s.lo <= s.hi <= log.last && s.lo <= Low(log)
    && s.seen == log.fileSeq
    && FileEnd(log.file) == if s.stored then Reached(s) else s.seen
  }

  ghost predicate Shape(log: Log) {
    && log.count <= SIZE && log.count <= log.last
    && (forall f, g :: f in log.snaps && g in log.snaps ==> f == g)
    && (forall f :: f in log.snaps ==> SnapFits(log, log.snaps[f]))
    && (log.snaps == map[] ==> FileEnd(log.file) == log.fileSeq)
  }

  ghost predicate Filed(log: Log) {
    && Increasing(log.file)
    && (forall n :: n in log.file ==> 1 <= n <= log.last)
    && (forall n: nat :: InRing(log, n) && n <= FileEnd(log.file) ==> n in log.file)
  }

  /** Every number so far is in the ring, in the file or on its way there, or else it is lost. */
  ghost predicate Accounted(log: Log, n: nat) {
    if 1 <= n <= log.last then n in log.lost <==> !Safe(log, n) else n !in log.lost && !Safe(log, n)
  }

  ghost predicate Inv(log: Log) {
    Shape(log) && Filed(log) && forall n: nat :: Accounted(log, n)
  }

  lemma InRange(n: nat, a: nat, b: nat)
    ensures n in Range(a, b) <==> a < n <= b
  {
    if a < n <= b {
      assert Range(a, b)[n - a - 1] == n;
    }
  }

  lemma EndOfRange(file: seq<nat>, a: nat, b: nat)
    ensures FileEnd(file + Range(a, b)) == if a < b then b else FileEnd(file)
  {
    if a >= b {
      assert file + Range(a, b) == file;
    }
  }

  lemma ShapeKept(log: Log, e: Event)
    requires Shape(log) && Filed(log) && Enabled(log, e) && (e.Begin? ==> log.snaps == map[])
    ensures Shape(Step(log, e))
  {
    match e {
      case Append(f) =>
        EndOfRange(log.file, From(log.snaps[f]), log.snaps[f].hi);
        assert f in Step(log, e).snaps;
      case End(f) =>
        assert Step(log, e).snaps == map[];
      case GiveUp(f) =>
        assert Step(log, e).snaps == map[];
      case _ =>
    }
  }

  lemma EndIsLast(log: Log)
    requires Filed(log)
    ensures FileEnd(log.file) <= log.last
    ensures forall n :: n in log.file ==> n <= FileEnd(log.file)
  {
    if log.file != [] {
      assert log.file[|log.file| - 1] in log.file;
    }
  }

  lemma AppendFiled(log: Log, f: nat)
    requires Shape(log) && Filed(log) && Enabled(log, Append(f))
    ensures Filed(Step(log, Append(f)))
  {
    var s, next := log.snaps[f], Step(log, Append(f));
    AppendKeepsOrderIff(log, f);
    EndOfRange(log.file, From(s), s.hi);
    forall n: nat
      ensures n in next.file <==> n in log.file || From(s) < n <= s.hi
    {
      InRange(n, From(s), s.hi);
    }
  }

  lemma FiledKept(log: Log, e: Event)
    requires Shape(log) && Filed(log) && Enabled(log, e)
    ensures Filed(Step(log, e))
  {
    EndIsLast(log);
    if e.Append? {
      AppendFiled(log, e.f);
    }
  }

  /** Nothing becomes safe except the entry that is being written. */
  lemma SafeBefore(log: Log, e: Event, n: nat)
    requires Shape(log) && Enabled(log, e) && Safe(Step(log, e), n)
    ensures Safe(log, n) || (e == Write && n == log.last + 1)
  {
    var next := Step(log, e);
    if e.Append? {
      InRange(n, From(log.snaps[e.f]), log.snaps[e.f].hi);
    }
    if Pending(next, n) {
      var g :| g in next.snaps && !next.snaps[g].stored && From(next.snaps[g]) < n <= next.snaps[g].hi;
      if e.Begin? && g == e.f {
        assert InRing(log, n);
      } else {
        assert log.snaps[g] == next.snaps[g];
      }
    }
  }

  lemma OnlyWritten(log: Log, n: nat)
    requires Shape(log) && Filed(log) && Safe(log, n)
    ensures 1 <= n <= log.last
  {
  }

  lemma StepKept(log: Log, e: Event)
    requires Inv(log) && Enabled(log, e) && (e.Begin? ==> log.snaps == map[])
    ensures Inv(Step(log, e))
  {
    ShapeKept(log, e);
    FiledKept(log, e);
    var next := Step(log, e);
    forall n: nat
      ensures Accounted(next, n)
    {
      assert Accounted(log, n);
      if Safe(next, n) {
        SafeBefore(log, e, n);
        OnlyWritten(next, n);
      } else if Safe(log, n) {
        OnlyWritten(log, n);
      }
    }
  }

  lemma {:induction false} AfterInv(log: Log, events: seq<Event>)
    requires Inv(log) && Run(log, events) && OneAtATime(log, events)
    ensures Inv(After(log, events))
    decreases |events|
  {
    if events != [] {
      StepKept(log, events[0]);
      AfterInv(Step(log, events[0]), events[1..]);
    }
  }

  /** A number that the file has passed without containing it is lost. */
  lemma PassedIsLost(log: Log, n: nat)
    requires Inv(log)
    ensures 1 <= n <= FileEnd(log.file) && n !in log.file ==> n in log.lost
    ensures n in log.lost ==> n !in log.file && !InRing(log, n)
  {
    EndIsLast(log);
    assert Accounted(log, n);
    if Pending(log, n) {
      assert n > FileEnd(log.file);
    }
  }

  /** With one flush at a time, over every run: the numbers in the file strictly increase, and a number
      that the file has passed without containing it is lost. */
  lemma FileMissesOnlyLost(events: seq<Event>, n: nat)
    requires Run(Empty, events) && OneAtATime(Empty, events)
    ensures var log := After(Empty, events);
      && Increasing(log.file)
      && (1 <= n <= FileEnd(log.file) && n !in log.file ==> n in log.lost)
      && (n in log.lost ==> n !in log.file && !InRing(log, n))
  {
    AfterInv(Empty, events);
    PassedIsLost(After(Empty, events), n);
  }

  lemma PendingNext(log: Log, e: Event, n: nat)
    requires Enabled(log, e) && Pending(log, n)
    ensures || Pending(Step(log, e), n) || n in Step(log, e).file
            || (e.GiveUp? && From(log.snaps[e.f]) < n <= log.snaps[e.f].hi)
  {
    var g :| g in log.snaps && !log.snaps[g].stored && From(log.snaps[g]) < n <= log.snaps[g].hi;
    var next := Step(log, e);
    if e == Append(g) {
      InRange(n, From(log.snaps[g]), log.snaps[g].hi);
    } else if e != GiveUp(g) {
      assert g in next.snaps && next.snaps[g] == log.snaps[g];
    }
  }

  /** And a number is only ever lost by being overwritten in a full ring, by a clear, or by leaving the
      ring that way during a flush that then could not open the file. */
  lemma HowNumbersGetLost(log: Log, e: Event, n: nat)
    requires Inv(log) && Enabled(log, e) && n in Step(log, e).lost && n !in log.lost
    ensures n !in log.file
    ensures match e
      case Write => log.count == SIZE && n == log.last - SIZE + 1
      case Clear => InRing(log, n)
      case GiveUp(f) => From(log.snaps[f]) < n <= log.snaps[f].hi && !InRing(log, n)
      case _ => false
  {
    if Pending(log, n) {
      PendingNext(log, e, n);
    }
  }
}
