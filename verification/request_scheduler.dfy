/** The scheduler object itself: its list of contexts, its position and its methods. */
module RequestScheduler {
  import opened Wrappers
  import opened BlockSystem
  import opened BlockAccounts
  import opened BlockProgress
  import opened BlockFairness
  import BlockRuns

  class Scheduler {
    var clients: seq<Context>
    var added: nat
    var next: nat
    var trigger: bool
    ghost var loop: Option<Loop>
    ghost var visits: seq<Visit>
    ghost var books: Books

    ghost function Abs(): Sys
      reads this
    {
      Sys(clients, added, next, trigger, loop, visits, books)
    }

    constructor ()
      ensures Abs() == Initial
    {
      clients, added, next, trigger := [], 0, 0, false;
      loop, visits, books := None, [], Initial.books;
    }

    method AddClient(domain: nat, weight: nat)
      modifies this
      ensures Abs() == AddStep(old(Abs()), domain, weight)
    {
      clients := clients + [Context(added, domain, weight, [], false, Running, [], 0, None, false, 0)];
      added := added + 1;
      next := |clients|;
    }

    /** The position of a client in the list; clients have distinct identities. */
    method Find(id: nat) returns (i: nat)
      requires exists k :: 0 <= k < |clients| && clients[k].id == id
      ensures i < |clients| && clients[i].id == id
      ensures forall k :: 0 <= k < i ==> clients[k].id != id
    {
      i := 0;
      while clients[i].id != id
        invariant i < |clients| && forall k :: 0 <= k < i ==> clients[k].id != id
        decreases |clients| - i
      {
        i := i + 1;
      }
    }

    method RemoveClient(id: nat)
      requires Valid(Abs()) && exists k :: 0 <= k < |clients| && clients[k].id == id
      modifies this
      ensures exists i :: 0 <= i < |old(clients)| && old(clients)[i].id == id && Abs() == RemoveStep(old(Abs()), i)
    {
      var i := Find(id);
      books := books.(abandoned := books.abandoned + clients[i].queue);
      clients := clients[..i] + clients[i + 1..];
      next := |clients|;
    }

    /** Act upon a notification domain becoming not busy. */
    method ClientIdle(domain: nat)
      modifies this
      ensures Abs() == Idle(old(Abs()), domain)
    {
      var resched, i := false, 0;
      ghost var was := clients;
      while i < |clients|
        invariant 0 <= i <= |clients| == |was|
        invariant forall j :: 0 <= j < i ==> clients[j] == Freed(was[j], domain)
        invariant forall j :: i <= j < |was| ==> clients[j] == was[j]
        invariant resched <==> exists j :: 0 <= j < i && was[j].busy && was[j].domain == domain
        invariant added == old(added) && next == old(next) && trigger == old(trigger)
        invariant loop == old(loop) && visits == old(visits) && books == old(books)
      {
        if clients[i].busy && clients[i].domain == domain {
          clients := clients[i := clients[i].(busy := false)];
          resched := true;
        }
        i := i + 1;
      }
      if resched {
        trigger := true;
      }
    }

    /** Invalidate the state kept for a client. */
    method ClientInvalidate(id: nat, fail: bool)
      requires Valid(Abs()) && exists k :: 0 <= k < |clients| && clients[k].id == id
      modifies this
      ensures exists i :: 0 <= i < |old(clients)| && old(clients)[i].id == id
                && var (c, b) := Invalidate(old(clients)[i], old(books), fail); Abs() == Put(old(Abs()), i, c, b)
    {
      var i := Find(id);
      var c := clients[i];
      if c.pending.Some? {
        books := if fail then Finalize(books, c.pending.value) else Drop(books, c.pending.value);
        books := Destroy(books, c.pending.value);
      }
      clients := clients[i := c.(busy := false, cost := 0, pending := None)];
    }

    /** The completion callback of the request at position `k` of what the device holds for client `i`. */
    method TaskFinished(i: nat, k: nat)
      requires i < |clients| && k < |clients[i].flight|
      modifies this
      ensures Abs() == CompleteAt(old(Abs()), i, k)
    {
      var c := clients[i];
      var r := c.flight[k];
      clients := clients[i := c.(flight := c.flight[..k] + c.flight[k + 1..], inFlight := Decrement(c.inFlight))];
      books := if c.state == ClientGone then Drop(books, r) else Finalize(books, r);
      books := Destroy(books, r);
      assert Abs() == Put(old(Abs()), i, Without(c, k), Settle(old(books), c, r));
      ClientIdle(c.domain);
    }

    /** The earlier requests the device finishes while a submit call is running. */
    method DeviceFinishes(done: seq<(nat, nat)>)
      modifies this
      ensures Abs() == CompleteAll(old(Abs()), done)
    {
      var n := 0;
      ghost var s := Abs();
      while n < |done|
        invariant 0 <= n <= |done|
        invariant CompleteAll(Abs(), done[n..]) == CompleteAll(s, done)
      {
        assert done[n..][1..] == done[n + 1..];
        if done[n].0 < |clients| && done[n].1 < |clients[done[n].0].flight| {
          TaskFinished(done[n].0, done[n].1);
        }
        n := n + 1;
      }
    }

    /** Submit the pending request of client `i`; false only if it has to stay pending. */
    method HandlePending(i: nat, a: Answer) returns (progress: bool)
      requires i < |clients| && clients[i].pending.Some?
      modifies this
      ensures (Abs(), progress) == BlockSystem.HandlePending(old(Abs()), i, a)
    {
      var cost := clients[i].pending.value.cost;
      if clients[i].cost + cost > clients[i].weight {
        clients := clients[i := clients[i].(cost := clients[i].weight)];
        return true;
      }
      CompleteAllFrame(Abs(), a.done);
      DeviceFinishes(a.done);
      progress := Submit(i, a.verdict);
    }

    /** What the device's answer means for the pending request and its client. */
    method TakeAnswer(i: nat, verdict: Verdict)
      requires i < |clients| && clients[i].pending.Some?
      modifies this`clients, this`books
      ensures var (c, b) := Reply(old(clients)[i], old(books), verdict); Abs() == Put(old(Abs()), i, c, b)
    {
      var c := clients[i];
      var r := c.pending.value;
      if verdict.Busy? {
        clients := clients[i := c.(busy := true)];
        return;
      }
      var c' := c.(pending := None, cost := c.cost + r.cost);
      if verdict.Fail? {
        clients := clients[i := c'];
        books := Destroy(Finalize(books, r), r);
      } else if verdict.Accept? {
        clients := clients[i := c'.(flight := c.flight + [r], inFlight := Increment(c.inFlight))];
      } else {
        clients := clients[i := c'.(inFlight := Increment(Decrement(c.inFlight)))];
        books := Settle(books, c, r);
      }
    }

    method Submit(i: nat, verdict: Verdict) returns (progress: bool)
      requires i < |clients| && clients[i].pending.Some?
      modifies this
      ensures (Abs(), progress) == Respond(old(Abs()), i, verdict)
    {
      var domain, r := clients[i].domain, clients[i].pending.value;
      TakeAnswer(i, verdict);
      if verdict.Busy? {
        return false;
      }
      if verdict.AcceptDone? {
        ClientIdle(domain);
      }
      visits := Sent(Abs(), r).visits;
      return true;
    }

    /** Schedule one client; true if it made progress and should be looked at again. */
    method ScheduleClient(i: nat, a: Answer) returns (progress: bool)
      requires i < |clients|
      modifies this
      ensures (Abs(), progress) == BlockSystem.ScheduleClient(old(Abs()), i, a)
    {
      var c := clients[i];
      if c.pending.Some? {
        if c.busy { return false; }
        progress := HandlePending(i, a);
        return progress;
      }
      if !HasNew(c) { return false; }
      StartRequest(i);
      if clients[i].pending.Some? {
        progress := HandlePending(i, a);
      } else {
        progress := !c.queue[0].shape.Malformed?;
      }
    }

    /** Take the next request from the queue of client `i` and fail it or make it pending. */
    method StartRequest(i: nat)
      requires i < |clients| && HasNew(clients[i]) && clients[i].pending.None?
      modifies this`clients, this`books
      ensures var (c, b) := Start(old(clients)[i], old(books)); Abs() == Put(old(Abs()), i, c, b)
    {
      var c := clients[i];
      var r := c.queue[0];
      c := c.(queue := c.queue[1..]);
      if r.shape.Malformed? {
        c := c.(live := false);
        books := books.(abandoned := books.abandoned + [r]);
      } else if c.state != Running {
        books := Finalize(books, r);
      } else {
        books := books.(mapped := books.mapped + Held(r.maps));
        if r.shape.Rejected? {
          books := Destroy(Finalize(books, r), r);
        } else {
          c := c.(pending := Some(r));
        }
      }
      clients := clients[i := c];
    }

    /** Pass the turn to the next client, which starts with nothing charged. */
    method NextClient()
      requires next < |clients|
      modifies this`clients, this`next
      ensures Abs() == PassTurn(old(Abs()))
    {
      next := if next + 1 == |clients| then 0 else next + 1;
      clients := clients[next := clients[next].(cost := 0)];
    }

    /** Decide whose turn it is next and whether the loop of `Schedule` goes on. */
    method Onwards(start: nat, recheck: bool, progress: bool) returns (more: bool, recheck': bool)
      requires loop == Some(Loop(start, recheck)) && next < |clients|
      modifies this`clients, this`next, this`loop, this`visits
      ensures Abs() == Advance(old(Abs()), progress)
      ensures more == loop.Some? && (more ==> loop.value == Loop(start, recheck'))
    {
      var move := !progress || clients[next].cost >= clients[next].weight;
      if move {
        NextClient();
      }
      recheck' := recheck || progress;
      if next == start && !recheck' {
        next := next + 1;
        loop := None;
        more := false;
      } else {
        if next == start { recheck' := false; }
        loop := Some(Loop(start, recheck'));
        visits := if move then visits + [Visit(next, [])] else visits;
        more := true;
      }
    }

    /** One pass through the loop of `Schedule`; `more` tells whether another one follows. */
    method Pass(start: nat, recheck: bool, a: Answer) returns (more: bool, recheck': bool)
      requires loop == Some(Loop(start, recheck)) && next < |clients|
      modifies this
      ensures Abs() == IterateStep(old(Abs()), a)
      ensures more == loop.Some? && (more ==> loop.value == Loop(start, recheck'))
    {
      ScheduleClientFrame(Abs(), next, a);
      var progress := ScheduleClient(next, a);
      more, recheck' := Onwards(start, recheck, progress);
    }

    /** Forget the trigger and start with the next client, if there is one. */
    method Enter() returns (start: nat)
      requires loop.None? && trigger
      modifies this
      ensures Abs() == BeginStep(old(Abs())) && !trigger
      ensures clients != [] ==> loop == Some(Loop(start, false))
      ensures clients == [] ==> loop.None?
    {
      trigger := false;
      if clients == [] {
        return 0;
      }
      if next >= |clients| {
        next := 0;
      }
      start := next;
      clients := clients[next := clients[next].(cost := 0)];
      loop, visits := Some(Loop(start, false)), [Visit(start, [])];
    }

    /** One scheduling step, run against a device that answers `device(k)` in pass `k`: it ends, takes
        only steps of the system, and leaves every client quiet after fair turns. */
    method Schedule(device: nat -> Answer) returns (ghost passes: seq<Event>)
      requires Valid(Abs()) && AffordableAll(Abs()) && loop.None? && trigger
      modifies this
      ensures Valid(Abs()) && loop.None? && QuietAll(Abs())
      ensures DuringSchedule(passes)
      ensures Run(BeginStep(old(Abs())), passes) && Abs() == After(BeginStep(old(Abs())), passes)
      ensures clients != [] ==> Fair(Abs())
    {
      passes := [];
      Begun(Abs());
      var start := Enter();
      if clients == [] {
        return;
      }
      var recheck, k, more := false, 0, true;
      ghost var s0, now := Abs(), Abs();
      while more
        invariant now == Abs() && Between(s0, passes, now) && clients != []
        invariant more == loop.Some? && (more ==> loop.value == Loop(start, recheck))
        decreases Measure(now)
      {
        Continue(s0, passes, now, device(k));
        more, recheck := Pass(start, recheck, device(k));
        passes, now := passes + [Iterate(device(k))], IterateStep(now, device(k));
        k := k + 1;
      }
    }
  }

  /** What holds between two passes. */
  ghost predicate Between(s0: Sys, passes: seq<Event>, s: Sys) {
    && Valid(s) && AffordableAll(s) && LapQuiet(s) && Fair(s) && s.clients != []
    && (s.loop.None? ==> QuietAll(s))
    && DuringSchedule(passes) && Run(s0, passes) && s == After(s0, passes)
  }

  lemma Continue(s0: Sys, passes: seq<Event>, s: Sys, a: Answer)
    requires Between(s0, passes, s) && s.loop.Some?
    ensures Between(s0, passes + [Iterate(a)], IterateStep(s, a)) && Measure(IterateStep(s, a)) < Measure(s)
  {
    BlockRuns.RunSnoc(s0, passes, Iterate(a));
    IterateDecreases(s, a);
    IterateAffordable(s, a);
    IterateQuiet(s, a);
    IterateFair(s, a);
    IterateValid(s, a);
  }

  /** What holds when the loop is entered. */
  lemma Begun(s: Sys)
    requires Valid(s) && AffordableAll(s) && Enabled(s, Begin)
    ensures var t := BeginStep(s);
      && Valid(t) && AffordableAll(t) && LapQuiet(t) && (t.clients == [] ==> QuietAll(t))
      && (t.clients != [] ==> Fair(t) && t.loop.Some?)
  {
    StepValid(s, Begin);
    BeginAffordable(s);
    if s.clients != [] {
      BeginIsFair(s);
    }
  }
}
