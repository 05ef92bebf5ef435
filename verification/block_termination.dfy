/** Exactly when a call of `schedule()` ends: a client that can never pay for a request keeps it going, unless
    it waits for a device that cannot become free during the call. */
module BlockTermination {
  import opened Wrappers
  import opened BlockSystem
  import opened BlockAccounts
  import opened BlockProgress
  import BlockRuns

  // ---------------------------------------------------------------- clients yet to be looked at

  /** The loop cannot end before client `i` has been looked at, for the first time or again. */
  predicate Unpassed(s: Sys, i: nat) {
    && s.loop.Some? && LoopValid(s) && i < |s.clients|
    && (InLap(s.loop.value.start, s.next, i) ==> s.loop.value.recheck)
  }

  lemma AdvanceUnpassed(s: Sys, progress: bool, i: nat)
    requires Unpassed(s, i) && (i == s.next ==> progress)
    ensures Unpassed(Advance(s, progress), i)
  {
  }

  /** After any progress every client is looked at again. */
  lemma ProgressUnpassed(s: Sys, i: nat)
    requires s.loop.Some? && LoopValid(s) && i < |s.clients|
    ensures Unpassed(Advance(s, true), i)
  {
  }

  /** Passing the turn changes a charged cost at most. */
  predicate SameButCost(s: Sys, s': Sys) {
    |s'.clients| == |s.clients|
    && forall j :: 0 <= j < |s.clients| ==> s'.clients[j] == s.clients[j].(cost := s'.clients[j].cost)
  }

  lemma AdvanceSame(s: Sys, progress: bool)
    requires s.loop.Some? && LoopValid(s)
    ensures SameButCost(s, Advance(s, progress)) && Advance(s, progress).trigger == s.trigger
  {
  }

  function PassesOf(answers: seq<Answer>): (es: seq<Event>)
    ensures |es| == |answers| && forall k :: 0 <= k < |answers| ==> es[k] == Iterate(answers[k])
  {
    if answers == [] then [] else [Iterate(answers[0])] + PassesOf(answers[1..])
  }

  // ---------------------------------------------------------------- a request too dear for its client

  predicate Oversized(s: Sys, i: nat) {
    Unpassed(s, i) && Dear(s.clients[i]) && !s.clients[i].busy
  }

  lemma OversizedStays(s: Sys, i: nat, a: Answer)
    requires Oversized(s, i)
    ensures Oversized(IterateStep(s, a), i)
  {
    ScheduleClientFrame(s, s.next, a);
    var (s1, progress) := ScheduleClient(s, s.next, a);
    if s.next != i { assert Kept(s.clients[i], s1.clients[i], s1.trigger); }
    AdvanceUnpassed(s1, progress, i);
    AdvanceSame(s1, progress);
  }

  /** The converse of termination: with one pending request dearer than its client's weight the
      scheduler never returns, whatever the device answers. */
  lemma {:induction false} OversizedNeverEnds(s: Sys, i: nat, answers: seq<Answer>)
    requires Oversized(s, i)
    ensures Run(s, PassesOf(answers))
    decreases |answers|
  {
    if answers != [] {
      assert PassesOf(answers)[1..] == PassesOf(answers[1..]);
      OversizedStays(s, i, answers[0]);
      OversizedNeverEnds(IterateStep(s, answers[0]), i, answers[1..]);
    }
  }

  // ---------------------------------------------------------------- a dear request still in the queue

  /** The client has or will come to a request that it can never pay for. */
  predicate Unpayable(c: Context, k: nat) { Dear(c) || DearAt(c, k) }

  ghost predicate Broke(c: Context) { exists k: nat :: Unpayable(c, k) }

  lemma BrokeIff(c: Context)
    ensures Broke(c) <==> !Affordable(c)
  {
    if Dear(c) { assert Unpayable(c, 0); }
    if k: nat :| Unpayable(c, k) && !Dear(c) { assert k < |c.queue| && DearAt(c, k); }
    if k :| 0 <= k < |c.queue| && DearAt(c, k) { assert Unpayable(c, k); }
  }

  lemma SameBroke(c: Context, c': Context)
    requires Broke(c) && c'.queue == c.queue && c'.weight == c.weight && c'.live == c.live && c'.state == c.state
    requires c'.pending == c.pending || !Dear(c)
    ensures Broke(c')
  {
    var k: nat :| Unpayable(c, k);
    assert Unpayable(c', k);
  }

  lemma ReplyServed(c: Context, b: Books, verdict: Verdict)
    requires c.pending.Some? && !verdict.Busy?
    ensures Reply(c, b, verdict).0.busy == c.busy
  {
  }

  lemma RespondServed(s: Sys, i: nat, verdict: Verdict)
    requires i < |s.clients| && s.clients[i].pending.Some? && !verdict.Busy? && !s.clients[i].busy
    ensures |Respond(s, i, verdict).0.clients| == |s.clients| && !Respond(s, i, verdict).0.clients[i].busy
  {
    ReplyServed(s.clients[i], s.books, verdict);
    var (c', b') := Reply(s.clients[i], s.books, verdict);
    IdleFrame(Put(s, i, c', b'), s.clients[i].domain);
  }

  /** A client that is served stays so, and what it cannot pay for stays with it. */
  lemma HandlePendingBroke(s: Sys, i: nat, a: Answer)
    requires i < |s.clients| && s.clients[i].pending.Some? && !s.clients[i].busy && Broke(s.clients[i])
    requires !a.verdict.Busy?
    ensures var (s', progress) := HandlePending(s, i, a);
            progress && |s'.clients| == |s.clients| && !s'.clients[i].busy && Broke(s'.clients[i])
  {
    var c := s.clients[i];
    if Preempts(c) {
      SameBroke(c, c.(cost := c.weight));
    } else {
      CompleteAllFrame(s, a.done);
      var s1 := CompleteAll(s, a.done);
      assert Kept(c, s1.clients[i], s1.trigger);
      RespondOwn(s1, i, a.verdict);
      RespondServed(s1, i, a.verdict);
      SameBroke(c, Respond(s1, i, a.verdict).0.clients[i]);
    }
  }

  lemma StartBroke(c: Context, b: Books)
    requires HasNew(c) && c.pending.None? && Broke(c)
    ensures var c' := Start(c, b).0; Broke(c') && c'.busy == c.busy && !c.queue[0].shape.Malformed?
  {
    var k: nat :| Unpayable(c, k);
    assert Unpayable(Start(c, b).0, if k == 0 then 0 else k - 1);
  }

  lemma ScheduleClientBroke(s: Sys, i: nat, a: Answer)
    requires i < |s.clients| && !s.clients[i].busy && Broke(s.clients[i]) && !a.verdict.Busy?
    ensures var (s', progress) := ScheduleClient(s, i, a);
            progress && |s'.clients| == |s.clients| && !s'.clients[i].busy && Broke(s'.clients[i])
  {
    var c := s.clients[i];
    if c.pending.Some? {
      HandlePendingBroke(s, i, a);
    } else {
      StartBroke(c, s.books);
      var (c', b') := Start(c, s.books);
      if c'.pending.Some? { HandlePendingBroke(Put(s, i, c', b'), i, a); }
    }
  }

  /** The client is served, cannot pay, and is yet to be looked at. */
  ghost predicate Doomed(s: Sys, i: nat) { Unpassed(s, i) && !s.clients[i].busy && Broke(s.clients[i]) }

  lemma IterateDoomed(s: Sys, i: nat, a: Answer)
    requires Doomed(s, i) && !a.verdict.Busy?
    ensures Doomed(IterateStep(s, a), i)
  {
    ScheduleClientFrame(s, s.next, a);
    var (s1, progress) := ScheduleClient(s, s.next, a);
    if s.next == i {
      ScheduleClientBroke(s, i, a);
    } else {
      assert Kept(s.clients[i], s1.clients[i], s1.trigger);
      SameBroke(s.clients[i], s1.clients[i]);
    }
    AdvanceUnpassed(s1, progress, i);
    AdvanceSame(s1, progress);
    SameBroke(s1.clients[i], Advance(s1, progress).clients[i]);
  }

  /** With a request that its client cannot pay for anywhere in a queue that is being served, a device that
      never answers busy keeps the scheduler going for ever, whatever else it answers. */
  lemma {:induction false} DearRequestNeverEnds(s: Sys, i: nat, answers: seq<Answer>)
    requires Doomed(s, i) && forall k :: 0 <= k < |answers| ==> !answers[k].verdict.Busy?
    ensures Run(s, PassesOf(answers))
    decreases |answers|
  {
    if answers != [] {
      assert PassesOf(answers)[1..] == PassesOf(answers[1..]);
      IterateDoomed(s, i, answers[0]);
      DearRequestNeverEnds(IterateStep(s, answers[0]), i, answers[1..]);
    }
  }

  // ---------------------------------------------------------------- turns without a request for the device

  /** The client has a request that it will hand to the device when its turn comes and it can pay. */
  ghost predicate Active(c: Context) { !c.busy && (c.pending.Some? || exists k: nat :: Startable(c, k)) }

  /** Client `x` hands nothing to the device: all others stay as they are. */
  predicate Unsubmitted(s: Sys, s': Sys, x: nat)
    requires x < |s.clients|
  {
    && |s'.clients| == |s.clients|
    && (forall y :: 0 <= y < |s.clients| && y != x ==> s'.clients[y] == s.clients[y])
    && var c, c' := s.clients[x], s'.clients[x];
    && c'.busy == c.busy && c'.flight == c.flight && c'.domain == c.domain
  }

  lemma StartActive(c: Context, b: Books)
    requires HasNew(c) && c.pending.None? && !c.busy
    ensures var c' := Start(c, b).0;
      && (Active(c') <==> Active(c)) && (c'.pending.Some? ==> Active(c))
      && (Active(c) ==> !c.queue[0].shape.Malformed?)
      && c'.busy == c.busy && c'.flight == c.flight && c'.domain == c.domain
  {
    var c' := Start(c, b).0;
    if Active(c) {
      var k: nat :| Startable(c, k);
      if k > 0 && c'.pending.None? { assert Startable(c', k - 1); }
    }
    if c'.pending.Some? { assert Startable(c, 0); }
    if k: nat :| Startable(c', k) { assert Startable(c, k + 1); }
  }

  lemma InactiveTurn(s: Sys, x: nat, a: Answer)
    requires x < |s.clients| && !Active(s.clients[x]) && (s.clients[x].busy ==> s.clients[x].pending.Some?)
    ensures var s' := ScheduleClient(s, x, a).0; Unsubmitted(s, s', x) && !Active(s'.clients[x])
  {
    var c := s.clients[x];
    if c.pending.None? && HasNew(c) { StartActive(c, s.books); }
  }

  // ---------------------------------------------------------------- domains that cannot become free

  /** During the call the device may get the chance to clear the busy marks of domain `d`: somebody has a
      request for it, and it is of that domain or the device holds one that is. */
  ghost predicate Freeable(s: Sys, d: nat) {
    exists i :: 0 <= i < |s.clients| && Active(s.clients[i])
                && (s.clients[i].domain == d || Occupied(s.clients, d))
  }

  /** Every client can pay for all it has and will come to, or it waits for a device that cannot become
      free during the call. */
  ghost predicate Payable(s: Sys) {
    forall j :: 0 <= j < |s.clients| ==>
      Affordable(s.clients[j]) || (s.clients[j].busy && !Freeable(s, s.clients[j].domain))
  }

  predicate SameDomain(s: Sys, s': Sys, d: nat) {
    && |s'.clients| == |s.clients|
    && forall y :: 0 <= y < |s.clients| ==>
         (s'.clients[y].domain == s.clients[y].domain) && (s.clients[y].domain == d ==> s'.clients[y] == s.clients[y])
  }

  lemma CompleteSpares(s: Sys, i: nat, k: nat, d: nat)
    requires !Occupied(s.clients, d)
    ensures SameDomain(s, CompleteAt(s, i, k), d)
  {
    if i < |s.clients| && k < |s.clients[i].flight| {
      var c := s.clients[i];
      assert c.domain != d;
      var s1 := Put(s, i, Without(c, k), Settle(s.books, c, c.flight[k]));
      forall y | 0 <= y < |s.clients|
        ensures CompleteAt(s, i, k).clients[y].domain == s.clients[y].domain
        ensures s.clients[y].domain == d ==> CompleteAt(s, i, k).clients[y] == s.clients[y]
      {
        assert CompleteAt(s, i, k).clients[y] == Freed(s1.clients[y], c.domain);
      }
    }
  }

  lemma SpareNext(s: Sys, s1: Sys, s2: Sys, d: nat)
    requires SameDomain(s, s1, d) && SameDomain(s1, s2, d)
    ensures SameDomain(s, s2, d)
  {
  }

  lemma StillUnoccupied(s: Sys, s': Sys, d: nat)
    requires SameDomain(s, s', d) && !Occupied(s.clients, d)
    ensures !Occupied(s'.clients, d)
  {
  }

  lemma {:induction false} CompleteAllSpares(s: Sys, done: seq<(nat, nat)>, d: nat)
    requires !Occupied(s.clients, d)
    ensures SameDomain(s, CompleteAll(s, done), d)
    decreases |done|
  {
    if done != [] {
      var s1 := CompleteAt(s, done[0].0, done[0].1);
      CompleteSpares(s, done[0].0, done[0].1, d);
      StillUnoccupied(s, s1, d);
      CompleteAllSpares(s1, done[1..], d);
      SpareNext(s, s1, CompleteAll(s, done), d);
    }
  }

  lemma ReplyDomain(c: Context, b: Books, verdict: Verdict)
    requires c.pending.Some?
    ensures Reply(c, b, verdict).0.domain == c.domain
  {
  }

  lemma RespondSpares(s: Sys, x: nat, verdict: Verdict, d: nat)
    requires x < |s.clients| && s.clients[x].pending.Some? && s.clients[x].domain != d
    ensures SameDomain(s, Respond(s, x, verdict).0, d)
  {
    var (c', b') := Reply(s.clients[x], s.books, verdict);
    ReplyDomain(s.clients[x], s.books, verdict);
    var s1 := Put(s, x, c', b');
    assert SameDomain(s, s1, d);
    assert SameDomain(s1, Idle(s1, s.clients[x].domain), d) by {
      forall y | 0 <= y < |s1.clients|
        ensures Idle(s1, s.clients[x].domain).clients[y] == Freed(s1.clients[y], s.clients[x].domain)
      {
      }
    }
    SpareNext(s, s1, Idle(s1, s.clients[x].domain), d);
  }

  lemma HandlePendingSpares(s: Sys, x: nat, a: Answer, d: nat)
    requires x < |s.clients| && s.clients[x].pending.Some? && s.clients[x].domain != d && !Occupied(s.clients, d)
    ensures SameDomain(s, HandlePending(s, x, a).0, d)
  {
    if !Preempts(s.clients[x]) {
      CompleteAllFrame(s, a.done);
      CompleteAllSpares(s, a.done, d);
      var s1 := CompleteAll(s, a.done);
      assert Kept(s.clients[x], s1.clients[x], s1.trigger);
      RespondSpares(s1, x, a.verdict, d);
      SpareNext(s, s1, Respond(s1, x, a.verdict).0, d);
    }
  }

  lemma ScheduleClientSpares(s: Sys, x: nat, a: Answer, d: nat)
    requires x < |s.clients| && s.clients[x].domain != d && !Occupied(s.clients, d)
    ensures SameDomain(s, ScheduleClient(s, x, a).0, d)
  {
    var c := s.clients[x];
    if c.pending.Some? {
      if !c.busy { HandlePendingSpares(s, x, a, d); }
    } else if HasNew(c) {
      var (c', b') := Start(c, s.books);
      assert c'.domain == c.domain && c'.flight == c.flight;
      var s1 := Put(s, x, c', b');
      assert SameDomain(s, s1, d);
      StillUnoccupied(s, s1, d);
      if c'.pending.Some? {
        HandlePendingSpares(s1, x, a, d);
        SpareNext(s, s1, HandlePending(s1, x, a).0, d);
      }
    }
  }

  /** A domain that cannot become free does not, and still cannot, whatever the device answers. */
  lemma StaysUnfreeable(s: Sys, a: Answer, j: nat)
    requires Valid(s) && s.next < |s.clients| && j < |s.clients|
    requires s.clients[j].busy && !Freeable(s, s.clients[j].domain)
    ensures var s' := ScheduleClient(s, s.next, a).0;
      |s'.clients| == |s.clients| && s'.clients[j] == s.clients[j] && !Freeable(s', s.clients[j].domain)
  {
    var x, d := s.next, s.clients[j].domain;
    var s' := ScheduleClient(s, x, a).0;
    assert ContextValid(s.clients[x]) && ContextValid(s.clients[j]);
    if Active(s.clients[x]) {
      ScheduleClientSpares(s, x, a, d);
      StillUnoccupied(s, s', d);
      assert !Freeable(s', d);
    } else {
      InactiveTurn(s, x, a);
      if Freeable(s', d) { UnsubmittedFreeable(s, s', x, d); }
    }
  }

  lemma UnsubmittedFreeable(s: Sys, s': Sys, x: nat, d: nat)
    requires x < |s.clients| && Unsubmitted(s, s', x) && !Active(s'.clients[x]) && Freeable(s', d)
    ensures Freeable(s, d)
  {
    var i :| 0 <= i < |s'.clients| && Active(s'.clients[i]) && (s'.clients[i].domain == d || Occupied(s'.clients, d));
    assert s'.clients[i] == s.clients[i];
    if Occupied(s'.clients, d) {
      var w :| 0 <= w < |s'.clients| && s'.clients[w].domain == d && s'.clients[w].flight != [];
      assert s.clients[w].domain == d && s.clients[w].flight != [];
    }
  }

  lemma SameActive(c: Context, c': Context)
    requires c' == c.(cost := c'.cost)
    ensures (Active(c') <==> Active(c)) && (Affordable(c') <==> Affordable(c))
  {
    if k: nat :| Startable(c, k) { assert Startable(c', k); }
    if k: nat :| Startable(c', k) { assert Startable(c, k); }
    if Affordable(c) { SameAffordable(c, c'); }
    if Affordable(c') { SameAffordable(c', c); }
  }

  lemma FreeableSame(s: Sys, s': Sys, d: nat)
    requires SameButCost(s, s') && Freeable(s, d)
    ensures Freeable(s', d)
  {
    var i :| 0 <= i < |s.clients| && Active(s.clients[i]) && (s.clients[i].domain == d || Occupied(s.clients, d));
    SameActive(s.clients[i], s'.clients[i]);
    if Occupied(s.clients, d) {
      var w :| 0 <= w < |s.clients| && s.clients[w].domain == d && s.clients[w].flight != [];
      assert s'.clients[w].domain == d && s'.clients[w].flight != [];
    }
    assert Active(s'.clients[i]);
  }

  lemma PayableSame(s: Sys, s': Sys)
    requires SameButCost(s, s') && Payable(s)
    ensures Payable(s')
  {
    forall j | 0 <= j < |s'.clients|
      ensures Affordable(s'.clients[j]) || (s'.clients[j].busy && !Freeable(s', s'.clients[j].domain))
    {
      SameActive(s.clients[j], s'.clients[j]);
      if !Affordable(s.clients[j]) && Freeable(s', s'.clients[j].domain) {
        FreeableSame(s', s, s'.clients[j].domain);
      }
    }
  }

  lemma PayableTurn(s: Sys, a: Answer)
    requires Valid(s) && Payable(s) && Enabled(s, Iterate(a))
    ensures Payable(ScheduleClient(s, s.next, a).0)
  {
    ScheduleClientFrame(s, s.next, a);
    var s' := ScheduleClient(s, s.next, a).0;
    forall j | 0 <= j < |s'.clients|
      ensures Affordable(s'.clients[j]) || (s'.clients[j].busy && !Freeable(s', s'.clients[j].domain))
    {
      if !Affordable(s.clients[j]) {
        StaysUnfreeable(s, a, j);
      } else if j == s.next {
        ScheduleClientAffordable(s, j, a);
      } else {
        assert Kept(s.clients[j], s'.clients[j], s'.trigger);
        SameAffordable(s.clients[j], s'.clients[j]);
      }
    }
  }

  lemma PayableStays(s: Sys, a: Answer)
    requires Valid(s) && Payable(s) && Enabled(s, Iterate(a))
    ensures Payable(IterateStep(s, a))
  {
    ScheduleClientFrame(s, s.next, a);
    PayableTurn(s, a);
    var (s1, progress) := ScheduleClient(s, s.next, a);
    AdvanceSame(s1, progress);
    PayableSame(s1, Advance(s1, progress));
  }

  // ---------------------------------------------------------------- a device that frees a waiting client

  /** The answer finishes a request of domain `d`. */
  predicate Completes(s: Sys, a: Answer, d: nat) {
    && |a.done| == 1 && a.done[0].0 < |s.clients| && a.done[0].1 == 0
    && s.clients[a.done[0].0].domain == d && s.clients[a.done[0].0].flight != []
  }

  /** A request was handed to the device by client `x` and answered with `a`: the domain of `x`, and any domain
      that `a` finishes a request of, has no busy mark left. */
  predicate Submitted(s: Sys, s': Sys, a: Answer, x: nat)
    requires x < |s.clients|
  {
    && |s'.clients| == |s.clients|
    && forall y :: 0 <= y < |s.clients| && s'.clients[y].busy ==>
         s.clients[y].domain != s.clients[x].domain && !Completes(s, a, s.clients[y].domain)
  }

  lemma CompletedFrees(s: Sys, a: Answer, y: nat)
    requires y < |s.clients| && Completes(s, a, s.clients[y].domain)
    ensures |CompleteAll(s, a.done).clients| == |s.clients| && !CompleteAll(s, a.done).clients[y].busy
  {
    var i := a.done[0].0;
    var c := s.clients[i];
    assert a.done[1..] == [];
    var s1 := Put(s, i, Without(c, 0), Settle(s.books, c, c.flight[0]));
    assert CompleteAll(s, a.done) == Idle(s1, c.domain);
    assert Idle(s1, c.domain).clients[y] == Freed(s1.clients[y], c.domain);
  }

  lemma RespondFrees(s: Sys, x: nat, y: nat)
    requires x < |s.clients| && s.clients[x].pending.Some? && y < |s.clients|
    ensures
      var s' := Respond(s, x, AcceptDone).0;
      && |s'.clients| == |s.clients|
      && (s'.clients[y].busy ==> s.clients[y].domain != s.clients[x].domain && (y == x || s.clients[y].busy))
  {
    var (c', b') := Reply(s.clients[x], s.books, AcceptDone);
    ReplyDomain(s.clients[x], s.books, AcceptDone);
    var s1 := Put(s, x, c', b');
    assert Idle(s1, s.clients[x].domain).clients[y] == Freed(s1.clients[y], s.clients[x].domain);
  }

  lemma HandlePendingFrees(s: Sys, x: nat, a: Answer)
    requires x < |s.clients| && s.clients[x].pending.Some? && a.verdict.AcceptDone?
    ensures var s' := HandlePending(s, x, a).0;
      if Preempts(s.clients[x]) then s'.clients == s.clients[x := s.clients[x].(cost := s.clients[x].weight)]
      else Submitted(s, s', a, x)
  {
    if !Preempts(s.clients[x]) {
      CompleteAllFrame(s, a.done);
      var s1 := CompleteAll(s, a.done);
      assert Kept(s.clients[x], s1.clients[x], s1.trigger);
      var s' := Respond(s1, x, AcceptDone).0;
      RespondOwn(s1, x, AcceptDone);
      forall y | 0 <= y < |s.clients| && s'.clients[y].busy
        ensures s.clients[y].domain != s.clients[x].domain && !Completes(s, a, s.clients[y].domain)
      {
        assert Kept(s.clients[y], s1.clients[y], s1.trigger);
        RespondFrees(s1, x, y);
        if Completes(s, a, s.clients[y].domain) { CompletedFrees(s, a, y); }
      }
    }
  }

  lemma StartSubmitted(s: Sys, x: nat, c': Context, b': Books, s': Sys, a: Answer)
    requires x < |s.clients| && c'.domain == s.clients[x].domain && c'.flight == s.clients[x].flight
    requires Submitted(Put(s, x, c', b'), s', a, x)
    ensures Submitted(s, s', a, x)
  {
    var s1 := Put(s, x, c', b');
    forall y | 0 <= y < |s.clients| && s'.clients[y].busy
      ensures s.clients[y].domain != s.clients[x].domain && !Completes(s, a, s.clients[y].domain)
    {
      var d := s.clients[y].domain;
      assert s1.clients[y].domain == d && Completes(s, a, d) == Completes(s1, a, d);
    }
  }

  lemma TurnFrees(s: Sys, x: nat, a: Answer)
    requires x < |s.clients| && a.verdict.AcceptDone?
    ensures var (s', progress) := ScheduleClient(s, x, a);
            Unsubmitted(s, s', x) || (progress && Submitted(s, s', a, x))
  {
    var c := s.clients[x];
    if c.pending.Some? {
      if !c.busy { HandlePendingFrees(s, x, a); }
    } else if HasNew(c) {
      var (c', b') := Start(c, s.books);
      assert c'.busy == c.busy && c'.flight == c.flight && c'.domain == c.domain;
      var s1 := Put(s, x, c', b');
      if c'.pending.Some? {
        HandlePendingFrees(s1, x, a);
        if !Preempts(c') { StartSubmitted(s, x, c', b', HandlePending(s1, x, a).0, a); }
      }
    }
  }

  /** The turn of a client that can pay: its request is handed to the device, or still to be. */
  lemma ActiveTurn(s: Sys, x: nat, a: Answer)
    requires x < |s.clients| && Active(s.clients[x]) && a.verdict.AcceptDone?
    ensures var (s', progress) := ScheduleClient(s, x, a);
            progress && (Submitted(s, s', a, x) || (Unsubmitted(s, s', x) && Active(s'.clients[x])))
  {
    var c := s.clients[x];
    if c.pending.Some? {
      HandlePendingFrees(s, x, a);
    } else {
      StartActive(c, s.books);
      var (c', b') := Start(c, s.books);
      var s1 := Put(s, x, c', b');
      if c'.pending.Some? {
        HandlePendingFrees(s1, x, a);
        if !Preempts(c') { StartSubmitted(s, x, c', b', HandlePending(s1, x, a).0, a); }
      }
    }
  }

  /** Client `i` will hand a request to the device, and the answer `a` to it frees domain `d`. */
  ghost predicate Waking(s: Sys, i: nat, d: nat, a: Answer) {
    && Unpassed(s, i) && Active(s.clients[i]) && a.verdict.AcceptDone?
    && (s.clients[i].domain == d || Completes(s, a, d))
  }

  /** Client `j` cannot pay and is served, or will be once client `i` has had its turn. */
  ghost predicate Endless(s: Sys, i: nat, j: nat, a: Answer) {
    && j < |s.clients| && Broke(s.clients[j])
    && if s.clients[j].busy then s.clients[j].pending.Some? && Waking(s, i, s.clients[j].domain, a) else Unpassed(s, j)
  }

  lemma KeptActive(c: Context, c': Context, trigger: bool)
    requires Active(c) && Kept(c, c', trigger)
    ensures Active(c')
  {
    if k: nat :| Startable(c, k) { assert Startable(c', k); }
  }

  /** One turn, before the loop goes on: either `j` has been freed with progress, or all is as before. */
  lemma WakingTurn(s: Sys, i: nat, j: nat, a: Answer)
    requires Endless(s, i, j, a) && s.clients[j].busy
    ensures var (s1, progress) := ScheduleClient(s, s.next, a);
      && |s1.clients| == |s.clients| && Broke(s1.clients[j])
      && if s1.clients[j].busy then
           && s1.clients[j].pending.Some? && Waking(s1, i, s1.clients[j].domain, a)
           && (i == s.next ==> progress)
         else progress
  {
    var x, d := s.next, s.clients[j].domain;
    ScheduleClientFrame(s, x, a);
    var (s1, progress) := ScheduleClient(s, x, a);
    if x != j {
      assert Kept(s.clients[j], s1.clients[j], s1.trigger);
      SameBroke(s.clients[j], s1.clients[j]);
      if x == i {
        ActiveTurn(s, x, a);
      } else {
        TurnFrees(s, x, a);
        assert Kept(s.clients[i], s1.clients[i], s1.trigger);
        KeptActive(s.clients[i], s1.clients[i], s1.trigger);
      }
      if s1.clients[j].busy { StillCompletes(s, s1, x, d, a); }
    }
  }

  lemma StillCompletes(s: Sys, s1: Sys, x: nat, d: nat, a: Answer)
    requires x < |s.clients|
    ensures Unsubmitted(s, s1, x) && Completes(s, a, d) ==> Completes(s1, a, d)
  {
  }

  lemma EndlessStays(s: Sys, i: nat, j: nat, a: Answer)
    requires Endless(s, i, j, a) && a.verdict.AcceptDone? && s.loop.Some? && LoopValid(s)
    ensures var s' := IterateStep(s, a); Endless(s', i, j, a) && s'.loop.Some? && LoopValid(s')
  {
    ScheduleClientFrame(s, s.next, a);
    var (s1, progress) := ScheduleClient(s, s.next, a);
    var s' := Advance(s1, progress);
    if !s.clients[j].busy {
      IterateDoomed(s, j, a);
    } else {
      WakingTurn(s, i, j, a);
      AdvanceSame(s1, progress);
      SameBroke(s1.clients[j], s'.clients[j]);
      if s1.clients[j].busy {
        AdvanceUnpassed(s1, progress, i);
        SameActive(s1.clients[i], s'.clients[i]);
      } else {
        ProgressUnpassed(s1, j);
      }
    }
  }

  function Always(a: Answer, n: nat): (es: seq<Event>)
    ensures |es| == n && forall k :: 0 <= k < n ==> es[k] == Iterate(a)
  {
    if n == 0 then [] else [Iterate(a)] + Always(a, n - 1)
  }

  lemma {:induction false} EndlessRuns(s: Sys, i: nat, j: nat, a: Answer, n: nat)
    requires Endless(s, i, j, a) && a.verdict.AcceptDone? && s.loop.Some? && LoopValid(s)
    ensures Run(s, Always(a, n))
    decreases n
  {
    if n > 0 {
      assert Always(a, n)[1..] == Always(a, n - 1);
      EndlessStays(s, i, j, a);
      EndlessRuns(IterateStep(s, a), i, j, a, n - 1);
    }
  }

  // ---------------------------------------------------------------- exactly when it ends

  predicate OnlyPasses(es: seq<Event>) { forall k :: 0 <= k < |es| ==> es[k].Iterate? }

  /** Whatever the device answers, the loop makes no more than `n` passes. */
  ghost predicate EndsWithin(s: Sys, n: nat) { forall es :: Run(s, es) && OnlyPasses(es) ==> |es| <= n }

  ghost predicate EndsForEveryDevice(s: Sys) { exists n: nat :: EndsWithin(s, n) }

  lemma {:induction false} PassesBounded(s: Sys, es: seq<Event>)
    requires Valid(s) && Payable(s) && Run(s, es) && OnlyPasses(es)
    ensures |es| <= Measure(s)
    decreases |es|
  {
    if es != [] {
      var a := es[0].answer;
      assert es[0] == Iterate(a);
      IterateDecreases(s, a);
      IterateValid(s, a);
      PayableStays(s, a);
      PassesBounded(IterateStep(s, a), es[1..]);
    }
  }

  lemma PayableEnds(s: Sys)
    requires Valid(s) && Payable(s)
    ensures EndsWithin(s, Measure(s))
  {
    forall es | Run(s, es) && OnlyPasses(es) ensures |es| <= Measure(s) {
      PassesBounded(s, es);
    }
  }

  lemma EndlessDoesNotEnd(s: Sys, i: nat, j: nat, a: Answer)
    requires Endless(s, i, j, a) && a.verdict.AcceptDone? && s.loop.Some? && LoopValid(s)
    ensures !EndsForEveryDevice(s)
  {
    forall n: nat ensures !EndsWithin(s, n) {
      EndlessRuns(s, i, j, a, n + 1);
      assert Run(s, Always(a, n + 1)) && OnlyPasses(Always(a, n + 1)) && |Always(a, n + 1)| == n + 1;
    }
  }

  lemma BeginSame(s: Sys)
    ensures SameButCost(s, BeginStep(s)) && SameButCost(BeginStep(s), s)
  {
  }

  /** At the start of a call every client is yet to be looked at. */
  lemma BeginUnpassed(s: Sys, i: nat)
    requires i < |s.clients|
    ensures Unpassed(BeginStep(s), i)
  {
  }

  /** A call can be kept going for ever if some client can neither pay nor is kept waiting. */
  lemma UnpayableIsEndless(s: Sys) returns (i: nat, j: nat, a: Answer)
    requires Valid(s) && !Payable(s)
    ensures Endless(BeginStep(s), i, j, a) && a.verdict.AcceptDone?
  {
    var t := BeginStep(s);
    BeginSame(s);
    j :| 0 <= j < |s.clients| && !Affordable(s.clients[j])
         && !(s.clients[j].busy && !Freeable(s, s.clients[j].domain));
    SameActive(s.clients[j], t.clients[j]);
    BrokeIff(t.clients[j]);
    BeginUnpassed(s, j);
    i, a := j, Answer([], AcceptDone);
    if s.clients[j].busy {
      assert ContextValid(s.clients[j]);
      i, a := Waker(s, s.clients[j].domain);
      SameActive(s.clients[i], t.clients[i]);
      BeginUnpassed(s, i);
    }
  }

  /** Who frees a domain, and the answer that does. */
  lemma Waker(s: Sys, d: nat) returns (i: nat, a: Answer)
    requires Freeable(s, d)
    ensures i < |s.clients| && Active(s.clients[i]) && a.verdict.AcceptDone?
    ensures s.clients[i].domain == d || (Completes(s, a, d) && Completes(BeginStep(s), a, d))
  {
    i :| 0 <= i < |s.clients| && Active(s.clients[i]) && (s.clients[i].domain == d || Occupied(s.clients, d));
    a := Answer([], AcceptDone);
    if s.clients[i].domain != d {
      var w :| 0 <= w < |s.clients| && s.clients[w].domain == d && s.clients[w].flight != [];
      BeginSame(s);
      a := Answer([(w, 0)], AcceptDone);
    }
  }

  /** A call ends for every device if and only if every client can pay for all it has and will come to, or waits
      for a device that cannot become free during the call.  So if nobody waits, if and only if all can pay. */
  lemma EndsIffAffordable(s: Sys)
    requires Valid(s) && Enabled(s, Begin)
    ensures EndsForEveryDevice(BeginStep(s)) <==> Payable(s)
    ensures (forall i :: 0 <= i < |s.clients| ==> !s.clients[i].busy) ==> (Payable(s) <==> AffordableAll(s))
  {
    var t := BeginStep(s);
    StepValid(s, Begin);
    BeginSame(s);
    if Payable(s) {
      PayableSame(s, t);
      PayableEnds(t);
    } else {
      var i, j, a := UnpayableIsEndless(s);
      EndlessDoesNotEnd(t, i, j, a);
    }
  }

  // ---------------------------------------------------------------- such calls exist

  lemma Extend(es: seq<Event>, s: Sys, e: Event)
    requires Run(Initial, es) && After(Initial, es) == s && Enabled(s, e)
    ensures Run(Initial, es + [e]) && After(Initial, es + [e]) == Step(s, e)
  {
    BlockRuns.RunSnoc(Initial, es, e);
  }

  /** A client of weight 1 with a request of cost 2: the next call never ends. */
  lemma DearRun() returns (es: seq<Event>)
    ensures Run(Initial, es) && Enabled(After(Initial, es), Begin)
    ensures !EndsForEveryDevice(BeginStep(After(Initial, es)))
  {
    var add, setup, arrive := AddClient(0, 1), Client(0, SetupQueue), Client(0, Arrive(2, Sound, []));
    Extend([], Initial, add);
    var s1 := Step(Initial, add);
    Extend([add], s1, setup);
    var s2 := Step(s1, setup);
    Extend([add] + [setup], s2, arrive);
    es := [add] + [setup] + [arrive];
    var s := Step(s2, arrive);
    BlockRuns.ReachableInv(es);
    assert DearAt(s.clients[0], 0) && !Affordable(s.clients[0]) && !s.clients[0].busy;
    EndsIffAffordable(s);
  }
}
