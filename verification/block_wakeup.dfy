/** Over whole runs no wake-up is lost: a request that could be handled is never left without
    a scheduler run being due, and one that waits for the device waits for something in flight. */
module BlockWakeup {
  import opened Wrappers
  import opened BlockSystem
  import opened BlockAccounts
  import opened BlockProgress
  import BlockRuns

  // ---------------------------------------------------------------- pending requests

  /** A pending request is marked busy or covered by a trigger. */
  predicate Covered(c: Context, trigger: bool) { trigger || (c.pending.Some? ==> c.busy) }

  predicate WakeInv(s: Sys) {
    && LoopValid(s) && LapQuiet(s)
    && (s.loop.None? ==> forall i :: 0 <= i < |s.clients| ==> Covered(s.clients[i], s.trigger))
  }

  lemma CompleteCovers(s: Sys, i: nat, k: nat)
    requires WakeInv(s) && s.loop.None?
    ensures WakeInv(CompleteAt(s, i, k))
  {
    CompleteAtFrame(s, i, k);
    var s' := CompleteAt(s, i, k);
    forall j | 0 <= j < |s'.clients| ensures Covered(s'.clients[j], s'.trigger) {
      assert Kept(s.clients[j], s'.clients[j], s'.trigger) && Covered(s.clients[j], s.trigger);
    }
  }

  lemma PerformCovers(c: Context, b: Books, act: Act, trigger: bool)
    requires Covered(c, trigger)
    ensures Covered(Perform(c, b, act).0, trigger || act.Arrive?)
  {
  }

  lemma StepWakes(s: Sys, e: Event)
    requires Valid(s) && Enabled(s, e) && WakeInv(s)
    ensures WakeInv(Step(s, e))
  {
    StepValid(s, e);
    match e
    case Begin =>
    case Iterate(a) => IterateQuiet(s, a);
    case Complete(i, k) => CompleteCovers(s, i, k);
    case Client(i, act) =>
      if s.loop.None? { PerformCovers(s.clients[i], s.books, act, s.trigger); }
    case AddClient(_, _) =>
    case RemoveClient(_) =>
  }

  /** Between server-loop events a pending request that is not marked busy has a scheduler run due. */
  lemma {:induction false} NoLostWakeup(s: Sys, es: seq<Event>)
    requires Valid(s) && WakeInv(s) && Run(s, es)
    ensures WakeInv(After(s, es))
    decreases |es|
  {
    if es != [] {
      StepValid(s, es[0]);
      StepWakes(s, es[0]);
      NoLostWakeup(Step(s, es[0]), es[1..]);
    }
  }

  // ---------------------------------------------------------------- queued requests

  predicate QuietInv(s: Sys) {
    LoopValid(s) && LapQuiet(s) && (s.loop.None? ==> QuietAll(s))
  }

  lemma CompleteQuiet(s: Sys, i: nat, k: nat)
    requires QuietInv(s) && s.loop.None?
    ensures QuietInv(CompleteAt(s, i, k))
  {
    CompleteAtFrame(s, i, k);
    var s' := CompleteAt(s, i, k);
    forall j | 0 <= j < |s'.clients| ensures Quiet(s'.clients[j], s'.trigger) {
      assert Kept(s.clients[j], s'.clients[j], s'.trigger) && Quiet(s.clients[j], s.trigger);
    }
  }

  /** The only action that can leave a queued request behind is halting a client (suspend or system
      shutdown), and it does so exactly when more requests were queued behind a pending one. */
  lemma HaltStrands(c: Context, b: Books, act: Act, trigger: bool)
    requires ContextValid(c) && Allowed(c, act) && Quiet(c, trigger)
    ensures Quiet(Perform(c, b, act).0, trigger || act.Arrive?)
            <==> !(act.Halt? && c.pending.Some? && HasNew(c) && !trigger)
  {
  }

  lemma StepQuiet(s: Sys, e: Event)
    requires Valid(s) && Enabled(s, e) && QuietInv(s)
    requires e.Client? && e.act.Halt? ==> s.trigger || s.clients[e.client].pending.None? || !HasNew(s.clients[e.client])
    ensures QuietInv(Step(s, e))
  {
    StepValid(s, e);
    match e
    case Begin =>
    case Iterate(a) => IterateQuiet(s, a);
    case Complete(i, k) => CompleteQuiet(s, i, k);
    case Client(i, act) =>
      if s.loop.None? { HaltStrands(s.clients[i], s.books, act, s.trigger); }
    case AddClient(_, _) =>
    case RemoveClient(_) =>
  }

  // ---------------------------------------------------------------- waiting for the device

  predicate Awaited(s: Sys) {
    forall i :: 0 <= i < |s.clients| && s.clients[i].busy ==> Occupied(s.clients, s.clients[i].domain)
  }

  /** The device says busy only while it holds a request of the same notification domain. */
  predicate HonestAnswer(s: Sys, a: Answer)
    requires s.next < |s.clients|
  {
    ScheduleClientFrame(s, s.next, a);
    var s' := ScheduleClient(s, s.next, a).0;
    s'.clients[s.next].busy && !s.clients[s.next].busy ==> Occupied(s'.clients, s'.clients[s.next].domain)
  }

  predicate Honest(s: Sys, e: Event)
    requires Enabled(s, e)
  {
    e.Iterate? ==> HonestAnswer(s, e.answer)
  }

  lemma IdleClears(s: Sys, domain: nat, j: nat)
    requires j < |s.clients|
    ensures var s' := Idle(s, domain);
            |s'.clients| == |s.clients| && s'.clients[j] == s.clients[j].(busy := s'.clients[j].busy)
            && s'.clients[j].busy == (s.clients[j].busy && s.clients[j].domain != domain)
  {
  }

  lemma CompleteAwaited(s: Sys, i: nat, k: nat)
    requires Awaited(s)
    ensures Awaited(CompleteAt(s, i, k))
  {
    if i < |s.clients| && k < |s.clients[i].flight| {
      var c := s.clients[i];
      var s1 := Put(s, i, Without(c, k), Settle(s.books, c, c.flight[k]));
      var s' := CompleteAt(s, i, k);
      forall j | 0 <= j < |s'.clients| && s'.clients[j].busy ensures Occupied(s'.clients, s'.clients[j].domain) {
        IdleClears(s1, c.domain, j);
        var w :| 0 <= w < |s.clients| && s.clients[w].domain == s.clients[j].domain && s.clients[w].flight != [];
        IdleClears(s1, c.domain, w);
        assert s'.clients[w].flight != [];
      }
    }
  }

  lemma {:induction false} CompleteAllAwaited(s: Sys, done: seq<(nat, nat)>)
    requires Awaited(s)
    ensures Awaited(CompleteAll(s, done))
    decreases |done|
  {
    if done != [] {
      CompleteAwaited(s, done[0].0, done[0].1);
      CompleteAllAwaited(CompleteAt(s, done[0].0, done[0].1), done[1..]);
    }
  }

  /** A busy mark keeps its reason as long as no list of in-flight requests gets shorter. */
  lemma MoreInFlight(s: Sys, s': Sys)
    requires Awaited(s) && |s'.clients| == |s.clients|
    requires forall j :: 0 <= j < |s.clients| ==>
               && s'.clients[j].domain == s.clients[j].domain
               && (s.clients[j].flight != [] ==> s'.clients[j].flight != [])
               && (s'.clients[j].busy ==> s.clients[j].busy || Occupied(s'.clients, s'.clients[j].domain))
    ensures Awaited(s')
  {
    forall j | 0 <= j < |s'.clients| && s'.clients[j].busy ensures Occupied(s'.clients, s'.clients[j].domain) {
      if s.clients[j].busy { StillOccupied(s.clients, s'.clients, s.clients[j].domain); }
    }
  }

  lemma ReplyKeepsFlight(c: Context, b: Books, verdict: Verdict)
    requires c.pending.Some?
    ensures var c' := Reply(c, b, verdict).0;
            c'.domain == c.domain && |c'.flight| >= |c.flight| && (c'.busy ==> c.busy || verdict.Busy?)
  {
  }

  /** An answer takes nothing from the device, and only `Busy` sets a mark. */
  lemma RespondKeepsFlight(s: Sys, i: nat, verdict: Verdict, j: nat)
    requires i < |s.clients| && s.clients[i].pending.Some? && j < |s.clients|
    ensures var s' := Respond(s, i, verdict).0;
            && |s'.clients| == |s.clients| && s'.clients[j].domain == s.clients[j].domain
            && (s.clients[j].flight != [] ==> s'.clients[j].flight != [])
            && (s'.clients[j].busy ==> s.clients[j].busy || (verdict.Busy? && j == i))
  {
    var (c', b') := Reply(s.clients[i], s.books, verdict);
    ReplyKeepsFlight(s.clients[i], s.books, verdict);
    assert Put(s, i, c', b').clients[j] == if j == i then c' else s.clients[j];
    IdleClears(Put(s, i, c', b'), s.clients[i].domain, j);
  }

  lemma StillOccupied(cs: seq<Context>, cs': seq<Context>, domain: nat)
    requires Occupied(cs, domain) && |cs'| == |cs|
    requires forall j :: 0 <= j < |cs| ==>
               cs'[j].domain == cs[j].domain && (cs[j].flight != [] ==> cs'[j].flight != [])
    ensures Occupied(cs', domain)
  {
    var w :| 0 <= w < |cs| && cs[w].domain == domain && cs[w].flight != [];
    assert cs'[w].flight != [];
  }

  lemma RespondAwaited(s: Sys, i: nat, verdict: Verdict)
    requires Awaited(s) && i < |s.clients| && s.clients[i].pending.Some?
    requires verdict.Busy? ==> Occupied(s.clients, s.clients[i].domain)
    ensures Awaited(Respond(s, i, verdict).0)
  {
    var s' := Respond(s, i, verdict).0;
    RespondOwn(s, i, verdict);
    forall j | 0 <= j < |s.clients|
      ensures s'.clients[j].domain == s.clients[j].domain
      ensures s.clients[j].flight != [] ==> s'.clients[j].flight != []
      ensures s'.clients[j].busy ==> s.clients[j].busy || (verdict.Busy? && j == i)
    {
      RespondKeepsFlight(s, i, verdict, j);
    }
    if verdict.Busy? { StillOccupied(s.clients, s'.clients, s.clients[i].domain); }
    MoreInFlight(s, s');
  }

  lemma HandlePendingAwaited(s: Sys, i: nat, a: Answer)
    requires Awaited(s) && i < |s.clients| && s.clients[i].pending.Some? && !s.clients[i].busy
    requires |HandlePending(s, i, a).0.clients| == |s.clients|
    requires var c := HandlePending(s, i, a).0.clients[i];
             c.busy ==> Occupied(HandlePending(s, i, a).0.clients, c.domain)
    ensures Awaited(HandlePending(s, i, a).0)
  {
    if Preempts(s.clients[i]) {
      MoreInFlight(s, HandlePending(s, i, a).0);
    } else {
      CompleteAllFrame(s, a.done);
      CompleteAllAwaited(s, a.done);
      var s1 := CompleteAll(s, a.done);
      var s' := Respond(s1, i, a.verdict).0;
      if a.verdict.Busy? {
        var w :| 0 <= w < |s'.clients| && s'.clients[w].domain == s'.clients[i].domain && s'.clients[w].flight != [];
        assert s1.clients[w].domain == s1.clients[i].domain && s1.clients[w].flight != [];
      }
      RespondAwaited(s1, i, a.verdict);
    }
  }

  lemma StartAwaited(s: Sys, i: nat)
    requires Valid(s) && Awaited(s) && i < |s.clients| && HasNew(s.clients[i]) && s.clients[i].pending.None?
    ensures var (c', b') := Start(s.clients[i], s.books); !c'.busy && Awaited(Put(s, i, c', b'))
  {
    var c := s.clients[i];
    assert ContextValid(c);
    var (c', b') := Start(c, s.books);
    assert c'.busy == c.busy && c'.domain == c.domain && c'.flight == c.flight;
    MoreInFlight(s, Put(s, i, c', b'));
  }

  lemma ScheduleClientAwaited(s: Sys, a: Answer)
    requires Valid(s) && Awaited(s) && s.next < |s.clients| && HonestAnswer(s, a)
    ensures Awaited(ScheduleClient(s, s.next, a).0)
  {
    ScheduleClientFrame(s, s.next, a);
    var i := s.next;
    var c := s.clients[i];
    if c.pending.Some? {
      if !c.busy { HandlePendingAwaited(s, i, a); }
    } else if HasNew(c) {
      var (c', b') := Start(c, s.books);
      StartAwaited(s, i);
      if c'.pending.Some? { HandlePendingAwaited(Put(s, i, c', b'), i, a); }
    }
  }

  /** Passing the turn changes a charged cost at most. */
  lemma AdvanceAwaited(s: Sys, progress: bool)
    requires Awaited(s) && s.loop.Some? && s.next < |s.clients|
    ensures Awaited(Advance(s, progress))
  {
    var s' := Advance(s, progress);
    forall j | 0 <= j < |s.clients|
      ensures |s'.clients| == |s.clients| && s'.clients[j] == s.clients[j].(cost := s'.clients[j].cost)
    {
    }
    MoreInFlight(s, s');
  }

  lemma IterateAwaited(s: Sys, a: Answer)
    requires Valid(s) && Awaited(s) && Enabled(s, Iterate(a)) && HonestAnswer(s, a)
    ensures Awaited(IterateStep(s, a))
  {
    ScheduleClientFrame(s, s.next, a);
    ScheduleClientAwaited(s, a);
    AdvanceAwaited(ScheduleClient(s, s.next, a).0, ScheduleClient(s, s.next, a).1);
  }

  lemma RemoveAwaited(s: Sys, i: nat)
    requires Awaited(s) && i < |s.clients| && s.clients[i].flight == []
    ensures Awaited(RemoveStep(s, i))
  {
    var s' := RemoveStep(s, i);
    forall j | 0 <= j < |s'.clients| && s'.clients[j].busy ensures Occupied(s'.clients, s'.clients[j].domain) {
      assert s'.clients[j] in s.clients;
      var k :| 0 <= k < |s.clients| && s.clients[k] == s'.clients[j];
      var w :| 0 <= w < |s.clients| && s.clients[w].domain == s.clients[k].domain && s.clients[w].flight != [];
      assert s'.clients[if w < i then w else w - 1] == s.clients[w];
    }
  }

  lemma AddAwaited(s: Sys, domain: nat, weight: nat)
    requires Awaited(s)
    ensures Awaited(AddStep(s, domain, weight))
  {
    var s' := AddStep(s, domain, weight);
    forall j | 0 <= j < |s'.clients| && s'.clients[j].busy ensures Occupied(s'.clients, s'.clients[j].domain) {
      var w :| 0 <= w < |s.clients| && s.clients[w].domain == s.clients[j].domain && s.clients[w].flight != [];
      assert s'.clients[w] == s.clients[w];
    }
  }

  lemma PerformKeepsFlight(c: Context, b: Books, act: Act)
    ensures var c' := Perform(c, b, act).0;
            c'.domain == c.domain && c'.flight == c.flight && (c'.busy ==> c.busy)
  {
  }

  lemma ClientAwaited(s: Sys, i: nat, act: Act)
    requires Awaited(s) && i < |s.clients|
    ensures Awaited(ClientStep(s, i, act))
  {
    PerformKeepsFlight(s.clients[i], s.books, act);
    var (c', b') := Perform(s.clients[i], s.books, act);
    assert ClientStep(s, i, act).clients == s.clients[i := c'];
    MoreInFlight(s, ClientStep(s, i, act));
  }

  lemma BeginAwaited(s: Sys)
    requires Awaited(s)
    ensures Awaited(BeginStep(s))
  {
    if s.clients != [] {
      var n := if s.next >= |s.clients| then 0 else s.next;
      assert BeginStep(s).clients == s.clients[n := s.clients[n].(cost := 0)];
      MoreInFlight(s, BeginStep(s));
    }
  }

  lemma StepAwaited(s: Sys, e: Event)
    requires Valid(s) && Awaited(s) && Enabled(s, e) && Honest(s, e)
    ensures Awaited(Step(s, e))
  {
    match e
    case Begin => BeginAwaited(s);
    case Iterate(a) => IterateAwaited(s, a);
    case Complete(i, k) => CompleteAwaited(s, i, k);
    case Client(i, act) => ClientAwaited(s, i, act);
    case AddClient(domain, weight) => AddAwaited(s, domain, weight);
    case RemoveClient(i) => RemoveAwaited(s, i);
  }

  // ---------------------------------------------------------------- runs of an honest device

  predicate HonestRun(s: Sys, es: seq<Event>)
    requires Run(s, es)
    decreases |es|
  {
    es == [] || (Honest(s, es[0]) && HonestRun(Step(s, es[0]), es[1..]))
  }

  /** No client is halted while requests are queued behind its pending one. */
  predicate HaltsClean(s: Sys, es: seq<Event>)
    requires Run(s, es)
    decreases |es|
  {
    es == [] ||
    (var e := es[0];
     && (e.Client? && e.act.Halt? ==> s.trigger || s.clients[e.client].pending.None? || !HasNew(s.clients[e.client]))
     && HaltsClean(Step(s, e), es[1..]))
  }

  lemma {:induction false} RunAwaited(s: Sys, es: seq<Event>)
    requires Valid(s) && Awaited(s) && Run(s, es) && HonestRun(s, es)
    ensures Awaited(After(s, es))
    decreases |es|
  {
    if es != [] {
      StepValid(s, es[0]);
      StepAwaited(s, es[0]);
      RunAwaited(Step(s, es[0]), es[1..]);
    }
  }

  lemma {:induction false} RunQuiet(s: Sys, es: seq<Event>)
    requires Valid(s) && QuietInv(s) && Run(s, es) && HaltsClean(s, es)
    ensures QuietInv(After(s, es))
    decreases |es|
  {
    if es != [] {
      StepValid(s, es[0]);
      StepQuiet(s, es[0]);
      RunQuiet(Step(s, es[0]), es[1..]);
    }
  }

  /** The completion of any request of a notification domain wakes every client waiting in it. */
  lemma CompletionWakes(s: Sys, i: nat, j: nat, k: nat)
    requires i < |s.clients| && j < |s.clients| && k < |s.clients[j].flight|
    requires s.clients[i].busy && s.clients[i].domain == s.clients[j].domain
    ensures var s' := CompleteAt(s, j, k); s'.trigger && |s'.clients| == |s.clients| && !s'.clients[i].busy
  {
    var c := s.clients[j];
    var s1 := Put(s, j, Without(c, k), Settle(s.books, c, c.flight[k]));
    assert s1.clients[i].busy && s1.clients[i].domain == c.domain;
  }

  /** A completion clears the busy marks of its notification domain and no other, and triggers the scheduler if and
      only if there were any. */
  lemma CompletionWakesOnly(s: Sys, j: nat, k: nat, i: nat)
    requires j < |s.clients| && k < |s.clients[j].flight| && i < |s.clients|
    ensures
      var s', d := CompleteAt(s, j, k), s.clients[j].domain;
      && |s'.clients| == |s.clients| && (s'.clients[i].busy <==> s.clients[i].busy && s.clients[i].domain != d)
      && (s'.trigger <==>
            s.trigger || exists w :: 0 <= w < |s.clients| && s.clients[w].busy && s.clients[w].domain == d)
  {
    var c := s.clients[j];
    var s1 := Put(s, j, Without(c, k), Settle(s.books, c, c.flight[k]));
    IdleClears(s1, c.domain, i);
    if w :| 0 <= w < |s.clients| && s.clients[w].busy && s.clients[w].domain == c.domain {
      assert s1.clients[w].busy && s1.clients[w].domain == c.domain;
    }
  }

  /** A request that is stuck has a request of its notification domain in flight, and the completion
      of any such request makes it schedulable again and triggers the scheduler. */
  lemma StuckRequestIsAwaited(es: seq<Event>, i: nat)
    requires Run(Initial, es) && HonestRun(Initial, es)
    requires var s := After(Initial, es); s.loop.None? && i < |s.clients| && s.clients[i].pending.Some? && !s.trigger
    ensures var s := After(Initial, es); Occupied(s.clients, s.clients[i].domain)
    ensures
      var s := After(Initial, es);
      forall j, k :: 0 <= j < |s.clients| && 0 <= k < |s.clients[j].flight|
                     && s.clients[j].domain == s.clients[i].domain ==>
        CompleteAt(s, j, k).trigger
        && |CompleteAt(s, j, k).clients| == |s.clients| && !CompleteAt(s, j, k).clients[i].busy
  {
    NoLostWakeup(Initial, es);
    RunAwaited(Initial, es);
    var s := After(Initial, es);
    assert Covered(s.clients[i], s.trigger);
    forall j: nat, k: nat | j < |s.clients| && k < |s.clients[j].flight| && s.clients[j].domain == s.clients[i].domain
      ensures CompleteAt(s, j, k).trigger
              && |CompleteAt(s, j, k).clients| == |s.clients| && !CompleteAt(s, j, k).clients[i].busy
    {
      CompletionWakes(s, i, j, k);
    }
  }

  /** When nothing is in flight and no scheduler run is due, every client has been served completely. */
  lemma QuiescentMeansServed(es: seq<Event>, i: nat)
    requires Run(Initial, es) && HonestRun(Initial, es) && HaltsClean(Initial, es)
    requires var s := After(Initial, es);
             && s.loop.None? && !s.trigger && i < |s.clients|
             && forall j :: 0 <= j < |s.clients| ==> s.clients[j].flight == []
    ensures var s := After(Initial, es); s.clients[i].pending.None? && !HasNew(s.clients[i])
  {
    RunQuiet(Initial, es);
    RunAwaited(Initial, es);
    var s := After(Initial, es);
    assert Quiet(s.clients[i], s.trigger);
  }

  // ---------------------------------------------------------------- a queued request left behind

  /** Nothing is in flight, no run is due, the client runs, and yet a request waits in its queue. */
  predicate Stranded(s: Sys) {
    && s.loop.None? && !s.trigger && |s.clients| == 1
    && s.clients[0].state == Running && s.clients[0].flight == [] && HasNew(s.clients[0])
  }

  lemma {:induction false} HonestSnoc(s: Sys, es: seq<Event>, e: Event)
    requires Run(s, es) && Run(s, es + [e]) && HonestRun(s, es) && Enabled(After(s, es), e) && Honest(After(s, es), e)
    ensures HonestRun(s, es + [e])
    decreases |es|
  {
    if es == [] {
      assert es + [e] == [e] && [e][1..] == [];
    } else {
      assert (es + [e])[1..] == es[1..] + [e] && (es + [e])[0] == es[0];
      HonestSnoc(Step(s, es[0]), es[1..], e);
    }
  }

  lemma Extend(s: Sys, es: seq<Event>, e: Event)
    requires Run(s, es) && HonestRun(s, es) && Enabled(After(s, es), e) && Honest(After(s, es), e)
    ensures Run(s, es + [e]) && HonestRun(s, es + [e]) && After(s, es + [e]) == Step(After(s, es), e)
  {
    BlockRuns.RunSnoc(s, es, e);
    HonestSnoc(s, es, e);
  }

  /** One client of weight 1 with three requests of cost 1 in its queue. */
  lemma ThreeQueued() returns (es: seq<Event>, c: Context)
    ensures Run(Initial, es) && HonestRun(Initial, es)
    ensures var s := After(Initial, es);
            && s.clients == [c] && s.loop.None? && s.trigger && s.next == 1
            && c.weight == 1 && |c.queue| == 3 && c.live && c.state == Running && c.flight == []
            && c.pending.None? && !c.busy && c.cost == 0
            && forall k :: 0 <= k < 3 ==> c.queue[k].cost == 1 && c.queue[k].shape == Sound
  {
    var arrive := Client(0, Arrive(1, Sound, []));
    es := [];
    Extend(Initial, es, AddClient(0, 1)); es := es + [AddClient(0, 1)];
    Extend(Initial, es, Client(0, SetupQueue)); es := es + [Client(0, SetupQueue)];
    Extend(Initial, es, arrive); es := es + [arrive];
    Extend(Initial, es, arrive); es := es + [arrive];
    Extend(Initial, es, arrive); es := es + [arrive];
    c := After(Initial, es).clients[0];
  }

  /** A lone client in the middle of `schedule()`, with nothing charged and nothing pending. */
  predicate InTurn(s: Sys, c: Context) {
    && s.clients == [c] && s.next == 0 && s.loop == Some(Loop(0, false))
    && c.weight == 1 && c.cost == 0 && c.live && c.state == Running && c.pending.None? && !c.busy
    && c.queue != [] && c.queue[0].cost == 1 && c.queue[0].shape == Sound
  }

  /** The client's next request uses up its weight, so the turn comes back to it afresh. */
  lemma LoneAccepted(s: Sys, c: Context)
    requires InTurn(s, c)
    ensures
      var accept, s' := Iterate(Answer([], Accept)), IterateStep(s, Answer([], Accept));
      && Honest(s, accept) && s'.loop == s.loop && s'.next == 0 && s'.trigger == s.trigger
      && s'.clients == [c.(queue := c.queue[1..], flight := c.flight + [c.queue[0]],
                           inFlight := Increment(c.inFlight))]
  {
    var (p, b) := Start(c, s.books);
    assert p == c.(queue := c.queue[1..], pending := Some(c.queue[0])) && !Preempts(p);
    var s1 := Put(s, 0, p, b);
    var t := Respond(s1, 0, Accept).0;
    assert ScheduleClient(s, 0, Answer([], Accept)) == (t, true);
    assert !t.clients[0].busy;
  }

  /** The client's next request stays pending; nothing else can be done, so `schedule()` returns. */
  lemma LoneRefused(s: Sys, c: Context)
    requires InTurn(s, c) && c.flight != []
    ensures
      var busy, s' := Iterate(Answer([], Busy)), IterateStep(s, Answer([], Busy));
      && Honest(s, busy) && s'.loop.None? && s'.trigger == s.trigger
      && s'.clients == [c.(queue := c.queue[1..], pending := Some(c.queue[0]), busy := true)]
  {
    var (p, b) := Start(c, s.books);
    assert p == c.(queue := c.queue[1..], pending := Some(c.queue[0])) && !Preempts(p);
    var t := Respond(Put(s, 0, p, b), 0, Busy).0;
    assert ScheduleClient(s, 0, Answer([], Busy)) == (t, false);
    assert t.clients == [p.(busy := true)];
  }

  /** Scheduling a lone client of weight 1 whose first request is accepted and whose second meets a busy device. */
  lemma AcceptThenBusy(s: Sys, c: Context)
    requires s.clients == [c] && s.loop.None? && s.trigger && s.next == 1
    requires c.weight == 1 && |c.queue| == 3 && c.live && c.state == Running && c.flight == []
    requires c.pending.None? && !c.busy
    requires forall k :: 0 <= k < 3 ==> c.queue[k].cost == 1 && c.queue[k].shape == Sound
    ensures
      var accept, busy := Answer([], Accept), Answer([], Busy);
      var s1 := BeginStep(s);
      && Enabled(s1, Iterate(accept)) && Honest(s1, Iterate(accept))
      && var s2 := IterateStep(s1, accept);
      && Enabled(s2, Iterate(busy)) && Honest(s2, Iterate(busy))
      && var s3 := IterateStep(s2, busy);
      && s3.loop.None? && !s3.trigger && |s3.clients| == 1
      && s3.clients[0].state == Running && s3.clients[0].live && |s3.clients[0].flight| == 1
      && s3.clients[0].pending.Some? && |s3.clients[0].queue| == 1
  {
    var c1 := c.(cost := 0);
    LoneAccepted(BeginStep(s), c1);
    var s2 := IterateStep(BeginStep(s), Answer([], Accept));
    LoneRefused(s2, s2.clients[0]);
  }

  lemma HaltPending(s: Sys)
    requires s.loop.None? && |s.clients| == 1 && s.clients[0].state == Running
    ensures var s' := ClientStep(s, 0, Halt(true));
            && Allowed(s.clients[0], Halt(true)) && s'.loop.None? && s'.trigger == s.trigger
            && s'.clients == [s.clients[0].(state := SystemSuspend, pending := None, busy := false, cost := 0)]
  {
  }

  lemma DrainLone(s: Sys)
    requires s.loop.None? && |s.clients| == 1 && |s.clients[0].flight| == 1 && !s.clients[0].busy
    ensures var s' := CompleteAt(s, 0, 0);
            s'.loop.None? && s'.trigger == s.trigger && s'.clients == [Without(s.clients[0], 0)]
  {
    var c := s.clients[0];
    var s1 := Put(s, 0, Without(c, 0), Settle(s.books, c, c.flight[0]));
    assert s1.clients == [Without(c, 0)];
    IdleClears(s1, c.domain, 0);
  }

  lemma HaltDrainResume(s: Sys)
    requires s.loop.None? && !s.trigger && |s.clients| == 1
    requires var c := s.clients[0]; c.state == Running && c.live && |c.flight| == 1 && c.pending.Some? && |c.queue| == 1
    ensures
      var halt, done, resume := Client(0, Halt(true)), Complete(0, 0), Client(0, Resume);
      && Enabled(s, halt) && Enabled(ClientStep(s, 0, Halt(true)), done)
      && var s2 := CompleteAt(ClientStep(s, 0, Halt(true)), 0, 0);
      && Enabled(s2, resume) && Stranded(ClientStep(s2, 0, Resume))
  {
    HaltPending(s);
    DrainLone(ClientStep(s, 0, Halt(true)));
  }

  /** Suspending a client with one request pending and another queued, and resuming it after the
      device has drained, leaves the queued request unserved until the client notifies again. */
  lemma SuspendStrandsQueue() returns (es: seq<Event>)
    ensures Run(Initial, es) && HonestRun(Initial, es) && Stranded(After(Initial, es))
  {
    var c: Context;
    es, c := ThreeQueued();
    AcceptThenBusy(After(Initial, es), c);
    Extend(Initial, es, Begin); es := es + [Begin];
    Extend(Initial, es, Iterate(Answer([], Accept))); es := es + [Iterate(Answer([], Accept))];
    Extend(Initial, es, Iterate(Answer([], Busy))); es := es + [Iterate(Answer([], Busy))];
    HaltDrainResume(After(Initial, es));
    Extend(Initial, es, Client(0, Halt(true))); es := es + [Client(0, Halt(true))];
    Extend(Initial, es, Complete(0, 0)); es := es + [Complete(0, 0)];
    Extend(Initial, es, Client(0, Resume)); es := es + [Client(0, Resume)];
  }
}
