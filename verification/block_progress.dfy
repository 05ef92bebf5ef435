/** Termination of `schedule()`, and what holds when it returns. */
module BlockProgress {
  import Arith
  import opened Wrappers
  import opened BlockSystem
  import opened BlockAccounts

  // ---------------------------------------------------------------- one turn

  /** Nothing more can be done for a client now, or the scheduler has been triggered again. */
  predicate Quiet(c: Context, trigger: bool) {
    trigger || (if c.pending.Some? then c.busy else !HasNew(c))
  }

  predicate QuietAll(s: Sys) { forall i :: 0 <= i < |s.clients| ==> Quiet(s.clients[i], s.trigger) }

  /** A pending request that its client can never pay for. */
  predicate Dear(c: Context) { c.pending.Some? && c.pending.value.cost > c.weight }

  /** What one call of `schedule_client` did to the client it was called for. */
  predicate Turned(c: Context, c': Context, progress: bool, trigger: bool) {
    && c'.weight == c.weight
    && At(c', Work) <= At(c, Work)
    && (progress ==> At(c', Work) < At(c, Work) || (c.cost > 0 && c'.cost == c'.weight) || Dear(c'))
    && (!progress ==> Quiet(c', trigger))
  }

  lemma RespondTurn(s: Sys, i: nat, verdict: Verdict)
    requires i < |s.clients| && s.clients[i].pending.Some?
    ensures var (s', progress) := Respond(s, i, verdict);
            && |s'.clients| == |s.clients|
            && s'.clients[i].weight == s.clients[i].weight
            && (progress ==> At(s'.clients[i], Work) < At(s.clients[i], Work))
            && (!progress ==> At(s'.clients[i], Work) == At(s.clients[i], Work) && Quiet(s'.clients[i], s'.trigger))
  {
    RespondOwn(s, i, verdict);
  }

  lemma HandlePendingTurn(s: Sys, i: nat, a: Answer)
    requires i < |s.clients| && s.clients[i].pending.Some?
    ensures var (s', progress) := HandlePending(s, i, a);
            |s'.clients| == |s.clients| && Turned(s.clients[i], s'.clients[i], progress, s'.trigger)
  {
    if !Preempts(s.clients[i]) {
      CompleteAllFrame(s, a.done);
      var s1 := CompleteAll(s, a.done);
      assert Kept(s.clients[i], s1.clients[i], s1.trigger);
      RespondTurn(s1, i, a.verdict);
    }
  }

  lemma ScheduleClientTurn(s: Sys, i: nat, a: Answer)
    requires Valid(s) && i < |s.clients|
    ensures var (s', progress) := ScheduleClient(s, i, a);
            |s'.clients| == |s.clients| && Turned(s.clients[i], s'.clients[i], progress, s'.trigger)
  {
    var c := s.clients[i];
    if c.pending.Some? {
      if !c.busy { HandlePendingTurn(s, i, a); }
    } else if HasNew(c) {
      var (c', b') := Start(c, s.books);
      StartValid(c, s.books);
      if c'.pending.Some? { HandlePendingTurn(Put(s, i, c', b'), i, a); }
    }
  }

  /** Request `k` of the queue will be made pending in its turn: nothing before it stops the queue. */
  predicate Startable(c: Context, k: nat) {
    && c.live && c.state == Running && k < |c.queue| && c.queue[k].shape.Sound?
    && forall j :: 0 <= j < k ==> !c.queue[j].shape.Malformed?
  }

  predicate DearAt(c: Context, k: nat) { Startable(c, k) && c.queue[k].cost > c.weight }

  /** The client neither has nor will come to a request that it can never pay for. */
  predicate Affordable(c: Context) {
    !Dear(c) && forall k :: 0 <= k < |c.queue| ==> !DearAt(c, k)
  }

  predicate AffordableAll(s: Sys) { forall i :: 0 <= i < |s.clients| ==> Affordable(s.clients[i]) }

  lemma RespondAffordable(s: Sys, i: nat, verdict: Verdict)
    requires i < |s.clients| && s.clients[i].pending.Some? && Affordable(s.clients[i])
    ensures |Respond(s, i, verdict).0.clients| == |s.clients| && Affordable(Respond(s, i, verdict).0.clients[i])
  {
    RespondOwn(s, i, verdict);
    SameAffordable(s.clients[i], Respond(s, i, verdict).0.clients[i]);
  }

  lemma HandlePendingAffordable(s: Sys, i: nat, a: Answer)
    requires i < |s.clients| && s.clients[i].pending.Some? && Affordable(s.clients[i])
    ensures |HandlePending(s, i, a).0.clients| == |s.clients| && Affordable(HandlePending(s, i, a).0.clients[i])
  {
    if Preempts(s.clients[i]) {
      SameAffordable(s.clients[i], s.clients[i].(cost := s.clients[i].weight));
    } else {
      CompleteAllFrame(s, a.done);
      var s1 := CompleteAll(s, a.done);
      assert Kept(s.clients[i], s1.clients[i], s1.trigger);
      SameAffordable(s.clients[i], s1.clients[i]);
      RespondAffordable(s1, i, a.verdict);
    }
  }

  lemma StartAffordable(c: Context, b: Books)
    requires HasNew(c) && c.pending.None? && Affordable(c)
    ensures Affordable(Start(c, b).0)
  {
    var c' := Start(c, b).0;
    assert !DearAt(c, 0);
    forall k | 0 <= k < |c'.queue| ensures !DearAt(c', k) {
      assert !DearAt(c, k + 1);
      assert c'.queue[k] == c.queue[k + 1];
    }
  }

  /** What the queue, the pending request and the state of a client say is all that matters. */
  lemma SameAffordable(c: Context, c': Context)
    requires Affordable(c) && c'.queue == c.queue && c'.weight == c.weight && c'.live == c.live && c'.state == c.state
    requires c'.pending == c.pending || c'.pending.None?
    ensures Affordable(c')
  {
    forall k | 0 <= k < |c'.queue| ensures !DearAt(c', k) { assert !DearAt(c, k); }
  }

  lemma ScheduleClientAffordable(s: Sys, i: nat, a: Answer)
    requires i < |s.clients| && Affordable(s.clients[i])
    ensures |ScheduleClient(s, i, a).0.clients| == |s.clients| && Affordable(ScheduleClient(s, i, a).0.clients[i])
  {
    var c := s.clients[i];
    if c.pending.Some? {
      if !c.busy { HandlePendingAffordable(s, i, a); }
    } else if HasNew(c) {
      var (c', b') := Start(c, s.books);
      StartAffordable(c, s.books);
      if c'.pending.Some? { HandlePendingAffordable(Put(s, i, c', b'), i, a); }
    }
  }

  lemma AdvanceAffordable(s: Sys, progress: bool)
    requires AffordableAll(s) && s.loop.Some? && s.next < |s.clients|
    ensures AffordableAll(Advance(s, progress))
  {
    var k := Following(s.next, |s.clients|);
    SameAffordable(s.clients[k], s.clients[k].(cost := 0));
  }

  lemma HandledAffordable(s: Sys, s': Sys, i: nat)
    requires AffordableAll(s) && i < |s.clients| && Handled(s, s', i) && Affordable(s'.clients[i])
    ensures AffordableAll(s')
  {
    forall j | 0 <= j < |s.clients| && j != i ensures Affordable(s'.clients[j]) {
      assert Kept(s.clients[j], s'.clients[j], s'.trigger);
      SameAffordable(s.clients[j], s'.clients[j]);
    }
  }

  /** Scheduling never makes a request dearer. */
  lemma IterateAffordable(s: Sys, a: Answer)
    requires AffordableAll(s) && Enabled(s, Iterate(a))
    ensures AffordableAll(IterateStep(s, a))
  {
    ScheduleClientFrame(s, s.next, a);
    ScheduleClientAffordable(s, s.next, a);
    var (s1, progress) := ScheduleClient(s, s.next, a);
    HandledAffordable(s, s1, s.next);
    AdvanceAffordable(s1, progress);
  }

  lemma WorkOfTurn(s: Sys, s': Sys, i: nat)
    requires i < |s.clients| && Handled(s, s', i)
    ensures Total(s'.clients, Work) + At(s.clients[i], Work) == Total(s.clients, Work) + At(s'.clients[i], Work)
  {
    TotalUpdate(s.clients, i, s'.clients[i], Work);
    TotalSame(s.clients[i := s'.clients[i]], s'.clients, Work);
  }

  // ---------------------------------------------------------------- termination

  function Distance(from: nat, to: nat, n: nat): nat
    requires from < n && to < n
  {
    if from < to then to - from else to + n - from
  }

  function Phase(s: Sys): nat
    requires s.loop.Some? && s.next < |s.clients|
  {
    4 * Total(s.clients, Work) + (if s.clients[s.next].cost > 0 then 2 else 0) + (if s.loop.value.recheck then 1 else 0)
  }

  /** How many more passes through its loop `schedule()` can make. */
  function Measure(s: Sys): nat
    requires LoopValid(s)
  {
    if s.loop.None? then 0
    else Phase(s) * |s.clients| + Remaining(s)
  }

  lemma Scaled(p: nat, p': nat, d: nat, d': nat, n: nat)
    requires p' < p || (p' == p && d' < d)
    requires 0 < d && d' <= n
    ensures p' * n + d' < p * n + d
  {
    if p' < p {
      Arith.MulMono(p' + 1, p, n);
      assert (p' + 1) * n == p' * n + n;
    }
  }

  lemma PassTurnWork(s: Sys)
    requires s.next < |s.clients|
    ensures Total(PassTurn(s).clients, Work) == Total(s.clients, Work)
  {
    TotalSame(s.clients, PassTurn(s).clients, Work);
  }

  /** The second component of the lexicographic measure. */
  function Remaining(s: Sys): nat
    requires s.loop.Some? && LoopValid(s)
  {
    Distance(s.next, s.loop.value.start, |s.clients|)
  }

  lemma AdvancePhase(s: Sys, progress: bool, work: nat, charged: bool)
    requires s.loop.Some? && LoopValid(s)
    requires Total(s.clients, Work) <= work
    requires Total(s.clients, Work) < work || !progress
             || (charged && s.clients[s.next].cost == s.clients[s.next].weight)
    ensures
      var s' := Advance(s, progress);
      var phase := 4 * work + (if charged then 2 else 0) + (if s.loop.value.recheck then 1 else 0);
      && |s'.clients| == |s.clients| && LoopValid(s')
      && (s'.loop.Some? ==> Phase(s') < phase || (Phase(s') == phase && Remaining(s') < Remaining(s)))
  {
    PassTurnWork(s);
  }

  predicate Closer(s: Sys, s': Sys)
    requires s.loop.Some? && LoopValid(s)
  {
    && |s'.clients| == |s.clients| && LoopValid(s')
    && (s'.loop.Some? ==> Phase(s') < Phase(s) || (Phase(s') == Phase(s) && Remaining(s') < Remaining(s)))
  }

  lemma MeasureDrops(s: Sys, s': Sys)
    requires s.loop.Some? && LoopValid(s) && Closer(s, s')
    ensures Measure(s') < Measure(s)
  {
    if s'.loop.Some? {
      Scaled(Phase(s), Phase(s'), Remaining(s), Remaining(s'), |s.clients|);
    }
  }

  /** Every pass through the loop uses up some of the measure, whatever the device answers. */
  lemma IterateDecreases(s: Sys, a: Answer)
    requires Valid(s) && Enabled(s, Iterate(a)) && (Affordable(s.clients[s.next]) || s.clients[s.next].busy)
    ensures Closer(s, IterateStep(s, a)) && Measure(IterateStep(s, a)) < Measure(s)
  {
    ScheduleClientFrame(s, s.next, a);
    ScheduleClientTurn(s, s.next, a);
    var (s1, progress) := ScheduleClient(s, s.next, a);
    if s.clients[s.next].busy {
      assert ContextValid(s.clients[s.next]) && !progress;
    } else {
      ScheduleClientAffordable(s, s.next, a);
    }
    WorkOfTurn(s, s1, s.next);
    AdvancePhase(s1, progress, Total(s.clients, Work), s.clients[s.next].cost > 0);
    MeasureDrops(s, IterateStep(s, a));
  }

  /** Inside `schedule()` only its own passes and clients filling their queues happen. */
  predicate DuringSchedule(es: seq<Event>) {
    forall k :: 0 <= k < |es| ==> InSchedule(es[k])
  }

  predicate Afforded(s: Sys, e: Event) {
    e.Client? && e.client < |s.clients| ==> Affordable(Perform(s.clients[e.client], s.books, e.act).0)
  }

  /** No request arrives that its client comes to and can never pay for. */
  predicate Thrifty(s: Sys, es: seq<Event>)
    requires Run(s, es)
    decreases |es|
  {
    es == [] || (Afforded(s, es[0]) && Thrifty(Step(s, es[0]), es[1..]))
  }

  lemma ArriveAffordable(s: Sys, i: nat, act: Act)
    requires AffordableAll(s) && i < |s.clients| && act.Arrive? && Afforded(s, Client(i, act))
    ensures AffordableAll(ClientStep(s, i, act))
  {
    var s' := ClientStep(s, i, act);
    assert s'.clients[i] == Perform(s.clients[i], s.books, act).0;
  }

  function Passes(es: seq<Event>): nat {
    if es == [] then 0 else (if es[0].Iterate? then 1 else 0) + Passes(es[1..])
  }

  function Arrivals(es: seq<Event>): nat {
    if es == [] then 0 else (if es[0].Client? then 1 else 0) + Arrivals(es[1..])
  }

  lemma ArriveMeasure(s: Sys, i: nat, act: Act)
    requires LoopValid(s) && i < |s.clients| && act.Arrive?
    ensures var s' := ClientStep(s, i, act);
            |s'.clients| == |s.clients| && LoopValid(s') && Measure(s') <= Measure(s) + 4 * |s.clients|
  {
    var s' := ClientStep(s, i, act);
    TotalUpdate(s.clients, i, s'.clients[i], Work);
    if s.loop.Some? { FourMore(Phase(s), |s.clients|); }
  }

  lemma FourMore(a: nat, n: nat)
    ensures (a + 4) * n == a * n + 4 * n
  {
  }

  predicate InSchedule(e: Event) { e.Iterate? || (e.Client? && e.act.Arrive?) }

  lemma ScheduleStep(s: Sys, e: Event)
    requires Valid(s) && AffordableAll(s) && Enabled(s, e) && InSchedule(e) && Afforded(s, e)
    ensures
      var s' := Step(s, e);
      && Valid(s') && AffordableAll(s') && |s'.clients| == |s.clients|
      && Measure(s') + (if e.Iterate? then 1 else 0) <= Measure(s) + (if e.Client? then 4 * |s.clients| else 0)
  {
    StepValid(s, e);
    if e.Iterate? {
      IterateDecreases(s, e.answer);
      IterateAffordable(s, e.answer);
    } else {
      ArriveMeasure(s, e.client, e.act);
      ArriveAffordable(s, e.client, e.act);
    }
  }

  /** `schedule()` ends: whatever the device answers, the number of passes through its endless loop is
      bounded by the backlog it started with and the requests that arrive meanwhile. */
  lemma {:induction false} ScheduleEnds(s: Sys, es: seq<Event>)
    requires Valid(s) && Run(s, es) && DuringSchedule(es) && AffordableAll(s) && Thrifty(s, es)
    ensures LoopValid(After(s, es))
    ensures Passes(es) + Measure(After(s, es)) <= Measure(s) + 4 * |s.clients| * Arrivals(es)
    decreases |es|
  {
    if es != [] {
      assert InSchedule(es[0]);
      ScheduleStep(s, es[0]);
      var s' := Step(s, es[0]);
      ScheduleEnds(s', es[1..]);
      Telescopes(4 * |s.clients|, Arrivals(es[1..]), Arrivals(es));
    }
  }

  lemma Telescopes(n: nat, a: nat, b: nat)
    requires b == a || b == a + 1
    ensures n * b == n * a + if b == a then 0 else n
  {
  }

  lemma Distributes(a: nat, b: nat)
    ensures a * (b + 1) == a * b + a
  {
  }

  /** The bound for a whole call, from the moment the scheduler is entered. */
  lemma ScheduleBound(s: Sys, es: seq<Event>)
    requires Valid(s) && Enabled(s, Begin) && s.clients != []
    requires Run(BeginStep(s), es) && DuringSchedule(es) && AffordableAll(s) && Thrifty(BeginStep(s), es)
    ensures Passes(es) <= (4 * Total(s.clients, Work) + 1) * |s.clients| + 4 * |s.clients| * Arrivals(es)
  {
    StepValid(s, Begin);
    BeginMeasure(s);
    BeginAffordable(s);
    ScheduleEnds(BeginStep(s), es);
  }

  lemma BeginAffordable(s: Sys)
    requires AffordableAll(s)
    ensures AffordableAll(BeginStep(s))
  {
    forall j | 0 <= j < |s.clients| ensures Affordable(BeginStep(s).clients[j]) {
      SameAffordable(s.clients[j], BeginStep(s).clients[j]);
    }
  }

  lemma BeginMeasure(s: Sys)
    requires Valid(s) && s.clients != []
    ensures var s' := BeginStep(s);
            |s'.clients| == |s.clients| && LoopValid(s')
            && Measure(s') == (4 * Total(s.clients, Work) + 1) * |s.clients|
  {
    var s' := BeginStep(s);
    TotalSame(s.clients, s'.clients, Work);
    assert Phase(s') == 4 * Total(s.clients, Work) && Remaining(s') == |s.clients|;
    Distributes(|s.clients|, Phase(s'));
  }

  // ---------------------------------------------------------------- when it returns

  /** The clients visited since the scan last left its starting point. */
  predicate InLap(start: nat, next: nat, j: nat) {
    if start <= next then start <= j < next else j >= start || j < next
  }

  /** While nothing has to be rechecked, every client visited in this lap is quiet. */
  predicate LapQuiet(s: Sys)
    requires LoopValid(s)
  {
    s.loop.Some? && !s.loop.value.recheck ==>
      forall j :: 0 <= j < |s.clients| && InLap(s.loop.value.start, s.next, j) ==> Quiet(s.clients[j], s.trigger)
  }

  /** The lap grows by one client; when it is complete it holds all of them. */
  lemma LapGrows(start: nat, next: nat, n: nat, j: nat)
    requires start < n && next < n && j < n
    ensures var next' := Following(next, n);
      if next' == start then InLap(start, next, j) || j == next
      else InLap(start, next', j) <==> InLap(start, next, j) || j == next
    ensures !InLap(start, start, j)
  {
  }

  lemma PassTurnQuiet(s: Sys, j: nat)
    requires s.next < |s.clients| && j < |s.clients|
    ensures |PassTurn(s).clients| == |s.clients| && PassTurn(s).trigger == s.trigger
    ensures Quiet(PassTurn(s).clients[j], s.trigger) == Quiet(s.clients[j], s.trigger)
  {
  }

  lemma AdvanceQuiet(s: Sys, progress: bool)
    requires s.loop.Some? && LoopValid(s) && s.next < |s.clients| && LapQuiet(s)
    requires !progress ==> Quiet(s.clients[s.next], s.trigger)
    ensures
      var s' := Advance(s, progress);
      LoopValid(s') && LapQuiet(s') && (s'.loop.None? ==> QuietAll(s'))
  {
    var n, start := |s.clients|, s.loop.value.start;
    forall j | 0 <= j < n
      ensures Quiet(PassTurn(s).clients[j], s.trigger) == Quiet(s.clients[j], s.trigger)
      ensures var next' := Following(s.next, n);
        if next' == start then InLap(start, s.next, j) || j == s.next
        else InLap(start, next', j) <==> InLap(start, s.next, j) || j == s.next
      ensures !InLap(start, start, j)
    {
      PassTurnQuiet(s, j);
      LapGrows(start, s.next, n, j);
    }
  }

  /** One pass keeps the lap quiet; when it is the last one, every client is quiet: it has neither a
      pending nor a new request, or it waits for a busy device, or another `schedule()` is due. */
  lemma IterateQuiet(s: Sys, a: Answer)
    requires Valid(s) && Enabled(s, Iterate(a)) && LapQuiet(s)
    ensures
      var s' := IterateStep(s, a);
      LoopValid(s') && LapQuiet(s') && (s'.loop.None? ==> QuietAll(s'))
  {
    ScheduleClientFrame(s, s.next, a);
    ScheduleClientTurn(s, s.next, a);
    var (s1, progress) := ScheduleClient(s, s.next, a);
    forall j | 0 <= j < |s.clients| && j != s.next && Quiet(s.clients[j], s.trigger)
      ensures Quiet(s1.clients[j], s1.trigger)
    {
      assert Kept(s.clients[j], s1.clients[j], s1.trigger);
    }
    AdvanceQuiet(s1, progress);
  }
}
