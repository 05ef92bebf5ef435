/** The requests of a client are served in the order in which they arrived. */
module BlockOrder {
  import opened Wrappers
  import opened BlockSystem
  import opened BlockAccounts

  /** What is still to be done for a client: first what the device holds, then the pending request, then the queue. */
  function Line(c: Context): seq<Request> {
    c.flight + (if c.pending.Some? then [c.pending.value] else []) + c.queue
  }

  /** Requests are numbered as they arrive. */
  predicate InOrder(rs: seq<Request>, n: nat) {
    && (forall i, j :: 0 <= i < j < |rs| ==> rs[i].id < rs[j].id)
    && (forall i :: 0 <= i < |rs| ==> rs[i].id < n)
  }

  /** `rs'` is `rs` without some of its requests; `at` tells where each of those left was. */
  predicate Thinned(rs: seq<Request>, rs': seq<Request>, at: seq<nat>) {
    && |at| == |rs'|
    && (forall i :: 0 <= i < |at| ==> at[i] < |rs| && rs'[i] == rs[at[i]])
    && (forall i, j :: 0 <= i < j < |at| ==> at[i] < at[j])
  }

  lemma ThinnedInOrder(rs: seq<Request>, rs': seq<Request>, at: seq<nat>, n: nat)
    requires InOrder(rs, n) && Thinned(rs, rs', at)
    ensures InOrder(rs', n)
  {
    forall i, j | 0 <= i < j < |rs'| ensures rs'[i].id < rs'[j].id {
      assert at[i] < at[j];
    }
  }

  /** All places but those from `k` to `m`. */
  function Places(k: nat, m: nat, n: nat): (at: seq<nat>)
    requires k <= m <= n
    ensures |at| == n - (m - k)
    ensures forall i :: 0 <= i < |at| ==> at[i] == if i < k then i else i + (m - k)
  {
    seq(n - (m - k), i => if i < k then i else i + (m - k))
  }

  lemma CutInOrder(rs: seq<Request>, k: nat, m: nat, n: nat)
    requires k <= m <= |rs| && InOrder(rs, n)
    ensures InOrder(rs[..k] + rs[m..], n)
  {
    ThinnedInOrder(rs, rs[..k] + rs[m..], Places(k, m, |rs|), n);
  }

  predicate Ordered(c: Context, b: Books) { InOrder(Line(c), |b.arrived|) }

  predicate AllOrdered(s: Sys) { forall i :: 0 <= i < |s.clients| ==> Ordered(s.clients[i], s.books) }

  /** The line got shorter, if anything, and nothing new arrived. */
  lemma CutLine(c: Context, b: Books, c': Context, b': Books, k: nat, m: nat)
    requires Ordered(c, b) && |b'.arrived| == |b.arrived| && k <= m <= |Line(c)|
    requires Line(c') == Line(c)[..k] + Line(c)[m..]
    ensures Ordered(c', b')
  {
    CutInOrder(Line(c), k, m, |b.arrived|);
  }

  // ---------------------------------------------------------------- one client

  lemma WithoutOrdered(c: Context, b: Books, k: nat, b': Books)
    requires Ordered(c, b) && k < |c.flight| && |b'.arrived| == |b.arrived|
    ensures Ordered(Without(c, k), b')
  {
    var c' := Without(c, k);
    assert Line(c') == Line(c)[..k] + Line(c)[k + 1..];
    CutLine(c, b, c', b', k, k + 1);
  }

  lemma DroppedPending(c: Context, b: Books, c': Context, b': Books)
    requires Ordered(c, b) && c.pending.Some? && |b'.arrived| == |b.arrived|
    requires c'.pending.None? && c'.flight == c.flight && c'.queue == c.queue
    ensures Ordered(c', b')
  {
    var k := |c.flight|;
    assert Line(c') == Line(c)[..k] + Line(c)[k + 1..];
    CutLine(c, b, c', b', k, k + 1);
  }

  lemma ReplyOrdered(c: Context, b: Books, verdict: Verdict)
    requires Ordered(c, b) && c.pending.Some?
    ensures var (c', b') := Reply(c, b, verdict); Ordered(c', b') && |b'.arrived| == |b.arrived|
  {
    var (c', b') := Reply(c, b, verdict);
    match verdict
    case Busy => assert Line(c') == Line(c);
    case Accept => assert Line(c') == Line(c);
    case _ => DroppedPending(c, b, c', b');
  }

  /** The head of the queue becomes pending, or leaves. */
  lemma StartOrdered(c: Context, b: Books)
    requires Ordered(c, b) && HasNew(c) && c.pending.None?
    ensures var (c', b') := Start(c, b); Ordered(c', b') && |b'.arrived| == |b.arrived|
  {
    var (c', b') := Start(c, b);
    var k := |c.flight|;
    if c'.pending.Some? {
      assert Line(c') == Line(c);
    } else {
      assert Line(c') == Line(c)[..k] + Line(c)[k + 1..];
      CutLine(c, b, c', b', k, k + 1);
    }
  }

  lemma InvalidateOrdered(c: Context, b: Books, fail: bool)
    requires Ordered(c, b)
    ensures var (c', b') := Invalidate(c, b, fail); Ordered(c', b') && |b'.arrived| == |b.arrived|
  {
    var (c', b') := Invalidate(c, b, fail);
    if c.pending.Some? { DroppedPending(c, b, c', b'); } else { assert Line(c') == Line(c); }
  }

  lemma ResetOrdered(c: Context, b: Books)
    requires Ordered(c, b)
    ensures var (c', b') := Perform(c, b, DriverReset); Ordered(c', b') && |b'.arrived| == |b.arrived|
  {
    var (c', b') := Perform(c, b, DriverReset);
    var k := |c.flight|;
    assert Line(c') == Line(c)[..k] + Line(c)[|Line(c)|..];
    CutLine(c, b, c', b', k, |Line(c)|);
  }

  lemma ArriveOrdered(c: Context, b: Books, cost: nat, shape: Shape, maps: seq<Mapping>)
    requires Ordered(c, b)
    ensures var (c', b') := Perform(c, b, Arrive(cost, shape, maps)); Ordered(c', b') && |b'.arrived| == |b.arrived| + 1
  {
    var (c', b') := Perform(c, b, Arrive(cost, shape, maps));
    assert Line(c') == Line(c) + [Request(|b.arrived|, c.id, cost, shape, maps)];
  }

  lemma PerformOrdered(c: Context, b: Books, act: Act)
    requires Ordered(c, b)
    ensures var (c', b') := Perform(c, b, act); Ordered(c', b') && |b'.arrived| >= |b.arrived|
  {
    match act
    case Arrive(cost, shape, maps) => ArriveOrdered(c, b, cost, shape, maps);
    case DriverReset => ResetOrdered(c, b);
    case Leave => InvalidateOrdered(c.(state := ClientGone), b.(gone := b.gone + {c.id}), false);
    case Halt(suspend) => InvalidateOrdered(c.(state := if suspend then SystemSuspend else SystemShutdown), b, true);
    case _ =>
  }

  // ---------------------------------------------------------------- the system

  lemma PutOrdered(s: Sys, i: nat, c: Context, b: Books)
    requires AllOrdered(s) && i < |s.clients| && |b.arrived| >= |s.books.arrived| && Ordered(c, b)
    ensures AllOrdered(Put(s, i, c, b))
  {
    var s' := Put(s, i, c, b);
    forall j | 0 <= j < |s'.clients| ensures Ordered(s'.clients[j], b) {
      if j != i { assert Ordered(s.clients[j], s.books) && s'.clients[j] == s.clients[j]; }
    }
  }

  lemma IdleOrdered(s: Sys, domain: nat)
    requires AllOrdered(s)
    ensures AllOrdered(Idle(s, domain))
  {
    var s' := Idle(s, domain);
    forall j | 0 <= j < |s'.clients| ensures Ordered(s'.clients[j], s'.books) {
      assert Ordered(s.clients[j], s.books) && s'.clients[j] == Freed(s.clients[j], domain);
    }
  }

  lemma CompleteOrdered(s: Sys, i: nat, k: nat)
    requires AllOrdered(s)
    ensures AllOrdered(CompleteAt(s, i, k))
  {
    if i < |s.clients| && k < |s.clients[i].flight| {
      var c := s.clients[i];
      var b' := Settle(s.books, c, c.flight[k]);
      WithoutOrdered(c, s.books, k, b');
      PutOrdered(s, i, Without(c, k), b');
      IdleOrdered(Put(s, i, Without(c, k), b'), c.domain);
    }
  }

  lemma {:induction false} CompleteAllOrdered(s: Sys, done: seq<(nat, nat)>)
    requires AllOrdered(s)
    ensures AllOrdered(CompleteAll(s, done))
    decreases |done|
  {
    if done != [] {
      CompleteOrdered(s, done[0].0, done[0].1);
      CompleteAllOrdered(CompleteAt(s, done[0].0, done[0].1), done[1..]);
    }
  }

  lemma RespondOrdered(s: Sys, i: nat, verdict: Verdict)
    requires AllOrdered(s) && i < |s.clients| && s.clients[i].pending.Some?
    ensures AllOrdered(Respond(s, i, verdict).0)
  {
    var (c', b') := Reply(s.clients[i], s.books, verdict);
    ReplyOrdered(s.clients[i], s.books, verdict);
    PutOrdered(s, i, c', b');
    IdleOrdered(Put(s, i, c', b'), s.clients[i].domain);
  }

  lemma HandlePendingOrdered(s: Sys, i: nat, a: Answer)
    requires AllOrdered(s) && i < |s.clients| && s.clients[i].pending.Some?
    ensures AllOrdered(HandlePending(s, i, a).0)
  {
    if Preempts(s.clients[i]) {
      var c := s.clients[i];
      assert Line(c.(cost := c.weight)) == Line(c);
      PutOrdered(s, i, c.(cost := c.weight), s.books);
    } else {
      CompleteAllFrame(s, a.done);
      CompleteAllOrdered(s, a.done);
      RespondOrdered(CompleteAll(s, a.done), i, a.verdict);
    }
  }

  lemma ScheduleClientOrdered(s: Sys, i: nat, a: Answer)
    requires AllOrdered(s) && i < |s.clients|
    ensures AllOrdered(ScheduleClient(s, i, a).0)
  {
    var c := s.clients[i];
    if c.pending.Some? {
      if !c.busy { HandlePendingOrdered(s, i, a); }
    } else if HasNew(c) {
      var (c', b') := Start(c, s.books);
      StartOrdered(c, s.books);
      PutOrdered(s, i, c', b');
      if c'.pending.Some? { HandlePendingOrdered(Put(s, i, c', b'), i, a); }
    }
  }

  /** Only charged costs change. */
  lemma CostOrdered(s: Sys, s': Sys)
    requires AllOrdered(s) && s'.books == s.books && |s'.clients| == |s.clients|
    requires forall j :: 0 <= j < |s.clients| ==> s'.clients[j] == s.clients[j].(cost := s'.clients[j].cost)
    ensures AllOrdered(s')
  {
    forall j | 0 <= j < |s'.clients| ensures Ordered(s'.clients[j], s'.books) {
      assert Ordered(s.clients[j], s.books) && Line(s'.clients[j]) == Line(s.clients[j]);
    }
  }

  lemma AdvanceOrdered(s: Sys, progress: bool)
    requires AllOrdered(s) && s.loop.Some? && s.next < |s.clients|
    ensures AllOrdered(Advance(s, progress))
  {
    CostOrdered(s, Advance(s, progress));
  }

  lemma RemoveOrdered(s: Sys, i: nat)
    requires AllOrdered(s) && i < |s.clients|
    ensures AllOrdered(RemoveStep(s, i))
  {
    var s' := RemoveStep(s, i);
    forall j | 0 <= j < |s'.clients| ensures Ordered(s'.clients[j], s'.books) {
      assert s'.clients[j] == s.clients[if j < i then j else j + 1];
    }
  }

  lemma StepOrdered(s: Sys, e: Event)
    requires AllOrdered(s) && Enabled(s, e)
    ensures AllOrdered(Step(s, e))
  {
    match e
    case Begin => CostOrdered(s, BeginStep(s));
    case Iterate(a) =>
      ScheduleClientFrame(s, s.next, a);
      ScheduleClientOrdered(s, s.next, a);
      AdvanceOrdered(ScheduleClient(s, s.next, a).0, ScheduleClient(s, s.next, a).1);
    case Complete(i, k) => CompleteOrdered(s, i, k);
    case Client(i, act) =>
      var (c', b') := Perform(s.clients[i], s.books, act);
      PerformOrdered(s.clients[i], s.books, act);
      PutOrdered(s, i, c', b');
    case AddClient(domain, weight) => AddOrdered(s, domain, weight);
    case RemoveClient(i) => RemoveOrdered(s, i);
  }

  lemma AddOrdered(s: Sys, domain: nat, weight: nat)
    requires AllOrdered(s)
    ensures AllOrdered(AddStep(s, domain, weight))
  {
    var s' := AddStep(s, domain, weight);
    forall j | 0 <= j < |s'.clients| ensures Ordered(s'.clients[j], s'.books) {
      if j < |s.clients| { assert s'.clients[j] == s.clients[j]; }
    }
  }

  lemma {:induction false} RunOrdered(s: Sys, es: seq<Event>)
    requires AllOrdered(s) && Run(s, es)
    ensures AllOrdered(After(s, es))
    decreases |es|
  {
    if es != [] {
      StepOrdered(s, es[0]);
      RunOrdered(Step(s, es[0]), es[1..]);
    }
  }

  /** Over every run: what a client's queue holds is in the order of arrival, the pending request arrived before all of
      it, and what the device holds for the client arrived before the pending request and was handed over in order. */
  lemma ServedInOrder(es: seq<Event>, i: nat)
    requires Run(Initial, es) && i < |After(Initial, es).clients|
    ensures InOrder(Line(After(Initial, es).clients[i]), |After(Initial, es).books.arrived|)
  {
    RunOrdered(Initial, es);
    assert Ordered(After(Initial, es).clients[i], After(Initial, es).books);
  }
}
