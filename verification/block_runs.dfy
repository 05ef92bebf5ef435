/** The conservation laws of `BlockAccounts`, stated for every run of the block system. */
module BlockRuns {
  import opened Wrappers
  import opened BlockSystem
  import opened BlockAccounts

  // ---------------------------------------------------------------- who may lose a request

  /** The client of a request disappeared, or was reset when the request had already arrived. */
  predicate Excused(b: Books, r: Request) {
    r.client in b.gone || (r.client in b.resets && r.id < b.resets[r.client])
  }

  /** A request is given up unanswered only if no request object can be made of it, or it is excused. */
  predicate BooksValid(b: Books) {
    && (forall k :: 0 <= k < |b.arrived| ==> b.arrived[k].id == k)
    && (forall c :: c in b.resets ==> b.resets[c] <= |b.arrived|)
    && (forall r :: r in b.dropped ==> Excused(b, r))
    && (forall r :: r in b.abandoned ==> r.shape.Malformed? || Excused(b, r))
  }

  predicate Recorded(c: Context, b: Books) {
    && (c.state == ClientGone ==> c.id in b.gone)
    && (c.pending.Some? ==> c.pending.value.id < |b.arrived|)
    && (forall k :: 0 <= k < |c.queue| ==> c.queue[k].id < |b.arrived|)
  }

  predicate History(s: Sys) {
    BooksValid(s.books) && forall i :: 0 <= i < |s.clients| ==> Recorded(s.clients[i], s.books)
  }

  predicate Later(b: Books, b': Books) {
    |b.arrived| <= |b'.arrived| && b.gone <= b'.gone
  }

  lemma PutHistory(s: Sys, i: nat, c: Context, b: Books)
    requires History(s) && i < |s.clients| && BooksValid(b) && Later(s.books, b) && Recorded(c, b)
    ensures History(Put(s, i, c, b))
  {
  }

  lemma IdleHistory(s: Sys, domain: nat)
    requires History(s)
    ensures History(Idle(s, domain))
  {
  }

  lemma SettleHistory(c: Context, b: Books, r: Request)
    requires BooksValid(b) && Recorded(c, b) && r.client == c.id
    ensures var b' := Settle(b, c, r); BooksValid(b') && Later(b, b') && |b'.arrived| == |b.arrived|
  {
  }

  lemma CompleteAtHistory(s: Sys, i: nat, k: nat)
    requires Valid(s) && History(s)
    ensures History(CompleteAt(s, i, k))
  {
    if i < |s.clients| && k < |s.clients[i].flight| {
      var c := s.clients[i];
      assert Owns(c, c.flight[k]);
      SettleHistory(c, s.books, c.flight[k]);
      var s1 := Put(s, i, Without(c, k), Settle(s.books, c, c.flight[k]));
      PutHistory(s, i, Without(c, k), Settle(s.books, c, c.flight[k]));
      IdleHistory(s1, c.domain);
    }
  }

  lemma {:induction false} CompleteAllHistory(s: Sys, done: seq<(nat, nat)>)
    requires Valid(s) && History(s)
    ensures History(CompleteAll(s, done))
    decreases |done|
  {
    if done != [] {
      CompleteAtValid(s, done[0].0, done[0].1);
      CompleteAtHistory(s, done[0].0, done[0].1);
      CompleteAllHistory(CompleteAt(s, done[0].0, done[0].1), done[1..]);
    }
  }

  lemma ReplyHistory(c: Context, b: Books, verdict: Verdict)
    requires ContextValid(c) && c.pending.Some? && BooksValid(b) && Recorded(c, b)
    ensures var (c', b') := Reply(c, b, verdict); BooksValid(b') && Later(b, b') && Recorded(c', b')
  {
    SettleHistory(c, b, c.pending.value);
  }

  lemma HandlePendingHistory(s: Sys, i: nat, a: Answer)
    requires Valid(s) && History(s) && i < |s.clients| && s.clients[i].pending.Some?
    ensures History(HandlePending(s, i, a).0)
  {
    if Preempts(s.clients[i]) {
      PutHistory(s, i, s.clients[i].(cost := s.clients[i].weight), s.books);
    } else {
      CompleteAllFrame(s, a.done);
      CompleteAllHistory(s, a.done);
      CompleteAllValid(s, a.done);
      RespondHistory(CompleteAll(s, a.done), i, a.verdict);
    }
  }

  lemma RespondHistory(s: Sys, i: nat, verdict: Verdict)
    requires Valid(s) && History(s) && i < |s.clients| && s.clients[i].pending.Some?
    ensures History(Respond(s, i, verdict).0)
  {
    var (c', b') := Reply(s.clients[i], s.books, verdict);
    ReplyHistory(s.clients[i], s.books, verdict);
    PutHistory(s, i, c', b');
    IdleHistory(Put(s, i, c', b'), s.clients[i].domain);
  }

  lemma StartHistory(c: Context, b: Books)
    requires HasNew(c) && c.pending.None? && BooksValid(b) && Recorded(c, b)
    ensures var (c', b') := Start(c, b); BooksValid(b') && Later(b, b') && Recorded(c', b')
  {
  }

  lemma ScheduleClientHistory(s: Sys, i: nat, a: Answer)
    requires Valid(s) && History(s) && i < |s.clients|
    ensures History(ScheduleClient(s, i, a).0)
  {
    var c := s.clients[i];
    if c.pending.Some? {
      if !c.busy { HandlePendingHistory(s, i, a); }
    } else if HasNew(c) {
      var (c', b') := Start(c, s.books);
      StartValid(c, s.books);
      StartHistory(c, s.books);
      PutValid(s, i, c', b');
      PutHistory(s, i, c', b');
      if c'.pending.Some? { HandlePendingHistory(Put(s, i, c', b'), i, a); }
    }
  }

  lemma IterateHistory(s: Sys, a: Answer)
    requires Enabled(s, Iterate(a)) && Valid(s) && History(s)
    ensures History(IterateStep(s, a))
  {
    ScheduleClientFrame(s, s.next, a);
    ScheduleClientHistory(s, s.next, a);
    var s1 := ScheduleClient(s, s.next, a).0;
    var j := Following(s1.next, |s1.clients|);
    PutHistory(s1, j, s1.clients[j].(cost := 0), s1.books);
  }

  lemma DroppedHistory(b: Books, r: Request)
    requires BooksValid(b) && Excused(b, r)
    ensures BooksValid(Destroy(Drop(b, r), r))
  {
  }

  lemma FinalizedHistory(b: Books, r: Request)
    requires BooksValid(b)
    ensures BooksValid(Destroy(Finalize(b, r), r))
  {
  }

  lemma InvalidateHistory(c: Context, b: Books, fail: bool)
    requires BooksValid(b) && Recorded(c, b) && (c.pending.Some? && !fail ==> Excused(b, c.pending.value))
    ensures var (c', b') := Invalidate(c, b, fail); BooksValid(b') && Later(b, b') && Recorded(c', b')
  {
    if c.pending.Some? {
      if fail { FinalizedHistory(b, c.pending.value); } else { DroppedHistory(b, c.pending.value); }
    }
  }

  /** Recording a reset excuses more requests. */
  lemma ResetRecorded(b: Books, id: nat)
    requires BooksValid(b)
    ensures BooksValid(b.(resets := b.resets[id := |b.arrived|]))
  {
    var b' := b.(resets := b.resets[id := |b.arrived|]);
    forall r | Excused(b, r) ensures Excused(b', r) {
      assert r.client in b.gone || r.id < |b.arrived|;
    }
  }

  lemma AbandonedHistory(b: Books, rs: seq<Request>)
    requires BooksValid(b) && forall k :: 0 <= k < |rs| ==> Excused(b, rs[k])
    ensures BooksValid(b.(abandoned := b.abandoned + rs))
  {
  }

  /** What a reset gives up had arrived before it. */
  lemma ResetHistory(c: Context, b: Books)
    requires ContextValid(c) && BooksValid(b) && Recorded(c, b)
    ensures var (c', b') := Perform(c, b, DriverReset); BooksValid(b') && Later(b, b') && Recorded(c', b')
  {
    var b1 := b.(resets := b.resets[c.id := |b.arrived|]);
    ResetRecorded(b, c.id);
    InvalidateHistory(c, b1, false);
    var b2 := Invalidate(c, b1, false).1;
    forall k | 0 <= k < |c.queue| ensures Excused(b2, c.queue[k]) {
      assert Owns(c, c.queue[k]);
    }
    AbandonedHistory(b2, c.queue);
    assert Perform(c, b, DriverReset).1 == b2.(abandoned := b2.abandoned + c.queue);
  }

  lemma LeaveHistory(c: Context, b: Books)
    requires ContextValid(c) && BooksValid(b) && Recorded(c, b)
    ensures var (c', b') := Perform(c, b, Leave); BooksValid(b') && Later(b, b') && Recorded(c', b')
  {
    var b1 := b.(gone := b.gone + {c.id});
    assert BooksValid(b1);
    InvalidateHistory(c.(state := ClientGone), b1, false);
  }

  lemma ArriveHistory(c: Context, b: Books, cost: nat, shape: Shape, maps: seq<Mapping>)
    requires BooksValid(b) && Recorded(c, b)
    ensures var (c', b') := Perform(c, b, Arrive(cost, shape, maps)); BooksValid(b') && Later(b, b') && Recorded(c', b')
  {
  }

  lemma PerformHistory(c: Context, b: Books, act: Act)
    requires ContextValid(c) && BooksValid(b) && Recorded(c, b)
    ensures var (c', b') := Perform(c, b, act); BooksValid(b') && Later(b, b') && Recorded(c', b')
  {
    match act
    case Arrive(cost, shape, maps) => ArriveHistory(c, b, cost, shape, maps);
    case DriverReset => ResetHistory(c, b);
    case Leave => LeaveHistory(c, b);
    case Halt(suspend) =>
      InvalidateHistory(c.(state := if suspend then SystemSuspend else SystemShutdown), b, true);
    case _ =>
  }

  lemma RemoveHistory(s: Sys, i: nat)
    requires Valid(s) && History(s) && i < |s.clients| && s.clients[i].state == ClientGone
    ensures History(RemoveStep(s, i))
  {
    var c := s.clients[i];
    assert Recorded(c, s.books) && ContextValid(c);
    forall r | r in c.queue ensures Excused(s.books, r) {
      var k :| 0 <= k < |c.queue| && c.queue[k] == r;
      assert Owns(c, c.queue[k]);
    }
  }

  lemma StepHistory(s: Sys, e: Event)
    requires Enabled(s, e) && Valid(s) && History(s)
    ensures History(Step(s, e))
  {
    match e
    case Begin =>
      if s.clients != [] {
        var n := if s.next >= |s.clients| then 0 else s.next;
        PutHistory(s, n, s.clients[n].(cost := 0), s.books);
      }
    case Iterate(a) => IterateHistory(s, a);
    case Complete(i, k) => CompleteAtHistory(s, i, k);
    case Client(i, act) =>
      var (c', b') := Perform(s.clients[i], s.books, act);
      PerformHistory(s.clients[i], s.books, act);
      PutHistory(s, i, c', b');
    case AddClient(_, _) =>
    case RemoveClient(i) => RemoveHistory(s, i);
  }

  // ---------------------------------------------------------------- runs

  ghost predicate Inv(s: Sys) {
    Valid(s) && History(s) && forall p: Probe :: Accounted(s.clients, s.books, p)
  }

  lemma {:induction false} RunInv(s: Sys, es: seq<Event>)
    requires Inv(s) && Run(s, es)
    ensures Inv(After(s, es))
    decreases |es|
  {
    if es != [] {
      StepValid(s, es[0]);
      StepHistory(s, es[0]);
      forall p: Probe ensures var s' := Step(s, es[0]); Accounted(s'.clients, s'.books, p) {
        StepAccounted(s, es[0], p);
      }
      RunInv(Step(s, es[0]), es[1..]);
    }
  }

  lemma ReachableInv(es: seq<Event>)
    requires Run(Initial, es)
    ensures Inv(After(Initial, es))
  {
    RunInv(Initial, es);
  }

  lemma {:induction false} RunSnoc(s: Sys, es: seq<Event>, e: Event)
    requires Run(s, es) && Enabled(After(s, es), e)
    ensures Run(s, es + [e]) && After(s, es + [e]) == Step(After(s, es), e)
    decreases |es|
  {
    if es == [] {
      assert es + [e] == [e] && [e][1..] == [];
    } else {
      assert (es + [e])[1..] == es[1..] + [e] && (es + [e])[0] == es[0];
      RunSnoc(Step(s, es[0]), es[1..], e);
    }
  }

  lemma ArrivedOnce(b: Books, r: Request)
    requires BooksValid(b)
    ensures Count(b.arrived, r) == if r in b.arrived then 1 else 0
  {
    if r in b.arrived {
      var k :| 0 <= k < |b.arrived| && b.arrived[k] == r;
      CountCut(b.arrived, k, r);
      CountNone(b.arrived[..k] + b.arrived[k + 1..], r);
    } else {
      CountNone(b.arrived, r);
    }
  }

  /** Every request that entered a queue is at any time in exactly one place: still with its client
      (queued, pending or with the device), or gone in exactly one of three ways. */
  lemma EveryRequestHasOneFate(es: seq<Event>, r: Request)
    requires Run(Initial, es)
    ensures
      var s := After(Initial, es);
      Total(s.clients, OfRequest(r)) + Count(s.books.abandoned, r) + s.books.finalized[r] + s.books.dropped[r]
      == if r in s.books.arrived then 1 else 0
  {
    ReachableInv(es);
    var s := After(Initial, es);
    ArrivedOnce(s.books, r);
    assert Accounted(s.clients, s.books, OfRequest(r));
  }

  /** A request is finalized at most once. Unless it is malformed, or its client disappeared or was reset
      after it arrived, it is still held by its client or the device, or finalized, exactly once. */
  lemma FinalizedExactlyOnce(es: seq<Event>, r: Request)
    requires Run(Initial, es)
    ensures
      var s := After(Initial, es);
      && s.books.finalized[r] <= 1
      && (r in s.books.arrived && !r.shape.Malformed? && !Excused(s.books, r) ==>
            Total(s.clients, OfRequest(r)) + s.books.finalized[r] == 1)
  {
    ReachableInv(es);
    EveryRequestHasOneFate(es, r);
    var b := After(Initial, es).books;
    if r !in b.abandoned { CountNone(b.abandoned, r); }
  }

  /** Each non-empty DMA mapping is still held by a live request object or has been unmapped, once
      for each time it was made; nothing is unmapped that was not mapped. */
  lemma MappingsReleasedOnce(es: seq<Event>, m: Mapping)
    requires Run(Initial, es)
    ensures var s := After(Initial, es); s.books.mapped[m] == s.books.unmapped[m] + Total(s.clients, OfMapping(m))
  {
    ReachableInv(es);
    assert Accounted(After(Initial, es).clients, After(Initial, es).books, OfMapping(m));
  }

  /** The in-flight counter is the number of requests the device holds, modulo 2^32, and a client is
      only ever removed while the device holds none of its requests. */
  lemma InFlightIsExact(es: seq<Event>, i: nat)
    requires Run(Initial, es) && i < |After(Initial, es).clients|
    ensures
      var s := After(Initial, es);
      && s.clients[i].inFlight == |s.clients[i].flight| % U32
      && (Enabled(s, RemoveClient(i)) ==> s.clients[i].flight == [] && s.clients[i].pending.None?)
  {
    ReachableInv(es);
  }
}
