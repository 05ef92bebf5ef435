/**
 Conservation over whole runs of the block system: every request that ever entered a
 queue is in exactly one place, every non-empty DMA mapping is unmapped exactly once, and
 the in-flight counter is the number of requests the device holds.
 */
module BlockAccounts {
  import opened Wrappers
  import opened BlockSystem

  // ---------------------------------------------------------------- counting

  /** What is being counted: one request, one mapping, or the work left to do. */
  datatype Probe = OfRequest(request: Request) | OfMapping(mapping: Mapping) | Work

  function Count(rs: seq<Request>, r: Request): nat {
    if rs == [] then 0 else (if rs[0] == r then 1 else 0) + Count(rs[1..], r)
  }

  function HeldIn(rs: seq<Request>, m: Mapping): nat {
    if rs == [] then 0 else Held(rs[0].maps)[m] + HeldIn(rs[1..], m)
  }

  /** How often the probed thing is found in one context. */
  function At(c: Context, p: Probe): nat {
    match p
    case OfRequest(r) => Count(c.queue, r) + (if c.pending == Some(r) then 1 else 0) + Count(c.flight, r)
    case OfMapping(m) => (if c.pending.Some? then Held(c.pending.value.maps)[m] else 0) + HeldIn(c.flight, m)
    case Work => |c.queue| + (if c.pending.Some? then 1 else 0)
  }

  function Total(cs: seq<Context>, p: Probe): nat {
    if cs == [] then 0 else At(cs[0], p) + Total(cs[1..], p)
  }

  /** How often it entered the system, and how often it left. */
  function Source(b: Books, p: Probe): nat {
    match p
    case OfRequest(r) => Count(b.arrived, r)
    case OfMapping(m) => b.mapped[m]
    case Work => 0
  }

  function Gone(b: Books, p: Probe): nat {
    match p
    case OfRequest(r) => Count(b.abandoned, r) + b.finalized[r] + b.dropped[r]
    case OfMapping(m) => b.unmapped[m]
    case Work => 0
  }

  predicate Accounted(cs: seq<Context>, b: Books, p: Probe) {
    p.Work? || Total(cs, p) + Gone(b, p) == Source(b, p)
  }

  /** Replacing context `c` by `c'` and the history `b` by `b'` loses and doubles nothing. */
  predicate Conserves(c: Context, b: Books, c': Context, b': Books, p: Probe) {
    p.Work? || At(c', p) + Gone(b', p) + Source(b, p) == At(c, p) + Gone(b, p) + Source(b', p)
  }

  lemma {:induction false} TotalUpdate(cs: seq<Context>, i: nat, c: Context, p: Probe)
    requires i < |cs|
    ensures Total(cs[i := c], p) + At(cs[i], p) == Total(cs, p) + At(c, p)
  {
    var ds := cs[i := c];
    if i == 0 {
      assert ds[1..] == cs[1..];
    } else {
      assert ds[1..] == cs[1..][i - 1 := c];
      TotalUpdate(cs[1..], i - 1, c, p);
    }
  }

  lemma {:induction false} TotalSame(cs: seq<Context>, ds: seq<Context>, p: Probe)
    requires |cs| == |ds| && forall i :: 0 <= i < |cs| ==> At(cs[i], p) == At(ds[i], p)
    ensures Total(cs, p) == Total(ds, p)
  {
    if cs != [] { TotalSame(cs[1..], ds[1..], p); }
  }

  lemma {:induction false} TotalSplit(cs: seq<Context>, ds: seq<Context>, p: Probe)
    ensures Total(cs + ds, p) == Total(cs, p) + Total(ds, p)
  {
    if cs == [] {
      assert cs + ds == ds;
    } else {
      assert (cs + ds)[1..] == cs[1..] + ds;
      TotalSplit(cs[1..], ds, p);
    }
  }

  lemma TotalRemove(cs: seq<Context>, i: nat, p: Probe)
    requires i < |cs|
    ensures Total(cs[..i] + cs[i + 1..], p) + At(cs[i], p) == Total(cs, p)
  {
    assert cs == cs[..i] + cs[i..];
    TotalSplit(cs[..i], cs[i..], p);
    TotalSplit(cs[..i], cs[i + 1..], p);
    assert cs[i..][1..] == cs[i + 1..];
  }

  lemma {:induction false} HeldInRemove(rs: seq<Request>, k: nat, m: Mapping)
    requires k < |rs|
    ensures HeldIn(rs[..k] + rs[k + 1..], m) + Held(rs[k].maps)[m] == HeldIn(rs, m)
  {
    var ss := rs[..k] + rs[k + 1..];
    if k == 0 {
      assert ss == rs[1..];
    } else {
      assert ss[1..] == rs[1..][..k - 1] + rs[1..][k..];
      HeldInRemove(rs[1..], k - 1, m);
    }
  }

  lemma {:induction false} HeldInAppend(rs: seq<Request>, r: Request, m: Mapping)
    ensures HeldIn(rs + [r], m) == HeldIn(rs, m) + Held(r.maps)[m]
  {
    if rs == [] {
      assert rs + [r] == [r];
    } else {
      assert (rs + [r])[1..] == rs[1..] + [r];
      HeldInAppend(rs[1..], r, m);
    }
  }

  lemma {:induction false} CountJoin(a: seq<Request>, b: seq<Request>, r: Request)
    ensures Count(a + b, r) == Count(a, r) + Count(b, r)
  {
    if a == [] {
      assert a + b == b;
    } else {
      assert (a + b)[1..] == a[1..] + b;
      CountJoin(a[1..], b, r);
    }
  }

  lemma CountOne(x: Request, r: Request)
    ensures Count([x], r) == if x == r then 1 else 0
  {
    assert [x][1..] == [];
  }

  lemma {:induction false} CountCut(rs: seq<Request>, k: nat, r: Request)
    requires k < |rs|
    ensures Count(rs[..k] + rs[k + 1..], r) + (if rs[k] == r then 1 else 0) == Count(rs, r)
  {
    var ss := rs[..k] + rs[k + 1..];
    if k == 0 {
      assert ss == rs[1..];
    } else {
      assert ss[1..] == rs[1..][..k - 1] + rs[1..][k..];
      CountCut(rs[1..], k - 1, r);
    }
  }

  lemma {:induction false} CountNone(rs: seq<Request>, r: Request)
    requires r !in rs
    ensures Count(rs, r) == 0
  {
    if rs != [] { CountNone(rs[1..], r); }
  }

  // ---------------------------------------------------------------- validity

  predicate Owns(c: Context, r: Request) { r.client == c.id }

  predicate ContextValid(c: Context) {
    && c.cost <= c.weight
    && c.inFlight == |c.flight| % U32
    && (c.busy ==> c.pending.Some?)
    && (c.pending.Some? ==> Owns(c, c.pending.value) && c.state != ClientGone)
    && (forall k :: 0 <= k < |c.queue| ==> Owns(c, c.queue[k]))
    && (forall k :: 0 <= k < |c.flight| ==> Owns(c, c.flight[k]))
  }

  predicate LoopValid(s: Sys) {
    && s.next <= |s.clients|
    && (s.loop.Some? ==> s.next < |s.clients| && s.loop.value.start < |s.clients|)
  }

  ghost predicate Valid(s: Sys) {
    && LoopValid(s)
    && (forall i :: 0 <= i < |s.clients| ==> ContextValid(s.clients[i]) && s.clients[i].id < s.added)
    && (forall i, j :: 0 <= i < j < |s.clients| ==> s.clients[i].id != s.clients[j].id)
  }

  lemma PutAccounted(s: Sys, i: nat, c: Context, b: Books, p: Probe)
    requires i < |s.clients| && Accounted(s.clients, s.books, p) && Conserves(s.clients[i], s.books, c, b, p)
    ensures var s' := Put(s, i, c, b); Accounted(s'.clients, s'.books, p)
  {
    TotalUpdate(s.clients, i, c, p);
  }

  lemma PutValid(s: Sys, i: nat, c: Context, b: Books)
    requires Valid(s) && i < |s.clients| && ContextValid(c) && c.id == s.clients[i].id
    ensures Valid(Put(s, i, c, b))
  {
  }

  // ---------------------------------------------------------------- completions

  lemma IdleAccounted(s: Sys, domain: nat, p: Probe)
    requires Accounted(s.clients, s.books, p)
    ensures var s' := Idle(s, domain); Accounted(s'.clients, s'.books, p)
  {
    var freed := FreeAll(s.clients, domain);
    forall j | 0 <= j < |s.clients| ensures At(s.clients[j], p) == At(freed[j], p) {
      assert freed[j] == Freed(s.clients[j], domain);
    }
    TotalSame(s.clients, freed, p);
  }

  lemma IdleValid(s: Sys, domain: nat)
    requires Valid(s)
    ensures Valid(Idle(s, domain))
  {
    var freed := FreeAll(s.clients, domain);
    forall j | 0 <= j < |s.clients| ensures ContextValid(freed[j]) && freed[j].id == s.clients[j].id {
      assert freed[j] == Freed(s.clients[j], domain) && ContextValid(s.clients[j]);
    }
  }

  lemma WithoutRequest(c: Context, b: Books, k: nat, r: Request)
    requires k < |c.flight|
    ensures Conserves(c, b, Without(c, k), Settle(b, c, c.flight[k]), OfRequest(r))
  {
    CountCut(c.flight, k, r);
  }

  lemma WithoutMapping(c: Context, b: Books, k: nat, m: Mapping)
    requires k < |c.flight|
    ensures Conserves(c, b, Without(c, k), Settle(b, c, c.flight[k]), OfMapping(m))
  {
    HeldInRemove(c.flight, k, m);
  }

  lemma WithoutConserves(c: Context, b: Books, k: nat, p: Probe)
    requires k < |c.flight|
    ensures Conserves(c, b, Without(c, k), Settle(b, c, c.flight[k]), p)
  {
    match p
    case OfRequest(r) => WithoutRequest(c, b, k, r);
    case OfMapping(m) => WithoutMapping(c, b, k, m);
    case Work =>
  }

  lemma CompleteAtAccounted(s: Sys, i: nat, k: nat, p: Probe)
    requires Accounted(s.clients, s.books, p)
    ensures var s' := CompleteAt(s, i, k); Accounted(s'.clients, s'.books, p)
  {
    if i < |s.clients| && k < |s.clients[i].flight| {
      var c := s.clients[i];
      var b' := Settle(s.books, c, c.flight[k]);
      WithoutConserves(c, s.books, k, p);
      PutAccounted(s, i, Without(c, k), b', p);
      IdleAccounted(Put(s, i, Without(c, k), b'), c.domain, p);
    }
  }

  lemma CompleteAtValid(s: Sys, i: nat, k: nat)
    requires Valid(s)
    ensures Valid(CompleteAt(s, i, k))
  {
    if i < |s.clients| && k < |s.clients[i].flight| {
      var c := s.clients[i];
      OneLess(|c.flight|);
      PutValid(s, i, Without(c, k), Settle(s.books, c, c.flight[k]));
      IdleValid(Put(s, i, Without(c, k), Settle(s.books, c, c.flight[k])), c.domain);
    }
  }

  lemma OneLess(n: nat)
    requires n > 0
    ensures Decrement(n % U32) == (n - 1) % U32
  {
    if n % U32 > 0 {
      assert (n - 1) % U32 == n % U32 - 1;
    }
  }

  lemma OneMore(n: nat)
    ensures Increment(n % U32) == (n + 1) % U32
  {
  }

  lemma DownAndUp(n: nat)
    requires n < U32
    ensures Increment(Decrement(n)) == n
  {
  }

  lemma {:induction false} CompleteAllValid(s: Sys, done: seq<(nat, nat)>)
    requires Valid(s)
    ensures Valid(CompleteAll(s, done))
    decreases |done|
  {
    if done != [] {
      CompleteAtValid(s, done[0].0, done[0].1);
      CompleteAllValid(CompleteAt(s, done[0].0, done[0].1), done[1..]);
    }
  }

  lemma {:induction false} CompleteAllAccounted(s: Sys, done: seq<(nat, nat)>, p: Probe)
    requires Accounted(s.clients, s.books, p)
    ensures var s' := CompleteAll(s, done); Accounted(s'.clients, s'.books, p)
    decreases |done|
  {
    if done != [] {
      CompleteAtAccounted(s, done[0].0, done[0].1, p);
      CompleteAllAccounted(CompleteAt(s, done[0].0, done[0].1), done[1..], p);
    }
  }

  // ---------------------------------------------------------------- scheduling

  lemma AcceptRequest(c: Context, b: Books, r: Request)
    requires c.pending.Some?
    ensures var (c', b') := Reply(c, b, Accept); Conserves(c, b, c', b', OfRequest(r))
  {
    CountJoin(c.flight, [c.pending.value], r);
    CountOne(c.pending.value, r);
  }

  lemma SettledRequest(c: Context, b: Books, r0: Request, r: Request)
    ensures Gone(Settle(b, c, r0), OfRequest(r)) == Gone(b, OfRequest(r)) + if r0 == r then 1 else 0
    ensures Source(Settle(b, c, r0), OfRequest(r)) == Source(b, OfRequest(r))
  {
  }

  lemma DoneRequest(c: Context, b: Books, r: Request)
    requires c.pending.Some?
    ensures var (c', b') := Reply(c, b, AcceptDone); Conserves(c, b, c', b', OfRequest(r))
  {
    SettledRequest(c, b, c.pending.value, r);
  }

  lemma FailRequest(c: Context, b: Books, r: Request)
    requires c.pending.Some?
    ensures var (c', b') := Reply(c, b, Fail); Conserves(c, b, c', b', OfRequest(r))
  {
  }

  lemma ReplyRequest(c: Context, b: Books, verdict: Verdict, r: Request)
    requires c.pending.Some?
    ensures var (c', b') := Reply(c, b, verdict); Conserves(c, b, c', b', OfRequest(r))
  {
    match verdict
    case Accept => AcceptRequest(c, b, r);
    case AcceptDone => DoneRequest(c, b, r);
    case Fail => FailRequest(c, b, r);
    case Busy =>
  }

  lemma ReplyMapping(c: Context, b: Books, verdict: Verdict, m: Mapping)
    requires c.pending.Some?
    ensures var (c', b') := Reply(c, b, verdict); Conserves(c, b, c', b', OfMapping(m))
  {
    HeldInAppend(c.flight, c.pending.value, m);
  }

  /** Each of the four answers to a submitted request gives it exactly one new place. */
  lemma ReplyConserves(c: Context, b: Books, verdict: Verdict, p: Probe)
    requires c.pending.Some?
    ensures var (c', b') := Reply(c, b, verdict); Conserves(c, b, c', b', p)
  {
    match p
    case OfRequest(r) => ReplyRequest(c, b, verdict, r);
    case OfMapping(m) => ReplyMapping(c, b, verdict, m);
    case Work =>
  }

  lemma ReplyValid(c: Context, b: Books, verdict: Verdict)
    requires ContextValid(c) && c.pending.Some? && !c.busy && !Preempts(c)
    ensures ContextValid(Reply(c, b, verdict).0)
  {
    OneMore(|c.flight|);
    DownAndUp(c.inFlight);
  }

  lemma RespondAccounted(s: Sys, i: nat, verdict: Verdict, p: Probe)
    requires i < |s.clients| && s.clients[i].pending.Some?
    requires Accounted(s.clients, s.books, p)
    ensures var s' := Respond(s, i, verdict).0; Accounted(s'.clients, s'.books, p)
  {
    var c := s.clients[i];
    var (c', b') := Reply(c, s.books, verdict);
    ReplyConserves(c, s.books, verdict, p);
    PutAccounted(s, i, c', b', p);
    IdleAccounted(Put(s, i, c', b'), c.domain, p);
  }

  lemma RespondValid(s: Sys, i: nat, verdict: Verdict)
    requires Valid(s) && i < |s.clients|
    requires s.clients[i].pending.Some? && !s.clients[i].busy && !Preempts(s.clients[i])
    ensures Valid(Respond(s, i, verdict).0)
  {
    var c := s.clients[i];
    var (c', b') := Reply(c, s.books, verdict);
    ReplyValid(c, s.books, verdict);
    PutValid(s, i, c', b');
    IdleValid(Put(s, i, c', b'), c.domain);
  }

  lemma HandlePendingAccounted(s: Sys, i: nat, a: Answer, p: Probe)
    requires i < |s.clients| && s.clients[i].pending.Some?
    requires Accounted(s.clients, s.books, p)
    ensures var s' := HandlePending(s, i, a).0; Accounted(s'.clients, s'.books, p)
  {
    if Preempts(s.clients[i]) {
      PutAccounted(s, i, s.clients[i].(cost := s.clients[i].weight), s.books, p);
    } else {
      CompleteAllFrame(s, a.done);
      CompleteAllAccounted(s, a.done, p);
      RespondAccounted(CompleteAll(s, a.done), i, a.verdict, p);
    }
  }

  lemma HandlePendingValid(s: Sys, i: nat, a: Answer)
    requires Valid(s) && i < |s.clients| && s.clients[i].pending.Some? && !s.clients[i].busy
    ensures Valid(HandlePending(s, i, a).0)
  {
    if Preempts(s.clients[i]) {
      PutValid(s, i, s.clients[i].(cost := s.clients[i].weight), s.books);
    } else {
      CompleteAllFrame(s, a.done);
      CompleteAllValid(s, a.done);
      assert Kept(s.clients[i], CompleteAll(s, a.done).clients[i], CompleteAll(s, a.done).trigger);
      RespondValid(CompleteAll(s, a.done), i, a.verdict);
    }
  }

  lemma GiveUpRequest(c: Context, b: Books, r: Request)
    requires HasNew(c) && c.pending.None? && c.queue[0].shape.Malformed?
    ensures var (c', b') := Start(c, b); Conserves(c, b, c', b', OfRequest(r))
  {
    CountJoin(b.abandoned, [c.queue[0]], r);
    CountOne(c.queue[0], r);
  }

  lemma AnswerRequest(c: Context, b: Books, r: Request)
    requires HasNew(c) && c.pending.None? && !c.queue[0].shape.Malformed?
    requires c.state != Running || c.queue[0].shape.Rejected?
    ensures var (c', b') := Start(c, b); Conserves(c, b, c', b', OfRequest(r))
  {
  }

  lemma KeepRequest(c: Context, b: Books, r: Request)
    requires HasNew(c) && c.pending.None? && c.queue[0].shape.Sound? && c.state == Running
    ensures var (c', b') := Start(c, b); Conserves(c, b, c', b', OfRequest(r))
  {
  }

  lemma StartConservesRequest(c: Context, b: Books, r: Request)
    requires HasNew(c) && c.pending.None?
    ensures var (c', b') := Start(c, b); Conserves(c, b, c', b', OfRequest(r))
  {
    if c.queue[0].shape.Malformed? {
      GiveUpRequest(c, b, r);
    } else if c.state != Running || c.queue[0].shape.Rejected? {
      AnswerRequest(c, b, r);
    } else {
      KeepRequest(c, b, r);
    }
  }

  lemma StartConservesMapping(c: Context, b: Books, m: Mapping)
    requires HasNew(c) && c.pending.None?
    ensures var (c', b') := Start(c, b); Conserves(c, b, c', b', OfMapping(m))
  {
    var (c', b') := Start(c, b);
    assert c'.flight == c.flight;
  }

  /** A request taken from a queue is failed, abandoned or becomes pending; its mappings follow it. */
  lemma StartConserves(c: Context, b: Books, p: Probe)
    requires HasNew(c) && c.pending.None?
    ensures var (c', b') := Start(c, b); Conserves(c, b, c', b', p)
  {
    match p
    case OfRequest(r) => StartConservesRequest(c, b, r);
    case OfMapping(m) => StartConservesMapping(c, b, m);
    case Work =>
  }

  lemma StartValid(c: Context, b: Books)
    requires HasNew(c) && c.pending.None? && ContextValid(c)
    ensures ContextValid(Start(c, b).0) && !Start(c, b).0.busy
  {
  }

  lemma ScheduleClientAccounted(s: Sys, i: nat, a: Answer, p: Probe)
    requires i < |s.clients| && Accounted(s.clients, s.books, p)
    ensures var s' := ScheduleClient(s, i, a).0; Accounted(s'.clients, s'.books, p)
  {
    var c := s.clients[i];
    if c.pending.Some? {
      if !c.busy { HandlePendingAccounted(s, i, a, p); }
    } else if HasNew(c) {
      var (c', b') := Start(c, s.books);
      StartConserves(c, s.books, p);
      PutAccounted(s, i, c', b', p);
      if c'.pending.Some? { HandlePendingAccounted(Put(s, i, c', b'), i, a, p); }
    }
  }

  lemma ScheduleClientValid(s: Sys, i: nat, a: Answer)
    requires Valid(s) && i < |s.clients|
    ensures Valid(ScheduleClient(s, i, a).0)
  {
    var c := s.clients[i];
    if c.pending.Some? {
      if !c.busy { HandlePendingValid(s, i, a); }
    } else if HasNew(c) {
      var (c', b') := Start(c, s.books);
      StartValid(c, s.books);
      PutValid(s, i, c', b');
      if c'.pending.Some? { HandlePendingValid(Put(s, i, c', b'), i, a); }
    }
  }

  lemma PassTurnAccounted(s: Sys, p: Probe)
    requires s.next < |s.clients| && Accounted(s.clients, s.books, p)
    ensures Accounted(PassTurn(s).clients, s.books, p)
  {
    TotalSame(s.clients, PassTurn(s).clients, p);
  }

  lemma IterateAccounted(s: Sys, a: Answer, p: Probe)
    requires Enabled(s, Iterate(a)) && Accounted(s.clients, s.books, p)
    ensures var s' := IterateStep(s, a); Accounted(s'.clients, s'.books, p)
  {
    ScheduleClientFrame(s, s.next, a);
    ScheduleClientAccounted(s, s.next, a, p);
    PassTurnAccounted(ScheduleClient(s, s.next, a).0, p);
  }

  lemma PassTurnValid(s: Sys)
    requires Valid(s) && s.next < |s.clients|
    ensures Valid(PassTurn(s))
  {
    var j := Following(s.next, |s.clients|);
    PutValid(s, j, s.clients[j].(cost := 0), s.books);
  }

  lemma AdvanceValid(s: Sys, progress: bool)
    requires Valid(s) && s.loop.Some?
    ensures Valid(Advance(s, progress))
  {
    PassTurnValid(s);
  }

  lemma IterateValid(s: Sys, a: Answer)
    requires Enabled(s, Iterate(a)) && Valid(s)
    ensures Valid(IterateStep(s, a))
  {
    ScheduleClientFrame(s, s.next, a);
    ScheduleClientValid(s, s.next, a);
    AdvanceValid(ScheduleClient(s, s.next, a).0, ScheduleClient(s, s.next, a).1);
  }

  // ---------------------------------------------------------------- every event

  lemma InvalidateConserves(c: Context, b: Books, fail: bool, p: Probe)
    ensures var (c', b') := Invalidate(c, b, fail); Conserves(c, b, c', b', p)
  {
  }

  lemma ArriveConserves(c: Context, b: Books, cost: nat, shape: Shape, maps: seq<Mapping>, p: Probe)
    ensures var (c', b') := Perform(c, b, Arrive(cost, shape, maps)); Conserves(c, b, c', b', p)
  {
    if p.OfRequest? {
      var r := Request(|b.arrived|, c.id, cost, shape, maps);
      CountJoin(c.queue, [r], p.request);
      CountJoin(b.arrived, [r], p.request);
    }
  }

  lemma ResetConserves(c: Context, b: Books, p: Probe)
    ensures var (c', b') := Perform(c, b, DriverReset); Conserves(c, b, c', b', p)
  {
    InvalidateConserves(c, b, false, p);
    if p.OfRequest? { CountJoin(b.abandoned, c.queue, p.request); }
  }

  lemma StoppedConserves(c: Context, b: Books, state: Shutdown, gone: set<nat>, fail: bool, p: Probe)
    ensures var (c', b') := Invalidate(c.(state := state), b.(gone := gone), fail); Conserves(c, b, c', b', p)
  {
    InvalidateConserves(c.(state := state), b.(gone := gone), fail, p);
  }

  lemma PerformConserves(c: Context, b: Books, act: Act, p: Probe)
    requires Allowed(c, act)
    ensures var (c', b') := Perform(c, b, act); Conserves(c, b, c', b', p)
  {
    match act
    case Arrive(cost, shape, maps) => ArriveConserves(c, b, cost, shape, maps, p);
    case DriverReset => ResetConserves(c, b, p);
    case Leave => StoppedConserves(c, b, ClientGone, b.gone + {c.id}, false, p);
    case Halt(suspend) =>
      StoppedConserves(c, b, if suspend then SystemSuspend else SystemShutdown, b.gone, true, p);
    case _ =>
  }

  lemma PerformValid(c: Context, b: Books, act: Act)
    requires ContextValid(c) && Allowed(c, act)
    ensures ContextValid(Perform(c, b, act).0) && Perform(c, b, act).0.id == c.id
  {
  }

  lemma BeginAccounted(s: Sys, p: Probe)
    requires Accounted(s.clients, s.books, p)
    ensures var s' := BeginStep(s); Accounted(s'.clients, s'.books, p)
  {
    if s.clients != [] { TotalSame(s.clients, BeginStep(s).clients, p); }
  }

  lemma StepAccounted(s: Sys, e: Event, p: Probe)
    requires Enabled(s, e) && Valid(s) && Accounted(s.clients, s.books, p)
    ensures var s' := Step(s, e); Accounted(s'.clients, s'.books, p)
  {
    match e
    case Begin => BeginAccounted(s, p);
    case Iterate(a) => IterateAccounted(s, a, p);
    case Complete(i, k) => CompleteAtAccounted(s, i, k, p);
    case Client(i, act) =>
      var (c', b') := Perform(s.clients[i], s.books, act);
      PerformConserves(s.clients[i], s.books, act, p);
      PutAccounted(s, i, c', b', p);
    case AddClient(domain, weight) =>
      TotalSplit(s.clients, AddStep(s, domain, weight).clients[|s.clients|..], p);
    case RemoveClient(i) => RemoveAccounted(s, i, p);
  }

  lemma RemoveAccounted(s: Sys, i: nat, p: Probe)
    requires i < |s.clients| && s.clients[i].flight == [] && s.clients[i].pending.None?
    requires Accounted(s.clients, s.books, p)
    ensures var s' := RemoveStep(s, i); Accounted(s'.clients, s'.books, p)
  {
    TotalRemove(s.clients, i, p);
    if p.OfRequest? { CountJoin(s.books.abandoned, s.clients[i].queue, p.request); }
  }

  lemma StepValid(s: Sys, e: Event)
    requires Enabled(s, e) && Valid(s)
    ensures Valid(Step(s, e))
  {
    match e
    case Begin =>
      if s.clients != [] {
        var n := if s.next >= |s.clients| then 0 else s.next;
        PutValid(s, n, s.clients[n].(cost := 0), s.books);
      }
    case Iterate(a) => IterateValid(s, a);
    case Complete(i, k) => CompleteAtValid(s, i, k);
    case Client(i, act) =>
      var (c', b') := Perform(s.clients[i], s.books, act);
      PerformValid(s.clients[i], s.books, act);
      PutValid(s, i, c', b');
    case AddClient(domain, weight) => AddValid(s, domain, weight);
    case RemoveClient(i) => RemoveValid(s, i);
  }

  lemma AddValid(s: Sys, domain: nat, weight: nat)
    requires Valid(s) && s.loop.None?
    ensures Valid(AddStep(s, domain, weight))
  {
  }

  lemma RemoveValid(s: Sys, i: nat)
    requires Valid(s) && s.loop.None? && i < |s.clients|
    ensures Valid(RemoveStep(s, i))
  {
  }
}
