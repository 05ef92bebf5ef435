/**
 The request scheduler together with the clients it serves and the device below
 them, as one step system.  A `Context` is what the scheduler keeps per client
 (pending request, busy flag, charged cost) together with the client's own state
 (its queue, its shutdown state, its in-flight counter) and the requests the
 device currently holds for it.  `Books` is history only: nothing in the
 behaviour reads it.
 */
module BlockSystem {
  import opened Wrappers

  const U32: nat := 0x1_0000_0000

  /** A DMA mapping made while a request was built; empty ones are never unmapped. */
  datatype Mapping = Mapping(addr: nat, sectors: nat)

  /** What the sanity checks will make of a request taken from a queue. */
  datatype Shape =
    | Malformed    // no request object can be created; the queue goes into the fail state
    | Rejected     // building its block list fails part-way
    | Sound        // becomes a pending request

  /** `maps` are the mappings made while the block list is built, also when that fails part-way. */
  datatype Request = Request(id: nat, client: nat, cost: nat, shape: Shape, maps: seq<Mapping>)

  datatype Shutdown = Running | ClientGone | SystemShutdown | SystemSuspend

  datatype Context = Context(
    id: nat, domain: nat, weight: nat,
    queue: seq<Request>, live: bool, state: Shutdown,
    flight: seq<Request>, inFlight: nat,
    pending: Option<Request>, busy: bool, cost: nat)

  datatype Books = Books(
    arrived: seq<Request>,
    abandoned: seq<Request>,
    finalized: multiset<Request>,
    dropped: multiset<Request>,
    mapped: multiset<Mapping>,
    unmapped: multiset<Mapping>,
    resets: map<nat, nat>,   // how many requests had arrived when a client was last reset
    gone: set<nat>)          // clients that disappeared

  /** One turn of a client, with the requests handed to the device during it. */
  datatype Visit = Visit(client: nat, sent: seq<Request>)

  /** The local variables of a running `schedule()`. */
  datatype Loop = Loop(start: nat, recheck: bool)

  datatype Sys = Sys(
    clients: seq<Context>, added: nat, next: nat, trigger: bool,
    loop: Option<Loop>, visits: seq<Visit>, books: Books)

  datatype Verdict =
    | Accept       // submitted; completes later
    | AcceptDone   // submitted and completed before the submit call returned
    | Busy         // -L4_EBUSY
    | Fail         // any other error

  /** A device may also finish earlier requests while a submit call is running. */
  datatype Answer = Answer(done: seq<(nat, nat)>, verdict: Verdict)

  /** What can happen to one client outside of `schedule()`. */
  datatype Act =
    | Arrive(cost: nat, shape: Shape, maps: seq<Mapping>)   // the client fills a queue slot and notifies
    | DriverReset                                           // the driver resets the device, also by a shutdown call
    | SetupQueue
    | Leave                                                 // Client_gone
    | Halt(suspend: bool)                                   // System_suspend or System_shutdown
    | Resume

  datatype Event =
    | Begin
    | Iterate(answer: Answer)
    | Complete(client: nat, pos: nat)
    | Client(client: nat, act: Act)
    | AddClient(domain: nat, weight: nat)
    | RemoveClient(client: nat)

  // ---------------------------------------------------------------- bookkeeping

  function NonEmpty(maps: seq<Mapping>): seq<Mapping> {
    if maps == [] then []
    else (if maps[0].sectors > 0 then [maps[0]] else []) + NonEmpty(maps[1..])
  }

  /** The mappings that a request object unmaps when it is destroyed. */
  function Held(maps: seq<Mapping>): multiset<Mapping> { multiset(NonEmpty(maps)) }

  function SumCost(rs: seq<Request>): nat {
    if rs == [] then 0 else rs[0].cost + SumCost(rs[1..])
  }

  function Finalize(b: Books, r: Request): Books {
    b.(finalized := b.finalized + multiset{r})
  }

  function Drop(b: Books, r: Request): Books {
    b.(dropped := b.dropped + multiset{r})
  }

  /** The request object is destroyed: every non-empty mapping is unmapped. */
  function Destroy(b: Books, r: Request): Books {
    b.(unmapped := b.unmapped + Held(r.maps))
  }

  // ---------------------------------------------------------------- client side

  function Put(s: Sys, i: nat, c: Context, b: Books): Sys
    requires i < |s.clients|
  {
    s.(clients := s.clients[i := c], books := b)
  }

  predicate Ready(c: Context) { c.live && c.state != ClientGone }

  function Decrement(n: nat): nat { (n + U32 - 1) % U32 }
  function Increment(n: nat): nat { (n + 1) % U32 }

  function Freed(c: Context, domain: nat): Context { if c.domain == domain then c.(busy := false) else c }

  function FreeAll(cs: seq<Context>, domain: nat): (r: seq<Context>)
    ensures |r| == |cs| && forall j :: 0 <= j < |cs| ==> r[j] == Freed(cs[j], domain)
  {
    if cs == [] then [] else FreeAll(cs[..|cs| - 1], domain) + [Freed(cs[|cs| - 1], domain)]
  }

  predicate Waiting(cs: seq<Context>, domain: nat) {
    exists j :: 0 <= j < |cs| && cs[j].busy && cs[j].domain == domain
  }

  /** The device holds a request of the notification domain. */
  predicate Occupied(cs: seq<Context>, domain: nat) {
    exists j :: 0 <= j < |cs| && cs[j].domain == domain && cs[j].flight != []
  }

  /** `client_idle`: clear the busy marks of a notification domain, trigger if there were any. */
  function Idle(s: Sys, domain: nat): Sys {
    s.(clients := FreeAll(s.clients, domain), trigger := s.trigger || Waiting(s.clients, domain))
  }

  /** The part of `task_finished` that touches the owner and the history. */
  function Settle(b: Books, c: Context, r: Request): Books {
    Destroy(if c.state == ClientGone then Drop(b, r) else Finalize(b, r), r)
  }

  function Without(c: Context, k: nat): Context
    requires k < |c.flight|
  {
    c.(flight := c.flight[..k] + c.flight[k + 1..], inFlight := Decrement(c.inFlight))
  }

  /** `task_finished` for the request at position `k` of the device's list of client `i`. */
  function CompleteAt(s: Sys, i: nat, k: nat): Sys {
    if i < |s.clients| && k < |s.clients[i].flight| then
      var c := s.clients[i];
      Idle(Put(s, i, Without(c, k), Settle(s.books, c, c.flight[k])), c.domain)
    else s
  }

  function CompleteAll(s: Sys, done: seq<(nat, nat)>): Sys
    decreases |done|
  {
    if done == [] then s else CompleteAll(CompleteAt(s, done[0].0, done[0].1), done[1..])
  }

  // ---------------------------------------------------------------- scheduler

  function Sent(s: Sys, r: Request): Sys {
    if s.visits == [] then s
    else
      var v := s.visits[|s.visits| - 1];
      s.(visits := s.visits[|s.visits| - 1 := v.(sent := v.sent + [r])])
  }

  /** What becomes of a pending request, and of its client, after the device answered `verdict`. */
  function Reply(c: Context, b: Books, verdict: Verdict): (Context, Books)
    requires c.pending.Some?
  {
    var r := c.pending.value;
    var charged := c.(pending := None, cost := c.cost + r.cost);
    match verdict
    case Busy => (c.(busy := true), b)
    case Fail => (charged, Destroy(Finalize(b, r), r))
    case Accept => (charged.(flight := c.flight + [r], inFlight := Increment(c.inFlight)), b)
    case AcceptDone =>
      // the callback runs inside the submit call, before the counter is raised
      (charged.(inFlight := Increment(Decrement(c.inFlight))), Settle(b, c, r))
  }

  /** The pending request was handed to the device, which answered `verdict`. */
  function Respond(s: Sys, i: nat, verdict: Verdict): (Sys, bool)
    requires i < |s.clients| && s.clients[i].pending.Some?
  {
    var c := s.clients[i];
    var (c', b') := Reply(c, s.books, verdict);
    var s1 := Put(s, i, c', b');
    match verdict
    case Busy => (s1, false)
    case AcceptDone => (Sent(Idle(s1, c.domain), c.pending.value), true)
    case _ => (Sent(s1, c.pending.value), true)
  }

  predicate Preempts(c: Context) { c.pending.Some? && c.cost + c.pending.value.cost > c.weight }

  function HandlePending(s: Sys, i: nat, a: Answer): (Sys, bool)
    requires i < |s.clients| && s.clients[i].pending.Some?
  {
    if Preempts(s.clients[i]) then
      (Put(s, i, s.clients[i].(cost := s.clients[i].weight), s.books), true)
    else
      CompleteAllFrame(s, a.done);
      Respond(CompleteAll(s, a.done), i, a.verdict)
  }

  predicate HasNew(c: Context) { Ready(c) && c.queue != [] }

  /** `get_request` and `start_request`: the head of the queue is rejected, failed or made pending. */
  function Start(c: Context, b: Books): (Context, Books)
    requires HasNew(c) && c.pending.None?
  {
    var r := c.queue[0];
    var c1 := c.(queue := c.queue[1..]);
    if r.shape.Malformed? then
      (c1.(live := false), b.(abandoned := b.abandoned + [r]))
    else if c.state != Running then
      (c1, Finalize(b, r))
    else
      var b1 := b.(mapped := b.mapped + Held(r.maps));
      if r.shape.Rejected? then (c1, Destroy(Finalize(b1, r), r))
      else (c1.(pending := Some(r)), b1)
  }

  function ScheduleClient(s: Sys, i: nat, a: Answer): (Sys, bool)
    requires i < |s.clients|
  {
    var c := s.clients[i];
    if c.pending.Some? then
      if c.busy then (s, false) else HandlePending(s, i, a)
    else if HasNew(c) then
      var (c', b') := Start(c, s.books);
      if c'.pending.Some? then HandlePending(Put(s, i, c', b'), i, a)
      else (Put(s, i, c', b'), !c.queue[0].shape.Malformed?)
    else (s, false)
  }

  function Following(i: nat, n: nat): nat { if i + 1 >= n then 0 else i + 1 }

  /** Whether the turn passes to the next client. */
  predicate Moves(s: Sys, progress: bool)
    requires s.next < |s.clients|
  {
    !progress || s.clients[s.next].cost >= s.clients[s.next].weight
  }

  /** The next client in turn starts with nothing charged. */
  function PassTurn(s: Sys): Sys
    requires s.next < |s.clients|
  {
    var j := Following(s.next, |s.clients|);
    s.(next := j, clients := s.clients[j := s.clients[j].(cost := 0)])
  }

  /** The part of the endless loop in `schedule()` that follows the handling of one client. */
  function Advance(s: Sys, progress: bool): Sys
    requires s.loop.Some? && s.next < |s.clients|
  {
    var move := Moves(s, progress);
    var s' := if move then PassTurn(s) else s;
    var start, recheck := s.loop.value.start, s.loop.value.recheck || progress;
    if s'.next == start && !recheck then
      s'.(next := start + 1, loop := None)
    else
      s'.(loop := Some(Loop(start, recheck && s'.next != start)),
          visits := if move then s'.visits + [Visit(s'.next, [])] else s'.visits)
  }

  /** One pass through the body of the endless loop in `schedule()`. */
  function IterateStep(s: Sys, a: Answer): Sys
    requires s.loop.Some? && s.next < |s.clients|
  {
    ScheduleClientFrame(s, s.next, a);
    var (s', progress) := ScheduleClient(s, s.next, a);
    Advance(s', progress)
  }

  /** The start of `schedule()`, which runs because the trigger was raised. */
  function BeginStep(s: Sys): Sys {
    if s.clients == [] then s.(trigger := false)
    else
      var n := if s.next >= |s.clients| then 0 else s.next;
      s.(trigger := false, next := n, clients := s.clients[n := s.clients[n].(cost := 0)],
         loop := Some(Loop(n, false)), visits := [Visit(n, [])])
  }

  /** `client_invalidate`; the pending request is failed or silently destroyed. */
  function Invalidate(c: Context, b: Books, fail: bool): (Context, Books) {
    (c.(busy := false, cost := 0, pending := None),
     match c.pending
     case None => b
     case Some(r) => Destroy(if fail then Finalize(b, r) else Drop(b, r), r))
  }

  predicate Allowed(c: Context, act: Act) {
    match act
    case Arrive(_, _, _) => c.live
    case DriverReset => c.state != ClientGone
    case SetupQueue => c.state != ClientGone && c.queue == []
    case Leave => c.state == Running
    case Halt(_) => c.state == Running
    case Resume => c.state == SystemSuspend
  }

  function Perform(c: Context, b: Books, act: Act): (Context, Books) {
    match act
    case Arrive(cost, shape, maps) =>
      var r := Request(|b.arrived|, c.id, cost, shape, maps);
      (c.(queue := c.queue + [r]), b.(arrived := b.arrived + [r]))
    case DriverReset =>
      var (c1, b1) := Invalidate(c, b, false);
      (c1.(queue := [], live := false),
       b1.(abandoned := b1.abandoned + c.queue, resets := b1.resets[c.id := |b1.arrived|]))
    case SetupQueue => (c.(live := true), b)
    case Leave => Invalidate(c.(state := ClientGone), b.(gone := b.gone + {c.id}), false)
    case Halt(suspend) => Invalidate(c.(state := if suspend then SystemSuspend else SystemShutdown), b, true)
    case Resume => (c.(state := Running), b)
  }

  // ---------------------------------------------------------------- whole runs

  /** When an event may happen.  The server loop is single-threaded, so while `schedule()` runs
      only its own iterations and clients filling their queues can be observed. */
  predicate Enabled(s: Sys, e: Event) {
    match e
    case Begin => s.loop.None? && s.trigger
    case Iterate(_) => s.loop.Some? && s.next < |s.clients|
    case Complete(i, k) => s.loop.None? && i < |s.clients| && k < |s.clients[i].flight|
    case Client(i, act) => i < |s.clients| && (act.Arrive? || s.loop.None?) && Allowed(s.clients[i], act)
    case AddClient(_, _) => s.loop.None?
    case RemoveClient(i) =>
      && s.loop.None? && i < |s.clients| && s.clients[i].state == ClientGone
      && s.clients[i].inFlight == 0 && |s.clients[i].flight| < U32
  }

  function AddStep(s: Sys, domain: nat, weight: nat): Sys {
    s.(clients := s.clients + [Context(s.added, domain, weight, [], false, Running, [], 0, None, false, 0)],
       added := s.added + 1, next := |s.clients| + 1)
  }

  function RemoveStep(s: Sys, i: nat): Sys
    requires i < |s.clients|
  {
    s.(clients := s.clients[..i] + s.clients[i + 1..], next := |s.clients| - 1,
       books := s.books.(abandoned := s.books.abandoned + s.clients[i].queue))
  }

  function ClientStep(s: Sys, i: nat, act: Act): Sys
    requires i < |s.clients|
  {
    var (c', b') := Perform(s.clients[i], s.books, act);
    Put(s, i, c', b').(trigger := s.trigger || act.Arrive?)
  }

  function Step(s: Sys, e: Event): Sys
    requires Enabled(s, e)
  {
    match e
    case Begin => BeginStep(s)
    case Iterate(a) => IterateStep(s, a)
    case Complete(i, k) => CompleteAt(s, i, k)
    case Client(i, act) => ClientStep(s, i, act)
    case AddClient(domain, weight) => AddStep(s, domain, weight)
    case RemoveClient(i) => RemoveStep(s, i)
  }

  const Initial: Sys :=
    Sys([], 0, 0, false, None, [], Books([], [], multiset{}, multiset{}, multiset{}, multiset{}, map[], {}))

  /** A run: every event is possible when it happens. */
  predicate Run(s: Sys, es: seq<Event>)
    decreases |es|
  {
    es == [] || (Enabled(s, es[0]) && Run(Step(s, es[0]), es[1..]))
  }

  function After(s: Sys, es: seq<Event>): Sys
    requires Run(s, es)
    decreases |es|
  {
    if es == [] then s else After(Step(s, es[0]), es[1..])
  }

  // ---------------------------------------------------------------- frames

  /** What handling one client may do to the context of another. */
  predicate Kept(c: Context, c': Context, trigger: bool) {
    && c' == c.(busy := c'.busy, flight := c'.flight, inFlight := c'.inFlight)
    && (c'.busy == c.busy || (!c'.busy && trigger))
  }

  predicate Framed(s: Sys, s': Sys) {
    && s' == s.(clients := s'.clients, trigger := s'.trigger, books := s'.books)
    && |s'.clients| == |s.clients|
    && (s.trigger ==> s'.trigger)
    && forall j :: 0 <= j < |s.clients| ==> Kept(s.clients[j], s'.clients[j], s'.trigger)
  }

  lemma IdleFrame(s: Sys, domain: nat)
    ensures Framed(s, Idle(s, domain))
  {
    var s' := Idle(s, domain);
    forall j | 0 <= j < |s.clients| ensures Kept(s.clients[j], s'.clients[j], s'.trigger) {
      assert s'.clients[j] == Freed(s.clients[j], domain);
    }
  }

  lemma CompleteAtFrame(s: Sys, i: nat, k: nat)
    ensures Framed(s, CompleteAt(s, i, k))
  {
    if i < |s.clients| && k < |s.clients[i].flight| {
      var c := s.clients[i];
      IdleFrame(Put(s, i, Without(c, k), Settle(s.books, c, c.flight[k])), c.domain);
    }
  }

  lemma {:induction false} CompleteAllFrame(s: Sys, done: seq<(nat, nat)>)
    ensures Framed(s, CompleteAll(s, done))
    decreases |done|
  {
    if done != [] {
      var s1 := CompleteAt(s, done[0].0, done[0].1);
      CompleteAtFrame(s, done[0].0, done[0].1);
      CompleteAllFrame(s1, done[1..]);
      var s2 := CompleteAll(s, done);
      forall j | 0 <= j < |s.clients| ensures Kept(s.clients[j], s2.clients[j], s2.trigger) {
        assert Kept(s.clients[j], s1.clients[j], s1.trigger);
        assert Kept(s1.clients[j], s2.clients[j], s2.trigger);
      }
    }
  }

  /** Handling client `i` touches nothing of the others but their busy mark and what the device holds. */
  predicate Handled(s: Sys, s': Sys, i: nat) {
    && s' == s.(clients := s'.clients, trigger := s'.trigger, books := s'.books, visits := s'.visits)
    && |s'.clients| == |s.clients|
    && |s'.visits| == |s.visits|
    && (s.trigger ==> s'.trigger)
    && forall j :: 0 <= j < |s.clients| && j != i ==> Kept(s.clients[j], s'.clients[j], s'.trigger)
  }

  lemma RespondFrame(s: Sys, i: nat, verdict: Verdict)
    requires i < |s.clients| && s.clients[i].pending.Some?
    ensures Handled(s, Respond(s, i, verdict).0, i)
  {
    var (c', b') := Reply(s.clients[i], s.books, verdict);
    var s1 := Put(s, i, c', b');
    IdleFrame(s1, s.clients[i].domain);
    SentFrame(s1, s.clients[i].pending.value);
    SentFrame(Idle(s1, s.clients[i].domain), s.clients[i].pending.value);
  }

  lemma SentFrame(s: Sys, r: Request)
    ensures Sent(s, r) == s.(visits := Sent(s, r).visits) && |Sent(s, r).visits| == |s.visits|
  {
  }

  /** What an answer leaves as it was in the client it is for, and what it changes. */
  predicate Answered(c: Context, c': Context, verdict: Verdict) {
    && c'.queue == c.queue && c'.weight == c.weight && c'.live == c.live && c'.state == c.state
    && if verdict.Busy? then c'.pending == c.pending && c'.busy && c'.cost == c.cost else c'.pending.None?
  }

  lemma ReplyOwn(c: Context, b: Books, verdict: Verdict)
    requires c.pending.Some?
    ensures Answered(c, Reply(c, b, verdict).0, verdict)
  {
  }

  lemma RespondOwn(s: Sys, i: nat, verdict: Verdict)
    requires i < |s.clients| && s.clients[i].pending.Some?
    ensures var (s', progress) := Respond(s, i, verdict);
      |s'.clients| == |s.clients| && (progress <==> !verdict.Busy?) && Answered(s.clients[i], s'.clients[i], verdict)
  {
    ReplyOwn(s.clients[i], s.books, verdict);
  }

  lemma HandlePendingFrame(s: Sys, i: nat, a: Answer)
    requires i < |s.clients| && s.clients[i].pending.Some?
    ensures Handled(s, HandlePending(s, i, a).0, i)
  {
    if !Preempts(s.clients[i]) {
      CompleteAllFrame(s, a.done);
      var s1 := CompleteAll(s, a.done);
      RespondFrame(s1, i, a.verdict);
      var s2 := Respond(s1, i, a.verdict).0;
      forall j | 0 <= j < |s.clients| && j != i ensures Kept(s.clients[j], s2.clients[j], s2.trigger) {
        assert Kept(s.clients[j], s1.clients[j], s1.trigger) && Kept(s1.clients[j], s2.clients[j], s2.trigger);
      }
    }
  }

  lemma ScheduleClientFrame(s: Sys, i: nat, a: Answer)
    requires i < |s.clients|
    ensures Handled(s, ScheduleClient(s, i, a).0, i)
  {
    var c := s.clients[i];
    if c.pending.Some? {
      if !c.busy { HandlePendingFrame(s, i, a); }
    } else if HasNew(c) {
      var (c', b') := Start(c, s.books);
      if c'.pending.Some? { HandlePendingFrame(Put(s, i, c', b'), i, a); }
    }
  }
}
