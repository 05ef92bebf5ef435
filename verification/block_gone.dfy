/** A client that has disappeared is never answered again: nothing finalizes a request of it any more.  A client that
    was reset starts afresh. */
module BlockGone {
  import opened Wrappers
  import opened BlockSystem
  import opened BlockAccounts
  import BlockRuns

  /** A client recorded as gone is in the state that says so. */
  predicate Knows(c: Context, b: Books) { c.id in b.gone ==> c.state == ClientGone }

  predicate GoneKnown(s: Sys) {
    && (forall id :: id in s.books.gone ==> id < s.added)
    && (forall i :: 0 <= i < |s.clients| ==> Knows(s.clients[i], s.books))
  }

  /** Between two books nobody disappeared, and nothing of those who had disappeared was finalized. */
  predicate Silent(b: Books, b': Books, r: Request) {
    b'.gone == b.gone && (r.client in b.gone ==> b'.finalized[r] == b.finalized[r])
  }

  predicate SameOwner(c: Context, c': Context) { c'.id == c.id && c'.state == c.state }

  lemma SameOwners(s: Sys, s': Sys)
    requires GoneKnown(s) && s'.books.gone == s.books.gone && s'.added == s.added && |s'.clients| == |s.clients|
    requires forall i :: 0 <= i < |s.clients| ==> SameOwner(s.clients[i], s'.clients[i])
    ensures GoneKnown(s')
  {
    forall i | 0 <= i < |s'.clients| ensures Knows(s'.clients[i], s'.books) {
      assert Knows(s.clients[i], s.books) && SameOwner(s.clients[i], s'.clients[i]);
    }
  }

  lemma FramedOwners(s: Sys, s': Sys)
    requires GoneKnown(s) && s'.books.gone == s.books.gone && Framed(s, s')
    ensures GoneKnown(s')
  {
    forall i | 0 <= i < |s.clients| ensures SameOwner(s.clients[i], s'.clients[i]) {
      assert Kept(s.clients[i], s'.clients[i], s'.trigger);
    }
    SameOwners(s, s');
  }

  // ---------------------------------------------------------------- completions

  lemma SettleSilent(c: Context, b: Books, r0: Request, r: Request)
    requires Knows(c, b) && r0.client == c.id
    ensures Silent(b, Settle(b, c, r0), r)
  {
  }

  lemma CompleteSilent(s: Sys, i: nat, k: nat, r: Request)
    requires Valid(s) && GoneKnown(s)
    ensures var s' := CompleteAt(s, i, k); GoneKnown(s') && Silent(s.books, s'.books, r)
  {
    CompleteAtFrame(s, i, k);
    if i < |s.clients| && k < |s.clients[i].flight| {
      var c := s.clients[i];
      assert Owns(c, c.flight[k]) && Knows(c, s.books);
      SettleSilent(c, s.books, c.flight[k], r);
    }
    FramedOwners(s, CompleteAt(s, i, k));
  }

  lemma {:induction false} CompleteAllSilent(s: Sys, done: seq<(nat, nat)>, r: Request)
    requires Valid(s) && GoneKnown(s)
    ensures var s' := CompleteAll(s, done); GoneKnown(s') && Silent(s.books, s'.books, r)
    decreases |done|
  {
    if done != [] {
      CompleteAtValid(s, done[0].0, done[0].1);
      CompleteSilent(s, done[0].0, done[0].1, r);
      CompleteAllSilent(CompleteAt(s, done[0].0, done[0].1), done[1..], r);
    }
  }

  // ---------------------------------------------------------------- scheduling

  lemma ReplySilent(c: Context, b: Books, verdict: Verdict, r: Request)
    requires ContextValid(c) && c.pending.Some? && Knows(c, b)
    ensures var (c', b') := Reply(c, b, verdict); Silent(b, b', r) && SameOwner(c, c')
  {
    SettleSilent(c, b, c.pending.value, r);
  }

  lemma RespondSilent(s: Sys, i: nat, verdict: Verdict, r: Request)
    requires Valid(s) && GoneKnown(s) && i < |s.clients| && s.clients[i].pending.Some?
    ensures var s' := Respond(s, i, verdict).0; GoneKnown(s') && Silent(s.books, s'.books, r)
  {
    var c := s.clients[i];
    assert ContextValid(c) && Knows(c, s.books);
    ReplySilent(c, s.books, verdict, r);
    var (c', b') := Reply(c, s.books, verdict);
    var s1 := Put(s, i, c', b');
    assert s1.books.gone == s.books.gone;
    SameOwners(s, s1);
    IdleFrame(s1, c.domain);
    FramedOwners(s1, Idle(s1, c.domain));
  }

  lemma HandlePendingSilent(s: Sys, i: nat, a: Answer, r: Request)
    requires Valid(s) && GoneKnown(s) && i < |s.clients| && s.clients[i].pending.Some?
    ensures var s' := HandlePending(s, i, a).0; GoneKnown(s') && Silent(s.books, s'.books, r)
  {
    if Preempts(s.clients[i]) {
      SameOwners(s, HandlePending(s, i, a).0);
    } else {
      CompleteAllFrame(s, a.done);
      CompleteAllValid(s, a.done);
      CompleteAllSilent(s, a.done, r);
      var s1 := CompleteAll(s, a.done);
      assert Kept(s.clients[i], s1.clients[i], s1.trigger);
      RespondSilent(s1, i, a.verdict, r);
    }
  }

  lemma StartSilent(c: Context, b: Books, r: Request)
    requires ContextValid(c) && HasNew(c) && c.pending.None? && Knows(c, b)
    ensures var (c', b') := Start(c, b); Silent(b, b', r) && SameOwner(c, c')
  {
    assert Owns(c, c.queue[0]);
  }

  lemma ScheduleClientSilent(s: Sys, i: nat, a: Answer, r: Request)
    requires Valid(s) && GoneKnown(s) && i < |s.clients|
    ensures var s' := ScheduleClient(s, i, a).0; GoneKnown(s') && Silent(s.books, s'.books, r)
  {
    var c := s.clients[i];
    assert ContextValid(c) && Knows(c, s.books);
    if c.pending.Some? {
      if !c.busy { HandlePendingSilent(s, i, a, r); }
    } else if HasNew(c) {
      StartSilent(c, s.books, r);
      StartValid(c, s.books);
      var (c', b') := Start(c, s.books);
      var s1 := Put(s, i, c', b');
      PutValid(s, i, c', b');
      SameOwners(s, s1);
      if c'.pending.Some? { HandlePendingSilent(s1, i, a, r); }
    }
  }

  lemma AdvanceOwners(s: Sys, progress: bool)
    requires GoneKnown(s) && s.loop.Some? && s.next < |s.clients|
    ensures GoneKnown(Advance(s, progress)) && Advance(s, progress).books == s.books
  {
    SameOwners(s, Advance(s, progress));
  }

  // ---------------------------------------------------------------- every event

  /** A client's own action; leaving drops the pending request unanswered. */
  lemma PerformSilent(c: Context, b: Books, act: Act, r: Request)
    requires ContextValid(c) && Allowed(c, act) && Knows(c, b)
    ensures var (c', b') := Perform(c, b, act);
      && Knows(c', b') && c'.id == c.id && b.gone <= b'.gone <= b.gone + {c.id}
      && (r.client in b'.gone ==> b'.finalized[r] == b.finalized[r])
  {
  }

  lemma ClientSilent(s: Sys, i: nat, act: Act, r: Request)
    requires Valid(s) && GoneKnown(s) && i < |s.clients| && Allowed(s.clients[i], act)
    ensures var s' := ClientStep(s, i, act);
      GoneKnown(s') && (r.client in s'.books.gone ==> s'.books.finalized[r] == s.books.finalized[r])
  {
    var c := s.clients[i];
    assert ContextValid(c) && Knows(c, s.books) && c.id < s.added;
    PerformSilent(c, s.books, act, r);
    var s' := ClientStep(s, i, act);
    forall j | 0 <= j < |s'.clients| ensures Knows(s'.clients[j], s'.books) {
      if j != i {
        assert s'.clients[j] == s.clients[j] && Knows(s.clients[j], s.books);
        assert s.clients[j].id != c.id;
      }
    }
  }

  lemma RemoveSilent(s: Sys, i: nat)
    requires GoneKnown(s) && i < |s.clients|
    ensures GoneKnown(RemoveStep(s, i)) && RemoveStep(s, i).books.finalized == s.books.finalized
  {
    var s' := RemoveStep(s, i);
    forall j | 0 <= j < |s'.clients| ensures Knows(s'.clients[j], s'.books) {
      assert s'.clients[j] == s.clients[if j < i then j else j + 1];
    }
  }

  /** No event finalizes a request of a client that is gone once the event has happened: not a completion,
      also not one inside a submit call, not a scheduling pass, and not the disappearance itself. */
  lemma StepSilent(s: Sys, e: Event, r: Request)
    requires Valid(s) && GoneKnown(s) && Enabled(s, e)
    ensures var s' := Step(s, e);
      && GoneKnown(s') && s.books.gone <= s'.books.gone
      && (r.client in s'.books.gone ==> s'.books.finalized[r] == s.books.finalized[r])
  {
    match e
    case Begin => SameOwners(s, BeginStep(s));
    case Iterate(a) =>
      ScheduleClientFrame(s, s.next, a);
      ScheduleClientSilent(s, s.next, a, r);
      AdvanceOwners(ScheduleClient(s, s.next, a).0, ScheduleClient(s, s.next, a).1);
    case Complete(i, k) => CompleteSilent(s, i, k, r);
    case Client(i, act) =>
      ClientSilent(s, i, act, r);
      assert ContextValid(s.clients[i]) && Knows(s.clients[i], s.books);
      PerformSilent(s.clients[i], s.books, act, r);
    case AddClient(_, _) =>
    case RemoveClient(i) => RemoveSilent(s, i);
  }

  lemma {:induction false} RunSilent(s: Sys, es: seq<Event>, r: Request)
    requires Valid(s) && GoneKnown(s) && Run(s, es)
    ensures var s' := After(s, es);
      && Valid(s') && GoneKnown(s') && s.books.gone <= s'.books.gone
      && (r.client in s.books.gone ==> s'.books.finalized[r] == s.books.finalized[r])
    decreases |es|
  {
    if es != [] {
      StepValid(s, es[0]);
      StepSilent(s, es[0], r);
      RunSilent(Step(s, es[0]), es[1..], r);
    }
  }

  /** Over every run: once a client has disappeared, no request of it is ever finalized again, however many
      of them the device still completes. */
  lemma GoneNeverAnswered(es: seq<Event>, fs: seq<Event>, r: Request)
    requires Run(Initial, es) && Run(After(Initial, es), fs) && r.client in After(Initial, es).books.gone
    ensures After(After(Initial, es), fs).books.finalized[r] == After(Initial, es).books.finalized[r]
  {
    RunSilent(Initial, es, r);
    RunSilent(After(Initial, es), fs, r);
  }

  /** And a client is recorded as gone exactly by disappearing: from then on it stays so. */
  lemma LeaveIsForGood(es: seq<Event>, i: nat)
    requires Run(Initial, es) && i < |After(Initial, es).clients|
    ensures var s := After(Initial, es);
      s.clients[i].state == ClientGone <==> s.clients[i].id in s.books.gone
  {
    var s := After(Initial, es);
    BlockRuns.ReachableInv(es);
    RunSilent(Initial, es, Request(0, 0, 0, Sound, []));
    assert BlockRuns.Recorded(s.clients[i], s.books) && Knows(s.clients[i], s.books);
  }

  // ---------------------------------------------------------------- resets

  /** The client has no request outside of the device, and can have none before its queue is set up. */
  ghost predicate Afresh(c: Context) {
    && c.queue == [] && c.pending.None? && !c.busy && c.cost == 0
    && forall cost, shape, maps :: !Allowed(c, Arrive(cost, shape, maps))
  }

  /** A reset answers nothing, leaves what the device holds, and makes the client start afresh; so does a new one. */
  lemma ResetStartsAfresh(s: Sys, i: nat, domain: nat, weight: nat)
    requires i < |s.clients| && s.clients[i].state != ClientGone
    ensures
      var s' := ClientStep(s, i, DriverReset);
      && Afresh(s'.clients[i])
      && s'.clients[i].flight == s.clients[i].flight && s'.clients[i].state == s.clients[i].state
      && s'.books.finalized == s.books.finalized && s'.trigger == s.trigger
    ensures Afresh(AddStep(s, domain, weight).clients[|s.clients|])
  {
    var c' := ClientStep(s, i, DriverReset).clients[i];
    assert !c'.live && !AddStep(s, domain, weight).clients[|s.clients|].live;
  }
}
