/** Fairness of the weighted scheduler inside one call of `schedule()`. */
module BlockFairness {
  import opened Wrappers
  import opened BlockSystem
  import opened BlockAccounts
  import opened BlockProgress

  /** Turns go round in order, and in one turn a client submits at most its weight. */
  predicate TurnsFair(s: Sys) {
    && s.visits != []
    && (forall k :: 0 <= k < |s.visits| ==>
          s.visits[k].client < |s.clients| && SumCost(s.visits[k].sent) <= s.clients[s.visits[k].client].weight)
    && (forall k :: 0 < k < |s.visits| ==> s.visits[k].client == Following(s.visits[k - 1].client, |s.clients|))
  }

  /** While `schedule()` runs, the last turn is the current client's and no more was submitted in it
      than has been charged. */
  predicate TurnOpen(s: Sys)
    requires TurnsFair(s)
  {
    s.loop.Some? ==>
      var v := s.visits[|s.visits| - 1];
      s.next < |s.clients| && v.client == s.next && SumCost(v.sent) <= s.clients[s.next].cost
  }

  lemma {:induction false} SumCostAppend(rs: seq<Request>, r: Request)
    ensures SumCost(rs + [r]) == SumCost(rs) + r.cost
  {
    if rs == [] {
      assert rs + [r] == [r];
    } else {
      assert (rs + [r])[1..] == rs[1..] + [r];
      SumCostAppend(rs[1..], r);
    }
  }

  /** One call of `schedule_client`: what it sends to the device it charges to the client. */
  predicate ChargesWhatItSends(s: Sys, s': Sys) {
    && s.visits != [] && |s'.visits| == |s.visits| && s.next < |s.clients| && |s'.clients| == |s.clients|
    && var v, v' := s.visits[|s.visits| - 1], s'.visits[|s.visits| - 1];
    && s'.visits == s.visits[|s.visits| - 1 := v']
    && v'.client == v.client
    && SumCost(v'.sent) + s.clients[s.next].cost <= SumCost(v.sent) + s'.clients[s.next].cost
  }

  lemma SentEffect(s: Sys, r: Request)
    requires s.visits != []
    ensures var v, s' := s.visits[|s.visits| - 1], Sent(s, r);
      && s'.clients == s.clients && |s'.visits| == |s.visits|
      && var v' := s'.visits[|s.visits| - 1];
      && s'.visits == s.visits[|s.visits| - 1 := v'] && v'.client == v.client
      && SumCost(v'.sent) == SumCost(v.sent) + r.cost
  {
    SumCostAppend(s.visits[|s.visits| - 1].sent, r);
  }

  lemma ReplyCost(c: Context, b: Books, verdict: Verdict)
    requires c.pending.Some?
    ensures Reply(c, b, verdict).0.cost == c.cost + if verdict.Busy? then 0 else c.pending.value.cost
  {
  }

  /** Sending a request that has been charged. */
  lemma SentCharges(s: Sys, s1: Sys, r: Request)
    requires s.visits != [] && s1.visits == s.visits && s.next < |s.clients| && |s1.clients| == |s.clients|
    requires s1.clients[s.next].cost == s.clients[s.next].cost + r.cost
    ensures ChargesWhatItSends(s, Sent(s1, r))
  {
    SentEffect(s1, r);
  }

  lemma RespondCharges(s: Sys, verdict: Verdict)
    requires s.visits != [] && s.next < |s.clients| && s.clients[s.next].pending.Some?
    ensures ChargesWhatItSends(s, Respond(s, s.next, verdict).0)
  {
    var c := s.clients[s.next];
    ReplyCost(c, s.books, verdict);
    var (c', b') := Reply(c, s.books, verdict);
    var s1 := Put(s, s.next, c', b');
    match verdict
    case Busy => NoCharge(s, c', b');
    case AcceptDone =>
      IdleFrame(s1, c.domain);
      assert Kept(c', Idle(s1, c.domain).clients[s.next], Idle(s1, c.domain).trigger);
      SentCharges(s, Idle(s1, c.domain), c.pending.value);
    case _ => SentCharges(s, s1, c.pending.value);
  }

  lemma HandlePendingCharges(s: Sys, a: Answer)
    requires s.visits != [] && s.next < |s.clients| && s.clients[s.next].pending.Some?
    requires s.clients[s.next].cost <= s.clients[s.next].weight
    ensures ChargesWhatItSends(s, HandlePending(s, s.next, a).0)
  {
    if !Preempts(s.clients[s.next]) {
      CompleteAllFrame(s, a.done);
      var s1 := CompleteAll(s, a.done);
      assert Kept(s.clients[s.next], s1.clients[s.next], s1.trigger);
      RespondCharges(s1, a.verdict);
    }
  }

  /** Setting aside the queue and the books of the client in turn changes no charge. */
  lemma ChargesAfterStart(s: Sys, c': Context, b': Books, s': Sys)
    requires s.visits != [] && s.next < |s.clients| && c'.cost == s.clients[s.next].cost
    requires ChargesWhatItSends(Put(s, s.next, c', b'), s')
    ensures ChargesWhatItSends(s, s')
  {
  }

  lemma NoCharge(s: Sys, c': Context, b': Books)
    requires s.visits != [] && s.next < |s.clients| && c'.cost == s.clients[s.next].cost
    ensures ChargesWhatItSends(s, Put(s, s.next, c', b'))
  {
  }

  lemma ScheduleClientCharges(s: Sys, a: Answer)
    requires s.visits != [] && s.next < |s.clients| && s.clients[s.next].cost <= s.clients[s.next].weight
    ensures ChargesWhatItSends(s, ScheduleClient(s, s.next, a).0)
  {
    var c := s.clients[s.next];
    if c.pending.Some? {
      if !c.busy { HandlePendingCharges(s, a); }
    } else if HasNew(c) {
      var (c', b') := Start(c, s.books);
      assert c'.cost == c.cost && c'.weight == c.weight;
      var s1 := Put(s, s.next, c', b');
      if c'.pending.Some? {
        HandlePendingCharges(s1, a);
        ChargesAfterStart(s, c', b', HandlePending(s1, s.next, a).0);
      } else {
        NoCharge(s, c', b');
      }
    }
  }

  predicate Fair(s: Sys) { TurnsFair(s) && TurnOpen(s) }

  lemma HandledFair(s: Sys, s': Sys)
    requires Valid(s) && Valid(s') && Fair(s) && s.loop.Some?
    requires Handled(s, s', s.next) && ChargesWhatItSends(s, s')
    requires s'.clients[s.next].weight == s.clients[s.next].weight
    ensures Fair(s')
  {
    forall k | 0 <= k < |s'.visits|
      ensures s'.visits[k].client < |s'.clients| && SumCost(s'.visits[k].sent) <= s'.clients[s'.visits[k].client].weight
    {
      var j := s.visits[k].client;
      assert j != s.next ==> Kept(s.clients[j], s'.clients[j], s'.trigger);
      assert ContextValid(s'.clients[s.next]);
    }
  }

  lemma IterateFair(s: Sys, a: Answer)
    requires Valid(s) && Enabled(s, Iterate(a)) && Fair(s)
    ensures Fair(IterateStep(s, a))
  {
    ScheduleClientFrame(s, s.next, a);
    ScheduleClientValid(s, s.next, a);
    ScheduleClientTurn(s, s.next, a);
    ScheduleClientCharges(s, a);
    HandledFair(s, ScheduleClient(s, s.next, a).0);
    AdvanceFair(ScheduleClient(s, s.next, a).0, ScheduleClient(s, s.next, a).1);
  }

  /** Fairness of the turns so far depends on the clients' weights only. */
  lemma SameWeights(s: Sys, s': Sys)
    requires TurnsFair(s) && s'.visits == s.visits && |s'.clients| == |s.clients|
    requires forall j :: 0 <= j < |s.clients| ==> s'.clients[j].weight == s.clients[j].weight
    ensures TurnsFair(s')
  {
    forall k | 0 <= k < |s.visits|
      ensures s.visits[k].client < |s.clients| && SumCost(s.visits[k].sent) <= s'.clients[s.visits[k].client].weight
    {
      assert s'.clients[s.visits[k].client].weight == s.clients[s.visits[k].client].weight;
    }
  }

  lemma NewTurnFair(s: Sys, j: nat)
    requires TurnsFair(s) && j < |s.clients| && j == Following(s.visits[|s.visits| - 1].client, |s.clients|)
    ensures TurnsFair(s.(visits := s.visits + [Visit(j, [])]))
  {
    assert SumCost([]) == 0;
  }

  lemma PassTurnFair(s: Sys)
    requires s.next < |s.clients| && TurnsFair(s) && s.visits[|s.visits| - 1].client == s.next
    ensures
      var t := PassTurn(s);
      TurnsFair(t) && TurnsFair(t.(visits := t.visits + [Visit(t.next, [])]))
  {
    var t := PassTurn(s);
    SameWeights(s, t);
    NewTurnFair(t, t.next);
  }

  /** Only turns, weights, the position and the charge of the client in turn matter. */
  lemma SameTurns(s: Sys, s': Sys)
    requires TurnsFair(s) && s' == s.(next := s'.next, loop := s'.loop)
    ensures TurnsFair(s')
  {
  }

  lemma AdvanceFair(s: Sys, progress: bool)
    requires s.loop.Some? && LoopValid(s) && Fair(s)
    ensures Fair(Advance(s, progress))
  {
    var s' := Advance(s, progress);
    if Moves(s, progress) {
      PassTurnFair(s);
      var t := PassTurn(s);
      assert SumCost([]) == 0;
      SameTurns(if s'.loop.None? then t else t.(visits := t.visits + [Visit(t.next, [])]), s');
    } else {
      SameTurns(s, s');
    }
  }

  lemma ArriveFair(s: Sys, i: nat, act: Act)
    requires Fair(s) && i < |s.clients| && act.Arrive?
    ensures Fair(ClientStep(s, i, act))
  {
    var s' := ClientStep(s, i, act);
    forall j | 0 <= j < |s.clients|
      ensures s'.clients[j].weight == s.clients[j].weight && s'.clients[j].cost == s.clients[j].cost
    {
    }
  }

  /** Throughout `schedule()`, turns go round in order and each turn stays within its client's weight. */
  lemma {:induction false} ScheduleIsFair(s: Sys, es: seq<Event>)
    requires Valid(s) && Fair(s) && Run(s, es) && DuringSchedule(es)
    ensures Fair(After(s, es))
    decreases |es|
  {
    if es != [] {
      StepValid(s, es[0]);
      match es[0] {
        case Iterate(a) => IterateFair(s, a);
        case Client(i, act) => ArriveFair(s, i, act);
      }
      ScheduleIsFair(Step(s, es[0]), es[1..]);
    }
  }

  lemma BeginIsFair(s: Sys)
    requires Valid(s) && s.clients != []
    ensures Fair(BeginStep(s))
  {
  }

  // ---------------------------------------------------------------- what fairness means

  lemma {:induction false} RoundRobin(s: Sys, a: nat, k: nat)
    requires TurnsFair(s) && a + k < |s.visits| && k <= |s.clients|
    ensures var i, n := s.visits[a].client, |s.clients|;
            s.visits[a + k].client == if i + k < n then i + k else i + k - n
  {
    if k > 0 { RoundRobin(s, a, k - 1); }
  }

  /** Turns less than a round apart belong to different clients. */
  lemma RoundDistinct(s: Sys, a: nat, k: nat)
    requires TurnsFair(s) && 0 < k < |s.clients| && a + k < |s.visits|
    ensures s.visits[a + k].client != s.visits[a].client
  {
    RoundRobin(s, a, k);
  }

  /** Between two consecutive turns of one client in a call, every other client has exactly one turn. */
  lemma OneTurnEach(s: Sys, a: nat, j: nat)
    requires TurnsFair(s) && a + |s.clients| < |s.visits| && j < |s.clients| && j != s.visits[a].client
    ensures s.visits[a + |s.clients|].client == s.visits[a].client
    ensures forall k :: a < k < a + |s.clients| ==> s.visits[k].client != s.visits[a].client
    ensures exists k :: a < k < a + |s.clients| && s.visits[k].client == j
    ensures forall k, l :: a < k < l < a + |s.clients| ==> s.visits[k].client != s.visits[l].client
  {
    var n, i := |s.clients|, s.visits[a].client;
    RoundRobin(s, a, n);
    var d := if j > i then j - i else j + n - i;
    RoundRobin(s, a, d);
    assert s.visits[a + d].client == j;
    forall k | a < k < a + n ensures s.visits[k].client != i { RoundDistinct(s, a, k - a); }
    forall k, l | a < k < l < a + n ensures s.visits[k].client != s.visits[l].client {
      RoundDistinct(s, k, l - k);
    }
  }

  lemma {:induction false} CountCost(rs: seq<Request>)
    requires forall k :: 0 <= k < |rs| ==> rs[k].cost >= 1
    ensures |rs| <= SumCost(rs)
  {
    if rs != [] { CountCost(rs[1..]); }
  }

  /** With unit costs and unit weights (the round-robin scheduler) a turn submits at most one request. */
  lemma RoundRobinSubmitsOne(s: Sys, k: nat)
    requires TurnsFair(s) && k < |s.visits| && s.clients[s.visits[k].client].weight == 1
    requires forall l :: 0 <= l < |s.visits[k].sent| ==> s.visits[k].sent[l].cost == 1
    ensures |s.visits[k].sent| <= 1
  {
    CountCost(s.visits[k].sent);
  }
}
