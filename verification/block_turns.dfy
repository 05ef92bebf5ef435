/** The order of turns over whole runs of the block system, from one call of `schedule()` to the next. */
module BlockTurns {
  import opened Wrappers
  import opened BlockSystem
  import opened BlockAccounts
  import opened BlockProgress
  import opened BlockFairness
  import BlockRuns

  /** A turn of a client in the call that started with client `start`. */
  datatype Turn = Turn(client: nat, start: nat)

  /** The turn that an event opens, if it does. */
  function Opened(s: Sys, e: Event): seq<Turn>
    requires Enabled(s, e)
  {
    var s' := Step(s, e);
    if e.Begin? && s.clients != [] then [Turn(s'.next, s'.next)]
    else if e.Iterate? && |s'.visits| > |s.visits| then [Turn(s'.next, s.loop.value.start)]
    else []
  }

  function Turns(s: Sys, es: seq<Event>): seq<Turn>
    requires Run(s, es)
    decreases |es|
  {
    if es == [] then [] else Opened(s, es[0]) + Turns(Step(s, es[0]), es[1..])
  }

  /** Clients neither come nor go. */
  predicate Steady(es: seq<Event>) {
    forall k :: 0 <= k < |es| ==> !es[k].AddClient? && !es[k].RemoveClient?
  }

  /** The turn after `t`: the next client's in the same call; or, when the round of that call is complete,
      the first turn of another call, which leaves out the client that the earlier call started with. */
  predicate Follows(t: Turn, t': Turn, n: nat) {
    || (t'.start == t.start && t'.client == Following(t.client, n))
    || (t'.client == t'.start == Following(t.start, n) && Following(t.client, n) == t.start)
  }

  predicate Chain(t: Turn, ts: seq<Turn>, n: nat)
    decreases |ts|
  {
    ts == [] || (Follows(t, ts[0], n) && Chain(ts[0], ts[1..], n))
  }

  /** The system is in turn `t`, or the call that it was the last turn of has returned. */
  predicate InTurn(s: Sys, t: Turn) {
    if s.loop.Some? then s.next == t.client && s.loop.value.start == t.start
    else Following(t.client, |s.clients|) == t.start < |s.clients| && s.next == t.start + 1
  }

  predicate Continues(s: Sys, s': Sys, t: Turn, more: seq<Turn>) {
    && |s'.clients| == |s.clients|
    && if more == [] then InTurn(s', t) else |more| == 1 && Follows(t, more[0], |s.clients|) && InTurn(s', more[0])
  }

  lemma IterateTurn(s: Sys, a: Answer, t: Turn)
    requires Enabled(s, Iterate(a)) && LoopValid(s) && InTurn(s, t)
    ensures Continues(s, Step(s, Iterate(a)), t, Opened(s, Iterate(a)))
  {
    ScheduleClientFrame(s, s.next, a);
  }

  lemma StepTurn(s: Sys, e: Event, t: Turn)
    requires Enabled(s, e) && LoopValid(s) && InTurn(s, t) && !e.AddClient? && !e.RemoveClient?
    ensures Continues(s, Step(s, e), t, Opened(s, e))
  {
    match e
    case Iterate(a) => IterateTurn(s, a, t);
    case _ =>
  }

  lemma {:induction false} TurnsChain(s: Sys, es: seq<Event>, t: Turn)
    requires Valid(s) && Run(s, es) && Steady(es) && InTurn(s, t)
    ensures Chain(t, Turns(s, es), |s.clients|)
    decreases |es|
  {
    if es != [] {
      StepTurn(s, es[0], t);
      StepValid(s, es[0]);
      var s', more := Step(s, es[0]), Opened(s, es[0]);
      if more == [] {
        TurnsChain(s', es[1..], t);
        assert Turns(s, es) == Turns(s', es[1..]);
      } else {
        TurnsChain(s', es[1..], more[0]);
        assert Turns(s, es)[0] == more[0] && Turns(s, es)[1..] == Turns(s', es[1..]);
      }
    }
  }

  /** From the first turn of any call on, over every run in which clients neither come nor go: each turn is
      followed by the next client's, except that a new call leaves out, once, exactly the client that the
      call before it started with. */
  lemma TurnsGoRound(s: Sys, es: seq<Event>)
    requires Valid(s) && Enabled(s, Begin) && s.clients != [] && Run(BeginStep(s), es) && Steady(es)
    ensures Chain(Opened(s, Begin)[0], Turns(BeginStep(s), es), |s.clients|)
  {
    StepValid(s, Begin);
    TurnsChain(BeginStep(s), es, Opened(s, Begin)[0]);
  }

  // ---------------------------------------------------------------- every call serves everyone

  /** The turns of a call begin with its first client and, once it has returned, end just before it. */
  predicate Rounds(s: Sys) {
    && s.visits != [] && s.visits[0].client < |s.clients|
    && if s.loop.Some? then s.visits[0].client == s.loop.value.start
       else Following(s.visits[|s.visits| - 1].client, |s.clients|) == s.visits[0].client
  }

  lemma IterateRounds(s: Sys, a: Answer)
    requires Valid(s) && Fair(s) && Rounds(s) && Enabled(s, Iterate(a))
    ensures Rounds(IterateStep(s, a))
  {
    ScheduleClientFrame(s, s.next, a);
    ScheduleClientCharges(s, a);
    var (s1, progress) := ScheduleClient(s, s.next, a);
    assert s1.visits[0].client == s.visits[0].client;
    assert s1.visits[|s1.visits| - 1].client == s.next;
    AdvanceRounds(s1, progress);
  }

  lemma AdvanceRounds(s: Sys, progress: bool)
    requires s.loop.Some? && LoopValid(s) && Rounds(s) && s.visits[|s.visits| - 1].client == s.next
    ensures Rounds(Advance(s, progress))
  {
  }

  lemma StepRounds(s: Sys, e: Event)
    requires Valid(s) && Fair(s) && Rounds(s) && Enabled(s, e) && DuringSchedule([e])
    ensures Fair(Step(s, e)) && Rounds(Step(s, e))
  {
    assert [e][0] == e;
    match e
    case Iterate(a) =>
      IterateFair(s, a);
      IterateRounds(s, a);
    case Client(i, act) =>
      ArriveFair(s, i, act);
      assert ClientStep(s, i, act).visits == s.visits && |ClientStep(s, i, act).clients| == |s.clients|;
  }

  lemma {:induction false} ScheduleRounds(s: Sys, es: seq<Event>)
    requires Valid(s) && Fair(s) && Rounds(s) && Run(s, es) && DuringSchedule(es)
    ensures Fair(After(s, es)) && Rounds(After(s, es))
    decreases |es|
  {
    if es != [] {
      StepValid(s, es[0]);
      StepRounds(s, es[0]);
      ScheduleRounds(Step(s, es[0]), es[1..]);
    }
  }

  lemma RoundIsFull(s: Sys)
    requires TurnsFair(s) && Rounds(s) && s.loop.None?
    ensures |s.visits| >= |s.clients|
  {
    var v := |s.visits|;
    if v < |s.clients| { RoundRobin(s, 0, v - 1); }
  }

  /** Every call that returns has given every client at least one turn. */
  lemma EveryCallServesAll(s: Sys, es: seq<Event>, j: nat)
    requires Valid(s) && Enabled(s, Begin) && j < |s.clients| && Run(BeginStep(s), es) && DuringSchedule(es)
    requires After(BeginStep(s), es).loop.None?
    ensures var t := After(BeginStep(s), es); exists k :: 0 <= k < |t.visits| && t.visits[k].client == j
  {
    StepValid(s, Begin);
    BeginIsFair(s);
    ScheduleRounds(BeginStep(s), es);
    var t := After(BeginStep(s), es);
    SizeKept(BeginStep(s), es);
    RoundIsFull(t);
    var i := t.visits[0].client;
    var d := if j >= i then j - i else j + |t.clients| - i;
    RoundRobin(t, 0, d);
    assert t.visits[d].client == j;
  }

  lemma {:induction false} SizeKept(s: Sys, es: seq<Event>)
    requires Run(s, es) && DuringSchedule(es)
    ensures |After(s, es).clients| == |s.clients|
    decreases |es|
  {
    if es != [] {
      if es[0].Iterate? { ScheduleClientFrame(s, s.next, es[0].answer); }
      SizeKept(Step(s, es[0]), es[1..]);
    }
  }

  // ---------------------------------------------------------------- a client left out

  lemma Regroup(a: seq<Turn>, b: seq<Turn>, c: seq<Turn>)
    ensures (a + b) + c == a + (b + c)
  {
  }

  lemma {:induction false} TurnsSnoc(s: Sys, es: seq<Event>, e: Event)
    requires Run(s, es) && Run(s, es + [e]) && Enabled(After(s, es), e)
    ensures Turns(s, es + [e]) == Turns(s, es) + Opened(After(s, es), e)
    decreases |es|
  {
    if es == [] {
      assert es + [e] == [e] && [e][1..] == [];
    } else {
      assert (es + [e])[1..] == es[1..] + [e] && (es + [e])[0] == es[0];
      var s' := Step(s, es[0]);
      TurnsSnoc(s', es[1..], e);
      Regroup(Opened(s, es[0]), Turns(s', es[1..]), Opened(After(s', es[1..]), e));
    }
  }

  /** The run `es` leads to `s`, and the turns in it are `ts`. */
  ghost predicate Reaches(es: seq<Event>, ts: seq<Turn>, s: Sys) {
    Run(Initial, es) && After(Initial, es) == s && Turns(Initial, es) == ts
  }

  lemma Extend(es: seq<Event>, ts: seq<Turn>, s: Sys, e: Event)
    requires Reaches(es, ts, s) && Enabled(s, e)
    ensures Reaches(es + [e], ts + Opened(s, e), Step(s, e))
  {
    BlockRuns.RunSnoc(Initial, es, e);
    TurnsSnoc(Initial, es, e);
  }

  predicate IdleClient(c: Context) { c.pending.None? && c.queue == [] && c.state == Running }

  /** Two clients with nothing to do. */
  predicate TwoIdle(s: Sys) { |s.clients| == 2 && IdleClient(s.clients[0]) && IdleClient(s.clients[1]) }

  const Accepts: Answer := Answer([], Accept)

  function First(s: Sys): nat { if s.next >= 2 then 0 else s.next }

  lemma BeginIdle(s: Sys)
    requires TwoIdle(s) && Enabled(s, Begin)
    ensures var n, t := First(s), Step(s, Begin);
      TwoIdle(t) && t.loop == Some(Loop(n, false)) && t.next == n && Opened(s, Begin) == [Turn(n, n)]
  {
  }

  /** A pass over a client with nothing to do passes the turn on, and ends the call after a full round. */
  lemma PassIdle(s: Sys)
    requires TwoIdle(s) && s.loop.Some? && s.next < 2 && !s.loop.value.recheck
    ensures var n, t, e := s.loop.value.start, Step(s, Iterate(Accepts)), Iterate(Accepts);
      && TwoIdle(t)
      && if 1 - s.next == n then t.loop.None? && t.next == n + 1 && Opened(s, e) == []
         else t.loop == s.loop && t.next == 1 - s.next && Opened(s, e) == [Turn(1 - s.next, n)]
  {
    assert ScheduleClient(s, s.next, Accepts) == (s, false);
  }

  lemma AppendBegin(es: seq<Event>, ts: seq<Turn>, s: Sys) returns (fs: seq<Event>, s': Sys)
    requires Reaches(es, ts, s) && TwoIdle(s) && Enabled(s, Begin)
    ensures Reaches(fs, ts + [Turn(First(s), First(s))], s')
    ensures TwoIdle(s') && s'.loop == Some(Loop(First(s), false)) && s'.next == First(s)
  {
    BeginIdle(s);
    Extend(es, ts, s, Begin);
    fs, s' := es + [Begin], Step(s, Begin);
  }

  lemma AppendPass(es: seq<Event>, ts: seq<Turn>, s: Sys) returns (fs: seq<Event>, s': Sys)
    requires Reaches(es, ts, s) && TwoIdle(s) && s.loop.Some? && s.next < 2 && !s.loop.value.recheck
    ensures TwoIdle(s')
    ensures var n := s.loop.value.start;
      if 1 - s.next == n then s'.loop.None? && s'.next == n + 1 && Reaches(fs, ts, s')
      else s'.loop == s.loop && s'.next == 1 - s.next && Reaches(fs, ts + [Turn(1 - s.next, n)], s')
  {
    PassIdle(s);
    Extend(es, ts, s, Iterate(Accepts));
    assert ts + [] == ts;
    fs, s' := es + [Iterate(Accepts)], Step(s, Iterate(Accepts));
  }

  /** A call that finds nothing to do. */
  lemma AppendCall(es: seq<Event>, ts: seq<Turn>, s: Sys) returns (fs: seq<Event>, s': Sys)
    requires Reaches(es, ts, s) && TwoIdle(s) && Enabled(s, Begin)
    ensures TwoIdle(s') && s'.loop.None? && s'.next == First(s) + 1
    ensures Reaches(fs, ts + [Turn(First(s), First(s)), Turn(1 - First(s), First(s))], s')
  {
    var n := First(s);
    fs, s' := AppendBegin(es, ts, s);
    fs, s' := AppendPass(fs, ts + [Turn(n, n)], s');
    Regroup(ts, [Turn(n, n)], [Turn(1 - n, n)]);
    fs, s' := AppendPass(fs, ts + [Turn(n, n), Turn(1 - n, n)], s');
  }

  /** Client 0 does something outside of `schedule()`. */
  lemma AppendAct(es: seq<Event>, ts: seq<Turn>, s: Sys, act: Act) returns (fs: seq<Event>, s': Sys)
    requires Reaches(es, ts, s) && |s.clients| == 2 && s.loop.None? && Allowed(s.clients[0], act)
    ensures Reaches(fs, ts, s') && s'.loop.None? && s'.next == s.next && s'.trigger == (s.trigger || act.Arrive?)
    ensures s'.clients == s.clients[0 := Perform(s.clients[0], s.books, act).0]
  {
    Extend(es, ts, s, Client(0, act));
    assert ts + [] == ts;
    fs, s' := es + [Client(0, act)], ClientStep(s, 0, act);
  }

  /** A request arrives and its client is reset: a call is due, with nothing to do. */
  lemma AppendTrigger(es: seq<Event>, ts: seq<Turn>, s: Sys) returns (fs: seq<Event>, s': Sys)
    requires Reaches(es, ts, s) && TwoIdle(s) && s.loop.None?
    ensures Reaches(fs, ts, s') && TwoIdle(s') && Enabled(s', Begin) && s'.next == s.next
  {
    fs, s' := AppendAct(es, ts, s, SetupQueue);
    fs, s' := AppendAct(fs, ts, s', Arrive(1, Sound, []));
    fs, s' := AppendAct(fs, ts, s', DriverReset);
  }

  lemma TwoClients() returns (es: seq<Event>, s: Sys)
    ensures Reaches(es, [], s) && TwoIdle(s) && s.loop.None? && First(s) == 0
  {
    var add := AddClient(0, 1);
    Extend([], [], Initial, add);
    Extend([add], [], Step(Initial, add), add);
    es, s := [add] + [add], Step(Step(Initial, add), add);
  }

  lemma AppendRound(es: seq<Event>, ts: seq<Turn>, s: Sys) returns (fs: seq<Event>, s': Sys)
    requires Reaches(es, ts, s) && TwoIdle(s) && s.loop.None?
    ensures TwoIdle(s') && s'.loop.None? && First(s') == 1 - First(s)
    ensures Reaches(fs, ts + [Turn(First(s), First(s)), Turn(1 - First(s), First(s))], s')
  {
    fs, s' := AppendTrigger(es, ts, s);
    fs, s' := AppendCall(fs, ts, s');
  }

  /** A run of two calls with two clients: their turns are 0, 1 and then 1, 0. So between two turns of
      client 1 there is none of client 0, which the first call started with. */
  lemma NextCallLeavesOneOut() returns (es: seq<Event>)
    ensures Run(Initial, es) && Turns(Initial, es) == [Turn(0, 0), Turn(1, 0), Turn(1, 1), Turn(0, 1)]
  {
    var s: Sys;
    es, s := TwoClients();
    es, s := AppendRound(es, [], s);
    var ts := [Turn(0, 0), Turn(1, 0)];
    assert [] + ts == ts;
    es, s := AppendRound(es, ts, s);
    assert ts + [Turn(1, 1), Turn(0, 1)] == [Turn(0, 0), Turn(1, 0), Turn(1, 1), Turn(0, 1)];
  }
}
