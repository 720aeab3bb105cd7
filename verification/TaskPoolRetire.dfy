/** Workers that are asked to leave do: what is left of the requests when nothing moves any more. */
module TaskPoolRetire {
  import opened Arithmetic
  import opened TaskPool
  import opened TaskPoolRun
  import opened TaskPoolSafety
  import opened TaskPoolTheorems

  /** Workers on their way to the mutex or to be, and signals on their way to parked ones. */
  function Active(t: Threads, c: Totals): nat {
    t.owedSignals + c.wake + t.woken + t.ready + t.told + t.running + t.owedStarts + c.spawn
  }

  /** How many workers can still leave on request. */
  function Due(p: Pool): int { Min(p.retire, p.workers - p.minWorkers) }

  /** While workers are parked there are enough threads about to act on the requests, or a broadcast is; and a
      broadcast is on its way if there are too many workers. */
  ghost predicate Heard(p: Pool, t: Threads, c: Totals, extra: nat) {
    t.parked > 0 && t.owedBroadcasts == 0 ==>
      p.workers <= p.maxWorkers && (Due(p) > 0 ==> Active(t, c) + extra >= Due(p))
  }

  // Workers.

  lemma RoundHeard(s: State, c: Totals)
    requires Held(s.p, s.t, c) && Heard(s.p, s.t, c, 1)
    ensures var n := WorkerRound(s); n.calls == s.calls && Heard(n.p, n.t, c, 0)
  {
  }

  lemma ReadyHeard(s: State, c: Totals)
    requires Core(s.p, s.t, c) && Heard(s.p, s.t, c, 0) && s.t.ready > 0
    ensures var h := s.(t := s.t.(ready := s.t.ready - 1)); Held(h.p, h.t, c) && Heard(h.p, h.t, c, 1)
  {
  }

  lemma WokenHeard(s: State, c: Totals)
    requires Core(s.p, s.t, c) && Heard(s.p, s.t, c, 0) && s.t.woken > 0
    ensures var h := s.(p := Awake(s.p), t := s.t.(woken := s.t.woken - 1)); Held(h.p, h.t, c) && Heard(h.p, h.t, c, 1)
  {
  }

  lemma WorkerHeard(s: State, e: Step)
    requires Inv(s) && Enabled(s, e) && Heard(s.p, s.t, Tally(s.calls), 0) && (e.ReadyRuns? || e.WokenRuns?)
    ensures var n := Act(s, e); Heard(n.p, n.t, Tally(n.calls), 0)
  {
    if e.ReadyRuns? {
      ReadyHeard(s, Tally(s.calls));
      RoundHeard(s.(t := s.t.(ready := s.t.ready - 1)), Tally(s.calls));
    } else {
      WokenHeard(s, Tally(s.calls));
      RoundHeard(s.(p := Awake(s.p), t := s.t.(woken := s.t.woken - 1)), Tally(s.calls));
    }
  }

  // Calls.

  lemma DepartHeard(s: State, i: nat, others: Totals, f: Filled)
    requires Holding(s, i, others) && Heard(s.p, s.t, others, 0)
    requires f == Fill(s.p, i, s.calls[i].next, s.calls[i].total)
    ensures var n := Depart(s, i, f); Heard(n.p, n.t, Tally(n.calls), 0)
  {
    var c := s.calls[i];
    TallyUpdate(s.calls, i, c.(next := f.next, pc := Leaving(f.wake, f.spawn)));
    FillFacts(s.p, i, c.next, c.total);
  }

  lemma SettleHeard(s: State, i: nat, others: Totals, f: Filled)
    requires Holding(s, i, others) && Heard(s.p, s.t, others, 0)
    requires f == Fill(s.p, i, s.calls[i].next, s.calls[i].total)
    ensures var n := Settle(s, i, f); Heard(n.p, n.t, Tally(n.calls), 0)
  {
    var c := s.calls[i];
    TallyUpdate(s.calls, i, c.(next := f.next, pc := Parked));
    FillFacts(s.p, i, c.next, c.total);
  }

  lemma RegionHeard(s: State, i: nat, others: Totals)
    requires Holding(s, i, others) && Heard(s.p, s.t, others, 0)
    ensures var n := Region(s, i); Heard(n.p, n.t, Tally(n.calls), 0)
  {
    if s.p.stopped {
      TallyUpdate(s.calls, i, Reject(s, i).calls[i]);
    } else {
      var f := Fill(s.p, i, s.calls[i].next, s.calls[i].total);
      DepartHeard(s, i, others, f);
      SettleHeard(s, i, others, f);
    }
  }

  lemma ArriveHeard(s: State, c: Call)
    requires Inv(s) && Heard(s.p, s.t, Tally(s.calls), 0) && c.pc.Resumed? && c.next == 0 && (c.batch || c.total == 1)
    ensures var n := Region(Arrive(s, c), |s.calls|); Heard(n.p, n.t, Tally(n.calls), 0)
  {
    ArriveHolding(s, c);
    RegionHeard(Arrive(s, c), |s.calls|, Tally(s.calls));
  }

  lemma ResumeHeard(s: State, i: nat)
    requires Inv(s) && Heard(s.p, s.t, Tally(s.calls), 0) && Enabled(s, Resume(i))
    ensures var n := Act(s, Resume(i)); Heard(n.p, n.t, Tally(n.calls), 0)
  {
    var others := ResumeHolding(s, i);
    TallyUpdate(s.calls, i, s.calls[i]);
    assert s.calls[i := s.calls[i]] == s.calls;
    RegionHeard(s.(p := s.p.(fullWaiters := s.p.fullWaiters - 1)), i, others);
  }

  lemma CallHeard(s: State, e: Step)
    requires Inv(s) && Enabled(s, e) && Heard(s.p, s.t, Tally(s.calls), 0)
    requires TakesMutex(e)
    ensures var n := Act(s, e); Heard(n.p, n.t, Tally(n.calls), 0)
  {
    match e
    case Submit => ArriveHeard(s, Call(false, 1, 0, Resumed));
    case SubmitBatch(total) =>
      if s.p.stopped {
        TallySnoc(s.calls, Call(true, total, 0, Leaving(0, 0)));
      } else {
        ArriveHeard(s, Call(true, total, 0, Resumed));
      }
    case Resume(i) => ResumeHeard(s, i);
  }

  lemma OutsideHeard(s: State, e: Step)
    requires Inv(s) && Enabled(s, e) && Heard(s.p, s.t, Tally(s.calls), 0)
    requires e.CallSignals? || e.CallStarts? || e.TellsFull?
    ensures var n := Act(s, e); Heard(n.p, n.t, Tally(n.calls), 0)
  {
    TallyUpdate(s.calls, e.i, Act(s, e).calls[e.i]);
  }

  // The steps that touch no call.

  /** A resize lowers the floor while workers are parked, and leaves requests that nobody is about to act on. */
  predicate Strands(s: State, e: Step) {
    && e.ResizePool? && s.p.retire > 0 && s.t.parked > 0 && s.t.owedBroadcasts == 0
    && e.minWorkers < s.p.workers <= e.maxWorkers
    && Active(s.t, Tally(s.calls)) < Min(s.p.retire, s.p.workers - e.minWorkers)
  }

  lemma OtherHeard(s: State, e: Step, c: Totals)
    requires Core(s.p, s.t, c) && Enabled(s, e) && Heard(s.p, s.t, c, 0)
    requires e.TellsNone? || e.Finishes? || e.OwedSignal? || e.OwedStart? || e.OwedBroadcast? || e.StopReturns?
             || e.ShrinkPool?
    ensures var n := Act(s, e); n.calls == s.calls && Heard(n.p, n.t, c, 0)
  {
  }

  /** No step but such a resize leaves requests unheard. */
  lemma HeardKept(s: State, e: Step)
    requires Inv(s) && Enabled(s, e) && Heard(s.p, s.t, Tally(s.calls), 0)
    ensures var n := Act(s, e); Heard(n.p, n.t, Tally(n.calls), 0) <==> !Strands(s, e)
  {
    if e.ReadyRuns? || e.WokenRuns? {
      WorkerHeard(s, e);
    } else if TakesMutex(e) {
      CallHeard(s, e);
    } else if e.CallSignals? || e.CallStarts? || e.TellsFull? {
      OutsideHeard(s, e);
    } else if !e.ResizePool? && !e.Stop? {
      OtherHeard(s, e, Tally(s.calls));
    }
  }

  ghost predicate NeverStrands(s: State, run: seq<Step>) {
    run == [] || (NeverStrands(s, run[..|run| - 1]) && !Strands(Exec(s, run[..|run| - 1]), run[|run| - 1]))
  }

  lemma {:induction false} AlwaysHeard(queueSize: nat, minWorkers: int, maxWorkers: int, run: seq<Step>)
    requires maxWorkers >= 1 && NeverStrands(Init(queueSize, minWorkers, maxWorkers), run)
    ensures var s := Exec(Init(queueSize, minWorkers, maxWorkers), run); Heard(s.p, s.t, Tally(s.calls), 0)
  {
    if run != [] {
      var before := run[..|run| - 1];
      AlwaysHeard(queueSize, minWorkers, maxWorkers, before);
      RunKeeps(queueSize, minWorkers, maxWorkers, before);
      var s, e := Exec(Init(queueSize, minWorkers, maxWorkers), before), run[|run| - 1];
      if Enabled(s, e) {
        HeardKept(s, e);
      }
    }
  }

  /** Nothing moves until somebody calls. */
  predicate AtRest(s: State) { Active(s.t, Tally(s.calls)) == 0 && s.t.owedBroadcasts == 0 }

  /** In every run without such a resize, once nothing moves every worker is parked, there are no more than the
      ceiling, and no request to leave is open, unless the floor is reached or there is no worker. */
  lemma RequestsAreMet(queueSize: nat, minWorkers: int, maxWorkers: int, run: seq<Step>)
    requires maxWorkers >= 1 && NeverStrands(Init(queueSize, minWorkers, maxWorkers), run)
    requires AtRest(Exec(Init(queueSize, minWorkers, maxWorkers), run))
    ensures var p := Exec(Init(queueSize, minWorkers, maxWorkers), run).p;
            p.workers <= p.maxWorkers && (p.retire == 0 || p.workers <= p.minWorkers || p.workers == 0)
  {
    AlwaysHeard(queueSize, minWorkers, maxWorkers, run);
    RunKeeps(queueSize, minWorkers, maxWorkers, run);
  }

  // The exception is real.

  /** A shard with one worker, a ceiling of one, and no calls. */
  function One(cap: nat, idle: int, floor: int, retire: int, lowIdle: int, t: Threads): State {
    State(Pool([], cap, idle, 0, 0, floor, 1, 1, retire, lowIdle, false, 0), t, [], Open, [], [])
  }

  /** The worker parks, one shrink later the floor goes to zero, and the next shrink asks it to leave. */
  lemma OneIsAsked(cap: nat)
    requires cap >= 1
    ensures var s := One(cap, 0, 1, 0, 0, Threads(1, 0, 0, 0, 0, 0, 0, 0));
            Next(Next(Next(Next(s, ReadyRuns), ShrinkPool), ResizePool(0, 1)), ShrinkPool)
              == One(cap, 1, 0, 1, 1, Threads(0, 0, 0, 1, 0, 1, 0, 0))
  {
    var s := One(cap, 0, 1, 0, 0, Threads(1, 0, 0, 0, 0, 0, 0, 0));
    var parked := Threads(0, 0, 0, 1, 0, 0, 0, 0);
    assert Next(s, ReadyRuns) == One(cap, 1, 1, 0, 0, parked);
    assert Next(One(cap, 1, 1, 0, 0, parked), ShrinkPool) == One(cap, 1, 1, 0, 1, parked);
    assert Next(One(cap, 1, 1, 0, 1, parked), ResizePool(0, 1)) == One(cap, 1, 0, 0, 1, parked);
  }

  /** Before it gets to that the floor is back at one, so it parks again; and then the floor goes to zero again. */
  lemma OneStays(cap: nat)
    requires cap >= 1
    ensures var s := One(cap, 1, 0, 1, 1, Threads(0, 0, 0, 1, 0, 1, 0, 0));
            Next(Next(Next(Next(s, ResizePool(1, 1)), OwedSignal), WokenRuns), ResizePool(0, 1))
              == One(cap, 1, 0, 1, 0, Threads(0, 0, 0, 1, 0, 0, 0, 0))
  {
    var s := One(cap, 1, 0, 1, 1, Threads(0, 0, 0, 1, 0, 1, 0, 0));
    var parked, woken := Threads(0, 0, 0, 1, 0, 0, 0, 0), Threads(0, 0, 0, 0, 1, 0, 0, 0);
    assert Next(s, ResizePool(1, 1)) == One(cap, 1, 1, 1, 1, Threads(0, 0, 0, 1, 0, 1, 0, 0));
    assert Next(One(cap, 1, 1, 1, 1, Threads(0, 0, 0, 1, 0, 1, 0, 0)), OwedSignal) == One(cap, 1, 1, 1, 1, woken);
    assert Next(One(cap, 1, 1, 1, 1, woken), WokenRuns) == One(cap, 1, 1, 1, 0, parked);
  }

  /** A fresh worker has come to the mutex. */
  lemma OneStarts(queueSize: nat)
    ensures Next(Init(queueSize, 1, 1), OwedStart)
              == One(Max(queueSize, 1), 0, 1, 0, 0, Threads(1, 0, 0, 0, 0, 0, 0, 0))
  {
  }

  lemma ExecSnoc(s: State, run: seq<Step>, e: Step)
    ensures Exec(s, run + [e]) == Next(Exec(s, run), e)
  {
    assert (run + [e])[..|run|] == run;
  }

  lemma FourMore(s: State, run: seq<Step>, a: Step, b: Step, c: Step, d: Step)
    ensures Exec(s, run + [a] + [b] + [c] + [d]) == Next(Next(Next(Next(Exec(s, run), a), b), c), d)
  {
    ExecSnoc(s, run, a);
    ExecSnoc(s, run + [a], b);
    ExecSnoc(s, run + [a] + [b], c);
    ExecSnoc(s, run + [a] + [b] + [c], d);
  }

  lemma OneRests(s: State, cap: nat)
    requires s == One(cap, 1, 0, 1, 0, Threads(0, 0, 0, 1, 0, 0, 0, 0))
    ensures AtRest(s) && s.p.retire == 1 && s.p.workers == 1 && s.p.minWorkers == 0 && s.t.parked == 1
  {
  }

  /** From a new shard with one worker these nine steps leave it parked, above the floor, and asked to leave,
      with nothing on its way to it. */
  lemma RequestStaysOpen(queueSize: nat)
    ensures var run := [OwedStart] + [ReadyRuns] + [ShrinkPool] + [ResizePool(0, 1)] + [ShrinkPool];
            var s := Exec(Init(queueSize, 1, 1),
                          run + [ResizePool(1, 1)] + [OwedSignal] + [WokenRuns] + [ResizePool(0, 1)]);
            AtRest(s) && s.p.retire == 1 && s.p.workers == 1 && s.p.minWorkers == 0 && s.t.parked == 1
  {
    var s, cap := Init(queueSize, 1, 1), Max(queueSize, 1);
    var run := [OwedStart] + [ReadyRuns] + [ShrinkPool] + [ResizePool(0, 1)] + [ShrinkPool];
    ExecSnoc(s, [], OwedStart);
    assert [] + [OwedStart] == [OwedStart];
    OneStarts(queueSize);
    FourMore(s, [OwedStart], ReadyRuns, ShrinkPool, ResizePool(0, 1), ShrinkPool);
    OneIsAsked(cap);
    FourMore(s, run, ResizePool(1, 1), OwedSignal, WokenRuns, ResizePool(0, 1));
    OneStays(cap);
    OneRests(One(cap, 1, 0, 1, 0, Threads(0, 0, 0, 1, 0, 0, 0, 0)), cap);
  }
}
