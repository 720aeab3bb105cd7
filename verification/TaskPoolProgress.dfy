/** The adaptive pool left to itself, with no new calls and with tasks that end, comes to rest
    after a bounded number of steps, however they interleave, and then nothing waits. */
module TaskPoolProgress {
  import opened Arithmetic
  import opened TaskPool
  import opened TaskPoolRun
  import opened TaskPoolSafety
  import opened TaskPoolTheorems

  /** What a call can still cause: seven for a task it has yet to queue. */
  function CallEnergy(c: Call): nat {
    if c.pc.Leaving? then 2 * c.pc.wake + 2 * c.pc.spawn
    else IsResumed(c) + (if c.next <= c.total then 7 * (c.total - c.next) else 0)
  }

  /** Workers that may still be started. */
  function Growth(p: Pool): int { if p.stopped then 0 else 4 * Max(0, p.maxWorkers - p.workers) }

  function PoolEnergy(p: Pool): int { 2 * p.workers + 4 * |p.queue| + 2 * p.retire + Growth(p) }

  function ThreadEnergy(t: Threads): int {
    t.ready + 4 * t.told + 2 * t.running + t.woken + 2 * t.owedSignals + 2 * t.owedStarts
  }

  function Energy(s: State): int { PoolEnergy(s.p) + ThreadEnergy(s.t) + Sum(CallEnergy, s.calls) }

  function Broadcasts(s: State): nat { s.t.owedBroadcasts + (if s.stop.Draining? then 1 else 0) }

  function Ceiling(p: Pool): int { Max(p.workers, p.maxWorkers) }

  /** The most steps the pool can take on its own. */
  function Bound(s: State): int { Energy(s) + Broadcasts(s) * (Ceiling(s.p) + 1) }

  /** A step that spends energy. */
  ghost predicate Spends(s: State, n: State) {
    Energy(n) < Energy(s) && Broadcasts(n) == Broadcasts(s) && Ceiling(n.p) <= Ceiling(s.p)
  }

  lemma {:induction false} FillEnergy(p: Pool, call: nat, next: nat, total: nat)
    requires !p.stopped && next <= total
    ensures var f := Fill(p, call, next, total);
            && next <= f.next <= total
            && PoolEnergy(f.p) + 2 * f.wake + 2 * f.spawn <= PoolEnergy(p) + 6 * (f.next - next)
            && Ceiling(f.p) == Ceiling(p) && !f.p.stopped
    decreases total - next
  {
    if next < total && |p.queue| < p.cap {
      FillEnergy(Offer(p, Task(call, next)).p, call, next + 1, total);
    }
  }

  lemma RejectSpends(s: State, i: nat)
    requires i < |s.calls| && s.calls[i].pc.Resumed? && s.p.stopped
    ensures Spends(s, Reject(s, i))
  {
    SumUpdate(CallEnergy, s.calls, i, s.calls[i].(pc := Leaving(0, 0)));
  }

  lemma DepartSpends(s: State, i: nat, f: Filled)
    requires i < |s.calls| && s.calls[i].pc.Resumed? && s.calls[i].next <= f.next == s.calls[i].total
    requires PoolEnergy(f.p) + 2 * f.wake + 2 * f.spawn <= PoolEnergy(s.p) + 6 * (f.next - s.calls[i].next)
    requires Ceiling(f.p) == Ceiling(s.p)
    ensures Spends(s, Depart(s, i, f))
  {
    SumUpdate(CallEnergy, s.calls, i, s.calls[i].(next := f.next, pc := Leaving(f.wake, f.spawn)));
  }

  lemma SettleSpends(s: State, i: nat, f: Filled)
    requires i < |s.calls| && s.calls[i].pc.Resumed? && s.calls[i].next <= f.next < s.calls[i].total
    requires PoolEnergy(f.p) + 2 * f.wake + 2 * f.spawn <= PoolEnergy(s.p) + 6 * (f.next - s.calls[i].next)
    requires Ceiling(f.p) == Ceiling(s.p) && !f.p.stopped
    ensures Spends(s, Settle(s, i, f))
  {
    SumUpdate(CallEnergy, s.calls, i, s.calls[i].(next := f.next, pc := Parked));
  }

  lemma RegionSpends(s: State, i: nat)
    requires i < |s.calls| && s.calls[i].pc.Resumed? && s.calls[i].next <= s.calls[i].total
    ensures Spends(s, Region(s, i))
  {
    if s.p.stopped {
      RejectSpends(s, i);
    } else {
      var c := s.calls[i];
      var f := Fill(s.p, i, c.next, c.total);
      FillEnergy(s.p, i, c.next, c.total);
      if f.next < c.total {
        SettleSpends(s, i, f);
      } else {
        DepartSpends(s, i, f);
      }
    }
  }

  function OwnEnergy(p: Pool, t: Threads): int { PoolEnergy(p) + ThreadEnergy(t) }

  /** The round of a worker that was worth one to ready or woken. */
  lemma RoundSpends(s: State, c: Totals)
    requires Held(s.p, s.t, c)
    ensures var n := WorkerRound(s);
            && n.calls == s.calls && n.stop == s.stop && n.t.owedBroadcasts == s.t.owedBroadcasts
            && OwnEnergy(n.p, n.t) <= OwnEnergy(s.p, s.t) && Ceiling(n.p) <= Ceiling(s.p)
  {
  }

  lemma ReadySpends(s: State)
    requires Inv(s) && s.t.ready > 0
    ensures Spends(s, Act(s, ReadyRuns))
  {
    var h := s.(t := s.t.(ready := s.t.ready - 1));
    RoundSpends(h, Tally(s.calls));
    assert OwnEnergy(h.p, h.t) == OwnEnergy(s.p, s.t) - 1;
  }

  lemma WokenSpends(s: State)
    requires Inv(s) && s.t.woken > 0
    ensures Spends(s, Act(s, WokenRuns))
  {
    var h := s.(p := Awake(s.p), t := s.t.(woken := s.t.woken - 1));
    RoundSpends(h, Tally(s.calls));
    assert OwnEnergy(h.p, h.t) == OwnEnergy(s.p, s.t) - 1;
  }

  lemma CallSpends(s: State, e: Step)
    requires Inv(s) && Enabled(s, e) && (e.CallSignals? || e.CallStarts? || e.TellsFull?)
    ensures Spends(s, Act(s, e))
  {
    SumUpdate(CallEnergy, s.calls, e.i, Act(s, e).calls[e.i]);
  }

  lemma OtherSpends(s: State, e: Step)
    requires Inv(s) && Enabled(s, e) && (e.TellsNone? || e.Finishes? || e.OwedSignal? || e.OwedStart?)
    ensures Spends(s, Act(s, e))
  {
  }

  lemma WaiterCountsNothing(s: State, h: State)
    requires h == s.(p := s.p.(fullWaiters := s.p.fullWaiters - 1))
    ensures Energy(h) == Energy(s) && Broadcasts(h) == Broadcasts(s) && Ceiling(h.p) == Ceiling(s.p)
  {
  }

  lemma SpendsFrom(s: State, h: State, n: State)
    requires Energy(h) == Energy(s) && Broadcasts(h) == Broadcasts(s) && Ceiling(h.p) == Ceiling(s.p) && Spends(h, n)
    ensures Spends(s, n)
  {
  }

  lemma ResumeIs(s: State, i: nat, h: State)
    requires Enabled(s, Resume(i)) && h == s.(p := s.p.(fullWaiters := s.p.fullWaiters - 1))
    ensures Act(s, Resume(i)) == Region(h, i)
  {
  }

  lemma HeldSpends(s: State, i: nat, h: State)
    requires i < |s.calls| && s.calls[i].pc.Resumed? && s.calls[i].next <= s.calls[i].total
    requires h == s.(p := s.p.(fullWaiters := s.p.fullWaiters - 1))
    ensures Spends(s, Region(h, i))
  {
    RegionSpends(h, i);
    WaiterCountsNothing(s, h);
    SpendsFrom(s, h, Region(h, i));
  }

  lemma ResumeSpends(s: State, i: nat)
    requires Inv(s) && Enabled(s, Resume(i))
    ensures Spends(s, Act(s, Resume(i)))
  {
    var h := s.(p := s.p.(fullWaiters := s.p.fullWaiters - 1));
    ResumeIs(s, i, h);
    HeldSpends(s, i, h);
  }

  lemma QuietSpends(s: State, e: Step)
    requires Inv(s) && Enabled(s, e) && !External(e) && !e.OwedBroadcast? && !e.StopReturns?
    ensures Spends(s, Act(s, e))
  {
    match e
    case Resume(i) => ResumeSpends(s, i);
    case ReadyRuns => ReadySpends(s);
    case WokenRuns => WokenSpends(s);
    case CallSignals(_) => CallSpends(s, e);
    case CallStarts(_) => CallSpends(s, e);
    case TellsFull(_) => CallSpends(s, e);
    case _ => OtherSpends(s, e);
  }

  lemma SpendingBound(s: State, n: State)
    requires Spends(s, n)
    ensures Bound(n) < Bound(s)
  {
    MulAtMost(Broadcasts(s), Ceiling(n.p) + 1, Ceiling(s.p) + 1);
  }

  lemma StepSpends(s: State, e: Step)
    requires Inv(s) && Enabled(s, e) && !External(e)
    ensures Bound(Act(s, e)) < Bound(s)
  {
    if e.OwedBroadcast? || e.StopReturns? {
      BroadcastSpends(s, e);
    } else {
      QuietSpends(s, e);
      SpendingBound(s, Act(s, e));
    }
  }

  lemma BroadcastSpends(s: State, e: Step)
    requires Inv(s) && Enabled(s, e) && (e.OwedBroadcast? || e.StopReturns?)
    ensures Bound(Act(s, e)) < Bound(s)
  {
    var n := Act(s, e);
    assert Energy(n) == Energy(s) + s.t.parked && n.p == s.p && Broadcasts(s) == Broadcasts(n) + 1;
    MulNext(Broadcasts(n), Ceiling(s.p) + 1);
  }

  lemma MulNext(a: nat, b: int)
    ensures (a + 1) * b == a * b + b
  {
  }

  lemma MulAtMost(a: nat, b: int, c: int)
    requires b <= c
    ensures a * b <= a * c
  {
  }

  lemma BoundPositive(s: State)
    requires Inv(s)
    ensures Bound(s) >= 0
  {
    MulAtMost(Broadcasts(s), 0, Ceiling(s.p) + 1);
  }

  /** Every step of the run can be taken, and none is a new call. */
  ghost predicate OnItsOwn(s: State, run: seq<Step>)
    decreases |run|
  {
    run == [] || (Enabled(s, run[0]) && !External(run[0]) && OnItsOwn(Act(s, run[0]), run[1..]))
  }

  /** No run of the pool on its own is longer than Bound. */
  lemma {:induction false} ComesToRest(s: State, run: seq<Step>)
    requires Inv(s) && OnItsOwn(s, run)
    ensures |run| <= Bound(s)
    decreases |run|
  {
    if run == [] {
      BoundPositive(s);
    } else {
      StepSpends(s, run[0]);
      InvKept(s, run[0]);
      ComesToRest(Act(s, run[0]), run[1..]);
    }
  }

  ghost predicate AtRest(s: State) { forall e :: !External(e) ==> !Enabled(s, e) }

  lemma {:induction false} SumZero(f: Call -> nat, calls: seq<Call>)
    requires forall i :: 0 <= i < |calls| ==> f(calls[i]) == 0
    ensures Sum(f, calls) == 0
  {
    if calls != [] {
      SumZero(f, calls[..|calls| - 1]);
    }
  }

  lemma RestOwesNothing(s: State)
    requires AtRest(s)
    ensures var c := Tally(s.calls); c.resumed == 0 && c.wake == 0 && c.spawn == 0
  {
    forall i | 0 <= i < |s.calls| ensures IsResumed(s.calls[i]) == Wakes(s.calls[i]) == Spawns(s.calls[i]) == 0 {
      assert !Enabled(s, Resume(i)) && !Enabled(s, CallSignals(i)) && !Enabled(s, CallStarts(i));
    }
    SumZero(IsResumed, s.calls);
    SumZero(Wakes, s.calls);
    SumZero(Spawns, s.calls);
  }

  lemma RestHasNoWorker(s: State)
    requires AtRest(s)
    ensures s.t.ready == 0 && s.t.woken == 0 && s.t.running == 0 && s.t.owedSignals == 0 && s.t.owedStarts == 0
    ensures s.t.told > 0 ==> Tally(s.calls).parked > 0
  {
    assert !Enabled(s, ReadyRuns) && !Enabled(s, WokenRuns) && !Enabled(s, Finishes);
    assert !Enabled(s, OwedSignal) && !Enabled(s, OwedStart) && !Enabled(s, TellsNone);
  }

  lemma {:induction false} SomeParked(calls: seq<Call>) returns (i: nat)
    requires Sum(IsParked, calls) > 0
    ensures i < |calls| && calls[i].pc.Parked?
  {
    i := |calls| - 1;
    if !calls[i].pc.Parked? {
      i := SomeParked(calls[..|calls| - 1]);
    }
  }

  lemma TellIsEnabled(s: State)
    requires s.t.told > 0 && Tally(s.calls).parked > 0
    ensures !AtRest(s)
  {
    var i := SomeParked(s.calls);
    assert Enabled(s, TellsFull(i));
  }

  /** At rest every accepted task has run and no submitter waits; once stopped, every worker has
      gone and stop has returned. */
  lemma RestIsDone(s: State)
    requires Inv(s) && InOrder(s) && AtRest(s)
    ensures s.p.queue == [] && s.started == s.accepted && s.t.told + s.t.running == 0
    ensures forall i :: 0 <= i < |s.calls| ==> s.calls[i].pc == Leaving(0, 0)
    ensures s.p.stopped ==> s.p.workers == 0 && s.stop.Returned?
  {
    RestOwesNothing(s);
    RestHasNoWorker(s);
    if s.t.told > 0 {
      TellIsEnabled(s);
      assert false;
    }
    forall i | 0 <= i < |s.calls| ensures s.calls[i].pc == Leaving(0, 0) {
      SumAtLeast(IsParked, s.calls, i);
      assert !Enabled(s, Resume(i)) && !Enabled(s, CallSignals(i)) && !Enabled(s, CallStarts(i));
    }
    SumZero(Reserves, s.calls);
    assert !Enabled(s, StopReturns);
  }
}
