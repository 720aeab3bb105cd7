/** What holds after every step of the adaptive pool: no lost wake-up, no task stuck below the
    ceiling, an exact pending count, first in first out, and a stop that drains. */
module TaskPoolSafety {
  import opened TaskPool
  import opened TaskPoolRun

  /** Workers, claims and waiters as the pool counts them and as they are. c is the tally of
      the calls. */
  ghost predicate Core(p: Pool, t: Threads, c: Totals) {
    && 0 <= p.lowIdle <= p.idle && 0 <= p.signals && 0 <= p.retire && |p.queue| <= p.cap && 1 <= p.cap
    && 1 <= p.maxWorkers
    && p.idle + p.signals == t.parked + t.woken
    && p.workers == t.owedStarts + c.spawn + t.ready + t.told + t.running + t.parked + t.woken
    && p.signals <= t.woken + t.owedSignals + c.wake
    && (p.queue != [] ==> p.signals + t.owedStarts + c.spawn + t.ready + t.told + t.running >= 1)
    && p.fullWaiters == c.parked + c.resumed
    && (p.stopped ==> c.parked == 0 && t.parked == 0)
  }

  /** While submitters are parked, every free slot has a submitter woken or about to be. */
  ghost predicate Roomy(p: Pool, t: Threads, c: Totals, extra: nat) {
    c.parked > 0 ==> c.resumed + extra + t.told >= p.cap - |p.queue|
  }

  ghost predicate Counted(p: Pool, t: Threads, c: Totals, extra: nat) {
    p.pending == |p.queue| + t.told + t.running + c.reserved + extra
  }

  ghost predicate Balanced(p: Pool, t: Threads, c: Totals) {
    Core(p, t, c) && Roomy(p, t, c, 0) && Counted(p, t, c, 0)
  }

  /** Workers that neither execute a task nor sit idle and unclaimed. */
  function Coming(p: Pool, t: Threads, c: Totals): int { t.owedStarts + c.spawn + t.ready + p.signals }

  /** A task can wait behind running ones only at the ceiling. */
  ghost predicate Served(p: Pool, t: Threads, c: Totals) {
    p.workers >= p.maxWorkers || |p.queue| <= Coming(p, t, c)
  }

  // The loop that fills the queue.

  lemma {:induction false} FillFacts(p: Pool, call: nat, next: nat, total: nat)
    requires 0 <= p.lowIdle <= p.idle && 0 <= p.signals && |p.queue| <= p.cap && next <= total
    ensures var f := Fill(p, call, next, total);
            && next <= f.next <= total && (f.next < total ==> |f.p.queue| == p.cap)
            && |f.p.queue| == |p.queue| + f.next - next <= p.cap
            && 0 <= f.p.lowIdle <= f.p.idle == p.idle - f.wake && f.p.signals == p.signals + f.wake
            && f.p.workers == p.workers + f.spawn && (f.spawn > 0 ==> f.p.workers <= p.maxWorkers)
            && f.p == p.(queue := f.p.queue, idle := f.p.idle, lowIdle := f.p.lowIdle, signals := f.p.signals,
                         workers := f.p.workers)
            && (f.next > next ==> f.p.signals > 0 || f.spawn > 0 || (f.p.idle == 0 && f.p.workers >= p.maxWorkers))
    decreases total - next
  {
    if next < total && |p.queue| < p.cap {
      FillFacts(Offer(p, Task(call, next)).p, call, next + 1, total);
    }
  }

  lemma {:induction false} FillServes(p: Pool, call: nat, next: nat, total: nat, others: nat)
    requires 0 <= p.lowIdle <= p.idle && 0 <= p.signals && |p.queue| <= p.cap && next <= total
    requires p.workers >= p.maxWorkers || |p.queue| <= others + p.signals
    ensures var f := Fill(p, call, next, total);
            f.p.workers >= f.p.maxWorkers || |f.p.queue| <= others + f.spawn + f.p.signals
    decreases total - next
  {
    if next < total && |p.queue| < p.cap {
      var o := Offer(p, Task(call, next));
      FillServes(o.p, call, next + 1, total, others + o.spawn);
    }
  }

  lemma {:induction false} FillQueue(p: Pool, call: nat, next: nat, total: nat)
    ensures var f := Fill(p, call, next, total); f.next >= next && f.p.queue == p.queue + Tasks(call, next, f.next)
    decreases total - next
  {
    if next < total && |p.queue| < p.cap {
      var o, f := Offer(p, Task(call, next)), Fill(p, call, next, total);
      FillQueue(o.p, call, next + 1, total);
      assert p.queue + [Task(call, next)] + Tasks(call, next + 1, f.next)
          == p.queue + ([Task(call, next)] + Tasks(call, next + 1, f.next));
    }
  }

  // The steps of a worker.

  /** As Core, while one worker holds the mutex and is counted nowhere in t. */
  ghost predicate Held(p: Pool, t: Threads, c: Totals) {
    && 0 <= p.lowIdle <= p.idle && 0 <= p.signals && 0 <= p.retire && |p.queue| <= p.cap && 1 <= p.cap
    && 1 <= p.maxWorkers
    && p.idle + p.signals == t.parked + t.woken
    && p.workers == 1 + t.owedStarts + c.spawn + t.ready + t.told + t.running + t.parked + t.woken
    && p.signals <= t.woken + t.owedSignals + c.wake
    && p.fullWaiters == c.parked + c.resumed
    && (p.stopped ==> c.parked == 0 && t.parked == 0)
  }

  /** A worker leaves with the queue empty, or over the ceiling. */
  lemma ExitKeeps(p: Pool, t: Threads, c: Totals)
    requires Held(p, t, c) && (p.queue == [] || p.workers > p.maxWorkers)
    ensures var x := Exit(p);
            Core(x.p, t.(owedSignals := t.owedSignals + (if x.handoff then 1 else 0)), c)
  {
  }

  lemma TakeKeeps(p: Pool, t: Threads, c: Totals)
    requires Held(p, t, c) && p.queue != [] && Roomy(p, t, c, 0) && Counted(p, t, c, 0)
    ensures var q := p.(queue := p.queue[1..]);
            var u := if p.fullWaiters > 0 then t.(told := t.told + 1) else t.(running := t.running + 1);
            Balanced(q, u, c)
  {
  }

  lemma RoundKeeps(s: State, c: Totals)
    requires Held(s.p, s.t, c) && Roomy(s.p, s.t, c, 0) && Counted(s.p, s.t, c, 0)
    ensures var n := WorkerRound(s); n.calls == s.calls && Balanced(n.p, n.t, c)
  {
    if s.p.workers > s.p.maxWorkers {
      ExitKeeps(s.p, s.t, c);
    } else if s.p.queue != [] {
      TakeKeeps(s.p, s.t, c);
    } else if s.p.stopped {
      ExitKeeps(s.p, s.t, c);
    } else if s.p.retire > 0 && s.p.workers > s.p.minWorkers {
      ExitKeeps(s.p.(retire := s.p.retire - 1), s.t, c);
    }
  }

  /** The worker that holds the mutex can serve one task more. */
  lemma RoundServes(s: State, c: Totals)
    requires Held(s.p, s.t, c)
    requires s.p.workers >= s.p.maxWorkers || |s.p.queue| <= Coming(s.p, s.t, c) + 1
    ensures var n := WorkerRound(s); Served(n.p, n.t, c)
  {
  }

  /** h is s with a worker that holds the mutex. */
  ghost predicate WithWorker(s: State, h: State) {
    var c := Tally(s.calls);
    && h.calls == s.calls && Held(h.p, h.t, c) && Roomy(h.p, h.t, c, 0) && Counted(h.p, h.t, c, 0)
    && (Served(s.p, s.t, c) ==> h.p.workers >= h.p.maxWorkers || |h.p.queue| <= Coming(h.p, h.t, c) + 1)
  }

  lemma WorkerKeeps(s: State, h: State)
    requires WithWorker(s, h)
    ensures Kept(s, WorkerRound(h))
  {
    RoundKeeps(h, Tally(s.calls));
    if Served(s.p, s.t, Tally(s.calls)) {
      RoundServes(h, Tally(s.calls));
    }
  }

  lemma ReadyHolds(s: State)
    requires Balanced(s.p, s.t, Tally(s.calls)) && s.t.ready > 0
    ensures WithWorker(s, s.(t := s.t.(ready := s.t.ready - 1)))
  {
  }

  lemma WokenHolds(s: State)
    requires Balanced(s.p, s.t, Tally(s.calls)) && s.t.woken > 0
    ensures WithWorker(s, s.(p := Awake(s.p), t := s.t.(woken := s.t.woken - 1)))
  {
  }

  lemma ReadyKeeps(s: State)
    requires Balanced(s.p, s.t, Tally(s.calls)) && s.t.ready > 0
    ensures Kept(s, Act(s, ReadyRuns))
  {
    ReadyHolds(s);
    WorkerKeeps(s, s.(t := s.t.(ready := s.t.ready - 1)));
  }

  lemma WokenKeeps(s: State)
    requires Balanced(s.p, s.t, Tally(s.calls)) && s.t.woken > 0
    ensures Kept(s, Act(s, WokenRuns))
  {
    WokenHolds(s);
    WorkerKeeps(s, s.(p := Awake(s.p), t := s.t.(woken := s.t.woken - 1)));
  }

  // The regions of a call.

  /** As Balanced, while call i holds the mutex and others is the tally without it. */
  ghost predicate Holding(s: State, i: nat, others: Totals) {
    && i < |s.calls| && s.calls[i].pc.Resumed? && s.calls[i].next <= s.calls[i].total
    && Shifted(others, Totals(0, 0, 0, 0, 0), Weigh(s.calls[i]), Tally(s.calls))
    && Core(s.p, s.t, others)
    && Roomy(s.p, s.t, others, if s.calls[i].next < s.calls[i].total then 1 else 0)
    && Counted(s.p, s.t, others, Reserves(s.calls[i]))
  }

  lemma RejectKeeps(s: State, i: nat, others: Totals)
    requires Holding(s, i, others) && s.p.stopped
    ensures var n := Reject(s, i);
            && Balanced(n.p, n.t, Tally(n.calls))
            && (Served(s.p, s.t, others) ==> Served(n.p, n.t, Tally(n.calls)))
  {
    TallyUpdate(s.calls, i, Reject(s, i).calls[i]);
  }

  lemma DepartKeeps(s: State, i: nat, others: Totals, f: Filled)
    requires Holding(s, i, others) && !s.p.stopped
    requires f == Fill(s.p, i, s.calls[i].next, s.calls[i].total) && f.next == s.calls[i].total
    ensures var n := Depart(s, i, f);
            && Balanced(n.p, n.t, Tally(n.calls))
            && (Served(s.p, s.t, others) ==> Served(n.p, n.t, Tally(n.calls)))
  {
    var c := s.calls[i];
    TallyUpdate(s.calls, i, c.(next := f.next, pc := Leaving(f.wake, f.spawn)));
    FillFacts(s.p, i, c.next, c.total);
    if Served(s.p, s.t, others) {
      FillServes(s.p, i, c.next, c.total, Coming(s.p, s.t, others) - s.p.signals);
    }
  }

  lemma SettleBalanced(s: State, i: nat, others: Totals, f: Filled, c: Totals)
    requires Holding(s, i, others) && !s.p.stopped && s.calls[i].next <= f.next < s.calls[i].total
    requires |f.p.queue| == |s.p.queue| + f.next - s.calls[i].next == s.p.cap
    requires 0 <= f.p.lowIdle <= f.p.idle == s.p.idle - f.wake && f.p.signals == s.p.signals + f.wake
    requires f.p.workers == s.p.workers + f.spawn
    requires f.next > s.calls[i].next ==>
               f.p.signals > 0 || f.spawn > 0 || (f.p.idle == 0 && f.p.workers >= s.p.maxWorkers)
    requires f.p == s.p.(queue := f.p.queue, idle := f.p.idle, lowIdle := f.p.lowIdle, signals := f.p.signals,
                         workers := f.p.workers)
    requires Shifted(others, Totals(0, 0, 0, 0, 0), Weigh(s.calls[i].(next := f.next, pc := Parked)), c)
    ensures var n := Settle(s, i, f); Balanced(n.p, n.t, c)
  {
  }

  lemma SettleKeeps(s: State, i: nat, others: Totals, f: Filled)
    requires Holding(s, i, others) && !s.p.stopped
    requires f == Fill(s.p, i, s.calls[i].next, s.calls[i].total) && f.next < s.calls[i].total
    ensures var n := Settle(s, i, f);
            && Balanced(n.p, n.t, Tally(n.calls))
            && (Served(s.p, s.t, others) ==> Served(n.p, n.t, Tally(n.calls)))
  {
    var c := s.calls[i];
    TallyUpdate(s.calls, i, c.(next := f.next, pc := Parked));
    FillFacts(s.p, i, c.next, c.total);
    SettleBalanced(s, i, others, f, Tally(Settle(s, i, f).calls));
    if Served(s.p, s.t, others) {
      FillServes(s.p, i, c.next, c.total, Coming(s.p, s.t, others) - s.p.signals);
    }
  }

  lemma RegionKeeps(s: State, i: nat, others: Totals)
    requires Holding(s, i, others)
    ensures var n := Region(s, i);
            && Balanced(n.p, n.t, Tally(n.calls))
            && (Served(s.p, s.t, others) ==> Served(n.p, n.t, Tally(n.calls)))
  {
    if s.p.stopped {
      RejectKeeps(s, i, others);
    } else {
      var c := s.calls[i];
      var f := Fill(s.p, i, c.next, c.total);
      FillFacts(s.p, i, c.next, c.total);
      if f.next < c.total {
        SettleKeeps(s, i, others, f);
      } else {
        DepartKeeps(s, i, others, f);
      }
    }
  }

  /** Calls that have left the mutex for good took all they could; the others have more to queue. */
  ghost predicate Shaped(calls: seq<Call>) {
    forall i :: 0 <= i < |calls| ==>
      calls[i].next <= calls[i].total && (calls[i].pc.Leaving? || calls[i].next < calls[i].total)
  }

  ghost predicate StopOk(s: State) {
    s.p.stopped == !s.stop.Open? && (s.stop.Returned? ==> s.p.pending == 0)
  }

  ghost predicate Inv(s: State) {
    Balanced(s.p, s.t, Tally(s.calls)) && Shaped(s.calls) && StopOk(s)
  }

  ghost predicate Kept(s: State, n: State) {
    Balanced(n.p, n.t, Tally(n.calls)) && (Served(s.p, s.t, Tally(s.calls)) ==> Served(n.p, n.t, Tally(n.calls)))
  }

  lemma ResumeKeeps(s: State, i: nat)
    requires Inv(s) && Enabled(s, Resume(i))
    ensures Kept(s, Act(s, Resume(i)))
  {
    var others := ResumeHolding(s, i);
    RegionKeeps(s.(p := s.p.(fullWaiters := s.p.fullWaiters - 1)), i, others);
  }

  /** A call that was told goes on with the mutex. */
  lemma ResumeHolding(s: State, i: nat) returns (others: Totals)
    requires Inv(s) && Enabled(s, Resume(i))
    ensures var h := s.(p := s.p.(fullWaiters := s.p.fullWaiters - 1));
            Holding(h, i, others) && (Served(s.p, s.t, Tally(s.calls)) ==> Served(h.p, h.t, others))
  {
    var c, a := s.calls[i], Tally(s.calls);
    TallyUpdate(s.calls, i, c);
    assert s.calls[i := c] == s.calls;
    others := a.(resumed := a.resumed - 1, reserved := a.reserved - Reserves(c));
  }

  /** A new call takes the mutex. */
  lemma ArriveHolding(s: State, c: Call)
    requires Inv(s) && c.pc.Resumed? && c.next == 0 && (c.batch || c.total == 1)
    ensures Holding(Arrive(s, c), |s.calls|, Tally(s.calls))
  {
    TallySnoc(s.calls, c);
  }

  lemma ArriveKeeps(s: State, c: Call)
    requires Inv(s) && c.pc.Resumed? && c.next == 0 && (c.batch || c.total == 1)
    ensures Kept(s, Region(Arrive(s, c), |s.calls|))
  {
    ArriveHolding(s, c);
    RegionKeeps(Arrive(s, c), |s.calls|, Tally(s.calls));
  }

  lemma SubmitBatchKeeps(s: State, total: nat)
    requires Inv(s)
    ensures Kept(s, Act(s, SubmitBatch(total)))
  {
    if s.p.stopped {
      TallySnoc(s.calls, Call(true, total, 0, Leaving(0, 0)));
    } else {
      ArriveKeeps(s, Call(true, total, 0, Resumed));
    }
  }

  lemma CallSignalsKeeps(s: State, i: nat)
    requires Inv(s) && Enabled(s, CallSignals(i))
    ensures Kept(s, Act(s, CallSignals(i)))
  {
    TallyUpdate(s.calls, i, Act(s, CallSignals(i)).calls[i]);
  }

  lemma CallStartsKeeps(s: State, i: nat)
    requires Inv(s) && Enabled(s, CallStarts(i))
    ensures Kept(s, Act(s, CallStarts(i)))
  {
    TallyUpdate(s.calls, i, Act(s, CallStarts(i)).calls[i]);
  }

  lemma TellsFullKeeps(s: State, i: nat)
    requires Inv(s) && Enabled(s, TellsFull(i))
    ensures Kept(s, Act(s, TellsFull(i)))
  {
    TallyUpdate(s.calls, i, Act(s, TellsFull(i)).calls[i]);
  }

  function Awoken(c: Call): Call { if c.pc.Parked? then c.(pc := Resumed) else c }

  lemma {:induction false} ResumeAllIs(calls: seq<Call>)
    ensures |ResumeAll(calls)| == |calls| && forall i :: 0 <= i < |calls| ==> ResumeAll(calls)[i] == Awoken(calls[i])
  {
    if calls != [] {
      ResumeAllIs(calls[..|calls| - 1]);
    }
  }

  /** Two sums that move together over the calls. */
  lemma {:induction false} SumAwoken(f: Call -> nat, g: Call -> nat, calls: seq<Call>)
    requires forall c :: f(Awoken(c)) == g(c)
    ensures Sum(f, ResumeAll(calls)) == Sum(g, calls)
  {
    if calls != [] {
      SumAwoken(f, g, calls[..|calls| - 1]);
      SumSnoc(f, ResumeAll(calls[..|calls| - 1]), Awoken(calls[|calls| - 1]));
    }
  }

  function IsWaiting(c: Call): nat { IsParked(c) + IsResumed(c) }

  function Never(c: Call): nat { 0 }

  lemma {:induction false} SumWaiting(calls: seq<Call>)
    ensures Sum(IsWaiting, calls) == Sum(IsParked, calls) + Sum(IsResumed, calls) && Sum(Never, calls) == 0
  {
    if calls != [] {
      SumWaiting(calls[..|calls| - 1]);
    }
  }

  lemma ResumeAllTally(calls: seq<Call>)
    ensures var a, b := Tally(calls), Tally(ResumeAll(calls));
            b == a.(parked := 0, resumed := a.parked + a.resumed)
    ensures |ResumeAll(calls)| == |calls| && forall i :: 0 <= i < |calls| ==> ResumeAll(calls)[i] == Awoken(calls[i])
  {
    ResumeAllIs(calls);
    SumWaiting(calls);
    SumAwoken(IsParked, Never, calls);
    SumAwoken(IsResumed, IsWaiting, calls);
    SumAwoken(Wakes, Wakes, calls);
    SumAwoken(Spawns, Spawns, calls);
    SumAwoken(Reserves, Reserves, calls);
  }

  lemma StopKeeps(s: State)
    requires Inv(s) && Enabled(s, Stop)
    ensures Kept(s, Act(s, Stop))
  {
    ResumeAllTally(s.calls);
  }

  /** The steps that touch no call. */
  lemma OtherKeeps(s: State, e: Step, c: Totals)
    requires Balanced(s.p, s.t, c) && StopOk(s) && Enabled(s, e) && (e.TellsNone? ==> c.parked == 0)
    requires e.TellsNone? || e.Finishes? || e.OwedSignal? || e.OwedStart? || e.OwedBroadcast? || e.StopReturns?
    ensures var n := Act(s, e);
            n.calls == s.calls && Balanced(n.p, n.t, c) && (Served(s.p, s.t, c) ==> Served(n.p, n.t, c))
  {
  }

  lemma SizesKeep(s: State, e: Step)
    requires Inv(s) && Enabled(s, e) && (e.ShrinkPool? || e.ResizePool?)
    ensures var n := Act(s, e);
            && Balanced(n.p, n.t, Tally(n.calls))
            && (!e.ResizePool? && Served(s.p, s.t, Tally(s.calls)) ==> Served(n.p, n.t, Tally(n.calls)))
  {
  }

  lemma StepKeeps(s: State, e: Step)
    requires Inv(s) && Enabled(s, e)
    ensures Balanced(Act(s, e).p, Act(s, e).t, Tally(Act(s, e).calls))
    ensures !e.ResizePool? ==> Kept(s, Act(s, e))
  {
    match e
    case Submit => ArriveKeeps(s, Call(false, 1, 0, Resumed));
    case SubmitBatch(total) => SubmitBatchKeeps(s, total);
    case Stop => StopKeeps(s);
    case Resume(i) => ResumeKeeps(s, i);
    case CallSignals(i) => CallSignalsKeeps(s, i);
    case CallStarts(i) => CallStartsKeeps(s, i);
    case ReadyRuns => ReadyKeeps(s);
    case WokenRuns => WokenKeeps(s);
    case TellsFull(i) => TellsFullKeeps(s, i);
    case ShrinkPool => SizesKeep(s, e);
    case ResizePool(_, _) => SizesKeep(s, e);
    case _ => OtherKeeps(s, e, Tally(s.calls));
  }
}
