/** How many workers a shard has over its runs. */
module TaskPoolSize {
  import opened Arithmetic
  import opened TaskPool
  import opened TaskPoolRun
  import opened TaskPoolSafety
  import opened TaskPoolTheorems

  /** Limits are left alone; one worker at most leaves, and only above the ceiling, after stop, or
      above the floor with nothing to do; none is started above the ceiling. */
  ghost predicate Sized(p: Pool, n: Pool) {
    && n.minWorkers == p.minWorkers && n.maxWorkers == p.maxWorkers && (p.stopped ==> n.stopped)
    && (n.workers < p.workers ==>
          && n.workers == p.workers - 1
          && (p.workers > p.maxWorkers || p.stopped || (p.queue == [] && p.retire > 0 && p.workers > p.minWorkers)))
    && (n.workers > p.workers ==> n.workers <= p.maxWorkers)
  }

  lemma RegionSized(s: State, i: nat)
    requires i < |s.calls| && s.calls[i].next <= s.calls[i].total
    requires 0 <= s.p.lowIdle <= s.p.idle && 0 <= s.p.signals && |s.p.queue| <= s.p.cap
    ensures Sized(s.p, Region(s, i).p)
  {
    if !s.p.stopped {
      FillFacts(s.p, i, s.calls[i].next, s.calls[i].total);
    }
  }

  lemma RoundSized(s: State)
    ensures Sized(s.p, WorkerRound(s).p)
  {
  }

  lemma StepSized(s: State, e: Step)
    requires Inv(s) && Enabled(s, e) && !e.ResizePool?
    ensures Sized(s.p, Act(s, e).p)
  {
    match e
    case Submit => RegionSized(Arrive(s, Call(false, 1, 0, Resumed)), |s.calls|);
    case SubmitBatch(total) =>
      if !s.p.stopped {
        RegionSized(Arrive(s, Call(true, total, 0, Resumed)), |s.calls|);
      }
    case Resume(i) => RegionSized(s.(p := s.p.(fullWaiters := s.p.fullWaiters - 1)), i);
    case ReadyRuns => RoundSized(s.(t := s.t.(ready := s.t.ready - 1)));
    case WokenRuns => RoundSized(s.(p := Awake(s.p), t := s.t.(woken := s.t.woken - 1)));
    case _ =>
  }

  lemma RegionGrows(s: State, i: nat)
    requires i < |s.calls| && s.calls[i].next <= s.calls[i].total
    requires 0 <= s.p.lowIdle <= s.p.idle && 0 <= s.p.signals && |s.p.queue| <= s.p.cap
    ensures var n := Region(s, i);
            i < |n.calls| && (n.calls[i].pc.Parked? ==>
              |n.p.queue| == n.p.cap && (n.p.workers > s.p.workers || n.p.workers >= n.p.maxWorkers))
  {
    if !s.p.stopped {
      FillFacts(s.p, i, s.calls[i].next, s.calls[i].total);
    }
  }

  /** A call waits only for a full queue, and not before another worker is started or the ceiling is reached. */
  lemma FullQueueGrows(s: State, e: Step, i: nat)
    requires Inv(s) && Enabled(s, e) && i < |Act(s, e).calls| && Act(s, e).calls[i].pc.Parked?
    requires i >= |s.calls| || !s.calls[i].pc.Parked?
    ensures var n := Act(s, e).p; |n.queue| == n.cap && (n.workers > s.p.workers || n.workers >= n.maxWorkers)
  {
    match e
    case Submit => RegionGrows(Arrive(s, Call(false, 1, 0, Resumed)), |s.calls|);
    case SubmitBatch(total) =>
      if !s.p.stopped {
        RegionGrows(Arrive(s, Call(true, total, 0, Resumed)), |s.calls|);
      }
    case Resume(j) => RegionGrows(s.(p := s.p.(fullWaiters := s.p.fullWaiters - 1)), j);
    case Stop => ResumeAllTally(s.calls);
    case _ =>
  }

  lemma RoundOver(s: State)
    ensures var n := WorkerRound(s);
            && (s.p.workers > s.p.maxWorkers ==> n.p.workers == s.p.workers - 1 && n.started == s.started)
            && (n.started != s.started ==> s.p.workers <= s.p.maxWorkers)
  {
  }

  /** A worker that comes to the mutex with too many of them leaves and takes no task, even if some are queued; so no
      task is ever started while there are more workers than the ceiling. */
  lemma ExcessLeaves(s: State, e: Step)
    requires Inv(s) && Enabled(s, e)
    ensures var n := Act(s, e);
            && ((e.ReadyRuns? || e.WokenRuns?) && s.p.workers > s.p.maxWorkers ==> n.p.workers == s.p.workers - 1)
            && (n.started != s.started ==> s.p.workers <= s.p.maxWorkers)
  {
    if e.ReadyRuns? {
      RoundOver(s.(t := s.t.(ready := s.t.ready - 1)));
    } else if e.WokenRuns? {
      RoundOver(s.(p := Awake(s.p), t := s.t.(woken := s.t.woken - 1)));
    }
  }

  // What lowIdle and retire mean.

  lemma {:induction false} FillLow(p: Pool, call: nat, next: nat, total: nat)
    requires p.lowIdle <= p.idle && 0 <= p.idle
    ensures var f := Fill(p, call, next, total); f.p.lowIdle == Min(p.lowIdle, f.p.idle) && 0 <= f.p.idle <= p.idle
    decreases total - next
  {
    if next < total && |p.queue| < p.cap {
      FillLow(Offer(p, Task(call, next)).p, call, next + 1, total);
    }
  }

  lemma RegionLow(s: State, i: nat)
    requires i < |s.calls| && s.p.lowIdle <= s.p.idle && 0 <= s.p.idle
    ensures Region(s, i).p.lowIdle == Min(s.p.lowIdle, Region(s, i).p.idle)
  {
    FillLow(s.p, i, s.calls[i].next, s.calls[i].total);
  }

  lemma RoundLow(s: State)
    requires s.p.lowIdle <= s.p.idle
    ensures WorkerRound(s).p.lowIdle == Min(s.p.lowIdle, WorkerRound(s).p.idle)
  {
  }

  /** The fewest workers idle from the start of a step to its end: one that wakes up unclaimed and
      finds nothing to do was not idle in between. */
  function Lowest(s: State, e: Step): int
    requires Enabled(s, e)
  {
    if e.WokenRuns? then Min(Awake(s.p).idle, Act(s, e).p.idle) else Act(s, e).p.idle
  }

  /** Every step but a shrink lowers lowIdle to the number of idle workers, if that is lower. */
  lemma StepLow(s: State, e: Step)
    requires Inv(s) && Enabled(s, e) && !e.ShrinkPool?
    ensures Act(s, e).p.lowIdle == Min(s.p.lowIdle, Lowest(s, e))
  {
    match e
    case Submit => RegionLow(Arrive(s, Call(false, 1, 0, Resumed)), |s.calls|);
    case SubmitBatch(total) =>
      if !s.p.stopped {
        RegionLow(Arrive(s, Call(true, total, 0, Resumed)), |s.calls|);
      }
    case Resume(i) => RegionLow(s.(p := s.p.(fullWaiters := s.p.fullWaiters - 1)), i);
    case ReadyRuns => RoundLow(s.(t := s.t.(ready := s.t.ready - 1)));
    case WokenRuns =>
      var h := s.(p := Awake(s.p), t := s.t.(woken := s.t.woken - 1));
      assert h.p.lowIdle == Min(s.p.lowIdle, h.p.idle);
      RoundLow(h);
    case _ =>
  }

  /** The fewest workers idle at any moment of a run. */
  function Fewest(s: State, run: seq<Step>): int {
    if run == [] then s.p.idle else
    var before, e := Exec(s, run[..|run| - 1]), run[|run| - 1];
    Min(Fewest(s, run[..|run| - 1]), if Enabled(before, e) then Lowest(before, e) else before.p.idle)
  }

  /** lowIdle is the fewest workers parked and unclaimed at any moment since the last shrink. */
  lemma {:induction false} LowIdleIsFewest(s: State, run: seq<Step>)
    requires Inv(s) && s.p.lowIdle == s.p.idle && forall i :: 0 <= i < |run| ==> !run[i].ShrinkPool?
    ensures Inv(Exec(s, run)) && Exec(s, run).p.lowIdle == Fewest(s, run)
  {
    if run != [] {
      var before, e := run[..|run| - 1], run[|run| - 1];
      LowIdleIsFewest(s, before);
      var b := Exec(s, before);
      if Enabled(b, e) {
        InvKept(b, e);
        StepLow(b, e);
      } else {
        assert b.p.lowIdle <= b.p.idle;
      }
    }
  }

  /** A shrink asks at least half of those to leave, as long as that keeps the floor, and starts
      counting anew. */
  lemma ShrinkAsksHalf(p: Pool)
    requires 0 <= p.lowIdle
    ensures var n := Shrink(p);
            && n.lowIdle == p.idle && 0 <= n.retire <= (p.lowIdle + 1) / 2
            && (n.retire > 0 ==> p.workers - n.retire >= p.minWorkers)
            && (p.workers >= p.minWorkers && !p.stopped ==>
                  2 * n.retire >= p.lowIdle || p.workers - n.retire == p.minWorkers)
  {
  }

  // The floor and the ceiling.

  predicate AtFloor(p: Pool) { p.stopped || p.workers >= Min(p.minWorkers, p.maxWorkers) }

  lemma FloorKept(s: State, e: Step)
    requires Inv(s) && AtFloor(s.p)
    ensures AtFloor(Next(s, e).p)
  {
    if Enabled(s, e) && !e.ResizePool? {
      StepSized(s, e);
    }
  }

  /** In every run the shard has its floor of workers until it is stopped: shrinking never goes below
      it, and raising it starts the missing ones at once. */
  lemma {:induction false} NeverBelowFloor(queueSize: nat, minWorkers: int, maxWorkers: int, run: seq<Step>)
    requires maxWorkers >= 1
    ensures AtFloor(Exec(Init(queueSize, minWorkers, maxWorkers), run).p)
  {
    if run != [] {
      var before := run[..|run| - 1];
      RunKeeps(queueSize, minWorkers, maxWorkers, before);
      NeverBelowFloor(queueSize, minWorkers, maxWorkers, before);
      FloorKept(Exec(Init(queueSize, minWorkers, maxWorkers), before), run[|run| - 1]);
    }
  }

  /** Workers beyond the ceiling are left over from a higher one: no step adds to them. */
  lemma CeilingKept(s: State, e: Step)
    requires Inv(s)
    ensures var n := Next(s, e).p; n.workers <= Max(s.p.workers, n.maxWorkers)
  {
    if Enabled(s, e) && !e.ResizePool? {
      StepSized(s, e);
    }
  }

  /** No resize of a run lowers the ceiling. */
  predicate NeverLowered(s: State, run: seq<Step>) {
    forall i :: 0 <= i < |run| && run[i].ResizePool? ==> run[i].maxWorkers >= Exec(s, run[..i]).p.maxWorkers
  }

  lemma {:induction false} NeverAboveCeiling(queueSize: nat, minWorkers: int, maxWorkers: int, run: seq<Step>)
    requires maxWorkers >= 1 && NeverLowered(Init(queueSize, minWorkers, maxWorkers), run)
    ensures var p := Exec(Init(queueSize, minWorkers, maxWorkers), run).p; p.workers <= p.maxWorkers
  {
    if run != [] {
      var before, s0 := run[..|run| - 1], Init(queueSize, minWorkers, maxWorkers);
      assert forall i :: 0 <= i < |before| ==> before[i] == run[i] && before[..i] == run[..i];
      RunKeeps(queueSize, minWorkers, maxWorkers, before);
      NeverAboveCeiling(queueSize, minWorkers, maxWorkers, before);
      CeilingRises(Exec(s0, before), run[|run| - 1]);
      CeilingKept(Exec(s0, before), run[|run| - 1]);
    }
  }

  lemma CeilingRises(s: State, e: Step)
    requires Inv(s) && (e.ResizePool? ==> e.maxWorkers >= s.p.maxWorkers)
    ensures Next(s, e).p.maxWorkers >= s.p.maxWorkers
  {
    if Enabled(s, e) && !e.ResizePool? {
      StepSized(s, e);
    }
  }
}
