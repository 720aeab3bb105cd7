/** The adaptive pool over whole runs. */
module TaskPoolTheorems {
  import opened Arithmetic
  import opened TaskPool
  import opened TaskPoolRun
  import opened TaskPoolSafety

  // The rest of the invariant.

  lemma RegionShape(s: State, i: nat)
    requires i < |s.calls| && s.calls[i].next <= s.calls[i].total && s.calls[i].pc.Resumed?
    requires 0 <= s.p.lowIdle <= s.p.idle && 0 <= s.p.signals && |s.p.queue| <= s.p.cap
    requires forall j :: 0 <= j < |s.calls| && j != i ==>
               s.calls[j].next <= s.calls[j].total && (s.calls[j].pc.Leaving? || s.calls[j].next < s.calls[j].total)
    ensures var n := Region(s, i);
            && Shaped(n.calls) && |n.calls| == |s.calls| && n.stop == s.stop && n.p.stopped == s.p.stopped
            && (s.p.stopped ==> n.p.pending <= s.p.pending)
  {
    FillFacts(s.p, i, s.calls[i].next, s.calls[i].total);
  }

  /** A call that takes the mutex: a new one, or one back from its wait. */
  predicate TakesMutex(e: Step) { e.Submit? || e.SubmitBatch? || e.Resume? }

  ghost predicate Sound(s: State) { Shaped(s.calls) && StopOk(s) }

  lemma ArriveKept(s: State, c: Call)
    requires Inv(s) && c.pc.Resumed? && c.next == 0
    ensures var n := Region(Arrive(s, c), |s.calls|);
            && Shaped(n.calls) && n.stop == s.stop && n.p.stopped == s.p.stopped
            && (s.p.stopped ==> n.p.pending <= s.p.pending + Reserves(c))
  {
    RegionShape(Arrive(s, c), |s.calls|);
  }

  lemma CallKept(s: State, e: Step)
    requires Inv(s) && Enabled(s, e) && TakesMutex(e) && Act(s, e).p.pending >= 0
    ensures Sound(Act(s, e))
  {
    match e
    case Submit => ArriveKept(s, Call(false, 1, 0, Resumed));
    case SubmitBatch(total) =>
      if !s.p.stopped {
        ArriveKept(s, Call(true, total, 0, Resumed));
      }
    case Resume(i) => RegionShape(s.(p := s.p.(fullWaiters := s.p.fullWaiters - 1)), i);
  }

  lemma ShapeKept(s: State, e: Step)
    requires Inv(s) && Enabled(s, e) && !TakesMutex(e)
    ensures Shaped(Act(s, e).calls)
  {
    if e.Stop? {
      ResumeAllTally(s.calls);
    }
  }

  lemma StopKept(s: State, e: Step)
    requires Inv(s) && Enabled(s, e) && !TakesMutex(e)
    ensures StopOk(Act(s, e))
  {
  }

  lemma InvKept(s: State, e: Step)
    requires Inv(s) && Enabled(s, e)
    ensures Inv(Act(s, e))
  {
    StepKeeps(s, e);
    if TakesMutex(e) {
      CallKept(s, e);
    } else {
      ShapeKept(s, e);
      StopKept(s, e);
    }
  }

  // First in, first out.

  /** Which tasks of a call a history holds, in its order. */
  ghost function Indexes(h: seq<Task>, call: nat): seq<nat> {
    if h == [] then []
    else
      var init, last := h[..|h| - 1], h[|h| - 1];
      if last.call == call then Indexes(init, call) + [last.index] else Indexes(init, call)
  }

  ghost function UpTo(n: nat): seq<nat> { seq(n, k => k) }

  lemma {:induction false} IndexesOfBatch(h: seq<Task>, call: nat, first: nat, end: nat, other: nat)
    requires first <= end
    ensures other != call ==> Indexes(h + Tasks(call, first, end), other) == Indexes(h, other)
    ensures Indexes(h, call) == UpTo(first) ==> Indexes(h + Tasks(call, first, end), call) == UpTo(end)
    decreases end - first
  {
    if first < end {
      var h1 := h + [Task(call, first)];
      assert h1[..|h|] == h;
      assert h + ([Task(call, first)] + Tasks(call, first + 1, end)) == h1 + Tasks(call, first + 1, end);
      assert UpTo(first) + [first] == UpTo(first + 1);
      IndexesOfBatch(h1, call, first + 1, end, other);
    } else {
      assert h + Tasks(call, first, end) == h;
    }
  }

  /** What was accepted was started, in order, or is still queued, in order; and every call has
      had exactly its first tasks accepted, once each. */
  ghost predicate InOrder(s: State) {
    && s.accepted == s.started + s.p.queue
    && (forall c: nat :: c < |s.calls| ==> Indexes(s.accepted, c) == UpTo(s.calls[c].next))
    && (forall c: nat :: c >= |s.calls| ==> Indexes(s.accepted, c) == [])
  }

  lemma RegionInOrder(s: State, i: nat)
    requires InOrder(s) && i < |s.calls| && s.calls[i].next <= s.calls[i].total
    ensures InOrder(Region(s, i))
  {
    if !s.p.stopped {
      var c, n := s.calls[i], Region(s, i);
      var f := Fill(s.p, i, c.next, c.total);
      FillQueue(s.p, i, c.next, c.total);
      var added := Tasks(i, c.next, f.next);
      assert n.accepted == s.accepted + added && n.started == s.started && n.p.queue == s.p.queue + added;
      assert s.started + s.p.queue + added == s.started + (s.p.queue + added);
      forall k: nat ensures k < |s.calls| ==> Indexes(n.accepted, k) == UpTo(n.calls[k].next)
                    ensures k >= |s.calls| ==> Indexes(n.accepted, k) == []
      {
        IndexesOfBatch(s.accepted, i, c.next, f.next, k);
      }
    }
  }

  lemma RoundInOrder(s: State)
    requires InOrder(s)
    ensures InOrder(WorkerRound(s))
  {
    var n := WorkerRound(s);
    if n.started != s.started {
      assert s.p.queue == [s.p.queue[0]] + s.p.queue[1..];
      assert s.started + [s.p.queue[0]] + s.p.queue[1..] == s.started + ([s.p.queue[0]] + s.p.queue[1..]);
    }
  }

  lemma ArriveInOrder(s: State, c: Call)
    requires InOrder(s) && c.next == 0
    ensures InOrder(Region(Arrive(s, c), |s.calls|))
  {
    RegionInOrder(Arrive(s, c), |s.calls|);
  }

  lemma CallInOrder(s: State, e: Step)
    requires Inv(s) && InOrder(s) && Enabled(s, e) && TakesMutex(e)
    ensures InOrder(Act(s, e))
  {
    match e
    case Submit => ArriveInOrder(s, Call(false, 1, 0, Resumed));
    case SubmitBatch(total) =>
      if !s.p.stopped {
        ArriveInOrder(s, Call(true, total, 0, Resumed));
      }
    case Resume(i) => RegionInOrder(s.(p := s.p.(fullWaiters := s.p.fullWaiters - 1)), i);
  }

  /** A step with the same history and queue, and as many tasks of each call. */
  lemma SameOrder(s: State, n: State)
    requires InOrder(s) && n.accepted == s.accepted && n.started == s.started && n.p.queue == s.p.queue
    requires |n.calls| == |s.calls| && forall i :: 0 <= i < |s.calls| ==> n.calls[i].next == s.calls[i].next
    ensures InOrder(n)
  {
  }

  lemma SameHistory(s: State, e: Step)
    requires Enabled(s, e) && !TakesMutex(e) && !e.ReadyRuns? && !e.WokenRuns?
    ensures var n := Act(s, e);
            && n.accepted == s.accepted && n.started == s.started && n.p.queue == s.p.queue && |n.calls| == |s.calls|
            && forall i :: 0 <= i < |s.calls| ==> n.calls[i].next == s.calls[i].next
  {
    ResumeAllTally(s.calls);
  }

  lemma OrderKept(s: State, e: Step)
    requires Inv(s) && InOrder(s) && Enabled(s, e)
    ensures InOrder(Act(s, e))
  {
    if TakesMutex(e) {
      CallInOrder(s, e);
    } else if e.ReadyRuns? {
      RoundInOrder(s.(t := s.t.(ready := s.t.ready - 1)));
    } else if e.WokenRuns? {
      RoundInOrder(s.(p := Awake(s.p), t := s.t.(woken := s.t.woken - 1)));
    } else {
      SameHistory(s, e);
      SameOrder(s, Act(s, e));
    }
  }

  // Runs.

  /** A new shard after its first resize. */
  function Init(queueSize: nat, minWorkers: int, maxWorkers: int): State {
    var p := Pool([], Max(queueSize, 1), 0, 0, 0, 0, 0, 0, 0, 0, false, 0);
    State(Resize(p, minWorkers, maxWorkers), Threads(0, 0, 0, 0, 0, 0, Missing(p, minWorkers, maxWorkers), 0), [],
          Open, [], [])
  }

  /** A step that cannot be taken is none. */
  function Next(s: State, e: Step): State { if Enabled(s, e) then Act(s, e) else s }

  function Exec(s: State, run: seq<Step>): State {
    if run == [] then s else Next(Exec(s, run[..|run| - 1]), run[|run| - 1])
  }

  lemma {:induction false} RunKeeps(queueSize: nat, minWorkers: int, maxWorkers: int, run: seq<Step>)
    requires maxWorkers >= 1
    ensures Inv(Exec(Init(queueSize, minWorkers, maxWorkers), run))
    ensures InOrder(Exec(Init(queueSize, minWorkers, maxWorkers), run))
  {
    if run != [] {
      var s, e := Exec(Init(queueSize, minWorkers, maxWorkers), run[..|run| - 1]), run[|run| - 1];
      RunKeeps(queueSize, minWorkers, maxWorkers, run[..|run| - 1]);
      if Enabled(s, e) {
        InvKept(s, e);
        OrderKept(s, e);
      }
    }
  }

  /** Threads that will run without waiting for any other: workers on their way to the mutex
      and threads that owe a signal or a start. */
  function Able(s: State): int {
    var c := Tally(s.calls);
    s.t.ready + s.t.woken + s.t.owedStarts + c.spawn + s.t.owedSignals + c.wake
  }

  /** No lost wake-up. */
  lemma NoLostWakeUp(queueSize: nat, minWorkers: int, maxWorkers: int, run: seq<Step>)
    requires maxWorkers >= 1
    ensures var s := Exec(Init(queueSize, minWorkers, maxWorkers), run);
            var c := Tally(s.calls);
            && s.p.idle + s.p.signals == s.t.parked + s.t.woken && s.p.idle >= 0 && s.p.signals >= 0
            && (s.p.queue != [] ==> Able(s) + s.t.told + s.t.running > 0)
            && (c.parked > 0 && |s.p.queue| < s.p.cap ==> c.resumed + s.t.told > 0)
            && s.p.fullWaiters == c.parked + c.resumed
  {
    RunKeeps(queueSize, minWorkers, maxWorkers, run);
  }

  /** pending is exact, so the WaitGroup never goes negative. */
  lemma PendingIsExact(queueSize: nat, minWorkers: int, maxWorkers: int, run: seq<Step>)
    requires maxWorkers >= 1
    ensures var s := Exec(Init(queueSize, minWorkers, maxWorkers), run);
            s.p.pending == |s.p.queue| + s.t.told + s.t.running + Tally(s.calls).reserved
  {
    RunKeeps(queueSize, minWorkers, maxWorkers, run);
  }

  ghost predicate AllPrefixes(h: seq<Task>) {
    forall c: nat :: Indexes(h, c) == UpTo(|Indexes(h, c)|)
  }

  lemma {:induction false} IndexesHas(h: seq<Task>, i: nat)
    requires i < |h|
    ensures h[i].index in Indexes(h, h[i].call)
  {
    if i < |h| - 1 {
      IndexesHas(h[..|h| - 1], i);
    }
  }

  lemma PrefixInit(h: seq<Task>)
    requires h != [] && AllPrefixes(h)
    ensures AllPrefixes(h[..|h| - 1])
    ensures var last := h[|h| - 1]; last.index == |Indexes(h[..|h| - 1], last.call)|
  {
    var init, last := h[..|h| - 1], h[|h| - 1];
    var n := |Indexes(init, last.call)|;
    assert Indexes(h, last.call) == Indexes(init, last.call) + [last.index];
    assert Indexes(h, last.call)[n] == last.index;
    forall c: nat ensures Indexes(init, c) == UpTo(|Indexes(init, c)|) {
      if c == last.call {
        assert Indexes(init, c) == Indexes(h, c)[..n];
      } else {
        assert Indexes(init, c) == Indexes(h, c);
      }
    }
  }

  lemma {:induction false} NoRepeat(h: seq<Task>, i: nat, j: nat)
    requires AllPrefixes(h) && i < j < |h|
    ensures h[i] != h[j]
  {
    var init, last := h[..|h| - 1], h[|h| - 1];
    PrefixInit(h);
    if j < |h| - 1 {
      NoRepeat(init, i, j);
    } else if h[i].call == last.call {
      IndexesHas(init, i);
      assert h[i].index in UpTo(last.index);
    }
  }

  /** Accepted tasks start once each, in the order in which they were accepted; a call has had
      its first tasks accepted, and all of them once it has left without finding the pool
      stopped. */
  lemma FirstInFirstOut(queueSize: nat, minWorkers: int, maxWorkers: int, run: seq<Step>)
    requires maxWorkers >= 1
    ensures var s := Exec(Init(queueSize, minWorkers, maxWorkers), run);
            && s.accepted == s.started + s.p.queue
            && (forall c: nat :: c < |s.calls| ==> Indexes(s.accepted, c) == UpTo(s.calls[c].next))
            && (forall i, j :: 0 <= i < j < |s.started| ==> s.started[i] != s.started[j])
  {
    RunKeeps(queueSize, minWorkers, maxWorkers, run);
    var s := Exec(Init(queueSize, minWorkers, maxWorkers), run);
    assert AllPrefixes(s.accepted) by {
      forall c: nat ensures Indexes(s.accepted, c) == UpTo(|Indexes(s.accepted, c)|) {
        if c < |s.calls| {
          assert Indexes(s.accepted, c) == UpTo(s.calls[c].next);
        } else {
          assert Indexes(s.accepted, c) == [] == UpTo(0);
        }
      }
    }
    forall i, j | 0 <= i < j < |s.started| ensures s.started[i] != s.started[j] {
      NoRepeat(s.accepted, i, j);
    }
  }

  /** stop returns only when everything accepted has run, and nothing parks any more. */
  lemma StopDrains(queueSize: nat, minWorkers: int, maxWorkers: int, run: seq<Step>)
    requires maxWorkers >= 1
    ensures var s := Exec(Init(queueSize, minWorkers, maxWorkers), run);
            && (!s.stop.Open? ==> s.t.parked == 0 && Tally(s.calls).parked == 0)
            && (s.stop.Returned? ==>
                  s.p.queue == [] && s.t.told + s.t.running == 0 && s.started == s.accepted
                  && Tally(s.calls).reserved == 0)
  {
    RunKeeps(queueSize, minWorkers, maxWorkers, run);
  }

  // Blocked tasks.

  /** Queued tasks for which no worker is on its way. */
  function Backlog(s: State): int { |s.p.queue| - Coming(s.p, s.t, Tally(s.calls)) }

  /** A resize lifts the ceiling above the workers there are while its new floor neither reaches
      that ceiling nor covers the backlog. */
  predicate Overlooks(s: State, e: Step) {
    && e.ResizePool? && e.maxWorkers >= 1
    && s.p.workers < e.maxWorkers && (s.p.stopped || e.minWorkers < e.maxWorkers)
    && Backlog(s) > Missing(s.p, e.minWorkers, e.maxWorkers)
  }

  /** No step but such a resize lets a task wait for a running one below the ceiling. */
  lemma ServedKept(s: State, e: Step)
    requires Inv(s) && Served(s.p, s.t, Tally(s.calls)) && Enabled(s, e)
    ensures var n := Act(s, e); Served(n.p, n.t, Tally(n.calls)) <==> !Overlooks(s, e)
  {
    if !e.ResizePool? {
      StepKeeps(s, e);
    }
  }

  /** In a run without such a resize. */
  ghost predicate NeverOverlooks(s: State, run: seq<Step>) {
    run == [] || (NeverOverlooks(s, run[..|run| - 1]) && !Overlooks(Exec(s, run[..|run| - 1]), run[|run| - 1]))
  }

  /** Below the ceiling every queued task has a thread of its own coming for it that waits for no
      running task. */
  lemma {:induction false} NoTaskHeldBack(queueSize: nat, minWorkers: int, maxWorkers: int, run: seq<Step>)
    requires maxWorkers >= 1 && NeverOverlooks(Init(queueSize, minWorkers, maxWorkers), run)
    ensures var s := Exec(Init(queueSize, minWorkers, maxWorkers), run);
            && Served(s.p, s.t, Tally(s.calls))
            && (s.p.workers < s.p.maxWorkers ==> |s.p.queue| <= Able(s))
  {
    RunKeeps(queueSize, minWorkers, maxWorkers, run);
    if run != [] {
      var before := run[..|run| - 1];
      NoTaskHeldBack(queueSize, minWorkers, maxWorkers, before);
      RunKeeps(queueSize, minWorkers, maxWorkers, before);
      var s, e := Exec(Init(queueSize, minWorkers, maxWorkers), before), run[|run| - 1];
      if Enabled(s, e) {
        ServedKept(s, e);
      }
    }
  }

  /** No worker is idle and nobody waits for room. */
  ghost predicate Crowded(s: State, queued: nat, workers: int, ceiling: int) {
    && !s.p.stopped && s.p.idle == 0 && s.p.signals == 0 && s.p.fullWaiters == 0 && |s.p.queue| == queued
    && s.p.workers == workers && s.p.maxWorkers == ceiling && 1 <= s.p.cap
  }

  /** A submission finds room and no idle worker. */
  lemma SubmitUnclaimed(s: State, queued: nat, workers: int, ceiling: int)
    requires Crowded(s, queued, workers, ceiling) && queued < s.p.cap
    ensures var n := Next(s, Submit);
            var more := if workers < ceiling then 1 else 0;
            && Crowded(n, queued + 1, workers + more, ceiling) && n.t == s.t
            && n.calls == s.calls + [Call(false, 1, 1, Leaving(0, more))]
  {
    var a := Arrive(s, Call(false, 1, 0, Resumed));
    var o := Offer(a.p, Task(|s.calls|, 0));
    assert Fill(o.p, |s.calls|, 1, 1) == Filled(o.p, 1, 0, 0);
    assert Fill(a.p, |s.calls|, 0, 1) == Filled(o.p, 1, o.wake, o.spawn);
  }

  lemma Starts(s: State, queued: nat, workers: int, ceiling: int)
    requires Crowded(s, queued, workers, ceiling) && |s.calls| == 1 && s.calls[0].pc == Leaving(0, 1)
    ensures var n := Next(s, CallStarts(0));
            && Crowded(n, queued, workers, ceiling) && n.t == s.t.(ready := s.t.ready + 1)
            && |n.calls| == 1 && n.calls[0].pc == Leaving(0, 0)
  {
  }

  lemma Takes(s: State, queued: nat, workers: int, ceiling: int)
    requires Crowded(s, queued, workers, ceiling) && s.t.ready > 0 && queued > 0 && workers <= ceiling
    ensures var n := Next(s, ReadyRuns);
            && Crowded(n, queued - 1, workers, ceiling)
            && n.t == s.t.(ready := s.t.ready - 1, running := s.t.running + 1) && n.calls == s.calls
  {
  }

  /** One call has queued one task that the first worker will take. */
  lemma FirstQueues(s: State)
    requires Crowded(s, 0, 0, 1) && s.t == Threads(0, 0, 0, 0, 0, 0, 0, 0) && s.calls == []
    ensures var n := Next(s, Submit);
            && Crowded(n, 1, 1, 1) && n.t == s.t && |n.calls| == 1 && n.calls[0].pc == Leaving(0, 1)
  {
    SubmitUnclaimed(s, 0, 0, 1);
  }

  /** It starts that worker, which takes the task. */
  lemma FirstRuns(s: State)
    requires Crowded(s, 1, 1, 1) && s.t == Threads(0, 0, 0, 0, 0, 0, 0, 0)
    requires |s.calls| == 1 && s.calls[0].pc == Leaving(0, 1)
    ensures var n := Next(Next(s, CallStarts(0)), ReadyRuns);
            && Crowded(n, 0, 1, 1) && n.t == Threads(0, 0, 1, 0, 0, 0, 0, 0)
            && |n.calls| == 1 && n.calls[0].pc == Leaving(0, 0)
  {
    Starts(s, 1, 1, 1);
    Takes(Next(s, CallStarts(0)), 1, 1, 1);
  }

  /** A second task waits behind it, and the ceiling goes from one to two. */
  lemma SecondWaits(s: State)
    requires Crowded(s, 0, 1, 1) && s.t == Threads(0, 0, 1, 0, 0, 0, 0, 0) && |s.calls| == 1
             && s.calls[0].pc == Leaving(0, 0)
    ensures var n := Next(s, Submit);
            && Crowded(n, 1, 1, 1) && n.t == s.t
            && |n.calls| == 2 && n.calls[0].pc == Leaving(0, 0) && n.calls[1].pc == Leaving(0, 0)
  {
    SubmitUnclaimed(s, 0, 1, 1);
  }

  lemma NobodyComes(s: State)
    requires Crowded(s, 1, 1, 1) && s.t == Threads(0, 0, 1, 0, 0, 0, 0, 0)
    requires |s.calls| == 2 && s.calls[0].pc == Leaving(0, 0) && s.calls[1].pc == Leaving(0, 0)
    ensures var n := Next(s, ResizePool(0, 2)); n.p.workers < n.p.maxWorkers && n.p.queue != [] && Able(n) == 0
  {
    TallySnoc([], s.calls[0]);
    TallySnoc([s.calls[0]], s.calls[1]);
    assert [] + [s.calls[0]] == [s.calls[0]];
    assert [s.calls[0]] + [s.calls[1]] == s.calls;
  }

  /** The exception is real: from a new shard with a ceiling of one, these five steps leave a task
      queued below the new ceiling with nothing on its way to run it. */
  lemma ResizeLeavesBacklog(queueSize: nat)
    ensures var s := Next(Next(Next(Next(Next(Init(queueSize, 0, 1), Submit), CallStarts(0)), ReadyRuns), Submit),
                          ResizePool(0, 2));
            s.p.workers < s.p.maxWorkers && s.p.queue != [] && Able(s) == 0
  {
    var s0 := Init(queueSize, 0, 1);
    FirstQueues(s0);
    var s1 := Next(s0, Submit);
    FirstRuns(s1);
    var s3 := Next(Next(s1, CallStarts(0)), ReadyRuns);
    SecondWaits(s3);
    NobodyComes(Next(s3, Submit));
  }
}
