/** Every run of a shard of the adaptive pool: submitters, workers, the janitor, resizes and
    stop interleave freely between the regions they run under the mutex. A Signal, a Broadcast
    or a goroutine start that follows such a region is a step of its own. */
module TaskPoolRun {
  import opened Arithmetic
  import opened TaskPool

  /** Where a call of submit or submitBatch is: inside notFull.Wait, woken from it, or past the
      mutex with signals and starts still to do. */
  datatype CallPc = Parked | Resumed | Leaving(wake: nat, spawn: nat)

  /** next tasks of total have been accepted. */
  datatype Call = Call(batch: bool, total: nat, next: nat, pc: CallPc)

  /** Workers by where they are, and what threads outside the mutex still owe. A worker is
      ready before the mutex, told when it took a task and owes a notFull signal, parked inside
      notEmpty.Wait and woken when a signal has reached it there. */
  datatype Threads = Threads(ready: nat, told: nat, running: nat, parked: nat, woken: nat, owedSignals: nat,
                             owedStarts: nat, owedBroadcasts: nat)

  datatype StopPc = Open | Draining | Returned

  datatype State = State(p: Pool, t: Threads, calls: seq<Call>, stop: StopPc, accepted: seq<Task>, started: seq<Task>)

  // Totals over the calls.

  function Sum(f: Call -> nat, calls: seq<Call>): nat {
    if calls == [] then 0 else Sum(f, calls[..|calls| - 1]) + f(calls[|calls| - 1])
  }

  lemma {:induction false} SumUpdate(f: Call -> nat, calls: seq<Call>, i: nat, c: Call)
    requires i < |calls|
    ensures Sum(f, calls[i := c]) == Sum(f, calls) - f(calls[i]) + f(c)
  {
    var n := |calls| - 1;
    if i == n {
      assert calls[i := c][..n] == calls[..n];
    } else {
      assert calls[i := c][..n] == calls[..n][i := c];
      SumUpdate(f, calls[..n], i, c);
    }
  }

  lemma SumSnoc(f: Call -> nat, calls: seq<Call>, c: Call)
    ensures Sum(f, calls + [c]) == Sum(f, calls) + f(c)
  {
    assert (calls + [c])[..|calls|] == calls;
  }

  lemma {:induction false} SumAtLeast(f: Call -> nat, calls: seq<Call>, i: nat)
    requires i < |calls|
    ensures Sum(f, calls) >= f(calls[i])
  {
    if i < |calls| - 1 {
      SumAtLeast(f, calls[..|calls| - 1], i);
    }
  }

  function IsParked(c: Call): nat { if c.pc.Parked? then 1 else 0 }

  function IsResumed(c: Call): nat { if c.pc.Resumed? then 1 else 0 }

  function Wakes(c: Call): nat { if c.pc.Leaving? then c.pc.wake else 0 }

  function Spawns(c: Call): nat { if c.pc.Leaving? then c.pc.spawn else 0 }

  /** Tasks that a batch has counted in pending and not yet queued. */
  function Reserves(c: Call): nat { if c.batch && !c.pc.Leaving? && c.next <= c.total then c.total - c.next else 0 }

  datatype Totals = Totals(parked: nat, resumed: nat, wake: nat, spawn: nat, reserved: nat)

  function Weigh(c: Call): Totals { Totals(IsParked(c), IsResumed(c), Wakes(c), Spawns(c), Reserves(c)) }

  function Tally(calls: seq<Call>): Totals {
    Totals(Sum(IsParked, calls), Sum(IsResumed, calls), Sum(Wakes, calls), Sum(Spawns, calls), Sum(Reserves, calls))
  }

  /** b is a with one call that weighed x now weighing y. */
  ghost predicate Shifted(a: Totals, x: Totals, y: Totals, b: Totals) {
    && b.parked == a.parked - x.parked + y.parked && a.parked >= x.parked
    && b.resumed == a.resumed - x.resumed + y.resumed && a.resumed >= x.resumed
    && b.wake == a.wake - x.wake + y.wake && a.wake >= x.wake
    && b.spawn == a.spawn - x.spawn + y.spawn && a.spawn >= x.spawn
    && b.reserved == a.reserved - x.reserved + y.reserved && a.reserved >= x.reserved
  }

  lemma TallyUpdate(calls: seq<Call>, i: nat, c: Call)
    requires i < |calls|
    ensures Shifted(Tally(calls), Weigh(calls[i]), Weigh(c), Tally(calls[i := c]))
  {
    SumUpdate(IsParked, calls, i, c);
    SumUpdate(IsResumed, calls, i, c);
    SumUpdate(Wakes, calls, i, c);
    SumUpdate(Spawns, calls, i, c);
    SumUpdate(Reserves, calls, i, c);
    SumAtLeast(IsParked, calls, i);
    SumAtLeast(IsResumed, calls, i);
    SumAtLeast(Wakes, calls, i);
    SumAtLeast(Spawns, calls, i);
    SumAtLeast(Reserves, calls, i);
  }

  lemma TallySnoc(calls: seq<Call>, c: Call)
    ensures Shifted(Tally(calls), Totals(0, 0, 0, 0, 0), Weigh(c), Tally(calls + [c]))
  {
    SumSnoc(IsParked, calls, c);
    SumSnoc(IsResumed, calls, c);
    SumSnoc(Wakes, calls, c);
    SumSnoc(Spawns, calls, c);
    SumSnoc(Reserves, calls, c);
  }

  // What a step does outside the fields of the shard.

  /** n calls of notEmpty.Signal. */
  function Signal(t: Threads, n: nat): Threads {
    var m := if n < t.parked then n else t.parked;
    t.(parked := t.parked - m, woken := t.woken + m)
  }

  /** notEmpty.Broadcast. */
  function Broadcast(t: Threads): Threads { t.(parked := 0, woken := t.woken + t.parked) }

  /** notFull.Broadcast. */
  function ResumeAll(calls: seq<Call>): seq<Call> {
    if calls == [] then []
    else
      var c := calls[|calls| - 1];
      ResumeAll(calls[..|calls| - 1]) + [if c.pc.Parked? then c.(pc := Resumed) else c]
  }

  /** Tasks first..end of a call. */
  function Tasks(call: nat, first: nat, end: nat): seq<Task>
    decreases end - first
  {
    if first >= end then [] else [Task(call, first)] + Tasks(call, first + 1, end)
  }

  // What call i does from the moment it holds the mutex until it releases it.
  // submit adds to pending as it queues its task; submitBatch did so for all of them before.

  /** It finds the pool stopped. */
  function Reject(s: State, i: nat): State
    requires i < |s.calls|
  {
    var c := s.calls[i];
    s.(p := s.p.(pending := s.p.pending - (if c.batch then c.total - c.next else 0)),
       calls := s.calls[i := c.(pc := Leaving(0, 0))])
  }

  function Accept(s: State, i: nat, f: Filled): State
    requires i < |s.calls|
  {
    var c := s.calls[i];
    s.(p := f.p.(pending := f.p.pending + (if c.batch then 0 else f.next - c.next)),
       accepted := s.accepted + Tasks(i, c.next, f.next))
  }

  /** It has queued its last task. */
  function Depart(s: State, i: nat, f: Filled): State
    requires i < |s.calls|
  {
    Accept(s, i, f).(calls := s.calls[i := s.calls[i].(next := f.next, pc := Leaving(f.wake, f.spawn))])
  }

  /** It must wait for room, so it signals and starts workers first. */
  function Settle(s: State, i: nat, f: Filled): State
    requires i < |s.calls|
  {
    var a := Accept(s, i, f);
    var w := AwaitRoom(a.p);
    var t := Signal(s.t, f.wake);
    a.(p := w.p, t := t.(ready := t.ready + f.spawn + (if w.granted then 1 else 0)),
       calls := s.calls[i := s.calls[i].(next := f.next, pc := Parked)])
  }

  function Region(s: State, i: nat): State
    requires i < |s.calls|
  {
    var c := s.calls[i];
    if s.p.stopped then Reject(s, i)
    else
      var f := Fill(s.p, i, c.next, c.total);
      if f.next < c.total then Settle(s, i, f) else Depart(s, i, f)
  }

  /** A new call that holds the mutex; a batch counts its tasks as pending at once. */
  function Arrive(s: State, c: Call): State {
    s.(p := s.p.(pending := s.p.pending + Reserves(c)), calls := s.calls + [c])
  }

  /** A worker that holds the mutex, counted nowhere in s, runs one round of its loop. */
  function WorkerRound(s: State): State {
    match Round(s.p)
    case Leaves(p, handoff) => s.(p := p, t := s.t.(owedSignals := s.t.owedSignals + (if handoff then 1 else 0)))
    case Takes(p, task, wakeFull) =>
      s.(p := p, started := s.started + [task],
         t := if wakeFull then s.t.(told := s.t.told + 1) else s.t.(running := s.t.running + 1))
    case Sleeps(p) => s.(p := p, t := s.t.(parked := s.t.parked + 1))
  }

  datatype Step =
    | Submit | SubmitBatch(total: nat) | ShrinkPool | ResizePool(minWorkers: int, maxWorkers: int) | Stop
    | Resume(i: nat) | CallSignals(i: nat) | CallStarts(i: nat)
    | ReadyRuns | WokenRuns | TellsFull(i: nat) | TellsNone | Finishes
    | OwedSignal | OwedStart | OwedBroadcast | StopReturns

  predicate External(e: Step) {
    e.Submit? || e.SubmitBatch? || e.ShrinkPool? || e.ResizePool? || e.Stop?
  }

  predicate Enabled(s: State, e: Step) {
    match e
    case Submit => true
    case SubmitBatch(total) => true
    case ShrinkPool => true
    case ResizePool(minWorkers, maxWorkers) => maxWorkers >= 1
    case Stop => s.stop.Open?
    case Resume(i) => i < |s.calls| && s.calls[i].pc.Resumed?
    case CallSignals(i) => i < |s.calls| && s.calls[i].pc.Leaving? && s.calls[i].pc.wake > 0
    case CallStarts(i) => i < |s.calls| && s.calls[i].pc.Leaving? && s.calls[i].pc.wake == 0 && s.calls[i].pc.spawn > 0
    case ReadyRuns => s.t.ready > 0
    case WokenRuns => s.t.woken > 0
    case TellsFull(i) => s.t.told > 0 && i < |s.calls| && s.calls[i].pc.Parked?
    case TellsNone => s.t.told > 0 && Sum(IsParked, s.calls) == 0
    case Finishes => s.t.running > 0
    case OwedSignal => s.t.owedSignals > 0
    case OwedStart => s.t.owedStarts > 0
    case OwedBroadcast => s.t.owedBroadcasts > 0
    case StopReturns => s.stop.Draining? && s.p.pending == 0
  }

  function Act(s: State, e: Step): State
    requires Enabled(s, e)
  {
    match e
    case Submit => Region(Arrive(s, Call(false, 1, 0, Resumed)), |s.calls|)
    case SubmitBatch(total) =>
      if s.p.stopped then s.(calls := s.calls + [Call(true, total, 0, Leaving(0, 0))])
      else Region(Arrive(s, Call(true, total, 0, Resumed)), |s.calls|)
    case ShrinkPool =>
      var p := Shrink(s.p);
      s.(p := p, t := s.t.(owedSignals := s.t.owedSignals + Max(0, Min(p.retire, p.idle))))
    case ResizePool(minWorkers, maxWorkers) =>
      var p := Resize(s.p, minWorkers, maxWorkers);
      s.(p := p, t := s.t.(owedStarts := s.t.owedStarts + Missing(s.p, minWorkers, maxWorkers),
                           owedBroadcasts := s.t.owedBroadcasts + (if p.workers > maxWorkers then 1 else 0)))
    case Stop => s.(p := s.p.(stopped := true), t := Broadcast(s.t), calls := ResumeAll(s.calls), stop := Draining)
    case Resume(i) => Region(s.(p := s.p.(fullWaiters := s.p.fullWaiters - 1)), i)
    case CallSignals(i) =>
      var c := s.calls[i];
      s.(t := Signal(s.t, 1), calls := s.calls[i := c.(pc := Leaving(c.pc.wake - 1, c.pc.spawn))])
    case CallStarts(i) =>
      var c := s.calls[i];
      s.(t := s.t.(ready := s.t.ready + 1), calls := s.calls[i := c.(pc := Leaving(0, c.pc.spawn - 1))])
    case ReadyRuns => WorkerRound(s.(t := s.t.(ready := s.t.ready - 1)))
    case WokenRuns => WorkerRound(s.(p := Awake(s.p), t := s.t.(woken := s.t.woken - 1)))
    case TellsFull(i) =>
      s.(t := s.t.(told := s.t.told - 1, running := s.t.running + 1), calls := s.calls[i := s.calls[i].(pc := Resumed)])
    case TellsNone => s.(t := s.t.(told := s.t.told - 1, running := s.t.running + 1))
    case Finishes => s.(p := s.p.(pending := s.p.pending - 1),
                        t := s.t.(running := s.t.running - 1, ready := s.t.ready + 1))
    case OwedSignal => s.(t := Signal(s.t.(owedSignals := s.t.owedSignals - 1), 1))
    case OwedStart => s.(t := s.t.(owedStarts := s.t.owedStarts - 1, ready := s.t.ready + 1))
    case OwedBroadcast => s.(t := Broadcast(s.t.(owedBroadcasts := s.t.owedBroadcasts - 1)))
    case StopReturns => s.(t := Broadcast(s.t), stop := Returned)
  }
}
