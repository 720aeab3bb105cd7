/** One shard of the adaptive worker pool: what each region under the mutex does. */
module TaskPool {
  import opened Arithmetic

  /** The index-th task of the call-th call of submit or submitBatch. */
  datatype Task = Task(call: nat, index: nat)

  /** What the mutex protects, with the ring as the sequence it holds. */
  datatype Pool = Pool(
    queue: seq<Task>, cap: nat, idle: int, signals: int, fullWaiters: int, minWorkers: int, maxWorkers: int,
    workers: int, retire: int, lowIdle: int, stopped: bool, pending: int)

  datatype Asked = Asked(p: Pool, granted: bool)

  /** claimLocked. */
  function Claim(p: Pool): Asked {
    if p.idle == 0 then Asked(p, false)
    else Asked(p.(idle := p.idle - 1, signals := p.signals + 1, lowIdle := Min(p.lowIdle, p.idle - 1)), true)
  }

  /** spawnLocked. */
  function Spawn(p: Pool): Asked {
    if p.workers >= p.maxWorkers then Asked(p, false) else Asked(p.(workers := p.workers + 1), true)
  }

  datatype Offered = Offered(p: Pool, wake: nat, spawn: nat)

  /** A task goes to the queue, and to an idle worker or else to a new one. */
  function Offer(p: Pool, t: Task): Offered {
    var queued := p.(queue := p.queue + [t]);
    var claim := Claim(queued);
    if claim.granted then Offered(claim.p, 1, 0) else
    var spawn := Spawn(queued);
    Offered(spawn.p, 0, if spawn.granted then 1 else 0)
  }

  datatype Filled = Filled(p: Pool, next: nat, wake: nat, spawn: nat)

  /** The loop of submitBatch while there is room: tasks next..total of a call. */
  function Fill(p: Pool, call: nat, next: nat, total: nat): Filled
    decreases total - next
  {
    if next >= total || |p.queue| >= p.cap then Filled(p, next, 0, 0)
    else
      var o := Offer(p, Task(call, next));
      var f := Fill(o.p, call, next + 1, total);
      Filled(f.p, f.next, f.wake + o.wake, f.spawn + o.spawn)
  }

  /** f after some have been claimed and started before it. */
  function Since(f: Filled, wake: nat, spawn: nat): Filled { Filled(f.p, f.next, wake + f.wake, spawn + f.spawn) }

  lemma FillGoesOn(p: Pool, call: nat, next: nat, total: nat, wake: nat, spawn: nat)
    requires next < total && |p.queue| < p.cap
    ensures var o := Offer(p, Task(call, next));
            Since(Fill(p, call, next, total), wake, spawn)
              == Since(Fill(o.p, call, next + 1, total), wake + o.wake, spawn + o.spawn)
  {
  }

  lemma FillStops(p: Pool, call: nat, next: nat, total: nat, wake: nat, spawn: nat)
    requires next >= total || |p.queue| >= p.cap
    ensures Since(Fill(p, call, next, total), wake, spawn) == Filled(p, next, wake, spawn)
  {
  }

  /** Up to Wait in waitForRoomLocked. */
  function AwaitRoom(p: Pool): Asked {
    var spawn := Spawn(p);
    Asked(spawn.p.(fullWaiters := p.fullWaiters + 1), spawn.granted)
  }

  /** What a worker does with one round of its loop. */
  datatype Turn = Leaves(p: Pool, handoff: bool) | Takes(p: Pool, task: Task, wakeFull: bool) | Sleeps(p: Pool)

  /** exitLocked. */
  function Exit(p: Pool): Turn {
    var q := p.(workers := p.workers - 1);
    if q.queue == [] then Leaves(q, false) else
    var claim := Claim(q);
    Leaves(claim.p, claim.granted)
  }

  /** The body of the loop of worker, up to the call of the task or to Wait. */
  function Round(p: Pool): Turn {
    if p.workers > p.maxWorkers then Exit(p)
    else if p.queue != [] then Takes(p.(queue := p.queue[1..]), p.queue[0], p.fullWaiters > 0)
    else if p.stopped then Exit(p)
    else if p.retire > 0 && p.workers > p.minWorkers then Exit(p.(retire := p.retire - 1))
    else Sleeps(p.(idle := p.idle + 1))
  }

  /** A worker coming out of Wait. */
  function Awake(p: Pool): Pool {
    if p.signals > 0 then p.(signals := p.signals - 1)
    else p.(idle := p.idle - 1, lowIdle := Min(p.lowIdle, p.idle - 1))
  }

  /** How many workers shrink retires. */
  function Surplus(p: Pool): int {
    if p.lowIdle > 0 && p.workers > p.minWorkers && !p.stopped then Min((p.lowIdle + 1) / 2, p.workers - p.minWorkers)
    else 0
  }

  function Shrink(p: Pool): Pool {
    p.(lowIdle := p.idle, retire := Surplus(p))
  }

  /** How many workers resize starts. */
  function Missing(p: Pool, minWorkers: int, maxWorkers: int): nat {
    if p.stopped then 0 else Max(0, Min(minWorkers, maxWorkers) - p.workers)
  }

  function Resize(p: Pool, minWorkers: int, maxWorkers: int): Pool {
    p.(minWorkers := minWorkers, maxWorkers := maxWorkers, workers := p.workers + Missing(p, minWorkers, maxWorkers))
  }

  /** share: shard i's part of total. */
  function Share(total: nat, shards: nat, i: nat): nat
    requires shards > 0
  {
    total / shards + (if i < total % shards then 1 else 0)
  }

  function ShareSum(total: nat, shards: nat, n: nat): nat
    requires shards > 0
  {
    if n == 0 then 0 else ShareSum(total, shards, n - 1) + Share(total, shards, n - 1)
  }

  lemma {:induction false} FirstShares(total: nat, shards: nat, n: nat)
    requires shards > 0
    ensures ShareSum(total, shards, n) == n * (total / shards) + Min(n, total % shards)
  {
    if n > 0 {
      FirstShares(total, shards, n - 1);
      assert n * (total / shards) == (n - 1) * (total / shards) + total / shards;
    }
  }

  /** The parts add up to the whole. */
  lemma SharesAddUp(total: nat, shards: nat)
    requires shards > 0
    ensures ShareSum(total, shards, shards) == total
  {
    FirstShares(total, shards, shards);
  }

  lemma QuotientsOrdered(a: nat, x: nat, b: nat, y: nat, n: nat)
    requires x < n && y < n && n * a + x <= n * b + y
    ensures a <= b && (a == b ==> x <= y)
  {
    var d := a - b;
    assert n * d == n * a - n * b;
    assert d >= 1 ==> n * d >= n;
  }

  lemma Division(total: nat, n: nat)
    requires n > 0
    ensures total == n * (total / n) + total % n && total % n < n
  {
  }

  /** So no shard gets a floor above its ceiling. */
  lemma SharesKeepOrder(minWorkers: nat, maxWorkers: nat, shards: nat, i: nat)
    requires shards > 0 && minWorkers <= maxWorkers
    ensures Share(minWorkers, shards, i) <= Share(maxWorkers, shards, i)
  {
    Division(minWorkers, shards);
    Division(maxWorkers, shards);
    QuotientsOrdered(minWorkers / shards, minWorkers % shards, maxWorkers / shards, maxWorkers % shards, shards);
  }

  // The same regions on the fields of the shard.

  /** What a ring holds from head on. */
  ghost function Ring(a: seq<Task>, head: nat, count: nat): seq<Task>
    requires head < |a| && count <= |a|
  {
    if head + count <= |a| then a[head..head + count] else a[head..] + a[..head + count - |a|]
  }

  function After(i: nat, n: nat, cap: nat): nat
    requires i < cap && n <= cap
  {
    if i + n < cap then i + n else i + n - cap
  }

  lemma RingPush(a: seq<Task>, head: nat, count: nat, t: Task)
    requires head < |a| && count < |a|
    ensures Ring(a[After(head, count, |a|) := t], head, count + 1) == Ring(a, head, count) + [t]
  {
    var b := a[After(head, count, |a|) := t];
    if head + count < |a| {
      assert b[head..head + count + 1] == a[head..head + count] + [t];
    } else {
      assert b[..head + count + 1 - |a|] == a[..head + count - |a|] + [t];
      assert b[head..] == a[head..];
    }
  }

  lemma RingPop(a: seq<Task>, head: nat, count: nat)
    requires head < |a| && 0 < count <= |a|
    ensures Ring(a, head, count) == [a[head]] + Ring(a, After(head, 1, |a|), count - 1)
  {
  }

  class AdaptivePool {
    var queue: array<Task>
    var head: nat
    var tail: nat
    var count: nat
    var idle: int
    var signals: int
    var fullWaiters: int
    var minWorkers: int
    var maxWorkers: int
    var workers: int
    var retire: int
    var lowIdle: int
    var stopped: bool
    var pending: int

    ghost predicate Valid()
      reads this
    {
      head < queue.Length && count <= queue.Length && tail == After(head, count, queue.Length)
    }

    ghost function Value(): Pool
      reads this, queue
      requires Valid()
    {
      Pool(Ring(queue[..], head, count), queue.Length, idle, signals, fullWaiters, minWorkers, maxWorkers, workers,
           retire, lowIdle, stopped, pending)
    }

    /** newAdaptivePool, with nil as some task. */
    constructor (queueSize: nat, nil: Task)
      ensures Valid() && fresh(queue)
      ensures Value() == Pool([], Max(queueSize, 1), 0, 0, 0, 0, 0, 0, 0, 0, false, 0)
    {
      queue := new Task[if queueSize > 1 then queueSize else 1](_ => nil);
      head, tail, count := 0, 0, 0;
      idle, signals, fullWaiters, minWorkers, maxWorkers := 0, 0, 0, 0, 0;
      workers, retire, lowIdle, stopped, pending := 0, 0, 0, false, 0;
    }

    method EnqueueLocked(task: Task)
      requires Valid() && count < queue.Length
      modifies this`tail, this`count, queue
      ensures Valid() && Value() == old(Value()).(queue := old(Value().queue) + [task])
    {
      RingPush(queue[..], head, count, task);
      queue[tail] := task;
      tail := tail + 1;
      if tail == queue.Length {
        tail := 0;
      }
      count := count + 1;
      assert queue[..] == old(queue[..])[After(head, old(count), queue.Length) := task];
    }

    method DequeueLocked() returns (task: Task)
      requires Valid() && count > 0
      modifies this`head, this`count
      ensures Valid() && task == old(Value().queue)[0]
      ensures Value() == old(Value()).(queue := old(Value().queue)[1..])
    {
      RingPop(queue[..], head, count);
      task := queue[head];
      head := head + 1;
      if head == queue.Length {
        head := 0;
      }
      count := count - 1;
    }

    method SpawnLocked() returns (granted: bool)
      requires Valid()
      modifies this`workers
      ensures Valid() && Asked(Value(), granted) == Spawn(old(Value()))
    {
      if workers >= maxWorkers {
        return false;
      }
      workers := workers + 1;
      return true;
    }

    method ClaimLocked() returns (granted: bool)
      requires Valid()
      modifies this`idle, this`signals, this`lowIdle
      ensures Valid() && Asked(Value(), granted) == Claim(old(Value()))
    {
      if idle == 0 {
        return false;
      }
      idle := idle - 1;
      signals := signals + 1;
      lowIdle := Min(lowIdle, idle);
      return true;
    }

    /** The locked part of submit once there is room. */
    method OfferLocked(task: Task) returns (wake: nat, spawn: nat)
      requires Valid() && count < queue.Length
      modifies this, queue
      ensures queue == old(queue) && Valid() && Offered(Value(), wake, spawn) == Offer(old(Value()), task)
    {
      EnqueueLocked(task);
      wake, spawn := 0, 0;
      var granted := ClaimLocked();
      if granted {
        wake := 1;
      } else {
        granted := SpawnLocked();
        if granted {
          spawn := 1;
        }
      }
    }

    /** One round of the loop of submitBatch. */
    method FillOne(call: nat, first: nat, total: nat, woken: nat, started: nat, ghost all: Filled)
      returns (next: nat, wake: nat, spawn: nat)
      requires Valid() && first < total && count < queue.Length
      requires all == Since(Fill(Value(), call, first, total), woken, started)
      modifies this, queue
      ensures queue == old(queue) && Valid() && next == first + 1
      ensures all == Since(Fill(Value(), call, next, total), wake, spawn)
    {
      FillGoesOn(Value(), call, first, total, woken, started);
      var w, s := OfferLocked(Task(call, first));
      next, wake, spawn := first + 1, woken + w, started + s;
    }

    /** The loop of submitBatch up to a full queue. */
    method FillLocked(call: nat, first: nat, total: nat) returns (next: nat, wake: nat, spawn: nat)
      requires Valid() && first <= total
      modifies this, queue
      ensures queue == old(queue) && Valid()
              && Filled(Value(), next, wake, spawn) == Fill(old(Value()), call, first, total)
    {
      next, wake, spawn := first, 0, 0;
      ghost var all := Fill(Value(), call, first, total);
      while next < total && count < queue.Length
        invariant first <= next <= total && queue == old(queue) && Valid()
        invariant all == Since(Fill(Value(), call, next, total), wake, spawn)
        decreases total - next
      {
        next, wake, spawn := FillOne(call, next, total, wake, spawn, all);
      }
      FillStops(Value(), call, next, total, wake, spawn);
    }

    method ExitLocked() returns (handoff: bool)
      requires Valid()
      modifies this`workers, this`idle, this`signals, this`lowIdle
      ensures Valid() && Leaves(Value(), handoff) == Exit(old(Value()))
    {
      workers := workers - 1;
      handoff := false;
      if count > 0 {
        handoff := ClaimLocked();
      }
    }

    /** One round of the loop of worker under the lock. */
    method RoundLocked() returns (left: bool, handoff: bool, task: seq<Task>, wakeFull: bool)
      requires Valid()
      modifies this
      ensures queue == old(queue) && Valid()
      ensures Round(old(Value())) == if left then Leaves(Value(), handoff)
                                     else if |task| == 1 then Takes(Value(), task[0], wakeFull) else Sleeps(Value())
    {
      left, handoff, task, wakeFull := false, false, [], false;
      if workers > maxWorkers {
        left := true;
        handoff := ExitLocked();
      } else if count > 0 {
        var t := DequeueLocked();
        task, wakeFull := [t], fullWaiters > 0;
      } else if stopped {
        left := true;
        handoff := ExitLocked();
      } else if retire > 0 && workers > minWorkers {
        retire := retire - 1;
        left := true;
        handoff := ExitLocked();
      } else {
        idle := idle + 1;
      }
    }

    method AwakeLocked()
      requires Valid()
      modifies this`idle, this`signals, this`lowIdle
      ensures Valid() && Value() == Awake(old(Value()))
    {
      if signals > 0 {
        signals := signals - 1;
      } else {
        idle := idle - 1;
        lowIdle := Min(lowIdle, idle);
      }
    }

    method AwaitRoomLocked() returns (spawn: bool)
      requires Valid()
      modifies this`workers, this`fullWaiters
      ensures Valid() && Asked(Value(), spawn) == AwaitRoom(old(Value()))
    {
      spawn := SpawnLocked();
      fullWaiters := fullWaiters + 1;
    }

    method ShrinkLocked() returns (wake: int)
      requires Valid()
      modifies this`lowIdle, this`retire
      ensures Valid() && Value() == Shrink(old(Value()))
      ensures wake == Min(Value().retire, idle)
    {
      var low := lowIdle;
      lowIdle := idle;
      var surplus := workers - minWorkers;
      retire := 0;
      if low > 0 && surplus > 0 && !stopped {
        retire := Min((low + 1) / 2, surplus);
      }
      wake := Min(retire, idle);
    }

    method ResizeLocked(newMin: int, newMax: int) returns (spawn: nat, over: bool)
      requires Valid()
      modifies this`minWorkers, this`maxWorkers, this`workers
      ensures Valid() && Value() == Resize(old(Value()), newMin, newMax)
      ensures spawn == Missing(old(Value()), newMin, newMax) && over == (workers > newMax)
    {
      minWorkers, maxWorkers := newMin, newMax;
      spawn := 0;
      var granted := true;
      while !stopped && workers < newMin && granted
        invariant minWorkers == newMin && maxWorkers == newMax
        invariant workers == old(workers) + spawn
        invariant spawn > 0 ==> !stopped && workers <= newMin && workers <= newMax
        invariant !granted ==> workers >= newMax
        invariant Valid()
        decreases newMin - workers, granted
      {
        granted := SpawnLocked();
        if granted {
          spawn := spawn + 1;
        }
      }
      over := workers > newMax;
    }
  }
}
