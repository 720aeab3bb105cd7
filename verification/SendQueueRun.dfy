/** Every run of a server's connections: what each has put on the wire and what it still holds,
    and the budget they share. */
module SendQueueRun {
  import opened Bytes
  import opened SendQueue

  /** accepted is all that send, SendParts and SendFile have taken, wire all that the socket has. */
  datatype Conn = Conn(
    queue: seq<Item>, flushing: bool, corked: bool, closing: bool, closed: bool, closeAfterSend: bool, pending: int,
    wire: seq<byte>, accepted: seq<byte>)

  datatype Server = Server(conns: seq<Conn>, total: int)

  /** A connection and the budget of its server. */
  datatype Pair = Pair(c: Conn, total: int)

  // The counters.

  function AddPending(p: Pair, n: int): Pair {
    if n <= 0 then p else Pair(p.c.(pending := p.c.pending + n), p.total + n)
  }

  /** subPending, with its clamp. */
  function SubPending(p: Pair, n: int): Pair {
    if n <= 0 then p else
    var pending := p.c.pending - n;
    var taken := if pending < 0 then n + pending else n;
    Pair(p.c.(pending := if pending < 0 then 0 else pending), if taken > 0 then p.total - taken else p.total)
  }

  // The operations; taken is what the socket takes of what it is offered.

  predicate Accepts(c: Conn) { !c.closing && !c.closed && !c.closeAfterSend }

  predicate Direct(c: Conn) { c.queue == [] && !c.flushing && !c.corked }

  /** send, with the rest of the data copied or handed over. */
  function Send(p: Pair, data: seq<byte>, copy: bool, taken: nat, cap: nat): Pair {
    if data == [] || !Accepts(p.c) || taken > |data| then p else
    var sent := if Direct(p.c) then taken else 0;
    var c := p.c.(wire := p.c.wire + data[..sent], accepted := p.c.accepted + data);
    if sent == |data| then p.(c := c)
    else
      var rest := data[sent..];
      AddPending(Pair(c.(queue := if copy then QueueCopy(c.queue, rest, cap) else QueueOwned(c.queue, rest)),
                      p.total), |rest|)
  }

  /** SendParts: one message in two parts. */
  function SendParts(p: Pair, first: seq<byte>, second: seq<byte>, taken: nat, cap: nat): Pair {
    if |first| + |second| == 0 || !Accepts(p.c) || taken > |first| + |second| then p else
    var sent := if Direct(p.c) then taken else 0;
    var c := p.c.(wire := p.c.wire + (first + second)[..sent], accepted := p.c.accepted + first + second);
    if sent == |first| + |second| then p.(c := c)
    else
      var rest := if sent < |first| then first[sent..] + second else second[sent - |first|..];
      AddPending(Pair(c.(queue := QueueCopy(c.queue, rest, cap)), p.total), |first| + |second| - sent)
  }

  /** SendFile up to its flush. */
  function SendFile(p: Pair, file: seq<byte>, offset: nat, count: nat): Pair {
    if count == 0 || offset + count > |file| || !Accepts(p.c) then p
    else p.(c := p.c.(queue := p.c.queue + [File(file, offset, count)],
                      accepted := p.c.accepted + file[offset..offset + count]))
  }

  /** flushOutput takes the connection. */
  function FlushStart(p: Pair): Pair {
    if p.c.closing || p.c.closed || p.c.flushing then p else p.(c := p.c.(flushing := true))
  }

  /** What leaves the connection when the socket takes n bytes of what it was offered. */
  function Took(p: Pair, n: nat): Pair
    requires p.c.queue != []
  {
    var q := if p.c.queue[0].File? then p else SubPending(p, n);
    var flat := Flat(p.c.queue);
    q.(c := q.c.(queue := Consume(p.c.queue, n), wire := q.c.wire + (if n <= |flat| then flat[..n] else [])))
  }

  /** One round of the loop of flushOutput. */
  function FlushRound(p: Pair, taken: nat, useWritev: bool): Pair {
    if !p.c.flushing then p
    else if p.c.queue == [] then p.(c := p.c.(flushing := false, closing := p.c.closing || p.c.closeAfterSend))
    else if taken > Offered(p.c.queue, useWritev) then p
    else if taken == 0 then p.(c := p.c.(flushing := false))
    else
      var q := Took(p, taken);
      if taken < Offered(p.c.queue, useWritev) then q.(c := q.c.(flushing := false)) else q
  }

  /** closeConnection: the queue goes, and its share of the budget with it. */
  function Drop(p: Pair): Pair {
    if p.c.closed then p
    else Pair(p.c.(closed := true, closing := true, queue := [], pending := 0),
              if p.c.pending > 0 then p.total - p.c.pending else p.total)
  }

  /** closeAfterSendRaw. */
  function CloseAfterSend(p: Pair): Pair {
    if !Accepts(p.c) then p
    else p.(c := p.c.(closeAfterSend := true, closing := p.c.queue == [] && !p.c.flushing))
  }

  // What they keep.

  ghost predicate Ok(c: Conn) {
    && AllValid(c.queue) && c.pending == InMemory(c.queue)
    && if c.closed then c.queue == [] && c.closing && c.wire <= c.accepted else c.wire + Flat(c.queue) == c.accepted
  }

  /** The budget moves with the connection. */
  ghost predicate Together(p: Pair, q: Pair) { q.total - p.total == q.c.pending - p.c.pending }

  lemma SendKeeps(p: Pair, data: seq<byte>, copy: bool, taken: nat, cap: nat)
    requires Ok(p.c)
    ensures var q := Send(p, data, copy, taken, cap); Ok(q.c) && Together(p, q)
  {
    if data != [] && Accepts(p.c) && taken <= |data| {
      var sent := if Direct(p.c) then taken else 0;
      var rest := data[sent..];
      QueuesRest(p.c.wire, p.c.queue, data, sent);
      if rest != [] {
        QueueCopyAdds(p.c.queue, rest, cap);
        QueueOneAdds(p.c.queue, Mem(rest, 0, 0));
      }
    }
  }

  /** A direct write happens only when nothing is queued before it. */
  lemma QueuesRest(wire: seq<byte>, queue: seq<Item>, data: seq<byte>, sent: nat)
    requires sent <= |data| && (sent > 0 ==> queue == [])
    ensures wire + data[..sent] + (Flat(queue) + data[sent..]) == wire + Flat(queue) + data
  {
    if queue == [] {
      assert data == data[..sent] + data[sent..];
    }
  }

  lemma SendPartsKeeps(p: Pair, first: seq<byte>, second: seq<byte>, taken: nat, cap: nat)
    requires Ok(p.c)
    ensures var q := SendParts(p, first, second, taken, cap); Ok(q.c) && Together(p, q)
  {
    var data := first + second;
    if data != [] && Accepts(p.c) && taken <= |data| {
      var sent := if Direct(p.c) then taken else 0;
      PartsAreOne(p, first, second, taken, cap);
      SendKeeps(p, data, true, taken, cap);
    }
  }

  /** Two parts are sent as their concatenation would be. */
  lemma PartsAreOne(p: Pair, first: seq<byte>, second: seq<byte>, taken: nat, cap: nat)
    requires first + second != [] && Accepts(p.c) && taken <= |first + second|
    ensures SendParts(p, first, second, taken, cap) == Send(p, first + second, true, taken, cap)
  {
    var data, sent := first + second, if Direct(p.c) then taken else 0;
    assert p.c.accepted + first + second == p.c.accepted + data;
    assert sent < |first| ==> data[sent..] == first[sent..] + second;
    assert sent >= |first| ==> data[sent..] == second[sent - |first|..];
  }

  lemma SendFileKeeps(p: Pair, file: seq<byte>, offset: nat, count: nat)
    requires Ok(p.c)
    ensures var q := SendFile(p, file, offset, count); Ok(q.c) && Together(p, q)
  {
    if count > 0 && offset + count <= |file| && Accepts(p.c) {
      var i := File(file, offset, count);
      QueueOneAdds(p.c.queue, i);
      Regroup(p.c.wire, Flat(p.c.queue), i.Left());
    }
  }

  /** No more is offered than is there, and in memory exactly what is counted. */
  lemma OfferedIsThere(q: seq<Item>, useWritev: bool, n: nat)
    requires AllValid(q) && q != [] && n <= Offered(q, useWritev)
    ensures n <= |Flat(q)|
    ensures if q[0].File? then InMemory(Consume(q, n)) == InMemory(q) else InMemory(Consume(q, n)) + n == InMemory(q)
  {
    if q[0].File? {
      FileConsumed(q, n);
    } else if useWritev && |q| > 1 {
      var b := Batch(q, MAX_WRITEV_ITEMS);
      BatchIs(q, MAX_WRITEV_ITEMS);
      assert b == q[..|b|] && q == b + q[|b|..];
      FlatAppend(b, q[|b|..]);
      ConsumeInMemory(q, n, |b|);
    } else {
      assert q[..1] == [q[0]];
      FlatOne(q[0]);
      ConsumeInMemory(q, n, 1);
    }
  }

  lemma FileConsumed(q: seq<Item>, n: nat)
    requires AllValid(q) && q != [] && q[0].File? && n <= |q[0].Left()|
    ensures InMemory(Consume(q, n)) == InMemory(q)
  {
    if n < |q[0].Left()| {
      assert ([q[0].Advance(n)] + q[1..])[1..] == q[1..];
    } else {
      assert q[1..][..0] == [];
      ConsumeInMemory(q[1..], 0, 0);
    }
  }

  /** The clamp of subPending never fires. */
  lemma TookKeeps(p: Pair, n: nat, useWritev: bool)
    requires Ok(p.c) && !p.c.closed && p.c.queue != [] && n <= Offered(p.c.queue, useWritev)
    ensures var q := Took(p, n); Ok(q.c) && Together(p, q)
    ensures p.c.queue[0].Mem? ==> p.c.pending - n >= 0
  {
    OfferedIsThere(p.c.queue, useWritev, n);
    ConsumeIs(p.c.queue, n);
    var flat := Flat(p.c.queue);
    assert p.c.wire + flat[..n] + flat[n..] == p.c.wire + flat;
  }

  lemma FlushRoundKeeps(p: Pair, taken: nat, useWritev: bool)
    requires Ok(p.c)
    ensures var q := FlushRound(p, taken, useWritev); Ok(q.c) && Together(p, q)
  {
    if p.c.flushing && p.c.queue != [] && 0 < taken <= Offered(p.c.queue, useWritev) {
      TookKeeps(p, taken, useWritev);
    }
  }

  lemma DropKeeps(p: Pair)
    requires Ok(p.c)
    ensures Ok(Drop(p).c) && Together(p, Drop(p))
  {
    if !p.c.closed {
      assert p.c.wire == p.c.accepted[..|p.c.wire|];
    }
  }

  // Runs.

  datatype Step =
    | Connect
    | Sends(i: nat, data: seq<byte>, copy: bool, taken: nat, cap: nat)
    | SendsParts(i: nat, first: seq<byte>, second: seq<byte>, taken: nat, cap: nat)
    | SendsFile(i: nat, file: seq<byte>, offset: nat, count: nat)
    | Corks(i: nat, on: bool)
    | FlushStarts(i: nat)
    | FlushRounds(i: nat, taken: nat, useWritev: bool)
    | ClosesAfterSend(i: nat)
    | Closes(i: nat)
    | Drops(i: nat)

  const FRESH := Conn([], false, false, false, false, false, 0, [], [])

  function Act(p: Pair, e: Step): Pair {
    match e
    case Connect => p
    case Sends(_, data, copy, taken, cap) => Send(p, data, copy, taken, cap)
    case SendsParts(_, first, second, taken, cap) => SendParts(p, first, second, taken, cap)
    case SendsFile(_, file, offset, count) => SendFile(p, file, offset, count)
    case Corks(_, on) => p.(c := p.c.(corked := on))
    case FlushStarts(_) => FlushStart(p)
    case FlushRounds(_, taken, useWritev) => FlushRound(p, taken, useWritev)
    case ClosesAfterSend(_) => CloseAfterSend(p)
    case Closes(_) => p.(c := p.c.(closing := true))
    case Drops(_) => Drop(p)
  }

  function Next(s: Server, e: Step): Server {
    if e.Connect? then s.(conns := s.conns + [FRESH])
    else if e.i >= |s.conns| then s
    else
      var q := Act(Pair(s.conns[e.i], s.total), e);
      Server(s.conns[e.i := q.c], q.total)
  }

  function Exec(run: seq<Step>): Server {
    if run == [] then Server([], 0) else Next(Exec(run[..|run| - 1]), run[|run| - 1])
  }

  lemma ActKeeps(p: Pair, e: Step)
    requires Ok(p.c)
    ensures Ok(Act(p, e).c) && Together(p, Act(p, e))
  {
    match e
    case Sends(_, data, copy, taken, cap) => SendKeeps(p, data, copy, taken, cap);
    case SendsParts(_, first, second, taken, cap) => SendPartsKeeps(p, first, second, taken, cap);
    case SendsFile(_, file, offset, count) => SendFileKeeps(p, file, offset, count);
    case FlushRounds(_, taken, useWritev) => FlushRoundKeeps(p, taken, useWritev);
    case Drops(_) => DropKeeps(p);
    case _ =>
  }

  function Budget(conns: seq<Conn>): int {
    if conns == [] then 0 else Budget(conns[..|conns| - 1]) + conns[|conns| - 1].pending
  }

  lemma {:induction false} BudgetUpdate(conns: seq<Conn>, i: nat, c: Conn)
    requires i < |conns|
    ensures Budget(conns[i := c]) == Budget(conns) - conns[i].pending + c.pending
  {
    var n := |conns| - 1;
    if i == n {
      assert conns[i := c][..n] == conns[..n];
    } else {
      assert conns[i := c][..n] == conns[..n][i := c];
      BudgetUpdate(conns[..n], i, c);
    }
  }

  ghost predicate Inv(s: Server) {
    (forall i :: 0 <= i < |s.conns| ==> Ok(s.conns[i])) && s.total == Budget(s.conns)
  }

  lemma NextKeeps(s: Server, e: Step)
    requires Inv(s)
    ensures Inv(Next(s, e))
  {
    if e.Connect? {
      assert Next(s, e).conns[..|s.conns|] == s.conns;
      assert Ok(FRESH);
    } else if e.i < |s.conns| {
      var p := Pair(s.conns[e.i], s.total);
      ActKeeps(p, e);
      BudgetUpdate(s.conns, e.i, Act(p, e).c);
    }
  }

  /** In every run each open connection has put on the wire and still holds, together and in order,
      exactly what it has accepted; its count is the bytes it holds in memory; and the server's
      budget is the sum of these counts. */
  lemma {:induction false} OneStreamPerConnection(run: seq<Step>)
    ensures Inv(Exec(run))
  {
    if run != [] {
      OneStreamPerConnection(run[..|run| - 1]);
      NextKeeps(Exec(run[..|run| - 1]), run[|run| - 1]);
    }
  }
}
