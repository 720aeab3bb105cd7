/** A connection told to close after sending does, when all of it is on the wire and not before. */
module SendQueueClose {
  import opened SendQueue
  import opened SendQueueRun

  // What every step keeps.

  /** With nothing left to send, a flush is about to close it or it is closing. */
  ghost predicate Closing(c: Conn) { c.closeAfterSend && c.queue == [] ==> c.flushing || c.closing }

  lemma FirstOfBatch(q: seq<Item>, count: nat)
    requires q != [] && q[0].Mem? && count > 0
    ensures |Flat(Batch(q, count))| >= |q[0].Left()|
  {
    var b := Batch(q[1..], count - 1);
    assert ([q[0]] + b)[0] == q[0] && ([q[0]] + b)[1..] == b;
  }

  /** One writev takes as many items as it may, up to the first file. */
  lemma {:induction false} BatchIsFull(q: seq<Item>, count: nat)
    ensures var n := |Batch(q, count)|;
            n <= count && n <= |q| && (n < count && n < |q| ==> q[n].File?)
  {
    if q != [] && count > 0 && q[0].Mem? {
      BatchIsFull(q[1..], count - 1);
    }
  }

  /** The socket is always offered something. */
  lemma OfferedCounts(q: seq<Item>, useWritev: bool)
    requires AllValid(q) && q != []
    ensures Offered(q, useWritev) > 0
  {
    assert q[0].Valid();
    if q[0].Mem? {
      FirstOfBatch(q, MAX_WRITEV_ITEMS);
    }
  }

  lemma RoundCloses(p: Pair, taken: nat, useWritev: bool)
    requires Ok(p.c) && Closing(p.c)
    ensures Closing(FlushRound(p, taken, useWritev).c)
  {
    if p.c.flushing && p.c.queue != [] && 0 < taken < Offered(p.c.queue, useWritev) {
      OfferedIsThere(p.c.queue, useWritev, Offered(p.c.queue, useWritev));
      ConsumeIs(p.c.queue, taken);
    }
  }

  lemma ActCloses(p: Pair, e: Step)
    requires Ok(p.c) && Closing(p.c)
    ensures Closing(Act(p, e).c)
  {
    if e.FlushRounds? {
      RoundCloses(p, e.taken, e.useWritev);
    }
  }

  /** Told to close after sending, a connection is closing at once exactly if nothing is queued and no flush is at
      work, which would find the queue empty and close it. */
  lemma ClosesNow(p: Pair)
    requires Ok(p.c) && !p.c.closing && !p.c.closed && !p.c.closeAfterSend
    ensures var n := Act(p, ClosesAfterSend(0)).c;
            && n.closeAfterSend && n.wire == p.c.wire && n.queue == p.c.queue && n.accepted == p.c.accepted
            && (n.closing <==> p.c.wire == p.c.accepted && !p.c.flushing)
  {
    if p.c.queue != [] {
      OfferedCounts(p.c.queue, false);
      OfferedIsThere(p.c.queue, false, Offered(p.c.queue, false));
    } else {
      assert p.c.wire + [] == p.c.wire;
    }
  }

  lemma {:induction false} AlwaysCloses(run: seq<Step>, i: nat)
    requires i < |Exec(run).conns|
    ensures Closing(Exec(run).conns[i])
  {
    if run != [] {
      var before, e := Exec(run[..|run| - 1]), run[|run| - 1];
      OneStreamPerConnection(run[..|run| - 1]);
      if i < |before.conns| {
        AlwaysCloses(run[..|run| - 1], i);
        if !e.Connect? && e.i == i {
          ActCloses(Pair(before.conns[i], before.total), e);
        }
      }
    }
  }

  // It closes once everything is out.

  /** All that was accepted is on the wire, and nothing else happens to the connection than that it closes if it
      was told to. */
  ghost predicate Drained(c: Conn, n: Conn) {
    && n.queue == [] && !n.flushing && n.wire == n.accepted == c.accepted && !n.closed
    && (n.closing <==> c.closing || c.closeAfterSend) && n.closeAfterSend == c.closeAfterSend
  }

  /** A round in which the socket takes all it is offered. */
  lemma FullRound(p: Pair, useWritev: bool)
    requires Ok(p.c) && !p.c.closed && p.c.flushing && p.c.queue != []
    ensures var q := FlushRound(p, Offered(p.c.queue, useWritev), useWritev);
            && Ok(q.c) && q.c.accepted == p.c.accepted && q.c.flushing && !q.c.closed && q.c.closing == p.c.closing
            && q.c.closeAfterSend == p.c.closeAfterSend && |Flat(q.c.queue)| < |Flat(p.c.queue)|
  {
    var n := Offered(p.c.queue, useWritev);
    OfferedCounts(p.c.queue, useWritev);
    OfferedIsThere(p.c.queue, useWritev, n);
    ConsumeIs(p.c.queue, n);
    FlushRoundKeeps(p, n, useWritev);
  }

  /** The steps of connection i, one after another. */
  function ActAll(p: Pair, es: seq<Step>): Pair
    decreases |es|
  {
    if es == [] then p else ActAll(Act(p, es[0]), es[1..])
  }

  lemma {:induction false} RoundsDrain(p: Pair, i: nat, useWritev: bool) returns (es: seq<Step>)
    requires Ok(p.c) && !p.c.closed && p.c.flushing
    ensures Drained(p.c, ActAll(p, es).c) && forall k :: 0 <= k < |es| ==> es[k].FlushRounds? && es[k].i == i
    decreases |Flat(p.c.queue)|
  {
    if p.c.queue == [] {
      es := [FlushRounds(i, 0, useWritev)];
      assert es[1..] == [];
      assert p.c.wire + [] == p.c.wire;
    } else {
      var e := FlushRounds(i, Offered(p.c.queue, useWritev), useWritev);
      FullRound(p, useWritev);
      var more := RoundsDrain(Act(p, e), i, useWritev);
      es := [e] + more;
      assert es[1..] == more;
    }
  }

  /** Steps of one connection leave the others alone. */
  lemma {:induction false} ExecAll(run: seq<Step>, i: nat, es: seq<Step>)
    requires i < |Exec(run).conns| && forall k :: 0 <= k < |es| ==> !es[k].Connect? && es[k].i == i
    ensures i < |Exec(run + es).conns|
    ensures Exec(run + es).conns[i] == ActAll(Pair(Exec(run).conns[i], Exec(run).total), es).c
    decreases |es|
  {
    if es == [] {
      assert run + es == run;
    } else {
      assert (run + [es[0]])[..|run|] == run;
      assert run + es == run + [es[0]] + es[1..];
      ExecAll(run + [es[0]], i, es[1..]);
    }
  }

  /** From every state that a run reaches, a connection that is open gets all that it has accepted onto the wire
      if the socket takes it, and then closes if and only if it was told to close after sending. */
  lemma CanDrain(run: seq<Step>, i: nat, useWritev: bool) returns (es: seq<Step>)
    requires i < |Exec(run).conns| && !Exec(run).conns[i].closed && !Exec(run).conns[i].closing
    ensures i < |Exec(run + es).conns| && Drained(Exec(run).conns[i], Exec(run + es).conns[i])
    ensures forall k :: 0 <= k < |es| ==> es[k].FlushStarts? || es[k].FlushRounds?
  {
    OneStreamPerConnection(run);
    var p := Pair(Exec(run).conns[i], Exec(run).total);
    var more := RoundsDrain(FlushStart(p), i, useWritev);
    es := [FlushStarts(i)] + more;
    assert es[1..] == more;
    ExecAll(run, i, es);
  }

  // It does not close before.

  /** Closed because it was told to, and not otherwise. */
  ghost predicate NotCut(c: Conn) { (c.closing ==> c.closeAfterSend && c.queue == []) && !c.closed }

  lemma ActLeaves(p: Pair, e: Step)
    requires NotCut(p.c) && !e.Closes? && !e.Drops?
    ensures NotCut(Act(p, e).c)
  {
  }

  /** Unless somebody closes it outright, a connection that is closing has everything on the wire. */
  lemma {:induction false} NothingCutOff(run: seq<Step>, i: nat)
    requires i < |Exec(run).conns| && forall k :: 0 <= k < |run| && (run[k].Closes? || run[k].Drops?) ==> run[k].i != i
    ensures NotCut(Exec(run).conns[i])
    ensures Exec(run).conns[i].closing ==> Exec(run).conns[i].wire == Exec(run).conns[i].accepted
  {
    if run != [] {
      var before, e := Exec(run[..|run| - 1]), run[|run| - 1];
      assert run[|run| - 1] == e;
      if i < |before.conns| {
        NothingCutOff(run[..|run| - 1], i);
        if !e.Connect? && e.i == i {
          ActLeaves(Pair(before.conns[i], before.total), e);
        }
      }
    }
    OneStreamPerConnection(run);
  }

  // What it takes, and until when.

  /** All the data of a call is taken, or none: none once the connection is closing or told to close. */
  lemma TakesAll(p: Pair, e: Step)
    requires e.Sends? || e.SendsParts? || e.SendsFile?
    requires e.Sends? ==> e.taken <= |e.data|
    requires e.SendsParts? ==> e.taken <= |e.first| + |e.second|
    requires e.SendsFile? ==> e.offset + e.count <= |e.file|
    ensures var q, open := Act(p, e), !p.c.closing && !p.c.closed && !p.c.closeAfterSend;
            q.c.accepted == p.c.accepted + if !open then [] else
              match e
              case Sends(_, data, _, _, _) => data
              case SendsParts(_, first, second, _, _) => first + second
              case SendsFile(_, file, offset, count) => file[offset..offset + count]
              case _ => []
  {
    assert p.c.accepted + [] == p.c.accepted;
    if e.SendsParts? {
      assert p.c.accepted + e.first + e.second == p.c.accepted + (e.first + e.second);
    }
  }

  /** A connection that has stopped taking data stays so. */
  lemma StaysShut(p: Pair, e: Step)
    requires p.c.closing || p.c.closed || p.c.closeAfterSend
    ensures var n := Act(p, e).c; n.accepted == p.c.accepted && (n.closing || n.closed || n.closeAfterSend)
  {
  }

  /** A call writes to the socket itself only if nothing waits before it, no flush is at work and output is not
      held back; everything else goes out in the rounds of a flush. */
  lemma WritesDirectly(p: Pair, e: Step)
    requires Act(p, e).c.wire != p.c.wire
    ensures e.FlushRounds? || ((e.Sends? || e.SendsParts?) && p.c.queue == [] && !p.c.flushing && !p.c.corked)
  {
    assert p.c.wire + [] == p.c.wire;
  }

  /** A round with bytes in the socket's buffer moves the wire on by exactly as many. */
  lemma RoundWrites(p: Pair, taken: nat, useWritev: bool)
    requires Ok(p.c) && !p.c.closed && p.c.flushing && p.c.queue != [] && taken <= Offered(p.c.queue, useWritev)
    ensures var n := FlushRound(p, taken, useWritev).c;
            && taken <= |Flat(p.c.queue)| && n.wire == p.c.wire + Flat(p.c.queue)[..taken]
            && (n.flushing <==> taken == Offered(p.c.queue, useWritev))
  {
    OfferedIsThere(p.c.queue, useWritev, taken);
    OfferedCounts(p.c.queue, useWritev);
    assert taken == 0 ==> p.c.wire + Flat(p.c.queue)[..taken] == p.c.wire;
  }
}
