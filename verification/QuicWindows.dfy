/** The limits that a receiver gives: when they rise, and how far. */
module QuicWindows {
  import opened Bytes
  import opened QuicStreamRecv
  import opened QuicAdmission

  ghost predicate IsWindow(limit: nat, size: nat, read: int) { limit == read + size }

  /** A limit that rises does so when less than half of its window is left, and then to a whole window beyond
      what has been read. */
  ghost predicate Rises(size: nat, was: nat, limit: nat, from: nat, read: nat) {
    && from <= read && was <= limit
    && (limit > was ==> was - read < size / 2 && exists x :: from <= x <= read && IsWindow(limit, size, x))
  }

  ghost predicate Raises(w: Windows, p: Pair, q: Pair) {
    && Rises(w.stream, p.s.max, q.s.max, p.s.read, q.s.read)
    && Rises(w.conn, p.c.maxData, q.c.maxData, p.c.consumed, q.c.consumed)
  }

  lemma RisesOn(size: nat, a: nat, b: nat, c: nat, x: nat, y: nat, z: nat)
    requires Rises(size, a, b, x, y) && Rises(size, b, c, y, z)
    ensures Rises(size, a, c, x, z)
  {
    if c > b {
      var r :| y <= r <= z && IsWindow(c, size, r);
      assert x <= r <= z;
    } else if b > a {
      var r :| x <= r <= y && IsWindow(b, size, r);
      assert x <= r <= z;
    }
  }

  lemma RaisesOn(w: Windows, p: Pair, q: Pair, r: Pair)
    requires Raises(w, p, q) && Raises(w, q, r)
    ensures Raises(w, p, r)
  {
    RisesOn(w.stream, p.s.max, q.s.max, r.s.max, p.s.read, q.s.read, r.s.read);
    RisesOn(w.conn, p.c.maxData, q.c.maxData, r.c.maxData, p.c.consumed, q.c.consumed, r.c.consumed);
  }

  lemma UseRaises(w: Windows, p: Pair, offset: nat, high: int, read: int)
    requires Ok(w, p, high, read) && offset <= p.s.high
    ensures Raises(w, p, Using(w)(p, offset))
  {
    ConsumedKeeps(w, p, offset, high, read);
    var q := Using(w)(p, offset);
    assert IsWindow(q.s.read + w.stream, w.stream, q.s.read) && IsWindow(q.c.consumed + w.conn, w.conn, q.c.consumed);
  }

  lemma {:induction false} DeliverRaises(w: Windows, p: Pair, high: int, read: int)
    requires Whole(w, p, high, read)
    ensures Raises(w, p, Deliver(Using(w), p))
    decreases |p.s.recv.segments|
  {
    var popped := p.s.recv.Pop();
    PopShrinks(p.s.recv);
    PopBelow(p.s.recv, p.s.high);
    if popped.data != [] {
      var q := p.(s := p.s.(recv := popped.rest));
      UseRaises(w, q, popped.rest.offset, high, read);
      ConsumedKeeps(w, q, popped.rest.offset, high, read);
      var n := Using(w)(q, popped.rest.offset);
      assert n.(s := n.s.(recv := popped.rest)) == n;
      DeliverRaises(w, n, high, read);
      RaisesOn(w, p, n, Deliver(Using(w), n));
    }
  }

  lemma TakeInRaises(w: Windows, p: Pair, off: nat, data: seq<byte>, high: int, read: int)
    requires Whole(w, p, high, read) && off + |data| <= p.s.high
    ensures Raises(w, p, TakeIn(Using(w), p, off, data))
  {
    UsingKeeps(w);
    if p.s.done || p.s.peerReset || p.s.stopSent {
      UseRaises(w, p, off + |data|, high, read);
    } else {
      var pushed := p.(s := p.s.(recv := p.s.recv.Push(off, data)));
      PushBelow(p.s.recv, off, data, p.s.high);
      DeliverRaises(w, pushed, high, read);
      HandOnKeeps(w, Using(w), p, off, data, high, read);
      var d := Deliver(Using(w), pushed);
      FinishRaises(w, d, high, read);
      RaisesOn(w, p, d, Finish(Using(w), d));
    }
  }

  lemma FinishRaises(w: Windows, q: Pair, high: int, read: int)
    requires Whole(w, q, high, read)
    ensures Raises(w, q, Finish(Using(w), q))
  {
    if q.s.fin >= 0 && q.s.recv.offset == q.s.fin && !q.s.done {
      UseRaises(w, q.(s := q.s.(done := true)), q.s.recv.offset, high, read);
    }
  }

  lemma StreamFrameRaises(w: Windows, p: Pair, off: nat, data: seq<byte>, fin: bool, high: int, read: int)
    requires Whole(w, p, high, read) && OnStreamFrame(Using(w), p, off, data, fin).Accepted?
    ensures Raises(w, p, OnStreamFrame(Using(w), p, off, data, fin).p)
  {
    AdmitKeeps(w, p, off + |data|, fin, high, read);
    var a := Admit(p, off + |data|, fin).p;
    FrameIs(Using(w), p, off, data, fin, a);
    TakeInRaises(w, a, off, data, high, read);
    RaisesOn(w, p, a, TakeIn(Using(w), a, off, data));
  }

  lemma ResetRaises(w: Windows, p: Pair, finalSize: nat, high: int, read: int)
    requires Whole(w, p, high, read) && OnResetStream(Using(w), p, finalSize).Accepted?
    ensures Raises(w, p, OnResetStream(Using(w), p, finalSize).p)
  {
    ReachKeeps(w, p, finalSize, high, read);
    var r := Reach(p, finalSize);
    UseRaises(w, r.(s := r.s.(fin := finalSize)), finalSize, high, read);
  }

  /** In every run limits rise as Rises says, those of a stream only by its own frames. */
  lemma LimitsFollowReading(w: Windows, run: seq<Step>, e: Step, i: nat)
    requires i < |Exec(w, run).streams|
    ensures i < |Exec(w, run + [e]).streams|
    ensures var s, n := Exec(w, run), Exec(w, run + [e]);
            && Rises(w.stream, s.streams[i].max, n.streams[i].max, s.streams[i].read, n.streams[i].read)
            && Rises(w.conn, s.c.maxData, n.c.maxData, s.c.consumed, n.c.consumed)
  {
    var s := Exec(w, run);
    BooksBalance(w, run);
    ExecSnoc(w, run, e);
    if !s.closed && IsFrame(e) && e.i < |s.streams| && Outcome(w, s, e).Accepted? {
      OneOfMany(w, s, e.i);
      var p, high, read := Pair(s.c, s.streams[e.i]), OtherHigh(s, e.i), OtherRead(s, e.i);
      NextIsFrame(w, s, e);
      if e.StreamFrame? {
        StreamFrameRaises(w, p, e.off, e.data, e.fin, high, read);
      } else {
        ResetRaises(w, p, e.finalSize, high, read);
      }
    }
  }
}
