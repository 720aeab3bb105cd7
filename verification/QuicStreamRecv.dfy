/** The receiving side of streams: flow control and final sizes (sections 4.1 and 4.5 of RFC 9000). */
module QuicStreamRecv {
  import opened Bytes
  import opened QuicRecvBuffer
  import opened QuicVarint

  /** What a connection counts over all its streams. */
  datatype Flow = Flow(data: nat, maxData: nat, consumed: nat)

  /** The receiving side of a stream; fin is below zero until the final size is known. */
  datatype In = In(recv: RecvBuf, max: nat, high: nat, read: nat, fin: int, done: bool, peerReset: bool, stopSent: bool)

  /** StreamReceiveWindow and ConnReceiveWindow. */
  datatype Windows = Windows(stream: nat, conn: nat)

  datatype Pair = Pair(c: Flow, s: In)

  datatype Result = Refused(code: nat) | Accepted(p: Pair)

  const FRAME_ENCODING := 0x7
  const FINAL_SIZE := 0x6
  const FLOW_CONTROL := 0x3

  // The steps of stream.go on one stream and its connection.

  function ReadUpTo(p: Pair, offset: nat): Pair {
    if offset > p.s.read then
      Pair(p.c.(consumed := p.c.consumed + (offset - p.s.read)), p.s.(read := offset))
    else p
  }

  function WidenStream(w: Windows, p: Pair, offset: nat): Pair {
    if p.s.fin < 0 && !p.s.done && p.s.max - offset < w.stream / 2 then p.(s := p.s.(max := offset + w.stream)) else p
  }

  function WidenConn(w: Windows, p: Pair): Pair {
    if p.c.maxData - p.c.consumed < w.conn / 2 then p.(c := p.c.(maxData := p.c.consumed + w.conn)) else p
  }

  /** consumed. */
  function Consumed(w: Windows, p: Pair, offset: nat): Pair {
    WidenConn(w, WidenStream(w, ReadUpTo(p, offset), offset))
  }

  /** Some way to record that a stream has been read up to an offset. */
  type Use = (Pair, nat) -> Pair

  function Using(w: Windows): Use { (p: Pair, offset: nat) => Consumed(w, p, offset) }

  /** Raises recvHigh, and recvData with it. */
  function Reach(p: Pair, end: nat): Pair {
    if end > p.s.high then Pair(p.c.(data := p.c.data + (end - p.s.high)), p.s.(high := end)) else p
  }

  lemma PopShrinks(r: RecvBuf)
    ensures r.Pop().data != [] ==> |r.Pop().rest.segments| < |r.segments|
    ensures |r.Pop().rest.segments| <= |r.segments|
    decreases |r.segments|
  {
    if r.segments != [] && r.segments[0].off <= r.offset && r.segments[0].End() <= r.offset {
      PopShrinks(r.(segments := r.segments[1..], buffered := r.buffered - |r.segments[0].data|));
    }
  }

  /** The loop that hands on what is in order, giving back room for each chunk; use leaves the
      buffer alone. */
  function Deliver(use: Use, p: Pair): Pair
    decreases |p.s.recv.segments|
  {
    var popped := p.s.recv.Pop();
    PopShrinks(p.s.recv);
    var q := p.(s := p.s.(recv := popped.rest));
    if popped.data == [] then q
    else
      var n := use(q, popped.rest.offset);
      Deliver(use, n.(s := n.s.(recv := popped.rest)))
  }

  /** Nobody reads the data, so it counts as read at once. */
  function Discard(use: Use, p: Pair, end: nat): Pair {
    var q := use(p, end);
    if q.s.stopSent && q.s.fin >= 0 && !q.s.done then q.(s := q.s.(done := true)) else q
  }

  /** The end of the stream, once everything before it has been handed on. */
  function Finish(use: Use, q: Pair): Pair {
    if q.s.fin >= 0 && q.s.recv.offset == q.s.fin && !q.s.done then
      use(q.(s := q.s.(done := true)), q.s.recv.offset)
    else q
  }

  /** onStreamFrame once the frame is within the limits. */
  function TakeIn(use: Use, p: Pair, off: nat, data: seq<byte>): Pair {
    if p.s.done || p.s.peerReset || p.s.stopSent then Discard(use, p, off + |data|)
    else Finish(use, Deliver(use, p.(s := p.s.(recv := p.s.recv.Push(off, data)))))
  }

  /** The checks of onStreamFrame: where the frame takes the stream. */
  function Admit(p: Pair, end: nat, fin: bool): Result {
    if end > MAX_VARINT then Refused(FRAME_ENCODING)
    else if p.s.fin >= 0 && (end > p.s.fin || (fin && end != p.s.fin)) then Refused(FINAL_SIZE)
    else if fin && end < p.s.high then Refused(FINAL_SIZE)
    else
      var q := if fin then p.(s := p.s.(fin := end)) else p;
      if end > q.s.max then Refused(FLOW_CONTROL)
      else
        var r := Reach(q, end);
        if end > q.s.high && r.c.data > r.c.maxData then Refused(FLOW_CONTROL) else Accepted(r)
  }

  /** onStreamFrame. */
  function OnStreamFrame(use: Use, p: Pair, off: nat, data: seq<byte>, fin: bool): Result {
    var r := Admit(p, off + |data|, fin);
    if r.Refused? then r else Accepted(TakeIn(use, r.p, off, data))
  }

  /** onResetStream. */
  function OnResetStream(use: Use, p: Pair, finalSize: nat): Result {
    if (p.s.fin >= 0 && finalSize != p.s.fin) || finalSize < p.s.high then Refused(FINAL_SIZE)
    else if finalSize > p.s.max then Refused(FLOW_CONTROL)
    else
      var r := Reach(p, finalSize);
      if finalSize > p.s.high && r.c.data > r.c.maxData then Refused(FLOW_CONTROL)
      else
        var q := use(r.(s := r.s.(fin := finalSize)), finalSize);
        if q.s.done || q.s.peerReset then Accepted(q)
        else Accepted(q.(s := q.s.(peerReset := true, recv := RecvBuf(q.s.recv.offset, [], 0))))
  }

  /** stopSendingLocked. */
  function StopSending(s: In): In {
    if s.done || s.stopSent then s else s.(stopSent := true, recv := RecvBuf(s.recv.offset, [], 0))
  }

  // What they keep.

  /** Nothing waits beyond the highest offset. */
  ghost predicate Below(r: RecvBuf, high: nat) {
    r.offset <= high && forall s :: s in r.segments ==> s.End() <= high
  }

  ghost predicate StreamIn(w: Windows, s: In) {
    s.read <= s.high <= s.max <= s.read + w.stream && (s.fin >= 0 ==> s.high <= s.fin)
  }

  ghost predicate ConnIn(w: Windows, c: Flow) { c.consumed <= c.data <= c.maxData <= c.consumed + w.conn }

  /** The peer is within its limit, which is at most a window beyond what was read, and for a stream
      that goes on at least half a window. */
  ghost predicate StreamOk(w: Windows, s: In) {
    StreamIn(w, s) && (s.fin < 0 && !s.done ==> s.max >= s.read + w.stream / 2)
  }

  ghost predicate ConnOk(w: Windows, c: Flow) { ConnIn(w, c) && c.maxData >= c.consumed + w.conn / 2 }

  /** One stream among others that have reached and read so much. */
  ghost predicate Ok(w: Windows, p: Pair, high: int, read: int) {
    StreamOk(w, p.s) && ConnOk(w, p.c) && p.c.data == high + p.s.high && p.c.consumed == read + p.s.read && read <= high
  }

  /** The same before credit has been given back. */
  ghost predicate Owing(w: Windows, p: Pair, high: int, read: int) {
    StreamIn(w, p.s) && ConnIn(w, p.c) && p.c.data == high + p.s.high && p.c.consumed == read + p.s.read && read <= high
  }

  /** Only read and the limits change, and they only grow. */
  ghost predicate Grows(p: Pair, q: Pair) {
    && p.c.maxData <= q.c.maxData && p.s.max <= q.s.max && p.s.read <= q.s.read
    && q.s.recv == p.s.recv && q.s.high == p.s.high && q.s.fin == p.s.fin && q.s.done == p.s.done
    && q.s.peerReset == p.s.peerReset && q.s.stopSent == p.s.stopSent && q.c.data == p.c.data
  }

  lemma ReadUpToKeeps(w: Windows, p: Pair, offset: nat, high: int, read: int)
    requires Ok(w, p, high, read) && offset <= p.s.high
    ensures var q := ReadUpTo(p, offset);
            Owing(w, q, high, read) && Grows(p, q) && q.s.read >= offset && (q.s.read > offset ==> q == p)
  {
  }

  /** Here and in WidenConnKeeps: the difference that the code computes is not below zero. */
  lemma WidenStreamKeeps(w: Windows, p: Pair, offset: nat, high: int, read: int)
    requires Owing(w, p, high, read) && offset <= p.s.read && (offset < p.s.read ==> StreamOk(w, p.s))
    ensures var q := WidenStream(w, p, offset);
            Owing(w, q, high, read) && StreamOk(w, q.s) && Grows(p, q) && q.s.read == p.s.read
    ensures p.s.max - offset >= 0
  {
  }

  lemma WidenConnKeeps(w: Windows, p: Pair, high: int, read: int)
    requires Owing(w, p, high, read) && StreamOk(w, p.s)
    ensures var q := WidenConn(w, p); Ok(w, q, high, read) && Grows(p, q) && q.s == p.s
    ensures p.c.maxData - p.c.consumed >= 0
  {
  }

  /** Reading up to an offset that has been reached keeps the books, limits only grow, and there is
      half a window of room again. */
  lemma ConsumedKeeps(w: Windows, p: Pair, offset: nat, high: int, read: int)
    requires Ok(w, p, high, read) && offset <= p.s.high
    ensures var q := Consumed(w, p, offset); Ok(w, q, high, read) && Grows(p, q) && q.s.read >= offset
  {
    ReadUpToKeeps(w, p, offset, high, read);
    var q := ReadUpTo(p, offset);
    WidenStreamKeeps(w, q, offset, high, read);
    WidenConnKeeps(w, WidenStream(w, q, offset), high, read);
  }

  ghost predicate Used(w: Windows, use: Use, p: Pair, offset: nat, high: int, read: int) {
    Ok(w, p, high, read) && offset <= p.s.high ==>
      var q := use(p, offset); Ok(w, q, high, read) && Grows(p, q) && q.s.read >= offset
  }

  /** use keeps the books. */
  ghost predicate Keeps(w: Windows, use: Use) {
    forall p, offset, high, read {:trigger Used(w, use, p, offset, high, read)} :: Used(w, use, p, offset, high, read)
  }

  lemma UsingKeeps(w: Windows)
    ensures Keeps(w, Using(w))
  {
    forall p, offset: nat, high, read ensures Used(w, Using(w), p, offset, high, read) {
      if Ok(w, p, high, read) && offset <= p.s.high {
        ConsumedKeeps(w, p, offset, high, read);
      }
    }
  }

  lemma PushBelow(r: RecvBuf, off: nat, data: seq<byte>, high: nat)
    requires Below(r, high) && off + |data| <= high
    ensures Below(r.Push(off, data), high) && r.Push(off, data).offset == r.offset
  {
    if off + |data| > r.offset && data != [] {
      var s := if off < r.offset then Segment(r.offset, data[r.offset - off..]) else Segment(off, data);
      InsertTotal(r.segments, s);
    }
  }

  lemma {:induction false} PopBelow(r: RecvBuf, high: nat)
    requires Below(r, high)
    ensures Below(r.Pop().rest, high) && r.Pop().rest.offset >= r.offset
    decreases |r.segments|
  {
    if r.segments != [] && r.segments[0].off <= r.offset {
      var s := r.segments[0];
      assert s in r.segments && forall t :: t in r.segments[1..] ==> t in r.segments;
      if s.End() <= r.offset {
        PopBelow(r.(segments := r.segments[1..], buffered := r.buffered - |s.data|), high);
      }
    }
  }

  /** As Grows, but the buffer may have been emptied up to what is read. */
  ghost predicate Follows(p: Pair, q: Pair) {
    && p.c.maxData <= q.c.maxData && p.s.max <= q.s.max && p.s.read <= q.s.read && q.s.high == p.s.high
    && q.s.fin == p.s.fin && q.c.data == p.c.data
  }

  lemma {:induction false} DeliverKeeps(w: Windows, use: Use, p: Pair, high: int, read: int)
    requires Keeps(w, use)
    requires Ok(w, p, high, read) && Below(p.s.recv, p.s.high)
    ensures var q := Deliver(use, p); Ok(w, q, high, read) && Below(q.s.recv, q.s.high) && Follows(p, q)
    decreases |p.s.recv.segments|
  {
    var popped := p.s.recv.Pop();
    PopShrinks(p.s.recv);
    PopBelow(p.s.recv, p.s.high);
    var q := p.(s := p.s.(recv := popped.rest));
    if popped.data != [] {
      assert Used(w, use, q, popped.rest.offset, high, read);
      var n := use(q, popped.rest.offset);
      assert n.(s := n.s.(recv := popped.rest)) == n;
      DeliverKeeps(w, use, n, high, read);
    }
  }

  /** The whole invariant of a stream. */
  ghost predicate Whole(w: Windows, p: Pair, high: int, read: int) {
    Ok(w, p, high, read) && Below(p.s.recv, p.s.high)
  }

  lemma DiscardKeeps(w: Windows, use: Use, p: Pair, end: nat, high: int, read: int)
    requires Keeps(w, use)
    requires Whole(w, p, high, read) && end <= p.s.high
    ensures var q := Discard(use, p, end); Whole(w, q, high, read) && Follows(p, q)
  {
    assert Used(w, use, p, end, high, read);
  }

  lemma FinishKeeps(w: Windows, use: Use, p: Pair, q: Pair, high: int, read: int)
    requires Keeps(w, use)
    requires Whole(w, q, high, read) && Follows(p, q)
    ensures Whole(w, Finish(use, q), high, read) && Follows(p, Finish(use, q))
  {
    assert Used(w, use, q.(s := q.s.(done := true)), q.s.recv.offset, high, read);
  }

  lemma HandOnKeeps(w: Windows, use: Use, p: Pair, off: nat, data: seq<byte>, high: int, read: int)
    requires Keeps(w, use)
    requires Whole(w, p, high, read) && off + |data| <= p.s.high
    ensures var q := Deliver(use, p.(s := p.s.(recv := p.s.recv.Push(off, data))));
            Whole(w, q, high, read) && Follows(p, q)
  {
    PushBelow(p.s.recv, off, data, p.s.high);
    DeliverKeeps(w, use, p.(s := p.s.(recv := p.s.recv.Push(off, data))), high, read);
  }

  lemma TakeInKeeps(w: Windows, use: Use, p: Pair, off: nat, data: seq<byte>, high: int, read: int) returns (q: Pair)
    requires Keeps(w, use)
    requires Whole(w, p, high, read) && off + |data| <= p.s.high
    ensures q == TakeIn(use, p, off, data) && Whole(w, q, high, read) && Follows(p, q)
  {
    if p.s.done || p.s.peerReset || p.s.stopSent {
      DiscardKeeps(w, use, p, off + |data|, high, read);
      q := Discard(use, p, off + |data|);
    } else {
      HandOnKeeps(w, use, p, off, data, high, read);
      var d := Deliver(use, p.(s := p.s.(recv := p.s.recv.Push(off, data))));
      FinishKeeps(w, use, p, d, high, read);
      q := Finish(use, d);
    }
  }

  lemma ReachKeeps(w: Windows, p: Pair, end: nat, high: int, read: int)
    requires Whole(w, p, high, read) && end <= p.s.max && (p.s.fin >= 0 ==> end <= p.s.fin)
    requires Reach(p, end).c.data <= p.c.maxData
    ensures Whole(w, Reach(p, end), high, read) && Reach(p, end).s.high >= end && Reach(p, end).s.high >= p.s.high
    ensures Reach(p, end).s == p.s.(high := Reach(p, end).s.high) && Reach(p, end).c.maxData == p.c.maxData
  {
  }

  lemma AdmitKeeps(w: Windows, p: Pair, end: nat, fin: bool, high: int, read: int)
    requires Whole(w, p, high, read)
    ensures var r := Admit(p, end, fin);
            r.Accepted? ==> Whole(w, r.p, high, read) && end <= r.p.s.high && p.c.maxData == r.p.c.maxData
                            && p.s.max == r.p.s.max && (p.s.fin >= 0 ==> r.p.s.fin == p.s.fin)
  {
    var q := if fin then p.(s := p.s.(fin := end)) else p;
    if Admit(p, end, fin).Accepted? {
      ReachKeeps(w, q, end, high, read);
    }
  }

  /** Accepting a STREAM frame keeps the books, and limits only grow. */
  lemma StreamFrameKeeps(w: Windows, use: Use, p: Pair, off: nat, data: seq<byte>, fin: bool, high: int, read: int)
    requires Keeps(w, use)
    requires Whole(w, p, high, read)
    ensures var r := OnStreamFrame(use, p, off, data, fin);
            r.Accepted? ==> Whole(w, r.p, high, read) && p.c.maxData <= r.p.c.maxData && p.s.max <= r.p.s.max
                            && off + |data| <= r.p.s.high && (p.s.fin >= 0 ==> r.p.s.fin == p.s.fin)
  {
    AdmitKeeps(w, p, off + |data|, fin, high, read);
    var r := Admit(p, off + |data|, fin);
    if r.Accepted? {
      var n := TakeInKeeps(w, use, r.p, off, data, high, read);
      FrameIs(use, p, off, data, fin, r.p);
    }
  }

  lemma FrameIs(use: Use, p: Pair, off: nat, data: seq<byte>, fin: bool, a: Pair)
    requires Admit(p, off + |data|, fin) == Accepted(a)
    ensures OnStreamFrame(use, p, off, data, fin) == Accepted(TakeIn(use, a, off, data))
  {
  }

  lemma ResetStreamKeeps(w: Windows, use: Use, p: Pair, finalSize: nat, high: int, read: int)
    requires Keeps(w, use)
    requires Whole(w, p, high, read)
    ensures var r := OnResetStream(use, p, finalSize);
            r.Accepted? ==> Whole(w, r.p, high, read) && p.c.maxData <= r.p.c.maxData && p.s.max <= r.p.s.max
                            && r.p.s.fin == r.p.s.high == r.p.s.read == finalSize
                            && (p.s.fin >= 0 ==> r.p.s.fin == p.s.fin)
  {
    if OnResetStream(use, p, finalSize).Accepted? {
      ReachKeeps(w, p, finalSize, high, read);
      var r := Reach(p, finalSize);
      assert Used(w, use, r.(s := r.s.(fin := finalSize)), finalSize, high, read);
    }
  }

  // The credit that a stream has back when it ends.

  lemma ReadBy(w: Windows, p: Pair, end: nat)
    ensures var q := Using(w)(p, end).s;
            q.read == (if end > p.s.read then end else p.s.read) && q.high == p.s.high && q.stopSent == p.s.stopSent
  {
  }

  /** A stream that ends because all of it was handed on has been read to its end. */
  lemma EndIsRead(w: Windows, p: Pair, off: nat, data: seq<byte>, high: int, read: int)
    requires Whole(w, p, high, read) && off + |data| <= p.s.high && !(p.s.done || p.s.peerReset || p.s.stopSent)
    requires !Deliver(Using(w), p.(s := p.s.(recv := p.s.recv.Push(off, data)))).s.done
    ensures var q := TakeIn(Using(w), p, off, data).s; q.done ==> q.read == q.high
  {
    UsingKeeps(w);
    HandOnKeeps(w, Using(w), p, off, data, high, read);
    var d := Deliver(Using(w), p.(s := p.s.(recv := p.s.recv.Push(off, data))));
    ReadBy(w, d.(s := d.s.(done := true)), d.s.recv.offset);
  }

  lemma {:induction false} DeliverLeavesDone(w: Windows, p: Pair)
    ensures Deliver(Using(w), p).s.done == p.s.done
    decreases |p.s.recv.segments|
  {
    var popped := p.s.recv.Pop();
    PopShrinks(p.s.recv);
    if popped.data != [] {
      var n := Using(w)(p.(s := p.s.(recv := popped.rest)), popped.rest.offset);
      DeliverLeavesDone(w, n.(s := n.s.(recv := popped.rest)));
    }
  }

  /** With its last frame a stream has given back all its credit, unless its reader had stopped and
      that frame ends below what had come and was not read. */
  lemma CreditAtEnd(w: Windows, p: Pair, off: nat, data: seq<byte>, fin: bool, high: int, read: int)
    requires Whole(w, p, high, read) && !p.s.done
    requires var r := OnStreamFrame(Using(w), p, off, data, fin); r.Accepted? && r.p.s.done
    ensures var q := OnStreamFrame(Using(w), p, off, data, fin).p.s;
            (q.read == q.high) == (!p.s.stopSent || off + |data| >= p.s.high || p.s.read == p.s.high)
  {
    var a := Admit(p, off + |data|, fin).p;
    Admitted(p, off + |data|, fin);
    AdmitKeeps(w, p, off + |data|, fin, high, read);
    CreditAfter(w, a, off, data, high, read, TakeIn(Using(w), a, off, data).s);
  }

  lemma CreditAfter(w: Windows, p: Pair, off: nat, data: seq<byte>, high: int, read: int, q: In)
    requires Whole(w, p, high, read) && !p.s.done && off + |data| <= p.s.high
    requires q == TakeIn(Using(w), p, off, data).s && q.done
    ensures (q.read == q.high) == (!p.s.stopSent || off + |data| >= p.s.high || p.s.read == p.s.high)
  {
    if p.s.peerReset || p.s.stopSent {
      DiscardIs(w, p, off + |data|);
    } else {
      DeliverLeavesDone(w, p.(s := p.s.(recv := p.s.recv.Push(off, data))));
      EndIsRead(w, p, off, data, high, read);
    }
  }

  lemma Admitted(p: Pair, end: nat, fin: bool)
    requires Admit(p, end, fin).Accepted?
    ensures var s := Admit(p, end, fin).p.s;
            && s.read == p.s.read && s.high == (if end > p.s.high then end else p.s.high)
            && s.done == p.s.done && s.peerReset == p.s.peerReset && s.stopSent == p.s.stopSent
  {
  }

  lemma DiscardIs(w: Windows, p: Pair, end: nat)
    requires !p.s.done && Discard(Using(w), p, end).s.done
    ensures var q := Discard(Using(w), p, end).s;
            p.s.stopSent && q.high == p.s.high && q.read == (if end > p.s.read then end else p.s.read)
  {
    ReadBy(w, p, end);
    KeepsDone(w, p, end);
  }

  lemma KeepsDone(w: Windows, p: Pair, end: nat)
    ensures Using(w)(p, end).s.done == p.s.done
  {
  }

  /** A stream that the peer resets has given back all its credit, whether its reader had stopped or not. */
  lemma CreditAtReset(w: Windows, p: Pair, finalSize: nat, high: int, read: int)
    requires Whole(w, p, high, read) && OnResetStream(Using(w), p, finalSize).Accepted?
    ensures var q := OnResetStream(Using(w), p, finalSize).p;
            q.s.read == q.s.high && q.c.consumed == read + q.s.high
  {
    UsingKeeps(w);
    ResetStreamKeeps(w, Using(w), p, finalSize, high, read);
  }

  // Every run.

  /** The streams of a connection, those that have finished included, and the error that closed it. */
  datatype State = State(c: Flow, streams: seq<In>, closed: bool, code: nat)

  datatype Step =
    | Open
    | StreamFrame(i: nat, off: nat, data: seq<byte>, fin: bool)
    | ResetFrame(i: nat, finalSize: nat)
    | Stop(i: nat)

  function After(s: State, i: nat, r: Result): State
    requires i < |s.streams|
  {
    if r.Refused? then s.(closed := true, code := r.code) else s.(c := r.p.c, streams := s.streams[i := r.p.s])
  }

  function Next(w: Windows, s: State, e: Step): State {
    if s.closed then s else
    match e
    case Open => s.(streams := s.streams + [In(EMPTY, w.stream, 0, 0, -1, false, false, false)])
    case StreamFrame(i, off, data, fin) =>
      if i < |s.streams| then After(s, i, OnStreamFrame(Using(w), Pair(s.c, s.streams[i]), off, data, fin)) else s
    case ResetFrame(i, finalSize) =>
      if i < |s.streams| then After(s, i, OnResetStream(Using(w), Pair(s.c, s.streams[i]), finalSize)) else s
    case Stop(i) => if i < |s.streams| then s.(streams := s.streams[i := StopSending(s.streams[i])]) else s
  }

  function Init(w: Windows): State { State(Flow(0, w.conn, 0), [], false, 0) }

  function Exec(w: Windows, run: seq<Step>): State {
    if run == [] then Init(w) else Next(w, Exec(w, run[..|run| - 1]), run[|run| - 1])
  }

  function SumHigh(streams: seq<In>): nat {
    if streams == [] then 0 else SumHigh(streams[..|streams| - 1]) + streams[|streams| - 1].high
  }

  function SumRead(streams: seq<In>): nat {
    if streams == [] then 0 else SumRead(streams[..|streams| - 1]) + streams[|streams| - 1].read
  }

  lemma {:induction false} SumsUpdate(streams: seq<In>, i: nat, s: In)
    requires i < |streams|
    ensures SumHigh(streams[i := s]) == SumHigh(streams) - streams[i].high + s.high
            && SumHigh(streams) >= streams[i].high
    ensures SumRead(streams[i := s]) == SumRead(streams) - streams[i].read + s.read
            && SumRead(streams) >= streams[i].read
  {
    var n := |streams| - 1;
    if i == n {
      assert streams[i := s][..n] == streams[..n];
    } else {
      assert streams[i := s][..n] == streams[..n][i := s];
      SumsUpdate(streams[..n], i, s);
    }
  }

  lemma {:induction false} ReadWithinHigh(w: Windows, streams: seq<In>, i: int)
    requires forall j :: 0 <= j < |streams| ==> StreamOk(w, streams[j])
    requires i < |streams|
    ensures SumRead(streams) <= SumHigh(streams)
    ensures i >= 0 ==> SumRead(streams) - streams[i].read <= SumHigh(streams) - streams[i].high
  {
    if streams != [] {
      var n := |streams| - 1;
      ReadWithinHigh(w, streams[..n], if i < n then i else -1);
    }
  }

  ghost predicate Inv(w: Windows, s: State) {
    && ConnOk(w, s.c) && s.c.data == SumHigh(s.streams) && s.c.consumed == SumRead(s.streams)
    && forall i :: 0 <= i < |s.streams| ==> StreamOk(w, s.streams[i]) && Below(s.streams[i].recv, s.streams[i].high)
  }

  lemma AfterKeeps(w: Windows, s: State, i: nat, p: Pair)
    requires Inv(w, s) && i < |s.streams|
    requires Whole(w, p, OtherHigh(s, i), OtherRead(s, i))
    ensures Inv(w, s.(c := p.c, streams := s.streams[i := p.s]))
  {
    SumsUpdate(s.streams, i, p.s);
  }

  /** What the other streams add up to. */
  function OtherHigh(s: State, i: nat): int
    requires i < |s.streams|
  {
    SumHigh(s.streams) - s.streams[i].high
  }

  function OtherRead(s: State, i: nat): int
    requires i < |s.streams|
  {
    SumRead(s.streams) - s.streams[i].read
  }

  lemma OneOfMany(w: Windows, s: State, i: nat)
    requires Inv(w, s) && i < |s.streams|
    ensures Whole(w, Pair(s.c, s.streams[i]), OtherHigh(s, i), OtherRead(s, i))
  {
    ReadWithinHigh(w, s.streams, i);
  }

  lemma OpenKeeps(w: Windows, s: State)
    requires Inv(w, s)
    ensures Inv(w, Next(w, s, Open))
  {
    if !s.closed {
      assert Next(w, s, Open).streams[..|s.streams|] == s.streams;
    }
  }

  lemma NextKeeps(w: Windows, s: State, e: Step)
    requires Inv(w, s)
    ensures Inv(w, Next(w, s, e))
  {
    if e.Open? {
      OpenKeeps(w, s);
    } else if !s.closed && e.i < |s.streams| {
      UsingKeeps(w);
      OneOfMany(w, s, e.i);
      var p := Pair(s.c, s.streams[e.i]);
      match e
      case StreamFrame(i, off, data, fin) =>
        StreamFrameKeeps(w, Using(w), p, off, data, fin, OtherHigh(s, i), OtherRead(s, i));
        var r := OnStreamFrame(Using(w), p, off, data, fin);
        if r.Accepted? {
          AfterKeeps(w, s, i, r.p);
        }
      case ResetFrame(i, finalSize) =>
        ResetStreamKeeps(w, Using(w), p, finalSize, OtherHigh(s, i), OtherRead(s, i));
        var r := OnResetStream(Using(w), p, finalSize);
        if r.Accepted? {
          AfterKeeps(w, s, i, r.p);
        }
      case Stop(i) => AfterKeeps(w, s, i, p.(s := StopSending(p.s)));
    }
  }

  /** In every run the connection's counters are the sums over its streams, the peer never gets
      beyond a limit that was given, and no limit runs ahead of what was read by more than its window. */
  lemma {:induction false} BooksBalance(w: Windows, run: seq<Step>)
    ensures Inv(w, Exec(w, run))
  {
    if run != [] {
      BooksBalance(w, run[..|run| - 1]);
      NextKeeps(w, Exec(w, run[..|run| - 1]), run[|run| - 1]);
    }
  }

  /** Limits only grow, and a final size once known stays. */
  lemma LimitsGrow(w: Windows, s: State, e: Step, i: nat)
    requires Inv(w, s) && i < |s.streams|
    ensures var n := Next(w, s, e);
            && i < |n.streams| && n.c.maxData >= s.c.maxData && n.streams[i].max >= s.streams[i].max
            && (s.streams[i].fin >= 0 ==> n.streams[i].fin == s.streams[i].fin)
  {
    if !s.closed && !e.Open? && e.i < |s.streams| {
      UsingKeeps(w);
      OneOfMany(w, s, e.i);
      var p, high, read := Pair(s.c, s.streams[e.i]), OtherHigh(s, e.i), OtherRead(s, e.i);
      match e
      case StreamFrame(_, off, data, fin) => StreamFrameKeeps(w, Using(w), p, off, data, fin, high, read);
      case ResetFrame(_, finalSize) => ResetStreamKeeps(w, Using(w), p, finalSize, high, read);
      case Stop(_) =>
    }
  }

  lemma ExecSnoc(w: Windows, run: seq<Step>, e: Step)
    ensures Exec(w, run + [e]) == Next(w, Exec(w, run), e)
  {
    assert (run + [e])[..|run|] == run;
  }

  lemma FinalSizeKnown(w: Windows, r: RecvBuf)
    requires r == EMPTY && w == Windows(100, 100)
    ensures var p := Pair(Flow(0, 100, 0), In(r, 100, 0, 0, -1, false, false, false));
            OnStreamFrame(Using(w), p, 10, [], true)
              == Accepted(Pair(Flow(10, 100, 0), In(r, 100, 10, 0, 10, false, false, false)))
  {
    var q := Pair(Flow(10, 100, 0), In(r, 100, 10, 0, 10, false, false, false));
    assert r.Push(10, []) == r && r.Pop() == Popped(r, []);
    assert Deliver(Using(w), q) == q;
  }

  lemma FirstByteEnds(w: Windows, p: Pair)
    requires w == Windows(100, 100) && p == Pair(Flow(10, 100, 0), In(EMPTY, 100, 10, 0, 10, false, false, true))
    ensures var r := OnStreamFrame(Using(w), p, 0, [7], false);
            && r.Accepted? && r.p.s.done && r.p.s.read == 1 && r.p.s.high == 10
            && r.p.c.data == 10 && r.p.c.consumed == 1
  {
    assert Admit(p, 1, false) == Accepted(p);
    ReadBy(w, p, 1);
  }

  /** The exception to CreditAtEnd is real: nothing was read when the reader stopped, the final size is
      ten, and the frame that ends the stream has its first byte only. */
  lemma StoppedStreamKeepsCredit()
    ensures var run := [Open] + [StreamFrame(0, 10, [], true)] + [Stop(0)] + [StreamFrame(0, 0, [7], false)];
            var s := Exec(Windows(100, 100), run);
            && !s.closed && |s.streams| == 1 && s.streams[0].done && s.streams[0].read == 1 && s.streams[0].high == 10
            && s.c.data == 10 && s.c.consumed == 1
  {
    var w, e1, e2, e3 := Windows(100, 100), StreamFrame(0, 10, [], true), Stop(0), StreamFrame(0, 0, [7], false);
    ExecSnoc(w, [], Open);
    ExecSnoc(w, [Open], e1);
    ExecSnoc(w, [Open] + [e1], e2);
    ExecSnoc(w, [Open] + [e1] + [e2], e3);
    assert [] + [Open] == [Open];
    FinalSizeKnown(w, EMPTY);
    var opening, known := In(EMPTY, 100, 0, 0, -1, false, false, false), In(EMPTY, 100, 10, 0, 10, false, false, false);
    assert Exec(w, [Open]) == State(Flow(0, 100, 0), [opening], false, 0);
    assert Exec(w, [Open] + [e1]) == State(Flow(10, 100, 0), [opening][0 := known], false, 0);
    assert Exec(w, [Open] + [e1] + [e2]).streams == [opening][0 := known][0 := known.(stopSent := true)];
    FirstByteEnds(w, Pair(Flow(10, 100, 0), known.(stopSent := true)));
  }
}
