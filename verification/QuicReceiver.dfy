/** The receiving side of a stream as an object, sharing its connection's counters. */
module QuicReceiver {
  import opened Bytes
  import opened QuicRecvBuffer
  import opened QuicStreamRecv
  import opened QuicVarint

  class ConnectionFlow {
    var recvData: nat
    var recvMaxData: nat
    var recvConsumed: nat

    constructor (window: nat)
      ensures recvData == 0 && recvMaxData == window && recvConsumed == 0
    {
      recvData, recvMaxData, recvConsumed := 0, window, 0;
    }
  }

  /** use is what consumed does. */
  ghost predicate Records(w: Windows, use: Use) {
    forall p, offset: nat {:trigger Consumed(w, p, offset)} :: use(p, offset) == Consumed(w, p, offset)
  }

  class ReceivingStream {
    const conn: ConnectionFlow
    const recv: RecvBuffer
    var recvMax: nat
    var recvHigh: nat
    var recvRead: nat
    var recvFin: int
    var recvDone: bool
    var peerReset: bool
    var stopSent: bool

    ghost function Value(): Pair
      reads this, conn, recv
    {
      Pair(Flow(conn.recvData, conn.recvMaxData, conn.recvConsumed),
           In(recv.Value(), recvMax, recvHigh, recvRead, recvFin, recvDone, peerReset, stopSent))
    }

    /** newStream. */
    constructor (c: ConnectionFlow, window: nat)
      ensures conn == c && fresh(recv) && recv.Value().Valid()
      ensures Value().s == In(EMPTY, window, 0, 0, -1, false, false, false)
    {
      conn := c;
      recv := new RecvBuffer();
      recvMax, recvHigh, recvRead, recvFin := window, 0, 0, -1;
      recvDone, peerReset, stopSent := false, false, false;
    }

    /** consumed. */
    method MarkConsumed(w: Windows, offset: nat)
      modifies this`recvRead, this`recvMax, conn`recvConsumed, conn`recvMaxData
      ensures Value() == Consumed(w, old(Value()), offset)
    {
      if offset > recvRead {
        conn.recvConsumed := conn.recvConsumed + (offset - recvRead);
        recvRead := offset;
      }
      if recvFin < 0 && !recvDone && recvMax - offset < w.stream / 2 {
        recvMax := offset + w.stream;
      }
      if conn.recvMaxData - conn.recvConsumed < w.conn / 2 {
        conn.recvMaxData := conn.recvConsumed + w.conn;
      }
    }

    /** The checks of onStreamFrame. */
    method AdmitFrame(end: nat, fin: bool) returns (refused: bool, code: nat)
      modifies this`recvFin, this`recvHigh, conn`recvData
      ensures var r := Admit(old(Value()), end, fin);
              if refused then r == Refused(code) else r == Accepted(Value())
    {
      if end > MAX_VARINT {
        return true, FRAME_ENCODING;
      }
      if recvFin >= 0 && (end > recvFin || (fin && end != recvFin)) {
        return true, FINAL_SIZE;
      }
      if fin {
        if end < recvHigh {
          return true, FINAL_SIZE;
        }
        recvFin := end;
      }
      if end > recvMax {
        return true, FLOW_CONTROL;
      }
      if end > recvHigh {
        conn.recvData := conn.recvData + (end - recvHigh);
        recvHigh := end;
        if conn.recvData > conn.recvMaxData {
          return true, FLOW_CONTROL;
        }
      }
      return false, 0;
    }

    /** The loop of onStreamFrame: the chunks handed on are the next bytes of the stream, and it
        stops only at a byte that has not come. */
    method DeliverAll(w: Windows, ghost use: Use) returns (chunks: seq<seq<byte>>)
      requires recv.Value().Valid() && Records(w, use)
      modifies this`recvRead, this`recvMax, conn`recvConsumed, conn`recvMaxData, recv
      ensures recv.Value().Valid() && Value() == Deliver(use, old(Value()))
      ensures HandsOn(old(recv.Value()), recv.Value(), chunks) && !recv.Value().Has(recv.offset)
    {
      chunks := [];
      ghost var all := Deliver(use, Value());
      while true
        invariant recv.Value().Valid() && Deliver(use, Value()) == all
        invariant HandsOn(old(recv.Value()), recv.Value(), chunks)
        decreases |recv.segments|
      {
        PopShrinks(recv.Value());
        HandsOnMore(old(recv.Value()), recv.Value(), chunks);
        var chunk := recv.Pop();
        if chunk == [] {
          return;
        }
        ghost var popped := Value();
        MarkConsumed(w, recv.offset);
        KeepsBuffer(w, popped, recv.offset);
        chunks := chunks + [chunk];
      }
    }

    /** Data that nobody reads. */
    method DiscardUpTo(w: Windows, ghost use: Use, end: nat)
      requires Records(w, use)
      modifies this`recvRead, this`recvMax, this`recvDone, conn`recvConsumed, conn`recvMaxData
      ensures Value() == Discard(use, old(Value()), end)
    {
      MarkConsumed(w, end);
      if stopSent && recvFin >= 0 && !recvDone {
        recvDone := true;
      }
    }

    /** The end of the stream, if everything before it has been handed on. */
    method FinishUp(w: Windows, ghost use: Use) returns (ended: bool)
      requires Records(w, use)
      modifies this`recvRead, this`recvMax, this`recvDone, conn`recvConsumed, conn`recvMaxData
      ensures Value() == Finish(use, old(Value()))
      ensures ended <==> !old(recvDone) && recvFin >= 0 && recv.offset == recvFin
    {
      ended := recvFin >= 0 && recv.offset == recvFin && !recvDone;
      if recvFin >= 0 && recv.offset == recvFin && !recvDone {
        recvDone := true;
        MarkConsumed(w, recv.offset);
      }
    }

    /** onStreamFrame once the frame is within the limits: what is handed on, and whether the stream
        ends with it. */
    method TakeInData(w: Windows, ghost use: Use, off: nat, data: seq<byte>)
      returns (chunks: seq<seq<byte>>, ended: bool)
      requires recv.Value().Valid() && Records(w, use)
      modifies this`recvRead, this`recvMax, this`recvDone, conn`recvConsumed, conn`recvMaxData, recv
      ensures recv.Value().Valid() && Value() == TakeIn(use, old(Value()), off, data)
      ensures Handed(old(recv.Value()), off, data, recv.Value(), chunks)
      ensures ended <==> !old(recvDone || peerReset || stopSent) && recvFin >= 0 && recv.offset == recvFin
    {
      chunks, ended := [], false;
      if recvDone || peerReset || stopSent {
        DiscardUpTo(w, use, off + |data|);
        return;
      }
      ghost var before := recv.Value();
      recv.Push(off, data);
      chunks := DeliverAll(w, use);
      FrameHanded(before, off, data, recv.Value(), chunks);
      ended := FinishUp(w, use);
    }

    /** onStreamFrame. */
    method OnFrame(w: Windows, ghost use: Use, off: nat, data: seq<byte>, fin: bool)
      returns (refused: bool, code: nat, chunks: seq<seq<byte>>, ended: bool)
      requires recv.Value().Valid() && Records(w, use)
      modifies this, conn, recv
      ensures recv.Value().Valid() && Handed(old(recv.Value()), off, data, recv.Value(), chunks)
      ensures ended <==> !refused && !old(recvDone || peerReset || stopSent) && recvFin >= 0 && recv.offset == recvFin
      ensures var r := OnStreamFrame(use, old(Value()), off, data, fin);
              if refused then r == Refused(code) else r == Accepted(Value())
    {
      chunks, ended := [], false;
      refused, code := AdmitFrame(off + |data|, fin);
      if !refused {
        chunks, ended := TakeInData(w, use, off, data);
      }
    }

    /** onResetStream. */
    method OnReset(w: Windows, ghost use: Use, finalSize: nat) returns (refused: bool, code: nat)
      requires recv.Value().Valid() && Records(w, use)
      modifies this, conn, recv
      ensures recv.Value().Valid()
      ensures var r := OnResetStream(use, old(Value()), finalSize);
              if refused then r == Refused(code) else r == Accepted(Value())
    {
      if (recvFin >= 0 && finalSize != recvFin) || finalSize < recvHigh {
        return true, FINAL_SIZE;
      }
      if finalSize > recvMax {
        return true, FLOW_CONTROL;
      }
      if finalSize > recvHigh {
        conn.recvData := conn.recvData + (finalSize - recvHigh);
        recvHigh := finalSize;
        if conn.recvData > conn.recvMaxData {
          return true, FLOW_CONTROL;
        }
      }
      recvFin := finalSize;
      MarkConsumed(w, finalSize);
      if recvDone || peerReset {
        return false, 0;
      }
      peerReset := true;
      recv.segments, recv.buffered := [], 0;
      return false, 0;
    }

    /** stopSendingLocked. */
    method AskToStop()
      requires recv.Value().Valid()
      modifies this`stopSent, recv
      ensures recv.Value().Valid() && Value().c == old(Value()).c && Value().s == StopSending(old(Value()).s)
    {
      if recvDone || stopSent {
        return;
      }
      stopSent := true;
      recv.segments, recv.buffered := [], 0;
    }
  }

  /** The chunks are the bytes of the stream between where the buffer stood and where it stands. */
  ghost predicate HandsOn(before: RecvBuf, after: RecvBuf, chunks: seq<seq<byte>>) {
    && before.offset <= after.offset
    && forall written :: before.Agrees(written) ==>
         after.Agrees(written) && Concat(chunks) == written[before.offset..after.offset]
  }

  /** The same once a frame has brought data. */
  ghost predicate Handed(before: RecvBuf, off: nat, data: seq<byte>, after: RecvBuf, chunks: seq<seq<byte>>) {
    && before.offset <= after.offset
    && forall written :: before.Agrees(written) && Segment(off, data).PieceOf(written) ==>
         after.Agrees(written) && Concat(chunks) == written[before.offset..after.offset]
  }

  lemma HandsOnMore(before: RecvBuf, mid: RecvBuf, chunks: seq<seq<byte>>)
    requires mid.Valid() && HandsOn(before, mid, chunks)
    ensures var p := mid.Pop();
            && (p.data == [] ==> HandsOn(before, p.rest, chunks) && !p.rest.Has(p.rest.offset))
            && (p.data != [] ==> HandsOn(before, p.rest, chunks + [p.data]))
  {
    var p := mid.Pop();
    PopSound(mid, []);
    ConcatSnoc(chunks, p.data);
    forall written | before.Agrees(written)
      ensures p.rest.Agrees(written) && Concat(chunks) + p.data == written[before.offset..p.rest.offset]
    {
      PopAgrees(before.offset, mid, written, Concat(chunks));
    }
    assert Concat(chunks) + [] == Concat(chunks);
  }

  lemma PopAgrees(from: nat, mid: RecvBuf, written: seq<byte>, done: seq<byte>)
    requires mid.Valid() && from <= mid.offset && mid.Agrees(written) && done == written[from..mid.offset]
    ensures var p := mid.Pop();
            from <= p.rest.offset && p.rest.Agrees(written) && done + p.data == written[from..p.rest.offset]
  {
    PopSound(mid, written);
  }

  lemma FrameHanded(before: RecvBuf, off: nat, data: seq<byte>, after: RecvBuf, chunks: seq<seq<byte>>)
    requires before.Valid() && HandsOn(before.Push(off, data), after, chunks)
    ensures Handed(before, off, data, after, chunks)
  {
    PushSound(before, off, data, []);
    forall written | before.Agrees(written) && Segment(off, data).PieceOf(written)
      ensures after.Agrees(written) && Concat(chunks) == written[before.offset..after.offset]
    {
      PushSound(before, off, data, written);
    }
  }

  lemma KeepsBuffer(w: Windows, p: Pair, offset: nat)
    ensures Consumed(w, p, offset).s.recv == p.s.recv
  {
  }
}
