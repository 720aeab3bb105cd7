/** The sending side of one stream: its buffer, its limit and the FIN and RESET_STREAM
    that end it. The CRYPTO stream of a packet number space is the case with neither. */
module QuicStreamSend {
  import opened Bytes
  import opened QuicSendBuffer

  /** A frame as a sent packet remembers it: stream data, or RESET_STREAM. k numbers
      the sending sides of the connection. */
  datatype SentFrame =
    | Data(k: nat, off: nat, n: nat, fin: bool)
    | Reset(k: nat)
    | Control {

    ghost predicate Has(key: nat, x: int) { Data? && k == key && off <= x < off + n }
  }

  /** What a frame leaves on the wire for the peer to see. */
  datatype Sent = SentData(k: nat, off: nat, data: seq<byte>, fin: bool) | SentReset(k: nat, finalSize: nat)

  datatype Out = Out(buf: SendBuf, sendMax: nat, finQueued: bool, finSent: bool, finAcked: bool,
                     finalSize: nat, reset: bool, resetPending: bool, resetAcked: bool, done: bool) {

    /** What every operation keeps. */
    ghost predicate Valid() {
      && buf.Valid()
      && (finQueued && !reset ==> finalSize == buf.End())
      && (reset ==> finalSize == buf.next == buf.base && buf.buf == [])
      && (finSent && !reset ==> finQueued && buf.next == finalSize)
      && (done ==> SendDone())
      && (finAcked ==> finQueued && buf.next == finalSize)
      && (resetPending || resetAcked ==> reset)
    }

    predicate SendDone() {
      if reset then resetAcked else finAcked && buf.AllAcked()
    }

    /** writeLocked; a stream that is ended takes no more. */
    function Write(p: seq<byte>, fin: bool): Out {
      if finQueued || reset then this
      else if fin then this.(buf := buf.Write(p), finQueued := true, finalSize := buf.Write(p).End())
      else this.(buf := buf.Write(p))
    }

    /** resetLocked: the final size is what the peer may have seen. */
    function Abandon(): Out {
      if reset || finAcked then this
      else this.(reset := true, resetPending := true, finalSize := buf.next,
                 buf := SendBuf(buf.next, [], buf.next, [], []))
    }

    /** Whether a STREAM frame ending at end carries FIN. */
    predicate FinAt(end: nat) { finQueued && !finSent && end == finalSize }

    function Emit(end: nat): Out { if FinAt(end) then this.(finSent := true) else this }

    function OnDataAcked(off: nat, n: nat, fin: bool): Out
      requires buf.Valid() && off + n <= buf.next
    {
      if reset then this
      else this.(buf := buf.OnAck(off, n), finAcked := finAcked || fin)
    }

    function OnDataLost(off: nat, n: nat, fin: bool): Out
    {
      if reset || done then this
      else this.(buf := buf.OnLost(off, n), finSent := finSent && !(fin && !finAcked))
    }

    function OnResetAcked(): Out { this.(resetAcked := true) }

    function OnResetLost(): Out {
      if !resetAcked && !done then this.(resetPending := true) else this
    }
  }

  lemma AckedValid(o: Out, off: nat, n: nat, fin: bool)
    requires o.Valid() && off + n <= o.buf.next
    requires fin && !o.reset ==> o.finQueued && o.buf.next == o.finalSize
    ensures o.OnDataAcked(off, n, fin).Valid()
  {
    if !o.reset {
      OnAckSound(o.buf, off, n);
    }
  }

  lemma LostValid(o: Out, off: nat, n: nat, fin: bool)
    requires o.Valid() && off + n <= o.buf.next
    ensures o.OnDataLost(off, n, fin).Valid()
  {
    if !o.reset && !o.done {
      OnLostSound(o.buf, off, n);
    }
  }

  const FRESH := Out(EMPTY, 0, false, false, false, 0, false, false, false, false)
}
