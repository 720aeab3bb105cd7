/** Building a packet: taking bytes, FIN and RESET_STREAM out of the sending sides and
    into the record of the packet that carries them. */
module QuicDraft {
  import opened Arithmetic
  import opened QuicSpans
  import opened QuicSendBuffer
  import opened QuicStreamSend
  import opened QuicPackets
  import opened QuicHeld

  /** One thing put into the packet being built. Sizes are whatever room there was. */
  datatype Take =
    | TakeLost(k: nat, n: nat)
    | TakeNew(k: nat, n: nat)
    | TakeFin(k: nat)
    | TakeReset(k: nat)
    | TakeControl

  /** A packet under construction. wire is everything the connection ever emitted. */
  datatype Draft = Draft(outs: seq<Out>, frames: seq<SentFrame>, sentData: nat, wire: seq<Sent>)

  /** sendCredit: new bytes allowed by the stream's limit and the connection's. */
  function Credit(o: Out, sentData: nat, peerMaxData: nat): nat {
    if o.buf.next >= o.sendMax || sentData >= peerMaxData then 0
    else Min(o.sendMax - o.buf.next, peerMaxData - sentData)
  }

  /** appendStreamFrame, or a CRYPTO frame, for bytes that were just popped. */
  function Emit(d: Draft, k: nat, pop: Pop): Draft
    requires k < |d.outs|
  {
    var o := d.outs[k].(buf := pop.rest);
    var end := pop.off + |pop.data|;
    var fin := o.FinAt(end);
    d.(outs := d.outs[k := o.Emit(end)],
       frames := d.frames + [Data(k, pop.off, |pop.data|, fin)],
       wire := d.wire + [SentData(k, pop.off, pop.data, fin)])
  }

  /** A take that does not apply changes nothing. */
  function TakeOne(d: Draft, i: nat, t: Take, peerMaxData: nat): Draft
    requires AllValid(d.outs)
  {
    match t
    case TakeLost(k, n) =>
      if k < |d.outs| && SpaceOf(k) == i && !d.outs[k].reset then
        var pop := d.outs[k].buf.PopLost(n);
        if pop.data == [] then d.(outs := d.outs[k := d.outs[k].(buf := pop.rest)]) else Emit(d, k, pop)
      else d
    case TakeNew(k, n) =>
      if k < |d.outs| && SpaceOf(k) == i && !d.outs[k].reset then
        var m := if k < 3 then n else Min(n, Credit(d.outs[k], d.sentData, peerMaxData));
        var pop := d.outs[k].buf.PopNew(m);
        if pop.data == [] then d
        else Emit(d, k, pop).(sentData := if k < 3 then d.sentData else d.sentData + |pop.data|)
      else d
    case TakeFin(k) =>
      if k < |d.outs| && SpaceOf(k) == i && !d.outs[k].reset && d.outs[k].finQueued && !d.outs[k].finSent
         && d.outs[k].buf.next == d.outs[k].buf.End()
      then Emit(d, k, Pop(d.outs[k].buf, d.outs[k].buf.next, []))
      else d
    case TakeReset(k) =>
      if 3 <= k < |d.outs| && i == 2 && d.outs[k].resetPending then
        d.(outs := d.outs[k := d.outs[k].(resetPending := false)],
           frames := d.frames + [Reset(k)],
           wire := d.wire + [SentReset(k, d.outs[k].finalSize)])
      else d
    case TakeControl => d.(frames := d.frames + [Control])
  }

  function Carrying(frames: seq<SentFrame>): Packet { Packet(0, 0, 0, true, true, frames) }

  /** Everything is held by the packets sent before or by the packet being built. */
  ghost predicate GoodDraft(d: Draft, i: nat, held: seq<Packet>) {
    AllValid(d.outs) && Good(d.outs, i, held + [Carrying(d.frames)])
  }

  /** o' is o after the bytes of f were taken from it. */
  ghost predicate Taken(o: Out, o': Out, f: SentFrame) {
    && f.Data? && !o.reset && o'.Valid()
    && o' == o.(buf := o'.buf, finSent := o'.finSent)
    && o'.finSent == (o.finSent || f.fin)
    && o'.buf.base == o.buf.base && o'.buf.buf == o.buf.buf && o'.buf.acked == o.buf.acked
    && o.buf.next <= o'.buf.next && f.off + f.n <= o'.buf.next
    && (f.fin ==> o.finQueued && f.off + f.n == o.finalSize == o'.buf.next)
    && (forall x :: o.buf.base <= x < o.buf.next && Covers(o.buf.lost, x) ==> Covers(o'.buf.lost, x) || f.Has(f.k, x))
    && (o.buf.next < o'.buf.next ==> f.off <= o.buf.next && o'.buf.next <= f.off + f.n)
  }

  lemma MoreFrames(held: seq<Packet>, fs: seq<SentFrame>, f: SentFrame, k: nat)
    ensures forall x :: HasByte(held + [Carrying(fs)], k, x) || f.Has(k, x) ==>
              HasByte(held + [Carrying(fs + [f])], k, x)
    ensures HasFin(held + [Carrying(fs)], k) || (f.Data? && f.k == k && f.fin) ==>
              HasFin(held + [Carrying(fs + [f])], k)
    ensures HasReset(held + [Carrying(fs)], k) || f == Reset(k) ==> HasReset(held + [Carrying(fs + [f])], k)
  {
    var a, b := held + [Carrying(fs)], held + [Carrying(fs + [f])];
    var p := Carrying(fs + [f]);
    assert p in b && f in p.frames && forall g :: g in fs ==> g in p.frames;
    assert forall q :: q in a ==> q == Carrying(fs) || q in b;
    if HasReset(a, k) {
      var q :| q in a && Reset(k) in q.frames;
      assert q in b || Reset(k) in p.frames;
    }
  }

  lemma FrameStaysOk(outs: seq<Out>, k: nat, o': Out, f: SentFrame, i: nat, g: SentFrame)
    requires AllValid(outs) && k < |outs| && Taken(outs[k], o', f) && FrameOk(outs, i, g)
    ensures FrameOk(outs[k := o'], i, g)
  {
  }

  lemma TakenGood(outs: seq<Out>, i: nat, held: seq<Packet>, fs: seq<SentFrame>, k: nat, o': Out, f: SentFrame)
    requires AllValid(outs) && Good(outs, i, held + [Carrying(fs)])
    requires k < |outs| && SpaceOf(k) == i && Taken(outs[k], o', f) && f.k == k
    ensures Good(outs[k := o'], i, held + [Carrying(fs + [f])])
  {
    var next, b := outs[k := o'], held + [Carrying(fs + [f])];
    forall q, g | q in b && g in q.frames ensures FrameOk(next, i, g) {
      if g != f {
        assert q in held || q == Carrying(fs + [f]);
        assert Carrying(fs) in held + [Carrying(fs)];
        assert FrameOk(outs, i, g) by {
          if q in held {
            assert q in held + [Carrying(fs)];
          }
        }
        FrameStaysOk(outs, k, o', f, i, g);
      }
    }
    forall j | 0 <= j < |next| && SpaceOf(j) == i ensures Safe(next[j], j, b) {
      assert Safe(outs[j], j, held + [Carrying(fs)]);
      MoreFrames(held, fs, f, j);
    }
  }

  lemma PopLostTaken(o: Out, k: nat, n: nat)
    requires o.Valid() && !o.reset && o.buf.PopLost(n).data != []
    ensures var pop := o.buf.PopLost(n);
            var end := pop.off + |pop.data|;
            var o' := o.(buf := pop.rest);
            Taken(o, o'.Emit(end), Data(k, pop.off, |pop.data|, o'.FinAt(end)))
  {
    PopLostSound(o.buf, n);
    var pop := o.buf.PopLost(n);
    var f := Data(k, pop.off, |pop.data|, false);
    assert forall x :: f.Has(k, x) <==> pop.off <= x < pop.off + |pop.data|;
  }

  lemma PopNewTaken(o: Out, k: nat, n: nat)
    requires o.Valid() && !o.reset
    ensures var pop := o.buf.PopNew(n);
            var end := pop.off + |pop.data|;
            var o' := o.(buf := pop.rest);
            Taken(o, o'.Emit(end), Data(k, pop.off, |pop.data|, o'.FinAt(end)))
  {
    PopNewSound(o.buf, n);
  }

  /** Trimming or marking RESET_STREAM as sent leaves everything held. */
  lemma TrimGood(outs: seq<Out>, i: nat, ps: seq<Packet>, k: nat)
    requires AllValid(outs) && Good(outs, i, ps) && k < |outs| && SpaceOf(k) == i
    ensures AllValid(outs[k := outs[k].(buf := outs[k].buf.Trim())])
    ensures Good(outs[k := outs[k].(buf := outs[k].buf.Trim())], i, ps)
  {
    TrimSound(outs[k].buf.lost, outs[k].buf.base, outs[k].buf.next);
    var next := outs[k := outs[k].(buf := outs[k].buf.Trim())];
    assert Evolves(outs, next);
    forall p | p in ps ensures FramesOk(next, i, p.frames) {
      EvolvesKeepsFrames(outs, next, i, p.frames);
    }
  }

  lemma ResetTakenGood(outs: seq<Out>, held: seq<Packet>, fs: seq<SentFrame>, k: nat)
    requires AllValid(outs) && Good(outs, 2, held + [Carrying(fs)])
    requires 3 <= k < |outs| && outs[k].resetPending
    ensures AllValid(outs[k := outs[k].(resetPending := false)])
    ensures Good(outs[k := outs[k].(resetPending := false)], 2, held + [Carrying(fs + [Reset(k)])])
  {
    var next := outs[k := outs[k].(resetPending := false)];
    assert Evolves(outs, next);
    AppendOk(outs, next, 2, held, fs, Reset(k));
    forall j | 0 <= j < |next| && SpaceOf(j) == 2 ensures Safe(next[j], j, held + [Carrying(fs + [Reset(k)])]) {
      assert Safe(outs[j], j, held + [Carrying(fs)]);
      MoreFrames(held, fs, Reset(k), j);
    }
  }

  lemma AppendOk(outs: seq<Out>, next: seq<Out>, i: nat, held: seq<Packet>, fs: seq<SentFrame>, f: SentFrame)
    requires Evolves(outs, next) && PacketsOk(outs, i, held + [Carrying(fs)]) && FrameOk(next, i, f)
    ensures PacketsOk(next, i, held + [Carrying(fs + [f])])
  {
    assert Carrying(fs) in held + [Carrying(fs)];
    EvolvesKeepsFrames(outs, next, i, Carrying(fs).frames);
    forall q | q in held ensures FramesOk(next, i, q.frames) {
      assert q in held + [Carrying(fs)];
      EvolvesKeepsFrames(outs, next, i, q.frames);
    }
  }

  /** Whatever is put into a packet, nothing is stranded. */
  lemma TakeOneGood(d: Draft, i: nat, t: Take, peerMaxData: nat, held: seq<Packet>)
    requires GoodDraft(d, i, held)
    ensures GoodDraft(TakeOne(d, i, t, peerMaxData), i, held)
  {
    match t
    case TakeLost(k, n) =>
      if k < |d.outs| && SpaceOf(k) == i && !d.outs[k].reset {
        var pop := d.outs[k].buf.PopLost(n);
        PopLostSound(d.outs[k].buf, n);
        if pop.data == [] {
          TrimGood(d.outs, i, held + [Carrying(d.frames)], k);
        } else {
          PopLostTaken(d.outs[k], k, n);
          EmitGood(d, i, k, pop, held);
        }
      }
    case TakeNew(k, n) =>
      if k < |d.outs| && SpaceOf(k) == i && !d.outs[k].reset {
        var m := if k < 3 then n else Min(n, Credit(d.outs[k], d.sentData, peerMaxData));
        PopNewTaken(d.outs[k], k, m);
        EmitGood(d, i, k, d.outs[k].buf.PopNew(m), held);
      }
    case TakeFin(k) =>
      if k < |d.outs| && SpaceOf(k) == i && !d.outs[k].reset && d.outs[k].finQueued
         && d.outs[k].buf.next == d.outs[k].buf.End() {
        EmitGood(d, i, k, Pop(d.outs[k].buf, d.outs[k].buf.next, []), held);
      }
    case TakeReset(k) =>
      if 3 <= k < |d.outs| && i == 2 && d.outs[k].resetPending {
        ResetTakenGood(d.outs, held, d.frames, k);
      }
    case TakeControl =>
      AppendOk(d.outs, d.outs, i, held, d.frames, Control);
      forall k | 0 <= k < |d.outs| && SpaceOf(k) == i
        ensures Safe(d.outs[k], k, held + [Carrying(d.frames + [Control])])
      {
        MoreFrames(held, d.frames, Control, k);
      }
  }

  lemma EmitGood(d: Draft, i: nat, k: nat, pop: Pop, held: seq<Packet>)
    requires GoodDraft(d, i, held) && k < |d.outs| && SpaceOf(k) == i
    requires var end := pop.off + |pop.data|;
             var o' := d.outs[k].(buf := pop.rest);
             Taken(d.outs[k], o'.Emit(end), Data(k, pop.off, |pop.data|, o'.FinAt(end)))
    ensures GoodDraft(Emit(d, k, pop), i, held)
  {
    var end := pop.off + |pop.data|;
    var o' := d.outs[k].(buf := pop.rest);
    TakenGood(d.outs, i, held, d.frames, k, o'.Emit(end), Data(k, pop.off, |pop.data|, o'.FinAt(end)));
  }

  lemma TakeOneElsewhere(d: Draft, i: nat, t: Take, peerMaxData: nat)
    requires AllValid(d.outs)
    ensures var r := TakeOne(d, i, t, peerMaxData).outs;
            |r| == |d.outs| && forall k :: 0 <= k < |d.outs| && SpaceOf(k) != i ==> r[k] == d.outs[k]
  {
  }

  /** Filling a packet, one take after another. */
  function TakeAll(d: Draft, i: nat, ts: seq<Take>, peerMaxData: nat, ghost held: seq<Packet>): (r: Draft)
    requires GoodDraft(d, i, held)
    ensures GoodDraft(r, i, held)
    ensures |r.outs| == |d.outs|
    ensures forall k :: 0 <= k < |d.outs| && SpaceOf(k) != i ==> r.outs[k] == d.outs[k]
    decreases |ts|
  {
    if ts == [] then d
    else
      TakeOneGood(d, i, ts[0], peerMaxData, held);
      TakeOneElsewhere(d, i, ts[0], peerMaxData);
      TakeAll(TakeOne(d, i, ts[0], peerMaxData), i, ts[1..], peerMaxData, held)
  }

  /** How many stream bytes have been sent for the first time. */
  function SumNext(outs: seq<Out>): nat {
    if |outs| <= 3 then 0 else SumNext(outs[..|outs| - 1]) + outs[|outs| - 1].buf.next
  }

  lemma {:induction false} SumNextUpdate(outs: seq<Out>, k: nat, o: Out)
    requires k < |outs|
    ensures SumNext(outs[k := o]) == SumNext(outs) + if k < 3 then 0 else o.buf.next - outs[k].buf.next
  {
    if |outs| > 3 {
      var init := outs[..|outs| - 1];
      if k == |outs| - 1 {
        assert outs[k := o][..|outs| - 1] == init;
      } else {
        SumNextUpdate(init, k, o);
        assert outs[k := o][..|outs| - 1] == init[k := o];
      }
    }
  }

  lemma {:induction false} SumNextSame(a: seq<Out>, b: seq<Out>)
    requires |a| == |b| && forall k :: 3 <= k < |a| ==> a[k].buf.next == b[k].buf.next
    ensures SumNext(a) == SumNext(b)
  {
    if |a| > 3 {
      SumNextSame(a[..|a| - 1], b[..|b| - 1]);
    }
  }

  /** Flow control as the sender has to respect it. */
  ghost predicate FlowOk(outs: seq<Out>, sentData: nat, peerMaxData: nat) {
    && sentData == SumNext(outs) && sentData <= peerMaxData
    && forall k :: 3 <= k < |outs| ==> outs[k].buf.next <= outs[k].sendMax
  }

  /** Everything a stream ever put on the wire fits the one final size it may have. */
  ghost predicate WireFits(outs: seq<Out>, e: Sent) {
    3 <= e.k ==>
      && e.k < |outs|
      && var o := outs[e.k];
         match e
         case SentData(_, off, data, fin) =>
           && off + |data| <= o.buf.next
           && (fin ==> (o.finQueued || o.reset) && off + |data| == o.finalSize == o.buf.next)
         case SentReset(_, size) => o.reset && size == o.finalSize
  }

  ghost predicate WireOk(outs: seq<Out>, wire: seq<Sent>) {
    forall e :: e in wire ==> WireFits(outs, e)
  }

  lemma TakenWireFits(outs: seq<Out>, k: nat, o': Out, f: SentFrame, e: Sent)
    requires AllValid(outs) && k < |outs| && Taken(outs[k], o', f) && WireFits(outs, e)
    ensures WireFits(outs[k := o'], e)
  {
  }

  lemma EmitWire(d: Draft, k: nat, pop: Pop)
    requires AllValid(d.outs) && WireOk(d.outs, d.wire) && k < |d.outs|
    requires var end := pop.off + |pop.data|;
             var o' := d.outs[k].(buf := pop.rest);
             Taken(d.outs[k], o'.Emit(end), Data(k, pop.off, |pop.data|, o'.FinAt(end)))
    ensures WireOk(Emit(d, k, pop).outs, Emit(d, k, pop).wire)
  {
    var end := pop.off + |pop.data|;
    var o' := d.outs[k].(buf := pop.rest);
    forall e | e in d.wire ensures WireFits(Emit(d, k, pop).outs, e) {
      TakenWireFits(d.outs, k, o'.Emit(end), Data(k, pop.off, |pop.data|, o'.FinAt(end)), e);
    }
  }

  lemma TakeNewFlow(d: Draft, k: nat, n: nat, peerMaxData: nat)
    requires AllValid(d.outs) && FlowOk(d.outs, d.sentData, peerMaxData) && k < |d.outs|
    ensures var m := if k < 3 then n else Min(n, Credit(d.outs[k], d.sentData, peerMaxData));
            var pop := d.outs[k].buf.PopNew(m);
            var sent := if k < 3 then d.sentData else d.sentData + |pop.data|;
            FlowOk(Emit(d, k, pop).outs, sent, peerMaxData)
  {
    var m := if k < 3 then n else Min(n, Credit(d.outs[k], d.sentData, peerMaxData));
    PopNewSound(d.outs[k].buf, m);
    var pop := d.outs[k].buf.PopNew(m);
    SumNextUpdate(d.outs, k, Emit(d, k, pop).outs[k]);
  }

  /** Filling a packet respects every limit, resends included. */
  lemma TakeOneFlow(d: Draft, i: nat, t: Take, peerMaxData: nat)
    requires AllValid(d.outs) && FlowOk(d.outs, d.sentData, peerMaxData)
    ensures var r := TakeOne(d, i, t, peerMaxData);
            FlowOk(r.outs, r.sentData, peerMaxData)
  {
    if t.TakeNew? {
      if t.k < |d.outs| && SpaceOf(t.k) == i && !d.outs[t.k].reset {
        TakeNewFlow(d, t.k, t.n, peerMaxData);
      }
    } else {
      TakenOnly(d, i, t, peerMaxData);
      FlowSame(d.outs, TakeOne(d, i, t, peerMaxData).outs, d.sentData, peerMaxData);
    }
  }

  /** A take of anything else sends no byte for the first time. */
  lemma TakenOnly(d: Draft, i: nat, t: Take, peerMaxData: nat)
    requires AllValid(d.outs) && !t.TakeNew?
    ensures var r := TakeOne(d, i, t, peerMaxData); r.sentData == d.sentData && SameNext(d.outs, r.outs)
  {
    if t.TakeLost? && t.k < |d.outs| {
      PopLostSound(d.outs[t.k].buf, t.n);
    }
  }

  ghost predicate SameNext(a: seq<Out>, b: seq<Out>) {
    |a| == |b| && forall k :: 3 <= k < |a| ==> a[k].buf.next == b[k].buf.next && a[k].sendMax == b[k].sendMax
  }

  lemma FlowSame(a: seq<Out>, b: seq<Out>, sentData: nat, peerMaxData: nat)
    requires SameNext(a, b) && FlowOk(a, sentData, peerMaxData)
    ensures FlowOk(b, sentData, peerMaxData)
  {
    SumNextSame(a, b);
  }

  /** Filling a packet keeps every final size announced so far true. */
  lemma TakeOneWire(d: Draft, i: nat, t: Take, peerMaxData: nat)
    requires AllValid(d.outs) && WireOk(d.outs, d.wire)
    ensures var r := TakeOne(d, i, t, peerMaxData);
            WireOk(r.outs, r.wire)
  {
    match t
    case TakeLost(k, n) =>
      if k < |d.outs| && SpaceOf(k) == i && !d.outs[k].reset {
        PopLostSound(d.outs[k].buf, n);
        if d.outs[k].buf.PopLost(n).data != [] {
          PopLostTaken(d.outs[k], k, n);
          EmitWire(d, k, d.outs[k].buf.PopLost(n));
        }
      }
    case TakeNew(k, n) =>
      if k < |d.outs| && SpaceOf(k) == i && !d.outs[k].reset {
        var m := if k < 3 then n else Min(n, Credit(d.outs[k], d.sentData, peerMaxData));
        PopNewTaken(d.outs[k], k, m);
        EmitWire(d, k, d.outs[k].buf.PopNew(m));
      }
    case TakeFin(k) =>
      if k < |d.outs| && SpaceOf(k) == i && !d.outs[k].reset && d.outs[k].finQueued
         && d.outs[k].buf.next == d.outs[k].buf.End() {
        EmitWire(d, k, Pop(d.outs[k].buf, d.outs[k].buf.next, []));
      }
    case TakeReset(k) =>
    case TakeControl =>
  }

  lemma {:induction false} TakeAllLimits(d: Draft, i: nat, ts: seq<Take>, peerMaxData: nat, held: seq<Packet>)
    requires GoodDraft(d, i, held) && FlowOk(d.outs, d.sentData, peerMaxData) && WireOk(d.outs, d.wire)
    ensures var r := TakeAll(d, i, ts, peerMaxData, held);
            FlowOk(r.outs, r.sentData, peerMaxData) && WireOk(r.outs, r.wire)
    decreases |ts|
  {
    if ts != [] {
      TakeOneGood(d, i, ts[0], peerMaxData, held);
      TakeOneFlow(d, i, ts[0], peerMaxData);
      TakeOneWire(d, i, ts[0], peerMaxData);
      TakeAllLimits(TakeOne(d, i, ts[0], peerMaxData), i, ts[1..], peerMaxData, held);
    }
  }
}
