/** What a connection puts on the wire, frame by frame, and that it is what the application wrote. */
module QuicWire {
  import opened Bytes
  import opened Arithmetic
  import opened QuicSpans
  import opened QuicSendBuffer
  import opened QuicStreamSend
  import opened QuicPackets
  import opened QuicHeld
  import opened QuicDraft
  import opened QuicSender
  import opened QuicSenderRun

  // One frame.

  /** The least of how much may go, how much is left, and what the two limits allow. */
  function Sendable(o: Out, n: nat, sentData: nat, peerMaxData: nat): int {
    Min(Min(n, o.buf.End() - o.buf.next), Min(Max(0, o.sendMax - o.buf.next), Max(0, peerMaxData - sentData)))
  }

  /** New stream data: the next bytes, as many as may go, with FIN exactly when they reach the end of a
      stream that is to end. */
  lemma NewDataGoes(d: Draft, k: nat, n: nat, peerMaxData: nat)
    requires AllValid(d.outs) && 3 <= k < |d.outs| && !d.outs[k].reset
    ensures var o, r := d.outs[k], TakeOne(d, 2, TakeNew(k, n), peerMaxData);
            var m := Sendable(o, n, d.sentData, peerMaxData);
            && m >= 0 && r.outs[k].buf.next == o.buf.next + m && r.sentData == d.sentData + m
            && (m > 0 ==>
                  && r.wire == d.wire + [SentData(k, o.buf.next, o.buf.buf[o.buf.next - o.buf.base..][..m],
                                                  o.finQueued && o.buf.next + m == o.buf.End())]
                  && r.outs[k].finSent == (o.finQueued && o.buf.next + m == o.buf.End()))
            && (m == 0 ==> r == d)
  {
    var o := d.outs[k];
    var pop := o.buf.PopNew(Min(n, Credit(o, d.sentData, peerMaxData)));
    PopNewSound(o.buf, Min(n, Credit(o, d.sentData, peerMaxData)));
    var m := Sendable(o, n, d.sentData, peerMaxData);
    assert |pop.data| == m;
    assert o.buf.buf[o.buf.next - o.buf.base..][..m] == o.buf.buf[o.buf.next - o.buf.base..o.buf.next - o.buf.base + m];
  }

  /** Handshake data is under no limit and has no FIN. */
  lemma CryptoGoes(d: Draft, k: nat, n: nat, peerMaxData: nat)
    requires AllValid(d.outs) && k < 3 && k < |d.outs| && !d.outs[k].reset && !d.outs[k].finQueued
    ensures var o, r := d.outs[k], TakeOne(d, k, TakeNew(k, n), peerMaxData);
            var m := Min(n, o.buf.End() - o.buf.next);
            && r.outs[k].buf.next == o.buf.next + m && r.sentData == d.sentData
            && (m > 0 ==>
                  r.wire == d.wire + [SentData(k, o.buf.next, o.buf.buf[o.buf.next - o.buf.base..][..m], false)])
  {
    var o := d.outs[k];
    PopNewSound(o.buf, n);
    var m := Min(n, o.buf.End() - o.buf.next);
    assert o.buf.buf[o.buf.next - o.buf.base..][..m] == o.buf.buf[o.buf.next - o.buf.base..o.buf.next - o.buf.base + m];
  }

  /** Lost data goes again from its first byte on, as much as may go, with FIN when it reaches the end and
      no FIN is on its way. */
  lemma LostDataGoes(d: Draft, k: nat, n: nat, peerMaxData: nat)
    requires AllValid(d.outs) && k < |d.outs| && !d.outs[k].reset
    ensures var o, r := d.outs[k], TakeOne(d, SpaceOf(k), TakeLost(k, n), peerMaxData);
            var off := o.buf.PopLost(n).off;
            var m := |o.buf.PopLost(n).data|;
            && r.sentData == d.sentData
            && (m == 0 <==> n == 0 || forall x :: o.buf.base <= x ==> !Covers(o.buf.lost, x))
            && (m > 0 ==>
                  && o.buf.base <= off && off + m <= o.buf.next
                  && (forall x :: o.buf.base <= x < off ==> !Covers(o.buf.lost, x))
                  && (m == n || !Covers(o.buf.lost, off + m)) && m <= n
                  && r.wire == d.wire + [SentData(k, off, o.buf.buf[off - o.buf.base..][..m],
                                                  o.finQueued && !o.finSent && off + m == o.buf.End())])
            && (m == 0 ==> r.wire == d.wire)
  {
    var o := d.outs[k];
    PopLostSound(o.buf, n);
    PopLostTakes(o.buf, n);
    var off, m := o.buf.PopLost(n).off, |o.buf.PopLost(n).data|;
    if m > 0 {
      assert o.buf.buf[off - o.buf.base..][..m] == o.buf.buf[off - o.buf.base..off - o.buf.base + m];
    }
  }

  /** A FIN goes alone if and only if it is due and all data has gone; a RESET_STREAM if and only if it is
      due. */
  lemma EndGoes(d: Draft, k: nat, peerMaxData: nat)
    requires AllValid(d.outs) && 3 <= k < |d.outs|
    ensures var o, r := d.outs[k], TakeOne(d, 2, TakeFin(k), peerMaxData);
            if !o.reset && o.finQueued && !o.finSent && o.buf.next == o.buf.End()
            then r.wire == d.wire + [SentData(k, o.buf.End(), [], true)] && r.outs[k].finSent
            else r == d
    ensures var o, r := d.outs[k], TakeOne(d, 2, TakeReset(k), peerMaxData);
            if o.resetPending
            then r.wire == d.wire + [SentReset(k, o.finalSize)] && !r.outs[k].resetPending
            else r == d
  {
  }

  /** Resetting a stream announces what has been sent as its final size; a stream that is reset, or whose
      end is acknowledged, cannot be. */
  lemma ResetAnnounces(o: Out)
    requires o.Valid()
    ensures var r := o.Abandon();
            if o.reset || o.finAcked then r == o
            else r.reset && r.resetPending && r.finalSize == o.buf.next && r.buf.buf == []
  {
  }

  // Every run: the bytes are the application's.

  /** h is all that has been written to a sending side; what it still holds is the end of that. */
  ghost predicate Told(o: Out, h: seq<byte>) {
    o.buf.next <= |h| && (!o.reset ==> o.buf.Holds(h))
  }

  ghost predicate AllTold(outs: seq<Out>, hs: seq<seq<byte>>) {
    |hs| == |outs| && forall k :: 3 <= k < |outs| ==> Told(outs[k], hs[k])
  }

  ghost predicate TrueOf(hs: seq<seq<byte>>, e: Sent) {
    e.SentData? && e.k >= 3 ==>
      e.k < |hs| && e.off + |e.data| <= |hs[e.k]| && e.data == hs[e.k][e.off..e.off + |e.data|]
  }

  ghost predicate WireTrue(hs: seq<seq<byte>>, wire: seq<Sent>) { forall e :: e in wire ==> TrueOf(hs, e) }

  lemma PieceTold(o: Out, h: seq<byte>, off: nat, data: seq<byte>)
    requires o.Valid() && !o.reset && Told(o, h) && o.buf.base <= off && off + |data| <= o.buf.End()
    requires data == o.buf.buf[off - o.buf.base..off - o.buf.base + |data|]
    ensures off + |data| <= |h| && data == h[off..off + |data|]
  {
    assert h[o.buf.base..][off - o.buf.base..off - o.buf.base + |data|] == h[off..off + |data|];
  }

  lemma EmitTrue(d: Draft, k: nat, pop: Pop, hs: seq<seq<byte>>)
    requires AllValid(d.outs) && AllTold(d.outs, hs) && WireTrue(hs, d.wire) && k < |d.outs| && !d.outs[k].reset
    requires var b := d.outs[k].buf;
             && pop.rest == b.(lost := pop.rest.lost, next := pop.rest.next) && b.next <= pop.rest.next <= b.End()
             && b.base <= pop.off && pop.off + |pop.data| <= b.End()
             && pop.data == b.buf[pop.off - b.base..pop.off - b.base + |pop.data|]
    ensures AllTold(Emit(d, k, pop).outs, hs) && WireTrue(hs, Emit(d, k, pop).wire)
  {
    if k >= 3 {
      PieceTold(d.outs[k], hs[k], pop.off, pop.data);
    }
  }

  lemma TakeLostTrue(d: Draft, i: nat, k: nat, n: nat, peerMaxData: nat, hs: seq<seq<byte>>)
    requires AllValid(d.outs) && AllTold(d.outs, hs) && WireTrue(hs, d.wire)
    ensures var r := TakeOne(d, i, TakeLost(k, n), peerMaxData); AllTold(r.outs, hs) && WireTrue(hs, r.wire)
  {
    if k < |d.outs| && SpaceOf(k) == i && !d.outs[k].reset {
      var pop := d.outs[k].buf.PopLost(n);
      PopLostSound(d.outs[k].buf, n);
      if pop.data != [] {
        EmitTrue(d, k, pop, hs);
      }
    }
  }

  lemma TakeNewTrue(d: Draft, i: nat, k: nat, n: nat, peerMaxData: nat, hs: seq<seq<byte>>)
    requires AllValid(d.outs) && AllTold(d.outs, hs) && WireTrue(hs, d.wire)
    ensures var r := TakeOne(d, i, TakeNew(k, n), peerMaxData); AllTold(r.outs, hs) && WireTrue(hs, r.wire)
  {
    if k < |d.outs| && SpaceOf(k) == i && !d.outs[k].reset {
      var m := if k < 3 then n else Min(n, Credit(d.outs[k], d.sentData, peerMaxData));
      PopNewSound(d.outs[k].buf, m);
      EmitTrue(d, k, d.outs[k].buf.PopNew(m), hs);
    }
  }

  lemma TakeEndTrue(d: Draft, i: nat, t: Take, peerMaxData: nat, hs: seq<seq<byte>>)
    requires AllValid(d.outs) && AllTold(d.outs, hs) && WireTrue(hs, d.wire) && !t.TakeLost? && !t.TakeNew?
    ensures var r := TakeOne(d, i, t, peerMaxData); AllTold(r.outs, hs) && WireTrue(hs, r.wire)
  {
    if t.TakeFin? && t.k < |d.outs| && !d.outs[t.k].reset {
      EmitTrue(d, t.k, Pop(d.outs[t.k].buf, d.outs[t.k].buf.next, []), hs);
    }
  }

  lemma TakeOneTrue(d: Draft, i: nat, t: Take, peerMaxData: nat, hs: seq<seq<byte>>)
    requires AllValid(d.outs) && AllTold(d.outs, hs) && WireTrue(hs, d.wire)
    ensures var r := TakeOne(d, i, t, peerMaxData); AllTold(r.outs, hs) && WireTrue(hs, r.wire)
  {
    if t.TakeLost? {
      TakeLostTrue(d, i, t.k, t.n, peerMaxData, hs);
    } else if t.TakeNew? {
      TakeNewTrue(d, i, t.k, t.n, peerMaxData, hs);
    } else {
      TakeEndTrue(d, i, t, peerMaxData, hs);
    }
  }

  lemma {:induction false} TakeAllTrue(d: Draft, i: nat, ts: seq<Take>, peerMaxData: nat, held: seq<Packet>,
                                       hs: seq<seq<byte>>)
    requires GoodDraft(d, i, held) && AllTold(d.outs, hs) && WireTrue(hs, d.wire)
    ensures var r := TakeAll(d, i, ts, peerMaxData, held); AllTold(r.outs, hs) && WireTrue(hs, r.wire)
    decreases |ts|
  {
    if ts != [] {
      TakeOneGood(d, i, ts[0], peerMaxData, held);
      TakeOneTrue(d, i, ts[0], peerMaxData, hs);
      TakeAllTrue(TakeOne(d, i, ts[0], peerMaxData), i, ts[1..], peerMaxData, held, hs);
    }
  }

  // Acknowledgements and losses drop a prefix at most.

  ghost predicate SameTail(a: Out, b: Out) {
    && b.reset == a.reset && b.buf.next == a.buf.next
    && (!a.reset ==>
          && a.buf.base <= b.buf.base <= a.buf.End() == b.buf.End()
          && b.buf.buf == a.buf.buf[b.buf.base - a.buf.base..])
  }

  ghost predicate SameTails(a: seq<Out>, b: seq<Out>) {
    |a| == |b| && forall k :: 0 <= k < |a| ==> SameTail(a[k], b[k])
  }

  lemma SameTailTrans(a: Out, b: Out, c: Out)
    requires SameTail(a, b) && SameTail(b, c)
    ensures SameTail(a, c)
  {
  }

  lemma SameTailsTrans(a: seq<Out>, b: seq<Out>, c: seq<Out>)
    requires SameTails(a, b) && SameTails(b, c)
    ensures SameTails(a, c)
  {
    forall k | 0 <= k < |a| ensures SameTail(a[k], c[k]) {
      SameTailTrans(a[k], b[k], c[k]);
    }
  }

  lemma FrameAckedTail(outs: seq<Out>, i: nat, f: SentFrame)
    requires AllValid(outs) && FrameOk(outs, i, f)
    ensures SameTails(outs, FrameAcked(outs, i, f))
  {
    if f.Data? {
      OnAckSound(outs[f.k].buf, f.off, f.n);
    }
  }

  lemma FrameLostTail(outs: seq<Out>, i: nat, f: SentFrame)
    requires AllValid(outs) && FrameOk(outs, i, f)
    ensures SameTails(outs, FrameLost(outs, i, f))
  {
    if f.Data? {
      OnLostSound(outs[f.k].buf, f.off, f.n);
    }
  }

  lemma {:induction false} FramesAckedTail(outs: seq<Out>, i: nat, fs: seq<SentFrame>)
    requires AllValid(outs) && FramesOk(outs, i, fs)
    ensures SameTails(outs, FramesAcked(outs, i, fs))
    decreases |fs|
  {
    if fs != [] {
      var next := FrameAcked(outs, i, fs[0]);
      FrameAckedTail(outs, i, fs[0]);
      EvolvesKeepsFrames(outs, next, i, fs);
      FramesAckedTail(next, i, fs[1..]);
      SameTailsTrans(outs, next, FramesAcked(outs, i, fs));
    }
  }

  lemma {:induction false} FramesLostTail(outs: seq<Out>, i: nat, fs: seq<SentFrame>)
    requires AllValid(outs) && FramesOk(outs, i, fs)
    ensures SameTails(outs, FramesLost(outs, i, fs))
    decreases |fs|
  {
    if fs != [] {
      var next := FrameLost(outs, i, fs[0]);
      FrameLostTail(outs, i, fs[0]);
      EvolvesKeepsFrames(outs, next, i, fs);
      FramesLostTail(next, i, fs[1..]);
      SameTailsTrans(outs, next, FramesLost(outs, i, fs));
    }
  }

  lemma {:induction false} PacketsAckedTail(outs: seq<Out>, i: nat, ps: seq<Packet>)
    requires AllValid(outs) && PacketsOk(outs, i, ps)
    ensures SameTails(outs, PacketsAcked(outs, i, ps))
    decreases |ps|
  {
    if ps != [] {
      assert ps[0] in ps;
      var next := FramesAcked(outs, i, ps[0].frames);
      FramesAckedTail(outs, i, ps[0].frames);
      PacketsOkEvolves(outs, next, i, ps[1..]);
      PacketsAckedTail(next, i, ps[1..]);
      SameTailsTrans(outs, next, PacketsAcked(outs, i, ps));
    }
  }

  lemma {:induction false} PacketsLostTail(outs: seq<Out>, i: nat, ps: seq<Packet>)
    requires AllValid(outs) && PacketsOk(outs, i, ps)
    ensures SameTails(outs, PacketsLost(outs, i, ps))
    decreases |ps|
  {
    if ps != [] {
      assert ps[0] in ps;
      var next := FramesLost(outs, i, ps[0].frames);
      FramesLostTail(outs, i, ps[0].frames);
      PacketsOkEvolves(outs, next, i, ps[1..]);
      PacketsLostTail(next, i, ps[1..]);
      SameTailsTrans(outs, next, PacketsLost(outs, i, ps));
    }
  }

  lemma DetectTail(c: Conn, i: nat, now: int, lossDelay: nat)
    requires Shape(c) && i < 3
    ensures SameTails(c.outs, DetectLost(c, i, now, lossDelay).outs)
  {
    var s := c.spaces[i];
    if s.largestAcked >= 0 {
      SelectMembers(s.sent, LostP(s.largestAcked, now - lossDelay));
      PacketsOkSub(c.outs, i, s.sent, LostOf(s, now - lossDelay));
      PacketsLostTail(c.outs, i, LostOf(s, now - lossDelay));
    }
  }

  lemma AckTail(c: Conn, i: nat, ranges: seq<PnRange>, now: int, lossDelay: nat)
    requires Shape(c) && i < 3 && ranges != []
    ensures var r := OnAckReceived(c, i, ranges, now, lossDelay); r.Some? ==> SameTails(c.outs, r.value.outs)
  {
    var s := c.spaces[i];
    var acked := AckedOf(s, ranges);
    if ranges[0].hi < s.nextPN && acked != [] {
      var c1 := TakeAcked(c, i, ranges);
      var c2 := DetectLost(c1, i, now, lossDelay);
      DetectTail(c1, i, now, lossDelay);
      SelectMembers(s.sent, AckedP(ranges));
      PacketsOkSub(c.outs, i, s.sent, acked);
      PacketsOkEvolves(c.outs, c2.outs, i, acked);
      PacketsAckedTail(c2.outs, i, acked);
      SameTailsTrans(c.outs, c2.outs, PacketsAcked(c2.outs, i, acked));
    }
  }

  lemma ProbeTail(c: Conn, i: nat)
    requires Shape(c) && i < 3
    ensures SameTails(c.outs, Probe(c, i).outs)
  {
    var s := c.spaces[i];
    SelectMembers(s.sent, ElicitsP());
    PacketsOkSub(c.outs, i, s.sent, Probed(s, i));
    PacketsLostTail(c.outs, i, Probed(s, i));
  }

  lemma TailsTold(a: seq<Out>, b: seq<Out>, hs: seq<seq<byte>>)
    requires SameTails(a, b) && AllTold(a, hs)
    ensures AllTold(b, hs)
  {
    forall k | 3 <= k < |a| ensures Told(b[k], hs[k]) {
      assert SameTail(a[k], b[k]) && Told(a[k], hs[k]);
      if !a[k].reset {
        assert hs[k][a[k].buf.base..][b[k].buf.base - a[k].buf.base..] == hs[k][b[k].buf.base..];
      }
    }
  }

  // The history.

  /** What has been written to each sending side after a step. A stream that was ended takes no more. */
  ghost function Written(c: Conn, hs: seq<seq<byte>>, step: Step): seq<seq<byte>> {
    match step
    case Open(_) => hs + [[]]
    case WriteStream(k, p, _) =>
      if 3 <= k < |c.outs| == |hs| && !c.outs[k].finQueued && !c.outs[k].reset then hs[k := hs[k] + p] else hs
    case _ => hs
  }

  ghost predicate Faithful(c: Conn, hs: seq<seq<byte>>) { AllTold(c.outs, hs) && WireTrue(hs, c.wire) }

  lemma WriteTrue(c: Conn, hs: seq<seq<byte>>, k: nat, p: seq<byte>, fin: bool)
    requires Inv(c) && Faithful(c, hs) && 3 <= k < |c.outs|
    ensures Faithful(Next(c, WriteStream(k, p, fin)), Written(c, hs, WriteStream(k, p, fin)))
  {
    var o := c.outs[k];
    if !o.finQueued && !o.reset {
      var h := hs[k] + p;
      assert h[o.buf.base..] == hs[k][o.buf.base..] + p;
      forall e | e in c.wire ensures TrueOf(hs[k := h], e) {
        assert TrueOf(hs, e);
        if e.SentData? && e.k == k {
          assert h[e.off..e.off + |e.data|] == hs[k][e.off..e.off + |e.data|];
        }
      }
    }
  }

  lemma OpenTrue(c: Conn, hs: seq<seq<byte>>, sendMax: nat)
    requires Inv(c) && Faithful(c, hs)
    ensures Faithful(Next(c, Open(sendMax)), hs + [[]])
  {
    forall e | e in c.wire ensures TrueOf(hs + [[]], e) {
      assert TrueOf(hs, e);
    }
  }

  lemma SendTrue(c: Conn, hs: seq<seq<byte>>, i: nat, takes: seq<Take>, ping: bool, padded: bool, size: nat, now: int)
    requires Inv(c) && Faithful(c, hs) && i < 3
    ensures Faithful(Send(c, i, takes, ping, padded, size, now), hs)
  {
    StartDraft(c, i);
    TakeAllTrue(Draft(c.outs, [], c.sentData, c.wire), i, takes, c.peerMaxData, c.spaces[i].sent, hs);
  }

  lemma ResetTrue(c: Conn, hs: seq<seq<byte>>, k: nat, o: Out)
    requires Faithful(c, hs) && 3 <= k < |c.outs| && o.buf.next == c.outs[k].buf.next
    requires o.reset || (o.buf == c.outs[k].buf && o.reset == c.outs[k].reset)
    ensures Faithful(c.(outs := c.outs[k := o]), hs)
  {
  }

  lemma CryptoTrue(c: Conn, hs: seq<seq<byte>>, n: Conn, i: nat)
    requires Faithful(c, hs) && i < 3 && |c.outs| >= 3 && |n.outs| == |c.outs| && n.wire == c.wire
    requires forall k :: 3 <= k < |c.outs| ==> n.outs[k] == c.outs[k]
    ensures Faithful(n, hs)
  {
  }

  lemma AppTrue(c: Conn, hs: seq<seq<byte>>, step: Step)
    requires Inv(c) && Faithful(c, hs) && Enabled(c, step)
    requires step.Open? || step.WriteStream? || step.WriteCrypto? || step.ResetStream? || step.Finish?
    ensures Faithful(Next(c, step), Written(c, hs, step))
  {
    match step
    case Open(sendMax) => OpenTrue(c, hs, sendMax);
    case WriteStream(k, p, fin) => WriteTrue(c, hs, k, p, fin);
    case WriteCrypto(i, p) => CryptoTrue(c, hs, Next(c, step), i);
    case ResetStream(k) => ResetTrue(c, hs, k, c.outs[k].Abandon());
    case Finish(k) => ResetTrue(c, hs, k, c.outs[k].(done := true));
  }

  lemma PeerTrue(c: Conn, hs: seq<seq<byte>>, step: Step)
    requires Inv(c) && Faithful(c, hs) && Enabled(c, step) && (step.MaxData? || step.MaxStreamData? || step.AckFrame?)
    ensures Faithful(Next(c, step), hs)
  {
    HeldShape(c);
    match step
    case MaxData(m) =>
    case MaxStreamData(k, m) => ResetTrue(c, hs, k, c.outs[k].(sendMax := m));
    case AckFrame(i, ranges, now, lossDelay) =>
      AckTail(c, i, ranges, now, lossDelay);
      var r := OnAckReceived(c, i, ranges, now, lossDelay);
      if r.Some? {
        TailsTold(c.outs, r.value.outs, hs);
      }
  }

  lemma TimerTrue(c: Conn, hs: seq<seq<byte>>, step: Step)
    requires Inv(c) && Faithful(c, hs) && Enabled(c, step)
    requires step.LossTimer? || step.ProbeTimer? || step.DiscardSpace? || step.RetryPacket?
    ensures Faithful(Next(c, step), hs)
  {
    HeldShape(c);
    match step
    case LossTimer(i, now, lossDelay) =>
      DetectTail(c, i, now, lossDelay);
      TailsTold(c.outs, DetectLost(c, i, now, lossDelay).outs, hs);
    case ProbeTimer(i) =>
      ProbeTail(c, i);
      TailsTold(c.outs, Probe(c, i).outs, hs);
    case DiscardSpace(i) => CryptoTrue(c, hs, Next(c, step), i);
    case RetryPacket => CryptoTrue(c, hs, Next(c, step), 0);
  }

  lemma StepTrue(c: Conn, hs: seq<seq<byte>>, step: Step)
    requires Inv(c) && Faithful(c, hs)
    ensures Faithful(Next(c, step), Written(c, hs, step))
  {
    if !Enabled(c, step) {
      NothingWritten(c, hs, step);
    } else if step.SendPacket? {
      PacketTrue(c, hs, step);
    } else if step.MaxData? || step.MaxStreamData? || step.AckFrame? {
      PeerTrue(c, hs, step);
    } else if step.LossTimer? || step.ProbeTimer? || step.DiscardSpace? || step.RetryPacket? {
      TimerTrue(c, hs, step);
    } else {
      AppTrue(c, hs, step);
    }
  }

  lemma NothingWritten(c: Conn, hs: seq<seq<byte>>, step: Step)
    requires Inv(c) && Faithful(c, hs) && !Enabled(c, step)
    ensures Faithful(Next(c, step), Written(c, hs, step))
  {
    assert Written(c, hs, step) == hs;
  }

  lemma PacketTrue(c: Conn, hs: seq<seq<byte>>, step: Step)
    requires Inv(c) && Faithful(c, hs) && Enabled(c, step) && step.SendPacket?
    ensures Faithful(Next(c, step), hs)
  {
    SendTrue(c, hs, step.i, step.takes, step.ping, step.padded, step.size, step.now);
  }

  ghost function History(c: Conn, hs: seq<seq<byte>>, steps: seq<Step>): seq<seq<byte>>
    requires Inv(c)
    decreases |steps|
  {
    if steps == [] then hs
    else
      StepKeeps(c, steps[0]);
      History(Next(c, steps[0]), Written(c, hs, steps[0]), steps[1..])
  }

  lemma {:induction false} ExecTrue(c: Conn, hs: seq<seq<byte>>, steps: seq<Step>)
    requires Inv(c) && Faithful(c, hs)
    ensures Faithful(Exec(c, steps), History(c, hs, steps))
    decreases |steps|
  {
    if steps != [] {
      StepKeeps(c, steps[0]);
      StepTrue(c, hs, steps[0]);
      ExecTrue(Next(c, steps[0]), Written(c, hs, steps[0]), steps[1..]);
    }
  }

  /** What the application has written to each stream in a run. */
  ghost function WrittenIn(peerMaxData: nat, steps: seq<Step>): seq<seq<byte>> {
    StartInv(peerMaxData);
    History(Start(peerMaxData), [[], [], []], steps)
  }

  /** In every run every STREAM frame ever sent, new or again, carries exactly the bytes that the
      application wrote at its offset. */
  lemma WireIsWritten(peerMaxData: nat, steps: seq<Step>, e: Sent)
    requires e in Run(peerMaxData, steps).wire && e.SentData? && e.k >= 3
    ensures var hs := WrittenIn(peerMaxData, steps);
            e.k < |hs| && e.off + |e.data| <= |hs[e.k]| && e.data == hs[e.k][e.off..e.off + |e.data|]
  {
    StartInv(peerMaxData);
    ExecTrue(Start(peerMaxData), [[], [], []], steps);
    assert TrueOf(WrittenIn(peerMaxData, steps), e);
  }

  // What is recorded of a packet.

  lemma SendRecords(c: Conn, i: nat, takes: seq<Take>, ping: bool, padded: bool, size: nat, now: int)
    returns (frames: seq<SentFrame>)
    requires Held(c) && i < 3
    ensures var n, elicits := Send(c, i, takes, ping, padded, size, now), frames != [] || ping;
            && n.spaces[i].nextPN == c.spaces[i].nextPN + 1
            && n.spaces[i].sent
               == c.spaces[i].sent + [Packet(c.spaces[i].nextPN, now, size, elicits, elicits || padded, frames)]
            && n.cc == c.cc.(bytesInFlight := c.cc.bytesInFlight + if elicits || padded then size else 0)
  {
    StartDraft(c, i);
    frames := TakeAll(Draft(c.outs, [], c.sentData, c.wire), i, takes, c.peerMaxData, c.spaces[i].sent).frames;
  }

  /** In every run a packet that is sent is recorded with the next number of its space, the time and its size; it
      asks for an acknowledgement if it carries anything but acknowledgements and padding, and counts as in flight
      if it carries anything but acknowledgements. */
  lemma PacketRecorded(peerMaxData: nat, steps: seq<Step>, i: nat, takes: seq<Take>, ping: bool, padded: bool,
                       size: nat, now: int)
    returns (frames: seq<SentFrame>)
    requires i < 3 == |Run(peerMaxData, steps).spaces| && !Run(peerMaxData, steps).spaces[i].discarded
    ensures Inv(Run(peerMaxData, steps))
    ensures var c := Run(peerMaxData, steps);
            var n, elicits := Next(c, SendPacket(i, takes, ping, padded, size, now)), frames != [] || ping;
            && |n.spaces| == 3 && n.spaces[i].nextPN == c.spaces[i].nextPN + 1
            && n.spaces[i].sent
               == c.spaces[i].sent + [Packet(c.spaces[i].nextPN, now, size, elicits, elicits || padded, frames)]
            && n.cc.bytesInFlight == c.cc.bytesInFlight + if elicits || padded then size else 0
  {
    RunInv(peerMaxData, steps);
    frames := SendRecords(Run(peerMaxData, steps), i, takes, ping, padded, size, now);
  }
}
