/** How the sending side of a stream ends: by what the application does, and by nothing else. */
module QuicStreamEnds {
  import opened Arithmetic
  import opened Bytes
  import opened QuicSendBuffer
  import opened QuicStreamSend
  import opened QuicPackets
  import opened QuicHeld
  import opened QuicDraft
  import opened QuicSender
  import opened QuicSenderRun

  /** The stream goes on as it did. */
  ghost predicate SameEnd(a: Out, b: Out) {
    b.finQueued == a.finQueued && b.reset == a.reset && (b.finalSize == a.finalSize || (!a.finQueued && !a.reset))
  }

  ghost predicate SameEnds(a: seq<Out>, b: seq<Out>) {
    |a| <= |b| && forall k :: 0 <= k < |a| ==> SameEnd(a[k], b[k])
  }

  lemma OneEnds(outs: seq<Out>, k: nat, o: Out)
    requires k < |outs| && SameEnd(outs[k], o)
    ensures SameEnds(outs, outs[k := o])
  {
  }

  lemma EmitEnds(d: Draft, k: nat, pop: Pop)
    requires k < |d.outs|
    ensures SameEnds(d.outs, Emit(d, k, pop).outs)
  {
    OneEnds(d.outs, k, Emit(d, k, pop).outs[k]);
  }

  lemma TakeDataEnds(d: Draft, i: nat, t: Take, peerMaxData: nat)
    requires AllValid(d.outs) && (t.TakeLost? || t.TakeNew?)
    ensures SameEnds(d.outs, TakeOne(d, i, t, peerMaxData).outs)
  {
    if t.k < |d.outs| && SpaceOf(t.k) == i && !d.outs[t.k].reset {
      if t.TakeLost? {
        EmitEnds(d, t.k, d.outs[t.k].buf.PopLost(t.n));
      } else {
        var m := if t.k < 3 then t.n else Min(t.n, Credit(d.outs[t.k], d.sentData, peerMaxData));
        EmitEnds(d, t.k, d.outs[t.k].buf.PopNew(m));
      }
    }
  }

  lemma TakeOneEnds(d: Draft, i: nat, t: Take, peerMaxData: nat)
    requires AllValid(d.outs)
    ensures SameEnds(d.outs, TakeOne(d, i, t, peerMaxData).outs)
  {
    if t.TakeLost? || t.TakeNew? {
      TakeDataEnds(d, i, t, peerMaxData);
    } else if t.TakeFin? && t.k < |d.outs| {
      EmitEnds(d, t.k, Pop(d.outs[t.k].buf, d.outs[t.k].buf.next, []));
    }
  }

  lemma {:induction false} TakeAllEnds(d: Draft, i: nat, ts: seq<Take>, peerMaxData: nat, held: seq<Packet>)
    requires GoodDraft(d, i, held)
    ensures SameEnds(d.outs, TakeAll(d, i, ts, peerMaxData, held).outs)
    decreases |ts|
  {
    if ts != [] {
      TakeOneGood(d, i, ts[0], peerMaxData, held);
      TakeOneEnds(d, i, ts[0], peerMaxData);
      TakeAllEnds(TakeOne(d, i, ts[0], peerMaxData), i, ts[1..], peerMaxData, held);
    }
  }

  lemma SendEnds(c: Conn, i: nat, takes: seq<Take>, ping: bool, padded: bool, size: nat, now: int)
    requires Held(c) && i < 3
    ensures SameEnds(c.outs, Send(c, i, takes, ping, padded, size, now).outs)
  {
    StartDraft(c, i);
    TakeAllEnds(Draft(c.outs, [], c.sentData, c.wire), i, takes, c.peerMaxData, c.spaces[i].sent);
  }

  /** What the network and the timers do. */
  predicate FromOutside(step: Step) {
    step.SendPacket? || step.AckFrame? || step.LossTimer? || step.ProbeTimer? || step.MaxData? || step.MaxStreamData?
  }

  lemma OutsideEnds(c: Conn, step: Step)
    requires Inv(c) && FromOutside(step)
    ensures SameEnds(c.outs, Next(c, step).outs)
  {
    HeldShape(c);
    if Enabled(c, step) && step.SendPacket? {
      SendEnds(c, step.i, step.takes, step.ping, step.padded, step.size, step.now);
    }
  }

  lemma WriteEnds(c: Conn, k: nat, p: seq<byte>, fin: bool)
    requires Inv(c) && 3 <= k < |c.outs|
    ensures var o, n := c.outs[k], Next(c, WriteStream(k, p, fin));
            && |n.outs| == |c.outs| && n.outs[k].reset == o.reset
            && (n.outs[k].finQueued <==> o.finQueued || (fin && !o.reset))
            && forall j :: 0 <= j < |c.outs| && j != k ==> n.outs[j] == c.outs[j]
  {
    HeldShape(c);
  }

  lemma ResetEnds(c: Conn, k: nat)
    requires Inv(c) && 3 <= k < |c.outs|
    ensures var o, n := c.outs[k], Next(c, ResetStream(k));
            && |n.outs| == |c.outs| && n.outs[k].finQueued == o.finQueued
            && (n.outs[k].reset <==> o.reset || !o.finAcked)
            && forall j :: 0 <= j < |c.outs| && j != k ==> n.outs[j] == c.outs[j]
  {
    HeldShape(c);
  }

  lemma ElseEnds(c: Conn, step: Step)
    requires Inv(c) && !FromOutside(step) && !step.WriteStream? && !step.ResetStream?
    ensures var n := Next(c, step);
            |c.outs| <= |n.outs| && forall k :: 3 <= k < |c.outs| ==> SameEnd(c.outs[k], n.outs[k])
  {
    HeldShape(c);
  }

  /** A stream is ended by a write that says so, unless it has been reset, and reset by a call that says so, unless its
      end has been acknowledged; nothing else that happens to the connection does either. */
  lemma EndIff(peerMaxData: nat, steps: seq<Step>, step: Step, k: nat)
    requires 3 <= k < |Run(peerMaxData, steps).outs|
    ensures Inv(Run(peerMaxData, steps)) && k < |Next(Run(peerMaxData, steps), step).outs|
    ensures var c := Run(peerMaxData, steps);
            var o, n := c.outs[k], Next(c, step).outs[k];
            && (n.finQueued <==> o.finQueued || (step.WriteStream? && step.k == k && step.fin && !o.reset))
            && (n.reset <==> o.reset || (step.ResetStream? && step.k == k && !o.finAcked))
  {
    RunInv(peerMaxData, steps);
    var c := Run(peerMaxData, steps);
    if FromOutside(step) {
      OutsideEnds(c, step);
      assert SameEnd(c.outs[k], Next(c, step).outs[k]);
    } else if step.WriteStream? {
      if 3 <= step.k < |c.outs| {
        WriteEnds(c, step.k, step.p, step.fin);
      }
    } else if step.ResetStream? {
      if 3 <= step.k < |c.outs| {
        ResetEnds(c, step.k);
      }
    } else {
      ElseEnds(c, step);
    }
  }
}
