/** A sending side is never stuck: from wherever a run has got to, it can still come to its end. */
module QuicSenderProgress {
  import opened Arithmetic
  import opened QuicSpans
  import opened QuicSendBuffer
  import opened QuicStreamSend
  import opened QuicPackets
  import opened QuicHeld
  import opened QuicDraft
  import opened QuicSender
  import opened QuicSenderRun
  import opened QuicWire

  lemma {:induction false} ExecAppend(c: Conn, a: seq<Step>, b: seq<Step>)
    requires Inv(c)
    ensures Exec(c, a + b) == Exec(Exec(c, a), b)
    decreases |a|
  {
    if a == [] {
      assert a + b == b;
    } else {
      StepKeeps(c, a[0]);
      assert (a + b)[0] == a[0] && (a + b)[1..] == a[1..] + b;
      ExecAppend(Next(c, a[0]), a[1..], b);
    }
  }

  lemma ExecFirst(c: Conn, step: Step, more: seq<Step>)
    requires Inv(c)
    ensures Inv(Next(c, step)) && Exec(c, [step] + more) == Exec(Next(c, step), more)
  {
    StepKeeps(c, step);
    assert ([step] + more)[1..] == more;
  }

  // The application space is never discarded.

  lemma AppStays(c: Conn, step: Step)
    requires Inv(c) && !c.spaces[2].discarded
    ensures |Next(c, step).spaces| == 3 && !Next(c, step).spaces[2].discarded
  {
    HeldShape(c);
    StepKeeps(c, step);
    if Enabled(c, step) && step.AckFrame? {
      AppStaysAck(c, step.i, step.ranges, step.now, step.lossDelay);
    }
  }

  lemma LossStays(c: Conn, i: nat, now: int, lossDelay: nat)
    requires Shape(c) && i < 3
    ensures DetectLost(c, i, now, lossDelay).spaces[2].discarded == c.spaces[2].discarded
  {
  }

  lemma SettleStays(c: Conn, i: nat, acked: seq<Packet>)
    requires Shape(c) && i < 3 && PacketsOk(c.outs, i, acked)
    ensures Settle(c, i, acked).spaces[2].discarded == c.spaces[2].discarded
  {
  }

  lemma AppStaysAck(c: Conn, i: nat, ranges: seq<PnRange>, now: int, lossDelay: nat)
    requires Shape(c) && i < 3 && ranges != [] && !c.spaces[2].discarded
    ensures var r := OnAckReceived(c, i, ranges, now, lossDelay);
            r.Some? ==> |r.value.spaces| == 3 && !r.value.spaces[2].discarded
  {
    var s := c.spaces[i];
    var acked, c1 := AckedOf(s, ranges), TakeAcked(c, i, ranges);
    if ranges[0].hi < s.nextPN && acked != [] {
      LossStays(c1, i, now, lossDelay);
      var c2 := DetectLost(c1, i, now, lossDelay);
      SelectMembers(s.sent, AckedP(ranges));
      PacketsOkSub(c.outs, i, s.sent, acked);
      PacketsOkEvolves(c.outs, c2.outs, i, acked);
      SettleStays(c2, i, acked);
    }
  }

  lemma {:induction false} AppAlways(c: Conn, steps: seq<Step>)
    requires Inv(c) && !c.spaces[2].discarded
    ensures |Exec(c, steps).spaces| == 3 && !Exec(c, steps).spaces[2].discarded
    decreases |steps|
  {
    if steps != [] {
      StepKeeps(c, steps[0]);
      AppStays(c, steps[0]);
      AppAlways(Next(c, steps[0]), steps[1..]);
    }
  }

  // Packets with one frame.

  function Carry(t: Take): Step { SendPacket(2, [t], false, false, 0, 0) }

  /** The state in which the steps below start and end. */
  ghost predicate Going(c: Conn, k: nat) { Inv(c) && 3 <= k < |c.outs| && !c.spaces[2].discarded }

  lemma NextIsSend(c: Conn, t: Take)
    requires Inv(c) && !c.spaces[2].discarded
    ensures Next(c, Carry(t)) == Send(c, 2, [t], false, false, 0, 0)
  {
    HeldShape(c);
  }

  lemma SendOneIs(c: Conn, t: Take)
    requires Held(c)
    ensures var d, r := Draft(c.outs, [], c.sentData, c.wire), Send(c, 2, [t], false, false, 0, 0);
            && r.outs == TakeOne(d, 2, t, c.peerMaxData).outs && r.peerMaxData == c.peerMaxData
            && r.sentData == TakeOne(d, 2, t, c.peerMaxData).sentData
            && |r.spaces| == 3 && r.spaces[2].nextPN == c.spaces[2].nextPN + 1
            && r.spaces[2].discarded == c.spaces[2].discarded
  {
    StartDraft(c, 2);
    var d := Draft(c.outs, [], c.sentData, c.wire);
    OneTake(d, t, c.peerMaxData, c.spaces[2].sent);
  }

  lemma OneTake(d: Draft, t: Take, peerMaxData: nat, held: seq<Packet>)
    requires GoodDraft(d, 2, held)
    ensures TakeAll(d, 2, [t], peerMaxData, held) == TakeOne(d, 2, t, peerMaxData)
  {
    TakeOneGood(d, 2, t, peerMaxData, held);
    assert [t][1..] == [];
    assert TakeAll(TakeOne(d, 2, t, peerMaxData), 2, [], peerMaxData, held) == TakeOne(d, 2, t, peerMaxData);
  }

  lemma CarryIs(c: Conn, k: nat, t: Take)
    requires Going(c, k)
    ensures Going(Next(c, Carry(t)), k)
    ensures var d, r := Draft(c.outs, [], c.sentData, c.wire), Next(c, Carry(t));
            && r.outs == TakeOne(d, 2, t, c.peerMaxData).outs && r.peerMaxData == c.peerMaxData
            && r.sentData == TakeOne(d, 2, t, c.peerMaxData).sentData
            && |r.spaces| == 3 && r.spaces[2].nextPN > 0
  {
    StepKeeps(c, Carry(t));
    NextIsSend(c, t);
    SendOneIs(c, t);
    TakeOneElsewhere(Draft(c.outs, [], c.sentData, c.wire), 2, t, c.peerMaxData);
  }

  lemma OneStep(c: Conn, step: Step)
    requires Inv(c)
    ensures Inv(Next(c, step)) && Exec(c, [step]) == Next(c, step)
  {
    ExecFirst(c, step, []);
    assert [step] + [] == [step];
  }

  /** A packet with one frame. */
  lemma Carries(c: Conn, k: nat, t: Take) returns (more: seq<Step>)
    requires Going(c, k)
    ensures Going(Exec(c, more), k)
    ensures var d, r := Draft(c.outs, [], c.sentData, c.wire), Exec(c, more);
            && r.outs == TakeOne(d, 2, t, c.peerMaxData).outs && r.peerMaxData == c.peerMaxData
            && r.sentData == TakeOne(d, 2, t, c.peerMaxData).sentData
            && |r.spaces| == 3 && r.spaces[2].nextPN > 0
  {
    CarryIs(c, k, t);
    OneStep(c, Carry(t));
    more := [Carry(t)];
  }

  /** Everything about the stream but what is queued to be sent again, and its FIN. */
  ghost predicate SameEnd(a: Out, b: Out) {
    && b.reset == a.reset && b.finQueued == a.finQueued && b.finalSize == a.finalSize && b.sendMax == a.sendMax
    && b.buf.base == a.buf.base && b.buf.buf == a.buf.buf && b.finAcked == a.finAcked
    && b.resetAcked == a.resetAcked && b.resetPending == a.resetPending && (a.finSent ==> b.finSent)
  }

  /** One frame with all of the first lost run leaves fewer of them. */
  lemma OneRunGoes(c: Conn, k: nat) returns (more: seq<Step>)
    requires Going(c, k) && !c.outs[k].reset && c.outs[k].buf.lost != []
    ensures var o, r := c.outs[k], Exec(c, more);
            && Going(r, k) && SameEnd(o, r.outs[k]) && r.outs[k].buf.next == o.buf.next
            && |r.outs[k].buf.lost| < |o.buf.lost|
            && r.peerMaxData == c.peerMaxData && r.sentData == c.sentData
  {
    more := Carries(c, k, TakeLost(k, c.outs[k].buf.next));
    TakesRun(Draft(c.outs, [], c.sentData, c.wire), k, c.peerMaxData);
  }

  lemma TakesRun(d: Draft, k: nat, peerMaxData: nat)
    requires AllValid(d.outs) && 3 <= k < |d.outs| && !d.outs[k].reset && d.outs[k].buf.lost != []
    ensures var o, r := d.outs[k], TakeOne(d, 2, TakeLost(k, d.outs[k].buf.next), peerMaxData);
            && |r.outs| == |d.outs| && SameEnd(o, r.outs[k]) && r.outs[k].buf.next == o.buf.next
            && |r.outs[k].buf.lost| < |o.buf.lost| && r.sentData == d.sentData
  {
    var o := d.outs[k];
    RunShrinks(o.buf);
    PopLostSound(o.buf, o.buf.next);
  }

  lemma RunShrinks(b: SendBuf)
    requires b.Valid() && b.lost != []
    ensures |b.PopLost(b.next).rest.lost| < |b.lost|
  {
    TrimShorter(b.lost, b.base);
    TrimSound(b.lost, b.base, b.next);
    var t := b.Trim().lost;
    if t != [] {
      assert t[0].end <= b.next;
      var off := Max(t[0].off, b.base);
      PopLostIs(b, b.next, off, Min(t[0].end, off + b.next));
    } else {
      assert b.PopLost(b.next) == Pop(b.Trim(), 0, []);
    }
  }

  lemma {:induction false} TrimShorter(lost: seq<Span>, base: nat)
    ensures |TrimSpans(lost, base)| <= |lost|
  {
    if lost != [] && lost[0].end <= base {
      TrimShorter(lost[1..], base);
    }
  }

  lemma {:induction false} AllRunsGo(c: Conn, k: nat) returns (more: seq<Step>)
    requires Going(c, k) && !c.outs[k].reset
    ensures var o, r := c.outs[k], Exec(c, more);
            && Going(r, k) && SameEnd(o, r.outs[k]) && r.outs[k].buf.next == o.buf.next && r.outs[k].buf.lost == []
            && r.peerMaxData == c.peerMaxData && r.sentData == c.sentData
    decreases |c.outs[k].buf.lost|
  {
    if c.outs[k].buf.lost == [] {
      more := [];
    } else {
      var first := OneRunGoes(c, k);
      var rest := AllRunsGo(Exec(c, first), k);
      ExecAppend(c, first, rest);
      more := first + rest;
    }
  }

  // The limits are raised, the rest of the data goes, and the FIN with it or after it.

  lemma NextIsLimit(c: Conn, k: nat, m: nat)
    requires Inv(c) && 3 <= k < |c.outs|
    ensures var r := Next(c, MaxStreamData(k, m));
            Inv(r) && r == c.(outs := c.outs[k := c.outs[k].(sendMax := Max(m, c.outs[k].sendMax))])
  {
    StepKeeps(c, MaxStreamData(k, m));
    assert c.outs[k := c.outs[k]] == c.outs;
  }

  lemma StreamLimitRises(c: Conn, k: nat, m: nat)
    requires Going(c, k)
    ensures var r := Next(c, MaxStreamData(k, m));
            && Going(r, k) && r.outs[k] == c.outs[k].(sendMax := Max(m, c.outs[k].sendMax))
            && r.sentData == c.sentData && r.peerMaxData == c.peerMaxData
  {
    NextIsLimit(c, k, m);
  }

  lemma LimitRises(c: Conn, k: nat, m: nat)
    requires Going(c, k)
    ensures var r := Next(c, MaxData(m));
            Going(r, k) && r.outs == c.outs && r.sentData == c.sentData && r.peerMaxData == Max(m, c.peerMaxData)
  {
    StepKeeps(c, MaxData(m));
    HeldShape(c);
  }

  lemma LimitsRise(c: Conn, k: nat) returns (more: seq<Step>)
    requires Going(c, k) && !c.outs[k].reset && c.outs[k].buf.lost == []
    ensures var o, r := c.outs[k], Exec(c, more);
            && Going(r, k) && r.outs[k] == o.(sendMax := r.outs[k].sendMax) && r.sentData == c.sentData
            && r.outs[k].sendMax >= o.buf.End() && r.peerMaxData >= c.sentData + o.buf.End() - o.buf.next
  {
    var o := c.outs[k];
    assert o.Valid();
    var s1 := MaxStreamData(k, o.buf.End());
    StreamLimitRises(c, k, o.buf.End());
    var c1 := Next(c, s1);
    var s2 := MaxData(c.sentData + o.buf.End() - o.buf.next);
    LimitRises(c1, k, c.sentData + o.buf.End() - o.buf.next);
    more := TwoSteps(c, s1, s2);
  }

  lemma TwoSteps(c: Conn, a: Step, b: Step) returns (more: seq<Step>)
    requires Inv(c)
    ensures Inv(Next(c, a)) && Exec(c, more) == Next(Next(c, a), b)
  {
    more := [a] + [b];
    ExecFirst(c, a, [b]);
    OneStep(Next(c, a), b);
  }

  /** All that was not sent has gone. */
  ghost predicate RestGone(a: Out, b: Out) { SameEnd(a, b) && b.buf.lost == [] && b.buf.next == a.buf.End() }

  /** Nothing is lost, and the limits allow all that was not sent. */
  ghost predicate RoomFor(d: Draft, k: nat, peerMaxData: nat) {
    && AllValid(d.outs) && 3 <= k < |d.outs| && !d.outs[k].reset && d.outs[k].buf.lost == []
    && d.outs[k].sendMax >= d.outs[k].buf.End()
    && peerMaxData >= d.sentData + d.outs[k].buf.End() - d.outs[k].buf.next
  }

  lemma HasRoom(c: Conn, k: nat)
    requires Going(c, k) && !c.outs[k].reset && c.outs[k].buf.lost == []
    requires c.outs[k].sendMax >= c.outs[k].buf.End()
    requires c.peerMaxData >= c.sentData + c.outs[k].buf.End() - c.outs[k].buf.next
    ensures RoomFor(Draft(c.outs, [], c.sentData, c.wire), k, c.peerMaxData)
  {
  }

  lemma TakesRest(d: Draft, k: nat, peerMaxData: nat, n: nat)
    requires RoomFor(d, k, peerMaxData) && n == d.outs[k].buf.End() - d.outs[k].buf.next
    ensures var r := TakeOne(d, 2, TakeNew(k, n), peerMaxData);
            |r.outs| == |d.outs| && RestGone(d.outs[k], r.outs[k])
  {
    var o := d.outs[k];
    NewDataGoes(d, k, n, peerMaxData);
    PopNewSound(o.buf, Min(n, Credit(o, d.sentData, peerMaxData)));
  }

  lemma RestGoes(c: Conn, k: nat, n: nat) returns (more: seq<Step>)
    requires Going(c, k) && RoomFor(Draft(c.outs, [], c.sentData, c.wire), k, c.peerMaxData)
    requires n == c.outs[k].buf.End() - c.outs[k].buf.next
    ensures Going(Exec(c, more), k) && RestGone(c.outs[k], Exec(c, more).outs[k])
  {
    more := Carries(c, k, TakeNew(k, n));
    TakesRest(Draft(c.outs, [], c.sentData, c.wire), k, c.peerMaxData, n);
  }

  lemma FinGoes(c: Conn, k: nat) returns (more: seq<Step>)
    requires Going(c, k) && !c.outs[k].reset && c.outs[k].buf.lost == [] && c.outs[k].buf.next == c.outs[k].buf.End()
    requires c.outs[k].finQueued
    ensures var o, r := c.outs[k], Exec(c, more);
            && Going(r, k) && SameEnd(o, r.outs[k]) && r.outs[k].buf == o.buf && r.outs[k].finSent
            && |r.spaces| == 3 && r.spaces[2].nextPN > 0
  {
    more := Carries(c, k, TakeFin(k));
    EndGoes(Draft(c.outs, [], c.sentData, c.wire), k, c.peerMaxData);
  }

  lemma ResetGoes(c: Conn, k: nat) returns (more: seq<Step>)
    requires Going(c, k) && c.outs[k].reset
    ensures var r := Exec(c, more);
            && Going(r, k) && r.outs[k].reset && !r.outs[k].resetPending && |r.spaces| == 3 && r.spaces[2].nextPN > 0
  {
    more := Carries(c, k, TakeReset(k));
    EndGoes(Draft(c.outs, [], c.sentData, c.wire), k, c.peerMaxData);
  }

  // The peer acknowledges all packets.

  lemma {:induction false} FramesAckedLost(outs: seq<Out>, i: nat, fs: seq<SentFrame>, k: nat)
    requires AllValid(outs) && FramesOk(outs, i, fs) && k < |outs|
    ensures var r := FramesAcked(outs, i, fs)[k]; r.buf.lost == outs[k].buf.lost && r.finSent == outs[k].finSent
                                                  && r.resetPending == outs[k].resetPending
    decreases |fs|
  {
    if fs != [] {
      var next := FrameAcked(outs, i, fs[0]);
      EvolvesKeepsFrames(outs, next, i, fs);
      FrameAckedLost(outs, i, fs[0], k);
      FramesAckedLost(next, i, fs[1..], k);
    }
  }

  lemma FrameAckedLost(outs: seq<Out>, i: nat, f: SentFrame, k: nat)
    requires AllValid(outs) && FrameOk(outs, i, f) && k < |outs|
    ensures var r := FrameAcked(outs, i, f)[k]; r.buf.lost == outs[k].buf.lost && r.finSent == outs[k].finSent
                                                && r.resetPending == outs[k].resetPending
  {
    if f.Data? {
      OnAckSound(outs[f.k].buf, f.off, f.n);
    }
  }

  lemma {:induction false} PacketsAckedLost(outs: seq<Out>, i: nat, ps: seq<Packet>, k: nat)
    requires AllValid(outs) && PacketsOk(outs, i, ps) && k < |outs|
    ensures var r := PacketsAcked(outs, i, ps)[k]; r.buf.lost == outs[k].buf.lost && r.finSent == outs[k].finSent
                                                   && r.resetPending == outs[k].resetPending
    decreases |ps|
  {
    if ps != [] {
      assert ps[0] in ps;
      var next := FramesAcked(outs, i, ps[0].frames);
      FramesAckedLost(outs, i, ps[0].frames, k);
      PacketsOkEvolves(outs, next, i, ps[1..]);
      PacketsAckedLost(next, i, ps[1..], k);
    }
  }

  lemma NoneLeft(c: Conn)
    requires Inv(c) && Shape(c) && c.spaces[2].nextPN > 0
    ensures var ranges := [PnRange(0, c.spaces[2].nextPN - 1)];
            TakeAcked(c, 2, ranges).spaces[2].sent == [] && AckedOf(c.spaces[2], ranges) == c.spaces[2].sent
  {
    var s, ranges := c.spaces[2], [PnRange(0, c.spaces[2].nextPN - 1)];
    assert SpaceBooks(s, 0);
    AscendingMembers(s.sent, s.nextPN);
    assert forall p :: p in s.sent ==> AckedP(ranges)(p) by {
      forall p | p in s.sent ensures InRanges(p.pn, ranges) {
        assert ranges[0].lo <= p.pn <= ranges[0].hi;
      }
    }
    SelectAll(s.sent, AckedP(ranges));
    SelectNone(s.sent, UnackedP(ranges));
  }

  lemma {:induction false} SelectNone(ps: seq<Packet>, f: Packet -> bool)
    requires forall p :: p in ps ==> !f(p)
    ensures Select(ps, f) == []
  {
    if ps != [] {
      assert ps == ps[..|ps| - 1] + [ps[|ps| - 1]];
      SelectNone(ps[..|ps| - 1], f);
    }
  }

  lemma {:induction false} AscendingMembers(ps: seq<Packet>, limit: nat)
    requires Ascending(ps, limit)
    ensures forall p :: p in ps ==> p.pn < limit
  {
    forall p | p in ps ensures p.pn < limit {
      var j :| 0 <= j < |ps| && ps[j] == p;
      AscendingPairs(ps, limit, j, j);
    }
  }

  lemma {:induction false} SelectAll(ps: seq<Packet>, f: Packet -> bool)
    requires forall p :: p in ps ==> f(p)
    ensures Select(ps, f) == ps
  {
    if ps != [] {
      SelectAll(ps[..|ps| - 1], f);
      assert ps == ps[..|ps| - 1] + [ps[|ps| - 1]];
    }
  }

  /** What acknowledgements leave as it is. */
  ghost predicate StillGone(a: Out, b: Out) {
    && b.buf.lost == a.buf.lost && b.finSent == a.finSent && b.resetPending == a.resetPending
    && b.buf.next == a.buf.next && b.reset == a.reset && b.finQueued == a.finQueued && b.finalSize == a.finalSize
  }

  lemma AckedAll(c: Conn, k: nat)
    requires Inv(c) && Shape(c) && k < |c.outs| && c.spaces[2].nextPN > 0
    ensures var r := OnAckReceived(c, 2, [PnRange(0, c.spaces[2].nextPN - 1)], 0, 0);
            && r.Some? && |r.value.outs| == |c.outs| && |r.value.spaces| == 3 && r.value.spaces[2].sent == []
            && r.value.spaces[2].discarded == c.spaces[2].discarded && StillGone(c.outs[k], r.value.outs[k])
  {
    var ranges, s := [PnRange(0, c.spaces[2].nextPN - 1)], c.spaces[2];
    NoneLeft(c);
    var c1, acked := TakeAcked(c, 2, ranges), AckedOf(s, ranges);
    if acked != [] {
      var c2 := DetectLost(c1, 2, 0, 0);
      assert c2.outs == c1.outs && c2.spaces[2].sent == [];
      PacketsAckedLost(c.outs, 2, acked, k);
    }
  }

  lemma NextIsAck(c: Conn, ranges: seq<PnRange>)
    requires Inv(c) && ranges != []
    ensures Shape(c)
    ensures var r := OnAckReceived(c, 2, ranges, 0, 0);
            Next(c, AckFrame(2, ranges, 0, 0)) == if r.Some? then r.value else c
  {
    HeldShape(c);
  }

  lemma AllAcknowledged(c: Conn, k: nat) returns (more: seq<Step>)
    requires Going(c, k) && c.spaces[2].nextPN > 0
    ensures var r := Exec(c, more);
            Going(r, k) && r.spaces[2].sent == [] && StillGone(c.outs[k], r.outs[k])
  {
    var ranges := [PnRange(0, c.spaces[2].nextPN - 1)];
    NextIsAck(c, ranges);
    AckedAll(c, k);
    OneStep(c, AckFrame(2, ranges, 0, 0));
    more := [AckFrame(2, ranges, 0, 0)];
  }

  /** With no packet outstanding and nothing to be sent again, what was sent has arrived. */
  lemma NothingOpen(c: Conn, k: nat)
    requires Going(c, k) && c.spaces[2].sent == [] && (!c.outs[k].reset ==> c.outs[k].buf.lost == [])
    ensures var o := c.outs[k];
            && (!o.reset && o.finSent && o.buf.next == o.buf.End() ==> o.SendDone())
            && (o.reset && !o.resetPending ==> o.SendDone())
  {
    var o := c.outs[k];
    assert Good(c.outs, 2, c.spaces[2].sent);
    assert Safe(o, k, []);
    assert forall i :: 0 <= i < |o.buf.acked| ==> o.buf.base < o.buf.acked[i].off;
    assert !o.buf.Acked(o.buf.base);
  }

  /** Nothing is left but to wait for acknowledgements. */
  ghost predicate AllGone(o: Out) {
    if o.reset then !o.resetPending else o.finSent && o.buf.next == o.buf.End() && o.buf.lost == []
  }

  lemma AcksEnd(c: Conn, k: nat) returns (more: seq<Step>)
    requires Going(c, k) && c.spaces[2].nextPN > 0 && AllGone(c.outs[k])
    ensures Going(Exec(c, more), k) && Exec(c, more).outs[k].SendDone()
  {
    more := AllAcknowledged(c, k);
    var r := Exec(c, more);
    assert r.outs[k].Valid() && c.outs[k].Valid();
    assert r.outs[k].reset || (r.outs[k].finQueued && r.outs[k].buf.End() == r.outs[k].finalSize);
    NothingOpen(r, k);
  }

  /** All the data of a stream goes. */
  lemma DataGoes(c: Conn, k: nat) returns (more: seq<Step>)
    requires Going(c, k) && !c.outs[k].reset && c.outs[k].finQueued
    ensures var r := Exec(c, more);
            && Going(r, k) && !r.outs[k].reset && r.outs[k].finQueued && r.outs[k].buf.lost == []
            && r.outs[k].buf.next == r.outs[k].buf.End()
  {
    var a := AllRunsGo(c, k);
    var b := LimitsRise(Exec(c, a), k);
    ExecAppend(c, a, b);
    var c2 := Exec(c, a + b);
    HasRoom(c2, k);
    assert c2.outs[k].Valid();
    var rest := RestGoes(c2, k, c2.outs[k].buf.End() - c2.outs[k].buf.next);
    ExecAppend(c, a + b, rest);
    more := a + b + rest;
  }

  lemma StreamEnds(c: Conn, k: nat) returns (more: seq<Step>)
    requires Going(c, k) && !c.outs[k].reset && c.outs[k].finQueued
    ensures Going(Exec(c, more), k) && Exec(c, more).outs[k].SendDone()
  {
    var a := DataGoes(c, k);
    var b := FinGoes(Exec(c, a), k);
    ExecAppend(c, a, b);
    var acks := AcksEnd(Exec(c, a + b), k);
    ExecAppend(c, a + b, acks);
    more := a + b + acks;
  }

  lemma ResetEnds(c: Conn, k: nat) returns (more: seq<Step>)
    requires Going(c, k) && c.outs[k].reset
    ensures Going(Exec(c, more), k) && Exec(c, more).outs[k].SendDone()
  {
    var a := ResetGoes(c, k);
    var acks := AcksEnd(Exec(c, a), k);
    ExecAppend(c, a, acks);
    more := a + acks;
  }

  lemma EachEnds(c: Conn, k: nat) returns (more: seq<Step>)
    requires Going(c, k) && (c.outs[k].finQueued || c.outs[k].reset)
    ensures Going(Exec(c, more), k) && Exec(c, more).outs[k].SendDone()
  {
    if c.outs[k].reset {
      more := ResetEnds(c, k);
    } else {
      more := StreamEnds(c, k);
    }
  }

  lemma RunGoes(peerMaxData: nat, steps: seq<Step>, k: nat)
    requires 3 <= k < |Run(peerMaxData, steps).outs|
    ensures Going(Run(peerMaxData, steps), k)
  {
    StartInv(peerMaxData);
    AppAlways(Start(peerMaxData), steps);
  }

  lemma RunAppend(peerMaxData: nat, steps: seq<Step>, more: seq<Step>)
    ensures Inv(Run(peerMaxData, steps)) && Run(peerMaxData, steps + more) == Exec(Run(peerMaxData, steps), more)
  {
    StartInv(peerMaxData);
    ExecAppend(Start(peerMaxData), steps, more);
  }

  /** From every state that a run reaches, there is a way on to where a stream that has been ended or reset
      is done: all its data and its end acknowledged, or its reset. */
  lemma CanComplete(peerMaxData: nat, steps: seq<Step>, k: nat) returns (more: seq<Step>)
    requires 3 <= k < |Run(peerMaxData, steps).outs|
    requires Run(peerMaxData, steps).outs[k].finQueued || Run(peerMaxData, steps).outs[k].reset
    ensures k < |Run(peerMaxData, steps + more).outs| && Run(peerMaxData, steps + more).outs[k].SendDone()
  {
    RunGoes(peerMaxData, steps, k);
    more := EachEnds(Run(peerMaxData, steps), k);
    RunAppend(peerMaxData, steps, more);
  }
}
