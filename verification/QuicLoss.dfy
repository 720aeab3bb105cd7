/** What acknowledgements, losses and probes do, packet by packet and byte by byte. */
module QuicLoss {
  import opened QuicSpans
  import opened QuicSendBuffer
  import opened QuicStreamSend
  import opened QuicPackets
  import opened QuicHeld
  import opened QuicSender
  import QuicAck

  // Which packets leave the record.

  /** Three numbers or lossDelay behind the largest acknowledged packet. */
  ghost predicate Behind(p: Packet, largestAcked: int, now: int, lossDelay: nat) {
    p.pn <= largestAcked && (p.time + lossDelay <= now || largestAcked - p.pn >= 3)
  }

  /** Some range has the number. */
  ghost predicate Named(ranges: seq<PnRange>, pn: nat) {
    exists k :: 0 <= k < |ranges| && ranges[k].lo <= pn && pn <= ranges[k].hi
  }

  /** A recorded packet is declared lost if and only if a packet with a higher or the same number has
      been acknowledged and it is behind by count or by time. */
  lemma LostIff(c: Conn, i: nat, now: int, lossDelay: nat, p: Packet)
    requires Shape(c) && i < 3
    ensures var r, largest := DetectLost(c, i, now, lossDelay), c.spaces[i].largestAcked;
            && (p in r.spaces[i].sent <==>
                  p in c.spaces[i].sent && !(largest >= 0 && Behind(p, largest, now, lossDelay)))
            && r.spaces[i].largestAcked == largest && r.spaces[i].nextPN == c.spaces[i].nextPN
            && (forall j :: 0 <= j < 3 && j != i ==> r.spaces[j] == c.spaces[j])
  {
    var s := c.spaces[i];
    SelectMembers(s.sent, KeptP(s.largestAcked, now - lossDelay));
  }

  lemma TakenIff(c: Conn, i: nat, ranges: seq<PnRange>, p: Packet)
    requires Shape(c) && i < 3 && ranges != []
    ensures p in AckedOf(c.spaces[i], ranges) <==> p in c.spaces[i].sent && Named(ranges, p.pn)
    ensures p in TakeAcked(c, i, ranges).spaces[i].sent <==> p in c.spaces[i].sent && !Named(ranges, p.pn)
  {
    SelectMembers(c.spaces[i].sent, AckedP(ranges));
    SelectMembers(c.spaces[i].sent, UnackedP(ranges));
  }

  /** An ACK frame is refused if and only if it names a packet that was never sent. Otherwise a recorded
      packet stays if and only if no range has it and, when the frame acknowledges anything that was
      recorded, it is not behind the largest number acknowledged. */
  lemma AckIff(c: Conn, i: nat, ranges: seq<PnRange>, now: int, lossDelay: nat, p: Packet)
    requires Shape(c) && i < 3 && ranges != []
    ensures var r, s := OnAckReceived(c, i, ranges, now, lossDelay), c.spaces[i];
            && (r.None? <==> ranges[0].hi >= s.nextPN)
            && (r.Some? ==>
                  var n := r.value.spaces[i];
                  && n.largestAcked == (if ranges[0].hi > s.largestAcked then ranges[0].hi else s.largestAcked)
                  && (p in n.sent <==>
                        && p in s.sent && !Named(ranges, p.pn)
                        && ((exists q :: q in s.sent && Named(ranges, q.pn)) ==>
                              !Behind(p, n.largestAcked, now, lossDelay))))
  {
    var s := c.spaces[i];
    if ranges[0].hi < s.nextPN {
      var c1 := TakeAcked(c, i, ranges);
      TakenIff(c, i, ranges, p);
      LostIff(c1, i, now, lossDelay, p);
      var acked := AckedOf(s, ranges);
      if acked == [] {
        forall q | q in s.sent ensures !Named(ranges, q.pn) {
          TakenIff(c, i, ranges, q);
        }
      } else {
        TakenIff(c, i, ranges, acked[0]);
        assert acked[0] in s.sent && Named(ranges, acked[0].pn);
      }
    }
  }

  // From the peer's record to ours.

  lemma {:induction false} NamedIsMember(r: seq<PnRange>, pn: nat)
    ensures Named(r, pn) <==> QuicAck.Member(r, pn)
  {
    if r != [] {
      NamedIsMember(r[1..], pn);
      NamedJoin([r[0]], r[1..], pn);
      assert r == [r[0]] + r[1..];
    }
  }

  lemma NamedJoin(a: seq<PnRange>, b: seq<PnRange>, pn: nat)
    ensures Named(a + b, pn) <==> Named(a, pn) || Named(b, pn)
  {
    var c := a + b;
    if Named(a, pn) {
      var k :| 0 <= k < |a| && a[k].lo <= pn && pn <= a[k].hi;
      assert c[k] == a[k];
    }
    if Named(b, pn) {
      var k :| 0 <= k < |b| && b[k].lo <= pn && pn <= b[k].hi;
      assert c[|a| + k] == b[k];
    }
  }

  lemma {:induction false} ReverseNames(r: seq<PnRange>, pn: nat)
    ensures Named(QuicAck.Reverse(r), pn) <==> Named(r, pn)
  {
    if r != [] {
      var init, last := r[..|r| - 1], [r[|r| - 1]];
      ReverseNames(init, pn);
      NamedJoin(last, QuicAck.Reverse(init), pn);
      NamedJoin(init, last, pn);
      assert r == init + last;
    }
  }

  /** What a peer has received and reports in an ACK frame is what the frame acknowledges here. */
  lemma AckMeansReceived(r: seq<PnRange>, delay: nat, pn: nat)
    requires QuicAck.Ascend(r) && r != [] && |r| <= QuicAck.MAX_RANGES && r[|r| - 1].hi <= 0x3fff_ffff_ffff_ffff
    requires delay <= 0x3fff_ffff_ffff_ffff
    ensures var a := QuicAck.ParseAck(QuicAck.EncodeAck(r, delay, []));
            a.Ack? && (Named(a.r, pn) <==> QuicAck.Member(r, pn))
  {
    QuicAck.AckRoundTrip(r, delay, []);
    ReverseNames(r, pn);
    NamedIsMember(r, pn);
  }

  // What happens to the bytes.

  ghost predicate FramesHave(fs: seq<SentFrame>, k: nat, x: int) { exists f :: f in fs && f.Has(k, x) }

  lemma FramesHaveFirst(fs: seq<SentFrame>, k: nat, x: int)
    requires fs != []
    ensures FramesHave(fs, k, x) <==> fs[0].Has(k, x) || FramesHave(fs[1..], k, x)
  {
    assert fs == [fs[0]] + fs[1..];
  }

  lemma HasByteFirst(ps: seq<Packet>, k: nat, x: int)
    requires ps != []
    ensures HasByte(ps, k, x) <==> FramesHave(ps[0].frames, k, x) || HasByte(ps[1..], k, x)
  {
    assert ps == [ps[0]] + ps[1..];
    if HasByte(ps, k, x) {
      var p, f :| p in ps && f in p.frames && f.Has(k, x);
      assert p == ps[0] || p in ps[1..];
    }
  }

  /** A sending side that still resends. */
  ghost predicate Live(o: Out) { !o.reset && !o.done }

  lemma FrameLostBytes(outs: seq<Out>, i: nat, f: SentFrame, k: nat, x: int)
    requires AllValid(outs) && FrameOk(outs, i, f) && k < |outs| && Live(outs[k]) && outs[k].buf.base <= x
    ensures var r := FrameLost(outs, i, f)[k];
            && Live(r) && r.buf.base == outs[k].buf.base
            && (Covers(r.buf.lost, x) <==> Covers(outs[k].buf.lost, x) || f.Has(k, x))
  {
    if f.Data? && f.k == k {
      OnLostSound(outs[k].buf, f.off, f.n);
    }
  }

  lemma FrameAckedBytes(outs: seq<Out>, i: nat, f: SentFrame, k: nat, x: int)
    requires AllValid(outs) && FrameOk(outs, i, f) && k < |outs| && !outs[k].reset
    ensures var r := FrameAcked(outs, i, f)[k];
            !r.reset && (r.buf.Acked(x) <==> outs[k].buf.Acked(x) || f.Has(k, x))
  {
    if f.Data? && f.k == k {
      OnAckSound(outs[k].buf, f.off, f.n);
    }
  }

  lemma {:induction false} FramesLostBytes(outs: seq<Out>, i: nat, fs: seq<SentFrame>, k: nat, x: int)
    requires AllValid(outs) && FramesOk(outs, i, fs) && k < |outs| && Live(outs[k]) && outs[k].buf.base <= x
    ensures var r := FramesLost(outs, i, fs)[k];
            && Live(r) && r.buf.base == outs[k].buf.base
            && (Covers(r.buf.lost, x) <==> Covers(outs[k].buf.lost, x) || FramesHave(fs, k, x))
    decreases |fs|
  {
    if fs != [] {
      var next := FrameLost(outs, i, fs[0]);
      EvolvesKeepsFrames(outs, next, i, fs);
      FramesHaveFirst(fs, k, x);
      FrameLostBytes(outs, i, fs[0], k, x);
      FramesLostBytes(next, i, fs[1..], k, x);
    }
  }

  /** Exactly the bytes of the packets, from base on, are queued to be sent again. */
  lemma {:induction false} PacketsLostBytes(outs: seq<Out>, i: nat, ps: seq<Packet>, k: nat, x: int)
    requires AllValid(outs) && PacketsOk(outs, i, ps) && k < |outs| && Live(outs[k]) && outs[k].buf.base <= x
    ensures var r := PacketsLost(outs, i, ps)[k];
            && Live(r) && r.buf.base == outs[k].buf.base
            && (Covers(r.buf.lost, x) <==> Covers(outs[k].buf.lost, x) || HasByte(ps, k, x))
    decreases |ps|
  {
    if ps != [] {
      assert ps[0] in ps;
      FramesLostBytes(outs, i, ps[0].frames, k, x);
      var next := FramesLost(outs, i, ps[0].frames);
      PacketsOkEvolves(outs, next, i, ps[1..]);
      PacketsLostBytes(next, i, ps[1..], k, x);
      HasByteFirst(ps, k, x);
    }
  }

  lemma {:induction false} FramesAckedBytes(outs: seq<Out>, i: nat, fs: seq<SentFrame>, k: nat, x: int)
    requires AllValid(outs) && FramesOk(outs, i, fs) && k < |outs| && !outs[k].reset
    ensures var r := FramesAcked(outs, i, fs)[k];
            !r.reset && (r.buf.Acked(x) <==> outs[k].buf.Acked(x) || FramesHave(fs, k, x))
    decreases |fs|
  {
    if fs != [] {
      var next := FrameAcked(outs, i, fs[0]);
      EvolvesKeepsFrames(outs, next, i, fs);
      FramesHaveFirst(fs, k, x);
      FrameAckedBytes(outs, i, fs[0], k, x);
      FramesAckedBytes(next, i, fs[1..], k, x);
    }
  }

  /** Exactly the bytes of the packets become acknowledged. */
  lemma {:induction false} PacketsAckedBytes(outs: seq<Out>, i: nat, ps: seq<Packet>, k: nat, x: int)
    requires AllValid(outs) && PacketsOk(outs, i, ps) && k < |outs| && !outs[k].reset
    ensures var r := PacketsAcked(outs, i, ps)[k];
            !r.reset && (r.buf.Acked(x) <==> outs[k].buf.Acked(x) || HasByte(ps, k, x))
    decreases |ps|
  {
    if ps != [] {
      assert ps[0] in ps;
      FramesAckedBytes(outs, i, ps[0].frames, k, x);
      var next := FramesAcked(outs, i, ps[0].frames);
      PacketsOkEvolves(outs, next, i, ps[1..]);
      PacketsAckedBytes(next, i, ps[1..], k, x);
      HasByteFirst(ps, k, x);
    }
  }

  /** Some recorded packet that is behind carries the byte. */
  ghost predicate BehindHas(s: Space, now: int, lossDelay: nat, k: nat, x: int) {
    exists p, f ::
      p in s.sent && s.largestAcked >= 0 && Behind(p, s.largestAcked, now, lossDelay) && f in p.frames && f.Has(k, x)
  }

  /** Detecting losses queues again exactly the bytes of the packets that are behind. */
  lemma LostBytesIff(c: Conn, i: nat, now: int, lossDelay: nat, k: nat, x: int)
    requires Shape(c) && i < 3 && k < |c.outs| && Live(c.outs[k]) && c.outs[k].buf.base <= x
    ensures var r := DetectLost(c, i, now, lossDelay).outs[k];
            Covers(r.buf.lost, x) <==> Covers(c.outs[k].buf.lost, x) || BehindHas(c.spaces[i], now, lossDelay, k, x)
  {
    var s := c.spaces[i];
    if s.largestAcked >= 0 {
      var lost := LostOf(s, now - lossDelay);
      SelectMembers(s.sent, LostP(s.largestAcked, now - lossDelay));
      PacketsOkSub(c.outs, i, s.sent, lost);
      PacketsLostBytes(c.outs, i, lost, k, x);
      LostHas(s, lost, now, lossDelay, k, x);
    }
  }

  lemma LostHas(s: Space, lost: seq<Packet>, now: int, lossDelay: nat, k: nat, x: int)
    requires s.largestAcked >= 0
    requires forall p :: p in lost <==> p in s.sent && Behind(p, s.largestAcked, now, lossDelay)
    ensures HasByte(lost, k, x) <==> BehindHas(s, now, lossDelay, k, x)
  {
    if HasByte(lost, k, x) {
      var p, f :| p in lost && f in p.frames && f.Has(k, x);
      assert p in s.sent;
    }
    if BehindHas(s, now, lossDelay, k, x) {
      var p, f :|
        p in s.sent && s.largestAcked >= 0 && Behind(p, s.largestAcked, now, lossDelay) && f in p.frames && f.Has(k, x);
      assert p in lost;
    }
  }

  // Probes.

  /** The packet elicits an acknowledgement and, in the application space, fewer than two before it do. */
  ghost predicate IsProbed(s: Space, i: nat, j: nat) {
    j < |s.sent| && s.sent[j].ackEliciting && (i == 2 ==> Eliciting(s.sent[..j]) < 2)
  }

  ghost predicate ProbedHas(s: Space, i: nat, k: nat, x: int) {
    exists j, f :: 0 <= j < |s.sent| && IsProbed(s, i, j) && f in s.sent[j].frames && f.Has(k, x)
  }

  /** Where an ack-eliciting packet is among those that elicit. */
  lemma {:induction false} PlaceOfEliciting(ps: seq<Packet>, j: nat)
    requires j < |ps| && ps[j].ackEliciting
    ensures var es := Select(ps, ElicitsP()); Eliciting(ps[..j]) < |es| && es[Eliciting(ps[..j])] == ps[j]
  {
    var n := |ps| - 1;
    if j == n {
      ElicitingCount(ps[..n]);
    } else {
      PlaceOfEliciting(ps[..n], j);
      assert ps[..n][..j] == ps[..j];
    }
  }

  lemma {:induction false} ElicitingCount(ps: seq<Packet>)
    ensures |Select(ps, ElicitsP())| == Eliciting(ps)
  {
    if ps != [] {
      ElicitingCount(ps[..|ps| - 1]);
    }
  }

  lemma {:induction false} ElicitingAt(ps: seq<Packet>, m: nat) returns (j: nat)
    requires m < |Select(ps, ElicitsP())|
    ensures j < |ps| && ps[j].ackEliciting && ps[j] == Select(ps, ElicitsP())[m] && Eliciting(ps[..j]) == m
  {
    var n := |ps| - 1;
    var es := Select(ps[..n], ElicitsP());
    if m < |es| {
      j := ElicitingAt(ps[..n], m);
      assert ps[..n][..j] == ps[..j];
    } else {
      ElicitingCount(ps[..n]);
      j := n;
    }
  }

  lemma ProbedBytes(s: Space, i: nat, k: nat, x: int)
    ensures HasByte(Probed(s, i), k, x) <==> ProbedHas(s, i, k, x)
  {
    var es, ps := Select(s.sent, ElicitsP()), Probed(s, i);
    if HasByte(ps, k, x) {
      var p, f :| p in ps && f in p.frames && f.Has(k, x);
      var m :| 0 <= m < |ps| && ps[m] == p;
      var j := ElicitingAt(s.sent, m);
      assert IsProbed(s, i, j);
    }
    if ProbedHas(s, i, k, x) {
      var j, f :| 0 <= j < |s.sent| && IsProbed(s, i, j) && f in s.sent[j].frames && f.Has(k, x);
      PlaceOfEliciting(s.sent, j);
      assert ps[Eliciting(s.sent[..j])] == s.sent[j];
      assert s.sent[j] in ps;
    }
  }

  /** A probe queues again exactly the bytes of the oldest two ack-eliciting packets, or of all of them
      while the handshake goes on, and forgets no packet. */
  lemma ProbeBytesIff(c: Conn, i: nat, k: nat, x: int)
    requires Shape(c) && i < 3 && k < |c.outs| && Live(c.outs[k]) && c.outs[k].buf.base <= x
    ensures var r := Probe(c, i);
            && r.spaces == c.spaces
            && (Covers(r.outs[k].buf.lost, x) <==> Covers(c.outs[k].buf.lost, x) || ProbedHas(c.spaces[i], i, k, x))
  {
    var s := c.spaces[i];
    SelectMembers(s.sent, ElicitsP());
    PacketsOkSub(c.outs, i, s.sent, Probed(s, i));
    PacketsLostBytes(c.outs, i, Probed(s, i), k, x);
    ProbedBytes(s, i, k, x);
  }
}
