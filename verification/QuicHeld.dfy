/** No sent byte is stranded: what has left a buffer and is not acknowledged is queued
    to be sent again or held by a packet that may still be acknowledged or lost. */
module QuicHeld {
  import opened QuicSpans
  import opened QuicSendBuffer
  import opened QuicStreamSend
  import opened QuicPackets

  /** Sending sides 0, 1 and 2 are the CRYPTO streams of the three spaces; the others
      are streams, which send in the application space. */
  function SpaceOf(k: nat): nat { if k < 3 then k else 2 }

  ghost predicate AllValid(outs: seq<Out>) {
    forall k :: 0 <= k < |outs| ==> outs[k].Valid()
  }

  /** A frame of space i describes something its sending side has sent. */
  ghost predicate FrameOk(outs: seq<Out>, i: nat, f: SentFrame) {
    match f
    case Data(k, off, n, fin) =>
      && k < |outs| && SpaceOf(k) == i && off + n <= outs[k].buf.next
      && (fin && !outs[k].reset ==> outs[k].finQueued && off + n == outs[k].finalSize == outs[k].buf.next)
    case Reset(k) => 3 <= k < |outs| && i == 2 && outs[k].reset
    case Control => true
  }

  ghost predicate FramesOk(outs: seq<Out>, i: nat, fs: seq<SentFrame>) {
    forall f :: f in fs ==> FrameOk(outs, i, f)
  }

  ghost predicate PacketsOk(outs: seq<Out>, i: nat, ps: seq<Packet>) {
    forall p :: p in ps ==> FramesOk(outs, i, p.frames)
  }

  ghost predicate HasByte(ps: seq<Packet>, k: nat, x: int) {
    exists p, f :: p in ps && f in p.frames && f.Has(k, x)
  }

  ghost predicate HasFin(ps: seq<Packet>, k: nat) {
    exists p, f :: p in ps && f in p.frames && f.Data? && f.k == k && f.fin
  }

  ghost predicate HasReset(ps: seq<Packet>, k: nat) {
    exists p :: p in ps && Reset(k) in p.frames
  }

  /** Nothing of sending side k is stranded while the packets ps are remembered. */
  ghost predicate Safe(o: Out, k: nat, ps: seq<Packet>) {
    && (forall x :: o.buf.base <= x < o.buf.next ==>
          o.buf.Acked(x) || Covers(o.buf.lost, x) || HasByte(ps, k, x))
    && (o.finSent && !o.finAcked && !o.reset ==> HasFin(ps, k))
    && (o.reset && !o.resetPending && !o.resetAcked ==> HasReset(ps, k))
  }

  ghost predicate Good(outs: seq<Out>, i: nat, ps: seq<Packet>) {
    && PacketsOk(outs, i, ps)
    && forall k :: 0 <= k < |outs| && SpaceOf(k) == i ==> Safe(outs[k], k, ps)
  }

  /** Acknowledgement and loss change what is known about sent bytes, not what was sent. */
  ghost predicate Evolves(a: seq<Out>, b: seq<Out>) {
    && |a| == |b|
    && forall k :: 0 <= k < |a| ==>
         && b[k].buf.next == a[k].buf.next && b[k].sendMax == a[k].sendMax
         && b[k].reset == a[k].reset && b[k].finQueued == a[k].finQueued && b[k].finalSize == a[k].finalSize
  }

  lemma EvolvesKeepsFrames(a: seq<Out>, b: seq<Out>, i: nat, fs: seq<SentFrame>)
    requires Evolves(a, b) && FramesOk(a, i, fs)
    ensures FramesOk(b, i, fs)
  {
  }

  lemma Replaced(outs: seq<Out>, i: nat, k: nat, o: Out)
    requires AllValid(outs) && k < |outs| && SpaceOf(k) == i && o.Valid() && o.buf.next == outs[k].buf.next
    requires o.sendMax == outs[k].sendMax && o.reset == outs[k].reset && o.finQueued == outs[k].finQueued
    requires o.finalSize == outs[k].finalSize
    ensures AllValid(outs[k := o]) && Evolves(outs, outs[k := o])
    ensures forall j :: 0 <= j < |outs| && SpaceOf(j) != i ==> outs[k := o][j] == outs[j]
  {
  }

  /** frameAcked. */
  function FrameAcked(outs: seq<Out>, ghost i: nat, f: SentFrame): (r: seq<Out>)
    requires AllValid(outs) && FrameOk(outs, i, f)
    ensures AllValid(r) && Evolves(outs, r)
    ensures forall k :: 0 <= k < |outs| && SpaceOf(k) != i ==> r[k] == outs[k]
  {
    match f
    case Data(k, off, n, fin) =>
      AckedValid(outs[k], off, n, fin);
      Replaced(outs, i, k, outs[k].OnDataAcked(off, n, fin));
      outs[k := outs[k].OnDataAcked(off, n, fin)]
    case Reset(k) => outs[k := outs[k].OnResetAcked()]
    case Control => outs
  }

  /** frameLost. */
  function FrameLost(outs: seq<Out>, ghost i: nat, f: SentFrame): (r: seq<Out>)
    requires AllValid(outs) && FrameOk(outs, i, f)
    ensures AllValid(r) && Evolves(outs, r)
    ensures forall k :: 0 <= k < |outs| && SpaceOf(k) != i ==> r[k] == outs[k]
  {
    match f
    case Data(k, off, n, fin) =>
      LostValid(outs[k], off, n, fin);
      Replaced(outs, i, k, outs[k].OnDataLost(off, n, fin));
      outs[k := outs[k].OnDataLost(off, n, fin)]
    case Reset(k) => outs[k := outs[k].OnResetLost()]
    case Control => outs
  }

  /** All the frames of one packet, in order. */
  function FramesAcked(outs: seq<Out>, ghost i: nat, fs: seq<SentFrame>): (r: seq<Out>)
    requires AllValid(outs) && FramesOk(outs, i, fs)
    ensures AllValid(r) && Evolves(outs, r)
    ensures forall k :: 0 <= k < |outs| && SpaceOf(k) != i ==> r[k] == outs[k]
    decreases |fs|
  {
    if fs == [] then outs
    else
      var next := FrameAcked(outs, i, fs[0]);
      EvolvesKeepsFrames(outs, next, i, fs);
      FramesAcked(next, i, fs[1..])
  }

  function FramesLost(outs: seq<Out>, ghost i: nat, fs: seq<SentFrame>): (r: seq<Out>)
    requires AllValid(outs) && FramesOk(outs, i, fs)
    ensures AllValid(r) && Evolves(outs, r)
    ensures forall k :: 0 <= k < |outs| && SpaceOf(k) != i ==> r[k] == outs[k]
    decreases |fs|
  {
    if fs == [] then outs
    else
      var next := FrameLost(outs, i, fs[0]);
      EvolvesKeepsFrames(outs, next, i, fs);
      FramesLost(next, i, fs[1..])
  }

  /** All the frames of several packets. */
  function PacketsAcked(outs: seq<Out>, ghost i: nat, ps: seq<Packet>): (r: seq<Out>)
    requires AllValid(outs) && PacketsOk(outs, i, ps)
    ensures AllValid(r) && Evolves(outs, r)
    ensures forall k :: 0 <= k < |outs| && SpaceOf(k) != i ==> r[k] == outs[k]
    decreases |ps|
  {
    if ps == [] then outs
    else
      assert ps[0] in ps;
      PacketsAcked(FramesAcked(outs, i, ps[0].frames), i, ps[1..])
  }

  function PacketsLost(outs: seq<Out>, ghost i: nat, ps: seq<Packet>): (r: seq<Out>)
    requires AllValid(outs) && PacketsOk(outs, i, ps)
    ensures AllValid(r) && Evolves(outs, r)
    ensures forall k :: 0 <= k < |outs| && SpaceOf(k) != i ==> r[k] == outs[k]
    decreases |ps|
  {
    if ps == [] then outs
    else
      assert ps[0] in ps;
      PacketsLost(FramesLost(outs, i, ps[0].frames), i, ps[1..])
  }

  /** What p carries besides f, or what the other packets carry, or f itself. */
  lemma HasByteSplit(p: Packet, ps: seq<Packet>, k: nat, x: int)
    requires p.frames != []
    ensures HasByte([p] + ps, k, x) ==>
              p.frames[0].Has(k, x) || HasByte([p.(frames := p.frames[1..])] + ps, k, x)
  {
    if HasByte([p] + ps, k, x) {
      var q, f :| q in [p] + ps && f in q.frames && f.Has(k, x);
      var r := p.(frames := p.frames[1..]);
      assert r in [r] + ps;
      if q == p && f != p.frames[0] {
        assert f in r.frames;
      } else if q != p {
        assert q in [r] + ps;
      }
    }
  }

  lemma HasFinSplit(p: Packet, ps: seq<Packet>, k: nat)
    requires p.frames != []
    ensures HasFin([p] + ps, k) ==>
              || (p.frames[0].Data? && p.frames[0].k == k && p.frames[0].fin)
              || HasFin([p.(frames := p.frames[1..])] + ps, k)
  {
    if HasFin([p] + ps, k) {
      var q, f :| q in [p] + ps && f in q.frames && f.Data? && f.k == k && f.fin;
      var r := p.(frames := p.frames[1..]);
      assert r in [r] + ps;
      if q == p && f != p.frames[0] {
        assert f in r.frames;
      } else if q != p {
        assert q in [r] + ps;
      }
    }
  }

  lemma HasResetSplit(p: Packet, ps: seq<Packet>, k: nat)
    requires p.frames != []
    ensures HasReset([p] + ps, k) ==>
              p.frames[0] == Reset(k) || HasReset([p.(frames := p.frames[1..])] + ps, k)
  {
    if HasReset([p] + ps, k) {
      var q :| q in [p] + ps && Reset(k) in q.frames;
      var r := p.(frames := p.frames[1..]);
      assert r in [r] + ps;
      if q == p && p.frames[0] != Reset(k) {
        assert Reset(k) in r.frames;
      } else if q != p {
        assert q in [r] + ps;
      }
    }
  }

  /** Dropping a frame from the record is safe for a sending side it does not concern. */
  lemma DropFrame(o: Out, k: nat, p: Packet, ps: seq<Packet>)
    requires p.frames != [] && Safe(o, k, [p] + ps)
    requires p.frames[0].Control? || p.frames[0].k != k
    ensures Safe(o, k, [p.(frames := p.frames[1..])] + ps)
  {
    HasFinSplit(p, ps, k);
    HasResetSplit(p, ps, k);
    forall x ensures HasByte([p] + ps, k, x) ==> HasByte([p.(frames := p.frames[1..])] + ps, k, x) {
      HasByteSplit(p, ps, k, x);
    }
  }

  /** An acknowledged frame need not be remembered any longer. */
  lemma AckFrameSafe(outs: seq<Out>, i: nat, p: Packet, ps: seq<Packet>, k: nat)
    requires AllValid(outs) && p.frames != [] && FrameOk(outs, i, p.frames[0])
    requires k < |outs| && Safe(outs[k], k, [p] + ps)
    ensures Safe(FrameAcked(outs, i, p.frames[0])[k], k, [p.(frames := p.frames[1..])] + ps)
  {
    var f := p.frames[0];
    if f.Control? || f.k != k {
      DropFrame(outs[k], k, p, ps);
    } else {
      HasFinSplit(p, ps, k);
      HasResetSplit(p, ps, k);
      forall x ensures HasByte([p] + ps, k, x) ==>
                       f.Has(k, x) || HasByte([p.(frames := p.frames[1..])] + ps, k, x) {
        HasByteSplit(p, ps, k, x);
      }
      if f.Data? {
        OnAckSound(outs[k].buf, f.off, f.n);
      }
    }
  }

  /** A lost frame need not be remembered any longer. */
  lemma LoseFrameSafe(outs: seq<Out>, i: nat, p: Packet, ps: seq<Packet>, k: nat)
    requires AllValid(outs) && p.frames != [] && FrameOk(outs, i, p.frames[0])
    requires k < |outs| && Safe(outs[k], k, [p] + ps)
    ensures Safe(FrameLost(outs, i, p.frames[0])[k], k, [p.(frames := p.frames[1..])] + ps)
  {
    var f := p.frames[0];
    if f.Control? || f.k != k {
      DropFrame(outs[k], k, p, ps);
    } else {
      HasFinSplit(p, ps, k);
      HasResetSplit(p, ps, k);
      forall x ensures HasByte([p] + ps, k, x) ==>
                       f.Has(k, x) || HasByte([p.(frames := p.frames[1..])] + ps, k, x) {
        HasByteSplit(p, ps, k, x);
      }
      if f.Data? {
        LostOutSafe(outs[k], f, [p] + ps, [p.(frames := p.frames[1..])] + ps);
      }
    }
  }

  lemma LostOutSafe(o: Out, f: SentFrame, all: seq<Packet>, rest: seq<Packet>)
    requires o.Valid() && f.Data? && f.off + f.n <= o.buf.next && Safe(o, f.k, all)
    requires forall x :: HasByte(all, f.k, x) ==> f.Has(f.k, x) || HasByte(rest, f.k, x)
    requires HasFin(all, f.k) ==> f.fin || HasFin(rest, f.k)
    requires HasReset(all, f.k) ==> HasReset(rest, f.k)
    ensures Safe(o.OnDataLost(f.off, f.n, f.fin), f.k, rest)
  {
    OnLostSound(o.buf, f.off, f.n);
  }

  lemma {:induction false} AckPacketGood(outs: seq<Out>, i: nat, p: Packet, ps: seq<Packet>)
    requires AllValid(outs) && Good(outs, i, [p] + ps) && FramesOk(outs, i, p.frames)
    ensures Good(FramesAcked(outs, i, p.frames), i, ps)
    decreases |p.frames|
  {
    if p.frames == [] {
      ForgetEmpty(outs, i, p, ps);
    } else {
      var next := FrameAcked(outs, i, p.frames[0]);
      var q := p.(frames := p.frames[1..]);
      forall k | 0 <= k < |outs| && SpaceOf(k) == i ensures Safe(next[k], k, [q] + ps) {
        AckFrameSafe(outs, i, p, ps, k);
      }
      PacketsStayOk(outs, next, i, p, ps);
      AckPacketGood(next, i, q, ps);
    }
  }

  lemma {:induction false} LosePacketGood(outs: seq<Out>, i: nat, p: Packet, ps: seq<Packet>)
    requires AllValid(outs) && Good(outs, i, [p] + ps) && FramesOk(outs, i, p.frames)
    ensures Good(FramesLost(outs, i, p.frames), i, ps)
    decreases |p.frames|
  {
    if p.frames == [] {
      ForgetEmpty(outs, i, p, ps);
    } else {
      var next := FrameLost(outs, i, p.frames[0]);
      var q := p.(frames := p.frames[1..]);
      forall k | 0 <= k < |outs| && SpaceOf(k) == i ensures Safe(next[k], k, [q] + ps) {
        LoseFrameSafe(outs, i, p, ps, k);
      }
      PacketsStayOk(outs, next, i, p, ps);
      LosePacketGood(next, i, q, ps);
    }
  }

  lemma PacketsStayOk(outs: seq<Out>, next: seq<Out>, i: nat, p: Packet, ps: seq<Packet>)
    requires PacketsOk(outs, i, [p] + ps) && Evolves(outs, next) && p.frames != []
    ensures PacketsOk(next, i, [p.(frames := p.frames[1..])] + ps)
    ensures FramesOk(next, i, p.frames[1..])
  {
    assert p in [p] + ps;
    EvolvesKeepsFrames(outs, next, i, p.frames);
    forall q | q in ps ensures FramesOk(next, i, q.frames) {
      assert q in [p] + ps;
      EvolvesKeepsFrames(outs, next, i, q.frames);
    }
  }

  /** A packet without frames holds nothing. */
  lemma ForgetEmpty(outs: seq<Out>, i: nat, p: Packet, ps: seq<Packet>)
    requires p.frames == [] && Good(outs, i, [p] + ps)
    ensures Good(outs, i, ps)
  {
    assert forall q :: q in ps ==> q in [p] + ps;
    assert forall q :: q in [p] + ps ==> q == p || q in ps;
    forall k | 0 <= k < |outs| && SpaceOf(k) == i ensures Safe(outs[k], k, ps) {
      assert Safe(outs[k], k, [p] + ps);
      assert forall x :: HasByte([p] + ps, k, x) ==> HasByte(ps, k, x);
    }
  }

  /** Only which packets are remembered matters, not their order. */
  lemma GoodByMembers(outs: seq<Out>, i: nat, ps: seq<Packet>, qs: seq<Packet>)
    requires Good(outs, i, ps) && forall p :: p in ps <==> p in qs
    ensures Good(outs, i, qs)
  {
    forall k | 0 <= k < |outs| && SpaceOf(k) == i ensures Safe(outs[k], k, qs) {
      assert Safe(outs[k], k, ps);
      assert forall x :: HasByte(ps, k, x) ==> HasByte(qs, k, x);
    }
  }

  /** Several acknowledged packets can be forgotten together. */
  lemma {:induction false} AckPacketsGood(outs: seq<Out>, i: nat, ps: seq<Packet>, held: seq<Packet>)
    requires AllValid(outs) && Good(outs, i, ps + held) && PacketsOk(outs, i, ps)
    ensures Good(PacketsAcked(outs, i, ps), i, held)
    decreases |ps|
  {
    if ps == [] {
      assert ps + held == held;
    } else {
      assert ps + held == [ps[0]] + (ps[1..] + held);
      assert ps[0] in ps;
      AckPacketGood(outs, i, ps[0], ps[1..] + held);
      AckPacketsGood(FramesAcked(outs, i, ps[0].frames), i, ps[1..], held);
    }
  }

  /** Several lost packets can be forgotten together. */
  lemma {:induction false} LosePacketsGood(outs: seq<Out>, i: nat, ps: seq<Packet>, held: seq<Packet>)
    requires AllValid(outs) && Good(outs, i, ps + held) && PacketsOk(outs, i, ps)
    ensures Good(PacketsLost(outs, i, ps), i, held)
    decreases |ps|
  {
    if ps == [] {
      assert ps + held == held;
    } else {
      assert ps + held == [ps[0]] + (ps[1..] + held);
      assert ps[0] in ps;
      LosePacketGood(outs, i, ps[0], ps[1..] + held);
      LosePacketsGood(FramesLost(outs, i, ps[0].frames), i, ps[1..], held);
    }
  }

  /** Probing queues what some packets carry without forgetting them. */
  lemma ProbeGood(outs: seq<Out>, i: nat, ps: seq<Packet>, held: seq<Packet>)
    requires AllValid(outs) && Good(outs, i, held) && PacketsOk(outs, i, ps)
    requires forall p :: p in ps ==> p in held
    ensures Good(PacketsLost(outs, i, ps), i, held)
  {
    GoodByMembers(outs, i, held, ps + held);
    LosePacketsGood(outs, i, ps, held);
  }

  /** A space whose sending sides did not change stays good. */
  lemma GoodElsewhere(outs: seq<Out>, next: seq<Out>, i: nat, ps: seq<Packet>)
    requires Good(outs, i, ps) && |outs| == |next|
    requires forall k :: 0 <= k < |outs| && SpaceOf(k) == i ==> next[k] == outs[k]
    ensures Good(next, i, ps)
  {
    forall p, f | p in ps && f in p.frames ensures FrameOk(next, i, f) {
      assert FrameOk(outs, i, f);
    }
  }
}
