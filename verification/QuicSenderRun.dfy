/** Every run of the sending half of a connection: what the application and the peer
    may do at any time, and what holds whatever they do. */
module QuicSenderRun {
  import opened Bytes
  import opened QuicSpans
  import opened QuicStreamSend
  import opened QuicPackets
  import opened QuicHeld
  import opened QuicDraft
  import opened QuicSender

  datatype Step =
    | Open(sendMax: nat)
    | WriteStream(k: nat, p: seq<byte>, fin: bool)
    | WriteCrypto(i: nat, p: seq<byte>)
    | ResetStream(k: nat)
    | Finish(k: nat)
    | MaxData(m: nat)
    | MaxStreamData(k: nat, m: nat)
    | SendPacket(i: nat, takes: seq<Take>, ping: bool, padded: bool, size: nat, now: int)
    | AckFrame(i: nat, ranges: seq<PnRange>, now: int, lossDelay: nat)
    | LossTimer(i: nat, now: int, lossDelay: nat)
    | ProbeTimer(i: nat)
    | DiscardSpace(i: nat)
    | RetryPacket

  /** The packet a draft becomes once it is sealed. */
  function Sealed(s: Space, d: Draft, ping: bool, padded: bool, size: nat, now: int): Packet {
    var eliciting := d.frames != [] || ping;
    Packet(s.nextPN, now, size, eliciting, eliciting || padded, d.frames)
  }

  /** onPacketSent. */
  function Record(s: Space, p: Packet): Space {
    s.(sent := s.sent + [p], nextPN := s.nextPN + 1, eliciting := s.eliciting + if p.ackEliciting then 1 else 0)
  }

  lemma StartDraft(c: Conn, i: nat)
    requires Held(c) && i < 3
    ensures GoodDraft(Draft(c.outs, [], c.sentData, c.wire), i, c.spaces[i].sent)
  {
    var ps := c.spaces[i].sent;
    assert Good(c.outs, i, ps);
    assert forall p :: p in ps + [Carrying([])] ==> p in ps || p.frames == [];
    forall k | 0 <= k < |c.outs| && SpaceOf(k) == i ensures Safe(c.outs[k], k, ps + [Carrying([])]) {
      assert Safe(c.outs[k], k, ps);
      assert forall p :: p in ps ==> p in ps + [Carrying([])];
      assert forall x :: HasByte(ps, k, x) ==> HasByte(ps + [Carrying([])], k, x);
    }
  }

  /** buildPacket and onPacketSent. */
  function Send(c: Conn, i: nat, takes: seq<Take>, ping: bool, padded: bool, size: nat, now: int): Conn
    requires Held(c) && i < 3
  {
    StartDraft(c, i);
    var d := TakeAll(Draft(c.outs, [], c.sentData, c.wire), i, takes, c.peerMaxData, c.spaces[i].sent);
    var p := Sealed(c.spaces[i], d, ping, padded, size, now);
    c.(spaces := c.spaces[i := Record(c.spaces[i], p)], outs := d.outs, sentData := d.sentData, wire := d.wire,
       cc := c.cc.(bytesInFlight := c.cc.bytesInFlight + if p.inFlight then p.size else 0))
  }

  predicate Enabled(c: Conn, step: Step) {
    match step
    case Open(_) => true
    case WriteStream(k, _, _) => 3 <= k < |c.outs|
    case WriteCrypto(i, _) => i < 3 == |c.spaces| && i < |c.outs| && !c.spaces[i].discarded
    case ResetStream(k) => 3 <= k < |c.outs|
    case Finish(k) => 3 <= k < |c.outs| && c.outs[k].SendDone()
    case MaxData(m) => m > c.peerMaxData
    case MaxStreamData(k, m) => 3 <= k < |c.outs| && m > c.outs[k].sendMax
    case SendPacket(i, _, _, _, _, _) => i < 3 == |c.spaces| && !c.spaces[i].discarded
    case AckFrame(i, ranges, _, _) => i < 3 && ranges != []
    case LossTimer(i, _, _) => i < 3
    case ProbeTimer(i) => i < 3
    case DiscardSpace(i) => i < 2
    case RetryPacket => true
  }

  /** The state after a step; a step that is not enabled, or that ends the connection
      with a protocol violation, changes nothing. */
  ghost function Next(c: Conn, step: Step): Conn
    requires Inv(c)
  {
    HeldShape(c);
    if !Enabled(c, step) then c else
    match step
    case Open(sendMax) => c.(outs := c.outs + [FRESH.(sendMax := sendMax)])
    case WriteStream(k, p, fin) => c.(outs := c.outs[k := c.outs[k].Write(p, fin)])
    case WriteCrypto(i, p) => c.(outs := c.outs[i := c.outs[i].Write(p, false)])
    case ResetStream(k) => c.(outs := c.outs[k := c.outs[k].Abandon()])
    case Finish(k) => c.(outs := c.outs[k := c.outs[k].(done := true)])
    case MaxData(m) => c.(peerMaxData := m)
    case MaxStreamData(k, m) => c.(outs := c.outs[k := c.outs[k].(sendMax := m)])
    case SendPacket(i, takes, ping, padded, size, now) => Send(c, i, takes, ping, padded, size, now)
    case AckFrame(i, ranges, now, lossDelay) =>
      var r := OnAckReceived(c, i, ranges, now, lossDelay);
      if r.Some? then r.value else c
    case LossTimer(i, now, lossDelay) => DetectLost(c, i, now, lossDelay)
    case ProbeTimer(i) => Probe(c, i)
    case DiscardSpace(i) => Discard(c, i)
    case RetryPacket => Retry(c)
  }

  function StartSpace(): Space { Space(false, 0, -1, [], 0) }

  /** A connection that has sent nothing; the peer has granted peerMaxData. */
  function Start(peerMaxData: nat): Conn {
    Conn([StartSpace(), StartSpace(), StartSpace()], [FRESH, FRESH, FRESH],
         Reno(INITIAL_WINDOW, NO_THRESHOLD, 0, None), 0, peerMaxData, [])
  }

  lemma FreshGood(i: nat)
    ensures AllValid([FRESH, FRESH, FRESH]) && Good([FRESH, FRESH, FRESH], i, [])
  {
    var outs := [FRESH, FRESH, FRESH];
    assert forall k :: 0 <= k < |outs| ==> outs[k] == FRESH;
  }

  lemma StartBooks(peerMaxData: nat)
    ensures Books(Start(peerMaxData))
  {
    var spaces := Start(peerMaxData).spaces;
    assert forall i :: 0 <= i < |spaces| ==> spaces[i] == StartSpace();
  }

  lemma StartLimits(peerMaxData: nat)
    ensures Limits(Start(peerMaxData))
  {
  }

  lemma StartInv(peerMaxData: nat)
    ensures Inv(Start(peerMaxData))
  {
    StartBooks(peerMaxData);
    StartLimits(peerMaxData);
    var c := Start(peerMaxData);
    assert Held(c) by {
      assert forall i :: 0 <= i < 3 ==> c.spaces[i].sent == [];
      forall i | 0 <= i < 3 ensures Good(c.outs, i, c.spaces[i].sent) {
        FreshGood(i);
      }
    }
  }

  // Sending a packet.

  lemma RecordBooks(c: Conn, i: nat, p: Packet)
    requires Books(c) && i < 3 && p.pn == c.spaces[i].nextPN
    ensures BooksBut(c.spaces[i := Record(c.spaces[i], p)],
                     c.cc.(bytesInFlight := c.cc.bytesInFlight + if p.inFlight then p.size else 0), 0, 0, 0)
  {
    var s := c.spaces[i];
    assert SpaceBooks(s, 0);
    TotalsSnoc(s.sent, p);
    assert (s.sent + [p])[..|s.sent|] == s.sent;
    NothingOffBack(c.spaces, i);
    ReplaceBooks(c.spaces, i, 0, Record(s, p), 0);
    TotalUpdate(c.spaces, i, Record(s, p));
    var t := c.spaces[i := Record(s, p)];
    forall j | 0 <= j < |t| ensures SpaceBooks(t[j], 0) {
      assert SpaceBooks(t[j], if j == i then 0 else 0);
    }
  }

  lemma NothingOffBack(spaces: seq<Space>, i: nat)
    requires AllBooks(spaces, 0, 0)
    ensures AllBooks(spaces, i, 0)
  {
  }

  /** Only the frames of a packet matter for what it holds. */
  lemma SealGood(outs: seq<Out>, i: nat, held: seq<Packet>, p: Packet, q: Packet)
    requires Good(outs, i, held + [p]) && p.frames == q.frames
    ensures Good(outs, i, held + [q])
  {
    var a, b := held + [p], held + [q];
    assert p in a && q in b;
    assert forall r :: r in b ==> r == q || r in a;
    assert forall r :: r in a ==> r == p || r in b;
    forall k | 0 <= k < |outs| && SpaceOf(k) == i ensures Safe(outs[k], k, b) {
      assert Safe(outs[k], k, a);
      assert forall x :: HasByte(a, k, x) ==> HasByte(b, k, x);
    }
  }

  lemma SendKeeps(c: Conn, i: nat, takes: seq<Take>, ping: bool, padded: bool, size: nat, now: int)
    requires Inv(c) && i < 3
    ensures Inv(Send(c, i, takes, ping, padded, size, now))
  {
    StartDraft(c, i);
    var held := c.spaces[i].sent;
    var d0 := Draft(c.outs, [], c.sentData, c.wire);
    var d := TakeAll(d0, i, takes, c.peerMaxData, held);
    var p := Sealed(c.spaces[i], d, ping, padded, size, now);
    TakeAllLimits(d0, i, takes, c.peerMaxData, held);
    RecordBooks(c, i, p);
    SealGood(d.outs, i, held, Carrying(d.frames), p);
    TakeAllPlain(d0, i, takes, c.peerMaxData, held);
    SendHeld(c, i, d, p);
  }

  lemma SendHeld(c: Conn, i: nat, d: Draft, p: Packet)
    requires Held(c) && i < 3 && |d.outs| == |c.outs| && AllValid(d.outs) && Plain(d.outs)
    requires Good(d.outs, i, c.spaces[i].sent + [p])
    requires forall k :: 0 <= k < |c.outs| && SpaceOf(k) != i ==> d.outs[k] == c.outs[k]
    ensures Held(c.(spaces := c.spaces[i := Record(c.spaces[i], p)], outs := d.outs))
  {
    var spaces := c.spaces[i := Record(c.spaces[i], p)];
    forall j | 0 <= j < 3 ensures Good(d.outs, j, spaces[j].sent) {
      if j != i {
        GoodElsewhere(c.outs, d.outs, j, c.spaces[j].sent);
      }
    }
  }

  lemma TakeOnePlain(d: Draft, i: nat, t: Take, peerMaxData: nat)
    requires AllValid(d.outs) && Plain(d.outs)
    ensures Plain(TakeOne(d, i, t, peerMaxData).outs)
  {
  }

  lemma {:induction false} TakeAllPlain(d: Draft, i: nat, ts: seq<Take>, peerMaxData: nat, held: seq<Packet>)
    requires GoodDraft(d, i, held) && Plain(d.outs)
    ensures Plain(TakeAll(d, i, ts, peerMaxData, held).outs)
    decreases |ts|
  {
    if ts != [] {
      TakeOneGood(d, i, ts[0], peerMaxData, held);
      TakeOnePlain(d, i, ts[0], peerMaxData);
      TakeAllPlain(TakeOne(d, i, ts[0], peerMaxData), i, ts[1..], peerMaxData, held);
    }
  }

  // Changing one sending side without sending.

  /** o' promises the same bytes as o and forgets nothing about them. */
  ghost predicate Keeps(o: Out, o': Out) {
    && o'.Valid() && o'.buf.next == o.buf.next && o'.buf.base >= o.buf.base
    && (o'.reset || (o'.buf.base == o.buf.base && o'.buf.lost == o.buf.lost && o'.buf.acked == o.buf.acked))
    && (o.reset ==>
          && o'.reset && o'.finalSize == o.finalSize
          && (o'.resetAcked || o'.resetPending || o' == o.(done := o'.done, sendMax := o'.sendMax)))
    && (o'.reset && !o.reset ==> o'.resetPending && o'.finalSize == o.buf.next && !o.finAcked)
    && o'.finSent == o.finSent && o'.finAcked == o.finAcked
    && (o.finQueued ==> o'.finQueued && (o'.reset || o'.finalSize == o.finalSize))
  }

  lemma KeepsFrame(outs: seq<Out>, k: nat, o': Out, i: nat, f: SentFrame)
    requires k < |outs| && Keeps(outs[k], o') && FrameOk(outs, i, f)
    ensures FrameOk(outs[k := o'], i, f)
  {
  }

  lemma KeepsGood(outs: seq<Out>, k: nat, o': Out, i: nat, ps: seq<Packet>)
    requires AllValid(outs) && k < |outs| && Keeps(outs[k], o') && Good(outs, i, ps)
    ensures Good(outs[k := o'], i, ps)
  {
    forall p, f | p in ps && f in p.frames ensures FrameOk(outs[k := o'], i, f) {
      KeepsFrame(outs, k, o', i, f);
    }
  }

  lemma KeepsWire(outs: seq<Out>, k: nat, o': Out, e: Sent)
    requires AllValid(outs) && k < |outs| && Keeps(outs[k], o') && WireFits(outs, e)
    ensures WireFits(outs[k := o'], e)
  {
  }

  lemma ChangeKeeps(c: Conn, k: nat, o': Out)
    requires Inv(c) && k < |c.outs| && Keeps(c.outs[k], o') && o'.sendMax >= c.outs[k].sendMax
    requires k < 3 ==> !o'.finQueued && !o'.reset
    ensures Inv(c.(outs := c.outs[k := o']))
  {
    var outs := c.outs[k := o'];
    forall i | 0 <= i < 3 ensures Good(outs, i, c.spaces[i].sent) {
      KeepsGood(c.outs, k, o', i, c.spaces[i].sent);
    }
    ChangeLimits(c, k, o');
  }

  lemma ChangeLimits(c: Conn, k: nat, o': Out)
    requires Limits(c) && AllValid(c.outs) && k < |c.outs| && Keeps(c.outs[k], o') && o'.sendMax >= c.outs[k].sendMax
    ensures Limits(c.(outs := c.outs[k := o']))
  {
    var outs := c.outs[k := o'];
    forall e | e in c.wire ensures WireFits(outs, e) {
      KeepsWire(c.outs, k, o', e);
    }
    SumNextUpdate(c.outs, k, o');
  }

  lemma WriteKeeps(o: Out, p: seq<byte>, fin: bool)
    requires o.Valid()
    ensures Keeps(o, o.Write(p, fin))
  {
  }

  lemma AbandonKeeps(o: Out)
    requires o.Valid()
    ensures Keeps(o, o.Abandon())
  {
  }

  lemma OpenKeeps(c: Conn, sendMax: nat)
    requires Inv(c)
    ensures Inv(c.(outs := c.outs + [FRESH.(sendMax := sendMax)]))
  {
    var outs := c.outs + [FRESH.(sendMax := sendMax)];
    forall i | 0 <= i < 3 ensures Good(outs, i, c.spaces[i].sent) {
      assert Good(c.outs, i, c.spaces[i].sent);
      forall p, f | p in c.spaces[i].sent && f in p.frames ensures FrameOk(outs, i, f) {
        assert FrameOk(c.outs, i, f);
      }
    }
    assert outs[..|outs| - 1] == c.outs;
    forall e | e in c.wire ensures WireFits(outs, e) {
      assert WireFits(c.outs, e);
    }
  }

  // Acknowledgement, loss, probes, Retry and the end of a space.

  lemma EvolvesLimits(c: Conn, outs: seq<Out>)
    requires Limits(c) && Evolves(c.outs, outs)
    ensures FlowOk(outs, c.sentData, c.peerMaxData) && WireOk(outs, c.wire)
  {
    SumNextSame(c.outs, outs);
    forall e | e in c.wire ensures WireFits(outs, e) {
      assert WireFits(c.outs, e);
    }
  }

  lemma AckKeeps(c: Conn, i: nat, ranges: seq<PnRange>, now: int, lossDelay: nat, r: Conn)
    requires Inv(c) && Shape(c) && i < 3 && ranges != []
    requires OnAckReceived(c, i, ranges, now, lossDelay) == Some(r)
    ensures Inv(r)
  {
    AckBooks(c, i, ranges, now, lossDelay, r);
    AckHeld(c, i, ranges, now, lossDelay, r);
    EvolvesLimits(c, r.outs);
  }

  lemma LossKeeps(c: Conn, i: nat, now: int, lossDelay: nat)
    requires Inv(c) && Shape(c) && i < 3
    ensures Inv(DetectLost(c, i, now, lossDelay))
  {
    var r := DetectLost(c, i, now, lossDelay);
    LossHeld(c, i, now, lossDelay);
    EvolvesLimits(c, r.outs);
    LossBooked(c, i, now, lossDelay, r);
  }

  lemma LossBooked(c: Conn, i: nat, now: int, lossDelay: nat, r: Conn)
    requires Books(c) && Shape(c) && i < 3 && r == DetectLost(c, i, now, lossDelay)
    ensures Books(r)
  {
    if c.spaces[i].largestAcked >= 0 {
      NothingOffBack(c.spaces, i);
      LossBooks(c.spaces, c.cc, i, now - lossDelay, now, 0, 0);
      var spaces := c.spaces[i := Without(c.spaces[i], now - lossDelay)];
      var cc := RenoLost(c.cc, LostOf(c.spaces[i], now - lossDelay), now);
      NothingOff(spaces, cc, i);
      SameBooks(r, spaces, cc);
    }
  }

  lemma ProbeKeeps(c: Conn, i: nat)
    requires Inv(c) && Shape(c) && i < 3
    ensures Inv(Probe(c, i))
  {
    ProbeHeld(c, i);
    EvolvesLimits(c, Probe(c, i).outs);
  }

  /** Emptying the record of a space takes exactly its bytes out of flight. */
  lemma EmptySpaceBooks(c: Conn, i: nat, s: Space)
    requires Books(c) && i < 3 && s.sent == [] && s.eliciting == 0 && s.largestAcked >= -1
    ensures BooksBut(c.spaces[i := s], c.cc.(bytesInFlight := c.cc.bytesInFlight - InFlightBytes(c.spaces[i].sent)),
                     0, 0, 0)
  {
    NothingOffBack(c.spaces, i);
    ReplaceBooks(c.spaces, i, 0, s, 0);
    TotalUpdate(c.spaces, i, s);
    var t := c.spaces[i := s];
    forall j | 0 <= j < |t| ensures SpaceBooks(t[j], 0) {
      assert SpaceBooks(t[j], if j == i then 0 else 0);
    }
  }

  lemma CryptoLimits(c: Conn, i: nat, o: Out)
    requires Limits(c) && |c.outs| >= 3 && i < 3
    ensures FlowOk(c.outs[i := o], c.sentData, c.peerMaxData) && WireOk(c.outs[i := o], c.wire)
  {
    SumNextUpdate(c.outs, i, o);
    forall e | e in c.wire ensures WireFits(c.outs[i := o], e) {
      assert WireFits(c.outs, e);
    }
  }

  lemma DiscardKeeps(c: Conn, i: nat)
    requires Inv(c) && i < 2
    ensures Inv(Discard(c, i))
  {
    if !c.spaces[i].discarded {
      DiscardHeld(c, i);
      assert SpaceBooks(c.spaces[i], 0);
      EmptySpaceBooks(c, i, Discard(c, i).spaces[i]);
      CryptoLimits(c, i, FRESH);
    }
  }

  lemma RetryKeeps(c: Conn)
    requires Inv(c)
    ensures Inv(Retry(c))
  {
    RetryHeld(c);
    assert SpaceBooks(c.spaces[0], 0);
    EmptySpaceBooks(c, 0, Retry(c).spaces[0]);
    CryptoLimits(c, 0, Retry(c).outs[0]);
  }

  /** Every step keeps the invariant. */
  lemma StepKeeps(c: Conn, step: Step)
    requires Inv(c)
    ensures Inv(Next(c, step))
  {
    HeldShape(c);
    if Enabled(c, step) {
      match step
      case Open(sendMax) => OpenKeeps(c, sendMax);
      case WriteStream(k, p, fin) => WriteKeeps(c.outs[k], p, fin); ChangeKeeps(c, k, c.outs[k].Write(p, fin));
      case WriteCrypto(i, p) => WriteKeeps(c.outs[i], p, false); ChangeKeeps(c, i, c.outs[i].Write(p, false));
      case ResetStream(k) => AbandonKeeps(c.outs[k]); ChangeKeeps(c, k, c.outs[k].Abandon());
      case Finish(k) => ChangeKeeps(c, k, c.outs[k].(done := true));
      case MaxData(m) =>
      case MaxStreamData(k, m) => ChangeKeeps(c, k, c.outs[k].(sendMax := m));
      case SendPacket(i, takes, ping, padded, size, now) => SendKeeps(c, i, takes, ping, padded, size, now);
      case AckFrame(i, ranges, now, lossDelay) =>
        var r := OnAckReceived(c, i, ranges, now, lossDelay);
        if r.Some? {
          AckKeeps(c, i, ranges, now, lossDelay, r.value);
        }
      case LossTimer(i, now, lossDelay) => LossKeeps(c, i, now, lossDelay);
      case ProbeTimer(i) => ProbeKeeps(c, i);
      case DiscardSpace(i) => DiscardKeeps(c, i);
      case RetryPacket => RetryKeeps(c);
    }
  }

  /** The state a run leads to. */
  ghost function Exec(c: Conn, steps: seq<Step>): (r: Conn)
    requires Inv(c)
    ensures Inv(r)
    decreases |steps|
  {
    if steps == [] then c
    else
      StepKeeps(c, steps[0]);
      Exec(Next(c, steps[0]), steps[1..])
  }

  /** The state after a run from a connection that has sent nothing. */
  ghost function Run(peerMaxData: nat, steps: seq<Step>): Conn {
    StartInv(peerMaxData);
    Exec(Start(peerMaxData), steps)
  }

  lemma RunInv(peerMaxData: nat, steps: seq<Step>)
    ensures Inv(Run(peerMaxData, steps))
  {
    StartInv(peerMaxData);
  }

  /** In every run: no byte of [base, next) of any sending side is stranded. So when no
      packet is outstanding and nothing waits to be resent, all that was sent is
      acknowledged, and so is a FIN that was sent. */
  lemma NoByteStranded(peerMaxData: nat, steps: seq<Step>, k: nat, x: int)
    requires k < |Run(peerMaxData, steps).outs|
    ensures var c := Run(peerMaxData, steps);
            var o := c.outs[k];
            && |c.spaces| == 3
            && (o.buf.base <= x < o.buf.next ==>
                  o.buf.Acked(x) || Covers(o.buf.lost, x) || HasByte(c.spaces[SpaceOf(k)].sent, k, x))
            && (c.spaces[SpaceOf(k)].sent == [] && o.buf.lost == [] ==>
                  && o.buf.base == o.buf.next
                  && (o.finSent && !o.reset ==> o.finAcked)
                  && (o.reset && !o.resetPending ==> o.resetAcked))
  {
    RunInv(peerMaxData, steps);
    var c := Run(peerMaxData, steps);
    var o := c.outs[k];
    assert Good(c.outs, SpaceOf(k), c.spaces[SpaceOf(k)].sent);
    assert Safe(o, k, c.spaces[SpaceOf(k)].sent);
    if c.spaces[SpaceOf(k)].sent == [] && o.buf.lost == [] {
      assert forall i :: 0 <= i < |o.buf.acked| ==> o.buf.base < o.buf.acked[i].off;
      assert !o.buf.Acked(o.buf.base);
    }
  }

  /** In every run: the bytes in flight and the ack-eliciting counts are exactly those of
      the recorded packets, and the congestion window never falls below its minimum. */
  lemma FlightIsExact(peerMaxData: nat, steps: seq<Step>)
    ensures var c := Run(peerMaxData, steps);
            && c.cc.bytesInFlight == TotalInFlight(c.spaces)
            && |c.spaces| == 3
            && (forall i :: 0 <= i < 3 ==> c.spaces[i].eliciting == Eliciting(c.spaces[i].sent))
            && c.cc.cwnd >= MIN_WINDOW
  {
    RunInv(peerMaxData, steps);
    var c := Run(peerMaxData, steps);
    assert forall i :: 0 <= i < 3 ==> SpaceBooks(c.spaces[i], 0);
  }

  function FinalSizeOf(e: Sent): Option<nat> {
    match e
    case SentData(_, off, data, fin) => if fin then Some(off + |data|) else None
    case SentReset(_, size) => Some(size)
  }

  /** In every run: all final sizes a stream ever announces, by FIN or RESET_STREAM, are
      the same; no STREAM frame ends beyond it; new data stays within both limits. */
  lemma FinalSizeIsFinal(peerMaxData: nat, steps: seq<Step>, e: Sent, f: Sent)
    requires e in Run(peerMaxData, steps).wire && f in Run(peerMaxData, steps).wire
    requires e.k == f.k >= 3 && FinalSizeOf(e).Some?
    ensures FinalSizeOf(f).Some? ==> FinalSizeOf(f) == FinalSizeOf(e)
    ensures f.SentData? ==> f.off + |f.data| <= FinalSizeOf(e).value
  {
    RunInv(peerMaxData, steps);
    var c := Run(peerMaxData, steps);
    assert WireFits(c.outs, e) && WireFits(c.outs, f);
    assert c.outs[e.k].Valid();
  }

  lemma LimitsRespected(peerMaxData: nat, steps: seq<Step>)
    ensures var c := Run(peerMaxData, steps);
            && c.sentData == SumNext(c.outs) <= c.peerMaxData
            && (forall k :: 3 <= k < |c.outs| ==> c.outs[k].buf.next <= c.outs[k].sendMax)
            && (forall e :: e in c.wire && e.SentData? && e.k >= 3 ==>
                  e.k < |c.outs| && e.off + |e.data| <= c.outs[e.k].sendMax)
  {
    RunInv(peerMaxData, steps);
    var c := Run(peerMaxData, steps);
    forall e | e in c.wire && e.SentData? && e.k >= 3
      ensures e.k < |c.outs| && e.off + |e.data| <= c.outs[e.k].sendMax
    {
      assert WireFits(c.outs, e);
    }
  }
}
