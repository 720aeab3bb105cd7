/** The sending half of a connection: its packet number spaces, sending sides, loss
    recovery and congestion control. */
module QuicSender {
  import opened Arithmetic
  import opened QuicSendBuffer
  import opened QuicStreamSend
  import opened QuicPackets
  import opened QuicHeld
  import opened QuicDraft

  const PACKET_THRESHOLD := 3
  const MAX_DATAGRAM := 1200
  const MIN_WINDOW := 2 * MAX_DATAGRAM
  const INITIAL_WINDOW := 10 * MAX_DATAGRAM
  const NO_THRESHOLD := 0xffff_ffff_ffff_ffff
  const MAX_PROBES := 2

  /** newReno. recoveryStart is None before the first congestion event. */
  datatype Reno = Reno(cwnd: nat, ssthresh: nat, bytesInFlight: int, recoveryStart: Option<int>) {
    predicate After(t: int) { recoveryStart.None? || t > recoveryStart.value }

    function OnAcked(p: Packet): Reno {
      var cc := this.(bytesInFlight := bytesInFlight - p.size);
      if !After(p.time) then cc
      else if cwnd < ssthresh then cc.(cwnd := cwnd + p.size)
      else if cwnd == 0 then cc
      else cc.(cwnd := cwnd + MAX_DATAGRAM * p.size / cwnd)
    }

    function OnCongestion(sent: int, now: int): Reno {
      if !After(sent) then this
      else
        var t := Max(cwnd / 2, MIN_WINDOW);
        this.(recoveryStart := Some(now), ssthresh := t, cwnd := t)
    }
  }

  /** One packet number space, as far as sending is concerned. */
  datatype Space = Space(discarded: bool, nextPN: nat, largestAcked: int, sent: seq<Packet>, eliciting: int)

  /** wire is the history of everything emitted. */
  datatype Conn = Conn(spaces: seq<Space>, outs: seq<Out>, cc: Reno, sentData: nat, peerMaxData: nat, wire: seq<Sent>)

  predicate InRanges(pn: nat, ranges: seq<PnRange>) {
    exists i :: 0 <= i < |ranges| && ranges[i].lo <= pn <= ranges[i].hi
  }

  /** What handleAckFrame hands over: ranges in descending order with gaps between. */
  ghost predicate RangesOk(ranges: seq<PnRange>) {
    && ranges != []
    && (forall i :: 0 <= i < |ranges| ==> ranges[i].lo <= ranges[i].hi)
    && (forall i, j :: 0 <= i < j < |ranges| ==> ranges[j].hi + 1 < ranges[i].lo)
  }

  /** Too far behind the largest acknowledged packet, by count or by time. */
  predicate IsLost(p: Packet, largestAcked: int, cutoff: int) {
    p.pn <= largestAcked && (p.time <= cutoff || largestAcked >= p.pn + PACKET_THRESHOLD)
  }

  function LostP(largestAcked: int, cutoff: int): Packet -> bool { (p: Packet) => IsLost(p, largestAcked, cutoff) }

  function KeptP(largestAcked: int, cutoff: int): Packet -> bool { (p: Packet) => !IsLost(p, largestAcked, cutoff) }

  function AckedP(ranges: seq<PnRange>): Packet -> bool { (p: Packet) => InRanges(p.pn, ranges) }

  function UnackedP(ranges: seq<PnRange>): Packet -> bool { (p: Packet) => !InRanges(p.pn, ranges) }

  function ElicitsP(): Packet -> bool { (p: Packet) => p.ackEliciting }

  /** The send time of the last in-flight packet of a list. */
  function LatestInFlight(ps: seq<Packet>): Option<int> {
    if ps == [] then None
    else if ps[|ps| - 1].inFlight then Some(ps[|ps| - 1].time)
    else LatestInFlight(ps[..|ps| - 1])
  }

  function RenoAcked(cc: Reno, ps: seq<Packet>): Reno
    decreases |ps|
  {
    if ps == [] then cc
    else RenoAcked(if ps[0].inFlight then cc.OnAcked(ps[0]) else cc, ps[1..])
  }

  /** What the operations need to be defined at all. */
  ghost predicate Shape(c: Conn) {
    && |c.spaces| == 3 && |c.outs| >= 3 && AllValid(c.outs)
    && forall i :: 0 <= i < 3 ==> PacketsOk(c.outs, i, c.spaces[i].sent)
  }

  lemma EvolvesShape(c: Conn, outs: seq<Out>, i: nat, s: Space)
    requires Shape(c) && i < 3 && Evolves(c.outs, outs) && AllValid(outs)
    requires forall p :: p in s.sent ==> p in c.spaces[i].sent
    ensures Shape(c.(outs := outs, spaces := c.spaces[i := s]))
  {
    forall j, p | 0 <= j < 3 && p in c.spaces[i := s][j].sent ensures FramesOk(outs, j, p.frames) {
      assert p in c.spaces[j].sent;
      EvolvesKeepsFrames(c.outs, outs, j, p.frames);
    }
  }

  lemma PacketsOkSub(outs: seq<Out>, i: nat, ps: seq<Packet>, qs: seq<Packet>)
    requires PacketsOk(outs, i, ps) && forall p :: p in qs ==> p in ps
    ensures PacketsOk(outs, i, qs)
  {
  }

  lemma PacketsOkEvolves(a: seq<Out>, b: seq<Out>, i: nat, ps: seq<Packet>)
    requires PacketsOk(a, i, ps) && Evolves(a, b)
    ensures PacketsOk(b, i, ps)
  {
    forall p | p in ps ensures FramesOk(b, i, p.frames) {
      EvolvesKeepsFrames(a, b, i, p.frames);
    }
  }

  function LostOf(s: Space, cutoff: int): seq<Packet> {
    Select(s.sent, LostP(s.largestAcked, cutoff))
  }

  function KeptOf(s: Space, cutoff: int): seq<Packet> {
    Select(s.sent, KeptP(s.largestAcked, cutoff))
  }

  /** A space without the packets it has lost. */
  function Without(s: Space, cutoff: int): Space {
    s.(sent := KeptOf(s, cutoff), eliciting := s.eliciting - Eliciting(LostOf(s, cutoff)))
  }

  /** What losing ps does to congestion control. */
  function RenoLost(cc: Reno, ps: seq<Packet>, now: int): Reno {
    var d := cc.(bytesInFlight := cc.bytesInFlight - InFlightBytes(ps));
    var latest := LatestInFlight(ps);
    if latest.Some? then d.OnCongestion(latest.value, now) else d
  }

  /** detectLost. */
  function DetectLost(c: Conn, i: nat, now: int, lossDelay: nat): (r: Conn)
    requires Shape(c) && i < 3
    ensures Shape(r) && Evolves(c.outs, r.outs)
    ensures r.(spaces := c.spaces, outs := c.outs, cc := c.cc) == c
  {
    var s := c.spaces[i];
    if s.largestAcked < 0 then c
    else
      var cutoff := now - lossDelay;
      var lost := LostOf(s, cutoff);
      SelectMembers(s.sent, LostP(s.largestAcked, cutoff));
      SelectMembers(s.sent, KeptP(s.largestAcked, cutoff));
      PacketsOkSub(c.outs, i, s.sent, lost);
      var outs := PacketsLost(c.outs, i, lost);
      EvolvesShape(c, outs, i, Without(s, cutoff));
      c.(spaces := c.spaces[i := Without(s, cutoff)], outs := outs, cc := RenoLost(c.cc, lost, now))
  }

  function AckedOf(s: Space, ranges: seq<PnRange>): seq<Packet> {
    Select(s.sent, AckedP(ranges))
  }

  function UnackedOf(s: Space, ranges: seq<PnRange>): seq<Packet> {
    Select(s.sent, UnackedP(ranges))
  }

  /** The packets an ACK frame names leave the record before anything else happens. */
  function TakeAcked(c: Conn, i: nat, ranges: seq<PnRange>): (r: Conn)
    requires Shape(c) && i < 3 && ranges != []
    ensures Shape(r) && r.outs == c.outs
  {
    var s := c.spaces[i];
    SelectMembers(s.sent, UnackedP(ranges));
    var s' := s.(sent := UnackedOf(s, ranges), largestAcked := Max(s.largestAcked, ranges[0].hi));
    EvolvesShape(c, c.outs, i, s');
    c.(spaces := c.spaces[i := s'])
  }

  /** onAckReceived: None is the protocol violation of acknowledging an unsent packet. */
  function OnAckReceived(c: Conn, i: nat, ranges: seq<PnRange>, now: int, lossDelay: nat): (r: Option<Conn>)
    requires Shape(c) && i < 3 && ranges != []
    ensures r.Some? ==> Shape(r.value) && Evolves(c.outs, r.value.outs)
    ensures r.Some? ==> r.value.(spaces := c.spaces, outs := c.outs, cc := c.cc) == c
  {
    var s := c.spaces[i];
    if ranges[0].hi >= s.nextPN then None
    else
      var acked := AckedOf(s, ranges);
      var c1 := TakeAcked(c, i, ranges);
      if acked == [] then Some(c1)
      else
        var c2 := DetectLost(c1, i, now, lossDelay);
        SelectMembers(s.sent, AckedP(ranges));
        PacketsOkSub(c.outs, i, s.sent, acked);
        PacketsOkEvolves(c.outs, c2.outs, i, acked);
        Some(Settle(c2, i, acked))
  }

  /** Booking the packets an ACK frame named, and telling their frames. */
  function Settle(c: Conn, i: nat, acked: seq<Packet>): (r: Conn)
    requires Shape(c) && i < 3 && PacketsOk(c.outs, i, acked)
    ensures Shape(r) && Evolves(c.outs, r.outs)
    ensures r.(spaces := c.spaces, outs := c.outs, cc := c.cc) == c
  {
    var outs := PacketsAcked(c.outs, i, acked);
    var s := c.spaces[i].(eliciting := c.spaces[i].eliciting - Eliciting(acked));
    EvolvesShape(c, outs, i, s);
    c.(outs := outs, spaces := c.spaces[i := s], cc := RenoAcked(c.cc, acked))
  }

  /** The packets a probe timeout sends again: all that elicit an acknowledgement, but
      only the oldest two in the application space. */
  function Probed(s: Space, i: nat): seq<Packet> {
    var ps := Select(s.sent, ElicitsP());
    if i == 2 && |ps| > MAX_PROBES then ps[..MAX_PROBES] else ps
  }

  function Probe(c: Conn, i: nat): (r: Conn)
    requires Shape(c) && i < 3
    ensures Shape(r) && Evolves(c.outs, r.outs)
  {
    var s := c.spaces[i];
    SelectMembers(s.sent, ElicitsP());
    PacketsOkSub(c.outs, i, s.sent, Probed(s, i));
    var outs := PacketsLost(c.outs, i, Probed(s, i));
    EvolvesShape(c, outs, i, s);
    assert c.spaces[i := s] == c.spaces;
    c.(outs := outs)
  }

  /** discardSpace. */
  function Discard(c: Conn, i: nat): Conn
    requires |c.spaces| == 3 && |c.outs| >= 3 && i < 2
  {
    var s := c.spaces[i];
    if s.discarded then c
    else
      c.(spaces := c.spaces[i := Space(true, 0, s.largestAcked, [], 0)], outs := c.outs[i := FRESH],
         cc := c.cc.(bytesInFlight := c.cc.bytesInFlight - InFlightBytes(s.sent)))
  }

  /** handleRetry: everything the client sent is sent again under the new keys. */
  function Retry(c: Conn): Conn
    requires |c.spaces| == 3 && |c.outs| >= 3
  {
    var s := c.spaces[0];
    var o := c.outs[0];
    c.(spaces := c.spaces[0 := s.(sent := [], eliciting := s.eliciting - Eliciting(s.sent))],
       outs := c.outs[0 := o.(buf := o.buf.OnLost(0, o.buf.next))],
       cc := c.cc.(bytesInFlight := c.cc.bytesInFlight - InFlightBytes(s.sent)))
  }

  function TotalInFlight(spaces: seq<Space>): nat
    requires |spaces| == 3
  {
    InFlightBytes(spaces[0].sent) + InFlightBytes(spaces[1].sent) + InFlightBytes(spaces[2].sent)
  }

  /** The accounting of one space, up to packets whose removal is not booked yet. */
  ghost predicate SpaceBooks(s: Space, more: int) {
    && Ascending(s.sent, s.nextPN)
    && s.eliciting == Eliciting(s.sent) + more
    && s.largestAcked >= -1
  }

  ghost predicate AllBooks(spaces: seq<Space>, i: nat, more: int) {
    forall j :: 0 <= j < |spaces| ==> SpaceBooks(spaces[j], if j == i then more else 0)
  }

  /** The accounting of the connection while extra bytes and, in space i, more packets
      have left the record and not the totals. */
  ghost predicate BooksBut(spaces: seq<Space>, cc: Reno, i: nat, extra: int, more: int) {
    && |spaces| == 3
    && AllBooks(spaces, i, more)
    && cc.bytesInFlight == TotalInFlight(spaces) + extra
    && cc.cwnd >= MIN_WINDOW && cc.ssthresh >= MIN_WINDOW
  }

  ghost predicate Books(c: Conn) { BooksBut(c.spaces, c.cc, 0, 0, 0) }

  /** A CRYPTO stream has neither FIN nor RESET_STREAM. */
  ghost predicate Plain(outs: seq<Out>) {
    forall k :: 0 <= k < 3 && k < |outs| ==> !outs[k].finQueued && !outs[k].reset
  }

  /** Nothing any sending side has sent is stranded. */
  ghost predicate Held(c: Conn) {
    && |c.spaces| == 3 && |c.outs| >= 3 && AllValid(c.outs) && Plain(c.outs)
    && forall i :: 0 <= i < 3 ==> Good(c.outs, i, c.spaces[i].sent)
  }

  ghost predicate Limits(c: Conn) {
    FlowOk(c.outs, c.sentData, c.peerMaxData) && WireOk(c.outs, c.wire)
  }

  ghost predicate Inv(c: Conn) { Books(c) && Held(c) && Limits(c) }

  // Accounting.

  lemma TotalUpdate(spaces: seq<Space>, i: nat, s: Space)
    requires |spaces| == 3 && i < 3
    ensures TotalInFlight(spaces[i := s])
              == TotalInFlight(spaces) - InFlightBytes(spaces[i].sent) + InFlightBytes(s.sent)
  {
    assert i == 0 || i == 1 || i == 2;
  }

  lemma KeptBooks(s: Space, cutoff: int, more: int)
    requires SpaceBooks(s, more)
    ensures SpaceBooks(Without(s, cutoff), more)
    ensures InFlightBytes(KeptOf(s, cutoff)) + InFlightBytes(LostOf(s, cutoff)) == InFlightBytes(s.sent)
  {
    var f := LostP(s.largestAcked, cutoff);
    var g := KeptP(s.largestAcked, cutoff);
    SelectTotals(s.sent, f, g);
    SelectAscending(s.sent, g, s.nextPN);
  }

  lemma RenoLostBooks(cc: Reno, ps: seq<Packet>, now: int)
    requires cc.cwnd >= MIN_WINDOW && cc.ssthresh >= MIN_WINDOW
    ensures var r := RenoLost(cc, ps, now);
            && r.bytesInFlight == cc.bytesInFlight - InFlightBytes(ps)
            && r.cwnd >= MIN_WINDOW && r.ssthresh >= MIN_WINDOW
  {
  }

  /** Losing packets takes exactly their bytes and their acknowledgements out of the books. */
  lemma LossBooks(spaces: seq<Space>, cc: Reno, i: nat, cutoff: int, now: int, extra: int, more: int)
    requires i < 3 && BooksBut(spaces, cc, i, extra, more)
    ensures BooksBut(spaces[i := Without(spaces[i], cutoff)], RenoLost(cc, LostOf(spaces[i], cutoff), now), i, extra,
                     more)
  {
    var s := spaces[i];
    assert SpaceBooks(s, more);
    KeptBooks(s, cutoff, more);
    RenoLostBooks(cc, LostOf(s, cutoff), now);
    TotalUpdate(spaces, i, Without(s, cutoff));
    ReplaceBooks(spaces, i, more, Without(s, cutoff), more);
  }

  lemma ReplaceBooks(spaces: seq<Space>, i: nat, more: int, s: Space, more': int)
    requires i < |spaces| && SpaceBooks(s, more') && AllBooks(spaces, i, more)
    ensures AllBooks(spaces[i := s], i, more')
  {
  }

  lemma {:induction false} RenoAckedBooks(cc: Reno, ps: seq<Packet>)
    requires cc.cwnd >= MIN_WINDOW
    ensures var r := RenoAcked(cc, ps);
            && r.bytesInFlight == cc.bytesInFlight - InFlightBytes(ps)
            && r.cwnd >= cc.cwnd && r.ssthresh == cc.ssthresh
    decreases |ps|
  {
    if ps != [] {
      TotalsCons(ps[0], ps[1..]);
      assert ps == [ps[0]] + ps[1..];
      var d := if ps[0].inFlight then cc.OnAcked(ps[0]) else cc;
      assert d.cwnd >= cc.cwnd;
      RenoAckedBooks(d, ps[1..]);
    }
  }

  lemma UnackedBooks(s: Space, ranges: seq<PnRange>)
    requires SpaceBooks(s, 0) && ranges != []
    ensures SpaceBooks(s.(sent := UnackedOf(s, ranges), largestAcked := Max(s.largestAcked, ranges[0].hi)),
                       Eliciting(AckedOf(s, ranges)))
    ensures InFlightBytes(UnackedOf(s, ranges)) + InFlightBytes(AckedOf(s, ranges)) == InFlightBytes(s.sent)
  {
    var f := AckedP(ranges);
    var g := UnackedP(ranges);
    SelectTotals(s.sent, f, g);
    SelectAscending(s.sent, g, s.nextPN);
  }

  lemma TakeAckedBooks(c: Conn, i: nat, ranges: seq<PnRange>)
    requires Shape(c) && Books(c) && i < 3 && ranges != []
    ensures var acked := AckedOf(c.spaces[i], ranges);
            var r := TakeAcked(c, i, ranges);
            BooksBut(r.spaces, r.cc, i, InFlightBytes(acked), Eliciting(acked))
  {
    var s := c.spaces[i];
    assert SpaceBooks(s, 0);
    UnackedBooks(s, ranges);
    TotalUpdate(c.spaces, i, TakeAcked(c, i, ranges).spaces[i]);
  }

  /** Booking the removal of acknowledged packets settles the books. */
  lemma SettleBooks(a: seq<Space>, b: seq<Space>, cc: Reno, after: Reno, i: nat, acked: seq<Packet>)
    requires i < 3 == |a| && BooksBut(a, cc, i, InFlightBytes(acked), Eliciting(acked))
    requires b == a[i := a[i].(eliciting := a[i].eliciting - Eliciting(acked))] && after == RenoAcked(cc, acked)
    ensures BooksBut(b, after, 0, 0, 0)
  {
    RenoAckedBooks(cc, acked);
    forall j | 0 <= j < 3 ensures SpaceBooks(b[j], 0) {
      assert SpaceBooks(a[j], if j == i then Eliciting(acked) else 0);
    }
    TotalUpdate(a, i, b[i]);
  }

  /** A space without its lost packets, and with the acknowledged ones booked. */
  function SettledSpace(s: Space, cutoff: int, acked: seq<Packet>): Space {
    Without(s, cutoff).(eliciting := Without(s, cutoff).eliciting - Eliciting(acked))
  }

  /** What an ACK frame leaves of the spaces and of congestion control. */
  lemma AckedSpaces(c: Conn, i: nat, ranges: seq<PnRange>, now: int, lossDelay: nat, acked: seq<Packet>, c1: Conn,
                    r: Conn)
    requires Shape(c) && i < 3 && ranges != [] && acked == AckedOf(c.spaces[i], ranges) && acked != []
    requires OnAckReceived(c, i, ranges, now, lossDelay) == Some(r) && c1 == TakeAcked(c, i, ranges)
    ensures r.spaces == c1.spaces[i := SettledSpace(c1.spaces[i], now - lossDelay, acked)]
    ensures r.cc == RenoAcked(RenoLost(c1.cc, LostOf(c1.spaces[i], now - lossDelay), now), acked)
  {
    var c2 := DetectLost(c1, i, now, lossDelay);
    var s := Without(c1.spaces[i], now - lossDelay);
    assert c1.spaces[i].largestAcked >= 0;
    assert c2.spaces == c1.spaces[i := s];
    UpdateTwice(c1.spaces, i, s, s.(eliciting := s.eliciting - Eliciting(acked)));
  }

  lemma UpdateTwice<T>(s: seq<T>, i: nat, a: T, b: T)
    requires i < |s|
    ensures s[i := a][i := b] == s[i := b]
  {
  }

  /** Losing packets and then booking the acknowledged ones settles the books. */
  lemma LossThenSettle(spaces: seq<Space>, cc: Reno, i: nat, acked: seq<Packet>, cutoff: int, now: int, b: seq<Space>,
                       after: Reno)
    requires i < 3 && BooksBut(spaces, cc, i, InFlightBytes(acked), Eliciting(acked))
    requires b == spaces[i := SettledSpace(spaces[i], cutoff, acked)]
    requires after == RenoAcked(RenoLost(cc, LostOf(spaces[i], cutoff), now), acked)
    ensures BooksBut(b, after, 0, 0, 0)
  {
    var s, lossy := Without(spaces[i], cutoff), RenoLost(cc, LostOf(spaces[i], cutoff), now);
    LossBooks(spaces, cc, i, cutoff, now, InFlightBytes(acked), Eliciting(acked));
    SettleFrom(spaces, i, s, lossy, acked);
  }

  lemma SettleFrom(spaces: seq<Space>, i: nat, s: Space, cc: Reno, acked: seq<Packet>)
    requires i < 3 == |spaces| && BooksBut(spaces[i := s], cc, i, InFlightBytes(acked), Eliciting(acked))
    ensures BooksBut(spaces[i := s.(eliciting := s.eliciting - Eliciting(acked))], RenoAcked(cc, acked), 0, 0, 0)
  {
    var b := spaces[i := s.(eliciting := s.eliciting - Eliciting(acked))];
    SettledIs(spaces, i, s, Eliciting(acked));
    SettleBooks(spaces[i := s], b, cc, RenoAcked(cc, acked), i, acked);
  }

  lemma SettledIs(spaces: seq<Space>, i: nat, s: Space, n: nat)
    requires i < |spaces|
    ensures var a := spaces[i := s];
            spaces[i := s.(eliciting := s.eliciting - n)] == a[i := a[i].(eliciting := a[i].eliciting - n)]
  {
  }

  lemma NothingOff(spaces: seq<Space>, cc: Reno, i: nat)
    requires BooksBut(spaces, cc, i, 0, 0)
    ensures BooksBut(spaces, cc, 0, 0, 0)
  {
  }

  /** An ACK frame that names recorded packets keeps the books. */
  lemma SettledBooks(spaces: seq<Space>, cc: Reno, i: nat, acked: seq<Packet>, cutoff: int, now: int, r: Conn)
    requires i < 3 && BooksBut(spaces, cc, i, InFlightBytes(acked), Eliciting(acked))
    requires r.spaces == spaces[i := SettledSpace(spaces[i], cutoff, acked)]
    requires r.cc == RenoAcked(RenoLost(cc, LostOf(spaces[i], cutoff), now), acked)
    ensures Books(r)
  {
    LossThenSettle(spaces, cc, i, acked, cutoff, now, r.spaces, r.cc);
    SameBooks(r, r.spaces, r.cc);
  }

  lemma SameBooks(c: Conn, spaces: seq<Space>, cc: Reno)
    requires BooksBut(spaces, cc, 0, 0, 0) && c.spaces == spaces && c.cc == cc
    ensures Books(c)
  {
  }

  /** Processing an ACK frame keeps the books. */
  lemma AckBooks(c: Conn, i: nat, ranges: seq<PnRange>, now: int, lossDelay: nat, r: Conn)
    requires Shape(c) && Books(c) && i < 3 && ranges != []
    requires OnAckReceived(c, i, ranges, now, lossDelay) == Some(r)
    ensures Books(r)
  {
    var c1 := TakeAcked(c, i, ranges);
    TakeAckedBooks(c, i, ranges);
    if AckedOf(c.spaces[i], ranges) == [] {
      NothingOff(c1.spaces, c1.cc, i);
      SameBooks(c1, c1.spaces, c1.cc);
    } else {
      var acked := AckedOf(c.spaces[i], ranges);
      AckedSpaces(c, i, ranges, now, lossDelay, acked, c1, r);
      SettledBooks(c1.spaces, c1.cc, i, acked, now - lossDelay, now, r);
    }
  }

  // Nothing is stranded.

  lemma HeldShape(c: Conn)
    requires Held(c)
    ensures Shape(c)
  {
  }

  /** Lost packets may leave the record, whatever else is still being processed. */
  lemma LossGood(outs: seq<Out>, i: nat, s: Space, cutoff: int, others: seq<Packet>)
    requires AllValid(outs) && Good(outs, i, s.sent + others) && PacketsOk(outs, i, LostOf(s, cutoff))
    ensures Good(PacketsLost(outs, i, LostOf(s, cutoff)), i, KeptOf(s, cutoff) + others)
  {
    SelectMembers(s.sent, LostP(s.largestAcked, cutoff));
    SelectMembers(s.sent, KeptP(s.largestAcked, cutoff));
    var lost, kept := LostOf(s, cutoff), KeptOf(s, cutoff);
    GoodByMembers(outs, i, s.sent + others, lost + (kept + others));
    LosePacketsGood(outs, i, lost, kept + others);
  }

  /** detectLost while the packets of others are still being processed. */
  lemma DetectLostGood(c: Conn, i: nat, now: int, lossDelay: nat, others: seq<Packet>)
    requires Shape(c) && i < 3 && Good(c.outs, i, c.spaces[i].sent + others)
    requires forall j :: 0 <= j < 3 && j != i ==> Good(c.outs, j, c.spaces[j].sent)
    ensures var r := DetectLost(c, i, now, lossDelay);
            && Good(r.outs, i, r.spaces[i].sent + others)
            && forall j :: 0 <= j < 3 && j != i ==> Good(r.outs, j, r.spaces[j].sent)
  {
    var s := c.spaces[i];
    if s.largestAcked >= 0 {
      var lost := LostOf(s, now - lossDelay);
      SelectMembers(s.sent, LostP(s.largestAcked, now - lossDelay));
      PacketsOkSub(c.outs, i, s.sent, lost);
      LossGood(c.outs, i, s, now - lossDelay, others);
      forall j | 0 <= j < 3 && j != i ensures Good(DetectLost(c, i, now, lossDelay).outs, j, c.spaces[j].sent) {
        GoodElsewhere(c.outs, PacketsLost(c.outs, i, lost), j, c.spaces[j].sent);
      }
    }
  }

  lemma LossHeld(c: Conn, i: nat, now: int, lossDelay: nat)
    requires Held(c) && Shape(c) && i < 3
    ensures Held(DetectLost(c, i, now, lossDelay))
  {
    var r := DetectLost(c, i, now, lossDelay);
    assert c.spaces[i].sent + [] == c.spaces[i].sent && r.spaces[i].sent + [] == r.spaces[i].sent;
    DetectLostGood(c, i, now, lossDelay, []);
  }

  /** The packets an ACK frame names are still held while they are processed. */
  lemma TakeAckedGood(c: Conn, i: nat, ranges: seq<PnRange>)
    requires Held(c) && Shape(c) && i < 3 && ranges != []
    ensures var r := TakeAcked(c, i, ranges);
            && Good(r.outs, i, r.spaces[i].sent + AckedOf(c.spaces[i], ranges))
            && forall j :: 0 <= j < 3 && j != i ==> Good(r.outs, j, r.spaces[j].sent)
  {
    var s := c.spaces[i];
    SelectMembers(s.sent, AckedP(ranges));
    SelectMembers(s.sent, UnackedP(ranges));
    GoodByMembers(c.outs, i, s.sent, UnackedOf(s, ranges) + AckedOf(s, ranges));
  }

  /** Processing an ACK frame strands nothing. */
  lemma AckHeld(c: Conn, i: nat, ranges: seq<PnRange>, now: int, lossDelay: nat, r: Conn)
    requires Held(c) && Shape(c) && i < 3 && ranges != []
    requires OnAckReceived(c, i, ranges, now, lossDelay) == Some(r)
    ensures Held(r)
  {
    var acked := AckedOf(c.spaces[i], ranges);
    var c1 := TakeAcked(c, i, ranges);
    TakeAckedGood(c, i, ranges);
    if acked == [] {
      assert c1.spaces[i].sent + acked == c1.spaces[i].sent;
    } else {
      DetectLostGood(c1, i, now, lossDelay, acked);
      var c2 := DetectLost(c1, i, now, lossDelay);
      SettleGood(c2, i, acked, r);
    }
  }

  lemma SettleGood(c: Conn, i: nat, acked: seq<Packet>, r: Conn)
    requires Shape(c) && Plain(c.outs) && i < 3 && PacketsOk(c.outs, i, acked)
    requires Good(c.outs, i, c.spaces[i].sent + acked)
    requires forall j :: 0 <= j < 3 && j != i ==> Good(c.outs, j, c.spaces[j].sent)
    requires r.outs == PacketsAcked(c.outs, i, acked) && |r.spaces| == 3
    requires forall j :: 0 <= j < 3 ==> r.spaces[j].sent == c.spaces[j].sent
    ensures Held(r)
  {
    GoodByMembers(c.outs, i, c.spaces[i].sent + acked, acked + c.spaces[i].sent);
    AckPacketsGood(c.outs, i, acked, c.spaces[i].sent);
    forall j | 0 <= j < 3 && j != i ensures Good(r.outs, j, r.spaces[j].sent) {
      GoodElsewhere(c.outs, r.outs, j, c.spaces[j].sent);
    }
  }

  lemma ProbeHeld(c: Conn, i: nat)
    requires Held(c) && Shape(c) && i < 3
    ensures Held(Probe(c, i))
  {
    var s := c.spaces[i];
    SelectMembers(s.sent, ElicitsP());
    PacketsOkSub(c.outs, i, s.sent, Probed(s, i));
    ProbeGood(c.outs, i, Probed(s, i), s.sent);
    forall j | 0 <= j < 3 && j != i ensures Good(Probe(c, i).outs, j, c.spaces[j].sent) {
      GoodElsewhere(c.outs, Probe(c, i).outs, j, c.spaces[j].sent);
    }
  }

  lemma DiscardHeld(c: Conn, i: nat)
    requires Held(c) && i < 2
    ensures Held(Discard(c, i))
  {
    if !c.spaces[i].discarded {
      var r := Discard(c, i);
      forall j | 0 <= j < 3 ensures Good(r.outs, j, r.spaces[j].sent) {
        if j != i {
          GoodElsewhere(c.outs, r.outs, j, c.spaces[j].sent);
        }
      }
    }
  }

  lemma RetryHeld(c: Conn)
    requires Held(c)
    ensures Held(Retry(c))
  {
    var r := Retry(c);
    var o := c.outs[0];
    OnLostSound(o.buf, 0, o.buf.next);
    forall j | 1 <= j < 3 ensures Good(r.outs, j, r.spaces[j].sent) {
      GoodElsewhere(c.outs, r.outs, j, c.spaces[j].sent);
    }
    assert Safe(r.outs[0], 0, []);
    assert r.spaces[0].sent == [];
  }
}
