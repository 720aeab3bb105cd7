/** recovery.go as it runs: loops that compact the record of sent packets in place and
    update the connection as they go. Each method is tied to its value in QuicSender. */
module QuicRecovery {
  import opened Arithmetic
  import opened QuicStreamSend
  import opened QuicPackets
  import opened QuicHeld
  import opened QuicSender
  import opened QuicSenderRun

  /** The inner loop of the scan: back to the first range that does not end below pn. */
  method BackTo(ranges: seq<PnRange>, from: int, pn: nat) returns (ri: int)
    requires RangesOk(ranges) && -1 <= from < |ranges| && (forall k :: from < k < |ranges| ==> ranges[k].hi < pn)
    ensures -1 <= ri <= from && (forall k :: ri < k < |ranges| ==> ranges[k].hi < pn)
    ensures InRanges(pn, ranges) <==> ri >= 0 && ranges[ri].lo <= pn
  {
    ri := from;
    while ri >= 0 && ranges[ri].hi < pn
      invariant -1 <= ri <= from && forall k :: ri < k < |ranges| ==> ranges[k].hi < pn
    {
      ri := ri - 1;
    }
    if ri >= 0 && pn < ranges[ri].lo {
      assert forall k :: 0 <= k < ri ==> ranges[ri].hi + 1 < ranges[k].lo;
    }
  }

  lemma StillBehind(sent: seq<Packet>, limit: nat, ranges: seq<PnRange>, ri: int, i: nat)
    requires Ascending(sent, limit) && i + 1 < |sent|
             && (forall k :: ri < k < |ranges| && k >= 0 ==> ranges[k].hi < sent[i].pn)
    ensures forall k :: ri < k < |ranges| && k >= 0 ==> ranges[k].hi < sent[i + 1].pn
  {
    AscendingPairs(sent, limit, i, i + 1);
  }

  /** The two-pointer scan of onAckReceived: one pass over the packets, which ascend,
      and one over the ranges, which descend, finds exactly the packets in some range. */
  method ScanAcked(sent: seq<Packet>, ghost limit: nat, ranges: seq<PnRange>)
    returns (acked: seq<Packet>, kept: seq<Packet>)
    requires Ascending(sent, limit) && RangesOk(ranges)
    ensures acked == Select(sent, AckedP(ranges))
    ensures kept == Select(sent, UnackedP(ranges))
  {
    ghost var f := AckedP(ranges);
    ghost var g := UnackedP(ranges);
    acked, kept := [], [];
    var ri := |ranges| - 1;
    for i := 0 to |sent|
      invariant acked == Select(sent[..i], f) && kept == Select(sent[..i], g)
      invariant -1 <= ri < |ranges|
      invariant i < |sent| ==> forall k :: ri < k < |ranges| && k >= 0 ==> ranges[k].hi < sent[i].pn
    {
      var p := sent[i];
      ri := BackTo(ranges, ri, p.pn);
      assert sent[..i + 1][..i] == sent[..i];
      if ri >= 0 && ranges[ri].lo <= p.pn {
        acked := acked + [p];
      } else {
        kept := kept + [p];
      }
      if i + 1 < |sent| {
        StillBehind(sent, limit, ranges, ri, i);
      }
    }
    assert sent[..|sent|] == sent;
  }

  /** The scan of detectLost. A packet above the largest acknowledged one is never lost. */
  method ScanLost(sent: seq<Packet>, largestAcked: int, cutoff: int) returns (lost: seq<Packet>, kept: seq<Packet>)
    ensures lost == Select(sent, LostP(largestAcked, cutoff))
    ensures kept == Select(sent, KeptP(largestAcked, cutoff))
    ensures forall p :: p in lost <==>
              p in sent && p.pn <= largestAcked && (p.time <= cutoff || largestAcked - p.pn >= 3)
    ensures forall p :: p in kept <==>
              p in sent && !(p.pn <= largestAcked && (p.time <= cutoff || largestAcked - p.pn >= 3))
  {
    ghost var f := LostP(largestAcked, cutoff);
    ghost var g := KeptP(largestAcked, cutoff);
    lost, kept := [], [];
    for i := 0 to |sent|
      invariant lost == Select(sent[..i], f) && kept == Select(sent[..i], g)
    {
      var p := sent[i];
      assert sent[..i + 1][..i] == sent[..i];
      if p.pn > largestAcked {
        kept := kept + [p];
        continue;
      }
      if p.time <= cutoff || largestAcked >= p.pn + PACKET_THRESHOLD {
        lost := lost + [p];
        continue;
      }
      kept := kept + [p];
    }
    assert sent[..|sent|] == sent;
    SelectMembers(sent, f);
    SelectMembers(sent, g);
  }

  lemma {:induction false} FramesAckedStep(outs: seq<Out>, i: nat, fs: seq<SentFrame>, j: nat)
    requires AllValid(outs) && j < |fs| && FramesOk(outs, i, fs[j..])
    ensures FrameOk(outs, i, fs[j])
    ensures FramesOk(FrameAcked(outs, i, fs[j]), i, fs[j + 1..])
    ensures FramesAcked(outs, i, fs[j..]) == FramesAcked(FrameAcked(outs, i, fs[j]), i, fs[j + 1..])
  {
    assert fs[j..][0] == fs[j] && fs[j..][1..] == fs[j + 1..];
    EvolvesKeepsFrames(outs, FrameAcked(outs, i, fs[j]), i, fs[j..]);
  }

  lemma {:induction false} FramesLostStep(outs: seq<Out>, i: nat, fs: seq<SentFrame>, j: nat)
    requires AllValid(outs) && j < |fs| && FramesOk(outs, i, fs[j..])
    ensures FrameOk(outs, i, fs[j])
    ensures FramesOk(FrameLost(outs, i, fs[j]), i, fs[j + 1..])
    ensures FramesLost(outs, i, fs[j..]) == FramesLost(FrameLost(outs, i, fs[j]), i, fs[j + 1..])
  {
    assert fs[j..][0] == fs[j] && fs[j..][1..] == fs[j + 1..];
    EvolvesKeepsFrames(outs, FrameLost(outs, i, fs[j]), i, fs[j..]);
  }

  lemma PacketsAckedStep(outs: seq<Out>, i: nat, ps: seq<Packet>, j: nat)
    requires AllValid(outs) && j < |ps| && PacketsOk(outs, i, ps[j..])
    ensures FramesOk(outs, i, ps[j].frames)
    ensures PacketsOk(FramesAcked(outs, i, ps[j].frames), i, ps[j + 1..])
    ensures PacketsAcked(outs, i, ps[j..]) == PacketsAcked(FramesAcked(outs, i, ps[j].frames), i, ps[j + 1..])
  {
    assert ps[j..][0] == ps[j] && ps[j..][1..] == ps[j + 1..] && ps[j] in ps[j..];
    PacketsOkEvolves(outs, FramesAcked(outs, i, ps[j].frames), i, ps[j..]);
  }

  lemma PacketsLostStep(outs: seq<Out>, i: nat, ps: seq<Packet>, j: nat)
    requires AllValid(outs) && j < |ps| && PacketsOk(outs, i, ps[j..])
    ensures FramesOk(outs, i, ps[j].frames)
    ensures PacketsOk(FramesLost(outs, i, ps[j].frames), i, ps[j + 1..])
    ensures PacketsLost(outs, i, ps[j..]) == PacketsLost(FramesLost(outs, i, ps[j].frames), i, ps[j + 1..])
  {
    assert ps[j..][0] == ps[j] && ps[j..][1..] == ps[j + 1..] && ps[j] in ps[j..];
    PacketsOkEvolves(outs, FramesLost(outs, i, ps[j].frames), i, ps[j..]);
  }

  lemma PrefixEliciting(ps: seq<Packet>, j: nat)
    requires j < |ps|
    ensures Eliciting(ps[..j + 1]) == Eliciting(ps[..j]) + if ps[j].ackEliciting then 1 else 0
  {
    assert ps[..j + 1][..j] == ps[..j];
  }

  lemma PrefixInFlight(ps: seq<Packet>, j: nat)
    requires j < |ps|
    ensures InFlightBytes(ps[..j + 1]) == InFlightBytes(ps[..j]) + if ps[j].inFlight then ps[j].size else 0
    ensures LatestInFlight(ps[..j + 1]) == if ps[j].inFlight then Some(ps[j].time) else LatestInFlight(ps[..j])
  {
    assert ps[..j + 1][..j] == ps[..j];
  }

  /** The frames of an acknowledged packet. */
  method AllFramesAcked(before: seq<Out>, ghost i: nat, fs: seq<SentFrame>) returns (outs: seq<Out>)
    requires AllValid(before) && FramesOk(before, i, fs)
    ensures outs == FramesAcked(before, i, fs)
  {
    outs := before;
    assert fs[0..] == fs;
    for j := 0 to |fs|
      invariant AllValid(outs) && FramesOk(outs, i, fs[j..])
      invariant FramesAcked(outs, i, fs[j..]) == FramesAcked(before, i, fs)
    {
      FramesAckedStep(outs, i, fs, j);
      match fs[j]
      case Data(k, off, n, fin) => outs := outs[k := outs[k].OnDataAcked(off, n, fin)];
      case Reset(k) => outs := outs[k := outs[k].OnResetAcked()];
      case Control =>
    }
  }

  /** The frames of a lost packet, or of one that is sent again as a probe. */
  method AllFramesLost(before: seq<Out>, ghost i: nat, fs: seq<SentFrame>) returns (outs: seq<Out>)
    requires AllValid(before) && FramesOk(before, i, fs)
    ensures outs == FramesLost(before, i, fs)
  {
    outs := before;
    assert fs[0..] == fs;
    for j := 0 to |fs|
      invariant AllValid(outs) && FramesOk(outs, i, fs[j..])
      invariant FramesLost(outs, i, fs[j..]) == FramesLost(before, i, fs)
    {
      FramesLostStep(outs, i, fs, j);
      match fs[j]
      case Data(k, off, n, fin) => outs := outs[k := outs[k].OnDataLost(off, n, fin)];
      case Reset(k) => outs := outs[k := outs[k].OnResetLost()];
      case Control =>
    }
  }

  /** One packet of the second loop of onAckReceived: its frames. */
  method TellAcked(before: seq<Out>, ghost i: nat, acked: seq<Packet>, j: nat) returns (outs: seq<Out>)
    requires AllValid(before) && j < |acked| && PacketsOk(before, i, acked[j..])
    ensures AllValid(outs) && PacketsOk(outs, i, acked[j + 1..])
    ensures PacketsAcked(outs, i, acked[j + 1..]) == PacketsAcked(before, i, acked[j..])
  {
    PacketsAckedStep(before, i, acked, j);
    outs := AllFramesAcked(before, i, acked[j].frames);
  }

  /** And its accounting. */
  method CountAcked(reno: Reno, count: nat, acked: seq<Packet>, j: nat) returns (cc: Reno, eliciting: nat)
    requires j < |acked| && count == Eliciting(acked[..j])
    ensures RenoAcked(cc, acked[j + 1..]) == RenoAcked(reno, acked[j..]) && eliciting == Eliciting(acked[..j + 1])
  {
    PrefixEliciting(acked, j);
    assert acked[j..][0] == acked[j] && acked[j..][1..] == acked[j + 1..];
    eliciting := count + if acked[j].ackEliciting then 1 else 0;
    cc := if acked[j].inFlight then reno.OnAcked(acked[j]) else reno;
  }

  /** The second loop of onAckReceived. */
  method BookAcked(before: seq<Out>, reno: Reno, ghost i: nat, acked: seq<Packet>)
    returns (outs: seq<Out>, cc: Reno, eliciting: nat)
    requires AllValid(before) && PacketsOk(before, i, acked)
    ensures outs == PacketsAcked(before, i, acked)
    ensures cc == RenoAcked(reno, acked)
    ensures eliciting == Eliciting(acked)
  {
    outs, cc, eliciting := before, reno, 0;
    assert acked[0..] == acked;
    for j := 0 to |acked|
      invariant AllValid(outs) && PacketsOk(outs, i, acked[j..])
      invariant PacketsAcked(outs, i, acked[j..]) == PacketsAcked(before, i, acked)
      invariant RenoAcked(cc, acked[j..]) == RenoAcked(reno, acked)
      invariant eliciting == Eliciting(acked[..j])
    {
      cc, eliciting := CountAcked(cc, eliciting, acked, j);
      outs := TellAcked(outs, i, acked, j);
    }
    assert acked[..|acked|] == acked;
  }

  /** One packet of the second loop of detectLost: its frames. */
  method TellLost(before: seq<Out>, ghost i: nat, lost: seq<Packet>, j: nat) returns (outs: seq<Out>)
    requires AllValid(before) && j < |lost| && PacketsOk(before, i, lost[j..])
    ensures AllValid(outs) && PacketsOk(outs, i, lost[j + 1..])
    ensures PacketsLost(outs, i, lost[j + 1..]) == PacketsLost(before, i, lost[j..])
  {
    PacketsLostStep(before, i, lost, j);
    outs := AllFramesLost(before, i, lost[j].frames);
  }

  datatype Losses = Losses(bytes: nat, latest: Option<int>, eliciting: nat)

  ghost function LossesOf(ps: seq<Packet>): Losses { Losses(InFlightBytes(ps), LatestInFlight(ps), Eliciting(ps)) }

  /** And its accounting. */
  method CountLost(count: Losses, lost: seq<Packet>, j: nat) returns (n: Losses)
    requires j < |lost| && count == LossesOf(lost[..j])
    ensures n == LossesOf(lost[..j + 1])
  {
    PrefixEliciting(lost, j);
    PrefixInFlight(lost, j);
    n := count;
    if lost[j].ackEliciting {
      n := n.(eliciting := n.eliciting + 1);
    }
    if lost[j].inFlight {
      n := n.(bytes := n.bytes + lost[j].size, latest := Some(lost[j].time));
    }
  }

  /** The second loop of detectLost. */
  method BookLost(before: seq<Out>, reno: Reno, ghost i: nat, lost: seq<Packet>, now: int)
    returns (outs: seq<Out>, cc: Reno, eliciting: nat)
    requires AllValid(before) && PacketsOk(before, i, lost)
    ensures outs == PacketsLost(before, i, lost)
    ensures cc == RenoLost(reno, lost, now)
    ensures eliciting == Eliciting(lost)
  {
    var count := Losses(0, None, 0);
    outs := before;
    assert lost[0..] == lost;
    for j := 0 to |lost|
      invariant AllValid(outs) && PacketsOk(outs, i, lost[j..])
      invariant PacketsLost(outs, i, lost[j..]) == PacketsLost(before, i, lost)
      invariant count == LossesOf(lost[..j])
    {
      count := CountLost(count, lost, j);
      outs := TellLost(outs, i, lost, j);
    }
    assert lost[..|lost|] == lost;
    cc := reno.(bytesInFlight := reno.bytesInFlight - count.bytes);
    if count.latest.Some? {
      cc := cc.OnCongestion(count.latest.value, now);
    }
    eliciting := count.eliciting;
  }

  lemma {:induction false} PacketsLostSnoc(outs: seq<Out>, i: nat, ps: seq<Packet>, p: Packet)
    requires AllValid(outs) && PacketsOk(outs, i, ps + [p])
    ensures PacketsOk(outs, i, ps) && FramesOk(PacketsLost(outs, i, ps), i, p.frames)
    ensures PacketsLost(outs, i, ps + [p]) == FramesLost(PacketsLost(outs, i, ps), i, p.frames)
    decreases |ps|
  {
    assert p in ps + [p];
    PacketsOkSub(outs, i, ps + [p], ps);
    EvolvesKeepsFrames(outs, PacketsLost(outs, i, ps), i, p.frames);
    if ps == [] {
      assert (ps + [p])[1..] == [];
    } else {
      assert ps[0] in ps + [p];
      var next := FramesLost(outs, i, ps[0].frames);
      assert (ps + [p])[0] == ps[0] && (ps + [p])[1..] == ps[1..] + [p];
      PacketsOkEvolves(outs, next, i, ps + [p]);
      PacketsOkSub(next, i, ps + [p], ps[1..] + [p]);
      PacketsLostSnoc(next, i, ps[1..], p);
    }
  }

  /** The loop of probe: everything that elicits an acknowledgement is queued again, in
      the application space only up to two packets of it. */
  method QueueProbes(before: seq<Out>, i: nat, s: Space) returns (outs: seq<Out>)
    requires AllValid(before) && PacketsOk(before, i, s.sent)
    ensures PacketsOk(before, i, Probed(s, i))
    ensures outs == PacketsLost(before, i, Probed(s, i))
  {
    outs := before;
    ghost var done := [];
    var n, j := 0, 0;
    while j < |s.sent| && !(i == 2 && n == MAX_PROBES)
      invariant 0 <= j <= |s.sent|
      invariant done == Select(s.sent[..j], ElicitsP()) && n == |done|
      invariant i == 2 ==> n <= MAX_PROBES
      invariant PacketsOk(before, i, done) && outs == PacketsLost(before, i, done)
    {
      var p := s.sent[j];
      assert s.sent[..j + 1][..j] == s.sent[..j] && p in s.sent;
      if p.ackEliciting {
        PacketsLostSnoc(before, i, done, p);
        outs := AllFramesLost(outs, i, p.frames);
        n, done := n + 1, done + [p];
      }
      j := j + 1;
    }
    ProbedIs(s, i, j);
  }

  /** Selecting from a prefix gives a prefix of the selection. */
  lemma {:induction false} SelectPrefix(s: seq<Packet>, f: Packet -> bool, j: nat)
    requires j <= |s|
    ensures Select(s[..j], f) <= Select(s, f)
  {
    if j == |s| {
      assert s[..j] == s;
    } else {
      SelectPrefix(s[..|s| - 1], f, j);
      assert s[..|s| - 1][..j] == s[..j];
    }
  }

  lemma ProbedIs(s: Space, i: nat, j: nat)
    requires j <= |s.sent|
    requires i == 2 ==> |Select(s.sent[..j], ElicitsP())| <= MAX_PROBES
    requires j == |s.sent| || (i == 2 && |Select(s.sent[..j], ElicitsP())| == MAX_PROBES)
    ensures Probed(s, i) == Select(s.sent[..j], ElicitsP())
  {
    assert s.sent[..|s.sent|] == s.sent;
    SelectPrefix(s.sent, ElicitsP(), j);
  }

  /** The bytes discardSpace and handleRetry take out of flight, and the count
      handleRetry takes with them. */
  method CountSent(sent: seq<Packet>) returns (bytes: nat, eliciting: nat)
    ensures bytes == InFlightBytes(sent) && eliciting == Eliciting(sent)
  {
    bytes, eliciting := 0, 0;
    for j := 0 to |sent|
      invariant bytes == InFlightBytes(sent[..j]) && eliciting == Eliciting(sent[..j])
    {
      PrefixEliciting(sent, j);
      PrefixInFlight(sent, j);
      bytes := bytes + if sent[j].inFlight then sent[j].size else 0;
      eliciting := eliciting + if sent[j].ackEliciting then 1 else 0;
    }
    assert sent[..|sent|] == sent;
  }

  /** What detectLost does to a space that has seen an acknowledgement. */
  method LosePackets(before: seq<Out>, reno: Reno, ghost i: nat, s: Space, now: int, lossDelay: nat)
    returns (outs: seq<Out>, n: Space, cc: Reno)
    requires AllValid(before) && PacketsOk(before, i, s.sent)
    ensures PacketsOk(before, i, LostOf(s, now - lossDelay))
    ensures outs == PacketsLost(before, i, LostOf(s, now - lossDelay))
    ensures n == Without(s, now - lossDelay) && cc == RenoLost(reno, LostOf(s, now - lossDelay), now)
  {
    var lost, kept := ScanLost(s.sent, s.largestAcked, now - lossDelay);
    assert lost == LostOf(s, now - lossDelay) && kept == KeptOf(s, now - lossDelay);
    assert PacketsOk(before, i, lost) by {
      SelectMembers(s.sent, LostP(s.largestAcked, now - lossDelay));
      PacketsOkSub(before, i, s.sent, lost);
    }
    var eliciting;
    outs, cc, eliciting := BookLost(before, reno, i, lost, now);
    n := s.(sent := kept, eliciting := s.eliciting - eliciting);
  }

  lemma DetectLostIs(c: Conn, i: nat, now: int, lossDelay: nat)
    requires Shape(c) && i < 3 && c.spaces[i].largestAcked >= 0
    ensures var lost := LostOf(c.spaces[i], now - lossDelay);
            && AllValid(c.outs) && PacketsOk(c.outs, i, c.spaces[i].sent) && PacketsOk(c.outs, i, lost)
            && DetectLost(c, i, now, lossDelay)
               == c.(spaces := c.spaces[i := Without(c.spaces[i], now - lossDelay)],
                     outs := PacketsLost(c.outs, i, lost),
                     cc := RenoLost(c.cc, lost, now))
  {
    SelectMembers(c.spaces[i].sent, LostP(c.spaces[i].largestAcked, now - lossDelay));
    PacketsOkSub(c.outs, i, c.spaces[i].sent, LostOf(c.spaces[i], now - lossDelay));
  }

  /** Conn, with the fields that sending and loss recovery update in place. */
  class Connection {
    var spaces: seq<Space>
    var outs: seq<Out>
    var cc: Reno
    var sentData: nat
    var peerMaxData: nat
    ghost var wire: seq<Sent>

    ghost function Value(): Conn
      reads this
    {
      Conn(spaces, outs, cc, sentData, peerMaxData, wire)
    }

    constructor (peerMax: nat)
      ensures Value() == Start(peerMax) && Inv(Value())
    {
      spaces := [StartSpace(), StartSpace(), StartSpace()];
      outs := [FRESH, FRESH, FRESH];
      cc := Reno(INITIAL_WINDOW, NO_THRESHOLD, 0, None);
      sentData, peerMaxData, wire := 0, peerMax, [];
      new;
      StartInv(peerMax);
    }

    /** detectLost. */
    method DetectLostPackets(i: nat, now: int, lossDelay: nat)
      requires Shape(Value()) && i < 3
      modifies this`outs, this`spaces, this`cc
      ensures Value() == DetectLost(old(Value()), i, now, lossDelay)
    {
      if spaces[i].largestAcked < 0 {
        return;
      }
      DetectLostIs(Value(), i, now, lossDelay);
      var s;
      outs, s, cc := LosePackets(outs, cc, i, spaces[i], now, lossDelay);
      spaces := spaces[i := s];
    }

    /** The first loop of onAckReceived. */
    method TakeAckedPackets(i: nat, ranges: seq<PnRange>) returns (acked: seq<Packet>)
      requires Shape(Value()) && Books(Value()) && i < 3 && RangesOk(ranges)
      modifies this`spaces
      ensures Value() == TakeAcked(old(Value()), i, ranges)
      ensures acked == AckedOf(old(spaces)[i], ranges)
    {
      var s := spaces[i];
      assert SpaceBooks(s, 0);
      var kept;
      acked, kept := ScanAcked(s.sent, s.nextPN, ranges);
      spaces := spaces[i := s.(sent := kept, largestAcked := Max(s.largestAcked, ranges[0].hi))];
    }

    method SettleAcked(i: nat, acked: seq<Packet>)
      requires Shape(Value()) && i < 3 && PacketsOk(outs, i, acked)
      modifies this`outs, this`spaces, this`cc
      ensures Value() == Settle(old(Value()), i, acked)
    {
      var eliciting;
      outs, cc, eliciting := BookAcked(outs, cc, i, acked);
      spaces := spaces[i := spaces[i].(eliciting := spaces[i].eliciting - eliciting)];
    }

    /** onAckReceived; false is the error for acknowledging a packet never sent. */
    method AckReceived(i: nat, ranges: seq<PnRange>, now: int, lossDelay: nat) returns (ok: bool)
      requires Shape(Value()) && Books(Value()) && i < 3 && RangesOk(ranges)
      modifies this`outs, this`spaces, this`cc
      ensures ok <==> ranges[0].hi < old(spaces)[i].nextPN
      ensures ok ==> OnAckReceived(old(Value()), i, ranges, now, lossDelay) == Some(Value())
      ensures !ok ==> OnAckReceived(old(Value()), i, ranges, now, lossDelay) == None && Value() == old(Value())
    {
      if ranges[0].hi >= spaces[i].nextPN {
        return false;
      }
      ok := true;
      var acked := TakeAckedPackets(i, ranges);
      if acked == [] {
        return;
      }
      DetectLostPackets(i, now, lossDelay);
      SelectMembers(old(spaces)[i].sent, AckedP(ranges));
      PacketsOkSub(old(outs), i, old(spaces)[i].sent, acked);
      PacketsOkEvolves(old(outs), outs, i, acked);
      SettleAcked(i, acked);
    }

    /** The whole of an ACK frame keeps everything the connection promises. */
    method HandleAck(i: nat, ranges: seq<PnRange>, now: int, lossDelay: nat) returns (ok: bool)
      requires Inv(Value()) && i < 3 && RangesOk(ranges)
      modifies this`outs, this`spaces, this`cc
      ensures Value() == Next(old(Value()), AckFrame(i, ranges, now, lossDelay)) && Inv(Value())
    {
      HeldShape(Value());
      StepKeeps(Value(), AckFrame(i, ranges, now, lossDelay));
      ok := AckReceived(i, ranges, now, lossDelay);
    }

    /** probe. */
    method ProbeSpace(i: nat)
      requires Shape(Value()) && i < 3
      modifies this`outs
      ensures Value() == Probe(old(Value()), i)
    {
      outs := QueueProbes(outs, i, spaces[i]);
    }

    /** discardSpace. */
    method DiscardOne(i: nat)
      requires |spaces| == 3 && |outs| >= 3 && i < 2
      modifies this`outs, this`spaces, this`cc
      ensures Value() == Discard(old(Value()), i)
    {
      var s := spaces[i];
      if s.discarded {
        return;
      }
      var bytes, _ := CountSent(s.sent);
      cc := cc.(bytesInFlight := cc.bytesInFlight - bytes);
      spaces := spaces[i := Space(true, 0, s.largestAcked, [], 0)];
      outs := outs[i := FRESH];
    }

    /** handleRetry, once the Retry packet has been accepted. */
    method RestartInitial()
      requires |spaces| == 3 && |outs| >= 3
      modifies this`outs, this`spaces, this`cc
      ensures Value() == Retry(old(Value()))
    {
      var s := spaces[0];
      var bytes, eliciting := CountSent(s.sent);
      cc := cc.(bytesInFlight := cc.bytesInFlight - bytes);
      spaces := spaces[0 := s.(sent := [], eliciting := s.eliciting - eliciting)];
      outs := outs[0 := outs[0].(buf := outs[0].buf.OnLost(0, outs[0].buf.next))];
    }
  }
}
