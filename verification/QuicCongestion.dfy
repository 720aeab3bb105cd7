/** What the congestion window does over runs of acknowledgements and losses (section 7 of RFC 9002). */
module QuicCongestion {
  import opened Arithmetic
  import opened QuicPackets
  import opened QuicSender

  /** The packets of one ACK frame, or of one detection of losses. */
  datatype Booking = Acked(ps: seq<Packet>) | Lost(ps: seq<Packet>, now: int)

  function Book(cc: Reno, e: Booking): Reno {
    match e
    case Acked(ps) => RenoAcked(cc, ps)
    case Lost(ps, now) => RenoLost(cc, ps, now)
  }

  function BookAll(cc: Reno, es: seq<Booking>): Reno {
    if es == [] then cc else Book(BookAll(cc, es[..|es| - 1]), es[|es| - 1])
  }

  ghost predicate SentBy(ps: seq<Packet>, t: int) { forall p :: p in ps && p.inFlight ==> p.time <= t }

  ghost predicate SameWindow(a: Reno, b: Reno) {
    a.cwnd == b.cwnd && a.ssthresh == b.ssthresh && a.recoveryStart == b.recoveryStart
  }

  lemma {:induction false} AckedQuiet(cc: Reno, ps: seq<Packet>)
    requires cc.recoveryStart.Some? && SentBy(ps, cc.recoveryStart.value)
    ensures SameWindow(cc, RenoAcked(cc, ps))
    decreases |ps|
  {
    if ps != [] {
      assert ps[0] in ps && forall p :: p in ps[1..] ==> p in ps;
      AckedQuiet(if ps[0].inFlight then cc.OnAcked(ps[0]) else cc, ps[1..]);
    }
  }

  lemma {:induction false} LatestIsSent(ps: seq<Packet>, t: int)
    requires SentBy(ps, t)
    ensures LatestInFlight(ps).Some? ==> LatestInFlight(ps).value <= t
  {
    if ps != [] {
      assert ps[|ps| - 1] in ps && forall p :: p in ps[..|ps| - 1] ==> p in ps;
      LatestIsSent(ps[..|ps| - 1], t);
    }
  }

  /** Packets sent before the recovery began neither grow the window nor cut it again. */
  lemma {:induction false} RecoveryIsQuiet(cc: Reno, es: seq<Booking>)
    requires cc.recoveryStart.Some? && forall e :: e in es ==> SentBy(e.ps, cc.recoveryStart.value)
    ensures SameWindow(cc, BookAll(cc, es))
  {
    if es != [] {
      var init, last := es[..|es| - 1], es[|es| - 1];
      assert last in es && forall e :: e in init ==> e in es;
      RecoveryIsQuiet(cc, init);
      match last
      case Acked(ps) => AckedQuiet(BookAll(cc, init), ps);
      case Lost(ps, now) => LatestIsSent(ps, cc.recoveryStart.value);
    }
  }

  /** However many packets of one flight are lost, and in however many steps that is found out, the
      window is halved once, down to its minimum. */
  lemma OneCutPerRecovery(cc: Reno, lost: seq<Packet>, now: int, es: seq<Booking>)
    requires LatestInFlight(lost).Some? && cc.After(LatestInFlight(lost).value)
    requires forall e :: e in es ==> SentBy(e.ps, now)
    ensures var r := BookAll(RenoLost(cc, lost, now), es);
            r.cwnd == r.ssthresh == Max(cc.cwnd / 2, MIN_WINDOW) && r.recoveryStart == Some(now)
  {
    RecoveryIsQuiet(RenoLost(cc, lost, now), es);
  }

  /** Packet k is the last of ps that was in flight. */
  predicate LastInFlight(ps: seq<Packet>, k: int) {
    0 <= k < |ps| && ps[k].inFlight && forall j :: k < j < |ps| ==> !ps[j].inFlight
  }

  lemma {:induction false} LatestIs(ps: seq<Packet>)
    ensures LatestInFlight(ps).None? <==> forall k :: 0 <= k < |ps| ==> !ps[k].inFlight
    ensures forall k :: LastInFlight(ps, k) ==> LatestInFlight(ps) == Some(ps[k].time)
    ensures LatestInFlight(ps).Some? ==> exists k :: LastInFlight(ps, k)
  {
    if ps != [] {
      var n := |ps| - 1;
      if ps[n].inFlight {
        assert LastInFlight(ps, n);
      } else {
        LatestIs(ps[..n]);
        forall k ensures LastInFlight(ps, k) <==> LastInFlight(ps[..n], k) {
        }
      }
    }
  }

  /** Losing packets begins a recovery if and only if the last of them in flight was sent after the recovery before it
      began: the window is halved, but not below two datagrams. Otherwise the window stays as it is. */
  lemma CutIff(cc: Reno, ps: seq<Packet>, now: int)
    ensures var r := RenoLost(cc, ps, now);
            if exists k :: LastInFlight(ps, k) && (cc.recoveryStart.None? || ps[k].time > cc.recoveryStart.value)
            then r.recoveryStart == Some(now) && r.cwnd == r.ssthresh == Max(cc.cwnd / 2, 2 * 1200)
            else SameWindow(cc, r)
  {
    LatestIs(ps);
  }

  // Growth.

  ghost predicate AllAfter(cc: Reno, ps: seq<Packet>) { forall p :: p in ps && p.inFlight ==> cc.After(p.time) }

  lemma FirstApart(ps: seq<Packet>)
    requires ps != []
    ensures InFlightBytes(ps) == InFlightBytes(ps[1..]) + if ps[0].inFlight then ps[0].size else 0
    ensures ps[0] in ps && forall p :: p in ps[1..] ==> p in ps
  {
    assert ps == [ps[0]] + ps[1..];
    TotalsCons(ps[0], ps[1..]);
  }

  /** In slow start the window grows by exactly the bytes acknowledged. */
  lemma {:induction false} SlowStartIsExact(cc: Reno, ps: seq<Packet>)
    requires AllAfter(cc, ps) && cc.cwnd + InFlightBytes(ps) <= cc.ssthresh
    ensures RenoAcked(cc, ps).cwnd == cc.cwnd + InFlightBytes(ps)
    decreases |ps|
  {
    if ps != [] {
      FirstApart(ps);
      var n := if ps[0].inFlight then cc.OnAcked(ps[0]) else cc;
      assert ps[0].inFlight ==> n.cwnd == cc.cwnd + ps[0].size;
      SlowStartIsExact(n, ps[1..]);
    }
  }

  lemma TimesAdd(a: nat, b: nat, n: nat)
    ensures Times(a + b, n) == Times(a, n) + Times(b, n)
  {
  }

  lemma QuotientTimes(a: nat, n: nat, least: nat)
    requires 0 < least <= n
    ensures Times(a / n, least) <= a
  {
    var q := a / n;
    assert q * n <= a;
    assert q * least <= q * n;
  }

  lemma OneGrows(cc: Reno, p: Packet, least: nat)
    requires 0 < least <= cc.cwnd && cc.ssthresh <= cc.cwnd && p.inFlight
    ensures var n := cc.OnAcked(p);
            cc.cwnd <= n.cwnd && n.ssthresh == cc.ssthresh && Times(n.cwnd - cc.cwnd, least) <= MAX_DATAGRAM * p.size
  {
    QuotientTimes(MAX_DATAGRAM * p.size, cc.cwnd, least);
  }

  /** Above the threshold the growth, times any window that has been reached, is at most a datagram
      times the bytes acknowledged. */
  lemma {:induction false} AvoidanceIsLinear(cc: Reno, ps: seq<Packet>, least: nat)
    requires 0 < least <= cc.cwnd && cc.ssthresh <= cc.cwnd
    ensures var r := RenoAcked(cc, ps);
            r.cwnd >= cc.cwnd && Times(r.cwnd - cc.cwnd, least) <= MAX_DATAGRAM * InFlightBytes(ps)
    decreases |ps|
  {
    if ps != [] {
      FirstApart(ps);
      if ps[0].inFlight {
        OneGrows(cc, ps[0], least);
        var n := cc.OnAcked(ps[0]);
        AvoidanceIsLinear(n, ps[1..], least);
        TimesAdd(n.cwnd - cc.cwnd, RenoAcked(n, ps[1..]).cwnd - n.cwnd, least);
      } else {
        AvoidanceIsLinear(cc, ps[1..], least);
      }
    }
  }

  lemma QuotientAtLeast(a: nat, n: nat, most: nat)
    requires 0 < n <= most
    ensures Times(a / n + 1, most) >= a
  {
    var q := a / n;
    assert a < q * n + n;
    assert (q + 1) * n == q * n + n;
    assert (q + 1) * most >= (q + 1) * n;
  }

  lemma OneGrowsAtLeast(cc: Reno, p: Packet, most: nat)
    requires 0 < cc.cwnd <= most && cc.ssthresh <= cc.cwnd && cc.After(p.time)
    ensures cc.OnAcked(p).cwnd >= cc.cwnd && Times(cc.OnAcked(p).cwnd - cc.cwnd + 1, most) >= MAX_DATAGRAM * p.size
  {
    QuotientAtLeast(MAX_DATAGRAM * p.size, cc.cwnd, most);
  }

  /** And it is at least that, but for the byte that rounding can take from every packet: the growth and one
      byte for each, times the window that is reached, is at least a datagram times the bytes acknowledged. */
  lemma {:induction false} AvoidanceGrows(cc: Reno, ps: seq<Packet>, most: nat)
    requires 0 < cc.cwnd && cc.ssthresh <= cc.cwnd && RenoAcked(cc, ps).cwnd <= most && AllAfter(cc, ps)
    ensures var r := RenoAcked(cc, ps);
            r.cwnd >= cc.cwnd && Times(r.cwnd - cc.cwnd + |ps|, most) >= MAX_DATAGRAM * InFlightBytes(ps)
    decreases |ps|
  {
    if ps != [] {
      FirstApart(ps);
      var n := if ps[0].inFlight then cc.OnAcked(ps[0]) else cc;
      var r := RenoAcked(n, ps[1..]);
      if ps[0].inFlight {
        OneGrows(cc, ps[0], 1);
      }
      AvoidanceIsLinear(n, ps[1..], 1);
      AvoidanceGrows(n, ps[1..], most);
      TimesAdd(n.cwnd - cc.cwnd + 1, r.cwnd - n.cwnd + |ps[1..]|, most);
      if ps[0].inFlight {
        OneGrowsAtLeast(cc, ps[0], most);
      }
    }
  }

  /** So one window of acknowledgements adds at most one datagram. */
  lemma OneDatagramPerWindow(cc: Reno, ps: seq<Packet>)
    requires 0 < cc.cwnd && cc.ssthresh <= cc.cwnd && InFlightBytes(ps) <= cc.cwnd
    ensures cc.cwnd <= RenoAcked(cc, ps).cwnd <= cc.cwnd + MAX_DATAGRAM
  {
    AvoidanceIsLinear(cc, ps, cc.cwnd);
    AtMost(RenoAcked(cc, ps).cwnd - cc.cwnd, MAX_DATAGRAM, InFlightBytes(ps), cc.cwnd);
  }

  lemma AtMost(grown: nat, m: nat, bytes: nat, n: nat)
    requires n > 0 && bytes <= n && Times(grown, n) <= m * bytes
    ensures grown <= m
  {
    assert m * bytes <= m * n;
    assert grown >= m + 1 ==> grown * n >= (m + 1) * n;
    assert (m + 1) * n == m * n + n;
  }
}
