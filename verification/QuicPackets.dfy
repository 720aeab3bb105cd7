/** The packets a space has sent and not heard about: selecting some of them, and the
    totals that congestion control keeps over them. */
module QuicPackets {
  import opened QuicStreamSend

  datatype Option<T> = None | Some(value: T)

  datatype Packet = Packet(pn: nat, time: int, size: nat, ackEliciting: bool, inFlight: bool, frames: seq<SentFrame>)

  /** Packet numbers [lo, hi]. */
  datatype PnRange = PnRange(lo: nat, hi: nat)

  /** The packets that satisfy f, in order. */
  function Select(s: seq<Packet>, f: Packet -> bool): seq<Packet> {
    if s == [] then []
    else
      var rest := Select(s[..|s| - 1], f);
      if f(s[|s| - 1]) then rest + [s[|s| - 1]] else rest
  }

  lemma {:induction false} SelectMembers(s: seq<Packet>, f: Packet -> bool)
    ensures forall p :: p in Select(s, f) <==> p in s && f(p)
  {
    if s != [] {
      SelectMembers(s[..|s| - 1], f);
      assert s == s[..|s| - 1] + [s[|s| - 1]];
    }
  }

  function InFlightBytes(s: seq<Packet>): nat {
    if s == [] then 0
    else InFlightBytes(s[..|s| - 1]) + if s[|s| - 1].inFlight then s[|s| - 1].size else 0
  }

  function Eliciting(s: seq<Packet>): nat {
    if s == [] then 0
    else Eliciting(s[..|s| - 1]) + if s[|s| - 1].ackEliciting then 1 else 0
  }

  /** Packet numbers ascend and stay below limit. */
  ghost predicate Ascending(s: seq<Packet>, limit: nat) {
    s == [] || (s[|s| - 1].pn < limit && Ascending(s[..|s| - 1], s[|s| - 1].pn))
  }

  lemma AscendingMore(s: seq<Packet>, a: nat, b: nat)
    requires Ascending(s, a) && a <= b
    ensures Ascending(s, b)
  {
  }

  lemma {:induction false} AscendingPairs(s: seq<Packet>, limit: nat, i: nat, j: nat)
    requires Ascending(s, limit) && i <= j < |s|
    ensures s[i].pn <= s[j].pn < limit
    ensures i < j ==> s[i].pn < s[j].pn
  {
    if j < |s| - 1 {
      AscendingPairs(s[..|s| - 1], s[|s| - 1].pn, i, j);
    } else if i < j {
      AscendingPairs(s[..|s| - 1], s[|s| - 1].pn, i, i);
    }
  }

  lemma TotalsSnoc(s: seq<Packet>, p: Packet)
    ensures InFlightBytes(s + [p]) == InFlightBytes(s) + if p.inFlight then p.size else 0
    ensures Eliciting(s + [p]) == Eliciting(s) + if p.ackEliciting then 1 else 0
  {
    assert (s + [p])[..|s|] == s;
  }

  /** Splitting the packets in two splits both totals. */
  lemma {:induction false} SelectTotals(s: seq<Packet>, f: Packet -> bool, g: Packet -> bool)
    requires forall p :: p in s ==> (g(p) <==> !f(p))
    ensures InFlightBytes(Select(s, f)) + InFlightBytes(Select(s, g)) == InFlightBytes(s)
    ensures Eliciting(Select(s, f)) + Eliciting(Select(s, g)) == Eliciting(s)
  {
    if s != [] {
      var init, last := s[..|s| - 1], s[|s| - 1];
      assert last in s && forall p :: p in init ==> p in s;
      SelectTotals(init, f, g);
      TotalsSnoc(Select(init, f), last);
      TotalsSnoc(Select(init, g), last);
    }
  }

  lemma {:induction false} SelectAscending(s: seq<Packet>, f: Packet -> bool, limit: nat)
    requires Ascending(s, limit)
    ensures Ascending(Select(s, f), limit)
  {
    if s != [] {
      var init, last := s[..|s| - 1], s[|s| - 1];
      SelectAscending(init, f, last.pn);
      assert (Select(init, f) + [last])[..|Select(init, f)|] == Select(init, f);
      AscendingMore(Select(init, f), last.pn, limit);
    }
  }

  lemma {:induction false} TotalsCons(p: Packet, s: seq<Packet>)
    ensures InFlightBytes([p] + s) == InFlightBytes(s) + if p.inFlight then p.size else 0
    ensures Eliciting([p] + s) == Eliciting(s) + if p.ackEliciting then 1 else 0
  {
    if s == [] {
      assert ([p] + s)[..0] == [];
    } else {
      var init := s[..|s| - 1];
      TotalsCons(p, init);
      assert ([p] + s)[..|s|] == [p] + init;
    }
  }
}
