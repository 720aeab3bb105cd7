/** What a frame for a stream meets, told from the number of the stream and from what was opened and has finished
    (sections 2.1, 3 and 4.6 of RFC 9000). */
module QuicStreamLookup {
  import opened QuicPeerStreams

  /** A number's lowest bit says who opens the stream: a client the even ones. */
  predicate Ours(isClient: bool, id: nat) { if isClient then id % 2 == 0 else id % 2 == 1 }

  /** The bit above it says whether only that side sends, so that a frame for the other direction is wrong. */
  predicate WrongWay(isClient: bool, id: nat, recvSide: bool) {
    id % 4 >= 2 && if Ours(isClient, id) then recvSide else !recvSide
  }

  /** How many streams of that kind the peer may open. */
  function LimitFor(t: Table, id: nat): nat { if id % 4 >= 2 then t.uni.limit else t.bidi.limit }

  /** In every run a frame finds its stream, opens it, comes too late for it or is an error, exactly as the number
      says: an error of state if the direction is wrong or a stream of ours was never opened, an error of limits
      if one of the peer's is beyond the limit. */
  lemma FoundIs(isClient: bool, m: Limits, run: seq<Step>, id: nat, recvSide: bool)
    ensures |Exec(isClient, m, run).t.counts| == 4
    ensures var s := Exec(isClient, m, run);
            var found, ours := PeerStream(s.t, id, recvSide).found, Ours(isClient, id);
            var wrong, known := WrongWay(isClient, id, recvSide), id in s.t.streams || id in s.gone;
            && (found == StateError <==> wrong || (ours && !known))
            && (found == Gone <==> !wrong && id in s.gone)
            && (found == LimitError <==> !wrong && !ours && !known && id / 4 >= LimitFor(s.t, id))
            && (found == Stream <==> !wrong && (id in s.t.streams || (!ours && !known && id / 4 < LimitFor(s.t, id))))
  {
    RunKeeps(isClient, m, run);
    ClientStays(isClient, m, run);
    assert Exact(Exec(isClient, m, run));
  }

  /** More streams of one kind. */
  lemma MoreOf(s: State, low: nat, last: nat, x: nat)
    requires Exact(s) && low < 4 && s.t.counts[low] <= last
    ensures x in s.t.streams + Fresh(low, s.t.counts[low], last)
            <==> x in s.t.streams || (x % 4 == low && x / 4 < last && x !in s.gone)
  {
    FreshHas(low, s.t.counts[low], last, x);
  }

  lemma Ordered(x: nat, id: nat)
    ensures x % 4 == id % 4 ==> (x <= id <==> x / 4 < id / 4 + 1)
  {
    assert x == 4 * (x / 4) + x % 4 && id == 4 * (id / 4) + id % 4;
  }

  lemma OpensThem(s: State, id: nat, recvSide: bool, x: nat)
    requires Exact(s)
    ensures var n := PeerStream(s.t, id, recvSide);
            x in n.t.streams <==>
              || x in s.t.streams
              || (n.found == Stream && id !in s.t.streams && x % 4 == id % 4 && x <= id && x !in s.gone)
  {
    var n := PeerStream(s.t, id, recvSide);
    if n.found == Stream && id !in s.t.streams {
      MoreOf(s, id % 4, id / 4 + 1, x);
      Ordered(x, id);
    }
  }

  /** In every run a frame that opens a stream opens those of its kind with lower numbers too, and nothing else. */
  lemma OpensUpTo(isClient: bool, m: Limits, run: seq<Step>, id: nat, recvSide: bool, x: nat)
    ensures |Exec(isClient, m, run).t.counts| == 4
    ensures var s := Exec(isClient, m, run);
            var n := PeerStream(s.t, id, recvSide);
            x in n.t.streams <==>
              || x in s.t.streams
              || (n.found == Stream && id !in s.t.streams && x % 4 == id % 4 && x <= id && x !in s.gone)
  {
    RunKeeps(isClient, m, run);
    OpensThem(Exec(isClient, m, run), id, recvSide, x);
  }

  /** In every run the limit for the peer rises only when a stream of its finishes that leaves it no more than half
      of its room, and then to as many beyond those that are done as the configuration allows. */
  lemma LimitsRise(isClient: bool, m: Limits, run: seq<Step>, e: Step, bidi: bool)
    ensures var s, n := Exec(isClient, m, run), Exec(isClient, m, run + [e]);
            var q, r := if bidi then s.t.bidi else s.t.uni, if bidi then n.t.bidi else n.t.uni;
            var max := if bidi then m.bidi else m.uni;
            r == q || (r.done == q.done + 1 && r.limit == if q.limit - r.done <= max / 2 then r.done + max else q.limit)
    ensures var s, n := Exec(isClient, m, run), Exec(isClient, m, run + [e]);
            var q, r := if bidi then s.t.bidi else s.t.uni, if bidi then n.t.bidi else n.t.uni;
            r != q <==> e.Finishes? && e.id in s.t.streams && !Ours(isClient, e.id) && (e.id % 4 < 2 <==> bidi)
  {
    assert (run + [e])[..|run|] == run;
    RunKeeps(isClient, m, run);
    ClientStays(isClient, m, run);
  }

  lemma NumberParts(k: nat, low: nat, x: nat)
    requires low < 4
    ensures (4 * k + low) / 4 == k && (4 * k + low) % 4 == low
    ensures x == 4 * k + low <==> x / 4 == k && x % 4 == low
  {
    assert x == 4 * (x / 4) + x % 4;
  }

  lemma OpensOne(s: State, low: nat, id: nat, x: nat)
    requires Exact(s) && low < 4 && id % 4 == low && id / 4 == s.t.counts[low]
    requires x == id <==> x / 4 == id / 4 && x % 4 == low
    ensures x in s.t.streams + Fresh(low, id / 4, id / 4 + 1) <==> x in s.t.streams || x == id
    ensures id !in s.t.streams + s.gone
  {
    OneFresh(low, id / 4, id / 4 + 1, x);
    NotOpened(s, id);
  }

  lemma OneFresh(low: nat, first: nat, last: nat, x: nat)
    requires low < 4 && last == first + 1
    ensures x in Fresh(low, first, last) <==> x / 4 == first && x % 4 == low
  {
    FreshHas(low, first, last, x);
  }

  lemma NotOpened(s: State, x: nat)
    requires Exact(s) && x / 4 >= s.t.counts[x % 4]
    ensures x !in s.t.streams + s.gone
  {
  }

  lemma OpensIs(s: State, m: Limits, bidi: bool, low: nat)
    requires Exact(s) && low == Low(true, s.t.isClient, bidi)
    ensures Next(s, m, Opens(bidi)) == s.(t := OpenLocal(s.t, bidi))
    ensures OpenLocal(s.t, bidi).streams == s.t.streams + Fresh(low, s.t.counts[low], s.t.counts[low] + 1)
  {
  }

  lemma OpensFrom(s: State, m: Limits, bidi: bool, low: nat, x: nat)
    requires Exact(s) && low == Low(true, s.t.isClient, bidi)
    ensures var n := Next(s, m, Opens(bidi));
            && (x in n.t.streams <==> x in s.t.streams || x == 4 * s.t.counts[low] + low)
            && n.gone == s.gone && 4 * s.t.counts[low] + low !in s.t.streams + s.gone
  {
    OpensIs(s, m, bidi, low);
    var id := 4 * s.t.counts[low] + low;
    NumberParts(s.t.counts[low], low, x);
    OpensOne(s, low, id, x);
  }

  /** In every run a stream that this side opens gets the next number of its kind, which no stream had before. */
  lemma OpensNext(isClient: bool, m: Limits, run: seq<Step>, bidi: bool, low: nat, x: nat)
    requires low == (if bidi then 0 else 2) + (if isClient then 0 else 1)
    ensures |Exec(isClient, m, run).t.counts| == 4
    ensures var s, n := Exec(isClient, m, run), Exec(isClient, m, run + [Opens(bidi)]);
            && (x in n.t.streams <==> x in s.t.streams || x == 4 * s.t.counts[low] + low)
            && n.gone == s.gone && 4 * s.t.counts[low] + low !in s.t.streams + s.gone
  {
    assert (run + [Opens(bidi)])[..|run|] == run;
    RunKeeps(isClient, m, run);
    ClientStays(isClient, m, run);
    OpensFrom(Exec(isClient, m, run), m, bidi, low, x);
  }
}
