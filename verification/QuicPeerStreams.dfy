/** The table of streams: those that the peer opens, and how many it may (section 4.6 of RFC 9000). */
module QuicPeerStreams {
  /** Of the streams of one kind that the peer opens: how many are done, and how many it may open. */
  datatype Quota = Quota(done: nat, limit: nat)

  /** streams holds the numbers of the streams in the table, and counts how many have been opened
      for each value of the low two bits of a number, which say who opens it and whether it goes
      both ways. */
  datatype Table = Table(isClient: bool, streams: set<nat>, counts: seq<nat>, bidi: Quota, uni: Quota)

  /** MaxIncomingStreams and MaxIncomingUniStreams. */
  datatype Limits = Limits(bidi: nat, uni: nat)

  predicate IsBidi(id: nat) { id % 4 < 2 }

  predicate Local(isClient: bool, id: nat) { (id % 2 == 0) == isClient }

  function QuotaOf(t: Table, id: nat): Quota { if IsBidi(id) then t.bidi else t.uni }

  /** Numbers with these low bits from the first-th up to the last-th. */
  function Fresh(low: nat, first: nat, last: nat): set<nat>
    decreases last - first
  {
    if first >= last then {} else {4 * first + low} + Fresh(low, first + 1, last)
  }

  lemma {:induction false} FreshHas(low: nat, first: nat, last: nat, x: nat)
    requires low < 4
    ensures x in Fresh(low, first, last) <==> x % 4 == low && first <= x / 4 < last
    decreases last - first
  {
    if first < last {
      FreshHas(low, first + 1, last, x);
      assert (4 * first + low) / 4 == first && (4 * first + low) % 4 == low;
      assert x == 4 * (x / 4) + x % 4;
    }
  }

  lemma {:induction false} FreshCount(low: nat, first: nat, last: nat)
    requires low < 4 && first <= last
    ensures |Fresh(low, first, last)| == last - first
    decreases last - first
  {
    if first < last {
      FreshCount(low, first + 1, last);
      FreshHas(low, first + 1, last, 4 * first + low);
    }
  }

  datatype Found = StateError | LimitError | Gone | Stream

  datatype Answer = Answer(found: Found, t: Table)

  /** peerStream. */
  function PeerStream(t: Table, id: nat, recvSide: bool): Answer
    requires |t.counts| == 4
  {
    var local, count := Local(t.isClient, id), t.counts[id % 4];
    if !IsBidi(id) && local == recvSide then Answer(StateError, t)
    else if id in t.streams then Answer(Stream, t)
    else if local then Answer(if id / 4 >= count then StateError else Gone, t)
    else if id / 4 < count then Answer(Gone, t)
    else if id / 4 >= QuotaOf(t, id).limit then Answer(LimitError, t)
    else Answer(Stream, t.(counts := t.counts[id % 4 := id / 4 + 1],
                           streams := t.streams + Fresh(id % 4, count, id / 4 + 1)))
  }

  /** One more stream of the peer is done, and it gets another when half of its room is used. */
  function OneDone(q: Quota, max: nat): Quota {
    var done := q.done + 1;
    Quota(done, if q.limit - done < max / 2 + 1 then done + max else q.limit)
  }

  /** maybeFinish for a stream with both sides done. */
  function Finish(t: Table, m: Limits, id: nat): Table {
    var n := t.(streams := t.streams - {id});
    if Local(t.isClient, id) then n
    else if IsBidi(id) then n.(bidi := OneDone(t.bidi, m.bidi)) else n.(uni := OneDone(t.uni, m.uni))
  }

  function Low(ours: bool, isClient: bool, bidi: bool): nat {
    (if bidi then 0 else 2) + (if ours == isClient then 0 else 1)
  }

  /** openStream, when the peer allows one more. */
  function OpenLocal(t: Table, bidi: bool): Table
    requires |t.counts| == 4
  {
    var low := Low(true, t.isClient, bidi);
    t.(counts := t.counts[low := t.counts[low] + 1],
       streams := t.streams + Fresh(low, t.counts[low], t.counts[low] + 1))
  }

  // What every run keeps. gone is the set of streams that have finished.

  datatype State = State(t: Table, gone: set<nat>)

  /** The streams with these low bits. */
  ghost function OfKind(ids: set<nat>, low: nat): set<nat> { set id | id in ids && id % 4 == low }

  /** The table holds exactly what was opened and has not finished. */
  ghost predicate Exact(s: State) {
    && |s.t.counts| == 4
    && (forall id: nat :: id in s.t.streams <==> id / 4 < s.t.counts[id % 4] && id !in s.gone)
    && (forall id: nat :: id in s.gone ==> id / 4 < s.t.counts[id % 4])
  }

  ghost predicate QuotaOk(q: Quota, started: nat, max: nat) {
    q.done <= started <= q.limit <= q.done + max && (max >= 1 ==> q.limit >= q.done + max / 2 + 1)
  }

  ghost predicate Metered(s: State, m: Limits, bidi: bool)
    requires |s.t.counts| == 4
  {
    var low, q := Low(false, s.t.isClient, bidi), if bidi then s.t.bidi else s.t.uni;
    QuotaOk(q, s.t.counts[low], if bidi then m.bidi else m.uni) && q.done == |OfKind(s.gone, low)|
  }

  ghost predicate Inv(s: State, m: Limits) { Exact(s) && Metered(s, m, true) && Metered(s, m, false) }

  datatype Step = PeerFrame(id: nat, recvSide: bool) | Finishes(id: nat) | Opens(bidi: bool)

  function Next(s: State, m: Limits, e: Step): State {
    if |s.t.counts| != 4 then s else
    match e
    case PeerFrame(id, recvSide) => s.(t := PeerStream(s.t, id, recvSide).t)
    case Finishes(id) => if id in s.t.streams then State(Finish(s.t, m, id), s.gone + {id}) else s
    case Opens(bidi) => s.(t := OpenLocal(s.t, bidi))
  }

  /** Opening more streams of one kind creates only numbers that were never in the table. */
  lemma OpeningIsExact(s: State, low: nat, last: nat, n: State)
    requires Exact(s) && low < 4 && s.t.counts[low] <= last && n.gone == s.gone
    requires n.t.counts == s.t.counts[low := last] && n.t.streams == s.t.streams + Fresh(low, s.t.counts[low], last)
    ensures Exact(n) && (n.t.streams - s.t.streams) !! (s.t.streams + s.gone)
  {
    forall x: nat
      ensures x in n.t.streams <==> x / 4 < n.t.counts[x % 4] && x !in n.gone
      ensures x in s.gone ==> x / 4 < n.t.counts[x % 4] && x !in Fresh(low, s.t.counts[low], last)
    {
      FreshHas(low, s.t.counts[low], last, x);
    }
  }

  lemma PeerFrameKeeps(s: State, m: Limits, id: nat, recvSide: bool)
    requires Inv(s, m)
    ensures var n := Next(s, m, PeerFrame(id, recvSide));
            && Inv(n, m) && n.gone == s.gone && s.t.streams <= n.t.streams
            && (n.t.streams - s.t.streams) !! (s.t.streams + s.gone)
            && (PeerStream(s.t, id, recvSide).found.Stream? ==> id in n.t.streams)
  {
    var n := Next(s, m, PeerFrame(id, recvSide));
    if n.t != s.t {
      OpeningIsExact(s, id % 4, id / 4 + 1, n);
      FreshHas(id % 4, s.t.counts[id % 4], id / 4 + 1, id);
      PeerLow(s.t.isClient, id);
    }
  }

  lemma PeerLow(isClient: bool, id: nat)
    ensures !Local(isClient, id) ==> id % 4 == Low(false, isClient, IsBidi(id))
    ensures Local(isClient, id) ==> id % 4 == Low(true, isClient, IsBidi(id))
  {
    var q, r := id / 4, id % 4;
    assert id == 2 * (2 * q) + r;
    assert id % 2 == r % 2;
  }

  /** As many streams are open as have been opened and are not done. */
  lemma OpenCount(s: State, low: nat)
    requires Exact(s) && low < 4
    ensures |OfKind(s.t.streams, low)| + |OfKind(s.gone, low)| == s.t.counts[low]
  {
    var open, gone := OfKind(s.t.streams, low), OfKind(s.gone, low);
    forall x: nat ensures x in Fresh(low, 0, s.t.counts[low]) <==> x in open + gone {
      FreshHas(low, 0, s.t.counts[low], x);
    }
    assert Fresh(low, 0, s.t.counts[low]) == open + gone;
    FreshCount(low, 0, s.t.counts[low]);
    assert open * gone == {};
    assert |open + gone| == |open| + |gone|;
  }

  lemma OneMoreGone(gone: set<nat>, id: nat, low: nat)
    requires id !in gone
    ensures |OfKind(gone + {id}, low)| == |OfKind(gone, low)| + (if id % 4 == low then 1 else 0)
  {
    if id % 4 == low {
      assert OfKind(gone + {id}, low) == OfKind(gone, low) + {id};
    } else {
      assert OfKind(gone + {id}, low) == OfKind(gone, low);
    }
  }

  lemma FinishesKeeps(s: State, m: Limits, id: nat)
    requires Inv(s, m) && id in s.t.streams
    ensures var n := Next(s, m, Finishes(id));
            Inv(n, m) && n.t.bidi.limit >= s.t.bidi.limit && n.t.uni.limit >= s.t.uni.limit
  {
    var n := Next(s, m, Finishes(id));
    assert Exact(n);
    OneMoreGone(s.gone, id, Low(false, s.t.isClient, true));
    OneMoreGone(s.gone, id, Low(false, s.t.isClient, false));
    PeerLow(s.t.isClient, id);
    OpenCount(n, id % 4);
  }

  lemma OpensKeeps(s: State, m: Limits, bidi: bool)
    requires Inv(s, m)
    ensures Inv(Next(s, m, Opens(bidi)), m)
  {
    var low, n := Low(true, s.t.isClient, bidi), s.(t := OpenLocal(s.t, bidi));
    assert Next(s, m, Opens(bidi)) == n;
    OpeningIsExact(s, low, s.t.counts[low] + 1, n);
    MeteredStays(s, n, m, true);
    MeteredStays(s, n, m, false);
  }

  /** What the peer opens is metered by the counts of its own kinds. */
  lemma MeteredStays(s: State, n: State, m: Limits, bidi: bool)
    requires |s.t.counts| == |n.t.counts| == 4 && Metered(s, m, bidi)
    requires n.gone == s.gone && n.t.isClient == s.t.isClient && n.t.bidi == s.t.bidi && n.t.uni == s.t.uni
    requires n.t.counts[Low(false, s.t.isClient, bidi)] == s.t.counts[Low(false, s.t.isClient, bidi)]
    ensures Metered(n, m, bidi)
  {
  }

  /** withDefaults leaves no limit at zero. */
  function Init(isClient: bool, m: Limits): State {
    State(Table(isClient, {}, [0, 0, 0, 0], Quota(0, m.bidi), Quota(0, m.uni)), {})
  }

  function Exec(isClient: bool, m: Limits, run: seq<Step>): State {
    if run == [] then Init(isClient, m) else Next(Exec(isClient, m, run[..|run| - 1]), m, run[|run| - 1])
  }

  lemma {:induction false} RunKeeps(isClient: bool, m: Limits, run: seq<Step>)
    ensures Inv(Exec(isClient, m, run), m)
  {
    if run == [] {
      assert OfKind({}, Low(false, isClient, true)) == {} && OfKind({}, Low(false, isClient, false)) == {};
    } else {
      var before := run[..|run| - 1];
      RunKeeps(isClient, m, before);
      var s := Exec(isClient, m, before);
      match run[|run| - 1]
      case PeerFrame(id, recvSide) => PeerFrameKeeps(s, m, id, recvSide);
      case Finishes(id) =>
        if id in s.t.streams {
          FinishesKeeps(s, m, id);
        }
      case Opens(bidi) => OpensKeeps(s, m, bidi);
    }
  }

  /** In every run the peer has at most as many streams open as it may, and may always open at
      least one more than half of them beyond those that are done. */
  lemma PeerIsBoundedAndNeverLockedOut(isClient: bool, m: Limits, run: seq<Step>, bidi: bool)
    requires m.bidi >= 1 && m.uni >= 1
    ensures var s, max := Exec(isClient, m, run), if bidi then m.bidi else m.uni;
            var low, q := Low(false, isClient, bidi), if bidi then s.t.bidi else s.t.uni;
            && |OfKind(s.t.streams, low)| <= max
            && q.limit >= q.done + max / 2 + 1 && q.done <= q.limit
  {
    RunKeeps(isClient, m, run);
    ClientStays(isClient, m, run);
    OpenCount(Exec(isClient, m, run), Low(false, isClient, bidi));
  }

  lemma {:induction false} ClientStays(isClient: bool, m: Limits, run: seq<Step>)
    ensures Exec(isClient, m, run).t.isClient == isClient
  {
    if run != [] {
      ClientStays(isClient, m, run[..|run| - 1]);
    }
  }

  /** The part of a connection that keeps the table. */
  class StreamTable {
    const isClient: bool
    var streams: set<nat>
    var openedBidi: nat
    var openedUni: nat
    var peerOpenedBidi: nat
    var peerOpenedUni: nat
    var peerDoneBidi: nat
    var peerDoneUni: nat
    var maxBidi: nat
    var maxUni: nat

    ghost function Value(): Table
      reads this
    {
      Table(isClient, streams,
            if isClient then [openedBidi, peerOpenedBidi, openedUni, peerOpenedUni]
            else [peerOpenedBidi, openedBidi, peerOpenedUni, openedUni],
            Quota(peerDoneBidi, maxBidi), Quota(peerDoneUni, maxUni))
    }

    constructor (client: bool, m: Limits)
      ensures Value() == Init(client, m).t
    {
      isClient, streams := client, {};
      openedBidi, openedUni, peerOpenedBidi, peerOpenedUni, peerDoneBidi, peerDoneUni := 0, 0, 0, 0, 0, 0;
      maxBidi, maxUni := m.bidi, m.uni;
    }

    /** The loop of peerStream: every stream up to the one asked for. */
    method OpenUpTo(low: nat, first: nat, last: nat)
      requires low < 4 && first <= last
      modifies this`streams
      ensures streams == old(streams) + Fresh(low, first, last)
    {
      var k := first;
      while k < last
        invariant first <= k <= last && streams + Fresh(low, k, last) == old(streams) + Fresh(low, first, last)
      {
        streams := streams + {4 * k + low};
        k := k + 1;
      }
    }

    /** peerStream. */
    method Find(id: nat, recvSide: bool) returns (found: Found)
      modifies this`streams, this`peerOpenedBidi, this`peerOpenedUni
      ensures Answer(found, Value()) == PeerStream(old(Value()), id, recvSide)
    {
      PeerLow(isClient, id);
      var local, bidi, k := (id % 2 == 0) == isClient, id % 4 < 2, id / 4;
      if !bidi && local == recvSide {
        return StateError;
      }
      if id in streams {
        return Stream;
      }
      if local {
        var count := if bidi then openedBidi else openedUni;
        return if k >= count then StateError else Gone;
      }
      var count, limit := if bidi then peerOpenedBidi else peerOpenedUni, if bidi then maxBidi else maxUni;
      if k < count {
        return Gone;
      }
      if k >= limit {
        return LimitError;
      }
      OpenUpTo(id % 4, count, k + 1);
      if bidi {
        peerOpenedBidi := k + 1;
      } else {
        peerOpenedUni := k + 1;
      }
      found := Stream;
    }

    /** maybeFinish, for a stream whose two sides are done. */
    method FinishStream(m: Limits, id: nat)
      modifies this
      ensures Value() == Finish(old(Value()), m, id)
    {
      streams := streams - {id};
      if (id % 2 == 0) == isClient {
        return;
      }
      if id % 4 < 2 {
        peerDoneBidi := peerDoneBidi + 1;
        if maxBidi - peerDoneBidi < m.bidi / 2 + 1 {
          maxBidi := peerDoneBidi + m.bidi;
        }
      } else {
        peerDoneUni := peerDoneUni + 1;
        if maxUni - peerDoneUni < m.uni / 2 + 1 {
          maxUni := peerDoneUni + m.uni;
        }
      }
    }

    /** openStream, when the peer allows one more. */
    method OpenOwn(bidi: bool) returns (id: nat)
      modifies this`streams, this`openedBidi, this`openedUni
      ensures Value() == OpenLocal(old(Value()), bidi) && id in streams
      ensures id == 4 * old(if bidi then openedBidi else openedUni) + (if bidi then 0 else 2)
                + (if isClient then 0 else 1)
    {
      var client := if isClient then 0 else 1;
      if bidi {
        id := 4 * openedBidi + client;
        OpenUpTo(client, openedBidi, openedBidi + 1);
        openedBidi := openedBidi + 1;
      } else {
        id := 4 * openedUni + (2 + client);
        OpenUpTo(2 + client, openedUni, openedUni + 1);
        openedUni := openedUni + 1;
      }
    }
  }
}
