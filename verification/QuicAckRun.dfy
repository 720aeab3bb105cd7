/** Which packet numbers a space accepts over a run of arrivals. */
module QuicAckRun {
  import opened QuicPackets
  import opened QuicAck

  /** What rangeSet.add reports. */
  ghost predicate Accepts(r: seq<PnRange>, pn: nat) {
    !Member(r, pn) && !(|r| == MAX_RANGES && pn < r[0].lo)
  }

  /** The ranges, every number accepted so far in order, and the highest number ever forgotten, -1 if
      none was. */
  datatype Seen = Seen(r: seq<PnRange>, accepted: seq<nat>, floor: int)

  ghost function Arrive(s: Seen, pn: nat): Seen {
    if !Accepts(s.r, pn) then s else
    var t := Insert(s.r, pn);
    if |t| <= MAX_RANGES then Seen(t, s.accepted + [pn], s.floor)
    else Seen(t[1..], s.accepted + [pn], if t[0].hi > s.floor then t[0].hi else s.floor)
  }

  ghost function Run(arrivals: seq<nat>): Seen {
    if arrivals == [] then Seen([], [], -1) else Arrive(Run(arrivals[..|arrivals| - 1]), arrivals[|arrivals| - 1])
  }

  /** add is one such step. */
  method AddNext(r: seq<PnRange>, pn: nat, ghost s: Seen) returns (next: seq<PnRange>, ok: bool)
    requires s.r == r && Ascend(r) && |r| <= MAX_RANGES
    ensures ok == Accepts(r, pn) && next == Arrive(s, pn).r
  {
    next, ok := Add(r, pn);
  }

  /** Above the floor the ranges hold exactly what was accepted, and nothing was accepted twice. */
  ghost predicate Inv(s: Seen) {
    && Ascend(s.r) && |s.r| <= MAX_RANGES && s.floor >= -1
    && (forall x: nat {:trigger Member(s.r, x)} :: Member(s.r, x) ==> x in s.accepted)
    && (forall x: nat {:trigger Member(s.r, x)} :: x > s.floor && x in s.accepted ==> Member(s.r, x))
    && (forall i, j :: 0 <= i < j < |s.accepted| && s.accepted[i] == s.accepted[j] ==> s.accepted[j] <= s.floor)
  }

  lemma ArriveMembers(s: Seen, pn: nat, x: nat)
    requires Inv(s) && Accepts(s.r, pn)
    ensures var n := Arrive(s, pn);
            && (Member(n.r, x) ==> x in n.accepted) && (x > n.floor && x in n.accepted ==> Member(n.r, x))
  {
    AddedMembers(s.r, pn, x);
    assert Member(s.r, x) ==> x in s.accepted;
    assert x > s.floor && x in s.accepted ==> Member(s.r, x);
  }

  lemma ArriveKeeps(s: Seen, pn: nat)
    requires Inv(s)
    ensures Inv(Arrive(s, pn)) && Arrive(s, pn).floor >= s.floor
  {
    if Accepts(s.r, pn) {
      var n := Arrive(s, pn);
      InsertAscends(s.r, pn);
      forall x: nat {:trigger Member(n.r, x)}
        ensures (Member(n.r, x) ==> x in n.accepted) && (x > n.floor && x in n.accepted ==> Member(n.r, x))
      {
        ArriveMembers(s, pn, x);
      }
      assert pn in s.accepted ==> pn <= s.floor by {
        assert !Member(s.r, pn);
      }
    }
  }

  lemma {:induction false} RunKeeps(arrivals: seq<nat>)
    ensures Inv(Run(arrivals))
  {
    if arrivals != [] {
      RunKeeps(arrivals[..|arrivals| - 1]);
      ArriveKeeps(Run(arrivals[..|arrivals| - 1]), arrivals[|arrivals| - 1]);
    }
  }

  /** In every run, numbers above the floor are accepted at most once, and the ranges hold exactly those
      that were. */
  lemma AcceptedOnce(arrivals: seq<nat>, x: nat, i: nat, j: nat)
    requires i < j < |Run(arrivals).accepted|
    ensures var s := Run(arrivals);
            && (s.accepted[i] == s.accepted[j] ==> s.accepted[j] <= s.floor)
            && (x > s.floor ==> (Member(s.r, x) <==> x in s.accepted))
  {
    RunKeeps(arrivals);
    var s := Run(arrivals);
    assert Member(s.r, x) ==> x in s.accepted;
  }

  /** In every run, a number that was accepted is accepted again if and only if it is not above the
      floor, no longer held, and not below a full set. */
  lemma RepeatIff(arrivals: seq<nat>, pn: nat)
    requires pn in Run(arrivals).accepted
    ensures var s := Run(arrivals);
            (pn in Arrive(s, pn).accepted[|s.accepted|..])
            == (pn <= s.floor && !Member(s.r, pn) && (|s.r| < MAX_RANGES || s.r[0].lo < pn))
  {
    RunKeeps(arrivals);
    var s := Run(arrivals);
    assert Member(s.r, pn) || pn <= s.floor;
    if Accepts(s.r, pn) {
      assert (s.accepted + [pn])[|s.accepted|..] == [pn];
    } else {
      assert s.accepted[|s.accepted|..] == [];
    }
    if |s.r| == MAX_RANGES && s.r[0].lo == pn {
      assert Member(s.r, pn);
    }
  }

  // A number accepted twice.

  function Evens(n: nat): seq<nat> { seq(n, i => 2 * i) }

  /** Ranges of one even number each. */
  function Singles(from: nat, n: nat): seq<PnRange> {
    seq(n, i requires 0 <= i => PnRange(2 * (from + i), 2 * (from + i)))
  }

  lemma {:induction false} SinglesAscend(from: nat, n: nat)
    ensures Ascend(Singles(from, n))
    decreases n
  {
    if n > 0 {
      SinglesAscend(from + 1, n - 1);
      assert Singles(from, n)[1..] == Singles(from + 1, n - 1);
    }
  }

  lemma NextSingle(n: nat)
    requires n <= MAX_RANGES
    ensures var r := Singles(0, n); Accepts(r, 2 * n) && Insert(r, 2 * n) == Singles(0, n + 1)
  {
    var r := Singles(0, n);
    SinglesAscend(0, n);
    MemberAt(r, n, 2 * n);
    InsertAt(r, 2 * n, n);
    assert r[..n] == r && r[n..] == [];
    assert r + [PnRange(2 * n, 2 * n)] == Singles(0, n + 1);
  }

  lemma {:induction false} EvensSeen(n: nat)
    requires n <= MAX_RANGES
    ensures Run(Evens(n)) == Seen(Singles(0, n), Evens(n), -1)
  {
    if n > 0 {
      assert Evens(n)[..n - 1] == Evens(n - 1) && Evens(n) == Evens(n - 1) + [2 * (n - 1)];
      EvensSeen(n - 1);
      NextSingle(n - 1);
    }
  }

  /** After 33 numbers with gaps the first is forgotten. */
  lemma FirstForgotten()
    ensures Run(Evens(33)) == Seen(Singles(1, 32), Evens(33), 0)
  {
    assert Evens(33)[..32] == Evens(32) && Evens(33) == Evens(32) + [64];
    EvensSeen(32);
    NextSingle(32);
    assert Singles(0, 33)[1..] == Singles(1, 32);
  }

  /** One more number closes a gap, so that the set is no longer full. */
  lemma GapCloses(r: seq<PnRange>)
    requires r == Singles(1, 32)
    ensures Accepts(r, 3) && Insert(r, 3) == [PnRange(2, 4)] + r[2..] && Ascend(Insert(r, 3))
    ensures Accepts(Insert(r, 3), 0)
  {
    SinglesAscend(1, 32);
    MemberAt(r, 0, 3);
    InsertAscends(r, 3);
    MemberAt(Insert(r, 3), 0, 0);
  }

  /** Then the first number is accepted a second time. */
  lemma AcceptedTwice()
    ensures var s := Run(Evens(33) + [3] + [0]);
            |s.accepted| == 35 && s.accepted[0] == s.accepted[34] == 0 && s.floor == 0
  {
    FirstForgotten();
    var a := Evens(33) + [3];
    assert a[..33] == Evens(33) && (a + [0])[..34] == a;
    GapCloses(Run(Evens(33)).r);
    assert Run(a).r == [PnRange(2, 4)] + Singles(1, 32)[2..];
    InsertAscends(Run(a).r, 0);
  }
}
