/** An ACK frame as the integers that it consists of (section 19.3 of RFC 9000): what is written, and exactly what is
    accepted of arbitrary bytes. */
module QuicAckFields {
  import opened Bytes
  import opened QuicPackets
  import opened QuicAck

  /** Ranges from the highest down, each with at least one number missing below what comes before it. */
  ghost predicate Below(r: seq<PnRange>, smallest: nat) {
    r == [] || (r[0].lo <= r[0].hi && r[0].hi + 2 <= smallest && Below(r[1..], r[0].lo))
  }

  /** For every range how many numbers are missing above it, less one, and how many it has, less one. */
  function Pairs(r: seq<PnRange>, smallest: int): seq<int> {
    if r == [] then [] else [smallest - r[0].hi - 2, r[0].hi - r[0].lo] + Pairs(r[1..], r[0].lo)
  }

  /** Largest Acknowledged, ACK Delay, ACK Range Count, First ACK Range, and the rest in pairs. */
  function Fields(r: seq<PnRange>, delay: nat): seq<int>
    requires r != []
  {
    [r[0].hi, delay, |r| - 1, r[0].hi - r[0].lo] + Pairs(r[1..], r[0].lo)
  }

  /** The integers at the head of b are vs, and rest comes after them. */
  ghost predicate Takes(take: Source, b: seq<byte>, vs: seq<int>, rest: seq<byte>)
    decreases |vs|
  {
    if vs == [] then rest == b
    else take(b).Taken? && take(b).value == vs[0] && Takes(take, take(b).rest, vs[1..], rest)
  }

  lemma TakesTwo(take: Source, b: seq<byte>, x: int, y: int, vs: seq<int>, rest: seq<byte>)
    ensures Takes(take, b, [x, y] + vs, rest) <==>
              && take(b).Taken? && take(b).value == x
              && take(take(b).rest).Taken? && take(take(b).rest).value == y
              && Takes(take, take(take(b).rest).rest, vs, rest)
  {
    assert ([x, y] + vs)[1..] == [y] + vs && ([y] + vs)[1..] == vs;
  }

  /** The loop accepts exactly count pairs that stay above zero. */
  lemma {:induction false} RangesIff(take: Source, b: seq<byte>, count: nat, smallest: nat, r: seq<PnRange>,
                                     rest: seq<byte>)
    ensures ParseRanges(take, b, count, smallest) == Ranges(r, rest)
            <==> |r| == count && Below(r, smallest) && Takes(take, b, Pairs(r, smallest), rest)
    decreases count
  {
    if count > 0 && r != [] {
      var gap := take(b);
      TakesTwo(take, b, smallest - r[0].hi - 2, r[0].hi - r[0].lo, Pairs(r[1..], r[0].lo), rest);
      if gap.Taken? && take(gap.rest).Taken? {
        var len := take(gap.rest);
        RangesIff(take, len.rest, count - 1, r[0].lo, r[1..], rest);
        FirstRange(take, b, count, smallest, r, rest);
      }
    } else if count > 0 {
      NotEmpty(take, b, count, smallest, rest);
    }
  }

  lemma NotEmpty(take: Source, b: seq<byte>, count: nat, smallest: nat, rest: seq<byte>)
    requires count > 0
    ensures ParseRanges(take, b, count, smallest) != Ranges([], rest)
  {
  }

  /** What the first pair says. */
  lemma FirstRange(take: Source, b: seq<byte>, count: nat, smallest: nat, r: seq<PnRange>, rest: seq<byte>)
    requires count > 0 && r != [] && take(b).Taken? && take(take(b).rest).Taken?
    ensures var gap := take(b);
            var len := take(gap.rest);
            ParseRanges(take, b, count, smallest) == Ranges(r, rest) <==>
              && gap.value == smallest - r[0].hi - 2 && len.value == r[0].hi - r[0].lo
              && ParseRanges(take, len.rest, count - 1, r[0].lo) == Ranges(r[1..], rest)
  {
    var gap := take(b);
    var len := take(gap.rest);
    if smallest >= gap.value + 2 && smallest - gap.value - 2 >= len.value {
      var hi := smallest - gap.value - 2;
      var first := PnRange(hi - len.value, hi);
      var more := ParseRanges(take, len.rest, count - 1, first.lo);
      if more.Ranges? {
        assert ([first] + more.r)[0] == first && ([first] + more.r)[1..] == more.r;
        assert r == [r[0]] + r[1..];
      }
    }
  }

  lemma TakesFour(take: Source, b: seq<byte>, v: seq<int>, vs: seq<int>, rest: seq<byte>)
    requires |v| == 4
    ensures Takes(take, b, v + vs, rest) <==>
              var b1 := take(b);
              b1.Taken? && b1.value == v[0] && var b2 := take(b1.rest);
              b2.Taken? && b2.value == v[1] && var b3 := take(b2.rest);
              b3.Taken? && b3.value == v[2] && var b4 := take(b3.rest);
              b4.Taken? && b4.value == v[3] && Takes(take, b4.rest, vs, rest)
  {
    assert v + vs == [v[0], v[1]] + ([v[2], v[3]] + vs);
    TakesTwo(take, b, v[0], v[1], [v[2], v[3]] + vs, rest);
    if take(b).Taken? && take(take(b).rest).Taken? {
      TakesTwo(take, take(take(b).rest).rest, v[2], v[3], vs, rest);
    }
  }

  /** A list that an ACK frame can carry. */
  ghost predicate Reportable(r: seq<PnRange>) {
    r != [] && r[0].lo <= r[0].hi && Below(r[1..], r[0].lo) && |r| - 1 <= 0x1_0000
  }

  lemma HeadThen(take: Source, b: seq<byte>, r: seq<PnRange>, delay: nat, rest: seq<byte>)
    requires r != [] && ParseHead(take, b).Head?
    ensures var h := ParseHead(take, b);
            ParseWith(take, b) == Ack(r, delay, rest) <==>
              && r[0] == PnRange(h.largest - h.first, h.largest) && h.delay == delay
              && ParseRanges(take, h.rest, h.count, h.largest - h.first) == Ranges(r[1..], rest)
  {
    var h := ParseHead(take, b);
    var first := PnRange(h.largest - h.first, h.largest);
    var more := ParseRanges(take, h.rest, h.count, first.lo);
    if more.Ranges? {
      assert ([first] + more.r)[0] == first && ([first] + more.r)[1..] == more.r;
      assert r == [r[0]] + r[1..];
    }
  }

  lemma HeadIs(take: Source, b: seq<byte>, r: seq<PnRange>, delay: nat, vs: seq<int>, rest: seq<byte>)
    requires r != [] && r[0].lo <= r[0].hi && |r| - 1 <= 0x1_0000
    ensures var h := ParseHead(take, b);
            Takes(take, b, [r[0].hi, delay, |r| - 1, r[0].hi - r[0].lo] + vs, rest) <==>
              && h.Head? && h.largest == r[0].hi && h.delay == delay && h.count == |r| - 1
              && h.first == r[0].hi - r[0].lo && Takes(take, h.rest, vs, rest)
  {
    TakesFour(take, b, [r[0].hi, delay, |r| - 1, r[0].hi - r[0].lo], vs, rest);
  }

  lemma NeverEmpty(take: Source, b: seq<byte>, delay: nat, rest: seq<byte>)
    ensures ParseWith(take, b) != Ack([], delay, rest)
  {
  }

  lemma CountedRanges(take: Source, b: seq<byte>)
    ensures ParseWith(take, b).Ack? ==> ParseHead(take, b).Head? && ParseHead(take, b).count <= 0x1_0000
  {
  }

  /** Arbitrary bytes are accepted as an ACK frame with these ranges and this delay if and only if the integers in
      them are its fields. */
  lemma AckIff(take: Source, b: seq<byte>, r: seq<PnRange>, delay: nat, rest: seq<byte>)
    ensures ParseWith(take, b) == Ack(r, delay, rest)
            <==> Reportable(r) && Takes(take, b, Fields(r, delay), rest)
  {
    NeverEmpty(take, b, delay, rest);
    CountedRanges(take, b);
    if r != [] {
      var h := ParseHead(take, b);
      if h.Head? {
        HeadThen(take, b, r, delay, rest);
        RangesIff(take, h.rest, h.count, h.largest - h.first, r[1..], rest);
      }
      if r[0].lo <= r[0].hi && |r| - 1 <= 0x1_0000 {
        HeadIs(take, b, r, delay, Pairs(r[1..], r[0].lo), rest);
      }
    }
  }

  /** n integers of any value are at the head of b, and rest comes after them. */
  ghost predicate Drops(take: Source, b: seq<byte>, n: nat, rest: seq<byte>)
    decreases n
  {
    if n == 0 then rest == b else take(b).Taken? && Drops(take, take(b).rest, n - 1, rest)
  }

  lemma {:induction false} SkipIs(take: Source, a: Ack, n: nat, r: seq<PnRange>, delay: nat, rest: seq<byte>)
    ensures SkipCounts(take, a, n) == Ack(r, delay, rest)
            <==> a.Ack? && a.r == r && a.delay == delay && Drops(take, a.rest, n, rest)
    decreases n
  {
    if a.Ack? && n > 0 && take(a.rest).Taken? {
      SkipIs(take, a.(rest := take(a.rest).rest), n - 1, r, delay, rest);
    }
  }

  /** With counts of ECN there are three integers more. */
  lemma EcnIff(take: Source, b: seq<byte>, r: seq<PnRange>, delay: nat, rest: seq<byte>)
    ensures ParseFrame(take, b, true) == Ack(r, delay, rest)
            <==> exists mid :: ParseWith(take, b) == Ack(r, delay, mid) && Drops(take, mid, 3, rest)
    ensures ParseFrame(take, b, false) == ParseWith(take, b)
  {
    SkipIs(take, ParseWith(take, b), 3, r, delay, rest);
  }

  // What is written.

  function WriteAll(put: Sink, vs: seq<int>, rest: seq<byte>): seq<byte> {
    if vs == [] then rest else (if vs[0] >= 0 then put(vs[0]) else []) + WriteAll(put, vs[1..], rest)
  }

  lemma WriteTwo(put: Sink, x: nat, y: nat, vs: seq<int>, rest: seq<byte>)
    ensures WriteAll(put, [x, y] + vs, rest) == put(x) + (put(y) + WriteAll(put, vs, rest))
  {
    assert ([x, y] + vs)[1..] == [y] + vs && ([y] + vs)[1..] == vs;
  }

  lemma {:induction false} WritesPairs(put: Sink, r: seq<PnRange>, prev: nat, rest: seq<byte>)
    requires Ascend(r) && (r != [] ==> r[|r| - 1].hi + 1 < prev)
    ensures EncodeRanges(put, r, prev, rest) == WriteAll(put, Pairs(Reverse(r), prev), rest)
    decreases |r|
  {
    if r != [] {
      var last, below := r[|r| - 1], r[..|r| - 1];
      AscendLast(r);
      WritesPairs(put, below, last.lo, rest);
      assert ([last] + Reverse(below))[1..] == Reverse(below);
      WriteTwo(put, prev - last.hi - 2, last.hi - last.lo, Pairs(Reverse(below), last.lo), rest);
    }
  }

  lemma {:induction false} ReverseCount(r: seq<PnRange>)
    ensures |Reverse(r)| == |r|
  {
    if r != [] {
      ReverseCount(r[..|r| - 1]);
    }
  }

  /** An ACK frame consists of the fields of its ranges, from the highest down. */
  lemma WritesFields(put: Sink, r: seq<PnRange>, delay: nat, rest: seq<byte>)
    requires Ascend(r) && r != []
    ensures Reverse(r) != [] && EncodeWith(put, r, delay, rest) == WriteAll(put, Fields(Reverse(r), delay), rest)
  {
    var last, below := r[|r| - 1], r[..|r| - 1];
    AscendLast(r);
    WritesPairs(put, below, last.lo, rest);
    ReverseCount(below);
    assert ([last] + Reverse(below))[1..] == Reverse(below);
    var vs := Pairs(Reverse(below), last.lo);
    assert [last.hi, delay, |r| - 1, last.hi - last.lo] + vs
        == [last.hi, delay] + ([|r| - 1, last.hi - last.lo] + vs);
    WriteTwo(put, last.hi, delay, [|r| - 1, last.hi - last.lo] + vs, rest);
    WriteTwo(put, |r| - 1, last.hi - last.lo, vs, rest);
  }
}
