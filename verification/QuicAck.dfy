/** The packet numbers a space has received, and the ACK frames that report them
    (section 19.3.1 of RFC 9000). */
module QuicAck {
  import opened Bytes
  import opened QuicPackets
  import opened QuicVarint
  import QuicSender

  const MAX_RANGES := 32

  /** Ascending, disjoint and non-adjacent ranges. */
  ghost predicate Ascend(r: seq<PnRange>) {
    r == [] || (r[0].lo <= r[0].hi && (|r| > 1 ==> r[0].hi + 1 < r[1].lo) && Ascend(r[1..]))
  }

  ghost predicate Member(r: seq<PnRange>, x: nat) {
    r != [] && (r[0].lo <= x <= r[0].hi || Member(r[1..], x))
  }

  /** The reference for rangeSet.add: walk up to where pn belongs. */
  function Insert(r: seq<PnRange>, pn: nat): seq<PnRange> {
    if r == [] then [PnRange(pn, pn)]
    else if r[0].hi + 1 < pn then [r[0]] + Insert(r[1..], pn)
    else if pn + 1 < r[0].lo then [PnRange(pn, pn)] + r
    else if pn + 1 == r[0].lo then [PnRange(pn, r[0].hi)] + r[1..]
    else if pn <= r[0].hi then r
    else if |r| > 1 && r[1].lo == pn + 1 then [PnRange(r[0].lo, r[1].hi)] + r[2..]
    else [PnRange(r[0].lo, pn)] + r[1..]
  }

  lemma {:induction false} InsertAscends(r: seq<PnRange>, pn: nat)
    requires Ascend(r)
    ensures Ascend(Insert(r, pn))
    ensures Insert(r, pn) != [] && |Insert(r, pn)| <= |r| + 1
    ensures r != [] ==> Insert(r, pn)[0].lo == (if pn < r[0].lo then pn else r[0].lo)
    ensures r != [] && r[0].hi + 1 < pn ==> Insert(r, pn)[0] == r[0]
  {
    if r != [] {
      var s := Insert(r, pn);
      if r[0].hi + 1 < pn {
        InsertAscends(r[1..], pn);
        assert s[1..] == Insert(r[1..], pn);
      } else if pn + 1 < r[0].lo {
        assert s[1..] == r;
      } else if pn > r[0].hi && |r| > 1 && r[1].lo == pn + 1 {
        assert r[1..][1..] == r[2..] && s[1..] == r[2..];
      } else if pn + 1 == r[0].lo || pn > r[0].hi {
        assert s[1..] == r[1..];
      }
    }
  }

  lemma {:induction false} InsertMembers(r: seq<PnRange>, pn: nat, x: nat)
    requires Ascend(r)
    ensures Member(Insert(r, pn), x) <==> Member(r, x) || x == pn
  {
    if r == [] {
      assert Insert(r, pn)[1..] == [];
    } else {
      var s := Insert(r, pn);
      if r[0].hi + 1 < pn {
        InsertMembers(r[1..], pn, x);
        assert s[1..] == Insert(r[1..], pn);
      } else if pn + 1 < r[0].lo {
        assert s[1..] == r;
      } else if pn > r[0].hi && |r| > 1 && r[1].lo == pn + 1 {
        assert r[1..][1..] == r[2..] && s[1..] == r[2..];
      } else if pn + 1 == r[0].lo || pn > r[0].hi {
        assert s[1..] == r[1..];
      }
    }
  }

  /** A member lies at or above the first range. */
  lemma {:induction false} MemberAbove(r: seq<PnRange>, x: nat)
    requires Ascend(r) && Member(r, x)
    ensures r[0].lo <= x
  {
    if !(r[0].lo <= x <= r[0].hi) {
      MemberAbove(r[1..], x);
    }
  }

  lemma {:induction false} AscendPairs(r: seq<PnRange>, i: nat, j: nat)
    requires Ascend(r) && i <= j < |r|
    ensures r[i].lo <= r[i].hi && r[j].lo <= r[j].hi
    ensures i < j ==> r[i].hi + 1 < r[j].lo
  {
    if i > 0 {
      AscendPairs(r[1..], i - 1, j - 1);
    } else if j > 0 {
      AscendPairs(r[1..], 0, j - 1);
    }
  }

  /** sort.Search: the first range that pn does not lie strictly beyond. */
  method SearchRange(r: seq<PnRange>, pn: nat) returns (i: nat)
    requires Ascend(r)
    ensures i <= |r|
    ensures forall k :: 0 <= k < i ==> r[k].hi + 1 < pn
    ensures i < |r| ==> pn <= r[i].hi + 1
  {
    i := 0;
    var j := |r|;
    while i < j
      invariant 0 <= i <= j <= |r|
      invariant forall k :: 0 <= k < i ==> r[k].hi + 1 < pn
      invariant j < |r| ==> pn <= r[j].hi + 1
    {
      var h := (i + j) / 2;
      if r[h].hi + 1 >= pn {
        j := h;
      } else {
        forall k | 0 <= k <= h ensures r[k].hi + 1 < pn {
          AscendPairs(r, k, h);
        }
        i := h + 1;
      }
    }
  }

  /** Inserting at the place the search found. */
  lemma {:induction false} InsertAt(r: seq<PnRange>, pn: nat, i: nat)
    requires i <= |r| && forall k :: 0 <= k < i ==> r[k].hi + 1 < pn
    ensures Insert(r, pn) == r[..i] + Insert(r[i..], pn)
  {
    if i > 0 {
      InsertAt(r[1..], pn, i - 1);
      assert r[1..][i - 1..] == r[i..];
      assert r[..i] == [r[0]] + r[1..][..i - 1];
    } else {
      assert r[i..] == r;
    }
  }

  lemma {:induction false} MemberAt(r: seq<PnRange>, i: nat, pn: nat)
    requires Ascend(r) && i <= |r|
    requires forall k :: 0 <= k < i ==> r[k].hi + 1 < pn
    requires i < |r| ==> pn <= r[i].hi + 1
    ensures Member(r, pn) <==> i < |r| && r[i].lo <= pn <= r[i].hi
  {
    if i > 0 {
      MemberAt(r[1..], i - 1, pn);
    } else if i < |r| && Member(r[1..], pn) {
      MemberAbove(r[1..], pn);
    }
  }

  /** What rangeSet.add reports and leaves: a number already there, or older than a full
      set, is refused; on overflow the oldest range is forgotten. */
  method Add(r: seq<PnRange>, pn: nat) returns (s: seq<PnRange>, ok: bool)
    requires Ascend(r) && |r| <= MAX_RANGES
    ensures Ascend(s) && |s| <= MAX_RANGES
    ensures ok <==> !Member(r, pn) && !(|r| == MAX_RANGES && pn < r[0].lo)
    ensures !ok ==> s == r
    ensures ok ==> s == if |Insert(r, pn)| > MAX_RANGES then Insert(r, pn)[1..] else Insert(r, pn)
  {
    s := r;
    if |r| > 0 && pn < r[0].lo && |r| == MAX_RANGES {
      return s, false;
    }
    var i := SearchRange(r, pn);
    MemberAt(r, i, pn);
    if i < |r| && r[i].lo <= pn <= r[i].hi {
      return s, false;
    }
    InsertAt(r, pn, i);
    InsertAscends(r, pn);
    s := SpliceIn(r, pn, i);
    if |s| > MAX_RANGES {
      s := s[1..];
    }
    ok := true;
  }

  /** The switch of rangeSet.add. */
  method SpliceIn(r: seq<PnRange>, pn: nat, i: nat) returns (s: seq<PnRange>)
    requires Ascend(r) && i <= |r| && (i < |r| ==> pn <= r[i].hi + 1 && !(r[i].lo <= pn <= r[i].hi))
    ensures s == r[..i] + Insert(r[i..], pn)
  {
    if i < |r| && r[i].hi + 1 == pn {
      assert r[i..][0] == r[i] && r[i..][1..] == r[i + 1..];
      AscendPairs(r, i, i);
      if i + 1 < |r| && r[i + 1].lo == pn + 1 {
        assert r[i..][1] == r[i + 1] && r[i..][2..] == r[i + 2..];
        s := r[..i] + [PnRange(r[i].lo, r[i + 1].hi)] + r[i + 2..];
      } else {
        s := r[..i] + [PnRange(r[i].lo, pn)] + r[i + 1..];
      }
    } else if i < |r| && r[i].lo == pn + 1 {
      assert r[i..][0] == r[i] && r[i..][1..] == r[i + 1..];
      s := r[..i] + [PnRange(pn, r[i].hi)] + r[i + 1..];
    } else {
      s := r[..i] + [PnRange(pn, pn)] + r[i..];
    }
  }

  /** The members after an accepted number: the old ones and pn, less the oldest range if
      there were too many. */
  lemma AddedMembers(r: seq<PnRange>, pn: nat, x: nat)
    requires Ascend(r) && |r| <= MAX_RANGES && !Member(r, pn) && !(|r| == MAX_RANGES && pn < r[0].lo)
    ensures var full := |Insert(r, pn)| > MAX_RANGES;
            var s := if full then Insert(r, pn)[1..] else Insert(r, pn);
            && (full ==> |r| == MAX_RANGES && Insert(r, pn)[0] == r[0])
            && (Member(s, x) <==> (Member(r, x) || x == pn) && !(full && r[0].lo <= x <= r[0].hi))
  {
    InsertAscends(r, pn);
    InsertMembers(r, pn, x);
    var s := Insert(r, pn);
    if |s| > MAX_RANGES {
      assert r[0].hi + 1 < pn;
      assert s[0] == r[0] && Ascend(s[1..]);
      if Member(s[1..], x) {
        MemberAbove(s[1..], x);
      }
    }
  }

  // ACK frames.

  /** Some way to write an integer. */
  type Sink = nat -> seq<byte>

  /** put writes as AppendVarint does. */
  ghost predicate Writes(put: Sink) {
    forall v: nat {:trigger Encode(v)} :: put(v) == Encode(v)
  }

  /** The ranges of an ACK frame after the first, from the highest down, and then rest. */
  function EncodeRanges(put: Sink, r: seq<PnRange>, prev: nat, rest: seq<byte>): seq<byte>
    requires Ascend(r) && (r != [] ==> r[|r| - 1].hi + 1 < prev)
  {
    if r == [] then rest
    else
      var last, below := r[|r| - 1], r[..|r| - 1];
      AscendLast(r);
      put(prev - last.hi - 2) + (put(last.hi - last.lo) + EncodeRanges(put, below, last.lo, rest))
  }

  lemma {:induction false} AscendLast(r: seq<PnRange>)
    requires Ascend(r) && r != []
    ensures Ascend(r[..|r| - 1]) && r[|r| - 1].lo <= r[|r| - 1].hi
    ensures |r| > 1 ==> r[|r| - 2].hi + 1 < r[|r| - 1].lo
  {
    if |r| > 1 {
      AscendLast(r[1..]);
      assert r[..|r| - 1][1..] == r[1..][..|r| - 2];
    }
  }

  function EncodeHead(put: Sink, largest: nat, delay: nat, count: nat, first: nat, rest: seq<byte>): seq<byte> {
    put(largest) + (put(delay) + (put(count) + (put(first) + rest)))
  }

  const FRAME_ACK: byte := 0x02

  /** What appendAck writes after the frame type, and then rest. */
  function EncodeWith(put: Sink, r: seq<PnRange>, delay: nat, rest: seq<byte>): seq<byte>
    requires Ascend(r) && r != []
  {
    var last := r[|r| - 1];
    AscendLast(r);
    EncodeHead(put, last.hi, delay, |r| - 1, last.hi - last.lo, EncodeRanges(put, r[..|r| - 1], last.lo, rest))
  }

  function EncodeAck(r: seq<PnRange>, delay: nat, rest: seq<byte>): seq<byte>
    requires Ascend(r) && r != []
  {
    EncodeWith(Encode, r, delay, rest)
  }

  /** appendAck. The subtractions never underflow because the ranges are not adjacent. */
  method AppendAck(ghost put: Sink, b: seq<byte>, r: seq<PnRange>, delay: nat) returns (out: seq<byte>)
    requires Writes(put)
    requires Ascend(r) && r != [] && r[|r| - 1].hi <= MAX_VARINT && delay <= MAX_VARINT && |r| <= MAX_RANGES
    ensures out == b + [FRAME_ACK] + EncodeWith(put, r, delay, [])
  {
    var largest := r[|r| - 1];
    AscendLast(r);
    var head := b + [FRAME_ACK];
    out := AppendVarint(head, largest.hi);
    out := AppendVarint(out, delay);
    out := AppendVarint(out, |r| - 1);
    out := AppendVarint(out, largest.hi - largest.lo);
    ghost var tail := EncodeRanges(put, r[..|r| - 1], largest.lo, []);
    Regroup(head, put(largest.hi), put(delay), put(|r| - 1) + (put(largest.hi - largest.lo) + tail));
    Regroup(head + put(largest.hi) + put(delay), put(|r| - 1), put(largest.hi - largest.lo), tail);
    out := AppendRanges(put, out, r[..|r| - 1], largest.lo);
  }

  /** The loop of appendAck. */
  method AppendRanges(ghost put: Sink, b: seq<byte>, r: seq<PnRange>, below: nat) returns (out: seq<byte>)
    requires Writes(put)
    requires Ascend(r) && (r != [] ==> r[|r| - 1].hi + 1 < below) && below <= MAX_VARINT
    ensures out == b + EncodeRanges(put, r, below, [])
  {
    out := b;
    var prev, i := below, |r|;
    assert r[..i] == r;
    while i > 0
      invariant 0 <= i <= |r| && Ascend(r[..i]) && 0 <= prev <= MAX_VARINT
      invariant i > 0 ==> r[i - 1].hi + 1 < prev
      invariant out + EncodeRanges(put, r[..i], prev, []) == b + EncodeRanges(put, r, below, [])
    {
      i := i - 1;
      AppendOne(put, out, r[..i + 1], r[..i], prev);
      out := AppendVarint(out, prev - r[i].hi - 2);
      out := AppendVarint(out, r[i].hi - r[i].lo);
      prev := r[i].lo;
    }
    assert out + EncodeRanges(put, r[..0], prev, []) == out;
  }

  /** Writing the gap and the length of the highest range leaves the ranges below it. */
  lemma AppendOne(put: Sink, out: seq<byte>, r: seq<PnRange>, below: seq<PnRange>, prev: nat)
    requires Ascend(r) && r != [] && r[|r| - 1].hi + 1 < prev && below == r[..|r| - 1]
    ensures var last := r[|r| - 1];
            && Ascend(below) && last.lo <= last.hi && (below != [] ==> below[|below| - 1].hi + 1 < last.lo)
            && out + put(prev - last.hi - 2) + put(last.hi - last.lo) + EncodeRanges(put, below, last.lo, [])
                 == out + EncodeRanges(put, r, prev, [])
  {
    var last := r[|r| - 1];
    AscendLast(r);
    Regroup(out, put(prev - last.hi - 2), put(last.hi - last.lo), EncodeRanges(put, below, last.lo, []));
  }

  lemma Regroup(a: seq<byte>, b: seq<byte>, c: seq<byte>, d: seq<byte>)
    ensures a + b + c + d == a + (b + (c + d))
  {
  }

  /** Some way to take the next integer off a sequence of bytes. */
  type Source = seq<byte> -> Taken

  datatype Ranges = Bad | Ranges(r: seq<PnRange>, rest: seq<byte>)

  /** The loop of handleAckFrame: count more ranges below smallest, highest first. */
  function ParseRanges(take: Source, b: seq<byte>, count: nat, smallest: nat): Ranges
    decreases count
  {
    if count == 0 then Ranges([], b) else
    var gap := take(b);
    if gap.NoMore? then Bad else
    var len := take(gap.rest);
    if len.NoMore? || smallest < gap.value + 2 || smallest - gap.value - 2 < len.value then Bad
    else
      var hi := smallest - gap.value - 2;
      After([PnRange(hi - len.value, hi)], ParseRanges(take, len.rest, count - 1, hi - len.value))
  }

  function After(done: seq<PnRange>, more: Ranges): Ranges {
    if more.Bad? then Bad else Ranges(done + more.r, more.rest)
  }

  datatype Head = BadHead | Head(largest: nat, delay: nat, count: nat, first: nat, rest: seq<byte>)

  function ParseHead(take: Source, b: seq<byte>): (h: Head)
    ensures h.Head? ==> h.first <= h.largest
  {
    var largest := take(b);
    if largest.NoMore? then BadHead else
    var delay := take(largest.rest);
    if delay.NoMore? then BadHead else
    var count := take(delay.rest);
    if count.NoMore? then BadHead else
    var first := take(count.rest);
    if first.NoMore? || first.value > largest.value || count.value > 0x1_0000 then BadHead
    else Head(largest.value, delay.value, count.value, first.value, first.rest)
  }

  datatype Ack = BadAck | Ack(r: seq<PnRange>, delay: nat, rest: seq<byte>)

  function ParseWith(take: Source, b: seq<byte>): Ack {
    var h := ParseHead(take, b);
    if h.BadHead? then BadAck else
    var more := After([PnRange(h.largest - h.first, h.largest)],
                      ParseRanges(take, h.rest, h.count, h.largest - h.first));
    if more.Bad? then BadAck else Ack(more.r, h.delay, more.rest)
  }

  /** An ACK frame after its type, highest range first. */
  function ParseAck(b: seq<byte>): Ack { ParseWith(Take, b) }

  function Reverse(r: seq<PnRange>): seq<PnRange> {
    if r == [] then [] else [r[|r| - 1]] + Reverse(r[..|r| - 1])
  }

  lemma TakeEncode(v: nat, rest: seq<byte>)
    requires v <= MAX_VARINT
    ensures Take(Encode(v) + rest) == Taken(v, rest)
  {
    DecodeEncode(v, rest);
    assert (Encode(v) + rest)[|Encode(v)|..] == rest;
  }

  /** One more range is read from its gap and its length. */
  lemma ParseOne(take: Source, b: seq<byte>, b1: seq<byte>, b2: seq<byte>, count: nat, smallest: nat, gap: nat,
                 len: nat)
    requires take(b) == Taken(gap, b1) && take(b1) == Taken(len, b2) && gap + 2 + len <= smallest
    ensures var hi := smallest - gap - 2;
            ParseRanges(take, b, count + 1, smallest)
              == After([PnRange(hi - len, hi)], ParseRanges(take, b2, count, hi - len))
  {
  }

  /** take undoes put on every integer that a varint can hold. */
  ghost predicate Inverse(put: Sink, take: Source) {
    forall v: nat, rest {:trigger Undone(put, take, v, rest)} :: v <= MAX_VARINT ==> Undone(put, take, v, rest)
  }

  ghost predicate Undone(put: Sink, take: Source, v: nat, rest: seq<byte>) {
    take(put(v) + rest) == Taken(v, rest)
  }

  lemma VarintInverse()
    ensures Inverse(Encode, Take)
  {
    forall v: nat, rest | v <= MAX_VARINT ensures Undone(Encode, Take, v, rest) {
      TakeEncode(v, rest);
    }
  }

  lemma {:induction false} RangesRoundTrip(put: Sink, take: Source, r: seq<PnRange>, prev: nat, rest: seq<byte>)
    requires Inverse(put, take)
    requires Ascend(r) && (r != [] ==> r[|r| - 1].hi + 1 < prev) && prev <= MAX_VARINT
    ensures ParseRanges(take, EncodeRanges(put, r, prev, rest), |r|, prev) == Ranges(Reverse(r), rest)
  {
    if r != [] {
      var last, below := r[|r| - 1], r[..|r| - 1];
      AscendLast(r);
      RangesRoundTrip(put, take, below, last.lo, rest);
      var gap, len, b2 := prev - last.hi - 2, last.hi - last.lo, EncodeRanges(put, below, last.lo, rest);
      var b1 := put(len) + b2;
      assert Undone(put, take, gap, b1) && Undone(put, take, len, b2);
      ParseOne(take, put(gap) + b1, b1, b2, |below|, prev, gap, len);
    }
  }

  lemma HeadRoundTrip(put: Sink, take: Source, largest: nat, delay: nat, count: nat, first: nat, rest: seq<byte>)
    requires Inverse(put, take) && first <= largest <= MAX_VARINT && delay <= MAX_VARINT && count <= MAX_RANGES
    ensures ParseHead(take, EncodeHead(put, largest, delay, count, first, rest))
         == Head(largest, delay, count, first, rest)
  {
    var b3 := put(first) + rest;
    var b2 := put(count) + b3;
    var b1 := put(delay) + b2;
    assert Undone(put, take, largest, b1) && Undone(put, take, delay, b2);
    assert Undone(put, take, count, b3) && Undone(put, take, first, rest);
  }

  lemma ParseFromHead(take: Source, b: seq<byte>, last: PnRange, below: seq<PnRange>, all: seq<PnRange>, delay: nat,
                      count: nat, b4: seq<byte>, rest: seq<byte>)
    requires last.lo <= last.hi && all == [last] + below
    requires ParseHead(take, b) == Head(last.hi, delay, count, last.hi - last.lo, b4)
    requires ParseRanges(take, b4, count, last.lo) == Ranges(below, rest)
    ensures ParseWith(take, b) == Ack(all, delay, rest)
  {
  }

  lemma FrameRoundTrip(put: Sink, take: Source, r: seq<PnRange>, delay: nat, rest: seq<byte>)
    requires Inverse(put, take)
    requires Ascend(r) && r != [] && |r| <= MAX_RANGES && r[|r| - 1].hi <= MAX_VARINT && delay <= MAX_VARINT
    ensures ParseWith(take, EncodeWith(put, r, delay, rest)) == Ack(Reverse(r), delay, rest)
  {
    var last, below := r[|r| - 1], r[..|r| - 1];
    AscendLast(r);
    RangesRoundTrip(put, take, below, last.lo, rest);
    var b4 := EncodeRanges(put, below, last.lo, rest);
    HeadRoundTrip(put, take, last.hi, delay, |r| - 1, last.hi - last.lo, b4);
    ParseFromHead(take, EncodeWith(put, r, delay, rest), last, Reverse(below), Reverse(r), delay, |r| - 1, b4, rest);
  }

  /** handleAckFrame recovers from appendAck exactly the same ranges, highest first. */
  lemma AckRoundTrip(r: seq<PnRange>, delay: nat, rest: seq<byte>)
    requires Ascend(r) && r != [] && |r| <= MAX_RANGES && r[|r| - 1].hi <= MAX_VARINT && delay <= MAX_VARINT
    ensures ParseAck(EncodeAck(r, delay, rest)) == Ack(Reverse(r), delay, rest)
  {
    VarintInverse();
    FrameRoundTrip(Encode, Take, r, delay, rest);
  }

  /** Whatever the bytes, ranges that are accepted descend with a gap between them, as
      onAckReceived needs them. */
  lemma {:induction false} ParsedRangesOk(take: Source, b: seq<byte>, count: nat, smallest: nat)
    ensures var p := ParseRanges(take, b, count, smallest);
            p.Ranges? ==> |p.r| == count && Descend(p.r) && (p.r != [] ==> p.r[0].hi + 1 < smallest)
    decreases count
  {
    if count > 0 && ParseRanges(take, b, count, smallest).Ranges? {
      var gap := take(b);
      var len := take(gap.rest);
      var hi := smallest - gap.value - 2;
      ParsedRangesOk(take, len.rest, count - 1, hi - len.value);
      var more := ParseRanges(take, len.rest, count - 1, hi - len.value);
      assert ([PnRange(hi - len.value, hi)] + more.r)[1..] == more.r;
    }
  }

  ghost predicate Descend(r: seq<PnRange>) {
    r == [] || (r[0].lo <= r[0].hi && (|r| > 1 ==> r[1].hi + 1 < r[0].lo) && Descend(r[1..]))
  }

  lemma {:induction false} DescendPairs(r: seq<PnRange>, i: nat, j: nat)
    requires Descend(r) && i <= j < |r|
    ensures r[i].lo <= r[i].hi && r[j].lo <= r[j].hi
    ensures i < j ==> r[j].hi + 1 < r[i].lo
  {
    if i > 0 {
      DescendPairs(r[1..], i - 1, j - 1);
    } else if j > 0 {
      DescendPairs(r[1..], 0, j - 1);
    }
  }

  lemma ParsedAckDescends(take: Source, b: seq<byte>)
    requires ParseWith(take, b).Ack?
    ensures ParseWith(take, b).r != [] && Descend(ParseWith(take, b).r)
  {
    var h := ParseHead(take, b);
    ParsedRangesOk(take, h.rest, h.count, h.largest - h.first);
    assert ParseWith(take, b).r[1..] == ParseRanges(take, h.rest, h.count, h.largest - h.first).r;
  }

  /** What NextRange reads is what ParseRanges would read next. */
  lemma NextIsParsed(take: Source, done: seq<PnRange>, b: seq<byte>, count: nat, smallest: nat, gap: Taken, len: Taken)
    requires count > 0 && gap == take(b) && len == (if gap.NoMore? then gap else take(gap.rest))
    ensures After(done, ParseRanges(take, b, count, smallest)) ==
            if gap.NoMore? || len.NoMore? || gap.value + 2 + len.value > smallest then Bad
            else
              var hi := smallest - gap.value - 2;
              After(done + [PnRange(hi - len.value, hi)], ParseRanges(take, len.rest, count - 1, hi - len.value))
  {
    if !(gap.NoMore? || len.NoMore? || gap.value + 2 + len.value > smallest) {
      var hi := smallest - gap.value - 2;
      var more := ParseRanges(take, len.rest, count - 1, hi - len.value);
      if more.Ranges? {
        assert done + ([PnRange(hi - len.value, hi)] + more.r) == done + [PnRange(hi - len.value, hi)] + more.r;
      }
    }
  }

  /** take reads as the reader does. */
  ghost predicate Reads(take: Source) {
    forall b {:trigger Take(b)} :: take(b) == Take(b)
  }

  /** The two integers of one more range. */
  method NextRange(r: Reader, ghost take: Source, smallest: nat, ghost done: seq<PnRange>, ghost count: nat)
    returns (ok: bool, next: PnRange)
    requires !r.bad && count > 0 && Reads(take)
    modifies r
    ensures After(done, ParseRanges(take, old(r.b), count, smallest))
         == if ok then After(done + [next], ParseRanges(take, r.b, count - 1, next.lo)) else Bad
    ensures ok ==> !r.bad
  {
    ghost var first := take(r.b);
    NextIsParsed(take, done, r.b, count, smallest, first, if first.NoMore? then first else take(first.rest));
    var gap := r.Varint();
    var len := r.Varint();
    ok := !(r.bad || smallest < gap + 2 || smallest - gap - 2 < len);
    next := PnRange(0, 0);
    if ok {
      var hi := smallest - gap - 2;
      next := PnRange(hi - len, hi);
    }
  }

  /** The loop of handleAckFrame. */
  method NextRanges(r: Reader, ghost take: Source, count: nat, first: PnRange) returns (ok: bool, ranges: seq<PnRange>)
    requires !r.bad && Reads(take)
    modifies r
    ensures var p := After([first], ParseRanges(take, old(r.b), count, first.lo));
            && ok == p.Ranges?
            && (ok ==> ranges == p.r && r.b == p.rest && !r.bad)
  {
    ranges := [first];
    var smallest := first.lo;
    ghost var whole := After([first], ParseRanges(take, r.b, count, first.lo));
    var i := 0;
    while i < count
      invariant 0 <= i <= count && !r.bad
      invariant whole == After(ranges, ParseRanges(take, r.b, count - i, smallest))
    {
      var next;
      ok, next := NextRange(r, take, smallest, ranges, count - i);
      if !ok {
        return;
      }
      smallest := next.lo;
      ranges := ranges + [next];
      i := i + 1;
    }
    ok := true;
  }

  /** The three counts at the end of an ACK frame with ECN, which are read and dropped. */
  function SkipCounts(take: Source, a: Ack, n: nat): Ack
    decreases n
  {
    if a.BadAck? || n == 0 then a else
    var t := take(a.rest);
    if t.NoMore? then BadAck else SkipCounts(take, a.(rest := t.rest), n - 1)
  }

  function ParseFrame(take: Source, b: seq<byte>, ecn: bool): Ack {
    SkipCounts(take, ParseWith(take, b), if ecn then 3 else 0)
  }

  lemma {:induction false} SkipKeeps(take: Source, a: Ack, n: nat)
    ensures var s := SkipCounts(take, a, n); s.Ack? ==> a.Ack? && s.r == a.r && s.delay == a.delay
    decreases n
  {
    if a.Ack? && n > 0 && take(a.rest).Taken? {
      SkipKeeps(take, a.(rest := take(a.rest).rest), n - 1);
    }
  }

  /** The bridge to loss recovery: the ranges of an accepted ACK frame, whatever its bytes,
      are what onAckReceived relies on. */
  lemma AcceptedRangesOk(take: Source, b: seq<byte>, ecn: bool)
    requires ParseFrame(take, b, ecn).Ack?
    ensures QuicSender.RangesOk(ParseFrame(take, b, ecn).r)
  {
    SkipKeeps(take, ParseWith(take, b), if ecn then 3 else 0);
    ParsedAckDescends(take, b);
    var r := ParseFrame(take, b, ecn).r;
    forall i, j | 0 <= i <= j < |r| ensures r[i].lo <= r[i].hi && (i < j ==> r[j].hi + 1 < r[i].lo) {
      DescendPairs(r, i, j);
    }
  }

  method NextHead(r: Reader, ghost take: Source) returns (ok: bool, largest: nat, delay: nat, count: nat, first: nat)
    requires !r.bad && Reads(take)
    modifies r
    ensures var h := ParseHead(take, old(r.b));
            if ok then h == Head(largest, delay, count, first, r.b) && first <= largest && !r.bad else h.BadHead?
  {
    largest := r.Varint();
    delay := r.Varint();
    count := r.Varint();
    first := r.Varint();
    ok := !(r.bad || first > largest || count > 0x1_0000);
  }

  method NextCounts(r: Reader, ghost take: Source, ghost a: Ack) returns (ok: bool)
    requires !r.bad && Reads(take) && a.Ack? && a.rest == r.b
    modifies r
    ensures SkipCounts(take, a, 3) == if ok then a.(rest := r.b) else BadAck
    ensures ok == !r.bad
  {
    var _ := r.Varint();
    var _ := r.Varint();
    var _ := r.Varint();
    ok := !r.bad;
  }

  /** handleAckFrame up to onAckReceived: it fails exactly when the frame is malformed. */
  method HandleAckFrame(r: Reader, ghost take: Source, ecn: bool) returns (ok: bool, ranges: seq<PnRange>, delay: nat)
    requires !r.bad && Reads(take)
    modifies r
    ensures var a := ParseFrame(take, old(r.b), ecn);
            if ok then a == Ack(ranges, delay, r.b) && !r.bad else a.BadAck?
    ensures ok ==> QuicSender.RangesOk(ranges)
  {
    ghost var b := r.b;
    var largest, count, first;
    ok, largest, delay, count, first := NextHead(r, take);
    ranges := [];
    if !ok {
      return;
    }
    ok, ranges := NextRanges(r, take, count, PnRange(largest - first, largest));
    if ok && ecn {
      ok := NextCounts(r, take, Ack(ranges, delay, r.b));
    }
    if ok {
      AcceptedRangesOk(take, b, ecn);
    }
  }
}
