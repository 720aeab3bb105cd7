/** Integers with an n-bit prefix (section 5.1 of RFC 7541). */
module HpackInt {
  import opened Bytes
  import opened Bits

  datatype IntRead = IntTruncated | IntOverflow | IntRead(value: nat, rest: seq<byte>)

  function Mask(n: nat): nat { Pow2(n) - 1 }

  /** Seven bits at a time, lowest first, with 0x80 on all bytes but the last. */
  function Groups(v: nat): seq<byte> {
    if v < 0x80 then [v] else [v % 0x80 + 0x80] + Groups(v / 0x80)
  }

  /** What appendInt appends. */
  function EncodeInt(first: nat, n: nat, value: nat): seq<byte>
    requires n <= 8 && first + Pow2(n) <= 256
  {
    if value < Mask(n) then [first + value] else [first + Mask(n)] + Groups(value - Mask(n))
  }

  /** The loop of readInt. */
  function ReadGroups(b: seq<byte>, value: nat, shift: nat): IntRead
    decreases |b|
  {
    if b == [] then IntTruncated else
    var v := value + b[0] % 0x80 * Pow2(shift);
    if b[0] < 0x80 then IntRead(v, b[1..])
    else if shift + 7 >= 56 then IntOverflow
    else ReadGroups(b[1..], v, shift + 7)
  }

  function ReadInt(b: seq<byte>, n: nat): IntRead
    requires n <= 8
  {
    if b == [] then IntTruncated else
    var value := b[0] % Pow2(n);
    if value < Mask(n) then IntRead(value, b[1..]) else ReadGroups(b[1..], value, 0)
  }

  /** How many integers the groups left before the limit can hold. */
  function Limit(shift: nat): nat
    requires shift <= 56
  {
    Pow2(56 - shift)
  }

  lemma LastGroup(v: nat, value: nat, shift: nat, rest: seq<byte>)
    requires v < 0x80
    ensures ReadGroups(Groups(v) + rest, value, shift) == IntRead(value + v * Pow2(shift), rest)
  {
    var b := Groups(v) + rest;
    assert b[0] == v && b[1..] == rest;
  }

  lemma MoreGroups(v: nat, value: nat, shift: nat, rest: seq<byte>)
    requires v >= 0x80
    ensures ReadGroups(Groups(v) + rest, value, shift)
         == if shift + 7 >= 56 then IntOverflow
         else ReadGroups(Groups(v / 0x80) + rest, value + v % 0x80 * Pow2(shift), shift + 7)
  {
    var b := Groups(v) + rest;
    assert b[0] == v % 0x80 + 0x80 && b[1..] == Groups(v / 0x80) + rest;
    assert b[0] % 0x80 == v % 0x80;
  }

  lemma {:induction false} ReadOfGroups(v: nat, value: nat, shift: nat, rest: seq<byte>)
    requires shift <= 49 && shift % 7 == 0
    ensures ReadGroups(Groups(v) + rest, value, shift)
         == if v < Limit(shift) then IntRead(value + v * Pow2(shift), rest) else IntOverflow
    decreases v
  {
    LimitStep(shift);
    if v < 0x80 {
      LastGroup(v, value, shift, rest);
    } else {
      MoreGroups(v, value, shift, rest);
      if shift + 7 < 56 {
        NextShift(shift);
        ReadOfGroups(v / 0x80, value + v % 0x80 * Pow2(shift), shift + 7, rest);
        Regroup(v, value, shift);
        LimitSplits(v, shift);
      } else {
        LimitAtEnd(shift);
      }
    }
  }

  lemma NextShift(shift: nat)
    requires shift % 7 == 0 && shift + 7 < 56
    ensures shift + 7 <= 49 && (shift + 7) % 7 == 0
  {
  }

  lemma Regroup(v: nat, value: nat, shift: nat)
    ensures value + v % 0x80 * Pow2(shift) + v / 0x80 * Pow2(shift + 7) == value + v * Pow2(shift)
  {
    PowAdd(shift, 7);
    assert Pow2(7) == 0x80;
    Recombine(v, value, Pow2(shift));
  }

  lemma LimitAtEnd(shift: nat)
    requires shift == 49
    ensures Limit(shift) == 0x80
  {
    assert Pow2(7) == 0x80;
  }

  lemma LimitStep(shift: nat)
    requires shift <= 49
    ensures Limit(shift) >= 0x80 && Limit(shift) == 0x80 * Limit(shift + 7)
  {
    PowAdd(56 - shift - 7, 7);
    assert Pow2(7) == 0x80;
  }

  lemma LimitSplits(v: nat, shift: nat)
    requires shift <= 49
    ensures v < Limit(shift) <==> v / 0x80 < Limit(shift + 7)
  {
    LimitStep(shift);
  }

  lemma Recombine(v: nat, value: nat, p: nat)
    ensures value + v % 0x80 * p + v / 0x80 * (p * 0x80) == value + v * p
  {
    var q, r := v / 0x80, v % 0x80;
    assert v == 0x80 * q + r;
    assert v * p == 0x80 * q * p + r * p;
    assert q * (p * 0x80) == 0x80 * q * p;
  }

  /** The smallest integer that readInt refuses after a prefix of n bits. */
  function Refused(n: nat): nat { Mask(n) + Limit(0) }

  /** readInt recovers what appendInt wrote, up to the limit where it refuses to go on. */
  lemma IntRoundTrip(first: nat, n: nat, value: nat, rest: seq<byte>)
    requires 1 <= n <= 8 && first + Pow2(n) <= 256 && first % Pow2(n) == 0
    ensures ReadInt(EncodeInt(first, n, value) + rest, n)
         == if value < Refused(n) then IntRead(value, rest) else IntOverflow
  {
    if value < Mask(n) {
      ShortRoundTrip(first, n, value, rest);
    } else {
      LongRoundTrip(first, n, value, rest);
    }
  }

  lemma ShortRoundTrip(first: nat, n: nat, value: nat, rest: seq<byte>)
    requires 1 <= n <= 8 && first + Pow2(n) <= 256 && first % Pow2(n) == 0 && value < Mask(n)
    ensures ReadInt(EncodeInt(first, n, value) + rest, n) == IntRead(value, rest)
  {
    FirstByte(first, value, Pow2(n));
    Headed(first + value, [], rest);
    assert [first + value] + [] == [first + value] && [] + rest == rest;
  }

  lemma LongRoundTrip(first: nat, n: nat, value: nat, rest: seq<byte>)
    requires 1 <= n <= 8 && first + Pow2(n) <= 256 && first % Pow2(n) == 0 && value >= Mask(n)
    ensures ReadInt(EncodeInt(first, n, value) + rest, n)
         == if value - Mask(n) < Limit(0) then IntRead(value, rest) else IntOverflow
  {
    var m, v := Mask(n), value - Mask(n);
    FirstByte(first, m, Pow2(n));
    var b := EncodeInt(first, n, value) + rest;
    assert b != [] && b[0] == first + m && b[1..] == Groups(v) + rest by {
      Headed(first + m, Groups(v), rest);
    }
    assert ReadInt(b, n) == ReadGroups(b[1..], m, 0);
    ReadOfGroups(v, m, 0, rest);
  }

  lemma Headed(x: byte, a: seq<byte>, b: seq<byte>)
    ensures var s := [x] + a + b; s != [] && s[0] == x && s[1..] == a + b
  {
  }

  lemma FirstByte(first: nat, v: nat, p: nat)
    requires p > 0 && first % p == 0 && v < p
    ensures (first + v) % p == v
  {
    var q := first / p;
    assert first == p * q;
    ModIs(first + v, p, q, v);
  }

  /** appendInt: first fills the bits above the prefix. */
  method AppendInt(dst: seq<byte>, first: nat, n: nat, value: nat) returns (out: seq<byte>)
    requires 1 <= n <= 8 && first + Pow2(n) <= 256
    ensures out == dst + EncodeInt(first, n, value)
  {
    var mask := Pow2(n) - 1;
    if value < mask {
      return dst + [first + value];
    }
    out := dst + [first + mask];
    var v := value - mask;
    ghost var all := out + Groups(v);
    assert all == dst + ([first + mask] + Groups(v));
    while v >= 0x80
      invariant v >= 0 && out + Groups(v) == all
    {
      NextGroup(out, v);
      out := out + [v % 0x80 + 0x80];
      v := v / 0x80;
    }
    out := out + [v];
  }

  lemma NextGroup(out: seq<byte>, v: nat)
    requires v >= 0x80
    ensures out + Groups(v) == out + [v % 0x80 + 0x80] + Groups(v / 0x80)
  {
  }

  /** readInt. */
  method ReadPrefixed(block: seq<byte>, n: nat) returns (r: IntRead)
    requires 1 <= n <= 8
    ensures r == ReadInt(block, n)
  {
    if block == [] {
      return IntTruncated;
    }
    var mask := Pow2(n) - 1;
    var value := block[0] % Pow2(n);
    if value < mask {
      return IntRead(value, block[1..]);
    }
    var b, shift, i := block[1..], 0, 0;
    while i < |b|
      invariant 0 <= i <= |b| && value >= 0 && 0 <= shift < 56
      invariant ReadInt(block, n) == ReadGroups(b[i..], value, shift)
    {
      Rest(b, i);
      value := value + b[i] % 0x80 * Pow2(shift);
      if b[i] < 0x80 {
        return IntRead(value, b[i + 1..]);
      }
      shift := shift + 7;
      if shift >= 56 {
        return IntOverflow;
      }
      i := i + 1;
    }
    r := IntTruncated;
  }

  lemma Rest(b: seq<byte>, i: nat)
    requires i < |b|
    ensures b[i..] != [] && b[i..][0] == b[i] && b[i..][1..] == b[i + 1..]
  {
  }
}
