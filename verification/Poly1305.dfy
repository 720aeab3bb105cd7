/** The one-time authenticator of section 2.5 of RFC 8439, with its accumulator in 64-bit limbs. */
module Poly1305 {
  import opened Bytes
  import opened Arithmetic
  import opened LittleEndian
  import opened Words

  const W := 0x1_0000_0000_0000_0000

  /** 2^130 - 5. */
  const P := 4 * W * W - 5

  type word = x: nat | x < W

  // bits.Add64, bits.Sub64 and bits.Mul64.

  datatype Carried = Carried(value: word, carry: nat)

  function Add64(x: word, y: word, c: nat): (s: Carried)
    requires c <= 1
    ensures s.value + W * s.carry == x + y + c && s.carry <= 1
  {
    if x + y + c < W then Carried(x + y + c, 0) else Carried(x + y + c - W, 1)
  }

  function Sub64(x: word, y: word, b: nat): (d: Carried)
    requires b <= 1
    ensures d.value - W * d.carry == x - y - b && d.carry <= 1
  {
    if x >= y + b then Carried(x - y - b, 0) else Carried(x - y - b + W, 1)
  }

  datatype Wide = Wide(hi: word, lo: word)

  lemma ProductFits(x: nat, y: nat, m: nat, n: nat)
    requires x < m && y < n
    ensures x * y < m * n && 0 <= x * y
  {
    assert x * y <= x * n;
    assert (x + 1) * n <= m * n;
  }

  lemma QuotientFits(v: nat, q: nat, n: nat)
    requires v < W * n && q == v / W
    ensures q < n
  {
  }

  function Mul64(x: word, y: word): (m: Wide)
    ensures m.hi * W + m.lo == x * y
  {
    ProductFits(x, y, W, W);
    var v: nat := x * y;
    Wide(v / W, v % W)
  }

  /** A product with a clamped key limb leaves four bits of room. */
  lemma ClampedProduct(x: word, y: word)
    requires y < W / 16
    ensures Mul64(x, y).hi < W / 16
  {
    ProductFits(x, y, W, W / 16);
    QuotientFits(x * y, Mul64(x, y).hi, W / 16);
  }

  // The accumulator.

  datatype Limbs = Limbs(h0: word, h1: word, h2: word) {
    function Value(): nat { h0 + W * h1 + W * W * h2 }
  }

  /** h + m + hibit * 2^128. */
  function AddBlock(h: Limbs, m0: word, m1: word, hibit: nat): (s: Limbs)
    requires h.h2 <= 5 && hibit <= 1
    ensures s.Value() == h.Value() + m0 + W * m1 + W * W * hibit && s.h2 <= 7
  {
    var a := Add64(h.h0, m0, 0);
    var b := Add64(h.h1, m1, a.carry);
    Limbs(a.value, b.value, h.h2 + b.carry + hibit)
  }

  datatype Four = Four(t0: word, t1: word, t2: word, t3: word) {
    function Value(): nat { t0 + W * t1 + W * W * t2 + W * W * W * t3 }
  }

  lemma SmallProduct(x: nat, y: nat)
    requires x <= 7 && y < W / 16
    ensures 0 <= x * y < W / 2
  {
    assert x * y <= 7 * y;
  }

  /** The sums of the partial products; the carries that the code drops are zero. */
  function Sums(a: Wide, b: Wide, c: Wide, d: Wide, e: word, f: word): (t: Four)
    requires a.hi < W / 16 && b.hi < W / 16 && c.hi < W / 16 && d.hi < W / 16 && f < W / 2
    ensures t.Value() == (a.hi * W + a.lo) + W * (b.hi * W + b.lo + c.hi * W + c.lo)
                         + W * W * (d.hi * W + d.lo + e) + W * W * W * f
  {
    var m1lo := Add64(b.lo, c.lo, 0);
    var m1hi := Add64(b.hi, c.hi, m1lo.carry);
    var m2lo := Add64(e, d.lo, 0);
    var m2hi := Add64(0, d.hi, m2lo.carry);
    var t1 := Add64(m1lo.value, a.hi, 0);
    var t2 := Add64(m2lo.value, m1hi.value, t1.carry);
    var t3 := Add64(f, m2hi.value, t2.carry);
    assert m1hi.carry == 0 && m2hi.carry == 0 && t3.carry == 0;
    Four(a.lo, t1.value, t2.value, t3.value)
  }

  /** h * r. */
  function Multiply(h: Limbs, r0: word, r1: word): (t: Four)
    requires h.h2 <= 7 && r0 < W / 16 && r1 < W / 16
    ensures t.Value() == h.Value() * (r0 + W * r1)
  {
    ClampedProduct(h.h0, r0);
    ClampedProduct(h.h1, r0);
    ClampedProduct(h.h0, r1);
    ClampedProduct(h.h1, r1);
    SmallProduct(h.h2, r0);
    SmallProduct(h.h2, r1);
    Expand(h.h0, h.h1, h.h2, r0, r1);
    Sums(Mul64(h.h0, r0), Mul64(h.h1, r0), Mul64(h.h0, r1), Mul64(h.h1, r1), h.h2 * r0, h.h2 * r1)
  }

  lemma Expand(h0: nat, h1: nat, h2: nat, r0: nat, r1: nat)
    ensures h0 * r0 + W * (h1 * r0 + h0 * r1) + W * W * (h1 * r1 + h2 * r0) + W * W * W * (h2 * r1)
         == (h0 + W * h1 + W * W * h2) * (r0 + W * r1)
  {
  }

  /** What lies above bit 130. */
  function Above(t: Four): nat { t.t2 / 4 + t.t3 * (W / 4) }

  function Below(t: Four): nat { t.t0 + W * t.t1 + W * W * (t.t2 % 4) }

  lemma AboveAndBelow(t: Four)
    ensures t.Value() == 4 * W * W * Above(t) + Below(t)
  {
    assert 4 * Above(t) == t.t2 - t.t2 % 4 + W * t.t3;
  }

  /** What lies above comes back times five, as four times and once more. */
  function Reduce(t: Four): (h: Limbs)
    ensures h.Value() == Below(t) + 5 * Above(t) && h.h2 <= 5
  {
    var cc0, cc1 := t.t2 - t.t2 % 4, t.t3;
    var a := Add64(t.t0, cc0, 0);
    var b := Add64(t.t1, cc1, a.carry);
    var q0, q1 := cc0 / 4 + cc1 % 4 * (W / 4), cc1 / 4;
    var c := Add64(a.value, q0, 0);
    var d := Add64(b.value, q1, c.carry);
    assert q0 + W * q1 == Above(t);
    Limbs(c.value, d.value, t.t2 % 4 + b.carry + d.carry)
  }

  // Modulo P.

  lemma SameResidue(a: nat, b: nat, q: nat)
    requires a == b + P * q
    ensures a % P == b % P
  {
    var k, r := b / P, b % P;
    assert b == P * k + r;
    assert a == P * (k + q) + r;
    ResidueIs(a, k + q, r);
  }

  lemma ResidueIs(a: nat, k: nat, r: nat)
    requires a == P * k + r && r < P
    ensures a % P == r
  {
    var k1, r1 := a / P, a % P;
    assert a == P * k1 + r1;
    assert P * (k - k1) == r1 - r;
    assert k - k1 >= 1 ==> P * (k - k1) >= P;
    assert k - k1 <= -1 ==> P * (k - k1) <= -P;
  }

  lemma ReduceIsModular(t: Four)
    ensures Reduce(t).Value() % P == t.Value() % P
  {
    AboveAndBelow(t);
    SameResidue(t.Value(), Reduce(t).Value(), Above(t));
  }

  /** (x + m) * r only depends on x modulo P. */
  lemma StepIsModular(x: nat, y: nat, m: nat, r: nat)
    requires x % P == y % P
    ensures (x + m) * r % P == (y + m) * r % P
  {
    var i, j, z := x / P, y / P, x % P;
    assert x == P * i + z && y == P * j + z;
    assert (x + m) * r == (z + m) * r + P * (i * r);
    assert (y + m) * r == (z + m) * r + P * (j * r);
    SameResidue((x + m) * r, (z + m) * r, i * r);
    SameResidue((y + m) * r, (z + m) * r, j * r);
  }

  /** One block: the accumulator stays short and gets the next Horner value. */
  function Absorb(h: Limbs, m0: word, m1: word, hibit: nat, r0: word, r1: word): (n: Limbs)
    requires h.h2 <= 5 && hibit <= 1 && r0 < W / 16 && r1 < W / 16
    ensures n.h2 <= 5
    ensures n.Value() % P == (h.Value() + (m0 + W * m1 + W * W * hibit)) * (r0 + W * r1) % P
  {
    var t := Multiply(AddBlock(h, m0, m1, hibit), r0, r1);
    ReduceIsModular(t);
    Reduce(t)
  }

  // The polynomial.

  /** Horner's rule over the block numbers. */
  function Horner(ms: seq<nat>, r: nat): nat {
    if ms == [] then 0 else (Horner(ms[..|ms| - 1], r) + ms[|ms| - 1]) * r
  }

  /** The first block times the highest power of r, and so on down to the last times r. */
  function Polynomial(ms: seq<nat>, r: nat): nat {
    if ms == [] then 0 else ms[0] * Power(r, |ms|) + Polynomial(ms[1..], r)
  }

  lemma {:induction false} PolynomialSnoc(ms: seq<nat>, m: nat, r: nat)
    ensures Polynomial(ms + [m], r) == (Polynomial(ms, r) + m) * r
  {
    if ms == [] {
      assert ms + [m] == [m];
      assert Power(r, 1) == r * Power(r, 0);
    } else {
      assert (ms + [m])[1..] == ms[1..] + [m];
      PolynomialSnoc(ms[1..], m, r);
      Shift(ms[0], Power(r, |ms|), Polynomial(ms[1..], r), m, r);
    }
  }

  lemma Shift(a: nat, p: nat, rest: nat, m: nat, r: nat)
    ensures a * (r * p) + (rest + m) * r == (a * p + rest + m) * r
  {
  }

  lemma {:induction false} HornerIsPolynomial(ms: seq<nat>, r: nat)
    ensures Horner(ms, r) == Polynomial(ms, r)
  {
    if ms != [] {
      var init, m := ms[..|ms| - 1], ms[|ms| - 1];
      HornerIsPolynomial(init, r);
      PolynomialSnoc(init, m, r);
      assert init + [m] == ms;
    }
  }

  /** Absorbing one more block is one more step of Horner's rule. */
  lemma AbsorbIsHorner(h: Limbs, ms: seq<nat>, m0: word, m1: word, r0: word, r1: word)
    requires h.h2 <= 5 && r0 < W / 16 && r1 < W / 16
    requires h.Value() % P == Horner(ms, r0 + W * r1) % P
    ensures Absorb(h, m0, m1, 1, r0, r1).Value() % P == Horner(ms + [m0 + W * m1 + W * W], r0 + W * r1) % P
  {
    var m, r := m0 + W * m1 + W * W, r0 + W * r1;
    StepIsModular(h.Value(), Horner(ms, r), m, r);
    assert (ms + [m])[..|ms|] == ms;
  }

  // The tag.

  /** h is below 2P, so that what one subtraction leaves, if it does not borrow, is the residue. */
  lemma OneSubtraction(h: Limbs, t0: word, t1: word, t2: word, borrow: nat)
    requires h.h2 <= 5 && borrow <= 1 && t0 + W * t1 + W * W * t2 - W * W * W * borrow == h.Value() - P
    ensures h.Value() % P == if borrow == 0 then t0 + W * t1 + W * W * t2 else h.Value()
  {
    if borrow == 0 {
      ResidueIs(h.Value(), 1, h.Value() - P);
    } else {
      ResidueIs(h.Value(), 0, h.Value());
    }
  }

  lemma LowPart(v: nat, low: nat, top: nat, carry: nat)
    requires v == low + W * W * (top + carry) && low < W * W
    ensures v % (W * W) == low
  {
  }

  /** sum, before it is written out: one subtraction is enough, and s is added modulo 2^128. */
  function Tag(h: Limbs, s0: word, s1: word): (t: nat)
    requires h.h2 <= 5
    ensures t == (h.Value() % P + (s0 + W * s1)) % (W * W)
  {
    var t0 := Sub64(h.h0, W - 5, 0);
    var t1 := Sub64(h.h1, W - 1, t0.carry);
    var t2 := Sub64(h.h2, 3, t1.carry);
    OneSubtraction(h, t0.value, t1.value, t2.value, t2.carry);
    var l := if t2.carry == 0 then Limbs(t0.value, t1.value, t2.value) else h;
    var a := Add64(l.h0, s0, 0);
    var b := Add64(l.h1, s1, a.carry);
    LowPart(l.Value() + (s0 + W * s1), a.value + W * b.value, l.h2, b.carry);
    a.value + W * b.value
  }

  // Bytes.

  lemma EightBytes()
    ensures Power(256, 8) == W
  {
    assert Power(256, 4) == 0x1_0000_0000;
    assert Power(256, 8) == 256 * (256 * (256 * (256 * Power(256, 4))));
  }

  /** binary.LittleEndian.Uint64. */
  function Le64(b: seq<byte>): word
    requires |b| == 8
  {
    LeFits(b);
    EightBytes();
    Le(b)
  }

  lemma SixteenBytes(m: seq<byte>)
    requires |m| == 16
    ensures Le(m) == Le64(m[..8]) + W * Le64(m[8..])
  {
    EightBytes();
    assert m == m[..8] + m[8..];
    LeAppend(m[..8], m[8..]);
  }

  /** A full block as a number, with a one above it. */
  function Numbered(m: seq<byte>): nat { Le(m) + W * W }

  /** The block numbers of data when its last block is filled with zeros. */
  function Numbers(data: seq<byte>): seq<nat>
    decreases |data|
  {
    if data == [] then []
    else if |data| < 16 then [Numbered(Filled(data))]
    else [Numbered(data[..16])] + Numbers(data[16..])
  }

  function Filled(data: seq<byte>): (m: seq<byte>)
    requires |data| <= 16
    ensures |m| == 16
  {
    data + seq(16 - |data|, _ => 0)
  }

  lemma {:induction false} ZerosCountNothing(data: seq<byte>, n: nat)
    ensures Le(data + seq(n, _ => 0)) == Le(data)
  {
    var zeros: seq<byte> := seq(n, _ => 0);
    LeAppend(data, zeros);
    AllZero(zeros);
    assert Power(256, |data|) * 0 == 0;
  }

  lemma {:induction false} AllZero(b: seq<byte>)
    requires forall i :: 0 <= i < |b| ==> b[i] == 0
    ensures Le(b) == 0
  {
    if b != [] {
      AllZero(b[1..]);
    }
  }

  /** Bytes first to first + 15 of data, as far as they go. */
  function BlockFrom(data: seq<byte>, first: nat): seq<byte>
    requires first <= |data|
  {
    if first + 16 <= |data| then data[first..first + 16] else data[first..]
  }

  lemma BlockLater(data: seq<byte>, first: nat)
    requires 16 <= first <= |data|
    ensures BlockFrom(data, first) == BlockFrom(data[16..], first - 16)
  {
  }

  lemma FirstNumber(data: seq<byte>)
    requires data != []
    ensures Numbers(data) != [] && Numbers(data)[0] == Le(BlockFrom(data, 0)) + W * W
    ensures |data| > 16 ==> Numbers(data)[1..] == Numbers(data[16..])
    ensures |data| <= 16 ==> |Numbers(data)| == 1
  {
    if |data| < 16 {
      ZerosCountNothing(data, 16 - |data|);
      assert data[0..] == data;
    } else {
      assert data[0..16] == data[..16];
      assert |data| == 16 ==> data[16..] == [];
    }
  }

  /** The numbers of data: sixteen bytes at a time as they are, lowest first, each with 2^128 added. */
  lemma {:induction false} NumberAt(data: seq<byte>, k: nat, first: nat)
    requires first == 16 * k < |data|
    ensures k < |Numbers(data)| && Numbers(data)[k] == Le(BlockFrom(data, first)) + W * W
    decreases k
  {
    FirstNumber(data);
    if k > 0 {
      NumberAt(data[16..], k - 1, first - 16);
      BlockLater(data, first);
      assert Numbers(data)[k] == Numbers(data)[1..][k - 1];
    }
  }

  /** And no others. */
  lemma {:induction false} NumberCount(data: seq<byte>)
    ensures 16 * |Numbers(data)| < |data| + 16
    decreases |data|
  {
    if data != [] {
      FirstNumber(data);
      if |data| > 16 {
        NumberCount(data[16..]);
      }
    }
  }

  /** The key limb r as section 2.5 of RFC 8439 has it: the top four bits of four bytes and the low two bits
      of three are cleared. */
  function Clamp(k: seq<byte>): (c: seq<byte>)
    requires |k| == 16
    ensures |c| == 16
  {
    [k[0], k[1], k[2], k[3] % 16, k[4] - k[4] % 4, k[5], k[6], k[7] % 16,
     k[8] - k[8] % 4, k[9], k[10], k[11] % 16, k[12] - k[12] % 4, k[13], k[14], k[15] % 16]
  }

  lemma TopNibble(b: seq<byte>)
    requires |b| == 8 && b[7] < 16
    ensures Le64(b) < W / 16
  {
    assert b == b[..7] + b[7..];
    LeAppend(b[..7], b[7..]);
    LeFits(b[..7]);
    EightBytes();
    assert Power(256, 8) == 256 * Power(256, 7);
    assert b[7..][1..] == [];
    assert Le(b[7..]) == b[7];
    assert Power(256, 7) * b[7] <= Power(256, 7) * 15;
  }

  /** The masks of newPoly1305, byte by byte. */
  function LowMask(): (m: seq<byte>)
    ensures |m| == 8
  {
    [0xff, 0xff, 0xff, 0x0f, 0xfc, 0xff, 0xff, 0x0f]
  }

  function HighMask(): (m: seq<byte>)
    ensures |m| == 8
  {
    [0xfc, 0xff, 0xff, 0x0f, 0xfc, 0xff, 0xff, 0x0f]
  }

  function FromFour(a: nat, b: nat, c: nat, d: nat): nat { a + 0x100 * b + 0x1_0000 * c + 0x100_0000 * d }

  lemma FourAre(m: seq<byte>)
    requires |m| == 4
    ensures Le(m) == FromFour(m[0], m[1], m[2], m[3])
  {
    assert m[1..][1..] == m[2..] && m[2..][1..] == m[3..];
    assert Le(m[3..]) == m[3];
    assert Le(m[1..]) == m[1] + 256 * Le(m[2..]) && Le(m[2..]) == m[2] + 256 * Le(m[3..]);
  }

  lemma EightAre(m: seq<byte>)
    requires |m| == 8
    ensures Le(m) == FromFour(m[0], m[1], m[2], m[3]) + 0x1_0000_0000 * FromFour(m[4], m[5], m[6], m[7])
  {
    FourAre(m[..4]);
    FourAre(m[4..]);
    LeAppend(m[..4], m[4..]);
    assert m == m[..4] + m[4..];
    assert Power(256, 4) == 0x1_0000_0000;
  }

  lemma MaskWords()
    ensures Le(LowMask()) == 0x0ffffffc0fffffff && Le(HighMask()) == 0x0ffffffc0ffffffc
  {
    EightAre(LowMask());
    EightAre(HighMask());
  }

  /** What the bytes of the masks leave of a byte. */
  function Kept(a: byte, m: byte): byte { if m == 0xff then a else if m == 0x0f then a % 16 else a - a % 4 }

  lemma KeptIsAnd(a: seq<byte>, m: seq<byte>, i: nat)
    requires |a| == |m| && i < |m| && (m[i] == 0xff || m[i] == 0x0f || m[i] == 0xfc)
    ensures AndEach(a, m)[i] == Kept(a[i], m[i])
  {
    ByteMasks(a[i], 0xff, 0x0f, 0xfc);
  }

  lemma ClampedLow(k: seq<byte>, i: nat)
    requires |k| == 16 && i < 8
    ensures AndEach(k[..8], LowMask())[i] == Clamp(k)[i]
  {
    KeptIsAnd(k[..8], LowMask(), i);
  }

  lemma ClampedHigh(k: seq<byte>, i: nat)
    requires |k| == 16 && i < 8
    ensures AndEach(k[8..], HighMask())[i] == Clamp(k)[8 + i]
  {
    KeptIsAnd(k[8..], HighMask(), i);
  }

  lemma ClampedHalves(k: seq<byte>)
    requires |k| == 16
    ensures AndEach(k[..8], LowMask()) == Clamp(k)[..8] && AndEach(k[8..], HighMask()) == Clamp(k)[8..]
  {
    forall i | 0 <= i < 8
      ensures AndEach(k[..8], LowMask())[i] == Clamp(k)[i] && AndEach(k[8..], HighMask())[i] == Clamp(k)[8 + i]
    {
      ClampedLow(k, i);
      ClampedHigh(k, i);
    }
  }

  /** The two words of the key and the masks. */
  lemma ClampedWords(k: seq<byte>)
    requires |k| == 16
    ensures And(Le64(k[..8]), 0x0ffffffc0fffffff) == Le64(Clamp(k)[..8])
    ensures And(Le64(k[8..]), 0x0ffffffc0ffffffc) == Le64(Clamp(k)[8..])
  {
    MaskWords();
    ClampedHalves(k);
    AndIsBytes(k[..8], LowMask());
    AndIsBytes(k[8..], HighMask());
  }

  class Authenticator {
    const r0: word
    const r1: word
    const s0: word
    const s1: word
    var h0: word
    var h1: word
    var h2: word

    ghost function R(): nat { r0 + W * r1 }

    ghost function S(): nat { s0 + W * s1 }

    /** The accumulator stands for the block numbers ms. */
    ghost predicate Absorbed(ms: seq<nat>)
      reads this
    {
      r0 < W / 16 && r1 < W / 16 && h2 <= 5 && Limbs(h0, h1, h2).Value() % P == Horner(ms, R()) % P
    }

    /** newPoly1305. */
    constructor (key: seq<byte>)
      requires |key| == 32
      ensures Absorbed([]) && R() == Le(Clamp(key[..16])) && S() == Le(key[16..])
      ensures r0 == And(Le(key[..8]), 0x0ffffffc0fffffff) && r1 == And(Le(key[8..16]), 0x0ffffffc0ffffffc)
    {
      r0 := And(Le64(key[..8]), 0x0ffffffc0fffffff);
      r1 := And(Le64(key[8..16]), 0x0ffffffc0ffffffc);
      s0 := Le64(key[16..24]);
      s1 := Le64(key[24..]);
      h0, h1, h2 := 0, 0, 0;
      new;
      var clamped := Clamp(key[..16]);
      assert key[..16][..8] == key[..8] && key[..16][8..] == key[8..16];
      ClampedWords(key[..16]);
      TopNibble(clamped[..8]);
      TopNibble(clamped[8..]);
      SixteenBytes(clamped);
      assert key[16..][..8] == key[16..24] && key[16..][8..] == key[24..];
      SixteenBytes(key[16..]);
    }

    /** block, for a full block. */
    method Block(m: seq<byte>, ghost ms: seq<nat>)
      requires |m| == 16 && Absorbed(ms)
      modifies this
      ensures Absorbed(ms + [Numbered(m)])
    {
      AbsorbIsHorner(Limbs(h0, h1, h2), ms, Le64(m[..8]), Le64(m[8..]), r0, r1);
      SixteenBytes(m);
      var n := Absorb(Limbs(h0, h1, h2), Le64(m[..8]), Le64(m[8..]), 1, r0, r1);
      h0, h1, h2 := n.h0, n.h1, n.h2;
    }

    /** writePadded. */
    method WritePadded(data: seq<byte>, ghost ms: seq<nat>)
      requires Absorbed(ms)
      modifies this
      ensures Absorbed(ms + Numbers(data))
    {
      var rest := data;
      ghost var done := ms;
      while |rest| >= 16
        invariant Absorbed(done) && done + Numbers(rest) == ms + Numbers(data)
        decreases |rest|
      {
        Block(rest[..16], done);
        NextNumber(done, rest);
        done := done + [Numbered(rest[..16])];
        rest := rest[16..];
      }
      if |rest| > 0 {
        Block(Filled(rest), done);
      } else {
        assert done + [] == done;
      }
    }

    /** sum: the polynomial over the blocks, modulo 2^130 - 5, plus s, modulo 2^128. */
    method Sum(ghost ms: seq<nat>) returns (out: seq<byte>)
      requires Absorbed(ms)
      ensures |out| == 16 && Le(out) == (Polynomial(ms, R()) % P + S()) % (W * W)
    {
      HornerIsPolynomial(ms, R());
      var tag := Tag(Limbs(h0, h1, h2), s0, s1);
      SixteenFits(tag);
      out := PutLe(tag, 16);
      LeOfPutLe(tag, 16);
    }
  }

  lemma SixteenFits(v: nat)
    requires v < W * W
    ensures v < Power(256, 16)
  {
    EightBytes();
    assert Power(256, 12) == 0x1_0000_0000 * Power(256, 8);
    assert Power(256, 16) == 0x1_0000_0000 * Power(256, 12);
  }

  lemma NextNumber(done: seq<nat>, rest: seq<byte>)
    requires |rest| >= 16
    ensures done + [Numbered(rest[..16])] + Numbers(rest[16..]) == done + Numbers(rest)
  {
    Regroup(done, Numbered(rest[..16]), Numbers(rest[16..]));
  }

  lemma Regroup(a: seq<nat>, x: nat, b: seq<nat>)
    ensures a + [x] + b == a + ([x] + b)
  {
  }
}
