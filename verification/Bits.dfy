/** Numbers as sequences of bits, highest first. */
module Bits {
  import opened Bytes

  function Pow2(n: nat): (p: nat)
    ensures p > 0
  {
    if n == 0 then 1 else 2 * Pow2(n - 1)
  }

  /** The low n bits of v. */
  function BitsOf(v: nat, n: nat): (s: seq<bool>)
    ensures |s| == n
  {
    if n == 0 then [] else BitsOf(v / 2, n - 1) + [v % 2 == 1]
  }

  function Ones(n: nat): (s: seq<bool>)
    ensures |s| == n
  {
    if n == 0 then [] else Ones(n - 1) + [true]
  }

  /** The bits of a sequence of bytes. */
  ghost function Flat(b: seq<byte>): (s: seq<bool>)
    ensures |s| == 8 * |b|
  {
    if b == [] then [] else Flat(b[..|b| - 1]) + BitsOf(b[|b| - 1], 8)
  }

  lemma FlatSnoc(b: seq<byte>, x: byte)
    ensures Flat(b + [x]) == Flat(b) + BitsOf(x, 8)
  {
    assert (b + [x])[..|b|] == b;
  }

  lemma {:induction false} FlatAppend(a: seq<byte>, b: seq<byte>)
    ensures Flat(a + b) == Flat(a) + Flat(b)
  {
    if b == [] {
      assert a + b == a;
    } else {
      var init, x := b[..|b| - 1], b[|b| - 1];
      FlatAppend(a, init);
      assert a + b == (a + init) + [x];
      FlatSnoc(a + init, x);
    }
  }

  lemma ModIs(v: nat, m: nat, q: nat, r: nat)
    requires m > 0 && r < m && v == m * q + r
    ensures v % m == r && v / m == q
  {
    var q1, r1 := v / m, v % m;
    assert v == m * q1 + r1;
    var d := q - q1;
    assert m * d == m * q - m * q1;
    assert d >= 1 ==> m * d >= m;
    assert d < 0 ==> m * d + m <= 0;
  }

  lemma DivTwice(v: nat, m: nat)
    requires m > 0
    ensures v / 2 / m == v / (2 * m)
  {
    var q, r := v / 2 / m, v / 2 % m;
    assert v / 2 == m * q + r;
    ModIs(v, 2 * m, q, 2 * r + v % 2);
  }

  lemma {:induction false} PowAdd(a: nat, b: nat)
    ensures Pow2(a + b) == Pow2(a) * Pow2(b)
  {
    if b > 0 {
      PowAdd(a, b - 1);
    }
  }

  /** The bits of a number put above another one. */
  lemma {:induction false} BitsJoin(hi: nat, lo: nat, m: nat, n: nat)
    requires lo < Pow2(n)
    ensures BitsOf(hi * Pow2(n) + lo, m + n) == BitsOf(hi, m) + BitsOf(lo, n)
  {
    if n > 0 {
      HalfOfJoin(hi, lo, Pow2(n - 1));
      BitsJoin(hi, lo / 2, m, n - 1);
    }
  }

  lemma HalfOfJoin(hi: nat, lo: nat, p: nat)
    ensures (hi * (2 * p) + lo) / 2 == hi * p + lo / 2 && (hi * (2 * p) + lo) % 2 == lo % 2
  {
    assert hi * (2 * p) == 2 * (hi * p);
  }

  lemma {:induction false} BitsOfOnes(n: nat)
    ensures BitsOf(Pow2(n) - 1, n) == Ones(n)
  {
    if n > 0 {
      assert (Pow2(n) - 1) / 2 == Pow2(n - 1) - 1;
      BitsOfOnes(n - 1);
    }
  }

  lemma {:induction false} BitsInjective(a: nat, b: nat, n: nat)
    requires a < Pow2(n) && b < Pow2(n) && BitsOf(a, n) == BitsOf(b, n)
    ensures a == b
  {
    if n > 0 {
      assert BitsOf(a, n)[..n - 1] == BitsOf(a / 2, n - 1) && BitsOf(b, n)[..n - 1] == BitsOf(b / 2, n - 1);
      assert BitsOf(a, n)[n - 1] == BitsOf(b, n)[n - 1];
      BitsInjective(a / 2, b / 2, n - 1);
    }
  }

  /** Bytes are determined by their bits. */
  lemma {:induction false} FlatInjective(a: seq<byte>, b: seq<byte>)
    requires Flat(a) == Flat(b)
    ensures a == b
  {
    if a != [] {
      var n := |a| - 1;
      assert Flat(a)[..8 * n] == Flat(a[..n]) && Flat(b)[..8 * n] == Flat(b[..n]);
      assert Flat(a)[8 * n..] == BitsOf(a[n], 8) && Flat(b)[8 * n..] == BitsOf(b[n], 8);
      FlatInjective(a[..n], b[..n]);
      BitsInjective(a[n], b[n], 8);
    }
  }

  /** The number that bits spell. */
  function Number(w: seq<bool>): (v: nat)
    ensures v < Pow2(|w|)
  {
    if w == [] then 0 else 2 * Number(w[..|w| - 1]) + (if w[|w| - 1] then 1 else 0)
  }

  lemma {:induction false} BitsOfNumber(w: seq<bool>)
    ensures BitsOf(Number(w), |w|) == w
  {
    if w != [] {
      BitsOfNumber(w[..|w| - 1]);
      assert w == w[..|w| - 1] + [w[|w| - 1]];
    }
  }

  /** Bits in bytes. */
  ghost function Pack(w: seq<bool>): (b: seq<byte>)
    requires |w| % 8 == 0
    ensures Flat(b) == w
    decreases |w|
  {
    if w == [] then [] else
    var init := w[..|w| - 8];
    LastByte(w, Pack(init));
    Pack(init) + [ByteOf(w[|w| - 8..])]
  }

  ghost function ByteOf(w: seq<bool>): byte
    requires |w| == 8
  {
    assert Pow2(8) == 256;
    Number(w)
  }

  lemma LastByte(w: seq<bool>, b: seq<byte>)
    requires |w| >= 8 && Flat(b) == w[..|w| - 8]
    ensures Flat(b + [ByteOf(w[|w| - 8..])]) == w
  {
    var last := w[|w| - 8..];
    BitsOfNumber(last);
    FlatSnoc(b, ByteOf(last));
    assert w[..|w| - 8] + last == w;
  }
}
