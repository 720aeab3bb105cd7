/** huffmanAppend and huffmanLen: words gathered in a 64-bit accumulator. */
module HuffmanEncoder {
  import opened Bytes
  import opened Bits
  import opened Huffman

  ghost predicate Fits(t: Table) {
    forall c: byte :: 5 <= t(c).length <= 30 && t(c).value < Pow2(t(c).length)
  }

  /** Shifting past the end of the accumulator leaves what the low bits hold. */
  lemma ModOfMod(v: nat, a: nat, b: nat)
    requires a > 0 && b > 0
    ensures a * b > 0 && v % (a * b) % b == v % b
  {
    assert a * b > 0;
    var q, r := v / (a * b), v % (a * b);
    assert v == (a * b) * q + r;
    var x, y := r / b, r % b;
    assert r == b * x + y;
    assert v == b * (a * q + x) + y;
    ModIs(v, b, a * q + x, y);
  }

  lemma ShiftIn(acc: nat, n: nat, w: Word, width: nat)
    requires n + w.length <= width && w.value < Pow2(w.length)
    ensures (acc * Pow2(w.length) + w.value) % Pow2(width) % Pow2(n + w.length)
         == acc % Pow2(n) * Pow2(w.length) + w.value
  {
    var v, k := acc * Pow2(w.length) + w.value, n + w.length;
    PowAdd(width - k, k);
    ModOfMod(v, Pow2(width - k), Pow2(k));
    PowAdd(n, w.length);
    ShiftLow(acc, Pow2(n), Pow2(w.length), w.value);
  }

  lemma ShiftLow(acc: nat, n: nat, m: nat, value: nat)
    requires n > 0 && value < m
    ensures n * m > 0 && (acc * m + value) % (n * m) == acc % n * m + value
  {
    var a, q := acc / n, acc % n;
    assert acc == n * a + q;
    assert n * m > 0;
    assert acc * m + value == (n * m) * a + (q * m + value);
    assert q * m + value < n * m by {
      assert (q + 1) * m <= n * m;
    }
    ModIs(acc * m + value, n * m, a, q * m + value);
  }

  lemma TopPart(acc: nat, m: nat, top: nat)
    requires m > 0 && top > 0
    ensures m * top > 0
    ensures var q := acc % (m * top); acc / m % top == q / m < top && acc % m == q % m
  {
    assert m * top > 0;
    var a, q := acc / (m * top), acc % (m * top);
    assert acc == (m * top) * a + q;
    var b, r := q / m, q % m;
    assert q == m * b + r;
    SplitTop(acc, m, top, a, b, r);
  }

  lemma SplitTop(acc: nat, m: nat, top: nat, a: nat, b: nat, r: nat)
    requires m > 0 && top > 0 && r < m && acc == (m * top) * a + (m * b + r) && m * b + r < m * top
    ensures b < top && acc % m == r && acc / m % top == b
  {
    assert b < top by {
      var d := b - top;
      assert m * d == m * b - m * top;
      assert d >= 0 ==> m * d >= 0;
    }
    assert acc == m * (top * a + b) + r;
    ModIs(acc, m, top * a + b, r);
    ModIs(top * a + b, top, a, b);
  }

  /** The byte on top of the n bits that the accumulator holds, and the bits below it. */
  lemma TopByte(acc: nat, n: nat)
    requires n >= 8
    ensures var q, m := acc % Pow2(n), Pow2(n - 8);
            acc / m % 256 == q / m < 256 && acc % m == q % m
  {
    PowAdd(n - 8, 8);
    assert Pow2(8) == 256;
    TopPart(acc, Pow2(n - 8), 256);
  }

  lemma TopByteBits(acc: nat, n: nat)
    requires n >= 8
    ensures BitsOf(acc % Pow2(n), n) == BitsOf(acc / Pow2(n - 8) % 256, 8) + BitsOf(acc % Pow2(n - 8), n - 8)
  {
    var q, m := acc % Pow2(n), Pow2(n - 8);
    TopByte(acc, n);
    assert q == q / m * m + q % m;
    BitsJoin(q / m, q % m, 8, n - 8);
  }

  /** The last byte: the bits left over and ones. */
  function Final(acc: nat, n: nat): nat
    requires n < 8
  {
    acc * Pow2(8 - n) % 256 + 255 / Pow2(n)
  }

  lemma LastByte(acc: nat, n: nat)
    requires 0 < n < 8
    ensures Final(acc, n) < 256 && BitsOf(Final(acc, n), 8) == BitsOf(acc % Pow2(n), n) + Ones(8 - n)
  {
    var k, q := 8 - n, acc % Pow2(n);
    PowAdd(n, k);
    assert Pow2(8) == 256;
    ShiftLow(acc, Pow2(n), Pow2(k), 0);
    OnesBelow(n);
    assert q * Pow2(k) + (Pow2(k) - 1) < 256 by {
      assert (q + 1) * Pow2(k) <= Pow2(n) * Pow2(k);
    }
    BitsJoin(q, Pow2(k) - 1, n, k);
    BitsOfOnes(k);
  }

  lemma OnesBelow(n: nat)
    requires n <= 8
    ensures 255 / Pow2(n) == Pow2(8 - n) - 1
  {
    assert Pow2(0) == 1 && Pow2(1) == 2 && Pow2(2) == 4 && Pow2(3) == 8 && Pow2(4) == 16;
    assert Pow2(5) == 32 && Pow2(6) == 64 && Pow2(7) == 128 && Pow2(8) == 256;
    if n == 0 {
    } else if n == 1 {
    } else if n == 2 {
    } else if n == 3 {
    } else if n == 4 {
    } else if n == 5 {
    } else if n == 6 {
    } else if n == 7 {
    } else {
    }
  }

  /** The bits of tail followed by the n low bits of the accumulator. */
  ghost function Held(tail: seq<byte>, acc: nat, n: nat): seq<bool> {
    Flat(tail) + BitsOf(acc % Pow2(n), n)
  }

  lemma HeldShift(t: Table, tail: seq<byte>, acc: nat, n: nat, c: byte, width: nat)
    requires n < 8 && Fits(t) && width >= 38
    ensures Held(tail, (acc * Pow2(t(c).length) + t(c).value) % Pow2(width), n + t(c).length)
              == Held(tail, acc, n) + Code(t, c)
  {
    ShiftIn(acc, n, t(c), width);
    BitsJoin(acc % Pow2(n), t(c).value, n, t(c).length);
  }

  lemma HeldEmit(tail: seq<byte>, acc: nat, n: nat)
    requires n >= 8
    ensures Held(tail + [acc / Pow2(n - 8) % 256], acc, n - 8) == Held(tail, acc, n)
  {
    TopByteBits(acc, n);
    FlatSnoc(tail, acc / Pow2(n - 8) % 256);
  }

  /** The inner loop: whole bytes leave the accumulator. */
  method Drain(dst: seq<byte>, acc: nat, n: nat) returns (out: seq<byte>, left: nat)
    ensures left < 8 && Held(out, acc, left) == Held(dst, acc, n)
    ensures dst <= out
  {
    out, left := dst, n;
    while left >= 8
      invariant dst <= out && Held(out, acc, left) == Held(dst, acc, n)
    {
      HeldEmit(out, acc, left);
      left := left - 8;
      out := out + [acc / Pow2(left) % 256];
    }
  }

  /** huffmanAppend after its first n bytes, with an accumulator of any width of 38 bits or more. */
  method AppendWords(t: Table, dst: seq<byte>, s: seq<byte>, width: nat) returns (out: seq<byte>, acc: nat, n: nat)
    requires Fits(t) && width >= 38
    ensures n < 8 && dst <= out && Held(out, acc, n) == Flat(dst) + Words(t, s)
  {
    out, acc, n := dst, 0, 0;
    var i := 0;
    assert Held(out, acc, n) == Flat(dst) + Words(t, s[..0]);
    while i < |s|
      invariant 0 <= i <= |s| && n < 8 && dst <= out
      invariant Held(out, acc, n) == Flat(dst) + Words(t, s[..i])
    {
      var c := s[i];
      HeldShift(t, out, acc, n, c, width);
      NextWord(t, dst, s, i);
      acc := (acc * Pow2(t(c).length) + t(c).value) % Pow2(width);
      n := n + t(c).length;
      out, n := Drain(out, acc, n);
      i := i + 1;
    }
    assert s[..i] == s;
  }

  lemma NextWord(t: Table, dst: seq<byte>, s: seq<byte>, i: nat)
    requires i < |s|
    ensures Flat(dst) + Words(t, s[..i]) + Code(t, s[i]) == Flat(dst) + Words(t, s[..i + 1])
  {
    assert s[..i + 1] == s[..i] + [s[i]];
    WordsSnoc(t, s[..i], s[i]);
  }

  /** huffmanAppend. */
  method Append(t: Table, dst: seq<byte>, s: seq<byte>) returns (out: seq<byte>)
    requires Fits(t)
    ensures dst <= out && Codes(t, s, out[|dst|..])
  {
    var acc, n;
    out, acc, n := AppendWords(t, dst, s, 64);
    if n > 0 {
      LastByte(acc, n);
      var last: byte := Final(acc, n);
      Pad(out, acc, n, Flat(dst) + Words(t, s), last);
      out := out + [last];
      TailCodes(t, dst, out, s, 8 - n);
    } else {
      assert Flat(out) == Held(out, acc, 0) == Held(out, acc, 0) + Ones(0);
      TailCodes(t, dst, out, s, 0);
    }
  }

  /** What is left of the accumulator fills one more byte. */
  lemma Pad(out: seq<byte>, acc: nat, n: nat, bits: seq<bool>, last: byte)
    requires 0 < n < 8 && Held(out, acc, n) == bits && BitsOf(last, 8) == BitsOf(acc % Pow2(n), n) + Ones(8 - n)
    ensures Flat(out + [last]) == bits + Ones(8 - n)
  {
    FlatSnoc(out, last);
    Regroup(Flat(out), BitsOf(acc % Pow2(n), n), Ones(8 - n));
  }

  lemma Regroup(a: seq<bool>, b: seq<bool>, c: seq<bool>)
    ensures a + (b + c) == a + b + c
  {
  }

  lemma Cancel(a: seq<bool>, b: seq<bool>, c: seq<bool>)
    requires a + b == a + c
    ensures b == c
  {
    assert b == (a + b)[|a|..] && c == (a + c)[|a|..];
  }

  lemma TailCodes(t: Table, dst: seq<byte>, out: seq<byte>, s: seq<byte>, pad: nat)
    requires dst <= out && pad < 8 && Flat(out) == Flat(dst) + Words(t, s) + Ones(pad)
    ensures Codes(t, s, out[|dst|..])
  {
    var tail := out[|dst|..];
    assert Flat(dst) + Flat(tail) == Flat(dst) + (Words(t, s) + Ones(pad)) by {
      FlatAppend(dst, tail);
      assert out == dst + tail;
      Regroup(Flat(dst), Words(t, s), Ones(pad));
    }
    Cancel(Flat(dst), Flat(tail), Words(t, s) + Ones(pad));
    PaddingIs(|Words(t, s)|, pad, |tail|);
  }

  /** huffmanLen. */
  method Length(t: Table, s: seq<byte>) returns (n: nat)
    ensures n == (|Words(t, s)| + 7) / 8
  {
    var bits, i := 0, 0;
    while i < |s|
      invariant 0 <= i <= |s| && bits == |Words(t, s[..i])|
    {
      assert s[..i + 1][..i] == s[..i];
      bits := bits + t(s[i]).length;
      i := i + 1;
    }
    assert s[..i] == s;
    n := (bits + 7) / 8;
  }

  /** huffmanLen is the length of what huffmanAppend adds. */
  lemma LengthIsExact(t: Table, s: seq<byte>, b: seq<byte>)
    requires Codes(t, s, b)
    ensures |b| == (|Words(t, s)| + 7) / 8
  {
    assert 8 * |b| == |Words(t, s)| + Padding(|Words(t, s)|);
  }
}
