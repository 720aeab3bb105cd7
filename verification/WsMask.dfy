/** Masking of WebSocket payloads (section 5.3 of RFC 6455). */
module WsMask {
  import opened Arithmetic
  import opened Bits
  import opened Bytes
  import opened LittleEndian
  import opened Words

  /** The exclusive or of the low n bits. */
  function XorBits(a: nat, b: nat, n: nat): (x: nat)
    ensures x < Pow2(n)
  {
    if n == 0 then 0 else (if a % 2 == b % 2 then 0 else 1) + 2 * XorBits(a / 2, b / 2, n - 1)
  }

  lemma XorHalves(a: nat, b: nat, n: nat)
    requires n > 0
    ensures XorBits(a, b, n) % 2 == (if a % 2 == b % 2 then 0 else 1)
    ensures XorBits(a, b, n) / 2 == XorBits(a / 2, b / 2, n - 1)
  {
    LowBit(if a % 2 == b % 2 then 0 else 1, XorBits(a / 2, b / 2, n - 1));
  }

  /** Every bit: set where exactly one of the two is. */
  lemma {:induction false} XorBit(a: nat, b: nat, n: nat, k: nat)
    requires k < n
    ensures XorBits(a, b, n) / Pow2(k) % 2 == if a / Pow2(k) % 2 == b / Pow2(k) % 2 then 0 else 1
  {
    XorHalves(a, b, n);
    if k > 0 {
      XorBit(a / 2, b / 2, n - 1, k - 1);
      BitBelow(a, k);
      BitBelow(b, k);
      BitBelow(XorBits(a, b, n), k);
    }
  }

  function Xor(a: byte, b: byte): byte {
    assert Pow2(8) == 256;
    XorBits(a, b, 8)
  }

  /** Unmasking twice changes nothing. */
  lemma {:induction false} XorTwice(a: nat, b: nat, n: nat)
    requires a < Pow2(n)
    ensures XorBits(XorBits(a, b, n), b, n) == a
  {
    if n > 0 {
      var d, y := if a % 2 == b % 2 then 0 else 1, XorBits(a / 2, b / 2, n - 1);
      XorTwice(a / 2, b / 2, n - 1);
      LowBit(d, y);
      assert XorBits(a, b, n) == d + 2 * y;
    }
  }

  lemma LowBit(d: nat, y: nat)
    requires d < 2
    ensures (d + 2 * y) % 2 == d && (d + 2 * y) / 2 == y
  {
  }

  lemma ByteTwice(a: byte, b: byte)
    ensures Xor(Xor(a, b), b) == a
  {
    assert Pow2(8) == 256;
    XorTwice(a, b, 8);
  }

  /** Exclusive or works on low and high parts separately. */
  lemma {:induction false} XorParts(x: nat, a: nat, y: nat, b: nat, k: nat, n: nat)
    ensures XorBits(Join(x, a, k), Join(y, b, k), k + n) == Join(XorBits(x, y, k), XorBits(a, b, n), k)
  {
    if k > 0 {
      XorParts(x / 2, a, y / 2, b, k - 1, n);
    }
  }

  /** Some way to combine a byte with a byte of the mask. */
  type Mixer = (byte, byte) -> byte

  /** xor is the exclusive or of bytes. */
  ghost predicate IsXor(xor: Mixer) {
    forall a: byte, b: byte {:trigger Xor(a, b)} :: xor(a, b) == Xor(a, b)
  }

  /** a with mask repeated over it from position i. */
  function Unmask(xor: Mixer, a: seq<byte>, mask: seq<byte>, i: nat): (u: seq<byte>)
    requires |mask| == 4
    ensures |u| == |a| && forall j :: 0 <= j < |a| ==> u[j] == xor(a[j], mask[(i + j) % 4])
  {
    seq(|a|, j requires 0 <= j < |a| => xor(a[j], mask[(i + j) % 4]))
  }

  lemma UnmaskNext(xor: Mixer, src: seq<byte>, mask: seq<byte>, i: nat, n: nat)
    requires |mask| == 4 && i + n <= |src|
    ensures Unmask(xor, src[..i], mask, 0) + Unmask(xor, src[i..i + n], mask, i) == Unmask(xor, src[..i + n], mask, 0)
  {
  }

  /** Two sequences of bytes combined. */
  function XorEach(xor: Mixer, a: seq<byte>, b: seq<byte>): (u: seq<byte>)
    requires |a| == |b|
    ensures |u| == |a| && forall j :: 0 <= j < |a| ==> u[j] == xor(a[j], b[j])
  {
    if a == [] then [] else [xor(a[0], b[0])] + XorEach(xor, a[1..], b[1..])
  }

  lemma MaskAt(mask: seq<byte>, i: nat, j: nat)
    requires |mask| == 4 && i % 4 == 0 && j < 8
    ensures (mask + mask)[j] == mask[(i + j) % 4]
  {
    assert (i + j) % 4 == if j < 4 then j else j - 4;
  }

  lemma EachIsUnmask(xor: Mixer, a: seq<byte>, mask: seq<byte>, i: nat)
    requires |a| == 8 && |mask| == 4 && i % 4 == 0
    ensures XorEach(xor, a, mask + mask) == Unmask(xor, a, mask, i)
  {
    var u, v := XorEach(xor, a, mask + mask), Unmask(xor, a, mask, i);
    forall j | 0 <= j < 8 ensures u[j] == v[j] {
      MaskAt(mask, i, j);
    }
  }

  /** The lowest byte of a word and the bytes above it. */
  lemma WordStep(x: byte, a: nat, y: byte, b: nat, n: nat)
    ensures XorBits(x + 256 * a, y + 256 * b, 8 + n) == Xor(x, y) + 256 * XorBits(a, b, n)
  {
    assert Pow2(8) == 256;
    JoinByte(x, a, 8);
    JoinByte(y, b, 8);
    JoinByte(Xor(x, y), XorBits(a, b, n), 8);
    XorParts(x, a, y, b, 8, n);
  }

  /** A word of n bytes at a time gives what byte by byte gives. */
  lemma {:induction false} WordIsBytes(xor: Mixer, a: seq<byte>, b: seq<byte>)
    requires |a| == |b| && IsXor(xor)
    ensures XorBits(Le(a), Le(b), 8 * |a|) == Le(XorEach(xor, a, b))
  {
    if a != [] {
      WordIsBytes(xor, a[1..], b[1..]);
      WordStep(a[0], Le(a[1..]), b[0], Le(b[1..]), 8 * |a[1..]|);
      assert XorEach(xor, a, b)[1..] == XorEach(xor, a[1..], b[1..]);
    }
  }

  lemma MaskTwice(mask: seq<byte>)
    requires |mask| == 4
    ensures Le(mask) + 0x1_0000_0000 * Le(mask) == Le(mask + mask)
  {
    LeAppend(mask, mask);
    assert Power(256, 4) == 0x1_0000_0000;
  }

  /** Eight bytes as one word against the mask twice over. */
  lemma WordUnmasks(xor: Mixer, a: seq<byte>, mask: seq<byte>, i: nat)
    requires |a| == 8 && |mask| == 4 && i % 4 == 0 && IsXor(xor)
    ensures PutLe(XorBits(Le(a), Le(mask) + 0x1_0000_0000 * Le(mask), 8 * |a|), |a|) == Unmask(xor, a, mask, i)
  {
    var u := XorEach(xor, a, mask + mask);
    assert XorBits(Le(a), Le(mask) + 0x1_0000_0000 * Le(mask), 8 * |a|) == Le(u) by {
      MaskTwice(mask);
      WordIsBytes(xor, a, mask + mask);
    }
    PutLeOfLe(u);
    EachIsUnmask(xor, a, mask, i);
  }

  lemma {:induction false} PutLeOfLe(b: seq<byte>)
    ensures PutLe(Le(b), |b|) == b
  {
    if b != [] {
      PutLeOfLe(b[1..]);
    }
  }

  /** The bytes of a word after the exclusive or with a mask as wide. */
  function Masked(word: seq<byte>, mask64: nat): seq<byte> {
    PutLe(XorBits(Le(word), mask64, 8 * |word|), |word|)
  }

  lemma NextWord(xor: Mixer, src: seq<byte>, mask: seq<byte>, i: nat)
    requires |mask| == 4 && IsXor(xor) && i % 4 == 0 && i + 8 <= |src|
    ensures Unmask(xor, src[..i], mask, 0) + Masked(src[i..i + 8], Le(mask) + 0x1_0000_0000 * Le(mask))
         == Unmask(xor, src[..i + 8], mask, 0)
  {
    var word := src[i..i + 8];
    WordUnmasks(xor, word, mask, i);
    UnmaskNext(xor, src, mask, i, 8);
  }

  lemma NextByte(xor: Mixer, src: seq<byte>, mask: seq<byte>, i: nat)
    requires |mask| == 4 && IsXor(xor) && i < |src|
    ensures Unmask(xor, src[..i], mask, 0) + [Xor(src[i], mask[i % 4])] == Unmask(xor, src[..i + 1], mask, 0)
  {
    UnmaskNext(xor, src, mask, i, 1);
    assert Unmask(xor, src[i..i + 1], mask, i) == [Xor(src[i], mask[i % 4])];
  }

  /** The loop over words. */
  method MaskWords(ghost xor: Mixer, src: seq<byte>, mask: seq<byte>) returns (dst: seq<byte>, i: nat)
    requires |mask| == 4 && IsXor(xor)
    ensures i <= |src| < i + 8 && dst == Unmask(xor, src[..i], mask, 0)
  {
    var mask64 := Le(mask) + 0x1_0000_0000 * Le(mask);
    dst, i := [], 0;
    while i + 8 <= |src|
      invariant 0 <= i <= |src| && i % 8 == 0 && dst == Unmask(xor, src[..i], mask, 0)
    {
      NextMultiple(i);
      NextWord(xor, src, mask, i);
      dst := dst + Masked(src[i..i + 8], mask64);
      i := i + 8;
    }
  }

  lemma NextMultiple(i: nat)
    requires i % 8 == 0
    ensures (i + 8) % 8 == 0 && i % 4 == 0
  {
  }

  /** applyMask: a word at a time, then the bytes left over. */
  method ApplyMask(ghost xor: Mixer, src: seq<byte>, mask: seq<byte>) returns (dst: seq<byte>)
    requires |mask| == 4 && IsXor(xor)
    ensures dst == Unmask(xor, src, mask, 0)
  {
    var i;
    dst, i := MaskWords(xor, src, mask);
    while i < |src|
      invariant 0 <= i <= |src| && dst == Unmask(xor, src[..i], mask, 0)
    {
      NextByte(xor, src, mask, i);
      dst := dst + [Xor(src[i], mask[i % 4])];
      i := i + 1;
    }
    assert src[..i] == src;
  }
}
