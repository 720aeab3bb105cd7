/** Numbers as words of bits, lowest first, and the bitwise and of two words. */
module Words {
  import opened Arithmetic
  import opened Bits
  import opened Bytes
  import opened LittleEndian

  /** The low k bits of x below a. */
  function Join(x: nat, a: nat, k: nat): nat { if k == 0 then a else x % 2 + 2 * Join(x / 2, a, k - 1) }

  lemma {:induction false} JoinByte(x: nat, a: nat, k: nat)
    requires x < Pow2(k)
    ensures Join(x, a, k) == x + Times(Pow2(k), a)
  {
    if k > 0 {
      JoinByte(x / 2, a, k - 1);
      TimesTwo(Pow2(k - 1), a);
    }
  }

  lemma TimesTwo(a: nat, b: nat)
    ensures Times(2 * a, b) == 2 * Times(a, b)
  {
  }

  /** The bitwise and. */
  function And(a: nat, b: nat): (x: nat)
    ensures x <= a
    decreases a
  {
    if a == 0 then 0 else (if a % 2 == 1 && b % 2 == 1 then 1 else 0) + 2 * And(a / 2, b / 2)
  }

  lemma AndHalves(a: nat, b: nat)
    ensures And(a, b) % 2 == (if a % 2 == 1 && b % 2 == 1 then 1 else 0) && And(a, b) / 2 == And(a / 2, b / 2)
  {
  }

  lemma Doubled(d: nat, y: nat)
    requires d < 2
    ensures (d + 2 * y) % 2 == d && (d + 2 * y) / 2 == y
  {
  }

  /** Every bit: set where both are. */
  lemma {:induction false} AndBit(a: nat, b: nat, k: nat)
    ensures And(a, b) / Pow2(k) % 2 == if a / Pow2(k) % 2 == 1 && b / Pow2(k) % 2 == 1 then 1 else 0
  {
    AndHalves(a, b);
    if k > 0 {
      AndBit(a / 2, b / 2, k - 1);
      BitBelow(a, k);
      BitBelow(b, k);
      BitBelow(And(a, b), k);
    }
  }

  lemma BitBelow(v: nat, k: nat)
    requires k > 0
    ensures v / Pow2(k) == v / 2 / Pow2(k - 1)
  {
    DivTwice(v, Pow2(k - 1));
  }

  /** The bitwise and works on low and high parts separately. */
  lemma {:induction false} AndParts(x: nat, a: nat, y: nat, b: nat, k: nat)
    ensures And(Join(x, a, k), Join(y, b, k)) == Join(And(x, y), And(a, b), k)
  {
    if k > 0 {
      AndParts(x / 2, a, y / 2, b, k - 1);
      Doubled(x % 2, Join(x / 2, a, k - 1));
      Doubled(y % 2, Join(y / 2, b, k - 1));
      AndHalves(Join(x, a, k), Join(y, b, k));
      AndHalves(x, y);
    }
  }

  lemma AndStep(x: byte, a: nat, y: byte, b: nat)
    ensures And(x + 256 * a, y + 256 * b) == And(x, y) + 256 * And(a, b)
  {
    assert Pow2(8) == 256;
    JoinByte(x, a, 8);
    JoinByte(y, b, 8);
    JoinByte(And(x, y), And(a, b), 8);
    AndParts(x, a, y, b, 8);
  }

  function AndEach(a: seq<byte>, b: seq<byte>): (u: seq<byte>)
    requires |a| == |b|
    ensures |u| == |a| && forall j :: 0 <= j < |a| ==> u[j] == And(a[j], b[j])
  {
    if a == [] then [] else [And(a[0], b[0])] + AndEach(a[1..], b[1..])
  }

  /** The bitwise and of two words is that of their bytes. */
  lemma {:induction false} AndIsBytes(a: seq<byte>, b: seq<byte>)
    requires |a| == |b|
    ensures And(Le(a), Le(b)) == Le(AndEach(a, b))
  {
    if a != [] {
      AndIsBytes(a[1..], b[1..]);
      AndStep(a[0], Le(a[1..]), b[0], Le(b[1..]));
      assert AndEach(a, b)[1..] == AndEach(a[1..], b[1..]);
    }
  }

  /** A mask of ones keeps the low bits. */
  lemma {:induction false} AndOnes(a: nat, k: nat)
    ensures And(a, Pow2(k) - 1) == a % Pow2(k)
  {
    if k == 0 {
      AndZero(a);
    } else {
      AndOnes(a / 2, k - 1);
      HalfOnes(Pow2(k - 1));
      LowestBit(a, Pow2(k - 1));
    }
  }

  lemma HalfOnes(p: nat)
    requires p > 0
    ensures (2 * p - 1) % 2 == 1 && (2 * p - 1) / 2 == p - 1
  {
  }

  lemma LowestBit(a: nat, p: nat)
    requires p > 0
    ensures a % (2 * p) == a % 2 + 2 * (a / 2 % p)
  {
    var q, r := a / 2 / p, a / 2 % p;
    assert a == a % 2 + 2 * (p * q + r);
    assert a == (2 * p) * q + (a % 2 + 2 * r);
    ModIs(a, 2 * p, q, a % 2 + 2 * r);
  }

  lemma {:induction false} AndZero(a: nat)
    ensures And(a, 0) == 0
  {
    if a > 0 {
      AndZero(a / 2);
    }
  }

  lemma AndDouble(a: nat, b: nat)
    ensures And(a, 2 * b) == 2 * And(a / 2, b)
  {
    Doubled(0, b);
  }

  /** A mask of ones with two zeros below them. */
  lemma AndHigh(a: nat, k: nat)
    ensures And(a, 2 * (2 * (Pow2(k) - 1))) == 2 * (2 * (a / 2 / 2 % Pow2(k)))
  {
    AndOnes(a / 2 / 2, k);
    AndDouble(a, 2 * (Pow2(k) - 1));
    AndDouble(a / 2, Pow2(k) - 1);
  }

  lemma ByteParts(a: byte)
    ensures a / 2 / 2 % 64 == a / 2 / 2 && 2 * (2 * (a / 2 / 2)) == a - a % 4
  {
  }

  /** The masks that occur in a byte: all of it, its low four bits, and all but its low two. */
  lemma ByteMasks(a: byte, all: nat, low: nat, high: nat)
    requires all == 0xff && low == 0x0f && high == 0xfc
    ensures And(a, all) == a && And(a, low) == a % 16 && And(a, high) == a - a % 4
  {
    assert Pow2(4) == 16 && Pow2(6) == 64 && Pow2(8) == 256;
    AndOnes(a, 8);
    AndOnes(a, 4);
    AndHigh(a, 6);
    ByteParts(a);
  }
}
