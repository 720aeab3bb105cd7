/** Numbers as bytes, lowest first. */
module LittleEndian {
  import opened Bytes
  import opened Arithmetic

  /** Bytes as a number, lowest first. */
  function Le(b: seq<byte>): nat { if b == [] then 0 else b[0] + 256 * Le(b[1..]) }

  lemma {:induction false} LeFits(b: seq<byte>)
    ensures Le(b) < Power(256, |b|)
  {
    if b != [] {
      LeFits(b[1..]);
    }
  }

  lemma {:induction false} LeAppend(a: seq<byte>, b: seq<byte>)
    ensures Le(a + b) == Le(a) + Power(256, |a|) * Le(b)
  {
    if a == [] {
      assert a + b == b;
    } else {
      assert (a + b)[1..] == a[1..] + b;
      LeAppend(a[1..], b);
      Scaled(Power(256, |a| - 1), Le(b));
    }
  }

  lemma Scaled(p: nat, v: nat)
    ensures 256 * (p * v) == (256 * p) * v
  {
  }

  /** binary.LittleEndian.PutUint64, for n bytes. */
  function PutLe(v: nat, n: nat): (b: seq<byte>)
    ensures |b| == n
  {
    if n == 0 then [] else [v % 256] + PutLe(v / 256, n - 1)
  }

  lemma {:induction false} LeOfPutLe(v: nat, n: nat)
    requires v < Power(256, n)
    ensures Le(PutLe(v, n)) == v
  {
    if n > 0 {
      LeOfPutLe(v / 256, n - 1);
      assert PutLe(v, n)[1..] == PutLe(v / 256, n - 1);
    }
  }
}
