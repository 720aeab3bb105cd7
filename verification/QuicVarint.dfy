/** Variable-length integers (section 16 of RFC 9000). */
module QuicVarint {
  import opened Bytes

  const MAX_VARINT := 0x3fff_ffff_ffff_ffff

  /** v in n bytes, most significant first. */
  function Be(v: nat, n: nat): (b: seq<byte>)
    ensures |b| == n
  {
    if n == 0 then [] else Be(v / 0x100, n - 1) + [v % 0x100]
  }

  function Pow256(n: nat): nat {
    if n == 0 then 1 else 0x100 * Pow256(n - 1)
  }

  /** The encoding of a 64-bit value: two bits say how many bytes there are, the rest
      holds the value, of which only 62 bits have room in eight bytes. */
  function Encode(v: nat): seq<byte> {
    if v < 0x40 then [v]
    else if v < 0x4000 then [0x40 + v / 0x100] + Be(v % 0x100, 1)
    else if v < 0x4000_0000 then [0x80 + v / 0x100_0000] + Be(v % 0x100_0000, 3)
    else [0xc0 + v / 0x100_0000_0000_0000 % 0x40] + Be(v % 0x100_0000_0000_0000, 7)
  }

  /** VarintLen. */
  function Length(v: nat): (n: nat)
    ensures n == |Encode(v)|
  {
    if v < 0x40 then 1 else if v < 0x4000 then 2 else if v < 0x4000_0000 then 4 else 8
  }

  /** How many bytes the first byte announces. */
  function Announced(b: byte): (n: nat)
    ensures 1 <= n <= 8
  {
    if b < 0x40 then 1 else if b < 0x80 then 2 else if b < 0xc0 then 4 else 8
  }

  /** The value of the bytes acc, b. */
  function BigEndian(acc: nat, b: seq<byte>): nat
    decreases |b|
  {
    if b == [] then acc else BigEndian(acc * 0x100 + b[0], b[1..])
  }

  datatype Read = Read(value: nat, length: nat)

  /** ReadVarint; a length of zero says that b is too short. */
  function Decode(b: seq<byte>): Read {
    if b == [] || |b| < Announced(b[0]) then Read(0, 0)
    else Read(BigEndian(b[0] % 0x40, b[1..Announced(b[0])]), Announced(b[0]))
  }

  lemma {:induction false} BigEndianSnoc(acc: nat, a: seq<byte>, x: byte)
    ensures BigEndian(acc, a + [x]) == BigEndian(acc, a) * 0x100 + x
    decreases |a|
  {
    if a == [] {
      assert (a + [x])[1..] == [];
    } else {
      assert (a + [x])[0] == a[0] && (a + [x])[1..] == a[1..] + [x];
      BigEndianSnoc(acc * 0x100 + a[0], a[1..], x);
    }
  }

  lemma ShiftByte(acc: nat, p: nat, q: nat, r: nat)
    ensures (acc * p + q) * 0x100 + r == acc * (0x100 * p) + (q * 0x100 + r)
  {
    assert acc * (0x100 * p) == 0x100 * (acc * p);
  }

  /** Reading what Be wrote shifts acc and adds the value. */
  lemma {:induction false} BigEndianBe(acc: nat, v: nat, n: nat)
    requires v < Pow256(n)
    ensures BigEndian(acc, Be(v, n)) == acc * Pow256(n) + v
  {
    if n > 0 {
      BigEndianBe(acc, v / 0x100, n - 1);
      BigEndianSnoc(acc, Be(v / 0x100, n - 1), v % 0x100);
      ShiftByte(acc, Pow256(n - 1), v / 0x100, v % 0x100);
    }
  }

  lemma Powers()
    ensures Pow256(1) == 0x100 && Pow256(3) == 0x100_0000 && Pow256(7) == 0x100_0000_0000_0000
  {
    assert Pow256(2) == 0x1_0000;
    assert Pow256(4) == 0x1_0000_0000;
    assert Pow256(5) == 0x100_0000_0000;
    assert Pow256(6) == 0x1_0000_0000_0000;
  }

  /** The prefix bits of the first byte do not disturb its value bits. */
  lemma FirstByte(p: nat, d: nat)
    requires d < 0x40 && (p == 0 || p == 0x40 || p == 0x80 || p == 0xc0)
    ensures (p + d) % 0x40 == d
  {
  }

  lemma Join62(v: nat)
    requires v < 0x1_0000_0000_0000_0000
    ensures v / 0x100_0000_0000_0000 % 0x40 * 0x100_0000_0000_0000 + v % 0x100_0000_0000_0000
              == v % 0x4000_0000_0000_0000
  {
    var q, w := v / 0x100_0000_0000_0000, v % 0x100_0000_0000_0000;
    assert v == q / 0x40 * 0x4000_0000_0000_0000 + (q % 0x40 * 0x100_0000_0000_0000 + w);
    assert q % 0x40 * 0x100_0000_0000_0000 + w < 0x4000_0000_0000_0000;
  }

  ghost predicate Spells(v: nat) {
    && Announced(Encode(v)[0]) == |Encode(v)|
    && BigEndian(Encode(v)[0] % 0x40, Encode(v)[1..]) == v % 0x4000_0000_0000_0000
  }

  lemma TwoBytes(v: nat)
    requires 0x40 <= v < 0x4000
    ensures Spells(v)
  {
    Powers();
    ShortValue(0x40, v / 0x100, v % 0x100, 1);
  }

  lemma FourBytes(v: nat)
    requires 0x4000 <= v < 0x4000_0000
    ensures Spells(v)
  {
    Powers();
    ShortValue(0x80, v / 0x100_0000, v % 0x100_0000, 3);
  }

  lemma EightBytes(v: nat)
    requires 0x4000_0000 <= v < 0x1_0000_0000_0000_0000
    ensures Spells(v)
  {
    LongValue(v / 0x100_0000_0000_0000 % 0x40, v % 0x100_0000_0000_0000);
    Join62(v);
  }

  /** The bits after the length prefix are the value modulo 2^62. */
  lemma EncodedValue(v: nat)
    requires v < 0x1_0000_0000_0000_0000
    ensures Announced(Encode(v)[0]) == |Encode(v)|
    ensures BigEndian(Encode(v)[0] % 0x40, Encode(v)[1..]) == v % 0x4000_0000_0000_0000
  {
    if v < 0x40 {
      assert Encode(v)[1..] == [];
    } else if v < 0x4000 {
      TwoBytes(v);
    } else if v < 0x4000_0000 {
      FourBytes(v);
    } else {
      EightBytes(v);
    }
  }

  lemma LongValue(d: nat, w: nat)
    requires d < 0x40 && w < 0x100_0000_0000_0000
    ensures var e := [0xc0 + d] + Be(w, 7);
            && Announced(e[0]) == |e| == 8
            && BigEndian(e[0] % 0x40, e[1..]) == d * 0x100_0000_0000_0000 + w
  {
    Powers();
    var e := [0xc0 + d] + Be(w, 7);
    FirstByte(0xc0, d);
    assert e[1..] == Be(w, 7);
    BigEndianBe(d, w, 7);
  }

  lemma ShortValue(p: nat, d: nat, w: nat, n: nat)
    requires p == 0x40 || p == 0x80
    requires d < 0x40 && w < Pow256(n)
    ensures var e := [p + d] + Be(w, n);
            BigEndian(e[0] % 0x40, e[1..]) == d * Pow256(n) + w
  {
    var e := [p + d] + Be(w, n);
    FirstByte(p, d);
    assert e[1..] == Be(w, n);
    BigEndianBe(d, w, n);
  }

  /** Reading back an encoding gives the value modulo 2^62, whatever follows: exactly
      the value if and only if it is below 2^62. */
  lemma DecodeEncode(v: nat, rest: seq<byte>)
    requires v < 0x1_0000_0000_0000_0000
    ensures Decode(Encode(v) + rest) == Read(v % 0x4000_0000_0000_0000, |Encode(v)|)
    ensures Decode(Encode(v) + rest).value == v <==> v <= MAX_VARINT
  {
    EncodedValue(v);
    var e := Encode(v);
    assert e != [] && (e + rest)[0] == e[0];
    assert (e + rest)[1..|e|] == e[1..];
  }

  function Bytes4(a: nat, b: nat, c: nat, d: nat): nat { 0x100_0000 * a + 0x1_0000 * b + 0x100 * c + d }

  lemma FourDigits(acc: nat, b: seq<byte>)
    requires |b| >= 4
    ensures BigEndian(acc, b) == BigEndian(acc * 0x1_0000_0000 + Bytes4(b[0], b[1], b[2], b[3]), b[4..])
  {
    assert b[1..][1..] == b[2..] && b[2..][1..] == b[3..] && b[3..][1..] == b[4..];
    var a1 := acc * 0x100 + b[0];
    var a2 := a1 * 0x100 + b[1];
    var a3 := a2 * 0x100 + b[2];
    assert BigEndian(acc, b) == BigEndian(a1, b[1..]);
    assert BigEndian(a1, b[1..]) == BigEndian(a2, b[2..]);
    assert BigEndian(a2, b[2..]) == BigEndian(a3, b[3..]);
    assert BigEndian(a3, b[3..]) == BigEndian(a3 * 0x100 + b[3], b[4..]);
  }

  lemma DecodeTwo(b: seq<byte>)
    requires |b| >= 2 && 0x40 <= b[0] < 0x80
    ensures Decode(b) == Read(Bytes4(0, 0, b[0] - 0x40, b[1]), 2)
  {
    assert b[1..2] == [b[1]];
    BigEndianSnoc(b[0] % 0x40, [], b[1]);
    assert [] + [b[1]] == [b[1]];
  }

  lemma DecodeFour(b: seq<byte>)
    requires |b| >= 4 && 0x80 <= b[0] < 0xc0
    ensures Decode(b) == Read(Bytes4(b[0] - 0x80, b[1], b[2], b[3]), 4)
  {
    var whole := [b[0] - 0x80] + b[1..4];
    assert whole[1..] == b[1..4];
    FourDigits(0, whole);
  }

  lemma EightDigits(b: seq<byte>, high: nat, low: nat)
    requires |b| == 8 && high == Bytes4(b[0], b[1], b[2], b[3]) && low == Bytes4(b[4], b[5], b[6], b[7])
    ensures BigEndian(b[0], b[1..]) == 0x1_0000_0000 * high + low
  {
    FourDigits(0, b);
    var rest := b[4..];
    FourDigits(high, rest);
    assert rest[4..] == [];
  }

  lemma LowSix(x: byte)
    requires x >= 0xc0
    ensures x % 0x40 == x - 0xc0
  {
  }

  lemma DecodeLong(b: seq<byte>, d: byte)
    requires |b| >= 8 && 0xc0 <= b[0] && d == b[0] - 0xc0
    ensures Decode(b) == Read(BigEndian(d, b[1..8]), 8)
  {
    LowSix(b[0]);
  }

  lemma Whole(b: seq<byte>, d: byte)
    requires |b| >= 8
    ensures var w := [d] + b[1..8];
            && w[0] == d && w[1..] == b[1..8] && |w| == 8 && w[1] == b[1] && w[2] == b[2] && w[3] == b[3]
            && w[4] == b[4] && w[5] == b[5] && w[6] == b[6] && w[7] == b[7]
  {
  }

  lemma DecodeEight(b: seq<byte>)
    requires |b| >= 8 && 0xc0 <= b[0]
    ensures Decode(b)
            == Read(0x1_0000_0000 * Bytes4(b[0] - 0xc0, b[1], b[2], b[3]) + Bytes4(b[4], b[5], b[6], b[7]), 8)
  {
    var d := b[0] - 0xc0;
    DecodeLong(b, d);
    Whole(b, d);
    EightDigits([d] + b[1..8], Bytes4(d, b[1], b[2], b[3]), Bytes4(b[4], b[5], b[6], b[7]));
  }

  /** Table 4 of RFC 9000: what the first two bits say, and the bits after them, most significant first. */
  lemma DecodeIs(b: seq<byte>)
    requires b != []
    ensures b[0] < 0x40 ==> Decode(b) == Read(b[0], 1)
    ensures 0x40 <= b[0] < 0x80 && |b| >= 2 ==> Decode(b) == Read(Bytes4(0, 0, b[0] - 0x40, b[1]), 2)
    ensures 0x80 <= b[0] < 0xc0 && |b| >= 4 ==> Decode(b) == Read(Bytes4(b[0] - 0x80, b[1], b[2], b[3]), 4)
    ensures 0xc0 <= b[0] && |b| >= 8 ==>
              Decode(b)
              == Read(0x1_0000_0000 * Bytes4(b[0] - 0xc0, b[1], b[2], b[3]) + Bytes4(b[4], b[5], b[6], b[7]), 8)
    ensures Decode(b).length == 0 <==>
              |b| < if b[0] < 0x40 then 1 else if b[0] < 0x80 then 2 else if b[0] < 0xc0 then 4 else 8
  {
    if b[0] < 0x40 {
      assert b[1..1] == [];
    } else if b[0] < 0x80 {
      if |b| >= 2 {
        DecodeTwo(b);
      }
    } else if b[0] < 0xc0 {
      if |b| >= 4 {
        DecodeFour(b);
      }
    } else if |b| >= 8 {
      DecodeEight(b);
    }
  }

  lemma Be3(v: nat)
    ensures Be(v, 3) == [v / 0x1_0000 % 0x100, v / 0x100 % 0x100, v % 0x100]
  {
    assert v / 0x100 / 0x100 == v / 0x1_0000;
    assert Be(v / 0x1_0000, 1) == Be(v / 0x1_0000 / 0x100, 0) + [v / 0x1_0000 % 0x100];
    assert Be(v / 0x100, 2) == Be(v / 0x1_0000, 1) + [v / 0x100 % 0x100];
  }

  lemma Be7(v: nat)
    ensures Be(v, 7) == [v / 0x1_0000_0000_0000 % 0x100, v / 0x100_0000_0000 % 0x100, v / 0x1_0000_0000 % 0x100,
                         v / 0x100_0000 % 0x100, v / 0x1_0000 % 0x100, v / 0x100 % 0x100, v % 0x100]
  {
    Be3(v / 0x1_0000_0000);
    assert v / 0x1_0000_0000 / 0x1_0000 == v / 0x1_0000_0000_0000;
    assert v / 0x1_0000_0000 / 0x100 == v / 0x100_0000_0000;
    assert v / 0x100_0000 / 0x100 == v / 0x1_0000_0000;
    assert Be(v / 0x100_0000, 4) == Be(v / 0x1_0000_0000, 3) + [v / 0x100_0000 % 0x100];
    assert v / 0x1_0000 / 0x100 == v / 0x100_0000;
    assert Be(v / 0x1_0000, 5) == Be(v / 0x100_0000, 4) + [v / 0x1_0000 % 0x100];
    assert v / 0x100 / 0x100 == v / 0x1_0000;
    assert Be(v / 0x100, 6) == Be(v / 0x1_0000, 5) + [v / 0x100 % 0x100];
  }

  /** The low bytes of a value do not depend on the bytes above them. */
  lemma LowBytes(v: nat)
    ensures var w := v % 0x100_0000_0000_0000;
            && w / 0x1_0000_0000_0000 % 0x100 == v / 0x1_0000_0000_0000 % 0x100
            && w / 0x100_0000_0000 % 0x100 == v / 0x100_0000_0000 % 0x100
            && w / 0x1_0000_0000 % 0x100 == v / 0x1_0000_0000 % 0x100
            && w / 0x100_0000 % 0x100 == v / 0x100_0000 % 0x100
            && w / 0x1_0000 % 0x100 == v / 0x1_0000 % 0x100
            && w / 0x100 % 0x100 == v / 0x100 % 0x100
            && w % 0x100 == v % 0x100
  {
    var w, q := v % 0x100_0000_0000_0000, v / 0x100_0000_0000_0000;
    LowByte(v, w, q, 0x1_0000_0000_0000);
    LowByte(v, w, q * 0x100, 0x100_0000_0000);
    LowByte(v, w, q * 0x1_0000, 0x1_0000_0000);
    LowByte(v, w, q * 0x100_0000, 0x100_0000);
    LowByte(v, w, q * 0x1_0000_0000, 0x1_0000);
    LowByte(v, w, q * 0x100_0000_0000, 0x100);
    LowByte(v, w, q * 0x1_0000_0000_0000, 1);
  }

  /** What lies above a byte does not change it. */
  lemma LowByte(v: nat, w: nat, q: nat, d: nat)
    requires d > 0 && v == q * (0x100 * d) + w
    ensures v / d % 0x100 == w / d % 0x100
  {
    var x, r := w / d, w % d;
    assert w == d * x + r;
    assert v == d * (0x100 * q + x) + r;
    Quotient(v, d, 0x100 * q + x, r);
  }

  lemma Quotient(v: nat, d: nat, x: nat, r: nat)
    requires d > 0 && r < d && v == d * x + r
    ensures v / d == x
  {
    var y, s := v / d, v % d;
    assert v == d * y + s;
    var e := x - y;
    assert d * e == d * x - d * y;
    assert e >= 1 ==> d * e >= d;
    assert e < 0 ==> d * e + d <= 0;
  }

  /** AppendVarint, byte by byte. */
  method AppendVarint(b: seq<byte>, v: nat) returns (r: seq<byte>)
    requires v < 0x1_0000_0000_0000_0000
    ensures r == b + Encode(v)
  {
    if v < 0x40 {
      r := b + [v];
    } else if v < 0x4000 {
      r := b + [0x40 + v / 0x100, v % 0x100];
      assert Be(v % 0x100, 1) == Be(0, 0) + [v % 0x100];
    } else if v < 0x4000_0000 {
      r := b + [0x80 + v / 0x100_0000, v / 0x1_0000 % 0x100, v / 0x100 % 0x100, v % 0x100];
      Be3(v % 0x100_0000);
      LowBytes3(v);
    } else {
      r := b + [0xc0 + v / 0x100_0000_0000_0000 % 0x40, v / 0x1_0000_0000_0000 % 0x100, v / 0x100_0000_0000 % 0x100,
                v / 0x1_0000_0000 % 0x100, v / 0x100_0000 % 0x100, v / 0x1_0000 % 0x100, v / 0x100 % 0x100, v % 0x100];
      Be7(v % 0x100_0000_0000_0000);
      LowBytes(v);
    }
  }

  lemma LowBytes3(v: nat)
    ensures var w := v % 0x100_0000;
            && w / 0x1_0000 % 0x100 == v / 0x1_0000 % 0x100
            && w / 0x100 % 0x100 == v / 0x100 % 0x100
            && w % 0x100 == v % 0x100
  {
    var w, q := v % 0x100_0000, v / 0x100_0000;
    assert v == q * 0x100_0000 + w;
    assert v / 0x1_0000 == q * 0x100 + w / 0x1_0000;
    assert v / 0x100 == q * 0x1_0000 + w / 0x100;
  }

  /** ReadVarint, which folds the bytes after the first into a running value. */
  method ReadVarint(b: seq<byte>) returns (v: nat, n: nat)
    ensures Read(v, n) == Decode(b)
  {
    if |b| == 0 {
      return 0, 0;
    }
    n := Announced(b[0]);
    if |b| < n {
      return 0, 0;
    }
    v := b[0] % 0x40;
    for i := 1 to n
      invariant BigEndian(v, b[i..n]) == BigEndian(b[0] % 0x40, b[1..n])
    {
      assert b[i..n][0] == b[i] && b[i..n][1..] == b[i + 1..n];
      v := v * 0x100 + b[i];
    }
  }

  /** A varint off the front, as the reader takes it. */
  datatype Taken = NoMore | Taken(value: nat, rest: seq<byte>)

  function Take(b: seq<byte>): Taken {
    var r := Decode(b);
    if r.length == 0 then NoMore else Taken(r.value, b[r.length..])
  }

  /** reader: takes frames apart; the first failure sticks. */
  class Reader {
    var b: seq<byte>
    var bad: bool

    constructor (payload: seq<byte>)
      ensures b == payload && !bad
    {
      b, bad := payload, false;
    }

    method Varint() returns (v: nat)
      modifies this
      ensures var t := Take(old(b));
              if t.NoMore? then v == 0 && bad && b == [] else v == t.value && bad == old(bad) && b == t.rest
    {
      var n;
      v, n := ReadVarint(b);
      if n == 0 {
        bad := true;
        b := [];
        v := 0;
      } else {
        b := b[n..];
      }
    }
  }
}
