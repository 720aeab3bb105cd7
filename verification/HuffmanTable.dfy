/** The Huffman code of appendix B of RFC 7541 has the shape that the coder needs. */
module HuffmanTable {
  import opened Bytes
  import opened Arithmetic
  import opened Bits
  import opened Huffman
  import opened HuffmanTiling

  function Pick(i: nat, x0: nat, x1: nat, x2: nat, x3: nat, x4: nat, x5: nat, x6: nat,
                x7: nat, x8: nat, x9: nat, x10: nat, x11: nat, x12: nat, x13: nat, x14: nat, x15: nat): nat {
    if i == 0 then x0 else if i == 1 then x1 else if i == 2 then x2 else if i == 3 then x3 else if i == 4 then x4
    else if i == 5 then x5 else if i == 6 then x6 else if i == 7 then x7 else if i == 8 then x8 else if i == 9 then x9
    else if i == 10 then x10 else if i == 11 then x11 else if i == 12 then x12
    else if i == 13 then x13 else if i == 14 then x14 else x15
  }

  /** huffmanCodes. */
  function ValueOf(i: nat): nat {
    if i < 16 then Pick(i, 0x1ff8, 0x7fffd8, 0xfffffe2, 0xfffffe3, 0xfffffe4, 0xfffffe5, 0xfffffe6, 0xfffffe7,
           0xfffffe8, 0xffffea, 0x3ffffffc, 0xfffffe9, 0xfffffea, 0x3ffffffd, 0xfffffeb, 0xfffffec)
    else if i < 32 then Pick(i - 16, 0xfffffed, 0xfffffee, 0xfffffef, 0xffffff0, 0xffffff1, 0xffffff2, 0x3ffffffe,
      0xffffff3,
           0xffffff4, 0xffffff5, 0xffffff6, 0xffffff7, 0xffffff8, 0xffffff9, 0xffffffa, 0xffffffb)
    else if i < 48 then Pick(i - 32, 0x14, 0x3f8, 0x3f9, 0xffa, 0x1ff9, 0x15, 0xf8, 0x7fa,
           0x3fa, 0x3fb, 0xf9, 0x7fb, 0xfa, 0x16, 0x17, 0x18)
    else if i < 64 then Pick(i - 48, 0x0, 0x1, 0x2, 0x19, 0x1a, 0x1b, 0x1c, 0x1d,
           0x1e, 0x1f, 0x5c, 0xfb, 0x7ffc, 0x20, 0xffb, 0x3fc)
    else if i < 80 then Pick(i - 64, 0x1ffa, 0x21, 0x5d, 0x5e, 0x5f, 0x60, 0x61, 0x62,
           0x63, 0x64, 0x65, 0x66, 0x67, 0x68, 0x69, 0x6a)
    else if i < 96 then Pick(i - 80, 0x6b, 0x6c, 0x6d, 0x6e, 0x6f, 0x70, 0x71, 0x72,
           0xfc, 0x73, 0xfd, 0x1ffb, 0x7fff0, 0x1ffc, 0x3ffc, 0x22)
    else if i < 112 then Pick(i - 96, 0x7ffd, 0x3, 0x23, 0x4, 0x24, 0x5, 0x25, 0x26,
           0x27, 0x6, 0x74, 0x75, 0x28, 0x29, 0x2a, 0x7)
    else if i < 128 then Pick(i - 112, 0x2b, 0x76, 0x2c, 0x8, 0x9, 0x2d, 0x77, 0x78,
           0x79, 0x7a, 0x7b, 0x7ffe, 0x7fc, 0x3ffd, 0x1ffd, 0xffffffc)
    else if i < 144 then Pick(i - 128, 0xfffe6, 0x3fffd2, 0xfffe7, 0xfffe8, 0x3fffd3, 0x3fffd4, 0x3fffd5, 0x7fffd9,
           0x3fffd6, 0x7fffda, 0x7fffdb, 0x7fffdc, 0x7fffdd, 0x7fffde, 0xffffeb, 0x7fffdf)
    else if i < 160 then Pick(i - 144, 0xffffec, 0xffffed, 0x3fffd7, 0x7fffe0, 0xffffee, 0x7fffe1, 0x7fffe2, 0x7fffe3,
           0x7fffe4, 0x1fffdc, 0x3fffd8, 0x7fffe5, 0x3fffd9, 0x7fffe6, 0x7fffe7, 0xffffef)
    else if i < 176 then Pick(i - 160, 0x3fffda, 0x1fffdd, 0xfffe9, 0x3fffdb, 0x3fffdc, 0x7fffe8, 0x7fffe9, 0x1fffde,
           0x7fffea, 0x3fffdd, 0x3fffde, 0xfffff0, 0x1fffdf, 0x3fffdf, 0x7fffeb, 0x7fffec)
    else if i < 192 then Pick(i - 176, 0x1fffe0, 0x1fffe1, 0x3fffe0, 0x1fffe2, 0x7fffed, 0x3fffe1, 0x7fffee, 0x7fffef,
           0xfffea, 0x3fffe2, 0x3fffe3, 0x3fffe4, 0x7ffff0, 0x3fffe5, 0x3fffe6, 0x7ffff1)
    else if i < 208 then Pick(i - 192, 0x3ffffe0, 0x3ffffe1, 0xfffeb, 0x7fff1, 0x3fffe7, 0x7ffff2, 0x3fffe8, 0x1ffffec,
           0x3ffffe2, 0x3ffffe3, 0x3ffffe4, 0x7ffffde, 0x7ffffdf, 0x3ffffe5, 0xfffff1, 0x1ffffed)
    else if i < 224 then Pick(i - 208, 0x7fff2, 0x1fffe3, 0x3ffffe6, 0x7ffffe0, 0x7ffffe1, 0x3ffffe7, 0x7ffffe2,
      0xfffff2,
           0x1fffe4, 0x1fffe5, 0x3ffffe8, 0x3ffffe9, 0xffffffd, 0x7ffffe3, 0x7ffffe4, 0x7ffffe5)
    else if i < 240 then Pick(i - 224, 0xfffec, 0xfffff3, 0xfffed, 0x1fffe6, 0x3fffe9, 0x1fffe7, 0x1fffe8, 0x7ffff3,
           0x3fffea, 0x3fffeb, 0x1ffffee, 0x1ffffef, 0xfffff4, 0xfffff5, 0x3ffffea, 0x7ffff4)
    else Pick(i - 240, 0x3ffffeb, 0x7ffffe6, 0x3ffffec, 0x3ffffed, 0x7ffffe7, 0x7ffffe8, 0x7ffffe9, 0x7ffffea,
           0x7ffffeb, 0xffffffe, 0x7ffffec, 0x7ffffed, 0x7ffffee, 0x7ffffef, 0x7fffff0, 0x3ffffee)
  }

  /** huffmanCodeLen. */
  function LengthOf(i: nat): nat {
    if i < 16 then Pick(i, 13, 23, 28, 28, 28, 28, 28, 28, 28, 24, 30, 28, 28, 30, 28, 28)
    else if i < 32 then Pick(i - 16, 28, 28, 28, 28, 28, 28, 30, 28, 28, 28, 28, 28, 28, 28, 28, 28)
    else if i < 48 then Pick(i - 32, 6, 10, 10, 12, 13, 6, 8, 11, 10, 10, 8, 11, 8, 6, 6, 6)
    else if i < 64 then Pick(i - 48, 5, 5, 5, 6, 6, 6, 6, 6, 6, 6, 7, 8, 15, 6, 12, 10)
    else if i < 80 then Pick(i - 64, 13, 6, 7, 7, 7, 7, 7, 7, 7, 7, 7, 7, 7, 7, 7, 7)
    else if i < 96 then Pick(i - 80, 7, 7, 7, 7, 7, 7, 7, 7, 8, 7, 8, 13, 19, 13, 14, 6)
    else if i < 112 then Pick(i - 96, 15, 5, 6, 5, 6, 5, 6, 6, 6, 5, 7, 7, 6, 6, 6, 5)
    else if i < 128 then Pick(i - 112, 6, 7, 6, 5, 5, 6, 7, 7, 7, 7, 7, 15, 11, 14, 13, 28)
    else if i < 144 then Pick(i - 128, 20, 22, 20, 20, 22, 22, 22, 23, 22, 23, 23, 23, 23, 23, 24, 23)
    else if i < 160 then Pick(i - 144, 24, 24, 22, 23, 24, 23, 23, 23, 23, 21, 22, 23, 22, 23, 23, 24)
    else if i < 176 then Pick(i - 160, 22, 21, 20, 22, 22, 23, 23, 21, 23, 22, 22, 24, 21, 22, 23, 23)
    else if i < 192 then Pick(i - 176, 21, 21, 22, 21, 23, 22, 23, 23, 20, 22, 22, 22, 23, 22, 22, 23)
    else if i < 208 then Pick(i - 192, 26, 26, 20, 19, 22, 23, 22, 25, 26, 26, 26, 27, 27, 26, 24, 25)
    else if i < 224 then Pick(i - 208, 19, 21, 26, 27, 27, 26, 27, 24, 21, 21, 26, 26, 28, 27, 27, 27)
    else if i < 240 then Pick(i - 224, 20, 24, 20, 21, 22, 21, 21, 23, 22, 22, 25, 25, 24, 24, 26, 23)
    else Pick(i - 240, 26, 27, 26, 26, 27, 27, 27, 27, 27, 28, 27, 27, 27, 27, 27, 26)
  }

  function Rfc(c: byte): Word { Word(ValueOf(c), LengthOf(c)) }

  // The words in the order of their bits, which is that of their lengths.

  /** The place of a byte in that order. */
  function RankOf(i: nat): nat {
    if i < 16 then Pick(i, 84, 145, 224, 225, 226, 227, 228, 229, 230, 174, 253, 231, 232, 254, 233, 234)
    else if i < 32 then Pick(i - 16, 235, 236, 237, 238, 239, 240, 255, 241, 242, 243, 244, 245, 246, 247, 248, 249)
    else if i < 48 then Pick(i - 32, 10, 74, 75, 82, 85, 11, 68, 79, 76, 77, 69, 80, 70, 12, 13, 14)
    else if i < 64 then Pick(i - 48, 0, 1, 2, 15, 16, 17, 18, 19, 20, 21, 36, 71, 92, 22, 83, 78)
    else if i < 80 then Pick(i - 64, 86, 23, 37, 38, 39, 40, 41, 42, 43, 44, 45, 46, 47, 48, 49, 50)
    else if i < 96 then Pick(i - 80, 51, 52, 53, 54, 55, 56, 57, 58, 72, 59, 73, 87, 95, 88, 90, 24)
    else if i < 112 then Pick(i - 96, 93, 3, 25, 4, 26, 5, 27, 28, 29, 6, 60, 61, 30, 31, 32, 7)
    else if i < 128 then Pick(i - 112, 33, 62, 34, 8, 9, 35, 63, 64, 65, 66, 67, 94, 81, 91, 89, 250)
    else if i < 144 then Pick(i - 128, 98, 119, 99, 100, 120, 121, 122, 146, 123, 147, 148, 149, 150, 151, 175, 152)
    else if i < 160 then Pick(i - 144, 176, 177, 124, 153, 178, 154, 155, 156, 157, 106, 125, 158, 126, 159, 160, 179)
    else if i < 176 then Pick(i - 160, 127, 107, 101, 128, 129, 161, 162, 108, 163, 130, 131, 180, 109, 132, 164, 165)
    else if i < 192 then Pick(i - 176, 110, 111, 133, 112, 166, 134, 167, 168, 102, 135, 136, 137, 169, 138, 139, 170)
    else if i < 208 then Pick(i - 192, 190, 191, 103, 96, 140, 171, 141, 186, 192, 193, 194, 205, 206, 195, 181, 187)
    else if i < 224 then Pick(i - 208, 97, 113, 196, 207, 208, 197, 209, 182, 114, 115, 198, 199, 251, 210, 211, 212)
    else if i < 240 then Pick(i - 224, 104, 183, 105, 116, 142, 117, 118, 172, 143, 144, 188, 189, 184, 185, 200, 173)
    else Pick(i - 240, 201, 213, 202, 203, 214, 215, 216, 217, 218, 252, 219, 220, 221, 222, 223, 204)
  }

  /** The byte at a place. */
  function ByteAt(i: nat): nat {
    if i < 16 then Pick(i, 48, 49, 50, 97, 99, 101, 105, 111, 115, 116, 32, 37, 45, 46, 47, 51)
    else if i < 32 then Pick(i - 16, 52, 53, 54, 55, 56, 57, 61, 65, 95, 98, 100, 102, 103, 104, 108, 109)
    else if i < 48 then Pick(i - 32, 110, 112, 114, 117, 58, 66, 67, 68, 69, 70, 71, 72, 73, 74, 75, 76)
    else if i < 64 then Pick(i - 48, 77, 78, 79, 80, 81, 82, 83, 84, 85, 86, 87, 89, 106, 107, 113, 118)
    else if i < 80 then Pick(i - 64, 119, 120, 121, 122, 38, 42, 44, 59, 88, 90, 33, 34, 40, 41, 63, 39)
    else if i < 96 then Pick(i - 80, 43, 124, 35, 62, 0, 36, 64, 91, 93, 126, 94, 125, 60, 96, 123, 92)
    else if i < 112 then Pick(i - 96, 195, 208, 128, 130, 131, 162, 184, 194, 224, 226, 153, 161, 167, 172, 176, 177)
    else if i < 128 then Pick(i - 112, 179, 209, 216, 217, 227, 229, 230, 129, 132, 133, 134, 136, 146, 154, 156, 160)
    else if i < 144 then Pick(i - 128, 163, 164, 169, 170, 173, 178, 181, 185, 186, 187, 189, 190, 196, 198, 228, 232)
    else if i < 160 then Pick(i - 144, 233, 1, 135, 137, 138, 139, 140, 141, 143, 147, 149, 150, 151, 152, 155, 157)
    else if i < 176 then Pick(i - 160, 158, 165, 166, 168, 174, 175, 180, 182, 183, 188, 191, 197, 231, 239, 9, 142)
    else if i < 192 then Pick(i - 176, 144, 145, 148, 159, 171, 206, 215, 225, 236, 237, 199, 207, 234, 235, 192, 193)
    else if i < 208 then Pick(i - 192, 200, 201, 202, 205, 210, 213, 218, 219, 238, 240, 242, 243, 255, 203, 204, 211)
    else if i < 224 then Pick(i - 208, 212, 214, 221, 222, 223, 241, 244, 245, 246, 247, 248, 250, 251, 252, 253, 254)
    else if i < 240 then Pick(i - 224, 2, 3, 4, 5, 6, 7, 8, 11, 12, 14, 15, 16, 17, 18, 19, 20)
    else Pick(i - 240, 21, 23, 24, 25, 26, 27, 28, 29, 30, 31, 127, 220, 249, 10, 13, 22)
  }

  /** Words of one length have consecutive values from first on. */
  datatype Run = Run(length: nat, first: nat, value: nat)

  function RunOf(k: nat): Run {
    if k < 10 then Run(5, 0, 0x0)
    else if k < 36 then Run(6, 10, 0x14)
    else if k < 68 then Run(7, 36, 0x5c)
    else if k < 74 then Run(8, 68, 0xf8)
    else if k < 79 then Run(10, 74, 0x3f8)
    else if k < 82 then Run(11, 79, 0x7fa)
    else if k < 84 then Run(12, 82, 0xffa)
    else if k < 90 then Run(13, 84, 0x1ff8)
    else if k < 92 then Run(14, 90, 0x3ffc)
    else if k < 95 then Run(15, 92, 0x7ffc)
    else if k < 98 then Run(19, 95, 0x7fff0)
    else if k < 106 then Run(20, 98, 0xfffe6)
    else if k < 119 then Run(21, 106, 0x1fffdc)
    else if k < 145 then Run(22, 119, 0x3fffd2)
    else if k < 174 then Run(23, 145, 0x7fffd8)
    else if k < 186 then Run(24, 174, 0xffffea)
    else if k < 190 then Run(25, 186, 0x1ffffec)
    else if k < 205 then Run(26, 190, 0x3ffffe0)
    else if k < 224 then Run(27, 205, 0x7ffffde)
    else if k < 253 then Run(28, 224, 0xfffffe2)
    else Run(30, 253, 0x3ffffffc)
  }

  /** Byte c stands at its place with the word of that place. */
  ghost predicate Placed(c: byte) {
    var k := RankOf(c);
    var r := RunOf(k);
    && k < 256 && ByteAt(k) == c && r.first <= k && 5 <= r.length <= 30
    && LengthOf(c) == r.length && ValueOf(c) == r.value + (k - r.first)
  }

  lemma Placed0(c: byte)
    requires c < 16
    ensures Placed(c)
  {
  }

  lemma Placed16(c: byte)
    requires 16 <= c < 32
    ensures Placed(c)
  {
  }

  lemma Placed32(c: byte)
    requires 32 <= c < 48
    ensures Placed(c)
  {
  }

  lemma Placed48(c: byte)
    requires 48 <= c < 64
    ensures Placed(c)
  {
  }

  lemma Placed64(c: byte)
    requires 64 <= c < 80
    ensures Placed(c)
  {
  }

  lemma Placed80(c: byte)
    requires 80 <= c < 96
    ensures Placed(c)
  {
  }

  lemma Placed96(c: byte)
    requires 96 <= c < 112
    ensures Placed(c)
  {
  }

  lemma Placed112(c: byte)
    requires 112 <= c < 128
    ensures Placed(c)
  {
  }

  lemma Placed128(c: byte)
    requires 128 <= c < 144
    ensures Placed(c)
  {
  }

  lemma Placed144(c: byte)
    requires 144 <= c < 160
    ensures Placed(c)
  {
  }

  lemma Placed160(c: byte)
    requires 160 <= c < 176
    ensures Placed(c)
  {
  }

  lemma Placed176(c: byte)
    requires 176 <= c < 192
    ensures Placed(c)
  {
  }

  lemma Placed192(c: byte)
    requires 192 <= c < 208
    ensures Placed(c)
  {
  }

  lemma Placed208(c: byte)
    requires 208 <= c < 224
    ensures Placed(c)
  {
  }

  lemma Placed224(c: byte)
    requires 224 <= c < 240
    ensures Placed(c)
  {
  }

  lemma Placed240(c: byte)
    requires 240 <= c
    ensures Placed(c)
  {
  }

  lemma At0(k: nat)
    requires k < 32
    ensures ByteAt(k) < 256 && RankOf(ByteAt(k)) == k
  {
  }

  lemma At32(k: nat)
    requires 32 <= k < 64
    ensures ByteAt(k) < 256 && RankOf(ByteAt(k)) == k
  {
  }

  lemma At64(k: nat)
    requires 64 <= k < 96
    ensures ByteAt(k) < 256 && RankOf(ByteAt(k)) == k
  {
  }

  lemma At96(k: nat)
    requires 96 <= k < 128
    ensures ByteAt(k) < 256 && RankOf(ByteAt(k)) == k
  {
  }

  lemma At128(k: nat)
    requires 128 <= k < 160
    ensures ByteAt(k) < 256 && RankOf(ByteAt(k)) == k
  {
  }

  lemma At160(k: nat)
    requires 160 <= k < 192
    ensures ByteAt(k) < 256 && RankOf(ByteAt(k)) == k
  {
  }

  lemma At192(k: nat)
    requires 192 <= k < 224
    ensures ByteAt(k) < 256 && RankOf(ByteAt(k)) == k
  {
  }

  lemma At224(k: nat)
    requires 224 <= k < 256
    ensures ByteAt(k) < 256 && RankOf(ByteAt(k)) == k
  {
  }

  lemma AllPlaced(c: byte)
    ensures Placed(c)
  {
    if c < 16 {
      Placed0(c);
    } else if c < 32 {
      Placed16(c);
    } else if c < 48 {
      Placed32(c);
    } else if c < 64 {
      Placed48(c);
    } else if c < 80 {
      Placed64(c);
    } else if c < 96 {
      Placed80(c);
    } else if c < 112 {
      Placed96(c);
    } else if c < 128 {
      Placed112(c);
    } else if c < 144 {
      Placed128(c);
    } else if c < 160 {
      Placed144(c);
    } else if c < 176 {
      Placed160(c);
    } else if c < 192 {
      Placed176(c);
    } else if c < 208 {
      Placed192(c);
    } else if c < 224 {
      Placed208(c);
    } else if c < 240 {
      Placed224(c);
    } else {
      Placed240(c);
    }
  }

  lemma AllAt(k: nat)
    requires k < 256
    ensures ByteAt(k) < 256 && RankOf(ByteAt(k)) == k
  {
    if k < 32 {
      At0(k);
    } else if k < 64 {
      At32(k);
    } else if k < 96 {
      At64(k);
    } else if k < 128 {
      At96(k);
    } else if k < 160 {
      At128(k);
    } else if k < 192 {
      At160(k);
    } else if k < 224 {
      At192(k);
    } else {
      At224(k);
    }
  }

  // The words side by side.

  /** Where the word at place k begins when all are drawn out to 30 bits. */
  function Left(k: nat): nat {
    if k >= 256 then 0x3fffffff else
    var r := RunOf(k);
    if r.length <= 30 && r.first <= k then Times(r.value + (k - r.first), Pow2(30 - r.length)) else 0
  }

  lemma Powers()
    ensures Pow2(0) == 1 && Pow2(2) == 4 && Pow2(3) == 8 && Pow2(4) == 0x10 && Pow2(5) == 0x20 && Pow2(6) == 0x40
    ensures Pow2(7) == 0x80 && Pow2(8) == 0x100 && Pow2(9) == 0x200 && Pow2(10) == 0x400 && Pow2(11) == 0x800
    ensures Pow2(15) == 0x8000 && Pow2(16) == 0x10000 && Pow2(17) == 0x20000 && Pow2(18) == 0x40000
    ensures Pow2(19) == 0x80000 && Pow2(20) == 0x100000 && Pow2(22) == 0x400000 && Pow2(23) == 0x800000
    ensures Pow2(24) == 0x1000000 && Pow2(25) == 0x2000000 && Pow2(30) == 0x40000000
  {
    assert Pow2(5) == 0x20;
    PowAdd(5, 5);
    PowAdd(10, 5);
    PowAdd(15, 5);
    PowAdd(20, 5);
    PowAdd(25, 5);
  }

  lemma Left0(k: nat)
    requires k < 36
    ensures Left(k + 1) == Left(k) + Pow2(30 - RunOf(k).length)
  {
    Powers();
  }

  lemma Left36(k: nat)
    requires 36 <= k < 74
    ensures Left(k + 1) == Left(k) + Pow2(30 - RunOf(k).length)
  {
    Powers();
  }

  lemma Left74(k: nat)
    requires 74 <= k < 90
    ensures Left(k + 1) == Left(k) + Pow2(30 - RunOf(k).length)
  {
    Powers();
  }

  lemma Left90(k: nat)
    requires 90 <= k < 104
    ensures Left(k + 1) == Left(k) + Pow2(30 - RunOf(k).length)
  {
    Powers();
  }

  lemma Left104(k: nat)
    requires 104 <= k < 145
    ensures Left(k + 1) == Left(k) + Pow2(30 - RunOf(k).length)
  {
    Powers();
  }

  lemma Left145(k: nat)
    requires 145 <= k < 190
    ensures Left(k + 1) == Left(k) + Pow2(30 - RunOf(k).length)
  {
    Powers();
  }

  lemma Left190(k: nat)
    requires 190 <= k < 224
    ensures Left(k + 1) == Left(k) + Pow2(30 - RunOf(k).length)
  {
    Powers();
  }

  lemma Left224(k: nat)
    requires 224 <= k < 256
    ensures Left(k + 1) == Left(k) + Pow2(30 - RunOf(k).length)
  {
    Powers();
  }

  lemma AllLeft(k: nat)
    requires k < 256
    ensures Left(k + 1) == Left(k) + Pow2(30 - RunOf(k).length)
  {
    if k < 36 {
      Left0(k);
    } else if k < 74 {
      Left36(k);
    } else if k < 90 {
      Left74(k);
    } else if k < 104 {
      Left90(k);
    } else if k < 145 {
      Left104(k);
    } else if k < 190 {
      Left145(k);
    } else if k < 224 {
      Left190(k);
    } else {
      Left224(k);
    }
  }

  function At(k: nat): byte {
    if k >= 256 then 0 else
    AllAt(k);
    ByteAt(k)
  }

  function Place(c: byte): nat { RankOf(c) }

  const RFC := Tiling(Place, At, Left)

  lemma TileFrom(t: Table, g: Tiling, k: nat, c: byte, r: Run)
    requires g.at(k) == c && g.place(c) == k && r.first <= k && 5 <= r.length <= 30
    requires t(c) == Word(r.value + (k - r.first), r.length)
    requires g.left(k) == Times(r.value + (k - r.first), Pow2(30 - r.length))
    requires g.left(k + 1) == g.left(k) + Pow2(30 - r.length)
    ensures TileOk(t, g, k)
  {
  }

  lemma TileHolds(k: nat)
    requires k < 256
    ensures TileOk(Rfc, RFC, k)
  {
    var c, r := At(k), RunOf(k);
    AllAt(k);
    AllPlaced(c);
    AllLeft(k);
    assert RFC.at(k) == c && RFC.place(c) == Place(c) && RFC.left(k) == Left(k) && RFC.left(k + 1) == Left(k + 1);
    TileFrom(Rfc, RFC, k, c, r);
  }

  lemma PlaceHolds(c: byte)
    ensures RFC.place(c) < 256 && RFC.at(RFC.place(c)) == c
  {
    AllPlaced(c);
    assert RFC.place(c) == Place(c) && RFC.at(RankOf(c)) == At(RankOf(c));
  }

  lemma EndsHold()
    ensures RFC.left(0) == 0 && RFC.left(256) == Pow2(30) - 1
  {
    Powers();
    assert RFC.left(0) == Left(0) && RFC.left(256) == Left(256);
  }

  /** The code of appendix B of RFC 7541 is one the coder can use. */
  lemma RfcIsShaped()
    ensures Shaped(Rfc)
  {
    forall k: nat | k < 256 ensures TileOk(Rfc, RFC, k) {
      TileHolds(k);
    }
    forall c: byte ensures RFC.place(c) < 256 && RFC.at(RFC.place(c)) == c {
      PlaceHolds(c);
    }
    EndsHold();
    SevenOnes();
    TiledIsShaped(Rfc, RFC, 33);
  }

  lemma SevenOnes()
    ensures Ones(7) < Code(Rfc, 33)
  {
    assert Rfc(33) == Word(0x3f8, 10);
    assert 0x3f8 == 0x7f * Pow2(3) + 0;
    BitsJoin(0x7f, 0, 7, 3);
    assert Pow2(7) == 0x80;
    BitsOfOnes(7);
  }
}
