/** The Huffman coder of HPACK (section 5.2 of RFC 7541), for any code that has the shape of the
    one in appendix B. */
module Huffman {
  import opened Bytes
  import opened Bits

  /** The code of a byte is the low length bits of value. */
  datatype Word = Word(value: nat, length: nat)

  type Table = byte -> Word

  function Code(t: Table, c: byte): (w: seq<bool>)
    ensures |w| == t(c).length
  {
    BitsOf(t(c).value, t(c).length)
  }

  /** Words of 5 to 30 bits, none the start of another. */
  ghost predicate PrefixFree(t: Table) {
    && (forall c: byte :: 5 <= t(c).length <= 30 && t(c).value < Pow2(t(c).length))
    && (forall c: byte, d: byte :: Code(t, c) <= Code(t, d) ==> c == d)
  }

  /** Besides, any proper start of a word goes on with a zero, and padding is the start of a word. */
  ghost predicate Shaped(t: Table) {
    && PrefixFree(t)
    && (forall w: seq<bool> :: Proper(t, w) ==> Starts(t, w + [false]))
    && Proper(t, Ones(7))
  }

  /** w is the start of a word. */
  ghost predicate Starts(t: Table, w: seq<bool>) { exists c: byte :: w <= Code(t, c) }

  /** w is the start of a word and not all of it. */
  ghost predicate Proper(t: Table, w: seq<bool>) { exists c: byte :: w < Code(t, c) }

  /** w is a word. */
  ghost predicate Whole(t: Table, w: seq<bool>) { exists c: byte :: w == Code(t, c) }

  /** Every start of a word is either a whole word or a proper start, never both. */
  lemma WholeOrProper(t: Table, w: seq<bool>)
    requires Shaped(t)
    ensures Starts(t, w) <==> Whole(t, w) || Proper(t, w)
    ensures !(Whole(t, w) && Proper(t, w))
    ensures Starts(t, w) && w == [] ==> Proper(t, w)
  {
    forall c: byte, d: byte | w == Code(t, c) && w <= Code(t, d) ensures c == d {
    }
    if Starts(t, w) {
      var c: byte :| w <= Code(t, c);
      assert w == Code(t, c) || w < Code(t, c);
    }
  }

  // Encoding.

  /** All the words of s. */
  ghost function Words(t: Table, s: seq<byte>): seq<bool> {
    if s == [] then [] else Words(t, s[..|s| - 1]) + Code(t, s[|s| - 1])
  }

  lemma WordsSnoc(t: Table, s: seq<byte>, c: byte)
    ensures Words(t, s + [c]) == Words(t, s) + Code(t, c)
  {
    assert (s + [c])[..|s|] == s;
  }

  /** The ones that fill the last byte. */
  function Padding(bits: nat): (n: nat)
    ensures n < 8 && (bits + n) % 8 == 0
  {
    (8 - bits % 8) % 8
  }

  /** b is s as it is sent. */
  ghost predicate Codes(t: Table, s: seq<byte>, b: seq<byte>) {
    Flat(b) == Words(t, s) + Ones(Padding(|Words(t, s)|))
  }

  // Decoding, bit by bit.

  /** The symbols read and the bits since the last of them. */
  datatype Reading = Failed | TooLong | Reading(out: seq<byte>, w: seq<bool>)

  ghost function Symbol(t: Table, w: seq<bool>): (c: byte)
    requires Whole(t, w)
    ensures w == Code(t, c)
  {
    var c: byte :| w == Code(t, c);
    c
  }

  ghost function ReadBit(t: Table, maxLen: nat, r: Reading, bit: bool): Reading {
    if !r.Reading? then r
    else if !Starts(t, r.w + [bit]) then Failed
    else if !Whole(t, r.w + [bit]) then Reading(r.out, r.w + [bit])
    else if maxLen > 0 && |r.out| + 1 > maxLen then TooLong
    else Reading(r.out + [Symbol(t, r.w + [bit])], [])
  }

  ghost function Read(t: Table, maxLen: nat, bits: seq<bool>): Reading {
    if bits == [] then Reading([], []) else ReadBit(t, maxLen, Read(t, maxLen, bits[..|bits| - 1]), bits[|bits| - 1])
  }

  datatype Decoded = ErrInvalidHuffman | ErrStringTooLong | Decoded(s: seq<byte>)

  /** What huffmanDecode makes of what it has read at the end. */
  ghost function Finish(r: Reading): Decoded {
    match r
    case Failed => ErrInvalidHuffman
    case TooLong => ErrStringTooLong
    case Reading(out, w) => if |w| > 7 || w != Ones(|w|) then ErrInvalidHuffman else Decoded(out)
  }

  ghost function Decode(t: Table, maxLen: nat, b: seq<byte>): Decoded { Finish(Read(t, maxLen, Flat(b))) }

  lemma ReadSnoc(t: Table, maxLen: nat, bits: seq<bool>, bit: bool)
    ensures Read(t, maxLen, bits + [bit]) == ReadBit(t, maxLen, Read(t, maxLen, bits), bit)
  {
    assert (bits + [bit])[..|bits|] == bits;
  }

  lemma EmptyIsProper(t: Table)
    requires Shaped(t)
    ensures Proper(t, [])
  {
    assert 0 < |Code(t, 0)|;
    assert [] < Code(t, 0);
  }

  /** What has been read is what the bits say. */
  lemma {:induction false} ReadIsSound(t: Table, maxLen: nat, bits: seq<bool>)
    requires Shaped(t)
    ensures var r := Read(t, maxLen, bits);
            r.Reading? ==> bits == Words(t, r.out) + r.w && Proper(t, r.w) && (maxLen > 0 ==> |r.out| <= maxLen)
  {
    if bits == [] {
      EmptyIsProper(t);
    } else {
      var init, bit := bits[..|bits| - 1], bits[|bits| - 1];
      ReadIsSound(t, maxLen, init);
      LastApart([], bits);
      var q := Read(t, maxLen, init);
      if q.Reading? && Starts(t, q.w + [bit]) {
        ReadBitIsSound(t, maxLen, init, q, bit);
      }
    }
  }

  lemma ReadBitIsSound(t: Table, maxLen: nat, init: seq<bool>, q: Reading, bit: bool)
    requires Shaped(t) && q.Reading? && init == Words(t, q.out) + q.w && (maxLen > 0 ==> |q.out| <= maxLen)
    ensures var r := ReadBit(t, maxLen, q, bit);
            r.Reading? ==> init + [bit] == Words(t, r.out) + r.w && Proper(t, r.w) && (maxLen > 0 ==> |r.out| <= maxLen)
  {
    var w := q.w + [bit];
    WholeOrProper(t, w);
    EmptyIsProper(t);
    assert init + [bit] == Words(t, q.out) + w;
    if Whole(t, w) {
      WordsSnoc(t, q.out, Symbol(t, w));
    }
  }

  lemma ReadBitPart(t: Table, maxLen: nat, out: seq<byte>, init: seq<bool>, bit: bool, w: seq<bool>, c: byte)
    requires Shaped(t) && w == init + [bit] && w <= Code(t, c)
    ensures var r := ReadBit(t, maxLen, Reading(out, init), bit);
            if w < Code(t, c) then r == Reading(out, w)
            else if maxLen > 0 && |out| + 1 > maxLen then r == TooLong else r == Reading(out + [c], [])
  {
    WholeOrProper(t, w);
    if w == Code(t, c) {
      assert Whole(t, w) && Code(t, c) <= Code(t, Symbol(t, w));
    }
  }

  lemma LastApart<T>(a: seq<T>, b: seq<T>)
    requires b != []
    ensures a + b == (a + b[..|b| - 1]) + [b[|b| - 1]] && b == b[..|b| - 1] + [b[|b| - 1]]
  {
  }

  /** Part of a word is read without effect, and all of it as its symbol. */
  lemma {:induction false} ReadPart(t: Table, maxLen: nat, bits: seq<bool>, w: seq<bool>, c: byte)
    requires Shaped(t) && w <= Code(t, c)
    requires Read(t, maxLen, bits).Reading? && Read(t, maxLen, bits).w == []
    ensures var q, r := Read(t, maxLen, bits), Read(t, maxLen, bits + w);
            if w < Code(t, c) then r == Reading(q.out, w)
            else if maxLen > 0 && |q.out| + 1 > maxLen then r == TooLong else r == Reading(q.out + [c], [])
    decreases |w|
  {
    if w == [] {
      assert bits + w == bits;
    } else {
      var init, bit := w[..|w| - 1], w[|w| - 1];
      ReadPart(t, maxLen, bits, init, c);
      LastApart(bits, w);
      ReadSnoc(t, maxLen, bits + init, bit);
      ReadBitPart(t, maxLen, Read(t, maxLen, bits).out, init, bit, w, c);
    }
  }

  lemma {:induction false} StuckReading(t: Table, maxLen: nat, a: seq<bool>, b: seq<bool>)
    requires !Read(t, maxLen, a).Reading?
    ensures Read(t, maxLen, a + b) == Read(t, maxLen, a)
    decreases |b|
  {
    if b == [] {
      assert a + b == a;
    } else {
      StuckReading(t, maxLen, a, b[..|b| - 1]);
      assert a + b == (a + b[..|b| - 1]) + [b[|b| - 1]];
      ReadSnoc(t, maxLen, a + b[..|b| - 1], b[|b| - 1]);
    }
  }

  /** The words of s read as s, or as too long. */
  lemma {:induction false} ReadWords(t: Table, maxLen: nat, s: seq<byte>)
    requires Shaped(t)
    ensures Read(t, maxLen, Words(t, s)) == if maxLen > 0 && |s| > maxLen then TooLong else Reading(s, [])
  {
    if s != [] {
      var init, c := s[..|s| - 1], s[|s| - 1];
      ReadWords(t, maxLen, init);
      LastApart([], s);
      if maxLen > 0 && |init| > maxLen {
        StuckReading(t, maxLen, Words(t, init), Code(t, c));
      } else {
        ReadPart(t, maxLen, Words(t, init), Code(t, c), c);
      }
    }
  }

  /** Padding is read without effect. */
  lemma ReadPadded(t: Table, maxLen: nat, s: seq<byte>, pad: nat)
    requires Shaped(t) && pad < 8
    ensures Finish(Read(t, maxLen, Words(t, s) + Ones(pad)))
         == if maxLen > 0 && |s| > maxLen then ErrStringTooLong else Decoded(s)
  {
    ReadWords(t, maxLen, s);
    if maxLen > 0 && |s| > maxLen {
      StuckReading(t, maxLen, Words(t, s), Ones(pad));
    } else {
      var c: byte :| Ones(7) < Code(t, c);
      OnesPrefix(pad, 7);
      ReadPart(t, maxLen, Words(t, s), Ones(pad), c);
    }
  }

  lemma {:induction false} OnesPrefix(a: nat, b: nat)
    requires a <= b
    ensures Ones(a) <= Ones(b)
  {
    if a < b {
      OnesPrefix(a, b - 1);
    }
  }

  lemma PaddingIs(bits: nat, n: nat, bytes: nat)
    requires n < 8 && bits + n == 8 * bytes
    ensures n == Padding(bits)
  {
  }

  lemma DecodeOfCodes(t: Table, maxLen: nat, b: seq<byte>, s: seq<byte>)
    requires Shaped(t) && Codes(t, s, b)
    ensures Decode(t, maxLen, b) == if maxLen > 0 && |s| > maxLen then ErrStringTooLong else Decoded(s)
  {
    ReadPadded(t, maxLen, s, Padding(|Words(t, s)|));
  }

  lemma CodesOfDecode(t: Table, maxLen: nat, b: seq<byte>)
    requires Shaped(t) && Decode(t, maxLen, b).Decoded?
    ensures var s := Decode(t, maxLen, b).s; Codes(t, s, b) && (maxLen == 0 || |s| <= maxLen)
  {
    ReadIsSound(t, maxLen, Flat(b));
    var r := Read(t, maxLen, Flat(b));
    PaddingIs(|Words(t, r.out)|, |r.w|, |b|);
  }

  /** Decoding is exactly the inverse of encoding: it succeeds with s on the encoding of s, when
      that is not too long, and on nothing else. */
  lemma DecodeIffCodes(t: Table, maxLen: nat, b: seq<byte>, s: seq<byte>)
    requires Shaped(t)
    ensures Decode(t, maxLen, b) == Decoded(s) <==> Codes(t, s, b) && (maxLen == 0 || |s| <= maxLen)
    ensures Codes(t, s, b) && 0 < maxLen < |s| ==> Decode(t, maxLen, b) == ErrStringTooLong
  {
    if Codes(t, s, b) {
      DecodeOfCodes(t, maxLen, b, s);
    } else if Decode(t, maxLen, b).Decoded? {
      CodesOfDecode(t, maxLen, b);
    }
  }
}
