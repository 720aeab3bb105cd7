/** Strings, Huffman coded when that is shorter (section 5.2 of RFC 7541). */
module HpackString {
  import opened Bytes
  import opened Bits
  import opened Huffman
  import HuffmanDecoder
  import HuffmanEncoder
  import opened HpackInt

  datatype Error = Truncated | Overflow | InvalidHuffman | StringTooLong | InvalidIndex | InvalidSizeUpdate

  datatype StringRead = StringError(error: Error) | StringRead(s: seq<byte>, rest: seq<byte>)

  /** What huffmanAppend appends. */
  ghost function Coded(t: Table, s: seq<byte>): (b: seq<byte>)
    ensures Codes(t, s, b)
  {
    var w := Words(t, s);
    Pack(w + Ones(Padding(|w|)))
  }

  /** What appendString appends. */
  ghost function EncodeString(t: Table, s: seq<byte>): seq<byte> {
    var b := Coded(t, s);
    assert Pow2(7) == 0x80;
    if |b| < |s| then EncodeInt(0x80, 7, |b|) + b else EncodeInt(0, 7, |s|) + s
  }

  /** readString after the length, when there is enough left. */
  ghost function Contents(t: Table, maxLen: nat, huffman: bool, raw: seq<byte>, rest: seq<byte>): StringRead {
    if !huffman then if maxLen > 0 && |raw| > maxLen then StringError(StringTooLong) else StringRead(raw, rest)
    else match Decode(t, maxLen, raw)
      case ErrInvalidHuffman => StringError(InvalidHuffman)
      case ErrStringTooLong => StringError(StringTooLong)
      case Decoded(s) => StringRead(s, rest)
  }

  /** readString. */
  ghost function ReadString(t: Table, maxLen: nat, b: seq<byte>): StringRead {
    match ReadInt(b, 7)
    case IntTruncated => StringError(Truncated)
    case IntOverflow => StringError(Overflow)
    case IntRead(length, rest) =>
      if length > |rest| then StringError(Truncated)
      else Contents(t, maxLen, b[0] >= 0x80, rest[..length], rest[length..])
  }

  /** One string: its length and its bytes. */
  lemma ReadLengthAndBytes(t: Table, maxLen: nat, first: nat, raw: seq<byte>, rest: seq<byte>)
    requires (first == 0 || first == 0x80) && |raw| < Refused(7)
    ensures first + Pow2(7) <= 256
    ensures ReadString(t, maxLen, EncodeInt(first, 7, |raw|) + raw + rest)
              == Contents(t, maxLen, first == 0x80, raw, rest)
  {
    assert Pow2(7) == 0x80;
    var b := EncodeInt(first, 7, |raw|) + (raw + rest);
    assert b == EncodeInt(first, 7, |raw|) + raw + rest;
    IntRoundTrip(first, 7, |raw|, raw + rest);
    assert (raw + rest)[..|raw|] == raw && (raw + rest)[|raw|..] == rest;
    assert b[0] == EncodeInt(first, 7, |raw|)[0];
  }

  /** readString recovers what appendString wrote, unless it is longer than allowed. */
  lemma StringRoundTrip(t: Table, maxLen: nat, s: seq<byte>, rest: seq<byte>)
    requires Shaped(t) && |s| < Refused(7)
    ensures ReadString(t, maxLen, EncodeString(t, s) + rest)
         == if maxLen > 0 && |s| > maxLen then StringError(StringTooLong) else StringRead(s, rest)
  {
    var b := Coded(t, s);
    if |b| < |s| {
      ReadLengthAndBytes(t, maxLen, 0x80, b, rest);
      DecodeOfCodes(t, maxLen, b, s);
    } else {
      ReadLengthAndBytes(t, maxLen, 0, s, rest);
    }
  }

  lemma OnlyCoded(t: Table, s: seq<byte>, b: seq<byte>)
    requires Codes(t, s, b)
    ensures b == Coded(t, s)
  {
    FlatInjective(b, Coded(t, s));
  }

  /** appendString. */
  method AppendString(t: Table, dst: seq<byte>, s: seq<byte>) returns (out: seq<byte>)
    requires HuffmanEncoder.Fits(t)
    ensures out == dst + EncodeString(t, s)
  {
    var n := HuffmanEncoder.Length(t, s);
    HuffmanEncoder.LengthIsExact(t, s, Coded(t, s));
    if n < |s| {
      out := AppendCoded(t, dst, s, n);
    } else {
      out := AppendRaw(dst, s);
    }
  }

  method AppendCoded(t: Table, dst: seq<byte>, s: seq<byte>, n: nat) returns (out: seq<byte>)
    requires HuffmanEncoder.Fits(t) && n == |Coded(t, s)|
    ensures 0x80 + Pow2(7) <= 256 && out == dst + (EncodeInt(0x80, 7, n) + Coded(t, s))
  {
    assert Pow2(7) == 0x80;
    var head := AppendInt(dst, 0x80, 7, n);
    out := HuffmanEncoder.Append(t, head, s);
    OnlyCoded(t, s, out[|head|..]);
    Joined(dst, EncodeInt(0x80, 7, n), head, out);
  }

  lemma Joined(a: seq<byte>, b: seq<byte>, head: seq<byte>, out: seq<byte>)
    requires head == a + b && head <= out
    ensures out == a + (b + out[|head|..])
  {
  }

  method AppendRaw(dst: seq<byte>, s: seq<byte>) returns (out: seq<byte>)
    ensures Pow2(7) <= 256 && out == dst + (EncodeInt(0, 7, |s|) + s)
  {
    assert Pow2(7) == 0x80;
    out := AppendInt(dst, 0, 7, |s|);
    out := out + s;
  }

  /** readString. */
  method TakeString(t: Table, tree: seq<HuffmanDecoder.Node>, ghost paths: seq<seq<bool>>, maxLen: nat,
                    block: seq<byte>)
    returns (r: StringRead)
    requires Shaped(t) && HuffmanDecoder.TreeOf(t, tree, paths)
    ensures r == ReadString(t, maxLen, block)
  {
    if block == [] {
      return StringError(Truncated);
    }
    var huffman := block[0] >= 0x80;
    var length := ReadPrefixed(block, 7);
    if length == IntTruncated {
      return StringError(Truncated);
    } else if length == IntOverflow {
      return StringError(Overflow);
    }
    if length.value > |length.rest| {
      return StringError(Truncated);
    }
    var raw, rest := length.rest[..length.value], length.rest[length.value..];
    if !huffman {
      if maxLen > 0 && |raw| > maxLen {
        return StringError(StringTooLong);
      }
      return StringRead(raw, rest);
    }
    var s := HuffmanDecoder.HuffmanDecode(t, tree, paths, raw, maxLen);
    match s
    case ErrInvalidHuffman => r := StringError(InvalidHuffman);
    case ErrStringTooLong => r := StringError(StringTooLong);
    case Decoded(out) => r := StringRead(out, rest);
  }
}
