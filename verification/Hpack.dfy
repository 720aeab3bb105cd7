/** HPACK as this repository runs it: the static table and the Huffman code of RFC 7541. */
module Hpack {
  import opened Bytes
  import opened Bits
  import Huffman
  import HuffmanTable
  import opened HpackInt
  import opened HpackString
  import opened HpackTable
  import opened HpackCodec
  import opened HpackSync

  function Ascii(s: string): seq<byte> { seq(|s|, i requires 0 <= i < |s| => s[i] as int % 256) }

  function Row(name: string, value: string): Field { Field(Ascii(name), Ascii(value)) }

  /** staticTable. */
  const STATIC: seq<Field> := [
    Row(":authority", ""), Row(":method", "GET"), Row(":method", "POST"), Row(":path", "/"),
    Row(":path", "/index.html"), Row(":scheme", "http"), Row(":scheme", "https"), Row(":status", "200"),
    Row(":status", "204"), Row(":status", "206"), Row(":status", "304"), Row(":status", "400"),
    Row(":status", "404"), Row(":status", "500"), Row("accept-charset", ""),
    Row("accept-encoding", "gzip, deflate"), Row("accept-language", ""), Row("accept-ranges", ""),
    Row("accept", ""), Row("access-control-allow-origin", ""), Row("age", ""), Row("allow", ""),
    Row("authorization", ""), Row("cache-control", ""), Row("content-disposition", ""),
    Row("content-encoding", ""), Row("content-language", ""), Row("content-length", ""),
    Row("content-location", ""), Row("content-range", ""), Row("content-type", ""), Row("cookie", ""),
    Row("date", ""), Row("etag", ""), Row("expect", ""), Row("expires", ""), Row("from", ""), Row("host", ""),
    Row("if-match", ""), Row("if-modified-since", ""), Row("if-none-match", ""), Row("if-range", ""),
    Row("if-unmodified-since", ""), Row("last-modified", ""), Row("link", ""), Row("location", ""),
    Row("max-forwards", ""), Row("proxy-authenticate", ""), Row("proxy-authorization", ""), Row("range", ""),
    Row("referer", ""), Row("refresh", ""), Row("retry-after", ""), Row("server", ""), Row("set-cookie", ""),
    Row("strict-transport-security", ""), Row("transfer-encoding", ""), Row("user-agent", ""), Row("vary", ""),
    Row("via", ""), Row("www-authenticate", "")]

  /** appendInt for the prefixes that HPACK has, and nothing for others. */
  function PutInt(first: nat, n: nat, value: nat): seq<byte> {
    if n <= 8 && first + Pow2(n) <= 256 then EncodeInt(first, n, value) else []
  }

  function GetInt(b: seq<byte>, n: nat): IntRead { if n <= 8 then ReadInt(b, n) else IntTruncated }

  /** The strings that get through: a Go string is far shorter than the first bound. */
  function Short(maxLen: nat): seq<byte> -> bool {
    (s: seq<byte>) => |s| < Refused(7) && (maxLen == 0 || |s| <= maxLen)
  }

  /** The bytes on the wire, for a decoder with this MaxStringLength. */
  ghost function RealWire(maxLen: nat): Wire {
    Wire(PutInt, s => EncodeString(HuffmanTable.Rfc, s), GetInt, b => ReadString(HuffmanTable.Rfc, maxLen, b))
  }

  lemma {:induction false} GroupsConsume(b: seq<byte>, value: nat, shift: nat)
    ensures var r := ReadGroups(b, value, shift); r.IntRead? ==> |r.rest| < |b|
    decreases |b|
  {
    if b != [] && b[0] >= 0x80 && shift + 7 < 56 {
      GroupsConsume(b[1..], value + b[0] % 0x80 * Pow2(shift), shift + 7);
    }
  }

  lemma IntConsumes(b: seq<byte>, n: nat)
    ensures GetInt(b, n).IntRead? ==> |GetInt(b, n).rest| < |b|
  {
    if n <= 8 && b != [] {
      GroupsConsume(b[1..], b[0] % Pow2(n), 0);
    }
  }

  lemma StringConsumes(t: Huffman.Table, maxLen: nat, b: seq<byte>)
    ensures var r := ReadString(t, maxLen, b); r.StringRead? ==> |r.rest| < |b|
  {
    IntConsumes(b, 7);
  }

  lemma SmallInts(first: nat, n: nat, span: nat, v: nat, rest: seq<byte>)
    requires PrefixOk(first, n, span) && v < 0x10000
    ensures var b := PutInt(first, n, v) + rest;
            GetInt(b, n) == IntRead(v, rest) && b != [] && first <= b[0] < first + span
  {
    assert Pow2(4) == 0x10 && Pow2(5) == 0x20 && Pow2(6) == 0x40 && Pow2(7) == 0x80;
    IntRoundTrip(first, n, v, rest);
    BigLimit();
    assert (PutInt(first, n, v) + rest)[0] == PutInt(first, n, v)[0];
  }

  lemma BigLimit()
    ensures Limit(0) >= 0x10000
  {
    LimitStep(0);
    LimitStep(7);
    LimitStep(14);
  }

  lemma RealWireIsFaithful(maxLen: nat)
    ensures Faithful(RealWire(maxLen), Short(maxLen))
  {
    var w := RealWire(maxLen);
    HuffmanTable.RfcIsShaped();
    forall b: seq<byte>, n: nat ensures w.getInt(b, n).IntRead? ==> |w.getInt(b, n).rest| < |b| {
      IntConsumes(b, n);
    }
    forall b ensures w.getString(b).StringRead? ==> |w.getString(b).rest| < |b| {
      StringConsumes(HuffmanTable.Rfc, maxLen, b);
    }
    forall first: nat, n: nat, span: nat, v: nat, rest | PrefixOk(first, n, span) && v < 0x10000
      ensures IntBack(w, first, n, span, v, rest)
    {
      SmallInts(first, n, span, v, rest);
    }
    forall s, rest | Short(maxLen)(s) ensures StringBack(w, s, rest) {
      StringRoundTrip(HuffmanTable.Rfc, maxLen, s, rest);
    }
  }

  /** For every run of size changes and header blocks and every limit of the decoder: all blocks decode
      exactly if they fit, as they do if the encoder is told of the limit, and then the decoder returns
      exactly the fields encoded and, once the encoder keeps to the limit, has the same table after
      each block. */
  lemma HeadersComeBack(maxLen: nat, allowed: nat, run: seq<Event>)
    requires RunSendable(run, Short(maxLen))
    ensures Consumes(RealWire(maxLen))
    ensures var s := Exec(RealWire(maxLen), STATIC, allowed, run);
            && s.ok == RunFits(STATIC, allowed, run) && (Told(run, allowed) ==> s.ok)
            && (s.ok ==>
                  && s.got == s.sent
                  && Total(s.d.entries) <= s.d.maxSize <= allowed && Total(s.e.table.entries) <= s.e.table.maxSize
                  && (!s.e.pending && s.e.table.maxSize <= allowed <= DEFAULT_TABLE_SIZE ==> s.e.table == s.d))
  {
    RealWireIsFaithful(maxLen);
    assert |STATIC| == 61;
    AlwaysInStep(RealWire(maxLen), Short(maxLen), STATIC, allowed, run);
    if Told(run, allowed) {
      ToldRunsFit(STATIC, allowed, run);
    }
    var s := Exec(RealWire(maxLen), STATIC, allowed, run);
    if s.ok && !s.e.pending && s.e.table.maxSize <= allowed <= DEFAULT_TABLE_SIZE {
      InStepIsEqual(s.e, s.d, allowed);
    }
  }

  /** The condition matters: a decoder whose limit is below the size of a field refuses the second block
      with it, unless the field is static or too large to be indexed. */
  lemma UntoldEncoderFails(maxLen: nat, allowed: nat, f: Field)
    requires Sendable(f, Short(maxLen)) && f !in STATIC && allowed < Size(f) <= DEFAULT_TABLE_SIZE / 2
    ensures Consumes(RealWire(maxLen))
    ensures var block := Send([Header(f, false)]); !Exec(RealWire(maxLen), STATIC, allowed, [block, block]).ok
  {
    RealWireIsFaithful(maxLen);
    assert |STATIC| == 61;
    FirstPairIs(STATIC, f, 0);
    UntoldFails(RealWire(maxLen), Short(maxLen), STATIC, allowed, f);
  }
}
