/** The encoder and the decoder of the package at the two ends of a connection. */
module HpackExchange {
  import opened Bytes
  import HuffmanDecoder
  import HuffmanEncoder
  import HuffmanTable
  import opened HpackString
  import opened HpackTable
  import opened HpackSync
  import opened HpackCoders
  import Hpack

  /** The wire of the theorems is the one that the coders write and read. */
  lemma RealWireIsCoded(maxLen: nat)
    ensures Writes(Hpack.RealWire(maxLen), HuffmanTable.Rfc) && Reads(Hpack.RealWire(maxLen), HuffmanTable.Rfc, maxLen)
  {
    Hpack.RealWireIsFaithful(maxLen);
  }

  lemma RfcFits()
    ensures HuffmanEncoder.Fits(HuffmanTable.Rfc)
  {
    HuffmanTable.RfcIsShaped();
  }

  /** One header block from an encoder to a decoder: it decodes exactly if it fits the limit of the
      decoder, and then what was sent comes out and the two are in step again. */
  method Exchange(enc: HeaderEncoder, dec: HeaderDecoder, pairs: map<Field, nat>, names: map<seq<byte>, nat>,
                  tree: seq<HuffmanDecoder.Node>, ghost paths: seq<seq<bool>>, hs: seq<Header>)
    returns (fields: seq<Field>, ok: bool, error: Error)
    requires enc.table != dec.table && enc.table.Counted() && dec.table.Counted()
    requires InStep(enc.Value(), dec.table.Value(), dec.allowedMaxSize)
    requires Indexes(Hpack.STATIC, pairs, names) && HuffmanDecoder.TreeOf(HuffmanTable.Rfc, tree, paths)
    requires AllSendable(hs, Hpack.Short(dec.maxStringLength))
    modifies enc, enc.table, dec.table
    ensures enc.table.Counted() && dec.table.Counted()
    ensures ok == BlockFits(Hpack.STATIC, old(enc.Value()), hs, dec.allowedMaxSize)
    ensures ok ==> fields == Fields(hs) && InStep(enc.Value(), dec.table.Value(), dec.allowedMaxSize)
  {
    ghost var w := Hpack.RealWire(dec.maxStringLength);
    RealWireIsCoded(dec.maxStringLength);
    RfcFits();
    HuffmanTable.RfcIsShaped();
    Hpack.RealWireIsFaithful(dec.maxStringLength);
    assert |Hpack.STATIC| == 61;
    BlockRoundTrip(w, Hpack.Short(dec.maxStringLength), Hpack.STATIC, dec.allowedMaxSize, enc.Value(),
                   dec.table.Value(), hs);
    var block := enc.EncodeBlock(Hpack.STATIC, pairs, names, HuffmanTable.Rfc, w, hs);
    fields, ok, error := dec.DecodeBlock(Hpack.STATIC, HuffmanTable.Rfc, tree, paths, w, block);
  }
}
