/** The Encoder and the Decoder as objects that update their tables in place. */
module HpackCoders {
  import opened Bytes
  import opened Bits
  import opened Huffman
  import HuffmanDecoder
  import HuffmanEncoder
  import opened HpackInt
  import opened HpackString
  import opened HpackTable
  import opened HpackCodec
  import opened HpackSync

  /** The maps that init fills from the end of the static table, so that the first entry wins. */
  method BuildIndex(st: seq<Field>) returns (pairs: map<Field, nat>, names: map<seq<byte>, nat>)
    ensures Indexes(st, pairs, names)
  {
    pairs, names := map[], map[];
    var i := |st|;
    while i > 0
      invariant 0 <= i <= |st|
      invariant forall f ::
                  (f in pairs <==> FirstPair(st, f, i) != 0) && (f in pairs ==> pairs[f] == FirstPair(st, f, i))
      invariant forall s ::
                  (s in names <==> FirstName(st, s, i) != 0) && (s in names ==> names[s] == FirstName(st, s, i))
    {
      i := i - 1;
      names := names[st[i].name := i + 1];
      pairs := pairs[st[i] := i + 1];
    }
  }

  /** w writes what the encoder writes. */
  ghost predicate Writes(w: Wire, t: Table) {
    && (forall first: nat, n: nat, v: nat {:trigger EncodeInt(first, n, v)} ::
          n <= 8 && first + Pow2(n) <= 256 ==> w.putInt(first, n, v) == EncodeInt(first, n, v))
    && (forall s {:trigger EncodeString(t, s)} :: w.putString(s) == EncodeString(t, s))
  }

  lemma PutAppend(w: Wire, i: Instr, rest: seq<byte>)
    ensures Put(w, i, rest) == Put(w, i, []) + rest
  {
  }

  method PutIndexed(dst: seq<byte>, ghost w: Wire, ghost t: Table, index: nat) returns (out: seq<byte>)
    requires Writes(w, t)
    ensures out == dst + Put(w, Indexed(index), [])
  {
    assert Pow2(7) == 0x80;
    out := AppendInt(dst, 0x80, 7, index);
    assert out == dst + w.putInt(0x80, 7, index);
  }

  method PutSize(dst: seq<byte>, ghost w: Wire, ghost t: Table, size: nat) returns (out: seq<byte>)
    requires Writes(w, t)
    ensures out == dst + Put(w, SizeUpdate(size), [])
  {
    assert Pow2(5) == 0x20;
    out := AppendInt(dst, 0x20, 5, size);
    assert out == dst + w.putInt(0x20, 5, size);
  }

  method PutPrefix(dst: seq<byte>, ghost w: Wire, ghost t: Table, kind: Kind, nameIndex: nat) returns (out: seq<byte>)
    requires Writes(w, t)
    ensures out == dst + w.putInt(First(kind), Width(kind), nameIndex)
  {
    assert Pow2(4) == 0x10 && Pow2(6) == 0x40;
    match kind
    case NeverIndexed => out := AppendInt(dst, 0x10, 4, nameIndex);
    case Plain => out := AppendInt(dst, 0, 4, nameIndex);
    case Indexing => out := AppendInt(dst, 0x40, 6, nameIndex);
  }

  method PutLiteral(dst: seq<byte>, ghost w: Wire, t: Table, kind: Kind, nameIndex: nat, f: Field)
    returns (out: seq<byte>)
    requires Writes(w, t) && HuffmanEncoder.Fits(t)
    ensures out == dst + Put(w, Literal(kind, nameIndex, f), [])
  {
    out := PutPrefix(dst, w, t, kind, nameIndex);
    ghost var head := w.putInt(First(kind), Width(kind), nameIndex);
    if nameIndex == 0 {
      out := AppendString(t, out, f.name);
      out := AppendString(t, out, f.value);
      Regroup(dst, head, w.putString(f.name), w.putString(f.value));
    } else {
      out := AppendString(t, out, f.value);
      Regroup(dst, head, w.putString(f.value), []);
    }
  }

  lemma Regroup(a: seq<byte>, b: seq<byte>, c: seq<byte>, d: seq<byte>)
    ensures a + b + c + d == a + (b + (c + (d + []))) && a + b + c == a + (b + (c + []))
  {
  }

  class HeaderEncoder {
    const table: DynamicTable
    var pendingSize: bool
    var minPending: nat

    ghost function Value(): Encoder
      reads this, table
    {
      Encoder(table.Value(), pendingSize, minPending)
    }

    /** NewEncoder. */
    constructor ()
      ensures fresh(table) && table.Counted() && Value() == Init(DEFAULT_TABLE_SIZE).e
    {
      table := new DynamicTable(DEFAULT_TABLE_SIZE);
      pendingSize, minPending := false, 0;
    }

    method SetMaxSize(size: nat)
      requires table.Counted()
      modifies this, table
      ensures table.Counted() && Value() == SetMaxTableSize(old(Value()), size)
    {
      var n := if size > DEFAULT_TABLE_SIZE then DEFAULT_TABLE_SIZE else size;
      if n == table.maxSize {
        return;
      }
      if !pendingSize || n < minPending {
        minPending := n;
      }
      pendingSize := true;
      table.SetMaxSize(n);
    }

    /** Begin. */
    method Begin(dst: seq<byte>, ghost w: Wire, ghost t: Table) returns (out: seq<byte>)
      requires Writes(w, t)
      modifies this
      ensures out == dst + PutBegin(w, old(Value()), []) && Value() == old(Value()).(pending := false)
    {
      if !pendingSize {
        return dst;
      }
      pendingSize := false;
      out := dst;
      if minPending < table.maxSize {
        out := PutSize(out, w, t, minPending);
        PutAppend(w, SizeUpdate(minPending), Put(w, SizeUpdate(table.maxSize), []));
      }
      out := PutSize(out, w, t, table.maxSize);
    }

    /** The loop of AppendField. */
    method Find(st: seq<Field>, f: Field, nameIndex: nat) returns (r: Found)
      ensures r == Search(st, table.entries, |table.entries|, f, nameIndex)
    {
      var named: nat := nameIndex;
      var i := |table.entries|;
      while i > 0
        invariant 0 <= i <= |table.entries|
        invariant Search(st, table.entries, |table.entries|, f, nameIndex) == Search(st, table.entries, i, f, named)
      {
        i := i - 1;
        var g := table.entries[i];
        if g.name != f.name {
          continue;
        }
        var index := |st| + |table.entries| - i;
        if g.value == f.value {
          return Exact(index);
        }
        if named == 0 {
          named := index;
        }
      }
      r := Named(named);
    }

    /** AppendField, with pairs and names as BuildIndex makes them. */
    method AppendField(st: seq<Field>, pairs: map<Field, nat>, names: map<seq<byte>, nat>, t: Table, ghost w: Wire,
                       dst: seq<byte>, f: Field, sensitive: bool) returns (out: seq<byte>)
      requires table.Counted() && Writes(w, t) && HuffmanEncoder.Fits(t)
      requires (f in pairs <==> FirstPair(st, f, 0) != 0) && (f in pairs ==> pairs[f] == FirstPair(st, f, 0))
      requires (f.name in names <==> FirstName(st, f.name, 0) != 0)
            && (f.name in names ==> names[f.name] == FirstName(st, f.name, 0))
      modifies table`entries, table`size
      ensures var i := Choose(st, old(table.Value()), f, sensitive);
              table.Counted() && table.Value() == Effect(old(table.Value()), i) && out == dst + Put(w, i, [])
    {
      if f in pairs {
        out := PutIndexed(dst, w, t, pairs[f]);
        return;
      }
      var nameIndex := if f.name in names then names[f.name] else 0;
      var found := Find(st, f, nameIndex);
      if found.Exact? {
        out := PutIndexed(dst, w, t, found.index);
        return;
      }
      nameIndex := found.index;
      if sensitive {
        out := PutLiteral(dst, w, t, NeverIndexed, nameIndex, f);
      } else if Size(f) > table.maxSize / 2 {
        out := PutLiteral(dst, w, t, Plain, nameIndex, f);
      } else {
        out := PutLiteral(dst, w, t, Indexing, nameIndex, f);
        table.AddEntry(f);
      }
    }

    /** A whole header block: Begin, then AppendField for each header. */
    method EncodeBlock(st: seq<Field>, pairs: map<Field, nat>, names: map<seq<byte>, nat>, t: Table, ghost w: Wire,
                       hs: seq<Header>) returns (out: seq<byte>)
      requires table.Counted() && Writes(w, t) && HuffmanEncoder.Fits(t)
      requires Indexes(st, pairs, names)
      modifies this, table
      ensures out == PutBegin(w, old(Value()), PutFields(w, st, old(table.Value()), hs))
      ensures table.Counted() && Value() == Encoder(AfterFields(st, old(table.Value()), hs), false, old(minPending))
    {
      ghost var d := table.Value();
      out := Begin([], w, t);
      BeginAppend(w, old(Value()), PutFields(w, st, d, hs));
      ghost var all := PutBegin(w, old(Value()), PutFields(w, st, d, hs));
      assert out == PutBegin(w, old(Value()), []);
      var i := 0;
      assert hs[0..] == hs;
      while i < |hs|
        invariant 0 <= i <= |hs| && table.Counted() && !pendingSize && minPending == old(minPending)
        invariant out + PutFields(w, st, table.Value(), hs[i..]) == all
        invariant AfterFields(st, table.Value(), hs[i..]) == AfterFields(st, d, hs)
      {
        NextHeader(w, st, table.Value(), hs, i, out);
        out := AppendField(st, pairs, names, t, w, out, hs[i].f, hs[i].sensitive);
        i := i + 1;
      }
      assert out + [] == out;
    }
  }

  ghost predicate Indexes(st: seq<Field>, pairs: map<Field, nat>, names: map<seq<byte>, nat>) {
    && (forall f :: (f in pairs <==> FirstPair(st, f, 0) != 0) && (f in pairs ==> pairs[f] == FirstPair(st, f, 0)))
    && (forall s :: (s in names <==> FirstName(st, s, 0) != 0) && (s in names ==> names[s] == FirstName(st, s, 0)))
  }

  lemma BeginAppend(w: Wire, e: Encoder, rest: seq<byte>)
    ensures PutBegin(w, e, rest) == PutBegin(w, e, []) + rest
  {
    if e.pending {
      var max := SizeUpdate(e.table.maxSize);
      PutAppend(w, max, rest);
      PutAppend(w, SizeUpdate(e.minPending), Put(w, max, rest));
      PutAppend(w, SizeUpdate(e.minPending), Put(w, max, []));
    }
  }

  lemma NextHeader(w: Wire, st: seq<Field>, d: Dynamic, hs: seq<Header>, i: nat, out: seq<byte>)
    requires i < |hs|
    ensures var c := Choose(st, d, hs[i].f, hs[i].sensitive);
            && out + PutFields(w, st, d, hs[i..]) == out + Put(w, c, []) + PutFields(w, st, Effect(d, c), hs[i + 1..])
            && AfterFields(st, d, hs[i..]) == AfterFields(st, Effect(d, c), hs[i + 1..])
  {
    var c := Choose(st, d, hs[i].f, hs[i].sensitive);
    assert hs[i..][0] == hs[i] && hs[i..][1..] == hs[i + 1..];
    PutAppend(w, c, PutFields(w, st, Effect(d, c), hs[i + 1..]));
  }

  /** w reads what the decoder reads. */
  ghost predicate Reads(w: Wire, t: Table, maxLen: nat) {
    && Consumes(w)
    && (forall b, n: nat {:trigger ReadInt(b, n)} :: n <= 8 ==> w.getInt(b, n) == ReadInt(b, n))
    && (forall b {:trigger ReadString(t, maxLen, b)} :: w.getString(b) == ReadString(t, maxLen, b))
  }

  class HeaderDecoder {
    const table: DynamicTable
    const allowedMaxSize: nat
    const maxStringLength: nat

    /** NewDecoder. */
    constructor (maxTableSize: nat, maxLen: nat)
      ensures fresh(table) && table.Counted() && table.Value() == Init(maxTableSize).d
      ensures allowedMaxSize == maxTableSize && maxStringLength == maxLen
    {
      table := new DynamicTable(maxTableSize);
      allowedMaxSize, maxStringLength := maxTableSize, maxLen;
    }

    method ReadFieldValue(t: Table, tree: seq<HuffmanDecoder.Node>, ghost paths: seq<seq<bool>>, ghost w: Wire,
                          name: seq<byte>, b: seq<byte>) returns (r: LiteralRead)
      requires Shaped(t) && HuffmanDecoder.TreeOf(t, tree, paths) && Reads(w, t, maxStringLength)
      ensures r == ReadValue(w, name, b)
    {
      var value := TakeString(t, tree, paths, maxStringLength, b);
      match value
      case StringError(e) => r := LiteralError(e);
      case StringRead(s, rest) => r := LiteralRead(Field(name, s), rest);
    }

    /** readLiteral. */
    method TakeLiteral(st: seq<Field>, t: Table, tree: seq<HuffmanDecoder.Node>, ghost paths: seq<seq<bool>>,
                       ghost w: Wire, b: seq<byte>, n: nat) returns (r: LiteralRead)
      requires 1 <= n <= 8 && Shaped(t) && HuffmanDecoder.TreeOf(t, tree, paths) && Reads(w, t, maxStringLength)
      ensures r == ReadLiteral(w, st, table.Value(), b, n)
    {
      var index := ReadPrefixed(b, n);
      match index
      case IntTruncated => r := LiteralError(Truncated);
      case IntOverflow => r := LiteralError(Overflow);
      case IntRead(i, rest) =>
        if i > 0 {
          var named := table.FieldAt(st, i);
          if named == [] {
            return LiteralError(InvalidIndex);
          }
          r := ReadFieldValue(t, tree, paths, w, named[0].name, rest);
        } else {
          var name := TakeString(t, tree, paths, maxStringLength, rest);
          match name
          case StringError(e) => r := LiteralError(e);
          case StringRead(s, rest2) => r := ReadFieldValue(t, tree, paths, w, s, rest2);
        }
    }

    /** One representation of a block. The table becomes the one that Get says. */
    method TakeOne(st: seq<Field>, t: Table, tree: seq<HuffmanDecoder.Node>, ghost paths: seq<seq<bool>>, ghost w: Wire,
                   start: bool, b: seq<byte>) returns (one: One)
      requires b != [] && table.Counted()
      requires Shaped(t) && HuffmanDecoder.TreeOf(t, tree, paths) && Reads(w, t, maxStringLength)
      modifies table
      ensures table.Counted() && one == Get(w, st, allowedMaxSize, old(table.Value()), start, b)
      ensures table.Value() == if one.Bad? then old(table.Value()) else one.d
    {
      if b[0] >= 0x80 {
        var index := ReadPrefixed(b, 7);
        match index
        case IntTruncated => one := Bad(Truncated);
        case IntOverflow => one := Bad(Overflow);
        case IntRead(i, rest) =>
          var f := table.FieldAt(st, i);
          one := if f == [] then Bad(InvalidIndex) else Emits(f[0], Dynamic(table.entries, table.maxSize), rest);
      } else if b[0] >= 0x40 {
        var l := TakeLiteral(st, t, tree, paths, w, b, 6);
        match l
        case LiteralError(e) => one := Bad(e);
        case LiteralRead(f, rest) =>
          table.AddEntry(f);
          one := Emits(f, Dynamic(table.entries, table.maxSize), rest);
      } else if b[0] >= 0x20 {
        if !start {
          return Bad(InvalidSizeUpdate);
        }
        var size := ReadPrefixed(b, 5);
        match size
        case IntTruncated => one := Bad(Truncated);
        case IntOverflow => one := Bad(Overflow);
        case IntRead(n, rest) =>
          if n > allowedMaxSize {
            return Bad(InvalidSizeUpdate);
          }
          table.SetMaxSize(n);
          one := Resizes(Dynamic(table.entries, table.maxSize), rest);
      } else {
        var l := TakeLiteral(st, t, tree, paths, w, b, 4);
        match l
        case LiteralError(e) => one := Bad(e);
        case LiteralRead(f, rest) => one := Emits(f, Dynamic(table.entries, table.maxSize), rest);
      }
    }

    /** Decode, with an emit that takes every field. */
    method DecodeBlock(st: seq<Field>, t: Table, tree: seq<HuffmanDecoder.Node>, ghost paths: seq<seq<bool>>,
                       ghost w: Wire, block: seq<byte>) returns (fields: seq<Field>, ok: bool, error: Error)
      requires table.Counted() && Shaped(t) && HuffmanDecoder.TreeOf(t, tree, paths) && Reads(w, t, maxStringLength)
      modifies table
      ensures table.Counted()
      ensures Block(fields, table.Value(), ok, error)
                == HpackCodec.Decode(w, st, allowedMaxSize, old(table.Value()), true, block)
    {
      fields := [];
      var start, b := true, block;
      ghost var all := HpackCodec.Decode(w, st, allowedMaxSize, table.Value(), true, block);
      FurtherNone(all);
      while b != []
        invariant table.Counted()
        invariant all == Further(fields, HpackCodec.Decode(w, st, allowedMaxSize, table.Value(), start, b))
        decreases |b|
      {
        DecodeStep(w, st, allowedMaxSize, table.Value(), start, b, fields, all);
        var one := TakeOne(st, t, tree, paths, w, start, b);
        match one
        case Bad(e) => return fields, false, e;
        case Resizes(_, rest) => b := rest;
        case Emits(f, d, rest) =>
          b, fields, start := rest, fields + [f], false;
      }
      return fields, true, Truncated;
    }
  }

  ghost function Further(fields: seq<Field>, more: Block): Block { more.(fields := fields + more.fields) }

  lemma FurtherNone(more: Block)
    ensures Further([], more) == more
  {
    assert [] + more.fields == more.fields;
  }

  /** One representation takes the decoder one step on in all that b holds. */
  lemma DecodeStep(w: Wire, st: seq<Field>, allowed: nat, d: Dynamic, start: bool, b: seq<byte>, fields: seq<Field>,
                   all: Block)
    requires b != [] && Consumes(w) && all == Further(fields, HpackCodec.Decode(w, st, allowed, d, start, b))
    ensures var one := Get(w, st, allowed, d, start, b);
            && (one.Bad? ==> all == Block(fields, d, false, one.error))
            && (one.Resizes? ==>
                  |one.rest| < |b| && all == Further(fields, HpackCodec.Decode(w, st, allowed, one.d, start, one.rest)))
            && (one.Emits? ==>
                  && |one.rest| < |b|
                  && all == Further(fields + [one.f], HpackCodec.Decode(w, st, allowed, one.d, false, one.rest)))
  {
    var one := Get(w, st, allowed, d, start, b);
    GetConsumes(w, st, allowed, d, start, b);
    assert fields + [] == fields;
    if one.Emits? {
      FurtherStep(fields, one.f, HpackCodec.Decode(w, st, allowed, one.d, false, one.rest));
    }
  }

  lemma FurtherStep(fields: seq<Field>, f: Field, more: Block)
    ensures Further(fields, more.(fields := [f] + more.fields)) == Further(fields + [f], more)
  {
    assert fields + ([f] + more.fields) == fields + [f] + more.fields;
  }
}
