/** What a header block means, representation by representation (sections 3.2, 4.2 and 6 of RFC 7541): the decoder on
    blocks of any encoder, not only of the one modelled here. */
module HpackBlocks {
  import opened Bytes
  import opened HpackString
  import opened HpackTable
  import opened HpackCodec
  import opened HpackSync
  import opened Hpack

  /** The field that a representation stands for in a table, if any. */
  function Meaning(st: seq<Field>, d: Dynamic, i: Instr): seq<Field> {
    match i
    case Indexed(index) => d.Lookup(st, index)
    case Literal(_, nameIndex, f) =>
      if nameIndex == 0 then [f]
      else if d.Lookup(st, nameIndex) == [] then [] else [Field(d.Lookup(st, nameIndex)[0].name, f.value)]
    case SizeUpdate(_) => []
  }

  /** A block: sizes first and within the limit, every reference to an entry that is there, and literals with
      indexing into the table. Up to the first error everything counts. */
  function Interpret(st: seq<Field>, allowed: nat, d: Dynamic, start: bool, block: seq<Instr>): Block
    decreases |block|
  {
    if block == [] then Block([], d, true, Truncated)
    else if block[0].SizeUpdate? then
      if !start || block[0].size > allowed then Block([], d, false, InvalidSizeUpdate)
      else Interpret(st, allowed, d.SetMax(block[0].size), true, block[1..])
    else
      var f := Meaning(st, d, block[0]);
      if f == [] then Block([], d, false, InvalidIndex)
      else
        var indexing := block[0].Literal? && block[0].kind.Indexing?;
        var more := Interpret(st, allowed, if indexing then d.Add(f[0]) else d, false, block[1..]);
        more.(fields := f + more.fields)
  }

  function PutAll(w: Wire, block: seq<Instr>): seq<byte> {
    if block == [] then [] else Put(w, block[0], PutAll(w, block[1..]))
  }

  /** Numbers that the reader takes, and strings that it accepts. */
  ghost predicate Writable(i: Instr, short: seq<byte> -> bool) {
    match i
    case Indexed(index) => index < 0x10000
    case Literal(_, nameIndex, f) => nameIndex < 0x10000 && short(f.value) && (nameIndex == 0 ==> short(f.name))
    case SizeUpdate(size) => size < 0x10000
  }

  /** A literal that refers to a name: it is read as that name and its own value. */
  lemma ReadsNamed(w: Wire, short: seq<byte> -> bool, st: seq<Field>, d: Dynamic, i: Instr, rest: seq<byte>)
    requires Faithful(w, short) && i.Literal? && i.nameIndex > 0 && Writable(i, short)
    ensures ReadLiteral(w, st, d, Put(w, i, rest), Width(i.kind)) ==
            if Meaning(st, d, i) == [] then LiteralError(InvalidIndex) else LiteralRead(Meaning(st, d, i)[0], rest)
  {
    var tail := w.putString(i.f.value) + rest;
    assert StringBack(w, i.f.value, rest);
    assert IntBack(w, First(i.kind), Width(i.kind), if i.kind.Indexing? then 0x40 else 0x10, i.nameIndex, tail);
  }

  lemma ReadsWhole(w: Wire, short: seq<byte> -> bool, st: seq<Field>, d: Dynamic, i: Instr, rest: seq<byte>)
    requires Faithful(w, short) && i.Literal? && i.nameIndex == 0 && Writable(i, short)
    ensures ReadLiteral(w, st, d, Put(w, i, rest), Width(i.kind)) == LiteralRead(i.f, rest)
  {
    GetLiteral(w, short, st, d, i, i.f, rest);
  }

  /** One representation. */
  lemma GetMeans(w: Wire, short: seq<byte> -> bool, st: seq<Field>, allowed: nat, d: Dynamic, start: bool, i: Instr,
                 rest: seq<byte>)
    requires Faithful(w, short) && Writable(i, short) && !i.SizeUpdate?
    ensures var b := Put(w, i, rest);
            && b != []
            && Get(w, st, allowed, d, start, b) ==
               if Meaning(st, d, i) == [] then Bad(InvalidIndex)
               else Emits(Meaning(st, d, i)[0],
                          if i.Literal? && i.kind.Indexing? then d.Add(Meaning(st, d, i)[0]) else d, rest)
  {
    PutFirst(w, short, i, rest);
    if i.Indexed? {
      assert IntBack(w, 0x80, 7, 0x80, i.index, rest);
    } else if i.nameIndex == 0 {
      ReadsWhole(w, short, st, d, i, rest);
    } else {
      ReadsNamed(w, short, st, d, i, rest);
    }
  }

  lemma SizeMeans(w: Wire, short: seq<byte> -> bool, st: seq<Field>, allowed: nat, d: Dynamic, start: bool, size: nat,
                  rest: seq<byte>)
    requires Faithful(w, short) && size < 0x10000
    ensures var b := Put(w, SizeUpdate(size), rest);
            && b != []
            && Get(w, st, allowed, d, start, b) ==
               if !start || size > allowed then Bad(InvalidSizeUpdate) else Resizes(d.SetMax(size), rest)
  {
    PutFirst(w, short, SizeUpdate(size), rest);
    assert IntBack(w, 0x20, 5, 0x20, size, rest);
  }

  /** The decoder makes of every block what it means, whoever wrote it, the fields before an error included. */
  lemma {:induction false} BlockMeans(w: Wire, short: seq<byte> -> bool, st: seq<Field>, allowed: nat, d: Dynamic,
                                      start: bool, block: seq<Instr>)
    requires Faithful(w, short) && forall k :: 0 <= k < |block| ==> Writable(block[k], short)
    ensures Decode(w, st, allowed, d, start, PutAll(w, block)) == Interpret(st, allowed, d, start, block)
    decreases |block|
  {
    if block != [] {
      var i, rest := block[0], block[1..];
      if i.SizeUpdate? {
        SizeMeans(w, short, st, allowed, d, start, i.size, PutAll(w, rest));
        BlockMeans(w, short, st, allowed, d.SetMax(i.size), start, rest);
      } else {
        GetMeans(w, short, st, allowed, d, start, i, PutAll(w, rest));
        var f := Meaning(st, d, i);
        if f != [] {
          assert f == [f[0]];
          BlockMeans(w, short, st, allowed, if i.Literal? && i.kind.Indexing? then d.Add(f[0]) else d, false, rest);
        }
      }
    }
  }

  /** So with the tables and the wire format of RFC 7541. */
  lemma RealBlockMeans(maxLen: nat, allowed: nat, d: Dynamic, block: seq<Instr>)
    requires forall k :: 0 <= k < |block| ==> Writable(block[k], Short(maxLen))
    ensures Consumes(RealWire(maxLen))
    ensures Decode(RealWire(maxLen), STATIC, allowed, d, true, PutAll(RealWire(maxLen), block))
            == Interpret(STATIC, allowed, d, true, block)
  {
    RealWireIsFaithful(maxLen);
    BlockMeans(RealWire(maxLen), Short(maxLen), STATIC, allowed, d, true, block);
  }
}
