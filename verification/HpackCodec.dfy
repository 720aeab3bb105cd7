/** Header blocks: what the encoder writes for a field and what the decoder makes of it. */
module HpackCodec {
  import opened Bytes
  import opened HpackInt
  import opened HpackString
  import opened HpackTable

  /** Some way to write and to read integers and strings. */
  datatype Wire = Wire(
    putInt: (nat, nat, nat) -> seq<byte>, putString: seq<byte> -> seq<byte>,
    getInt: (seq<byte>, nat) -> IntRead, getString: seq<byte> -> StringRead)

  /** Reading consumes something. */
  ghost predicate Consumes(w: Wire) {
    && (forall b, n :: w.getInt(b, n).IntRead? ==> |w.getInt(b, n).rest| < |b|)
    && (forall b :: w.getString(b).StringRead? ==> |w.getString(b).rest| < |b|)
  }

  // What is written.

  datatype Kind = Indexing | Plain | NeverIndexed

  function First(k: Kind): nat { match k case Indexing => 0x40 case Plain => 0 case NeverIndexed => 0x10 }

  function Width(k: Kind): nat { if k.Indexing? then 6 else 4 }

  /** A representation: section 6 of RFC 7541. */
  datatype Instr =
    | Indexed(index: nat)
    | Literal(kind: Kind, nameIndex: nat, f: Field)
    | SizeUpdate(size: nat)

  /** The bytes of a representation, and then rest. */
  function Put(w: Wire, i: Instr, rest: seq<byte>): seq<byte> {
    match i
    case Indexed(index) => w.putInt(0x80, 7, index) + rest
    case Literal(kind, nameIndex, f) =>
      w.putInt(First(kind), Width(kind), nameIndex)
        + (if nameIndex == 0 then w.putString(f.name) + (w.putString(f.value) + rest) else w.putString(f.value) + rest)
    case SizeUpdate(size) => w.putInt(0x20, 5, size) + rest
  }

  /** The first place of f in the static table from i on, counted from one; zero if none. */
  function FirstPair(st: seq<Field>, f: Field, i: nat): nat
    decreases |st| - i
  {
    if i >= |st| then 0 else if st[i] == f then i + 1 else FirstPair(st, f, i + 1)
  }

  function FirstName(st: seq<Field>, name: seq<byte>, i: nat): nat
    decreases |st| - i
  {
    if i >= |st| then 0 else if st[i].name == name then i + 1 else FirstName(st, name, i + 1)
  }

  datatype Found = Exact(index: nat) | Named(index: nat)

  /** The loop of AppendField over the n oldest entries, from the newest of them. */
  function Search(st: seq<Field>, entries: seq<Field>, n: nat, f: Field, nameIndex: nat): Found
    requires n <= |entries|
  {
    if n == 0 then Named(nameIndex)
    else if entries[n - 1].name != f.name then Search(st, entries, n - 1, f, nameIndex)
    else
      var index := |st| + |entries| - (n - 1);
      if entries[n - 1].value == f.value then Exact(index)
      else Search(st, entries, n - 1, f, if nameIndex == 0 then index else nameIndex)
  }

  /** How AppendField represents f. */
  function Choose(st: seq<Field>, d: Dynamic, f: Field, sensitive: bool): Instr {
    var pair := FirstPair(st, f, 0);
    if pair != 0 then Indexed(pair) else
    match Search(st, d.entries, |d.entries|, f, FirstName(st, f.name, 0))
    case Exact(index) => Indexed(index)
    case Named(index) =>
      Literal(if sensitive then NeverIndexed else if Size(f) > d.maxSize / 2 then Plain else Indexing, index, f)
  }

  /** What a representation does to a dynamic table. */
  function Effect(d: Dynamic, i: Instr): Dynamic {
    match i
    case Indexed(_) => d
    case Literal(kind, _, f) => if kind.Indexing? then d.Add(f) else d
    case SizeUpdate(size) => d.SetMax(size)
  }

  // What is read.

  datatype LiteralRead = LiteralError(error: Error) | LiteralRead(f: Field, rest: seq<byte>)

  /** readLiteral. */
  function ReadLiteral(w: Wire, st: seq<Field>, d: Dynamic, b: seq<byte>, n: nat): LiteralRead {
    match w.getInt(b, n)
    case IntTruncated => LiteralError(Truncated)
    case IntOverflow => LiteralError(Overflow)
    case IntRead(index, rest) =>
      if index > 0 then
        var named := d.Lookup(st, index);
        if named == [] then LiteralError(InvalidIndex) else ReadValue(w, named[0].name, rest)
      else
        match w.getString(rest)
        case StringError(e) => LiteralError(e)
        case StringRead(name, rest) => ReadValue(w, name, rest)
  }

  function ReadValue(w: Wire, name: seq<byte>, b: seq<byte>): LiteralRead {
    match w.getString(b)
    case StringError(e) => LiteralError(e)
    case StringRead(value, rest) => LiteralRead(Field(name, value), rest)
  }

  /** One representation read: an error, a field, or a new table size. */
  datatype One = Bad(error: Error) | Emits(f: Field, d: Dynamic, rest: seq<byte>) | Resizes(d: Dynamic, rest: seq<byte>)

  function Get(w: Wire, st: seq<Field>, allowed: nat, d: Dynamic, start: bool, b: seq<byte>): One
    requires b != []
  {
    if b[0] >= 0x80 then
      match w.getInt(b, 7)
      case IntTruncated => Bad(Truncated)
      case IntOverflow => Bad(Overflow)
      case IntRead(index, rest) =>
        var f := d.Lookup(st, index);
        if f == [] then Bad(InvalidIndex) else Emits(f[0], d, rest)
    else if b[0] >= 0x40 then
      match ReadLiteral(w, st, d, b, 6)
      case LiteralError(e) => Bad(e)
      case LiteralRead(f, rest) => Emits(f, d.Add(f), rest)
    else if b[0] >= 0x20 then
      if !start then Bad(InvalidSizeUpdate) else
      match w.getInt(b, 5)
      case IntTruncated => Bad(Truncated)
      case IntOverflow => Bad(Overflow)
      case IntRead(size, rest) =>
        if size > allowed then Bad(InvalidSizeUpdate) else Resizes(d.SetMax(size), rest)
    else
      match ReadLiteral(w, st, d, b, 4)
      case LiteralError(e) => Bad(e)
      case LiteralRead(f, rest) => Emits(f, d, rest)
  }

  lemma GetConsumes(w: Wire, st: seq<Field>, allowed: nat, d: Dynamic, start: bool, b: seq<byte>)
    requires b != [] && Consumes(w)
    ensures var one := Get(w, st, allowed, d, start, b); !one.Bad? ==> |one.rest| < |b|
  {
  }

  /** The fields of a block, the table after it, and whether it ended in an error. */
  datatype Block = Block(fields: seq<Field>, d: Dynamic, ok: bool, error: Error)

  /** Decode. */
  ghost function Decode(w: Wire, st: seq<Field>, allowed: nat, d: Dynamic, start: bool, b: seq<byte>): Block
    requires Consumes(w)
    decreases |b|
  {
    if b == [] then Block([], d, true, Truncated) else
    var one := Get(w, st, allowed, d, start, b);
    GetConsumes(w, st, allowed, d, start, b);
    match one
    case Bad(e) => Block([], d, false, e)
    case Resizes(d, rest) => Decode(w, st, allowed, d, start, rest)
    case Emits(f, d, rest) =>
      var more := Decode(w, st, allowed, d, false, rest);
      more.(fields := [f] + more.fields)
  }
}
