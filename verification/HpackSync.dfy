/** Encoder and decoder stay in step over every run of table size changes and header blocks. */
module HpackSync {
  import opened Bytes
  import opened HpackInt
  import opened HpackString
  import opened HpackTable
  import opened HpackCodec

  const DEFAULT_TABLE_SIZE := 4096

  // A wire that gives back what is put on it.

  predicate PrefixOk(first: nat, n: nat, span: nat) {
    || (first == 0x80 && n == 7 && span == 0x80) || (first == 0x40 && n == 6 && span == 0x40)
    || (first == 0x20 && n == 5 && span == 0x20) || ((first == 0x10 || first == 0) && n == 4 && span == 0x10)
  }

  ghost predicate IntBack(w: Wire, first: nat, n: nat, span: nat, v: nat, rest: seq<byte>) {
    var b := w.putInt(first, n, v) + rest;
    w.getInt(b, n) == IntRead(v, rest) && b != [] && first <= b[0] < first + span
  }

  ghost predicate StringBack(w: Wire, s: seq<byte>, rest: seq<byte>) {
    w.getString(w.putString(s) + rest) == StringRead(s, rest)
  }

  /** short says which strings the reader accepts. */
  ghost predicate Faithful(w: Wire, short: seq<byte> -> bool) {
    && Consumes(w)
    && (forall first, n, span, v: nat, rest {:trigger IntBack(w, first, n, span, v, rest)} ::
          PrefixOk(first, n, span) && v < 0x10000 ==> IntBack(w, first, n, span, v, rest))
    && (forall s, rest {:trigger StringBack(w, s, rest)} :: short(s) ==> StringBack(w, s, rest))
  }

  predicate Sendable(f: Field, short: seq<byte> -> bool) { short(f.name) && short(f.value) }

  /** In table d, representation i stands for f. */
  ghost predicate StandsFor(st: seq<Field>, d: Dynamic, i: Instr, f: Field) {
    match i
    case Indexed(index) => index < 0x10000 && d.Lookup(st, index) == [f]
    case Literal(_, nameIndex, g) =>
      g == f && nameIndex < 0x10000
      && (nameIndex == 0 || (d.Lookup(st, nameIndex) != [] && d.Lookup(st, nameIndex)[0].name == f.name))
    case SizeUpdate(_) => false
  }

  lemma GetLiteral(w: Wire, short: seq<byte> -> bool, st: seq<Field>, d: Dynamic, i: Instr, f: Field, rest: seq<byte>)
    requires Faithful(w, short) && i.Literal? && StandsFor(st, d, i, f) && Sendable(f, short)
    ensures ReadLiteral(w, st, d, Put(w, i, rest), Width(i.kind)) == LiteralRead(f, rest)
  {
    var b1 := w.putString(f.value) + rest;
    assert StringBack(w, f.value, rest);
    var span := if i.kind.Indexing? then 0x40 else 0x10;
    if i.nameIndex == 0 {
      assert StringBack(w, f.name, b1);
      assert IntBack(w, First(i.kind), Width(i.kind), span, i.nameIndex, w.putString(f.name) + b1);
    } else {
      assert IntBack(w, First(i.kind), Width(i.kind), span, i.nameIndex, b1);
    }
  }

  lemma PutFirst(w: Wire, short: seq<byte> -> bool, i: Instr, rest: seq<byte>)
    requires Faithful(w, short)
    requires i.Indexed? ==> i.index < 0x10000
    requires i.Literal? ==> i.nameIndex < 0x10000
    requires i.SizeUpdate? ==> i.size < 0x10000
    ensures var b := Put(w, i, rest);
            && b != [] && (i.Indexed? ==> b[0] >= 0x80) && (i.SizeUpdate? ==> 0x20 <= b[0] < 0x40)
            && (i.Literal? ==> if i.kind.Indexing? then 0x40 <= b[0] < 0x80 else b[0] < 0x20)
  {
    match i
    case Indexed(index) => assert IntBack(w, 0x80, 7, 0x80, index, rest);
    case SizeUpdate(size) => assert IntBack(w, 0x20, 5, 0x20, size, rest);
    case Literal(kind, nameIndex, f) =>
      var tail := if nameIndex == 0 then w.putString(f.name) + (w.putString(f.value) + rest)
                  else w.putString(f.value) + rest;
      assert IntBack(w, First(kind), Width(kind), if kind.Indexing? then 0x40 else 0x10, nameIndex, tail);
  }

  /** The decoder gets the field back and does to its table what the encoder did. */
  lemma GetField(w: Wire, short: seq<byte> -> bool, st: seq<Field>, allowed: nat, d: Dynamic, start: bool, i: Instr,
                 f: Field, rest: seq<byte>)
    requires Faithful(w, short) && StandsFor(st, d, i, f) && Sendable(f, short)
    ensures Put(w, i, rest) != [] && Get(w, st, allowed, d, start, Put(w, i, rest)) == Emits(f, Effect(d, i), rest)
  {
    PutFirst(w, short, i, rest);
    if i.Indexed? {
      assert IntBack(w, 0x80, 7, 0x80, i.index, rest);
    } else {
      GetLiteral(w, short, st, d, i, f, rest);
    }
  }

  lemma GetSize(w: Wire, short: seq<byte> -> bool, st: seq<Field>, allowed: nat, d: Dynamic, size: nat, rest: seq<byte>)
    requires Faithful(w, short) && size <= allowed && size < 0x10000
    ensures var b := Put(w, SizeUpdate(size), rest);
            b != [] && Get(w, st, allowed, d, true, b) == Resizes(d.SetMax(size), rest)
  {
    PutFirst(w, short, SizeUpdate(size), rest);
    assert IntBack(w, 0x20, 5, 0x20, size, rest);
  }

  /** Which entry a representation refers to; zero if none. */
  function Target(i: Instr): nat {
    match i
    case Indexed(index) => index
    case Literal(_, nameIndex, _) => nameIndex
    case SizeUpdate(_) => 0
  }

  /** A reference to an entry that the decoder does not have is refused. */
  lemma GetMissing(w: Wire, short: seq<byte> -> bool, st: seq<Field>, allowed: nat, d: Dynamic, start: bool, i: Instr,
                   rest: seq<byte>)
    requires Faithful(w, short) && !i.SizeUpdate? && |st| + |d.entries| < Target(i) < 0x10000
    ensures var b := Put(w, i, rest); b != [] && Get(w, st, allowed, d, start, b) == Bad(InvalidIndex)
  {
    PutFirst(w, short, i, rest);
    if i.Indexed? {
      assert IntBack(w, 0x80, 7, 0x80, i.index, rest);
    } else {
      assert IntBack(w, First(i.kind), Width(i.kind), if i.kind.Indexing? then 0x40 else 0x10, i.nameIndex,
                     w.putString(i.f.value) + rest);
    }
  }

  /** So is a table size above the limit. */
  lemma GetTooLarge(w: Wire, short: seq<byte> -> bool, st: seq<Field>, allowed: nat, d: Dynamic, size: nat,
                    rest: seq<byte>)
    requires Faithful(w, short) && allowed < size < 0x10000
    ensures var b := Put(w, SizeUpdate(size), rest);
            b != [] && Get(w, st, allowed, d, true, b) == Bad(InvalidSizeUpdate)
  {
    PutFirst(w, short, SizeUpdate(size), rest);
    assert IntBack(w, 0x20, 5, 0x20, size, rest);
  }

  // The encoder chooses well.

  lemma {:induction false} FirstPairIs(st: seq<Field>, f: Field, i: nat)
    ensures var k := FirstPair(st, f, i); k <= |st| && (k != 0 ==> st[k - 1] == f)
    decreases |st| - i
  {
    if i < |st| && st[i] != f {
      FirstPairIs(st, f, i + 1);
    }
  }

  lemma {:induction false} FirstNameIs(st: seq<Field>, name: seq<byte>, i: nat)
    ensures var k := FirstName(st, name, i); k <= |st| && (k != 0 ==> st[k - 1].name == name)
    decreases |st| - i
  {
    if i < |st| && st[i].name != name {
      FirstNameIs(st, name, i + 1);
    }
  }

  ghost predicate NameAt(st: seq<Field>, d: Dynamic, index: nat, name: seq<byte>) {
    index <= |st| + |d.entries| && (index == 0 || (d.Lookup(st, index) != [] && d.Lookup(st, index)[0].name == name))
  }

  lemma {:induction false} SearchIs(st: seq<Field>, d: Dynamic, n: nat, f: Field, nameIndex: nat)
    requires n <= |d.entries| && NameAt(st, d, nameIndex, f.name)
    ensures match Search(st, d.entries, n, f, nameIndex)
            case Exact(index) => index <= |st| + |d.entries| && d.Lookup(st, index) == [f]
            case Named(index) => NameAt(st, d, index, f.name)
  {
    if n > 0 {
      var g, index := d.entries[n - 1], |st| + |d.entries| - (n - 1);
      assert d.Lookup(st, index) == [g];
      if g.name != f.name {
        SearchIs(st, d, n - 1, f, nameIndex);
      } else if g.value == f.value {
        assert g == f;
      } else {
        SearchIs(st, d, n - 1, f, if nameIndex == 0 then index else nameIndex);
      }
    }
  }

  lemma ChooseIs(st: seq<Field>, d: Dynamic, f: Field, sensitive: bool)
    requires |st| < 0x8000 && d.Valid() && d.maxSize <= DEFAULT_TABLE_SIZE
    ensures var i := Choose(st, d, f, sensitive);
            StandsFor(st, d, i, f) && Target(i) <= |st| + |d.entries| && Target(i) < 0x10000
  {
    FirstPairIs(st, f, 0);
    FirstNameIs(st, f.name, 0);
    SearchIs(st, d, |d.entries|, f, FirstName(st, f.name, 0));
    CountFits(d.entries);
  }

  /** e holds the newest of what d holds. */
  ghost predicate Within(e: Dynamic, d: Dynamic) {
    e.entries == EvictTo(d.entries, e.maxSize) && e.maxSize <= d.maxSize
  }

  /** What an index means to the encoder it means to the decoder. */
  lemma SameMeaning(st: seq<Field>, e: Dynamic, d: Dynamic, i: Instr, f: Field)
    requires Within(e, d) && StandsFor(st, e, i, f)
    ensures StandsFor(st, d, i, f)
  {
    EvictKeeps(d.entries, e.maxSize);
  }

  /** The same for a decoder that holds less, if it holds the entry. */
  lemma SameMeaningBehind(st: seq<Field>, e: Dynamic, d: Dynamic, i: Instr, f: Field)
    requires Within(d, e) && StandsFor(st, e, i, f) && Target(i) <= |st| + |d.entries|
    ensures StandsFor(st, d, i, f)
  {
    EvictKeeps(e.entries, d.maxSize);
  }

  lemma SameEffect(e: Dynamic, d: Dynamic, i: Instr)
    requires Within(e, d) && !i.SizeUpdate?
    ensures Within(Effect(e, i), Effect(d, i)) && (e == d ==> Effect(e, i) == Effect(d, i))
  {
    if i.Literal? && i.kind.Indexing? {
      EvictThenAdd(d.entries, i.f, e.maxSize);
      EvictTwice(d.entries + [i.f], d.maxSize, e.maxSize);
    }
  }

  lemma EffectValid(d: Dynamic, i: Instr)
    requires d.Valid()
    ensures Effect(d, i).Valid() && (!i.SizeUpdate? ==> Effect(d, i).maxSize == d.maxSize)
  {
    match i
    case Indexed(_) =>
    case Literal(_, _, f) => AddValid(d, f);
    case SizeUpdate(size) => SetMaxValid(d, size);
  }

  // Header blocks.

  datatype Header = Header(f: Field, sensitive: bool)

  /** AppendField for each of hs. */
  function PutFields(w: Wire, st: seq<Field>, e: Dynamic, hs: seq<Header>): seq<byte>
    decreases |hs|
  {
    if hs == [] then [] else
    var i := Choose(st, e, hs[0].f, hs[0].sensitive);
    Put(w, i, PutFields(w, st, Effect(e, i), hs[1..]))
  }

  function AfterFields(st: seq<Field>, e: Dynamic, hs: seq<Header>): Dynamic
    decreases |hs|
  {
    if hs == [] then e else AfterFields(st, Effect(e, Choose(st, e, hs[0].f, hs[0].sensitive)), hs[1..])
  }

  /** The table of a decoder that takes what an encoder with table e writes. */
  function AfterBlock(st: seq<Field>, e: Dynamic, d: Dynamic, hs: seq<Header>): Dynamic
    decreases |hs|
  {
    if hs == [] then d else
    var i := Choose(st, e, hs[0].f, hs[0].sensitive);
    AfterBlock(st, Effect(e, i), Effect(d, i), hs[1..])
  }

  function Fields(hs: seq<Header>): seq<Field> { if hs == [] then [] else [hs[0].f] + Fields(hs[1..]) }

  ghost predicate AllSendable(hs: seq<Header>, short: seq<byte> -> bool) {
    forall i :: 0 <= i < |hs| ==> Sendable(hs[i].f, short)
  }

  ghost predicate Follows(e: Dynamic, d: Dynamic) {
    Within(e, d) && e.Valid() && d.Valid() && e.maxSize <= DEFAULT_TABLE_SIZE
  }

  /** The fields of a block come back in order and the tables move together. */
  lemma {:induction false} FieldsRoundTrip(w: Wire, short: seq<byte> -> bool, st: seq<Field>, allowed: nat, e: Dynamic,
                                           d: Dynamic, start: bool, hs: seq<Header>)
    requires Faithful(w, short) && |st| < 0x8000 && Follows(e, d) && AllSendable(hs, short)
    ensures var r := Decode(w, st, allowed, d, start, PutFields(w, st, e, hs));
            && r.ok && r.fields == Fields(hs) && Follows(AfterFields(st, e, hs), r.d) && r.d.maxSize == d.maxSize
            && AfterFields(st, e, hs).maxSize == e.maxSize && r.d == AfterBlock(st, e, d, hs)
            && (e == d ==> AfterFields(st, e, hs) == r.d)
    decreases |hs|
  {
    if hs != [] {
      var f := hs[0].f;
      var i := Choose(st, e, f, hs[0].sensitive);
      ChooseIs(st, e, f, hs[0].sensitive);
      SameMeaning(st, e, d, i, f);
      SameEffect(e, d, i);
      EffectValid(e, i);
      EffectValid(d, i);
      FieldsRoundTrip(w, short, st, allowed, Effect(e, i), Effect(d, i), false, hs[1..]);
      GetField(w, short, st, allowed, d, start, i, f, PutFields(w, st, Effect(e, i), hs[1..]));
    }
  }

  /** Every reference of a block is to the static table or to one of the newest entries of the encoder
      that fit in cap. */
  predicate Reached(st: seq<Field>, e: Dynamic, hs: seq<Header>, cap: nat)
    decreases |hs|
  {
    hs == [] ||
    var i := Choose(st, e, hs[0].f, hs[0].sensitive);
    Target(i) <= |st| + |EvictTo(e.entries, cap)| && Reached(st, Effect(e, i), hs[1..], cap)
  }

  /** All of them are, when cap is no less than the table. */
  lemma {:induction false} AllReached(st: seq<Field>, e: Dynamic, hs: seq<Header>, cap: nat)
    requires |st| < 0x8000 && e.Valid() && e.maxSize <= DEFAULT_TABLE_SIZE && e.maxSize <= cap
    ensures Reached(st, e, hs, cap)
    decreases |hs|
  {
    if hs != [] {
      var i := Choose(st, e, hs[0].f, hs[0].sensitive);
      ChooseIs(st, e, hs[0].f, hs[0].sensitive);
      EffectValid(e, i);
      AllReached(st, Effect(e, i), hs[1..], cap);
    }
  }

  /** Against a decoder that holds less than the encoder, the fields come back exactly when every
      reference reaches what it holds. */
  lemma {:induction false} FieldsBehind(w: Wire, short: seq<byte> -> bool, st: seq<Field>, allowed: nat, e: Dynamic,
                                        d: Dynamic, start: bool, hs: seq<Header>)
    requires Faithful(w, short) && |st| < 0x8000 && AllSendable(hs, short)
    requires Within(d, e) && e.Valid() && d.Valid() && e.maxSize <= DEFAULT_TABLE_SIZE
    ensures var r, n := Decode(w, st, allowed, d, start, PutFields(w, st, e, hs)), AfterFields(st, e, hs);
            && r.ok == Reached(st, e, hs, d.maxSize) && n.Valid() && n.maxSize == e.maxSize
            && (r.ok ==> r.fields == Fields(hs) && r.d == AfterBlock(st, e, d, hs) && Within(r.d, n) && r.d.Valid()
                         && r.d.maxSize == d.maxSize)
    decreases |hs|
  {
    if hs != [] {
      var f := hs[0].f;
      var i := Choose(st, e, f, hs[0].sensitive);
      var rest := PutFields(w, st, Effect(e, i), hs[1..]);
      ChooseIs(st, e, f, hs[0].sensitive);
      SameEffect(d, e, i);
      EffectValid(e, i);
      EffectValid(d, i);
      FieldsBehind(w, short, st, allowed, Effect(e, i), Effect(d, i), false, hs[1..]);
      if Target(i) <= |st| + |d.entries| {
        SameMeaningBehind(st, e, d, i, f);
        GetField(w, short, st, allowed, d, start, i, f, rest);
      } else {
        GetMissing(w, short, st, allowed, d, start, i, rest);
      }
    }
  }

  // Table size changes.

  datatype Encoder = Encoder(table: Dynamic, pending: bool, minPending: nat)

  /** SetMaxTableSize. */
  function SetMaxTableSize(e: Encoder, n: nat): Encoder {
    var m := if n > DEFAULT_TABLE_SIZE then DEFAULT_TABLE_SIZE else n;
    if m == e.table.maxSize then e
    else Encoder(e.table.SetMax(m), true, if !e.pending || m < e.minPending then m else e.minPending)
  }

  /** Begin, and then rest. */
  function PutBegin(w: Wire, e: Encoder, rest: seq<byte>): seq<byte> {
    if !e.pending then rest else
    var last := Put(w, SizeUpdate(e.table.maxSize), rest);
    if e.minPending < e.table.maxSize then Put(w, SizeUpdate(e.minPending), last) else last
  }

  /** The encoder against a decoder with table d that allows a table of up to allowed. One of them has
      evicted what the other will evict when told; until it is told, the decoder has the size that it
      started with. */
  ghost predicate InStep(e: Encoder, d: Dynamic, allowed: nat) {
    && e.table.Valid() && d.Valid() && e.table.maxSize <= DEFAULT_TABLE_SIZE && d.maxSize <= allowed
    && if e.pending then
         && Total(e.table.entries) <= e.minPending <= e.table.maxSize
         && if e.minPending <= d.maxSize then e.table.entries == EvictTo(d.entries, e.minPending)
            else d.entries == EvictTo(e.table.entries, d.maxSize)
                 && (e.table.entries == d.entries || d.maxSize == allowed)
       else if e.table.maxSize <= d.maxSize then
         Within(e.table, d) && (e.table.maxSize == d.maxSize || e.table.maxSize == DEFAULT_TABLE_SIZE)
       else Within(d, e.table) && e.table.maxSize == DEFAULT_TABLE_SIZE && d.maxSize == allowed
  }

  /** Between blocks, in step means equal, unless the decoder allows more than the encoder ever uses or
      the encoder has not been told to use less. */
  lemma InStepIsEqual(e: Encoder, d: Dynamic, allowed: nat)
    requires InStep(e, d, allowed) && !e.pending && e.table.maxSize <= allowed <= DEFAULT_TABLE_SIZE
    ensures e.table == d
  {
  }

  /** Any number of size changes between blocks keeps the two in step. */
  lemma ResizeKeeps(e: Encoder, d: Dynamic, allowed: nat, n: nat)
    requires InStep(e, d, allowed)
    ensures InStep(SetMaxTableSize(e, n), d, allowed)
  {
    var m := if n > DEFAULT_TABLE_SIZE then DEFAULT_TABLE_SIZE else n;
    var low := if e.pending then e.minPending else e.table.maxSize;
    SetMaxValid(e.table, m);
    EvictKeeps(e.table.entries, m);
    if low <= d.maxSize {
      EvictTwice(d.entries, low, m);
    } else {
      EvictTwice(e.table.entries, d.maxSize, m);
      EvictTwice(e.table.entries, m, d.maxSize);
    }
  }

  /** Announcing the smallest size and the last one brings the decoder to the encoder's table. */
  lemma BeginRoundTrip(w: Wire, short: seq<byte> -> bool, st: seq<Field>, allowed: nat, e: Encoder, d: Dynamic,
                       b: seq<byte>)
    requires Faithful(w, short) && InStep(e, d, allowed) && e.pending && e.table.maxSize <= allowed
    ensures Decode(w, st, allowed, d, true, PutBegin(w, e, b)) == Decode(w, st, allowed, e.table, true, b)
  {
    var min, max := e.minPending, e.table.maxSize;
    EvictTwice(d.entries, min, max);
    var last := Put(w, SizeUpdate(max), b);
    if min < max {
      GetSize(w, short, st, allowed, d, min, last);
      GetSize(w, short, st, allowed, d.SetMax(min), max, b);
    } else {
      GetSize(w, short, st, allowed, d, max, b);
    }
  }

  /** A size above the limit ends the block. */
  lemma BeginRefused(w: Wire, short: seq<byte> -> bool, st: seq<Field>, allowed: nat, e: Encoder, d: Dynamic,
                     b: seq<byte>)
    requires Faithful(w, short) && InStep(e, d, allowed) && e.pending && e.table.maxSize > allowed
    ensures !Decode(w, st, allowed, d, true, PutBegin(w, e, b)).ok
  {
    var min, max := e.minPending, e.table.maxSize;
    var last := Put(w, SizeUpdate(max), b);
    if min > allowed {
      GetTooLarge(w, short, st, allowed, d, min, if min < max then last else b);
    } else {
      GetSize(w, short, st, allowed, d, min, last);
      GetTooLarge(w, short, st, allowed, d.SetMax(min), max, b);
    }
  }

  /** What the encoder has to keep to: it announces no size above the limit, and while it uses more than
      the limit it refers only to entries that fit in it. */
  predicate BlockFits(st: seq<Field>, e: Encoder, hs: seq<Header>, allowed: nat) {
    (e.pending ==> e.table.maxSize <= allowed) && Reached(st, e.table, hs, allowed)
  }

  /** One block, against any limit: it decodes exactly if it fits, and then every field comes back and
      the two stay in step. */
  lemma BlockRoundTrip(w: Wire, short: seq<byte> -> bool, st: seq<Field>, allowed: nat, e: Encoder, d: Dynamic,
                       hs: seq<Header>)
    requires Faithful(w, short) && |st| < 0x8000 && InStep(e, d, allowed) && AllSendable(hs, short)
    ensures var r := Decode(w, st, allowed, d, true, PutBegin(w, e, PutFields(w, st, e.table, hs)));
            && r.ok == BlockFits(st, e, hs, allowed)
            && (r.ok ==>
                  && r.fields == Fields(hs)
                  && InStep(Encoder(AfterFields(st, e.table, hs), false, e.minPending), r.d, allowed)
                  && r.d == AfterBlock(st, e.table, if e.pending then e.table else d, hs))
  {
    if e.pending {
      if e.table.maxSize <= allowed {
        BeginRoundTrip(w, short, st, allowed, e, d, PutFields(w, st, e.table, hs));
        FieldsRoundTrip(w, short, st, allowed, e.table, e.table, true, hs);
        AllReached(st, e.table, hs, allowed);
      } else {
        BeginRefused(w, short, st, allowed, e, d, PutFields(w, st, e.table, hs));
      }
    } else if e.table.maxSize <= d.maxSize {
      FieldsRoundTrip(w, short, st, allowed, e.table, d, true, hs);
      AllReached(st, e.table, hs, allowed);
    } else {
      FieldsBehind(w, short, st, allowed, e.table, d, true, hs);
    }
  }

  // Runs.

  datatype Event = Resize(n: nat) | Send(hs: seq<Header>)

  /** sent and got are the blocks so far on either side; ok says that none failed. */
  datatype State = State(e: Encoder, d: Dynamic, sent: seq<seq<Field>>, got: seq<seq<Field>>, ok: bool)

  ghost function Next(w: Wire, st: seq<Field>, allowed: nat, s: State, event: Event): State
    requires Consumes(w)
  {
    match event
    case Resize(n) => s.(e := SetMaxTableSize(s.e, n))
    case Send(hs) =>
      var r := Decode(w, st, allowed, s.d, true, PutBegin(w, s.e, PutFields(w, st, s.e.table, hs)));
      State(Encoder(AfterFields(st, s.e.table, hs), false, s.e.minPending), r.d, s.sent + [Fields(hs)],
            s.got + [r.fields], s.ok && r.ok)
  }

  /** NewEncoder. */
  const NEW_ENCODER := Encoder(Dynamic([], DEFAULT_TABLE_SIZE), false, 0)

  /** A new encoder, and a new decoder with any limit. */
  function Init(allowed: nat): State { State(NEW_ENCODER, Dynamic([], allowed), [], [], true) }

  ghost function Exec(w: Wire, st: seq<Field>, allowed: nat, run: seq<Event>): State
    requires Consumes(w)
  {
    if run == [] then Init(allowed) else Next(w, st, allowed, Exec(w, st, allowed, run[..|run| - 1]), run[|run| - 1])
  }

  ghost predicate RunSendable(run: seq<Event>, short: seq<byte> -> bool) {
    forall i :: 0 <= i < |run| && run[i].Send? ==> AllSendable(run[i].hs, short)
  }

  /** The encoder alone. */
  function EncoderAfter(st: seq<Field>, run: seq<Event>): Encoder {
    if run == [] then NEW_ENCODER else
    var e := EncoderAfter(st, run[..|run| - 1]);
    match run[|run| - 1]
    case Resize(n) => SetMaxTableSize(e, n)
    case Send(hs) => Encoder(AfterFields(st, e.table, hs), false, e.minPending)
  }

  /** Every block of a run fits a decoder with this limit. */
  predicate RunFits(st: seq<Field>, allowed: nat, run: seq<Event>) {
    run == [] ||
    var before, event := run[..|run| - 1], run[|run| - 1];
    RunFits(st, allowed, before) && (event.Send? ==> BlockFits(st, EncoderAfter(st, before), event.hs, allowed))
  }

  /** In every run against a decoder with any limit, all blocks decode exactly if they fit, and then the
      decoder returns exactly the fields that were encoded and the tables stay in step. */
  lemma {:induction false} AlwaysInStep(w: Wire, short: seq<byte> -> bool, st: seq<Field>, allowed: nat,
                                        run: seq<Event>)
    requires Faithful(w, short) && |st| < 0x8000 && RunSendable(run, short)
    ensures var s := Exec(w, st, allowed, run);
            && s.e == EncoderAfter(st, run) && s.ok == RunFits(st, allowed, run)
            && (s.ok ==> s.got == s.sent && InStep(s.e, s.d, allowed))
  {
    if run != [] {
      var before, event := run[..|run| - 1], run[|run| - 1];
      AlwaysInStep(w, short, st, allowed, before);
      var s := Exec(w, st, allowed, before);
      if s.ok {
        match event
        case Resize(n) => ResizeKeeps(s.e, s.d, allowed, n);
        case Send(hs) => BlockRoundTrip(w, short, st, allowed, s.e, s.d, hs);
      }
    }
  }

  /** The limit is what the encoder starts with or more, or the encoder is told of a size within it
      before the first block and never of another. */
  predicate Told(run: seq<Event>, allowed: nat) {
    || DEFAULT_TABLE_SIZE <= allowed
    || ((run != [] ==> run[0].Resize?) && forall i :: 0 <= i < |run| && run[i].Resize? ==> run[i].n <= allowed)
  }

  lemma {:induction false} EncoderFits(st: seq<Field>, allowed: nat, run: seq<Event>)
    requires |st| < 0x8000 && Told(run, allowed)
    ensures var t := EncoderAfter(st, run).table;
            t.Valid() && t.maxSize <= DEFAULT_TABLE_SIZE && (run != [] ==> t.maxSize <= allowed)
  {
    if run != [] {
      var before, event := run[..|run| - 1], run[|run| - 1];
      assert forall i :: 0 <= i < |before| ==> before[i] == run[i];
      EncoderFits(st, allowed, before);
      var e := EncoderAfter(st, before);
      match event
      case Resize(n) => SetMaxValid(e.table, if n > DEFAULT_TABLE_SIZE then DEFAULT_TABLE_SIZE else n);
      case Send(hs) => FieldsValid(st, e.table, hs);
    }
  }

  lemma {:induction false} FieldsValid(st: seq<Field>, e: Dynamic, hs: seq<Header>)
    requires e.Valid()
    ensures AfterFields(st, e, hs).Valid() && AfterFields(st, e, hs).maxSize == e.maxSize
    decreases |hs|
  {
    if hs != [] {
      var i := Choose(st, e, hs[0].f, hs[0].sensitive);
      EffectValid(e, i);
      FieldsValid(st, Effect(e, i), hs[1..]);
    }
  }

  /** Then every block fits, whatever its fields. */
  lemma {:induction false} ToldRunsFit(st: seq<Field>, allowed: nat, run: seq<Event>)
    requires |st| < 0x8000 && Told(run, allowed)
    ensures RunFits(st, allowed, run)
  {
    if run != [] {
      var before, event := run[..|run| - 1], run[|run| - 1];
      assert forall i :: 0 <= i < |before| ==> before[i] == run[i];
      ToldRunsFit(st, allowed, before);
      EncoderFits(st, allowed, before);
      if event.Send? {
        AllReached(st, EncoderAfter(st, before).table, event.hs, allowed);
      }
    }
  }

  lemma FirstOfNew(st: seq<Field>, f: Field)
    requires FirstPair(st, f, 0) == 0 && Size(f) <= DEFAULT_TABLE_SIZE / 2
    ensures AfterFields(st, NEW_ENCODER.table, [Header(f, false)]) == Dynamic([f], DEFAULT_TABLE_SIZE)
  {
    var hs := [Header(f, false)];
    assert hs[1..] == [] && [] + [f] == [f];
    assert Total([f]) == Size(f);
  }

  lemma SecondIsReference(st: seq<Field>, f: Field, cap: nat)
    requires FirstPair(st, f, 0) == 0 && cap < Size(f)
    ensures !Reached(st, Dynamic([f], DEFAULT_TABLE_SIZE), [Header(f, false)], cap)
  {
    assert Search(st, [f], 1, f, FirstName(st, f.name, 0)) == Exact(|st| + 1);
    assert Total([f]) == Size(f) && [f][1..] == [];
  }

  /** An encoder that is not told fails with the second block of any field that it indexes and that is
      larger than the limit: the second one refers to an entry that the decoder could not keep. */
  lemma UntoldFails(w: Wire, short: seq<byte> -> bool, st: seq<Field>, allowed: nat, f: Field)
    requires Faithful(w, short) && |st| < 0x8000 && Sendable(f, short)
    requires FirstPair(st, f, 0) == 0 && allowed < Size(f) <= DEFAULT_TABLE_SIZE / 2
    ensures var block := Send([Header(f, false)]);
            !RunFits(st, allowed, [block, block]) && !Exec(w, st, allowed, [block, block]).ok
  {
    var block := Send([Header(f, false)]);
    var run := [block, block];
    AlwaysInStep(w, short, st, allowed, run);
    assert run[..1] == [block] && [block][..0] == [];
    FirstOfNew(st, f);
    SecondIsReference(st, f, allowed);
  }

  /** A concrete one: no static table, and a decoder that keeps nothing. */
  lemma EmptyDecoderFails(w: Wire, short: seq<byte> -> bool)
    requires Faithful(w, short) && short([97]) && short([98])
    ensures var block := Send([Header(Field([97], [98]), false)]); !Exec(w, [], 0, [block, block]).ok
  {
    UntoldFails(w, short, [], 0, Field([97], [98]));
  }
}
