/** Which representation the encoder chooses for a field, and how it looks on the wire (sections 2.3, 5 and 6 of
    RFC 7541). */
module HpackChoice {
  import opened Bits
  import opened Bytes
  import opened Huffman
  import opened HpackInt
  import opened HpackString
  import opened HpackTable
  import opened HpackCodec
  import opened HpackSync

  // Which index.

  /** The least index of the address space whose entry is right. */
  ghost predicate Least(st: seq<Field>, d: Dynamic, index: nat, right: Field -> bool) {
    && d.Lookup(st, index) != [] && right(d.Lookup(st, index)[0])
    && forall k :: 0 < k < index && d.Lookup(st, k) != [] ==> !right(d.Lookup(st, k)[0])
  }

  function Is(f: Field): Field -> bool { (g: Field) => g == f }

  function Has(name: seq<byte>): Field -> bool { (g: Field) => g.name == name }

  ghost predicate Nowhere(st: seq<Field>, d: Dynamic, right: Field -> bool) {
    (forall g :: g in st ==> !right(g)) && forall g :: g in d.entries ==> !right(g)
  }

  lemma {:induction false} FirstPairLeast(st: seq<Field>, f: Field, i: nat)
    ensures var k := FirstPair(st, f, i);
            && (k == 0 ==> forall j :: i <= j < |st| ==> st[j] != f)
            && (k != 0 ==> i < k <= |st| && st[k - 1] == f && forall j :: i <= j < k - 1 ==> st[j] != f)
    decreases |st| - i
  {
    if i < |st| && st[i] != f {
      FirstPairLeast(st, f, i + 1);
    }
  }

  lemma {:induction false} FirstNameLeast(st: seq<Field>, name: seq<byte>, i: nat)
    ensures var k := FirstName(st, name, i);
            && (k == 0 ==> forall j :: i <= j < |st| ==> st[j].name != name)
            && (k != 0 ==> i < k <= |st| && st[k - 1].name == name && forall j :: i <= j < k - 1 ==> st[j].name != name)
    decreases |st| - i
  {
    if i < |st| && st[i].name != name {
      FirstNameLeast(st, name, i + 1);
    }
  }

  /** What the newer entries, from n on, say about the search. */
  ghost predicate Newer(st: seq<Field>, entries: seq<Field>, n: nat, f: Field, nameIndex: nat)
    requires n <= |entries|
  {
    && (forall k :: n <= k < |entries| ==> entries[k] != f)
    && (nameIndex > |st| ==>
          && nameIndex - |st| <= |entries| - n && entries[|entries| - (nameIndex - |st|)].name == f.name
          && forall k :: |entries| - (nameIndex - |st|) < k < |entries| ==> entries[k].name != f.name)
    && (nameIndex == 0 ==> forall k :: n <= k < |entries| ==> entries[k].name != f.name)
  }

  lemma {:induction false} SearchLeast(st: seq<Field>, entries: seq<Field>, n: nat, f: Field, nameIndex: nat)
    requires n <= |entries| && Newer(st, entries, n, f, nameIndex)
    ensures match Search(st, entries, n, f, nameIndex)
            case Exact(index) =>
              && |st| < index <= |st| + |entries| && entries[|entries| - (index - |st|)] == f
              && forall k :: |entries| - (index - |st|) < k < |entries| ==> entries[k] != f
            case Named(index) =>
              Newer(st, entries, 0, f, index) && (0 < nameIndex ==> index == nameIndex)
              && (index == 0 || nameIndex > 0 || index > |st|)
  {
    if n > 0 {
      var g, index := entries[n - 1], |st| + |entries| - (n - 1);
      if g.name != f.name {
        SearchLeast(st, entries, n - 1, f, nameIndex);
      } else if g.value != f.value {
        SearchLeast(st, entries, n - 1, f, if nameIndex == 0 then index else nameIndex);
      } else {
        assert g == f;
      }
    }
  }

  lemma LeastInStatic(st: seq<Field>, d: Dynamic, k: nat, right: Field -> bool)
    requires 0 < k <= |st| && right(st[k - 1]) && forall j :: 0 <= j < k - 1 ==> !right(st[j])
    ensures Least(st, d, k, right)
  {
  }

  lemma LeastInDynamic(st: seq<Field>, d: Dynamic, k: nat, right: Field -> bool)
    requires |st| < k <= |st| + |d.entries| && right(d.entries[|d.entries| - (k - |st|)])
    requires forall g :: g in st ==> !right(g)
    requires forall j :: |d.entries| - (k - |st|) < j < |d.entries| ==> !right(d.entries[j])
    ensures Least(st, d, k, right)
  {
  }

  /** A field that is in a table goes by its least index; any other as a literal, by the least index of its name
      if there is one. A sensitive one must never be indexed, a large one is not, and the rest are. */
  lemma Chosen(st: seq<Field>, d: Dynamic, f: Field, sensitive: bool)
    ensures match Choose(st, d, f, sensitive)
            case Indexed(index) => Least(st, d, index, Is(f))
            case Literal(kind, nameIndex, g) =>
              && g == f && Nowhere(st, d, Is(f))
              && (if nameIndex == 0 then Nowhere(st, d, Has(f.name)) else Least(st, d, nameIndex, Has(f.name)))
              && (kind == NeverIndexed <==> sensitive)
              && (kind == Indexing <==> !sensitive && |f.name| + |f.value| + 32 <= d.maxSize / 2)
            case SizeUpdate(_) => false
  {
    FirstPairLeast(st, f, 0);
    var pair, name := FirstPair(st, f, 0), FirstName(st, f.name, 0);
    if pair != 0 {
      LeastInStatic(st, d, pair, Is(f));
    } else {
      FirstNameLeast(st, f.name, 0);
      SearchLeast(st, d.entries, |d.entries|, f, name);
      var found := Search(st, d.entries, |d.entries|, f, name);
      if found.Exact? {
        LeastInDynamic(st, d, found.index, Is(f));
      } else if 0 < found.index <= |st| {
        LeastInStatic(st, d, found.index, Has(f.name));
      } else if found.index > |st| {
        LeastInDynamic(st, d, found.index, Has(f.name));
      }
    }
  }

  /** The entry added last has the first index after the static table, and adding moves the others up by one. */
  lemma NewestFirst(st: seq<Field>, d: Dynamic, f: Field, k: nat)
    requires Size(f) <= d.maxSize && k < |d.Add(f).entries|
    ensures d.Add(f).Lookup(st, |st| + k + 1) == if k == 0 then [f] else d.Lookup(st, |st| + k)
  {
    EvictKeeps(d.entries + [f], d.maxSize);
  }

  /** An entry that fits is added, whatever has to go for it. */
  lemma AddedIfFits(d: Dynamic, f: Field)
    ensures d.Add(f).entries != [] <==> Size(f) <= d.maxSize
  {
    var all := d.entries + [f];
    EvictKeeps(all, d.maxSize);
    var gone := |all| - |d.Add(f).entries|;
    LastTotal(d.entries, f, gone);
    if gone == |all| {
      assert all[gone - 1..] == [f];
      LastTotal(d.entries, f, gone - 1);
      assert [f][1..] == [];
    }
  }

  lemma LastTotal(entries: seq<Field>, f: Field, n: nat)
    requires n <= |entries| + 1
    ensures n <= |entries| ==> Total((entries + [f])[n..]) >= Size(f)
  {
    if n <= |entries| {
      assert (entries + [f])[n..] == entries[n..] + [f];
      TotalSnoc(entries[n..], f);
    }
  }

  // On the wire.

  /** The first byte tells the representation: 1xxxxxxx, 01xxxxxx, 0001xxxx or 0000xxxx. */
  lemma FirstByteTells(w: Wire, short: seq<byte> -> bool, st: seq<Field>, d: Dynamic, f: Field, sensitive: bool,
                       rest: seq<byte>)
    requires Faithful(w, short) && |st| < 0x8000 && d.Valid() && d.maxSize <= DEFAULT_TABLE_SIZE
    ensures var b := Put(w, Choose(st, d, f, sensitive), rest);
            && b != []
            && (0x80 <= b[0] <==> f in st || f in d.entries)
            && (0x10 <= b[0] < 0x20 <==> f !in st && f !in d.entries && sensitive)
            && (0x40 <= b[0] < 0x80 <==> f !in st && f !in d.entries && !sensitive && Size(f) <= d.maxSize / 2)
            && (b[0] < 0x10 <==> f !in st && f !in d.entries && !sensitive && Size(f) > d.maxSize / 2)
  {
    var i := Choose(st, d, f, sensitive);
    Chosen(st, d, f, sensitive);
    ChooseIs(st, d, f, sensitive);
    FirstOf(w, short, i, rest);
    if i.Indexed? {
      Somewhere(st, d, i.index, f);
    } else {
      assert Nowhere(st, d, Is(f)) && Is(f)(f);
    }
  }

  lemma Somewhere(st: seq<Field>, d: Dynamic, index: nat, f: Field)
    requires d.Lookup(st, index) == [f]
    ensures f in st || f in d.entries
  {
  }

  lemma FirstOf(w: Wire, short: seq<byte> -> bool, i: Instr, rest: seq<byte>)
    requires Faithful(w, short) && !i.SizeUpdate? && Target(i) < 0x10000
    ensures var b := Put(w, i, rest);
            && b != [] && (i.Indexed? ==> 0x80 <= b[0])
            && (i.Literal? && i.kind == Indexing ==> 0x40 <= b[0] < 0x80)
            && (i.Literal? && i.kind == NeverIndexed ==> 0x10 <= b[0] < 0x20)
            && (i.Literal? && i.kind == Plain ==> b[0] < 0x10)
  {
    PutFirst(w, short, i, rest);
    if i.Literal? && !i.kind.Indexing? {
      var tail := if i.nameIndex == 0 then w.putString(i.f.name) + (w.putString(i.f.value) + rest)
                  else w.putString(i.f.value) + rest;
      assert IntBack(w, First(i.kind), 4, 0x10, i.nameIndex, tail);
    }
  }

  lemma WritesSomething(w: Wire, short: seq<byte> -> bool, size: nat, rest: seq<byte>)
    requires Faithful(w, short) && size < 0x10000
    ensures |Put(w, SizeUpdate(size), rest)| > |rest|
  {
    assert IntBack(w, 0x20, 5, 0x20, size, []);
    assert w.putInt(0x20, 5, size) + [] == w.putInt(0x20, 5, size);
  }

  /** A block begins with a size update exactly if a change of size is pending, with the smallest size since the last
      block first if it is below the last. */
  lemma Announces(w: Wire, short: seq<byte> -> bool, e: Encoder, rest: seq<byte>)
    requires Faithful(w, short) && e.table.maxSize < 0x10000 && e.minPending < 0x10000
    ensures PutBegin(w, e, rest) == rest <==> !e.pending
    ensures e.pending ==>
              var b := PutBegin(w, e, rest);
              var update := w.putInt(0x20, 5, if e.minPending < e.table.maxSize then e.minPending else e.table.maxSize);
              0x20 <= b[0] < 0x40 && update <= b
  {
    if e.pending {
      var last := Put(w, SizeUpdate(e.table.maxSize), rest);
      WritesSomething(w, short, e.table.maxSize, rest);
      WritesSomething(w, short, e.minPending, last);
      PutFirst(w, short, SizeUpdate(e.table.maxSize), rest);
      PutFirst(w, short, SizeUpdate(e.minPending), last);
    }
  }

  /** The encoder after a run: a change is pending exactly if a size was set since the last block that was not the size
      then, and the smallest of those is remembered. */
  lemma PendingIff(st: seq<Field>, run: seq<Event>, event: Event)
    ensures var e, n := EncoderAfter(st, run), EncoderAfter(st, run + [event]);
            match event
            case Send(_) => !n.pending && n.table.maxSize == e.table.maxSize
            case Resize(size) =>
              var m := if size > 4096 then 4096 else size;
              && n.table.maxSize == m && (n.pending <==> e.pending || m != e.table.maxSize)
              && (n.pending ==> n.minPending == if e.pending && (m == e.table.maxSize || e.minPending <= m)
                                                then e.minPending else m)
  {
    assert (run + [event])[..|run|] == run;
    if event.Send? {
      FieldsKeepSize(st, EncoderAfter(st, run).table, event.hs);
    }
  }

  lemma {:induction false} FieldsKeepSize(st: seq<Field>, e: Dynamic, hs: seq<Header>)
    ensures AfterFields(st, e, hs).maxSize == e.maxSize
    decreases |hs|
  {
    if hs != [] {
      FieldsKeepSize(st, Effect(e, Choose(st, e, hs[0].f, hs[0].sensitive)), hs[1..]);
    }
  }

  // Integers: seven bits a byte, lowest first, as few as hold the number.

  lemma {:induction false} GroupAt(v: nat, i: nat)
    requires i < |Groups(v)|
    ensures Groups(v)[i] == v / Pow2(7 * i) % 0x80 + if i < |Groups(v)| - 1 then 0x80 else 0
    decreases i
  {
    if i > 0 {
      GroupAt(v / 0x80, i - 1);
      SevenMore(7 * (i - 1));
      GroupThen(v, Pow2(7 * (i - 1)));
    }
  }

  lemma SevenMore(k: nat)
    ensures Pow2(k + 7) == 0x80 * Pow2(k)
  {
    assert Pow2(k + 2) == 4 * Pow2(k) && Pow2(k + 4) == 4 * Pow2(k + 2);
    assert Pow2(k + 6) == 4 * Pow2(k + 4) && Pow2(k + 7) == 2 * Pow2(k + 6);
  }

  lemma GroupThen(v: nat, p: nat)
    requires p > 0
    ensures v / 0x80 / p == v / (0x80 * p)
  {
    var q, r := v / 0x80 / p, v / 0x80 % p;
    assert v / 0x80 == p * q + r;
    assert v == 0x80 * (p * q + r) + v % 0x80;
    assert 0x80 * (p * q) == (0x80 * p) * q;
    ModIs(v, 0x80 * p, q, 0x80 * r + v % 0x80);
  }

  lemma {:induction false} GroupCount(v: nat)
    ensures var n := |Groups(v)|; n > 0 && v < Pow2(7 * n) && (n > 1 ==> v >= Pow2(7 * (n - 1)))
  {
    var n := |Groups(v)|;
    if v < 0x80 {
      assert Pow2(7) == 0x80;
    } else {
      GroupCount(v / 0x80);
      SevenMore(7 * (n - 1));
      if n > 2 {
        SevenMore(7 * (n - 2));
      } else {
        assert Pow2(7) == 0x80;
      }
    }
  }

  /** The example of section C.1.2 of RFC 7541. */
  lemma Example1337()
    ensures Pow2(5) <= 256 && EncodeInt(0, 5, 1337) == [0x1f, 0x9a, 0x0a]
  {
    assert Pow2(5) == 32;
    assert Groups(1306) == [0x9a] + Groups(10);
  }

  /** The first n bytes of b are the bytes of an integer after its prefix. */
  predicate Ends(b: seq<byte>, n: nat) {
    0 < n <= |b| && b[n - 1] < 0x80 && forall i :: 0 <= i < n - 1 ==> b[i] >= 0x80
  }

  /** Seven bits of every byte, the first of them counting 2^shift. */
  function GroupSum(b: seq<byte>, shift: nat): nat
    decreases |b|
  {
    if b == [] then 0 else b[0] % 0x80 * Pow2(shift) + GroupSum(b[1..], shift + 7)
  }

  lemma {:induction false} ReadsGroups(b: seq<byte>, value: nat, shift: nat, n: nat)
    requires Ends(b, n) && shift + 7 * (n - 1) < 56
    ensures ReadGroups(b, value, shift) == IntRead(value + GroupSum(b[..n], shift), b[n..])
    decreases n
  {
    assert b[..n][0] == b[0] && b[..n][1..] == b[1..][..n - 1];
    if n > 1 {
      assert b[1..][n - 2] == b[n - 1];
      ReadsGroups(b[1..], value + b[0] % 0x80 * Pow2(shift), shift + 7, n - 1);
      assert b[1..][n - 1..] == b[n..];
    } else {
      assert b[..1][1..] == [];
    }
  }

  lemma {:induction false} ReadFrom(b: seq<byte>, value: nat, shift: nat) returns (n: nat)
    requires ReadGroups(b, value, shift).IntRead? && shift < 56
    ensures Ends(b, n) && shift + 7 * (n - 1) < 56
    decreases |b|
  {
    if b[0] < 0x80 {
      n := 1;
    } else {
      var m := ReadFrom(b[1..], value + b[0] % 0x80 * Pow2(shift), shift + 7);
      n := m + 1;
      assert b[n - 1] == b[1..][m - 1];
      forall i | 0 <= i < n - 1 ensures b[i] >= 0x80 {
        assert i > 0 ==> b[i] == b[1..][i - 1];
      }
    }
  }

  /** For arbitrary bytes: an integer is read if and only if its prefix is not all ones, or at most eight bytes after
      it end in one below 128; it is then the prefix, and with it the sum of their groups of seven bits, however
      many of them are zero. */
  lemma ReadIntIff(b: seq<byte>, n: nat, v: nat, rest: seq<byte>)
    requires n <= 8 && b != []
    ensures ReadInt(b, n) == IntRead(v, rest) <==>
              if b[0] % Pow2(n) < Pow2(n) - 1 then v == b[0] % Pow2(n) && rest == b[1..]
              else exists k :: 0 < k <= 8 && Ends(b[1..], k) && v == Pow2(n) - 1 + GroupSum(b[1..][..k], 0)
                               && rest == b[1..][k..]
  {
    if b[0] % Pow2(n) >= Pow2(n) - 1 {
      if ReadInt(b, n).IntRead? {
        var k := ReadFrom(b[1..], b[0] % Pow2(n), 0);
        ReadsGroups(b[1..], b[0] % Pow2(n), 0, k);
      }
      forall k | 0 < k <= 8 && Ends(b[1..], k)
        ensures ReadInt(b, n) == IntRead(Pow2(n) - 1 + GroupSum(b[1..][..k], 0), b[1..][k..])
      {
        ReadsGroups(b[1..], b[0] % Pow2(n), 0, k);
      }
    }
  }

  // Strings.

  lemma {:induction false} ShorterGroups(a: nat, b: nat)
    requires a <= b
    ensures |Groups(a)| <= |Groups(b)|
    decreases a
  {
    if a >= 0x80 {
      ShorterGroups(a / 0x80, b / 0x80);
    }
  }

  /** A string is Huffman coded if and only if that is shorter, and so never takes more than as it is. */
  lemma ShortestString(t: Table, s: seq<byte>)
    ensures Pow2(7) <= 256 && EncodeString(t, s) != []
    ensures EncodeString(t, s)[0] >= 0x80 <==> |Coded(t, s)| < |s|
    ensures |EncodeString(t, s)| <= |EncodeInt(0, 7, |s|)| + |s|
  {
    assert Pow2(7) == 0x80;
    var n := |Coded(t, s)|;
    if n < |s| {
      if n >= Mask(7) {
        ShorterGroups(n - Mask(7), |s| - Mask(7));
      }
      assert EncodeString(t, s)[0] == EncodeInt(0x80, 7, n)[0];
    } else {
      assert EncodeString(t, s)[0] == EncodeInt(0, 7, |s|)[0];
    }
  }
}
