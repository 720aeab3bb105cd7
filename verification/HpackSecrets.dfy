/** What gets into the dynamic tables: fields marked sensitive do not. */
module HpackSecrets {
  import opened Bytes
  import opened HpackTable
  import opened HpackCodec
  import opened HpackSync
  import Hpack

  /** f is among hs, not marked sensitive, and no larger than half of a table of size max. */
  ghost predicate Indexable(hs: seq<Header>, f: Field, max: nat) {
    Header(f, false) in hs && Size(f) <= max / 2
  }

  lemma KeptWasThere(entries: seq<Field>, max: nat, f: Field)
    requires f in EvictTo(entries, max)
    ensures f in entries
  {
    EvictKeeps(entries, max);
  }

  lemma {:induction false} FieldsEnter(st: seq<Field>, d: Dynamic, hs: seq<Header>, f: Field)
    requires f in AfterFields(st, d, hs).entries
    ensures f in d.entries || Indexable(hs, f, d.maxSize)
    decreases |hs|
  {
    if hs != [] {
      var i := Choose(st, d, hs[0].f, hs[0].sensitive);
      FieldsEnter(st, Effect(d, i), hs[1..], f);
      assert hs == [hs[0]] + hs[1..];
      if f in Effect(d, i).entries && i.Literal? && i.kind.Indexing? {
        KeptWasThere(d.entries + [i.f], d.maxSize, f);
        assert hs[0] == Header(hs[0].f, false);
      }
    }
  }

  /** Some block of the run has f, not marked sensitive. */
  ghost predicate SentOpenly(run: seq<Event>, f: Field) {
    exists i :: 0 <= i < |run| && run[i].Send? && Header(f, false) in run[i].hs
  }

  lemma OpenlyBefore(run: seq<Event>, f: Field)
    requires run != [] && SentOpenly(run[..|run| - 1], f)
    ensures SentOpenly(run, f)
  {
    var i :| 0 <= i < |run| - 1 && run[..|run| - 1][i].Send? && Header(f, false) in run[..|run| - 1][i].hs;
    assert run[i] == run[..|run| - 1][i];
  }

  /** In every run the table of the encoder holds only fields that were sent openly. */
  lemma {:induction false} SecretsStayOut(w: Wire, st: seq<Field>, allowed: nat, run: seq<Event>, f: Field)
    requires Consumes(w) && f in Exec(w, st, allowed, run).e.table.entries
    ensures SentOpenly(run, f)
  {
    var before, event := run[..|run| - 1], run[|run| - 1];
    var e := Exec(w, st, allowed, before).e;
    if f !in e.table.entries {
      assert event.Send? by {
        if event.Resize? {
          ResizeEnters(e, event.n, f);
        }
      }
      FieldsEnter(st, e.table, event.hs, f);
    } else {
      SecretsStayOut(w, st, allowed, before, f);
      OpenlyBefore(run, f);
    }
  }

  lemma ResizeEnters(e: Encoder, n: nat, f: Field)
    requires f in SetMaxTableSize(e, n).table.entries
    ensures f in e.table.entries
  {
    var m := if n > DEFAULT_TABLE_SIZE then DEFAULT_TABLE_SIZE else n;
    if m != e.table.maxSize {
      KeptWasThere(e.table.entries, m, f);
    }
  }

  lemma {:induction false} BlockEnters(st: seq<Field>, e: Dynamic, d: Dynamic, hs: seq<Header>, f: Field)
    requires f in AfterBlock(st, e, d, hs).entries
    ensures f in d.entries || Header(f, false) in hs
    decreases |hs|
  {
    if hs != [] {
      var i := Choose(st, e, hs[0].f, hs[0].sensitive);
      BlockEnters(st, Effect(e, i), Effect(d, i), hs[1..], f);
      assert hs == [hs[0]] + hs[1..];
      if f in Effect(d, i).entries && i.Literal? && i.kind.Indexing? {
        KeptWasThere(d.entries + [i.f], d.maxSize, f);
        assert hs[0] == Header(hs[0].f, false);
      }
    }
  }

  /** So does the table of a decoder with any limit, as long as all blocks decode. */
  lemma {:induction false} DecoderIsOpen(w: Wire, short: seq<byte> -> bool, st: seq<Field>, allowed: nat,
                                         run: seq<Event>, f: Field)
    requires Faithful(w, short) && |st| < 0x8000 && RunSendable(run, short)
    requires Exec(w, st, allowed, run).ok && f in Exec(w, st, allowed, run).d.entries
    ensures SentOpenly(run, f)
  {
    var before, event := run[..|run| - 1], run[|run| - 1];
    var s := Exec(w, st, allowed, before);
    if f in s.d.entries {
      DecoderIsOpen(w, short, st, allowed, before, f);
      OpenlyBefore(run, f);
    } else {
      AlwaysInStep(w, short, st, allowed, before);
      BlockRoundTrip(w, short, st, allowed, s.e, s.d, event.hs);
      BlockEnters(st, s.e.table, if s.e.pending then s.e.table else s.d, event.hs, f);
      if f in s.e.table.entries {
        SecretsStayOut(w, st, allowed, before, f);
        OpenlyBefore(run, f);
      }
    }
  }

  /** The same with the coders and tables of the package. */
  lemma BothTablesAreOpen(maxLen: nat, allowed: nat, run: seq<Event>, f: Field)
    requires RunSendable(run, Hpack.Short(maxLen)) && Consumes(Hpack.RealWire(maxLen))
    requires var s := Exec(Hpack.RealWire(maxLen), Hpack.STATIC, allowed, run);
             f in s.e.table.entries || (s.ok && f in s.d.entries)
    ensures SentOpenly(run, f)
  {
    Hpack.RealWireIsFaithful(maxLen);
    assert |Hpack.STATIC| == 61;
    var w, s := Hpack.RealWire(maxLen), Exec(Hpack.RealWire(maxLen), Hpack.STATIC, allowed, run);
    if f in s.e.table.entries {
      SecretsStayOut(w, Hpack.STATIC, allowed, run, f);
    } else {
      DecoderIsOpen(w, Hpack.Short(maxLen), Hpack.STATIC, allowed, run, f);
    }
  }
}
