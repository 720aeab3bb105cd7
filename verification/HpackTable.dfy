/** The dynamic table of HPACK (section 4 of RFC 7541), newest entry last. */
module HpackTable {
  import opened Bytes

  datatype Field = Field(name: seq<byte>, value: seq<byte>)

  function Size(f: Field): nat { |f.name| + |f.value| + 32 }

  function Total(entries: seq<Field>): nat {
    if entries == [] then 0 else Size(entries[0]) + Total(entries[1..])
  }

  lemma {:induction false} TotalSnoc(entries: seq<Field>, f: Field)
    ensures Total(entries + [f]) == Total(entries) + Size(f)
  {
    if entries == [] {
      assert entries + [f] == [f];
    } else {
      assert (entries + [f])[1..] == entries[1..] + [f];
      TotalSnoc(entries[1..], f);
    }
  }

  /** The newest entries that fit in max. */
  function EvictTo(entries: seq<Field>, max: int): (kept: seq<Field>)
    ensures |kept| <= |entries|
  {
    if entries == [] || Total(entries) <= max then entries else EvictTo(entries[1..], max)
  }

  /** Eviction keeps the longest suffix that fits. */
  lemma {:induction false} EvictKeeps(entries: seq<Field>, max: nat)
    ensures var kept := EvictTo(entries, max);
            var gone := |entries| - |kept|;
            kept == entries[gone..] && Total(kept) <= max && (gone > 0 ==> Total(entries[gone - 1..]) > max)
  {
    if entries != [] && Total(entries) > max {
      EvictKeeps(entries[1..], max);
      var gone := |entries| - |EvictTo(entries, max)|;
      assert entries[1..][gone - 1..] == entries[gone..];
      if gone > 1 {
        assert entries[1..][gone - 2..] == entries[gone - 1..];
      } else {
        assert entries[0..] == entries;
      }
    }
  }

  /** The last of several evictions to ever smaller sizes is the only one that counts. */
  lemma {:induction false} EvictTwice(entries: seq<Field>, a: int, b: int)
    ensures EvictTo(EvictTo(entries, a), b) == EvictTo(entries, if a < b then a else b)
  {
    if entries != [] && Total(entries) > a {
      EvictTwice(entries[1..], a, b);
    }
  }

  /** What falls out before an entry is added would have fallen out after. */
  lemma {:induction false} EvictThenAdd(entries: seq<Field>, f: Field, max: nat)
    ensures EvictTo(EvictTo(entries, max) + [f], max) == EvictTo(entries + [f], max)
  {
    if entries != [] && Total(entries) > max {
      EvictThenAdd(entries[1..], f, max);
      TotalSnoc(entries, f);
      assert (entries + [f])[1..] == entries[1..] + [f];
    }
  }

  lemma {:induction false} CountFits(entries: seq<Field>)
    ensures 32 * |entries| <= Total(entries)
  {
    if entries != [] {
      CountFits(entries[1..]);
    }
  }

  datatype Dynamic = Dynamic(entries: seq<Field>, maxSize: nat) {
    ghost predicate Valid() { Total(entries) <= maxSize }

    /** add. */
    function Add(f: Field): Dynamic { this.(entries := EvictTo(entries + [f], maxSize)) }

    /** setMaxSize. */
    function SetMax(n: nat): Dynamic { Dynamic(EvictTo(entries, n), n) }

    /** field: the static table first, then the dynamic one from its newest entry. */
    function Lookup(st: seq<Field>, index: nat): seq<Field> {
      if index == 0 then []
      else if index <= |st| then [st[index - 1]]
      else if index - |st| > |entries| then []
      else [entries[|entries| - (index - |st|)]]
    }
  }

  lemma AddValid(d: Dynamic, f: Field)
    ensures d.Add(f).Valid() && d.Add(f).maxSize == d.maxSize
  {
    EvictKeeps(d.entries + [f], d.maxSize);
  }

  lemma SetMaxValid(d: Dynamic, n: nat)
    ensures d.SetMax(n).Valid()
  {
    EvictKeeps(d.entries, n);
  }

  class DynamicTable {
    var entries: seq<Field>
    var size: int
    var maxSize: nat

    ghost predicate Counted()
      reads this
    {
      size == Total(entries)
    }

    ghost function Value(): Dynamic
      reads this
    {
      Dynamic(entries, maxSize)
    }

    constructor (max: nat)
      ensures Counted() && Value() == Dynamic([], max)
    {
      entries, size, maxSize := [], 0, max;
    }

    /** evict. */
    method Evict()
      requires Counted()
      modifies this`entries, this`size
      ensures Counted() && entries == EvictTo(old(entries), maxSize)
    {
      var n := 0;
      assert entries[0..] == entries;
      while size > maxSize && n < |entries|
        invariant 0 <= n <= |entries| && entries == old(entries) && size == Total(entries[n..])
        invariant EvictTo(entries, maxSize) == EvictTo(entries[n..], maxSize)
        modifies this`size
      {
        assert entries[n..][1..] == entries[n + 1..];
        size := size - Size(entries[n]);
        n := n + 1;
      }
      entries := entries[n..];
    }

    method AddEntry(f: Field)
      requires Counted()
      modifies this`entries, this`size
      ensures Counted() && Value() == old(Value()).Add(f)
    {
      TotalSnoc(entries, f);
      size := size + Size(f);
      entries := entries + [f];
      Evict();
    }

    method SetMaxSize(n: nat)
      requires Counted()
      modifies this
      ensures Counted() && Value() == old(Value()).SetMax(n)
    {
      maxSize := n;
      Evict();
    }

    method FieldAt(st: seq<Field>, index: nat) returns (f: seq<Field>)
      ensures f == Value().Lookup(st, index)
    {
      if index == 0 {
        return [];
      }
      if index <= |st| {
        return [st[index - 1]];
      }
      var rest := index - |st|;
      if rest > |entries| {
        return [];
      }
      f := [entries[|entries| - rest]];
    }
  }
}
