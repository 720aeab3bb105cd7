/** What a connection has accepted and the socket has not yet taken. */
module SendQueue {
  import opened Bytes

  const MAX_WRITEV_ITEMS := 64
  const MAX_SENDFILE_CALL := 0x4000_0000

  /** A piece of output: bytes in memory, in a pooled buffer of capacity cap or, with cap zero, in
      an array the caller handed over; or part of a file. */
  datatype Item =
    | Mem(data: seq<byte>, offset: nat, cap: nat)
    | File(file: seq<byte>, offset: nat, remaining: nat)
  {
    ghost predicate Valid() {
      match this
      case Mem(data, offset, _) => offset < |data|
      case File(file, offset, n) => n > 0 && offset + n <= |file|
    }

    /** What is still to be sent of it. */
    function Left(): seq<byte> {
      match this
      case Mem(data, offset, _) => if offset <= |data| then data[offset..] else []
      case File(file, offset, n) => if offset + n <= |file| then file[offset..offset + n] else []
    }

    function Advance(n: nat): Item {
      match this
      case Mem(data, offset, cap) => Mem(data, offset + n, cap)
      case File(file, offset, left) => File(file, offset + n, if n <= left then left - n else 0)
    }
  }

  ghost predicate AllValid(q: seq<Item>) { forall i :: 0 <= i < |q| ==> q[i].Valid() }

  /** All the bytes of a queue, in the order in which they go out. */
  function Flat(q: seq<Item>): seq<byte> { if q == [] then [] else q[0].Left() + Flat(q[1..]) }

  /** How many of them are held in memory. */
  function InMemory(q: seq<Item>): nat {
    if q == [] then 0 else (if q[0].Mem? then |q[0].Left()| else 0) + InMemory(q[1..])
  }

  lemma {:induction false} FlatAppend(a: seq<Item>, b: seq<Item>)
    ensures Flat(a + b) == Flat(a) + Flat(b) && InMemory(a + b) == InMemory(a) + InMemory(b)
  {
    if a == [] {
      assert a + b == b;
    } else {
      assert (a + b)[0] == a[0] && (a + b)[1..] == a[1..] + b;
      FlatAppend(a[1..], b);
    }
  }

  lemma FlatOne(i: Item)
    ensures Flat([i]) == i.Left() && InMemory([i]) == if i.Mem? then |i.Left()| else 0
  {
    assert [i][1..] == [];
  }

  // Queueing.

  /** Whether data still fits into the buffer of the last item, of which nothing has gone out. */
  predicate Merges(q: seq<Item>, data: seq<byte>) {
    q != [] && var last := q[|q| - 1]; last.Mem? && last.cap > 0 && last.offset == 0 && |last.data| + |data| <= last.cap
  }

  /** queueLocked; cap is the capacity of the buffer it would acquire. */
  function QueueCopy(q: seq<Item>, data: seq<byte>, cap: nat): seq<Item> {
    if Merges(q, data) then
      var last := q[|q| - 1];
      q[..|q| - 1] + [last.(data := last.data + data)]
    else q + [Mem(data, 0, if cap < |data| then |data| else cap)]
  }

  /** queueOwnedLocked. */
  function QueueOwned(q: seq<Item>, data: seq<byte>): seq<Item> { q + [Mem(data, 0, 0)] }

  /** A longer last item. */
  lemma MergeAdds(init: seq<Item>, last: Item, data: seq<byte>)
    requires last.Mem? && last.offset == 0
    ensures var more := last.(data := last.data + data);
            Flat(init + [more]) == Flat(init + [last]) + data
            && InMemory(init + [more]) == InMemory(init + [last]) + |data|
  {
    var more := last.(data := last.data + data);
    FlatAppend(init, [last]);
    FlatAppend(init, [more]);
    FlatOne(last);
    FlatOne(more);
    assert more.Left() == last.Left() + data;
    Regroup(Flat(init), last.Left(), data);
  }

  lemma Regroup(a: seq<byte>, b: seq<byte>, c: seq<byte>)
    ensures a + (b + c) == a + b + c
  {
  }

  lemma QueueCopyAdds(q: seq<Item>, data: seq<byte>, cap: nat)
    requires AllValid(q) && data != []
    ensures var n := QueueCopy(q, data, cap);
            AllValid(n) && n != [] && Flat(n) == Flat(q) + data && InMemory(n) == InMemory(q) + |data|
  {
    if Merges(q, data) {
      var init, last := q[..|q| - 1], q[|q| - 1];
      assert q == init + [last];
      MergeAdds(init, last, data);
    } else {
      QueueOneAdds(q, Mem(data, 0, if cap < |data| then |data| else cap));
    }
  }

  lemma QueueOneAdds(q: seq<Item>, i: Item)
    requires AllValid(q) && i.Valid()
    ensures AllValid(q + [i]) && Flat(q + [i]) == Flat(q) + i.Left()
    ensures InMemory(q + [i]) == InMemory(q) + if i.Mem? then |i.Left()| else 0
  {
    FlatAppend(q, [i]);
    FlatOne(i);
  }

  // Sending.

  /** consumeLocked: n bytes have left from the head. */
  function Consume(q: seq<Item>, n: nat): seq<Item> {
    if q == [] then []
    else if n < |q[0].Left()| then [q[0].Advance(n)] + q[1..]
    else Consume(q[1..], n - |q[0].Left()|)
  }

  lemma AdvanceIs(i: Item, n: nat)
    requires i.Valid() && n < |i.Left()|
    ensures i.Advance(n).Valid() && i.Advance(n).Left() == i.Left()[n..] && i.Advance(n).Mem? == i.Mem?
  {
  }

  lemma DropIs(a: seq<byte>, b: seq<byte>, n: nat)
    requires n <= |a + b|
    ensures (a + b)[n..] == if n < |a| then a[n..] + b else b[n - |a|..]
  {
  }

  /** The first n bytes are exactly the ones that go. */
  lemma {:induction false} ConsumeIs(q: seq<Item>, n: nat)
    requires AllValid(q) && n <= |Flat(q)|
    ensures AllValid(Consume(q, n)) && Flat(Consume(q, n)) == Flat(q)[n..]
  {
    if q != [] {
      var k := |q[0].Left()|;
      DropIs(q[0].Left(), Flat(q[1..]), n);
      if n < k {
        AdvanceIs(q[0], n);
        assert ([q[0].Advance(n)] + q[1..])[1..] == q[1..];
      } else {
        ConsumeIs(q[1..], n - k);
      }
    }
  }

  /** How many bytes the next call offers to the socket. */
  function Offered(q: seq<Item>, useWritev: bool): nat
    requires q != []
  {
    if q[0].File? then if q[0].remaining < MAX_SENDFILE_CALL then q[0].remaining else MAX_SENDFILE_CALL
    else if useWritev && |q| > 1 then |Flat(Batch(q, MAX_WRITEV_ITEMS))|
    else |q[0].Left()|
  }

  /** The items of one writev: no more than count, and none from the first file on. */
  function Batch(q: seq<Item>, count: nat): seq<Item> {
    if q == [] || count == 0 || q[0].File? then [] else [q[0]] + Batch(q[1..], count - 1)
  }

  lemma {:induction false} BatchIs(q: seq<Item>, count: nat)
    ensures Batch(q, count) <= q && (forall i :: 0 <= i < |Batch(q, count)| ==> q[i].Mem?)
  {
    if q != [] && count > 0 && q[0].Mem? {
      BatchIs(q[1..], count - 1);
    }
  }

  /** Bytes of the first k items, all in memory, lower the count by as much; bytes of a file at the
      head do not count. */
  lemma {:induction false} ConsumeInMemory(q: seq<Item>, n: nat, k: nat)
    requires AllValid(q) && k <= |q| && (forall i :: 0 <= i < k ==> q[i].Mem?) && n <= |Flat(q[..k])|
    ensures InMemory(Consume(q, n)) + n == InMemory(q)
  {
    if k == 0 || q == [] {
      assert q[..k] == [];
      if q != [] {
        assert ([q[0].Advance(0)] + q[1..])[1..] == q[1..];
        assert q[0].Advance(0).Left() == q[0].Left();
      }
    } else {
      var m := |q[0].Left()|;
      assert q[..k][1..] == q[1..][..k - 1] && q[..k][0] == q[0];
      if n < m {
        assert ([q[0].Advance(n)] + q[1..])[1..] == q[1..];
      } else {
        ConsumeInMemory(q[1..], n - m, k - 1);
      }
    }
  }
}
