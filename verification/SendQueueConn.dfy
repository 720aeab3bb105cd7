/** The queue as the fields sends and sendHead of a connection. */
module SendQueueConn {
  import opened Bytes
  import opened SendQueue
  import opened SendQueueRun

  /** What is left in place of an item that has gone out. */
  const RELEASED := Mem([], 0, 0)

  class OutputQueue {
    var sends: seq<Item>
    var sendHead: nat

    ghost predicate Valid()
      reads this
    {
      sendHead <= |sends| && AllValid(sends[sendHead..]) && forall i :: 0 <= i < sendHead ==> sends[i] == RELEASED
    }

    ghost function Queue(): seq<Item>
      reads this
      requires sendHead <= |sends|
    {
      sends[sendHead..]
    }

    constructor ()
      ensures Valid() && Queue() == []
    {
      sends, sendHead := [], 0;
    }

    /** rewindQueueLocked. */
    method Rewind()
      requires sendHead == |sends|
      modifies this
      ensures Valid() && Queue() == [] && sends == [] && sendHead == 0
    {
      sends, sendHead := [], 0;
    }

    /** queueLocked. */
    method QueueLocked(first: seq<byte>, second: seq<byte>, cap: nat)
      requires Valid() && first + second != []
      modifies this
      ensures Valid() && Queue() == QueueCopy(old(Queue()), first + second, cap)
    {
      QueueCopyAdds(Queue(), first + second, cap);
      if |sends| > 0 {
        var tail := sends[|sends| - 1];
        if tail.Mem? && tail.cap > 0 && tail.offset == 0 && |tail.data| + |first| + |second| <= tail.cap {
          assert sendHead < |sends| && Queue()[|Queue()| - 1] == tail;
          LastReplaced(sends, sendHead, tail.(data := tail.data + first + second));
          assert tail.data + first + second == tail.data + (first + second);
          sends := sends[|sends| - 1 := tail.(data := tail.data + first + second)];
          return;
        }
        assert sendHead < |sends| ==> Queue()[|Queue()| - 1] == tail;
      }
      if sendHead == |sends| {
        Rewind();
      }
      var data := first + second;
      LastAdded(sends, sendHead, Mem(data, 0, if cap < |data| then |data| else cap));
      sends := sends + [Mem(data, 0, if cap < |data| then |data| else cap)];
    }

    /** queueOwnedLocked. */
    method QueueOwnedLocked(data: seq<byte>)
      requires Valid() && data != []
      modifies this
      ensures Valid() && Queue() == QueueOwned(old(Queue()), data)
    {
      QueueOneAdds(Queue(), Mem(data, 0, 0));
      if sendHead == |sends| {
        Rewind();
      }
      sends := sends + [Mem(data, 0, 0)];
      assert Queue() == QueueOwned(old(Queue()), data);
    }

    /** The item that SendFile queues. */
    method QueueFile(file: seq<byte>, offset: nat, count: nat)
      requires Valid() && count > 0 && offset + count <= |file|
      modifies this
      ensures Valid() && Queue() == old(Queue()) + [File(file, offset, count)]
    {
      QueueOneAdds(Queue(), File(file, offset, count));
      if sendHead == |sends| {
        Rewind();
      }
      sends := sends + [File(file, offset, count)];
      assert Queue() == old(Queue()) + [File(file, offset, count)];
    }

    /** Part of the item at the head has gone. */
    method AdvanceHead(n: nat)
      requires Valid() && sendHead < |sends| && n < |sends[sendHead].Left()|
      modifies this`sends
      ensures Valid() && Queue() == [old(Queue())[0].Advance(n)] + old(Queue())[1..]
    {
      ghost var q := Queue();
      AdvanceIs(sends[sendHead], n);
      sends := sends[sendHead := sends[sendHead].Advance(n)];
      assert Queue() == [q[0].Advance(n)] + q[1..];
    }

    /** All of it has: releaseItemLocked, and on to the next. */
    method ReleaseHead()
      requires Valid() && sendHead < |sends|
      modifies this
      ensures Valid() && Queue() == old(Queue())[1..] && |sends| - sendHead < old(|sends| - sendHead)
    {
      ghost var q := Queue();
      sends := sends[sendHead := RELEASED];
      sendHead := sendHead + 1;
      assert Queue() == q[1..];
    }

    /** One item of consumeLocked. */
    method ConsumeOne(left: nat) returns (more: bool, rest: nat)
      requires Valid() && sendHead < |sends|
      modifies this
      ensures Valid() && (more ==> |sends| - sendHead < old(|sends| - sendHead))
      ensures Consume(old(Queue()), left) == if more then Consume(Queue(), rest) else Queue()
    {
      var item := sends[sendHead];
      assert Queue()[0] == item && item.Valid();
      var remaining := if item.File? then item.remaining else |item.data| - item.offset;
      if left < remaining {
        AdvanceHead(left);
        return false, 0;
      }
      ReleaseHead();
      return true, left - remaining;
    }

    /** consumeLocked. */
    method ConsumeLocked(n: nat)
      requires Valid()
      modifies this
      ensures Valid() && Queue() == Consume(old(Queue()), n)
    {
      var left := n;
      var more := true;
      while more && sendHead < |sends|
        invariant Valid()
        invariant Consume(old(Queue()), n) == if more then Consume(Queue(), left) else Queue()
        decreases more, |sends| - sendHead
      {
        more, left := ConsumeOne(left);
      }
    }

    /** The buffers of one writev. */
    method Gather(count: nat) returns (buffers: seq<seq<byte>>, attempted: nat)
      requires Valid() && count <= |sends| - sendHead
      ensures Concat(buffers) == Flat(Batch(Queue(), count)) && attempted == |Concat(buffers)|
    {
      buffers, attempted := GatherFrom(sends[sendHead..], count);
    }
  }

  lemma LastReplaced(sends: seq<Item>, head: nat, item: Item)
    requires head < |sends|
    ensures var q := sends[head..]; sends[|sends| - 1 := item][head..] == q[..|q| - 1] + [item]
  {
  }

  lemma LastAdded(sends: seq<Item>, head: nat, item: Item)
    requires head <= |sends|
    ensures (sends + [item])[head..] == sends[head..] + [item]
  {
  }

  /** The loop that collects them. */
  method GatherFrom(q: seq<Item>, count: nat) returns (buffers: seq<seq<byte>>, attempted: nat)
    requires AllValid(q) && count <= |q|
    ensures Concat(buffers) == Flat(Batch(q, count)) && attempted == |Concat(buffers)|
  {
    buffers, attempted := [], 0;
    var i := 0;
    AheadIs(q, 0, count);
    while i < count
      invariant 0 <= i <= count && attempted == |Concat(buffers)|
      invariant Concat(buffers) + Ahead(q, i, count) == Flat(Batch(q, count))
    {
      if q[i].File? {
        AheadIs(q, i, count);
        return;
      }
      NextBuffer(q, i, count, buffers);
      buffers := buffers + [q[i].data[q[i].offset..]];
      attempted := attempted + (|q[i].data| - q[i].offset);
      i := i + 1;
    }
    AheadIs(q, i, count);
  }

  /** What the items from i on still have to give. */
  ghost function Ahead(q: seq<Item>, i: nat, count: nat): seq<byte>
    requires i <= count <= |q|
  {
    Flat(Batch(q[i..], count - i))
  }

  lemma AheadIs(q: seq<Item>, i: nat, count: nat)
    requires i <= count <= |q|
    ensures i == 0 ==> Ahead(q, i, count) == Flat(Batch(q, count))
    ensures i == count || q[i].File? ==> Ahead(q, i, count) == []
  {
    assert q[0..] == q;
  }

  lemma NextBuffer(all: seq<Item>, i: nat, upTo: nat, buffers: seq<seq<byte>>)
    requires i < upTo <= |all| && all[i].Mem? && all[i].Valid()
    ensures Concat(buffers) + Ahead(all, i, upTo)
         == Concat(buffers + [all[i].data[all[i].offset..]]) + Ahead(all, i + 1, upTo)
    ensures |Concat(buffers + [all[i].data[all[i].offset..]])| == |Concat(buffers)| + |all[i].data| - all[i].offset
  {
    var q, count := all[i..], upTo - i;
    assert q[0] == all[i] && q[1..] == all[i + 1..];
    var b := Batch(q[1..], count - 1);
    assert (buffers + [q[0].Left()])[..|buffers|] == buffers;
    assert ([q[0]] + b)[1..] == b;
    assert Concat(buffers) + (q[0].Left() + Flat(b)) == Concat(buffers) + q[0].Left() + Flat(b);
  }

  /** The budget that the connections of a server share. */
  class Engine {
    var pendingTotal: int

    constructor ()
      ensures pendingTotal == 0
    {
      pendingTotal := 0;
    }
  }

  /** The sending part of a connection; wire and accepted record what the socket took and what the
      caller gave. */
  class Connection {
    const engine: Engine
    const out: OutputQueue
    var flushing: bool
    var corked: bool
    var closing: bool
    var closed: bool
    var closeAfterSend: bool
    var pendingBytes: int
    ghost var wire: seq<byte>
    ghost var accepted: seq<byte>

    ghost function Value(): Pair
      reads this, engine, out
      requires out.sendHead <= |out.sends|
    {
      Pair(Conn(out.Queue(), flushing, corked, closing, closed, closeAfterSend, pendingBytes, wire, accepted),
           engine.pendingTotal)
    }

    constructor (e: Engine)
      ensures engine == e && fresh(out) && out.Valid() && Value().c == FRESH
    {
      engine := e;
      out := new OutputQueue();
      flushing, corked, closing, closed, closeAfterSend, pendingBytes := false, false, false, false, false, 0;
      wire, accepted := [], [];
    }

    /** addPending. */
    method Add(n: int)
      requires out.Valid()
      modifies this`pendingBytes, engine
      ensures Value() == AddPending(old(Value()), n)
    {
      if n <= 0 {
        return;
      }
      pendingBytes := pendingBytes + n;
      engine.pendingTotal := engine.pendingTotal + n;
    }

    /** subPending. */
    method Sub(n: int)
      requires out.Valid()
      modifies this`pendingBytes, engine
      ensures Value() == SubPending(old(Value()), n)
    {
      if n <= 0 {
        return;
      }
      pendingBytes := pendingBytes - n;
      var taken := n;
      if pendingBytes < 0 {
        taken := n + pendingBytes;
        pendingBytes := 0;
      }
      if taken > 0 {
        engine.pendingTotal := engine.pendingTotal - taken;
      }
    }

    /** send: the socket takes the first taken bytes if they may go to it directly. */
    method SendData(data: seq<byte>, copyData: bool, taken: nat, cap: nat) returns (ok: bool)
      requires out.Valid() && taken <= |data|
      modifies this`pendingBytes, this`wire, this`accepted, engine, out
      ensures out.Valid() && Value() == Send(old(Value()), data, copyData, taken, cap)
      ensures ok == (data == [] || old(Accepts(Value().c)))
    {
      if data == [] {
        return true;
      }
      if closing || closed || closeAfterSend {
        return false;
      }
      var sent := 0;
      if out.sendHead == |out.sends| && !flushing && !corked {
        sent := taken;
      }
      wire, accepted := wire + data[..sent], accepted + data;
      ok := true;
      if sent < |data| {
        var rest := data[sent..];
        if copyData {
          assert rest + [] == rest;
          out.QueueLocked(rest, [], cap);
        } else {
          out.QueueOwnedLocked(rest);
        }
        Add(|rest|);
      }
    }

    /** One round of flushOutput on a connection that is flushing: the socket takes n bytes of what
        it is offered. */
    method FlushOnce(n: nat, useWritev: bool)
      requires out.Valid() && flushing && (out.Queue() != [] ==> n <= Offered(out.Queue(), useWritev))
      modifies this`flushing, this`closing, this`pendingBytes, this`wire, engine, out
      ensures out.Valid() && Value() == FlushRound(old(Value()), n, useWritev)
    {
      if out.sendHead == |out.sends| {
        out.Rewind();
        flushing := false;
        closing := closing || closeAfterSend;
        return;
      }
      var attempted := Attempt(useWritev);
      if n == 0 {
        flushing := false;
        return;
      }
      OfferedIsThere(out.Queue(), useWritev, n);
      TakeOff(n);
      if n < attempted {
        flushing := false;
      }
    }

    /** n bytes have gone. */
    method TakeOff(n: nat)
      requires out.Valid() && out.sendHead < |out.sends| && n <= |Flat(out.Queue())|
      modifies this`pendingBytes, this`wire, engine, out
      ensures out.Valid() && Value() == Took(old(Value()), n)
    {
      assert out.Queue()[0] == out.sends[out.sendHead];
      wire := wire + Flat(out.Queue())[..n];
      if !out.sends[out.sendHead].File? {
        Sub(n);
      }
      out.ConsumeLocked(n);
    }

    /** How much the next call offers to the socket. */
    method Attempt(useWritev: bool) returns (attempted: nat)
      requires out.Valid() && out.sendHead < |out.sends|
      ensures attempted == Offered(out.Queue(), useWritev)
    {
      var head, items := out.sends[out.sendHead], |out.sends| - out.sendHead;
      assert out.Queue()[0] == head && head.Valid();
      if head.File? {
        attempted := if head.remaining < MAX_SENDFILE_CALL then head.remaining else MAX_SENDFILE_CALL;
      } else if useWritev && items > 1 {
        var count := if items > MAX_WRITEV_ITEMS then MAX_WRITEV_ITEMS else items;
        var buffers;
        buffers, attempted := out.Gather(count);
        if items < MAX_WRITEV_ITEMS {
          BatchAll(out.Queue(), items, MAX_WRITEV_ITEMS);
        }
      } else {
        attempted := |head.data| - head.offset;
      }
    }

    /** closeConnection. */
    method CloseNow()
      requires out.Valid()
      modifies this`closed, this`closing, this`pendingBytes, engine, out
      ensures out.Valid() && Value() == Drop(old(Value()))
    {
      if closed {
        return;
      }
      closed, closing := true, true;
      out.sends, out.sendHead := [], 0;
      if pendingBytes > 0 {
        engine.pendingTotal := engine.pendingTotal - pendingBytes;
      }
      pendingBytes := 0;
    }
  }

  lemma {:induction false} BatchAll(q: seq<Item>, a: nat, b: nat)
    requires |q| <= a && |q| <= b
    ensures Batch(q, a) == Batch(q, b)
  {
    if q != [] && q[0].Mem? {
      BatchAll(q[1..], a - 1, b - 1);
    }
  }
}
