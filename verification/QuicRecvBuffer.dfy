/** Reassembly of a stream from frames that arrive out of order, overlap or repeat. */
module QuicRecvBuffer {
  import opened Bytes

  /** Received data waiting for what comes before it. */
  datatype Segment = Segment(off: nat, data: seq<byte>) {
    function End(): nat { off + |data| }

    ghost predicate PieceOf(written: seq<byte>) {
      End() <= |written| && data == written[off..End()]
    }
  }

  ghost predicate Sorted(segs: seq<Segment>) {
    && (forall i :: 0 <= i < |segs| ==> segs[i].data != [])
    && (forall i, j :: 0 <= i < j < |segs| ==> segs[i].off <= segs[j].off)
  }

  ghost predicate Carries(segs: seq<Segment>, x: int) {
    exists i :: 0 <= i < |segs| && segs[i].off <= x < segs[i].End()
  }

  function Total(segs: seq<Segment>): nat {
    if segs == [] then 0 else |segs[0].data| + Total(segs[1..])
  }

  /** The reference for push: after every segment that starts no later. */
  function Insert(segs: seq<Segment>, s: Segment): seq<Segment> {
    if segs != [] && segs[0].off <= s.off then [segs[0]] + Insert(segs[1..], s) else [s] + segs
  }

  /** The data pop hands on (empty for nil), and the buffer without it. */
  datatype Popped = Popped(rest: RecvBuf, data: seq<byte>)

  /** The value of a receiving buffer: the fields of recvBuffer. */
  datatype RecvBuf = RecvBuf(offset: nat, segments: seq<Segment>, buffered: int) {

    ghost predicate Valid() {
      Sorted(segments) && buffered == Total(segments)
    }

    /** Byte x has been delivered or waits in some segment. */
    ghost predicate Has(x: int) { x < offset || Carries(segments, x) }

    /** Every waiting segment is a piece of the stream. */
    ghost predicate Agrees(written: seq<byte>) {
      && offset <= |written|
      && forall s :: s in segments ==> s.PieceOf(written)
    }

    function Push(off: nat, data: seq<byte>): RecvBuf {
      if off + |data| <= offset || data == [] then this
      else
        var s := if off < offset then Segment(offset, data[offset - off..]) else Segment(off, data);
        this.(segments := Insert(segments, s), buffered := buffered + |s.data|)
    }

    function Pop(): Popped
      decreases |segments|
    {
      if segments == [] || segments[0].off > offset then Popped(this, [])
      else
        var s := segments[0];
        var rest := this.(segments := segments[1..], buffered := buffered - |s.data|);
        if s.End() <= offset then rest.Pop()
        else Popped(rest.(offset := s.End()), s.data[offset - s.off..])
    }
  }

  const EMPTY := RecvBuf(0, [], 0)

  lemma CarriesCons(segs: seq<Segment>, x: int)
    requires segs != []
    ensures Carries(segs, x) <==> segs[0].off <= x < segs[0].End() || Carries(segs[1..], x)
  {
    if Carries(segs, x) {
      var i :| 0 <= i < |segs| && segs[i].off <= x < segs[i].End();
      assert i > 0 ==> segs[1..][i - 1] == segs[i];
    }
    if Carries(segs[1..], x) {
      var i :| 0 <= i < |segs[1..]| && segs[1..][i].off <= x < segs[1..][i].End();
      assert segs[i + 1] == segs[1..][i];
    }
  }

  lemma SortedTail(segs: seq<Segment>)
    requires Sorted(segs) && segs != []
    ensures Sorted(segs[1..])
  {
    assert forall k :: 0 <= k < |segs[1..]| ==> segs[1..][k] == segs[k + 1];
  }

  lemma {:induction false} InsertSorted(segs: seq<Segment>, s: Segment)
    requires Sorted(segs) && s.data != []
    ensures Sorted(Insert(segs, s))
    ensures Insert(segs, s)[0] == (if segs != [] && segs[0].off <= s.off then segs[0] else s)
  {
    if segs != [] && segs[0].off <= s.off {
      SortedTail(segs);
      InsertSorted(segs[1..], s);
      SortedCons(segs[0], Insert(segs[1..], s));
    } else {
      SortedCons(s, segs);
    }
  }

  lemma SortedCons(s: Segment, segs: seq<Segment>)
    requires Sorted(segs) && s.data != [] && (segs != [] ==> s.off <= segs[0].off)
    ensures Sorted([s] + segs)
  {
    var r := [s] + segs;
    assert forall k :: 1 <= k < |r| ==> r[k] == segs[k - 1] && segs[0].off <= segs[k - 1].off;
  }

  lemma {:induction false} InsertCarries(segs: seq<Segment>, s: Segment, x: int)
    ensures Carries(Insert(segs, s), x) <==> Carries(segs, x) || s.off <= x < s.End()
  {
    var r := Insert(segs, s);
    CarriesCons(r, x);
    if segs != [] && segs[0].off <= s.off {
      InsertCarries(segs[1..], s, x);
      assert r[1..] == Insert(segs[1..], s);
      CarriesCons(segs, x);
    } else {
      assert r[1..] == segs;
    }
  }

  lemma {:induction false} InsertTotal(segs: seq<Segment>, s: Segment)
    ensures Total(Insert(segs, s)) == Total(segs) + |s.data|
    ensures forall t :: t in Insert(segs, s) ==> t == s || t in segs
  {
    var r := Insert(segs, s);
    if segs != [] && segs[0].off <= s.off {
      InsertTotal(segs[1..], s);
      assert r[1..] == Insert(segs[1..], s);
    } else {
      assert r[1..] == segs;
    }
  }

  /** Storing a frame adds exactly its bytes and nothing that is not in the stream. */
  lemma PushSound(r: RecvBuf, off: nat, data: seq<byte>, written: seq<byte>)
    requires r.Valid()
    ensures var r' := r.Push(off, data);
            && r'.Valid() && r'.offset == r.offset
            && (forall x :: r'.Has(x) <==> r.Has(x) || off <= x < off + |data|)
            && (r.Agrees(written) && Segment(off, data).PieceOf(written) ==> r'.Agrees(written))
  {
    if off + |data| > r.offset && data != [] {
      var s := if off < r.offset then Segment(r.offset, data[r.offset - off..]) else Segment(off, data);
      InsertSorted(r.segments, s);
      InsertTotal(r.segments, s);
      forall x ensures r.Push(off, data).Has(x) <==> r.Has(x) || off <= x < off + |data| {
        InsertCarries(r.segments, s, x);
      }
      if Segment(off, data).PieceOf(written) {
        assert s.data == written[s.off..s.End()];
      }
    }
  }

  /** The buffer without its first segment. */
  function Rest(r: RecvBuf): RecvBuf
    requires r.segments != []
  {
    r.(segments := r.segments[1..], buffered := r.buffered - |r.segments[0].data|)
  }

  lemma RestValid(r: RecvBuf)
    requires r.Valid() && r.segments != []
    ensures Rest(r).Valid() && r.segments[0].data != []
  {
    SortedTail(r.segments);
  }

  lemma {:induction false} PopValid(r: RecvBuf)
    requires r.Valid()
    ensures r.Pop().rest.Valid() && r.Pop().rest.offset == r.offset + |r.Pop().data|
    decreases |r.segments|
  {
    if r.segments != [] && r.segments[0].off <= r.offset {
      RestValid(r);
      if r.segments[0].End() <= r.offset {
        PopValid(Rest(r));
      }
    }
  }

  lemma {:induction false} PopHas(r: RecvBuf, x: int)
    requires r.Valid()
    ensures r.Pop().rest.Has(x) <==> r.Has(x)
    decreases |r.segments|
  {
    if r.segments != [] && r.segments[0].off <= r.offset {
      RestValid(r);
      CarriesCons(r.segments, x);
      if r.segments[0].End() <= r.offset {
        PopHas(Rest(r), x);
      }
    }
  }

  lemma {:induction false} PopStops(r: RecvBuf)
    requires r.Valid()
    ensures r.Pop().data == [] <==> !Carries(r.segments, r.offset)
    decreases |r.segments|
  {
    if r.segments != [] {
      RestValid(r);
      CarriesCons(r.segments, r.offset);
      if r.segments[0].off <= r.offset && r.segments[0].End() <= r.offset {
        PopStops(Rest(r));
      }
    }
  }

  lemma {:induction false} PopAgrees(r: RecvBuf, written: seq<byte>)
    requires r.Valid() && r.Agrees(written)
    ensures r.Pop().rest.Agrees(written) && r.Pop().rest.offset == r.offset + |r.Pop().data|
    ensures r.Pop().data == written[r.offset..r.Pop().rest.offset]
    decreases |r.segments|
  {
    PopValid(r);
    if r.segments != [] && r.segments[0].off <= r.offset {
      var s := r.segments[0];
      assert s in r.segments && forall t :: t in r.segments[1..] ==> t in r.segments;
      if s.End() <= r.offset {
        RestValid(r);
        PopAgrees(Rest(r), written);
      } else {
        assert s.data[r.offset - s.off..] == written[r.offset..s.End()];
      }
    }
  }

  /** Popping delivers the next bytes of the stream and forgets none; it stops only
      at a byte that has never been pushed. */
  lemma PopSound(r: RecvBuf, written: seq<byte>)
    requires r.Valid()
    ensures var Popped(r', data) := r.Pop();
            && r'.Valid()
            && r'.offset == r.offset + |data|
            && (data == [] <==> !Carries(r.segments, r.offset))
            && (forall x :: r'.Has(x) <==> r.Has(x))
            && (r.Agrees(written) ==> r'.Agrees(written) && data == written[r.offset..r'.offset])
  {
    PopValid(r);
    PopStops(r);
    forall x ensures r.Pop().rest.Has(x) <==> r.Has(x) {
      PopHas(r, x);
    }
    if r.Agrees(written) {
      PopAgrees(r, written);
    }
  }

  /** recvBuffer with its fields updated in place. */
  class RecvBuffer {
    var offset: nat
    var segments: seq<Segment>
    var buffered: int

    ghost function Value(): RecvBuf
      reads this
    {
      RecvBuf(offset, segments, buffered)
    }

    constructor ()
      ensures Value() == EMPTY && Value().Valid()
    {
      offset, segments, buffered := 0, [], 0;
    }

    /** sort.Search: the first segment that starts after off. */
    method SearchAfter(off: nat) returns (i: nat)
      requires Sorted(segments)
      ensures i <= |segments|
      ensures forall k :: 0 <= k < i ==> segments[k].off <= off
      ensures forall k :: i <= k < |segments| ==> off < segments[k].off
    {
      i := 0;
      var j := |segments|;
      while i < j
        invariant 0 <= i <= j <= |segments|
        invariant forall k :: 0 <= k < i ==> segments[k].off <= off
        invariant forall k :: j <= k < |segments| ==> off < segments[k].off
      {
        var h := (i + j) / 2;
        if segments[h].off > off {
          j := h;
        } else {
          i := h + 1;
        }
      }
    }

    method Push(off: nat, data: seq<byte>)
      requires Value().Valid()
      modifies this`segments, this`buffered
      ensures Value() == old(Value()).Push(off, data) && Value().Valid()
    {
      PushSound(Value(), off, data, []);
      if off + |data| <= offset || |data| == 0 {
        return;
      }
      var s := Segment(off, data);
      if off < offset {
        s := Segment(offset, data[offset - off..]);
      }
      var i := SearchAfter(s.off);
      SpliceIsInsert(segments, s, i);
      segments := segments[..i] + [s] + segments[i..];
      buffered := buffered + |s.data|;
    }

    method Pop() returns (data: seq<byte>)
      requires Value().Valid()
      modifies this
      ensures Popped(Value(), data) == old(Value()).Pop() && Value().Valid()
    {
      PopSound(Value(), []);
      while segments != []
        invariant Value().Pop() == old(Value()).Pop()
        decreases |segments|
      {
        var s := segments[0];
        if s.off > offset {
          return [];
        }
        segments := segments[1..];
        buffered := buffered - |s.data|;
        var end := s.off + |s.data|;
        if end <= offset {
          continue;
        }
        data := s.data[offset - s.off..];
        offset := end;
        return;
      }
      data := [];
    }
  }

  /** Splicing at the index the search finds is what Insert does. */
  lemma {:induction false} SpliceIsInsert(segs: seq<Segment>, s: Segment, i: nat)
    requires i <= |segs|
    requires forall k :: 0 <= k < i ==> segs[k].off <= s.off
    requires forall k :: i <= k < |segs| ==> s.off < segs[k].off
    ensures segs[..i] + [s] + segs[i..] == Insert(segs, s)
  {
    if i > 0 {
      SpliceIsInsert(segs[1..], s, i - 1);
      SpliceInTail(segs, i, s);
    } else {
      assert segs[..0] + [s] + segs[0..] == [s] + segs;
    }
  }

  lemma SpliceInTail(segs: seq<Segment>, i: nat, s: Segment)
    requires 0 < i <= |segs|
    ensures segs[..i] + [s] + segs[i..] == [segs[0]] + (segs[1..][..i - 1] + [s] + segs[1..][i - 1..])
  {
    assert segs[..i] == [segs[0]] + segs[1..][..i - 1];
    assert segs[i..] == segs[1..][i - 1..];
  }
}
