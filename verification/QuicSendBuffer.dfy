/** What a stream, or the CRYPTO stream of a packet number space, has been given to
    send and the peer has not acknowledged yet. */
module QuicSendBuffer {
  import opened Bytes
  import opened Arithmetic
  import opened QuicSpans

  /** Bytes taken out of a buffer to be sent, and the buffer without them. */
  datatype Pop = Pop(rest: SendBuf, off: nat, data: seq<byte>)

  /** The value of a sending buffer: the fields of sendBuffer. */
  datatype SendBuf = SendBuf(base: nat, buf: seq<byte>, next: nat, lost: seq<Span>, acked: seq<Span>) {

    function End(): nat { base + |buf| }

    /** base is the first byte not acknowledged; nothing unsent is lost or acknowledged. */
    ghost predicate Valid() {
      && base <= next <= End()
      && Canonical(lost) && EndsBy(lost, next)
      && Canonical(acked) && EndsBy(acked, next)
      && (acked != [] ==> base < acked[0].off)
    }

    /** x is known to have arrived. */
    ghost predicate Acked(x: int) { x < base || Covers(acked, x) }

    /** The bytes still held are the tail of everything ever written. */
    ghost predicate Holds(written: seq<byte>) {
      |written| == End() && written[base..] == buf
    }

    function Write(p: seq<byte>): SendBuf { this.(buf := buf + p) }

    /** hasLost drops the lost ranges that have been acknowledged since. */
    function Trim(): SendBuf { this.(lost := TrimSpans(lost, base)) }

    function PopLost(n: nat): Pop
      requires Valid()
    {
      var t := Trim();
      TrimSound(lost, base, next);
      if t.lost == [] || n == 0 then Pop(t, 0, [])
      else
        var off := Max(t.lost[0].off, base);
        var end := Min(t.lost[0].end, off + n);
        Pop(t.(lost := CutAt(t.lost, end)), off, buf[off - base..end - base])
    }

    function PopNew(n: nat): Pop
      requires Valid()
    {
      var end := Min(End(), next + n);
      Pop(this.(next := end), next, buf[next - base..end - base])
    }

    function OnAck(off: nat, n: nat): SendBuf
      requires Valid() && off + n <= next
    {
      var a := Merge(acked, Span(off, off + n));
      MergeSound(acked, Span(off, off + n));
      MergeEndsBy(acked, Span(off, off + n), next);
      if a == [] || a[0].off > base then this.(acked := a)
      else if a[0].end <= base then this.(acked := a[1..])
      else SendBuf(a[0].end, buf[a[0].end - base..], next, lost, a[1..])
    }

    function OnLost(off: nat, n: nat): SendBuf
    {
      if off + n <= Max(off, base) then this
      else this.(lost := Merge(lost, Span(Max(off, base), off + n)))
    }

    predicate AllAcked() { buf == [] }
  }

  const EMPTY := SendBuf(0, [], 0, [], [])

  /** spans without what its head has before end. */
  function CutAt(spans: seq<Span>, end: nat): seq<Span>
    requires spans != []
  {
    if end >= spans[0].end then spans[1..] else spans[0 := Span(end, spans[0].end)]
  }

  function TrimSpans(lost: seq<Span>, base: nat): seq<Span> {
    if lost != [] && lost[0].end <= base then TrimSpans(lost[1..], base) else lost
  }

  /** Trimming forgets no byte from base on. */
  lemma {:induction false} TrimSound(lost: seq<Span>, base: nat, limit: nat)
    requires Canonical(lost) && EndsBy(lost, limit)
    ensures Canonical(TrimSpans(lost, base)) && EndsBy(TrimSpans(lost, base), limit)
    ensures forall x :: base <= x ==> (Covers(TrimSpans(lost, base), x) <==> Covers(lost, x))
    ensures forall x :: Covers(TrimSpans(lost, base), x) ==> Covers(lost, x)
    ensures TrimSpans(lost, base) != [] ==> base < TrimSpans(lost, base)[0].end
  {
    if lost != [] && lost[0].end <= base {
      CanonicalTail(lost);
      TrimSound(lost[1..], base, limit);
      forall x ensures Covers(lost[1..], x) ==> Covers(lost, x)
               ensures base <= x ==> (Covers(lost[1..], x) <==> Covers(lost, x)) {
        CoversCons(lost, x);
      }
    }
  }

  /** Taking from a lost range hands out exactly the bytes that stop being lost. */
  lemma PopLostSound(b: SendBuf, n: nat)
    requires b.Valid()
    ensures var Pop(b', off, data) := b.PopLost(n);
            && b'.Valid()
            && b' == b.(lost := b'.lost)
            && |data| <= n
            && (data == [] <==> n == 0 || b.Trim().lost == [])
            && (data != [] ==> b.base <= off && off + |data| <= b.next
                               && data == b.buf[off - b.base..off - b.base + |data|])
            && (forall x :: b.base <= x ==>
                  (Covers(b.lost, x) <==> Covers(b'.lost, x) || off <= x < off + |data|))
            && (forall x :: off <= x < off + |data| ==> !Covers(b'.lost, x))
  {
    TrimSound(b.lost, b.base, b.next);
    var t := b.Trim().lost;
    if t != [] && n != 0 {
      var off := Max(t[0].off, b.base);
      var end := Min(t[0].end, off + n);
      CutHead(t, b.base, off, end);
      CutEndsBy(t, end, b.next);
      PopLostIs(b, n, off, end);
    }
  }

  /** What is taken starts at the first lost byte, and stops short of n only where the lost run ends. */
  lemma PopLostTakes(b: SendBuf, n: nat)
    requires b.Valid()
    ensures var Pop(_, off, data) := b.PopLost(n);
            && (data == [] <==> n == 0 || forall x :: b.base <= x ==> !Covers(b.lost, x))
            && (data != [] ==>
                  && (forall x :: b.base <= x < off ==> !Covers(b.lost, x))
                  && (forall x :: off <= x < off + |data| ==> Covers(b.lost, x))
                  && (|data| == n || !Covers(b.lost, off + |data|)))
  {
    TrimSound(b.lost, b.base, b.next);
    PopLostSound(b, n);
    var t := b.Trim().lost;
    if t != [] {
      var off := Max(t[0].off, b.base);
      assert Covers(t, off);
      assert Covers(b.lost, off);
      if n != 0 {
        PopLostIs(b, n, off, Min(t[0].end, off + n));
        assert !Covers(t, t[0].end) by {
          HeadEndUncovered(t);
        }
        assert forall x :: x < t[0].off ==> !Covers(t, x);
      }
    }
  }

  lemma PopLostIs(b: SendBuf, n: nat, off: nat, end: nat)
    requires b.Valid() && b.Trim().lost != [] && n > 0
    requires off == Max(b.Trim().lost[0].off, b.base) && end == Min(b.Trim().lost[0].end, off + n)
    ensures b.base <= off < end <= b.next
    ensures b.PopLost(n) == Pop(b.(lost := CutAt(b.Trim().lost, end)), off, b.buf[off - b.base..end - b.base])
  {
    TrimSound(b.lost, b.base, b.next);
  }

  lemma CutEndsBy(t: seq<Span>, end: nat, limit: nat)
    requires t != [] && EndsBy(t, limit)
    ensures EndsBy(CutAt(t, end), limit)
  {
  }

  lemma CutHead(t: seq<Span>, base: nat, off: nat, end: nat)
    requires Canonical(t) && t != [] && base < t[0].end
    requires off == Max(t[0].off, base) && off < end <= t[0].end
    ensures var rest := CutAt(t, end);
            && Canonical(rest)
            && (forall x :: base <= x ==> (Covers(t, x) <==> Covers(rest, x) || off <= x < end))
            && (forall x :: off <= x < end ==> !Covers(rest, x))
  {
    CanonicalTail(t);
    var rest := CutAt(t, end);
    if end < t[0].end {
      assert rest[1..] == t[1..];
    }
    forall x
      ensures base <= x ==> (Covers(t, x) <==> Covers(rest, x) || off <= x < end)
      ensures off <= x < end ==> !Covers(rest, x)
    {
      CoversCons(t, x);
      assert Covers(t[1..], x) ==> t[0].end < x by {
        assert forall k :: 0 <= k < |t[1..]| ==> t[1..][k] == t[k + 1];
      }
      if end < t[0].end {
        CoversCons(rest, x);
      }
    }
  }

  lemma PopNewSound(b: SendBuf, n: nat)
    requires b.Valid()
    ensures var Pop(b', off, data) := b.PopNew(n);
            && b'.Valid()
            && b' == b.(next := b'.next)
            && off == b.next && off + |data| == b'.next
            && |data| <= n && (|data| == n || b'.next == b.End())
            && data == b.buf[off - b.base..off - b.base + |data|]
  {
  }

  /** An acknowledgement marks exactly its range, and base moves to the first gap. */
  lemma OnAckSound(b: SendBuf, off: nat, n: nat)
    requires b.Valid() && off + n <= b.next
    ensures var b' := b.OnAck(off, n);
            && b'.Valid()
            && b'.next == b.next && b'.lost == b.lost && b'.End() == b.End()
            && b.base <= b'.base && b'.buf == b.buf[b'.base - b.base..]
            && (forall x :: b'.Acked(x) <==> b.Acked(x) || off <= x < off + n)
  {
    var s := Span(off, off + n);
    var a := Merge(b.acked, s);
    MergeSound(b.acked, s);
    MergeEndsBy(b.acked, s, b.next);
    if a != [] {
      CanonicalTail(a);
      forall x ensures Covers(a, x) <==> a[0].off <= x < a[0].end || Covers(a[1..], x) {
        CoversCons(a, x);
      }
      AckHead(b, s, a);
    }
  }

  /** Only the first span of the merged list can reach back to base. */
  lemma AckHead(b: SendBuf, s: Span, a: seq<Span>)
    requires b.Valid() && s.off <= s.end && a == Merge(b.acked, s) && a != [] && Canonical(a)
    requires forall x :: Covers(a, x) <==> Covers(b.acked, x) || s.off <= x < s.end
    ensures |a| > 1 && a[0].off <= b.base ==> Max(b.base, a[0].end) < a[1].off
  {
    if |a| > 1 && a[0].off <= b.base && a[1].off <= b.base {
      assert Covers(a, a[0].off) && Covers(a, a[1].off) && Covers(a, a[0].end - 1);
      assert forall i :: 0 <= i < |b.acked| ==> b.base < b.acked[i].off;
      assert s.off <= a[0].end - 1 && a[1].off < s.end;
      assert Covers(a, a[0].end);
      HeadEndUncovered(a);
    }
  }

  lemma OnLostSound(b: SendBuf, off: nat, n: nat)
    requires b.Valid() && off + n <= b.next
    ensures var b' := b.OnLost(off, n);
            && b'.Valid()
            && b' == b.(lost := b'.lost)
            && (forall x :: b.base <= x ==> (Covers(b'.lost, x) <==> Covers(b.lost, x) || off <= x < off + n))
  {
    var s := Span(Max(off, b.base), off + n);
    if s.off < s.end {
      MergeSound(b.lost, s);
      MergeEndsBy(b.lost, s, b.next);
    }
  }

  /** sendBuffer with its fields updated in place. */
  class SendBuffer {
    var base: nat
    var buf: seq<byte>
    var next: nat
    var lost: seq<Span>
    var acked: seq<Span>

    ghost function Value(): SendBuf
      reads this
    {
      SendBuf(base, buf, next, lost, acked)
    }

    constructor ()
      ensures Value() == EMPTY && Value().Valid()
    {
      base, buf, next, lost, acked := 0, [], 0, [], [];
    }

    method Write(p: seq<byte>)
      requires Value().Valid()
      modifies this`buf
      ensures Value() == old(Value()).Write(p) && Value().Valid()
    {
      buf := buf + p;
    }

    method HasLost() returns (r: bool)
      requires Value().Valid()
      modifies this`lost
      ensures Value() == old(Value()).Trim() && Value().Valid()
      ensures r <==> lost != [] && base < lost[0].end
      ensures r <==> lost != []
      ensures r <==> exists x :: base <= x && Covers(old(lost), x)
    {
      TrimSound(lost, base, next);
      while lost != [] && lost[0].end <= base
        invariant TrimSpans(lost, base) == TrimSpans(old(lost), base)
        decreases |lost|
      {
        lost := lost[1..];
      }
      r := lost != [];
      if r {
        assert Covers(lost, Max(lost[0].off, base));
      }
    }

    method PopLost(n: nat) returns (off: nat, data: seq<byte>)
      requires Value().Valid()
      modifies this`lost
      ensures Pop(Value(), off, data) == old(Value()).PopLost(n) && Value().Valid()
    {
      ghost var b := Value();
      PopLostSound(b, n);
      var has := HasLost();
      if !has || n == 0 {
        return 0, [];
      }
      off := Max(lost[0].off, base);
      var end := Min(lost[0].end, off + n);
      PopLostIs(b, n, off, end);
      data := buf[off - base..end - base];
      if end >= lost[0].end {
        lost := lost[1..];
      } else {
        lost := lost[0 := Span(end, lost[0].end)];
      }
    }

    method PopNew(n: nat) returns (off: nat, data: seq<byte>)
      requires Value().Valid()
      modifies this`next
      ensures Pop(Value(), off, data) == old(Value()).PopNew(n) && Value().Valid()
    {
      off := next;
      var end := Min(base + |buf|, off + n);
      next := end;
      data := buf[off - base..end - base];
    }

    method OnAck(off: nat, n: nat)
      requires Value().Valid() && off + n <= next
      modifies this
      ensures Value() == old(Value()).OnAck(off, n) && Value().Valid()
    {
      OnAckSound(Value(), off, n);
      acked := AddSpan(acked, Span(off, off + n));
      if acked == [] || acked[0].off > base {
        return;
      }
      var newBase := acked[0].end;
      acked := acked[1..];
      if newBase <= base {
        return;
      }
      buf := buf[newBase - base..];
      base := newBase;
    }

    method OnLost(off: nat, n: nat)
      requires Value().Valid() && off + n <= next
      modifies this`lost
      ensures Value() == old(Value()).OnLost(off, n) && Value().Valid()
    {
      OnLostSound(Value(), off, n);
      var end := off + n;
      var from := Max(off, base);
      if end <= from {
        return;
      }
      lost := AddSpan(lost, Span(from, end));
    }
  }
}
