/** Byte ranges of a stream: the sorted, merged span lists that a sending buffer
    keeps for what was acknowledged and for what has to be sent again. */
module QuicSpans {
  import opened Arithmetic

  /** The byte range [off, end) of a stream. */
  datatype Span = Span(off: nat, end: nat)

  /** Non-empty, ascending, disjoint spans that do not even touch. */
  ghost predicate Canonical(spans: seq<Span>) {
    && (forall i :: 0 <= i < |spans| ==> spans[i].off < spans[i].end)
    && (forall i, j :: 0 <= i < j < |spans| ==> spans[i].end < spans[j].off)
  }

  ghost predicate Covers(spans: seq<Span>, x: int) {
    exists i :: 0 <= i < |spans| && spans[i].off <= x < spans[i].end
  }

  ghost predicate EndsBy(spans: seq<Span>, limit: int) {
    forall i :: 0 <= i < |spans| ==> spans[i].end <= limit
  }

  /** The reference for addSpan: walk the list once, swallowing whatever touches s. */
  function Merge(spans: seq<Span>, s: Span): (r: seq<Span>) {
    if s.end <= s.off then spans
    else if spans == [] then [s]
    else if spans[0].end < s.off then [spans[0]] + Merge(spans[1..], s)
    else if s.end < spans[0].off then [s] + spans
    else Merge(spans[1..], Span(Min(s.off, spans[0].off), Max(s.end, spans[0].end)))
  }

  /** Covering a list is covering its head or its tail. */
  lemma CoversCons(spans: seq<Span>, x: int)
    requires spans != []
    ensures Covers(spans, x) <==> spans[0].off <= x < spans[0].end || Covers(spans[1..], x)
  {
    if Covers(spans, x) {
      var i :| 0 <= i < |spans| && spans[i].off <= x < spans[i].end;
      assert i > 0 ==> spans[1..][i - 1] == spans[i];
    }
    if Covers(spans[1..], x) {
      var i :| 0 <= i < |spans[1..]| && spans[1..][i].off <= x < spans[1..][i].end;
      assert spans[i + 1] == spans[1..][i];
    }
  }

  /** A span before a list. */
  lemma Cons(h: Span, rest: seq<Span>)
    ensures forall x :: Covers([h] + rest, x) <==> h.off <= x < h.end || Covers(rest, x)
    ensures Canonical(rest) && h.off < h.end && (rest != [] ==> h.end < rest[0].off) ==> Canonical([h] + rest)
  {
    var r := [h] + rest;
    assert r[1..] == rest;
    forall x ensures Covers(r, x) <==> h.off <= x < h.end || Covers(rest, x) {
      CoversCons(r, x);
    }
  }

  /** Merge keeps the list canonical and adds exactly the bytes of s. */
  lemma {:induction false} MergeSound(spans: seq<Span>, s: Span)
    requires Canonical(spans)
    ensures Canonical(Merge(spans, s))
    ensures forall x :: Covers(Merge(spans, s), x) <==> Covers(spans, x) || s.off <= x < s.end
    ensures Merge(spans, s) != [] && s.off < s.end ==>
              Merge(spans, s)[0].off == if spans == [] then s.off else Min(s.off, spans[0].off)
    decreases |spans|
  {
    if s.end > s.off {
      if spans == [] {
        Cons(s, []);
        assert [s] + [] == [s];
      } else {
        var h, rest := spans[0], spans[1..];
        CanonicalTail(spans);
        assert spans == [h] + rest;
        Cons(h, rest);
        if h.end < s.off {
          MergeSound(rest, s);
          Cons(h, Merge(rest, s));
        } else if s.end < h.off {
          Cons(s, spans);
        } else {
          var u := Span(Min(s.off, h.off), Max(s.end, h.end));
          MergeSound(rest, u);
          assert forall x :: Covers(Merge(rest, u), x) <==> Covers(rest, x) || h.off <= x < h.end || s.off <= x < s.end;
        }
      }
    }
  }

  /** A canonical list never covers the end of its first span. */
  lemma HeadEndUncovered(a: seq<Span>)
    requires Canonical(a) && a != []
    ensures !Covers(a, a[0].end)
  {
    assert forall i :: 0 < i < |a| ==> a[0].end < a[i].off;
  }

  /** Two canonical lists with the same bytes have the same first span. */
  lemma SameHead(a: seq<Span>, b: seq<Span>)
    requires Canonical(a) && Canonical(b) && a != []
    requires forall x :: Covers(a, x) <==> Covers(b, x)
    ensures b != [] && a[0] == b[0]
  {
    assert Covers(a, a[0].off);
    assert Covers(b, a[0].off);
    assert Covers(b, b[0].off);
    assert Covers(a, b[0].off);
    HeadEndUncovered(a);
    HeadEndUncovered(b);
    assert forall x :: a[0].off <= x < a[0].end ==> Covers(a, x);
    assert forall x :: b[0].off <= x < b[0].end ==> Covers(b, x);
  }

  /** The tail of a canonical list covers what the list covers beyond its head. */
  lemma TailCovers(a: seq<Span>, x: int)
    requires Canonical(a) && a != []
    ensures Covers(a[1..], x) <==> Covers(a, x) && a[0].end < x
  {
    CoversCons(a, x);
    if Covers(a[1..], x) {
      var i :| 0 <= i < |a[1..]| && a[1..][i].off <= x < a[1..][i].end;
      assert a[0].end < a[i + 1].off;
    }
  }

  lemma SameTails(a: seq<Span>, b: seq<Span>)
    requires Canonical(a) && Canonical(b) && a != [] && b != [] && a[0] == b[0]
    requires forall x :: Covers(a, x) <==> Covers(b, x)
    ensures forall x :: Covers(a[1..], x) <==> Covers(b[1..], x)
  {
    forall x ensures Covers(a[1..], x) <==> Covers(b[1..], x) {
      TailCovers(a, x);
      TailCovers(b, x);
    }
  }

  /** A canonical list is determined by the bytes it covers. */
  lemma {:induction false} CanonicalUnique(a: seq<Span>, b: seq<Span>)
    requires Canonical(a) && Canonical(b)
    requires forall x :: Covers(a, x) <==> Covers(b, x)
    ensures a == b
    decreases |a|
  {
    if b != [] {
      SameHead(b, a);
    }
    if a != [] {
      SameHead(a, b);
      SameTails(a, b);
      CanonicalTail(a);
      CanonicalTail(b);
      CanonicalUnique(a[1..], b[1..]);
      assert a == [a[0]] + a[1..] && b == [b[0]] + b[1..];
    }
  }

  lemma MergeEndsBy(spans: seq<Span>, s: Span, limit: int)
    requires EndsBy(spans, limit) && s.end <= limit
    ensures EndsBy(Merge(spans, s), limit)
    decreases |spans|
  {
  }

  /** sort.Search: the first span that ends at or after off. */
  method SearchEnd(spans: seq<Span>, off: nat) returns (i: nat)
    requires Canonical(spans)
    ensures i <= |spans|
    ensures forall k :: 0 <= k < i ==> spans[k].end < off
    ensures forall k :: i <= k < |spans| ==> off <= spans[k].end
  {
    i := 0;
    var j := |spans|;
    while i < j
      invariant 0 <= i <= j <= |spans|
      invariant forall k :: 0 <= k < i ==> spans[k].end < off
      invariant forall k :: j <= k < |spans| ==> off <= spans[k].end
    {
      var h := (i + j) / 2;
      if spans[h].end >= off {
        j := h;
      } else {
        i := h + 1;
      }
    }
  }

  /** addSpan: binary search, one scan to swallow what touches s, one splice. */
  method AddSpan(spans: seq<Span>, s: Span) returns (r: seq<Span>)
    requires Canonical(spans)
    ensures Canonical(r)
    ensures forall x :: Covers(r, x) <==> Covers(spans, x) || s.off <= x < s.end
    ensures r == Merge(spans, s)
  {
    if s.end <= s.off {
      MergeSound(spans, s);
      return spans;
    }
    var i := SearchEnd(spans, s.off);
    var j := i;
    var m := s;
    while j < |spans| && spans[j].off <= m.end
      invariant i <= j <= |spans|
      invariant m.off <= s.off < s.end <= m.end
      invariant i < j ==> spans[j - 1].off <= s.end
      invariant i < j ==> m.off == Min(s.off, spans[i].off) && m.end == Max(s.end, spans[j - 1].end)
      invariant i == j ==> m == s
    {
      m := Span(Min(m.off, spans[j].off), Max(m.end, spans[j].end));
      j := j + 1;
    }
    r := spans[..i] + [m] + spans[j..];
    SplicedIsMerged(spans, s, i, j, m);
    MergeSound(spans, s);
  }

  lemma CanonicalTail(spans: seq<Span>)
    requires Canonical(spans) && spans != []
    ensures Canonical(spans[1..])
  {
    assert forall k :: 0 <= k < |spans[1..]| ==> spans[1..][k] == spans[k + 1];
  }

  lemma SpliceInTail(spans: seq<Span>, i: nat, j: nat, m: Span)
    requires 0 < i <= j <= |spans|
    ensures spans[..i] + [m] + spans[j..] == [spans[0]] + (spans[1..][..i - 1] + [m] + spans[1..][j - 1..])
  {
    assert spans[..i] == [spans[0]] + spans[1..][..i - 1];
    assert spans[j..] == spans[1..][j - 1..];
  }

  lemma SpliceFront(spans: seq<Span>, j: nat, m: Span)
    requires 0 < j <= |spans|
    ensures spans[..0] + [m] + spans[j..] == spans[1..][..0] + [m] + spans[1..][j - 1..]
  {
    assert spans[j..] == spans[1..][j - 1..];
  }

  lemma SpliceNone(spans: seq<Span>, s: Span)
    ensures spans[..0] + [s] + spans[0..] == [s] + spans
    ensures spans == [] ==> [s] + spans == [s]
  {
  }

  /** What the scan of addSpan finds: spans i to j touch s, and m is all of them. */
  ghost predicate Scanned(spans: seq<Span>, s: Span, i: nat, j: nat, m: Span) {
    && s.off < s.end && i <= j <= |spans|
    && (i > 0 ==> spans[i - 1].end < s.off) && (i < |spans| ==> s.off <= spans[i].end)
    && (i < j ==> spans[j - 1].off <= s.end)
    && (i < j ==> m.off == Min(s.off, spans[i].off) && m.end == Max(s.end, spans[j - 1].end))
    && (i == j ==> m == s) && (j < |spans| ==> m.end < spans[j].off)
  }

  lemma ScannedBelow(spans: seq<Span>, s: Span, i: nat, j: nat, m: Span)
    requires Canonical(spans) && Scanned(spans, s, i, j, m) && i > 0
    ensures Scanned(spans[1..], s, i - 1, j - 1, m) && spans[0].end < s.off
  {
    FirstEnds(spans, i, s.off);
  }

  lemma ScannedTouching(spans: seq<Span>, s: Span, j: nat, m: Span)
    requires Canonical(spans) && Scanned(spans, s, 0, j, m) && j > 0
    ensures Scanned(spans[1..], Span(Min(s.off, spans[0].off), Max(s.end, spans[0].end)), 0, j - 1, m)
    ensures spans[0].off <= s.end && s.off <= spans[0].end
  {
    FirstStarts(spans, j, s.end);
  }

  /** What the scan leaves to be spliced in gives the reference result. */
  lemma {:induction false} SplicedIsMerged(spans: seq<Span>, s: Span, i: nat, j: nat, m: Span)
    requires Canonical(spans) && Scanned(spans, s, i, j, m)
    ensures spans[..i] + [m] + spans[j..] == Merge(spans, s)
    decreases |spans|
  {
    if i > 0 {
      CanonicalTail(spans);
      ScannedBelow(spans, s, i, j, m);
      SplicedIsMerged(spans[1..], s, i - 1, j - 1, m);
      SpliceInTail(spans, i, j, m);
    } else if j > 0 {
      CanonicalTail(spans);
      ScannedTouching(spans, s, j, m);
      SplicedIsMerged(spans[1..], Span(Min(s.off, spans[0].off), Max(s.end, spans[0].end)), 0, j - 1, m);
      SpliceFront(spans, j, m);
    } else {
      SpliceNone(spans, s);
    }
  }

  lemma FirstEnds(spans: seq<Span>, i: nat, off: nat)
    requires Canonical(spans) && 0 < i <= |spans| && spans[i - 1].end < off
    ensures spans[0].end < off
  {
  }

  lemma FirstStarts(spans: seq<Span>, j: nat, end: nat)
    requires Canonical(spans) && 0 < j <= |spans| && spans[j - 1].off <= end
    ensures spans[0].off <= end && (j > 1 ==> spans[0].end < spans[j - 1].end && spans[0].off < spans[1].off)
  {
  }
}
