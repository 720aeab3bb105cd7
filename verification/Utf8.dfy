/** Well-formed UTF-8 and the validator that checks it in pieces. */
module Utf8 {
  import opened Bytes

  predicate Cont(b: byte) { 0x80 <= b <= 0xbf }

  /** The length of the well-formed sequence at the head of s, zero if there is none: table 3-7
      of the Unicode standard. */
  function SeqLen(s: seq<byte>): (n: nat)
    ensures n <= |s|
  {
    if s == [] then 0
    else if s[0] < 0x80 then 1
    else if |s| < 2 then 0
    else if 0xc2 <= s[0] <= 0xdf then if Cont(s[1]) then 2 else 0
    else if |s| < 3 || !Cont(s[2]) then 0
    else if s[0] == 0xe0 then if 0xa0 <= s[1] <= 0xbf then 3 else 0
    else if 0xe1 <= s[0] <= 0xec then if Cont(s[1]) then 3 else 0
    else if s[0] == 0xed then if 0x80 <= s[1] <= 0x9f then 3 else 0
    else if 0xee <= s[0] <= 0xef then if Cont(s[1]) then 3 else 0
    else if |s| < 4 || !Cont(s[3]) then 0
    else if s[0] == 0xf0 then if 0x90 <= s[1] <= 0xbf then 4 else 0
    else if 0xf1 <= s[0] <= 0xf3 then if Cont(s[1]) then 4 else 0
    else if s[0] == 0xf4 then if 0x80 <= s[1] <= 0x8f then 4 else 0
    else 0
  }

  /** What utf8.Valid decides. */
  predicate WellFormed(s: seq<byte>)
    decreases |s|
  {
    s == [] || (SeqLen(s) > 0 && WellFormed(s[SeqLen(s)..]))
  }

  // The validator.

  /** need continuation bytes to come, the next of them from lo to hi. */
  datatype Check = Bad | Check(need: nat, lo: byte, hi: byte)

  const START := Check(0, 0, 0)

  /** step. */
  function Step(v: Check, b: byte): Check {
    if v.Bad? then Bad
    else if v.need != 0 then if b < v.lo || b > v.hi then Bad else Check(v.need - 1, 0x80, 0xbf)
    else if b < 0x80 then Check(0, 0x80, 0xbf)
    else if 0xc2 <= b <= 0xdf then Check(1, 0x80, 0xbf)
    else if b == 0xe0 then Check(2, 0xa0, 0xbf)
    else if b == 0xed then Check(2, 0x80, 0x9f)
    else if 0xe1 <= b <= 0xef then Check(2, 0x80, 0xbf)
    else if b == 0xf0 then Check(3, 0x90, 0xbf)
    else if 0xf1 <= b <= 0xf3 then Check(3, 0x80, 0xbf)
    else if b == 0xf4 then Check(3, 0x80, 0x8f)
    else Bad
  }

  /** All the steps of s. */
  function Run(v: Check, s: seq<byte>): Check
    decreases |s|
  {
    if s == [] then v else Run(Step(v, s[0]), s[1..])
  }

  predicate Idle(v: Check) { v.Check? && v.need == 0 }

  lemma {:induction false} RunBad(s: seq<byte>)
    ensures Run(Bad, s) == Bad
  {
    if s != [] {
      RunBad(s[1..]);
    }
  }

  lemma {:induction false} RunAppend(v: Check, a: seq<byte>, b: seq<byte>)
    ensures Run(v, a + b) == Run(Run(v, a), b)
    decreases |a|
  {
    if a == [] {
      assert a + b == b;
    } else {
      assert (a + b)[0] == a[0] && (a + b)[1..] == a[1..] + b;
      RunAppend(Step(v, a[0]), a[1..], b);
    }
  }

  /** Where a sequence ends it does not matter what came before. */
  lemma IdleForgets(v: Check, w: Check, s: seq<byte>)
    requires Idle(v) && Idle(w) && s != []
    ensures Run(v, s) == Run(w, s)
  {
  }

  lemma Run1(v: Check, s: seq<byte>)
    requires |s| >= 1
    ensures Run(v, s) == Run(Step(v, s[0]), s[1..])
  {
  }

  lemma Run2(v: Check, s: seq<byte>)
    requires |s| >= 2
    ensures Run(v, s) == Run(Step(Step(v, s[0]), s[1]), s[2..])
  {
    assert s[1..][0] == s[1] && s[1..][1..] == s[2..];
  }

  lemma Run3(v: Check, s: seq<byte>)
    requires |s| >= 3
    ensures Run(v, s) == Run(Step(Step(Step(v, s[0]), s[1]), s[2]), s[3..])
  {
    Run2(v, s);
    assert s[2..][0] == s[2] && s[2..][1..] == s[3..];
  }

  lemma Run4(v: Check, s: seq<byte>)
    requires |s| >= 4
    ensures Run(v, s) == Run(Step(Step(Step(Step(v, s[0]), s[1]), s[2]), s[3]), s[4..])
  {
    Run3(v, s);
    assert s[3..][0] == s[3] && s[3..][1..] == s[4..];
  }

  /** A well-formed sequence leaves the validator idle. */
  lemma SequenceRuns(v: Check, s: seq<byte>)
    requires Idle(v) && SeqLen(s) > 0
    ensures Run(v, s) == Run(Check(0, 0x80, 0xbf), s[SeqLen(s)..])
  {
    if SeqLen(s) == 1 {
      Run1(v, s);
    } else if SeqLen(s) == 2 {
      Run2(v, s);
    } else if SeqLen(s) == 3 {
      Run3(v, s);
    } else {
      Run4(v, s);
    }
  }

  /** Anything else is refused, or is the start of a sequence that s cuts off. */
  lemma NoSequenceFails(v: Check, s: seq<byte>)
    requires Idle(v) && s != [] && SeqLen(s) == 0
    ensures var r := Run(v, s);
            r.Bad? || (r.need > 0 && |s| <= 3 && s[0] >= 0xc0 && forall i :: 1 <= i < |s| ==> Cont(s[i]))
  {
    Run1(v, s);
    RunBad(s[1..]);
    if |s| >= 2 {
      Run2(v, s);
      RunBad(s[2..]);
    }
    if |s| >= 3 {
      Run3(v, s);
      RunBad(s[3..]);
    }
    if |s| >= 4 {
      Run4(v, s);
      RunBad(s[4..]);
    }
  }

  /** The validator accepts, and ends on a boundary, exactly what is well formed. */
  lemma {:induction false} AcceptsWellFormed(v: Check, s: seq<byte>)
    requires Idle(v)
    ensures Idle(Run(v, s)) <==> WellFormed(s)
    decreases |s|
  {
    if s != [] {
      if SeqLen(s) > 0 {
        SequenceRuns(v, s);
        AcceptsWellFormed(Check(0, 0x80, 0xbf), s[SeqLen(s)..]);
      } else {
        NoSequenceFails(v, s);
      }
    }
  }

  /** Where the sequence begins that s cuts off. */
  lemma {:induction false} CutOff(v: Check, s: seq<byte>) returns (k: nat)
    requires Idle(v) && Run(v, s).Check? && Run(v, s).need > 0
    ensures k < |s| <= k + 3 && s[k] >= 0xc0 && (forall i :: k < i < |s| ==> Cont(s[i]))
    decreases |s|
  {
    if SeqLen(s) > 0 {
      var n := SeqLen(s);
      SequenceRuns(v, s);
      var j := CutOff(Check(0, 0x80, 0xbf), s[n..]);
      k := n + j;
      forall i | k < i < |s| ensures Cont(s[i]) {
        assert s[n..][i - n] == s[i];
      }
    } else {
      NoSequenceFails(v, s);
      k := 0;
    }
  }

  lemma {:induction false} NextBound(v: Check, s: seq<byte>)
    requires v.Check? && (v.need > 0 ==> v.hi <= 0xbf)
    ensures var r := Run(v, s); r.Check? && r.need > 0 ==> r.hi <= 0xbf
    decreases |s|
  {
    if s != [] {
      if Step(v, s[0]).Bad? {
        RunBad(s[1..]);
      } else {
        NextBound(Step(v, s[0]), s[1..]);
      }
    }
  }

  // write.

  /** From position i down: where a sequence begins that the end of p may cut off. */
  function TailFrom(p: seq<byte>, i: int): (t: nat)
    requires i < |p|
    ensures t <= |p|
    decreases i + 1
  {
    if i < 0 || i < |p| - 3 then |p|
    else if Cont(p[i]) then TailFrom(p, i - 1)
    else if p[i] >= 0xc0 then i else |p|
  }

  lemma {:induction false} TailFinds(p: seq<byte>, i: int, k: nat)
    requires k <= i < |p| && |p| <= k + 3 && p[k] >= 0xc0 && forall j :: k < j < |p| ==> Cont(p[j])
    ensures TailFrom(p, i) == k
    decreases i
  {
    if i > k {
      TailFinds(p, i - 1, k);
    }
  }

  lemma {:induction false} TailLeads(p: seq<byte>, i: int)
    requires i < |p|
    ensures var t := TailFrom(p, i); t < |p| ==> p[t] >= 0xc0
    decreases i + 1
  {
    if i >= 0 && i >= |p| - 3 && Cont(p[i]) {
      TailLeads(p, i - 1);
    }
  }

  /** The same for all that is to come. */
  predicate Same(a: Check, b: Check) { a == b || (Idle(a) && Idle(b)) }

  /** The bulk check: what lies before the tail is well formed or p is refused. */
  lemma BulkIsRun(v: Check, p: seq<byte>, t: nat)
    requires Idle(v) && t == TailFrom(p, |p| - 1)
    ensures if WellFormed(p[..t]) then Same(Run(v, p), Run(v, p[t..])) else Run(v, p) == Bad
  {
    AcceptsWellFormed(v, p[..t]);
    var r := Run(v, p[..t]);
    assert p == p[..t] + p[t..];
    RunAppend(v, p[..t], p[t..]);
    if t < |p| {
      TailLeads(p, |p| - 1);
      if Idle(r) {
        IdleForgets(r, v, p[t..]);
      } else {
        NextBound(v, p[..t]);
        RunBad(p[t..]);
        RunBad(p[t..][1..]);
      }
    } else {
      assert p[..t] == p && p[t..] == [];
      if r.Check? && r.need > 0 {
        var k := CutOff(v, p);
        TailFinds(p, |p| - 1, k);
      }
    }
  }

  lemma {:induction false} SameRuns(a: Check, b: Check, s: seq<byte>)
    requires Same(a, b)
    ensures Same(Run(a, s), Run(b, s))
  {
    if s != [] && a != b {
      IdleForgets(a, b, s);
    }
  }

  class Validator {
    var need: nat
    var lo: byte
    var hi: byte

    ghost function Value(): Check
      reads this
    {
      Check(need, lo, hi)
    }

    constructor ()
      ensures Value() == START
    {
      need, lo, hi := 0, 0, 0;
    }

    method Reset()
      modifies this
      ensures Value() == START
    {
      need, lo, hi := 0, 0, 0;
    }

    method TakeByte(b: byte) returns (ok: bool)
      modifies this
      ensures ok == Step(old(Value()), b).Check? && (ok ==> Value() == Step(old(Value()), b))
    {
      if need != 0 {
        if b < lo || b > hi {
          return false;
        }
        need := need - 1;
        lo, hi := 0x80, 0xbf;
        return true;
      }
      lo, hi := 0x80, 0xbf;
      if b < 0x80 {
      } else if 0xc2 <= b <= 0xdf {
        need := 1;
      } else if b == 0xe0 {
        need, lo := 2, 0xa0;
      } else if b == 0xed {
        need, hi := 2, 0x9f;
      } else if 0xe1 <= b <= 0xef {
        need := 2;
      } else if b == 0xf0 {
        need, lo := 3, 0x90;
      } else if 0xf1 <= b <= 0xf3 {
        need := 3;
      } else if b == 0xf4 {
        need, hi := 3, 0x8f;
      } else {
        return false;
      }
      ok := true;
    }

    /** The loop over single bytes. */
    method TakeBytes(p: seq<byte>) returns (ok: bool)
      modifies this
      ensures ok == Run(old(Value()), p).Check? && (ok ==> Value() == Run(old(Value()), p))
    {
      var i := 0;
      ghost var all := Run(Value(), p);
      assert p[0..] == p;
      while i < |p|
        invariant 0 <= i <= |p| && Run(Value(), p[i..]) == all
      {
        assert p[i..][1..] == p[i + 1..];
        RunBad(p[i + 1..]);
        ok := TakeByte(p[i]);
        if !ok {
          return;
        }
        i := i + 1;
      }
      ok := true;
    }

    /** The search for the tail. */
    static method FindTail(p: seq<byte>) returns (tail: nat)
      ensures tail == TailFrom(p, |p| - 1)
    {
      var i := |p| - 1;
      while i >= 0 && i >= |p| - 3
        invariant -1 <= i < |p| && TailFrom(p, |p| - 1) == TailFrom(p, i)
      {
        if !Cont(p[i]) {
          return if p[i] >= 0xc0 then i else |p|;
        }
        i := i - 1;
      }
      tail := |p|;
    }

    /** write: it accepts what the steps would accept, and ends where they would. */
    method Write(data: seq<byte>) returns (ok: bool)
      modifies this
      ensures ok == Run(old(Value()), data).Check? && (ok ==> Same(Value(), Run(old(Value()), data)))
    {
      var p := data;
      ghost var all := Run(Value(), data);
      while need != 0
        invariant Run(Value(), p) == all
        decreases |p|, need
      {
        if p == [] {
          return true;
        }
        RunBad(p[1..]);
        ok := TakeByte(p[0]);
        if !ok {
          return;
        }
        p := p[1..];
      }
      var tail := FindTail(p);
      BulkIsRun(Value(), p, tail);
      ok := WellFormed(p[..tail]);
      if !ok {
        return;
      }
      ok := TakeBytes(p[tail..]);
    }
  }
}
