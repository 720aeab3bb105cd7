/** What well-formed UTF-8 means: it spells Unicode scalar values, each in its own way only (RFC 3629). */
module Utf8Scalars {
  import opened Bytes
  import opened Utf8

  /** All code points but the surrogates. */
  predicate Scalar(cp: nat) { cp < 0xd800 || 0xe000 <= cp < 0x11_0000 }

  function Spell2(cp: nat): seq<byte>
    requires cp < 0x800
  {
    [0xc0 + cp / 0x40, 0x80 + cp % 0x40]
  }

  function Spell3(cp: nat): seq<byte>
    requires cp < 0x1_0000
  {
    [0xe0 + cp / 0x1000, 0x80 + cp / 0x40 % 0x40, 0x80 + cp % 0x40]
  }

  function Spell4(cp: nat): seq<byte>
    requires cp < 0x20_0000
  {
    [0xf0 + cp / 0x4_0000, 0x80 + cp / 0x1000 % 0x40, 0x80 + cp / 0x40 % 0x40, 0x80 + cp % 0x40]
  }

  /** The bits of a scalar value in one byte, or six in each byte after the first. */
  function Spell(cp: nat): (s: seq<byte>)
    requires Scalar(cp)
    ensures 1 <= |s| <= 4
  {
    if cp < 0x80 then [cp] else if cp < 0x800 then Spell2(cp) else if cp < 0x1_0000 then Spell3(cp) else Spell4(cp)
  }

  /** A text of scalar values. */
  function SpellAll(cps: seq<nat>): seq<byte>
    requires forall i :: 0 <= i < |cps| ==> Scalar(cps[i])
  {
    if cps == [] then [] else Spell(cps[0]) + SpellAll(cps[1..])
  }

  lemma Spelt3(cp: nat, rest: seq<byte>)
    requires Scalar(cp) && 0x800 <= cp < 0x1_0000
    ensures SeqLen(Spell3(cp) + rest) == 3
  {
    var s := Spell3(cp) + rest;
    assert s[0] == 0xe0 + cp / 0x1000 && s[1] == 0x80 + cp / 0x40 % 0x40 && s[2] == 0x80 + cp % 0x40;
    assert s[0] == 0xe0 ==> cp / 0x40 % 0x40 >= 0x20;
    assert s[0] == 0xed ==> cp / 0x40 % 0x40 < 0x20;
  }

  lemma Spelt4(cp: nat, rest: seq<byte>)
    requires 0x1_0000 <= cp < 0x11_0000
    ensures SeqLen(Spell4(cp) + rest) == 4
  {
    var s := Spell4(cp) + rest;
    assert s[0] == 0xf0 + cp / 0x4_0000 && s[1] == 0x80 + cp / 0x1000 % 0x40;
    assert s[2] == 0x80 + cp / 0x40 % 0x40 && s[3] == 0x80 + cp % 0x40;
    assert s[0] == 0xf0 ==> cp / 0x1000 % 0x40 >= 0x10;
    assert s[0] == 0xf4 ==> cp / 0x1000 % 0x40 < 0x10;
  }

  lemma Spelt(cp: nat, rest: seq<byte>)
    requires Scalar(cp)
    ensures SeqLen(Spell(cp) + rest) == |Spell(cp)|
  {
    if 0x80 <= cp < 0x800 {
      var s := Spell2(cp) + rest;
      assert s[0] == 0xc0 + cp / 0x40 && s[1] == 0x80 + cp % 0x40;
    } else if 0x800 <= cp < 0x1_0000 {
      Spelt3(cp, rest);
    } else if cp >= 0x1_0000 {
      Spelt4(cp, rest);
    }
  }

  lemma {:induction false} SpeltIsWellFormed(cps: seq<nat>)
    requires forall i :: 0 <= i < |cps| ==> Scalar(cps[i])
    ensures WellFormed(SpellAll(cps))
  {
    if cps != [] {
      SpeltIsWellFormed(cps[1..]);
      Spelt(cps[0], SpellAll(cps[1..]));
      assert SpellAll(cps)[|Spell(cps[0])|..] == SpellAll(cps[1..]);
    }
  }

  function Number(a: nat, b: nat, c: nat, d: nat): nat { a * 0x4_0000 + b * 0x1000 + c * 0x40 + d }

  /** Which scalar value is at the head. */
  function Head(s: seq<byte>): nat
    requires SeqLen(s) > 0
  {
    match SeqLen(s)
    case 1 => s[0]
    case 2 => Number(0, 0, s[0] - 0xc0, s[1] - 0x80)
    case 3 => Number(0, s[0] - 0xe0, s[1] - 0x80, s[2] - 0x80)
    case _ => Number(s[0] - 0xf0, s[1] - 0x80, s[2] - 0x80, s[3] - 0x80)
  }

  lemma Digits(a: nat, b: nat, c: nat, d: nat)
    requires b < 0x40 && c < 0x40 && d < 0x40
    ensures var v := Number(a, b, c, d);
            && v / 0x4_0000 == a && v / 0x1000 % 0x40 == b && v / 0x40 % 0x40 == c && v % 0x40 == d
            && (a == 0 ==> v / 0x1000 == b) && (a == 0 && b == 0 ==> v / 0x40 == c)
  {
    var v := Number(a, b, c, d);
    assert v == 0x40 * (a * 0x1000 + b * 0x40 + c) + d;
    assert v / 0x40 == 0x40 * (a * 0x40 + b) + c;
    assert v / 0x1000 == 0x40 * a + b;
  }

  lemma Head2(s: seq<byte>)
    requires SeqLen(s) == 2
    ensures var v := Head(s); 0x80 <= v < 0x800 && Spell2(v) == s[..2]
  {
    Digits(0, 0, s[0] - 0xc0, s[1] - 0x80);
  }

  lemma Head3(s: seq<byte>)
    requires SeqLen(s) == 3
    ensures var v := Head(s); 0x800 <= v < 0x1_0000 && Scalar(v) && Spell3(v) == s[..3]
  {
    Digits(0, s[0] - 0xe0, s[1] - 0x80, s[2] - 0x80);
  }

  lemma Head4(s: seq<byte>)
    requires SeqLen(s) == 4
    ensures var v := Head(s); 0x1_0000 <= v < 0x11_0000 && Spell4(v) == s[..4]
  {
    Digits(s[0] - 0xf0, s[1] - 0x80, s[2] - 0x80, s[3] - 0x80);
  }

  lemma HeadSpelt(s: seq<byte>)
    requires SeqLen(s) > 0
    ensures Scalar(Head(s)) && Spell(Head(s)) == s[..SeqLen(s)]
  {
    if SeqLen(s) == 2 {
      Head2(s);
    } else if SeqLen(s) == 3 {
      Head3(s);
    } else if SeqLen(s) == 4 {
      Head4(s);
    }
  }

  /** The scalar values of a text. */
  function Scalars(s: seq<byte>): seq<nat>
    requires WellFormed(s)
    decreases |s|
  {
    if s == [] then [] else [Head(s)] + Scalars(s[SeqLen(s)..])
  }

  ghost predicate Spells(s: seq<byte>, cps: seq<nat>) {
    (forall i :: 0 <= i < |cps| ==> Scalar(cps[i])) && SpellAll(cps) == s
  }

  lemma SpellsMore(s: seq<byte>, n: nat, cp: nat, cps: seq<nat>)
    requires n <= |s| && Scalar(cp) && Spell(cp) == s[..n] && Spells(s[n..], cps)
    ensures Spells(s, [cp] + cps)
  {
    assert ([cp] + cps)[1..] == cps;
    assert s == s[..n] + s[n..];
  }

  lemma {:induction false} WellFormedIsSpelt(s: seq<byte>)
    requires WellFormed(s)
    ensures Spells(s, Scalars(s))
    decreases |s|
  {
    if s != [] {
      var n := SeqLen(s);
      WellFormedIsSpelt(s[n..]);
      HeadSpelt(s);
      SpellsMore(s, n, Head(s), Scalars(s[n..]));
    }
  }

  /** Bytes are well-formed if and only if they spell some sequence of scalar values. */
  lemma WellFormedIff(s: seq<byte>)
    ensures WellFormed(s) <==> exists cps :: Spells(s, cps)
  {
    if WellFormed(s) {
      WellFormedIsSpelt(s);
    }
    if cps :| Spells(s, cps) {
      SpeltIsWellFormed(cps);
    }
  }

  // What can still become well formed.

  lemma {:induction false} CanEnd(v: Check) returns (more: seq<byte>)
    requires v.Check? && (v.need > 0 ==> v.lo <= v.hi)
    ensures Idle(Run(v, more))
    decreases if v.Check? then v.need else 0
  {
    if v.need == 0 {
      more := [];
    } else {
      var rest := CanEnd(Step(v, v.lo));
      more := [v.lo] + rest;
      assert more[1..] == rest;
    }
  }

  lemma {:induction false} BoundsStay(v: Check, s: seq<byte>)
    requires v.Check? && (v.need > 0 ==> v.lo <= v.hi)
    ensures var r := Run(v, s); r.Check? && r.need > 0 ==> r.lo <= r.hi
    decreases |s|
  {
    if s != [] {
      if Step(v, s[0]).Bad? {
        RunBad(s[1..]);
      } else {
        BoundsStay(Step(v, s[0]), s[1..]);
      }
    }
  }

  /** The validator refuses bytes exactly if nothing after them can make them well formed. */
  lemma BadIff(s: seq<byte>)
    ensures Run(START, s).Bad? <==> forall more :: !WellFormed(s + more)
  {
    if Run(START, s).Bad? {
      forall more ensures !WellFormed(s + more) {
        RunAppend(START, s, more);
        RunBad(more);
        AcceptsWellFormed(START, s + more);
      }
    } else {
      BoundsStay(START, s);
      var more := CanEnd(Run(START, s));
      RunAppend(START, s, more);
      AcceptsWellFormed(START, s + more);
      assert WellFormed(s + more);
    }
  }
}
