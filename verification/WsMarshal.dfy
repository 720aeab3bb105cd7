/** Frames that a server sends, and a client reads back. */
module WsMarshal {
  import opened Bytes
  import opened Arithmetic
  import opened Bits
  import opened Utf8
  import opened WsFrame

  predicate Sendable(opcode: nat, payload: seq<byte>) {
    opcode in {TEXT, BINARY, CLOSE, PING, PONG} && (Control(opcode) ==> |payload| <= 125)
  }

  /** Numbers as n bytes, highest first. */
  function PutBig(v: nat, n: nat): (b: seq<byte>)
    ensures |b| == n
  {
    if n == 0 then [] else PutBig(v / 256, n - 1) + [v % 256]
  }

  /** Byte i of n counts 256 to the power of n - 1 - i. */
  lemma {:induction false} PutBigAt(v: nat, n: nat, i: nat)
    requires i < n
    ensures PutBig(v, n)[i] == v / Pow2(8 * (n - 1 - i)) % 256
  {
    if i < n - 1 {
      PutBigAt(v / 256, n - 1, i);
      EightMore(8 * (n - 2 - i));
      ByteThen(v, Pow2(8 * (n - 2 - i)));
    }
  }

  lemma EightMore(k: nat)
    ensures Pow2(k + 8) == 256 * Pow2(k)
  {
    assert Pow2(k + 2) == 4 * Pow2(k) && Pow2(k + 4) == 4 * Pow2(k + 2);
    assert Pow2(k + 6) == 4 * Pow2(k + 4) && Pow2(k + 8) == 4 * Pow2(k + 6);
  }

  lemma ByteThen(v: nat, p: nat)
    requires p > 0
    ensures v / 256 / p == v / (256 * p)
  {
    var q, r := v / 256 / p, v / 256 % p;
    assert v / 256 == p * q + r;
    assert v == 256 * (p * q + r) + v % 256;
    assert 256 * (p * q) == (256 * p) * q;
    ModIs(v, 256 * p, q, 256 * r + v % 256);
  }

  lemma {:induction false} BigOfPut(v: nat, n: nat)
    requires v < Power(256, n)
    ensures BigEndian(PutBig(v, n)) == v
  {
    if n > 0 {
      BigOfPut(v / 256, n - 1);
      assert PutBig(v, n)[..n - 1] == PutBig(v / 256, n - 1);
    }
  }

  lemma {:induction false} PutOfBig(b: seq<byte>)
    ensures PutBig(BigEndian(b), |b|) == b && BigEndian(b) < Power(256, |b|)
  {
    if b != [] {
      PutOfBig(b[..|b| - 1]);
      assert b == b[..|b| - 1] + [b[|b| - 1]];
    }
  }

  /** The header of frameHeader. */
  function MarshalHeader(opcode: nat, length: nat): seq<byte>
    requires opcode < 16
  {
    if length < 126 then [0x80 + opcode, length]
    else if length <= 0xffff then [0x80 + opcode, 126] + PutBig(length, 2)
    else [0x80 + opcode, 127] + PutBig(length, 8)
  }

  /** MarshalFrame. */
  method MarshalFrame(opcode: nat, payload: seq<byte>) returns (ok: bool, frame: seq<byte>)
    requires opcode < 16
    ensures ok == Sendable(opcode, payload) && (ok ==> frame == MarshalHeader(opcode, |payload|) + payload)
  {
    if opcode != TEXT && opcode != BINARY && opcode != CLOSE && opcode != PING && opcode != PONG {
      return false, [];
    }
    if opcode >= 0x8 && |payload| > 125 {
      return false, [];
    }
    if |payload| < 126 {
      frame := [0x80 + opcode, |payload|];
    } else if |payload| <= 0xffff {
      frame := [0x80 + opcode, 126] + PutBig(|payload|, 2);
    } else {
      frame := [0x80 + opcode, 127] + PutBig(|payload|, 8);
    }
    return true, frame + payload;
  }

  lemma Powers()
    ensures Power(256, 2) == 0x1_0000 && Power(256, 8) == 0x1_0000_0000_0000_0000
  {
    assert Power(256, 4) == 0x1_0000_0000;
    assert Power(256, 8) == 256 * (256 * (256 * (256 * Power(256, 4))));
  }

  lemma LengthRoundTrip(opcode: nat, length: nat, rest: seq<byte>)
    requires opcode < 16 && length < 0x8000_0000_0000_0000
    ensures var b := MarshalHeader(opcode, length) + rest;
            |b| >= 2 && b[0] == 0x80 + opcode && b[1] < 0x80
            && ReadLength(b) == Length(length, |MarshalHeader(opcode, length)|)
  {
    Powers();
    var h := MarshalHeader(opcode, length);
    var b := h + rest;
    if length >= 126 && length <= 0xffff {
      BigOfPut(length, 2);
      assert b[2..4] == PutBig(length, 2);
    } else if length > 0xffff {
      BigOfPut(length, 8);
      assert b[2..10] == PutBig(length, 8);
    }
  }

  /** A code that section 7.4 of RFC 6455 lets an endpoint send, from its two bytes. */
  predicate CloseCode(high: nat, low: nat) {
    var code := 0x100 * high + low;
    1000 <= code <= 1003 || 1007 <= code <= 1014 || 3000 <= code <= 4999
  }

  /** Whether the receiver has anything against the contents. */
  predicate Acceptable(cfg: Config, opcode: nat, payload: seq<byte>) {
    && (!Control(opcode) ==> |payload| <= cfg.max)
    && (opcode == TEXT ==> WellFormed(payload))
    && (opcode == CLOSE ==> |payload| != 1 && (|payload| >= 2 ==> CloseCode(payload[0], payload[1])))
    && (opcode == CLOSE && |payload| > 2 ==> WellFormed(payload[2..]))
  }

  lemma CloseCodeIs(payload: seq<byte>)
    requires |payload| >= 2
    ensures ValidCloseCode(BigEndian(payload[..2])) <==> CloseCode(payload[0], payload[1])
  {
    var two := payload[..2];
    assert two[..1][..0] == [];
    assert BigEndian(two[..1]) == payload[0];
    assert BigEndian(two) == 0x100 * BigEndian(two[..1]) + payload[1];
  }

  lemma HeaderRoundTrip(cfg: Config, opcode: nat, length: nat, rest: seq<byte>)
    requires opcode in {TEXT, BINARY, CLOSE, PING, PONG} && (Control(opcode) ==> length <= 125)
    requires cfg.fromServer && length < 0x8000_0000_0000_0000
    ensures var h := MarshalHeader(opcode, length);
            ReadHeader(cfg, None, h + rest) ==
            if !Control(opcode) && length > cfg.max then Fail(ErrMessageTooBig)
            else Header(true, opcode, [], |h|, length)
  {
    var b := MarshalHeader(opcode, length) + rest;
    LengthRoundTrip(opcode, length, rest);
    assert b[0] % 16 == opcode && b[0] / 16 % 8 == 0;
    assert b[1] % 128 == b[1];
  }

  lemma ControlContents(cfg: Config, frag: Fragment, opcode: nat, payload: seq<byte>, size: nat)
    requires Control(opcode)
    ensures ControlVerdict(frag, opcode, payload, size) == Emits(Event(opcode, payload), frag, size)
            <==> Acceptable(cfg, opcode, payload)
  {
    if |payload| >= 2 {
      CloseCodeIs(payload);
    }
  }

  lemma ContentsRoundTrip(cfg: Config, opcode: nat, payload: seq<byte>, size: nat)
    requires Sendable(opcode, payload) && (!Control(opcode) ==> |payload| <= cfg.max)
    ensures var v := if Control(opcode) then ControlVerdict(None, opcode, payload, size)
                     else DataVerdict(None, true, opcode, payload, size);
            v == Emits(Event(opcode, payload), None, size) <==> Acceptable(cfg, opcode, payload)
  {
    if Control(opcode) {
      ControlContents(cfg, None, opcode, payload, size);
    } else {
      AcceptsWellFormed(START, payload);
      assert [] + payload == payload;
    }
  }

  lemma JudgedPlain(cfg: Config, b: seq<byte>, opcode: nat, payload: seq<byte>, offset: nat)
    requires ReadHeader(cfg, None, b) == Header(true, opcode, [], offset, |payload|)
    requires offset + |payload| <= |b| && b[offset..offset + |payload|] == payload
    ensures Judge(cfg, None, b) == if Control(opcode) then ControlVerdict(None, opcode, payload, offset + |payload|)
                                   else DataVerdict(None, true, opcode, payload, offset + |payload|)
  {
  }

  /** A client reads from what a server marshals exactly that event, if and only if it has nothing
      against the contents. */
  lemma FrameRoundTrip(cfg: Config, opcode: nat, payload: seq<byte>, rest: seq<byte>)
    requires Sendable(opcode, payload) && cfg.fromServer && |payload| < 0x8000_0000_0000_0000
    ensures var h := MarshalHeader(opcode, |payload|);
            (Judge(cfg, None, h + (payload + rest)) == Emits(Event(opcode, payload), None, |h| + |payload|))
            == Acceptable(cfg, opcode, payload)
  {
    var h := MarshalHeader(opcode, |payload|);
    var b := h + (payload + rest);
    HeaderRoundTrip(cfg, opcode, |payload|, payload + rest);
    Middle(h, payload, rest);
    if Control(opcode) || |payload| <= cfg.max {
      JudgedPlain(cfg, b, opcode, payload, |h|);
      ContentsRoundTrip(cfg, opcode, payload, |h| + |payload|);
    }
  }

  lemma Middle(a: seq<byte>, b: seq<byte>, c: seq<byte>)
    ensures (a + (b + c))[|a|..|a| + |b|] == b
  {
  }
}
