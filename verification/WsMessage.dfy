/** Whole messages on the wire: masked by a client or not, in one frame or in many (section 5 of RFC 6455). */
module WsMessage {
  import opened Bytes
  import opened Utf8
  import opened Utf8Scalars
  import opened WsMask
  import opened WsFrame
  import opened WsMarshal

  /** A frame as its sender means it; key is empty or has four bytes. */
  datatype Sent = Sent(fin: bool, opcode: nat, key: seq<byte>, payload: seq<byte>)

  predicate Proper(f: Sent) {
    && f.opcode in {CONTINUATION, TEXT, BINARY, CLOSE, PING, PONG} && |f.key| in {0, 4}
    && (Control(f.opcode) ==> f.fin && |f.payload| <= 125) && |f.payload| < 0x8000_0000_0000_0000
  }

  /** The second byte and the length after it; mask is its highest bit. */
  function LengthBytes(mask: nat, length: nat): seq<byte>
    requires mask in {0, 0x80}
  {
    if length < 126 then [mask + length]
    else if length <= 0xffff then [mask + 126] + PutBig(length, 2)
    else [mask + 127] + PutBig(length, 8)
  }

  /** The payload as it travels: with a key, every byte combined with one of its four bytes in turn. */
  function Travels(key: seq<byte>, p: seq<byte>): (u: seq<byte>)
    requires |key| in {0, 4}
    ensures |u| == |p| && forall i :: 0 <= i < |p| ==> u[i] == if key == [] then p[i] else Xor(p[i], key[i % 4])
  {
    if key == [] then p else seq(|p|, i requires 0 <= i < |p| => Xor(p[i], key[i % 4]))
  }

  function Head(f: Sent): seq<byte>
    requires Proper(f)
  {
    [(if f.fin then 0x80 else 0) + f.opcode] + LengthBytes(if f.key == [] then 0 else 0x80, |f.payload|) + f.key
  }

  function Wire(f: Sent): seq<byte>
    requires Proper(f)
  {
    Head(f) + Travels(f.key, f.payload)
  }

  /** What LengthBack says of the bytes of a length. */
  ghost predicate LengthRead(b: seq<byte>, first: byte, mask: nat, length: nat, size: nat) {
    && |b| >= 2 && b[0] == first && (b[1] >= 0x80 <==> mask == 0x80)
    && (length <= 125 <==> b[1] % 128 <= 125) && ReadLength(b) == Length(length, size)
  }

  lemma TwoBytes(first: byte, mask: nat, length: nat, rest: seq<byte>)
    requires mask in {0, 0x80} && 126 <= length <= 0xffff
    ensures LengthRead([first] + LengthBytes(mask, length) + rest, first, mask, length, 4)
  {
    Powers();
    BigOfPut(length, 2);
    assert ([first] + LengthBytes(mask, length) + rest)[2..4] == PutBig(length, 2);
  }

  lemma EightBytes(first: byte, mask: nat, length: nat, rest: seq<byte>)
    requires mask in {0, 0x80} && 0xffff < length < 0x8000_0000_0000_0000
    ensures LengthRead([first] + LengthBytes(mask, length) + rest, first, mask, length, 10)
  {
    Powers();
    BigOfPut(length, 8);
    assert ([first] + LengthBytes(mask, length) + rest)[2..10] == PutBig(length, 8);
  }

  lemma LengthBack(first: byte, mask: nat, length: nat, rest: seq<byte>)
    requires mask in {0, 0x80} && length < 0x8000_0000_0000_0000
    ensures var n := LengthBytes(mask, length);
            LengthRead([first] + n + rest, first, mask, length, 1 + |n|)
  {
    if length > 0xffff {
      EightBytes(first, mask, length, rest);
    } else if length > 125 {
      TwoBytes(first, mask, length, rest);
    }
  }

  /** Whether a frame may come now. */
  predicate Fits(cfg: Config, frag: Fragment, f: Sent) {
    && (f.key == [] <==> cfg.fromServer)
    && (f.opcode == CONTINUATION ==> frag.Fragment?) && (f.opcode == TEXT || f.opcode == BINARY ==> frag.None?)
  }

  predicate TooBig(cfg: Config, frag: Fragment, f: Sent) {
    !Control(f.opcode) && Held(frag) + |f.payload| > cfg.max
  }

  lemma NotRefused(cfg: Config, frag: Fragment, f: Sent, first: byte, second: byte)
    requires Proper(f) && Fits(cfg, frag, f) && first == (if f.fin then 0x80 else 0) + f.opcode
    requires (second >= 0x80 <==> f.key != []) && (|f.payload| <= 125 <==> second % 128 <= 125)
    ensures !Refused(cfg, frag, first, second) && first % 16 == f.opcode && (first >= 0x80 <==> f.fin)
  {
    assert first % 16 == f.opcode && first / 16 % 8 == 0;
  }

  lemma HeaderFrom(cfg: Config, frag: Fragment, f: Sent, b: seq<byte>, offset: nat)
    requires |b| >= 2 && !Refused(cfg, frag, b[0], b[1]) && b[0] % 16 == f.opcode && (b[0] >= 0x80 <==> f.fin)
    requires ReadLength(b) == Length(|f.payload|, offset) && (Control(f.opcode) ==> |f.payload| <= 125)
    requires (b[1] >= 0x80 <==> |f.key| == 4) && |f.key| in {0, 4}
    requires offset + |f.key| <= |b| && b[offset..offset + |f.key|] == f.key
    ensures ReadHeader(cfg, frag, b) ==
            if TooBig(cfg, frag, f) then Fail(ErrMessageTooBig)
            else Header(f.fin, f.opcode, f.key, offset + |f.key|, |f.payload|)
  {
  }

  lemma HeadParts(first: byte, n: seq<byte>, key: seq<byte>, rest: seq<byte>)
    ensures [first] + n + key + rest == [first] + n + (key + rest)
    ensures ([first] + n + key + rest)[1 + |n|..1 + |n| + |key|] == key
  {
  }

  lemma HeadBack(cfg: Config, frag: Fragment, f: Sent, rest: seq<byte>)
    requires Proper(f) && Fits(cfg, frag, f)
    ensures ReadHeader(cfg, frag, Head(f) + rest) ==
            if TooBig(cfg, frag, f) then Fail(ErrMessageTooBig)
            else Header(f.fin, f.opcode, f.key, |Head(f)|, |f.payload|)
  {
    var first: byte := (if f.fin then 0x80 else 0) + f.opcode;
    var mask := if f.key == [] then 0 else 0x80;
    var n := LengthBytes(mask, |f.payload|);
    LengthBack(first, mask, |f.payload|, f.key + rest);
    HeadParts(first, n, f.key, rest);
    NotRefused(cfg, frag, f, first, (Head(f) + rest)[1]);
    HeaderFrom(cfg, frag, f, Head(f) + rest, 1 + |n|);
  }

  lemma TravelsBack(cfg: Config, key: seq<byte>, p: seq<byte>)
    requires |key| in {0, 4} && IsXor(cfg.xor)
    ensures Plain(cfg, key, Travels(key, p)) == p
  {
    if key != [] {
      var u := Plain(cfg, key, Travels(key, p));
      forall i | 0 <= i < |p| ensures u[i] == p[i] {
        ByteTwice(p[i], key[i % 4]);
      }
    }
  }

  /** What a frame says once its payload is read. */
  function Verdicted(frag: Fragment, f: Sent, size: nat): Verdict {
    if Control(f.opcode) then ControlVerdict(frag, f.opcode, f.payload, size)
    else DataVerdict(frag, f.fin, f.opcode, f.payload, size)
  }

  lemma JudgedFrom(cfg: Config, frag: Fragment, f: Sent, b: seq<byte>, offset: nat)
    requires ReadHeader(cfg, frag, b) == Header(f.fin, f.opcode, f.key, offset, |f.payload|)
    requires offset + |f.payload| <= |b| && Plain(cfg, f.key, b[offset..offset + |f.payload|]) == f.payload
    ensures Judge(cfg, frag, b) == Verdicted(frag, f, offset + |f.payload|)
  {
  }

  /** A frame is read for what its sender means, whatever its key is and whatever follows it. */
  lemma WireBack(cfg: Config, frag: Fragment, f: Sent, rest: seq<byte>)
    requires Proper(f) && Fits(cfg, frag, f) && IsXor(cfg.xor)
    ensures Judge(cfg, frag, Wire(f) + rest) ==
            if TooBig(cfg, frag, f) then Verdict.Error(ErrMessageTooBig) else Verdicted(frag, f, |Wire(f)|)
  {
    var h, t := Head(f), Travels(f.key, f.payload);
    WireParts(h, t, rest);
    HeadBack(cfg, frag, f, t + rest);
    TravelsBack(cfg, f.key, f.payload);
    if !TooBig(cfg, frag, f) {
      JudgedFrom(cfg, frag, f, h + t + rest, |h|);
    }
  }

  lemma WireParts(h: seq<byte>, t: seq<byte>, rest: seq<byte>)
    ensures h + t + rest == h + (t + rest) && (h + t + rest)[|h|..|h| + |t|] == t
  {
  }

  // Nothing else is taken for a frame.

  lemma SevenBits(x: byte)
    ensures x == (if x >= 0x80 then 0x80 else 0) + x % 128
  {
  }

  lemma LengthOnly(b: seq<byte>)
    requires |b| >= 2 && ReadLength(b).Length?
    ensures var n, mask := ReadLength(b), if b[1] >= 0x80 then 0x80 else 0;
            && n.value < 0x8000_0000_0000_0000 && (n.value <= 125 <==> b[1] % 128 <= 125)
            && n.offset <= |b| && b[1..n.offset] == LengthBytes(mask, n.value)
  {
    var mask := if b[1] >= 0x80 then 0x80 else 0;
    SevenBits(b[1]);
    Powers();
    if b[1] % 128 == 126 {
      PutOfBig(b[2..4]);
      assert b[1..4] == [b[1]] + b[2..4];
    } else if b[1] % 128 == 127 {
      PutOfBig(b[2..10]);
      assert b[1..10] == [b[1]] + b[2..10];
    }
  }

  lemma FirstByteIs(x: byte)
    requires x / 16 % 8 == 0
    ensures x == (if x >= 0x80 then 0x80 else 0) + x % 16
  {
  }

  lemma SliceJoins(b: seq<byte>, i: nat, j: nat)
    requires 1 <= i <= j <= |b|
    ensures b[..j] == [b[0]] + b[1..i] + b[i..j]
  {
  }

  lemma TravelsAgain(cfg: Config, key: seq<byte>, p: seq<byte>)
    requires |key| in {0, 4} && IsXor(cfg.xor)
    ensures Travels(key, Plain(cfg, key, p)) == p
  {
    if key != [] {
      var u := Travels(key, Plain(cfg, key, p));
      forall i | 0 <= i < |p| ensures u[i] == p[i] {
        ByteTwice(p[i], key[i % 4]);
      }
    }
  }

  /** A header that is read is the head of a frame that may come now. */
  lemma HeadOnly(cfg: Config, frag: Fragment, b: seq<byte>, f: Sent)
    requires var h := ReadHeader(cfg, frag, b);
             h.Header? && f.fin == h.fin && f.opcode == h.opcode && f.key == h.mask && |f.payload| == h.length
    ensures Proper(f) && Fits(cfg, frag, f) && !TooBig(cfg, frag, f)
    ensures |Head(f)| <= |b| && ReadHeader(cfg, frag, b).offset == |Head(f)| && b[..|Head(f)|] == Head(f)
  {
    var h, n := ReadHeader(cfg, frag, b), ReadLength(b);
    LengthOnly(b);
    FirstByteIs(b[0]);
    SliceJoins(b, n.offset, h.offset);
  }

  lemma FrameThere(cfg: Config, frag: Fragment, b: seq<byte>)
    requires Judge(cfg, frag, b).Goes? || Judge(cfg, frag, b).Emits?
    ensures var h := ReadHeader(cfg, frag, b);
            h.Header? && h.offset + h.length <= |b| && Judge(cfg, frag, b).size == h.offset + h.length
  {
  }

  lemma FrameIsWire(cfg: Config, f: Sent, b: seq<byte>, n: nat)
    requires Proper(f) && IsXor(cfg.xor) && |Head(f)| + n <= |b| && b[..|Head(f)|] == Head(f)
    requires f.payload == Plain(cfg, f.key, b[|Head(f)|..|Head(f)| + n])
    ensures |Wire(f)| == |Head(f)| + n && b[..|Wire(f)|] == Wire(f)
  {
    var h := |Head(f)|;
    TravelsAgain(cfg, f.key, b[h..h + n]);
    assert b[..h + n] == b[..h] + b[h..h + n];
  }

  /** What is read as a frame is the wire form of a frame that may come now, and is read for what that means. */
  lemma OnlyWire(cfg: Config, frag: Fragment, b: seq<byte>) returns (f: Sent)
    requires IsXor(cfg.xor) && (Judge(cfg, frag, b).Goes? || Judge(cfg, frag, b).Emits?)
    ensures Proper(f) && Fits(cfg, frag, f) && !TooBig(cfg, frag, f)
    ensures var v := Judge(cfg, frag, b);
            v == Verdicted(frag, f, |Wire(f)|) && v.size == |Wire(f)| <= |b| && b[..v.size] == Wire(f)
  {
    FrameThere(cfg, frag, b);
    var h := ReadHeader(cfg, frag, b);
    f := Sent(h.fin, h.opcode, h.mask, Plain(cfg, h.mask, b[h.offset..h.offset + h.length]));
    HeadOnly(cfg, frag, b, f);
    FrameIsWire(cfg, f, b, h.length);
    JudgedFrom(cfg, frag, f, b, h.offset);
  }

  // A frame of which only a part has come.

  /** Text that has come of a frame is refused at once exactly if nothing after it can make the message well
      formed; all else waits for the rest. */
  lemma PartOfFrame(cfg: Config, frag: Fragment, f: Sent, n: nat)
    requires Proper(f) && Fits(cfg, frag, f) && !TooBig(cfg, frag, f) && IsXor(cfg.xor)
    requires |Head(f)| <= n < |Wire(f)|
    ensures var text := Before(frag, f.opcode) + f.payload[..n - |Head(f)|];
            Judge(cfg, frag, Wire(f)[..n]) ==
            if IsText(frag, f.opcode) && (forall more :: !WellFormed(text + more))
            then Verdict.Error(ErrInvalidPayload) else Wait
  {
    var h, t := Head(f), Travels(f.key, f.payload);
    var m := n - |h|;
    assert Wire(f)[..n] == h + t[..m];
    HeadBack(cfg, frag, f, t[..m]);
    TravelsBack(cfg, f.key, f.payload);
    PlainPrefix(cfg, f.key, t, m);
    BadIff(Before(frag, f.opcode) + f.payload[..m]);
    PartJudged(cfg, frag, f, h + t[..m], |h|);
  }

  lemma PartJudged(cfg: Config, frag: Fragment, f: Sent, b: seq<byte>, offset: nat)
    requires ReadHeader(cfg, frag, b) == Header(f.fin, f.opcode, f.key, offset, |f.payload|)
    requires offset <= |b| < offset + |f.payload| && Plain(cfg, f.key, b[offset..]) == f.payload[..|b| - offset]
    ensures Judge(cfg, frag, b) ==
            if IsText(frag, f.opcode) && Run(START, Before(frag, f.opcode) + f.payload[..|b| - offset]).Bad?
            then Verdict.Error(ErrInvalidPayload) else Wait
  {
  }

  // A message in one frame.

  /** frameHeader. */
  method FrameHeader(opcode: nat, length: nat) returns (ok: bool, header: seq<byte>)
    requires opcode < 16
    ensures ok == (opcode in {TEXT, BINARY, CLOSE, PING, PONG} && (Control(opcode) ==> length <= 125))
    ensures ok ==> header == [0x80 + opcode] + LengthBytes(0, length)
  {
    if opcode != TEXT && opcode != BINARY && opcode != CLOSE && opcode != PING && opcode != PONG {
      return false, [];
    }
    if opcode >= 0x8 && length > 125 {
      return false, [];
    }
    if length < 126 {
      return true, [0x80 + opcode] + [length];
    } else if length <= 0xffff {
      return true, [0x80 + opcode] + ([126] + PutBig(length, 2));
    } else {
      return true, [0x80 + opcode] + ([127] + PutBig(length, 8));
    }
  }

  lemma MaskBit(first: byte, length: nat)
    ensures var h := [first] + LengthBytes(0, length);
            |h| >= 2 && h[1] < 0x80 && h[1 := h[1] + 0x80] == [first] + LengthBytes(0x80, length)
  {
  }

  /** sendFrame without compression: a client masks what it sends, with any key. */
  method SendFrame(client: bool, key: seq<byte>, ghost xor: Mixer, opcode: nat, payload: seq<byte>)
    returns (ok: bool, frame: seq<byte>)
    requires |key| == 4 && opcode < 16 && IsXor(xor) && |payload| < 0x8000_0000_0000_0000
    ensures ok == Sendable(opcode, payload)
    ensures ok ==> frame == Wire(Sent(true, opcode, if client then key else [], payload))
  {
    var header;
    ok, header := FrameHeader(opcode, |payload|);
    if !ok {
      return false, [];
    }
    if !client {
      return true, header + [] + payload;
    }
    MaskBit(0x80 + opcode, |payload|);
    var masked := ApplyMask(xor, payload, key);
    MaskedTravels(xor, key, payload);
    return true, header[1 := header[1] + 0x80] + key + masked;
  }

  lemma MaskedTravels(xor: Mixer, key: seq<byte>, p: seq<byte>)
    requires |key| == 4 && IsXor(xor)
    ensures Unmask(xor, p, key, 0) == Travels(key, p)
  {
  }

  /** A message in one frame gives exactly that event to the other side, if and only if that has nothing
      against the contents, whether it is a client that masks with any key or a server. */
  lemma MaskedRoundTrip(cfg: Config, opcode: nat, key: seq<byte>, payload: seq<byte>, rest: seq<byte>)
    requires Sendable(opcode, payload) && |key| in {0, 4} && (key == [] <==> cfg.fromServer) && IsXor(cfg.xor)
    requires |payload| < 0x8000_0000_0000_0000
    ensures var w := Wire(Sent(true, opcode, key, payload));
            (Judge(cfg, None, w + rest) == Emits(Event(opcode, payload), None, |w|)) == Acceptable(cfg, opcode, payload)
  {
    var f := Sent(true, opcode, key, payload);
    WireBack(cfg, None, f, rest);
    if !TooBig(cfg, None, f) {
      ContentsRoundTrip(cfg, opcode, payload, |Wire(f)|);
    }
  }

  // A message in many frames.

  /** The bytes of many frames. */
  function WireAll(fs: seq<Sent>): seq<byte>
    requires forall i :: 0 <= i < |fs| ==> Proper(fs[i])
  {
    if fs == [] then [] else Wire(fs[0]) + WireAll(fs[1..])
  }

  function EventsOf(fs: seq<Sent>): seq<Event> {
    if fs == [] then [] else [Event(fs[0].opcode, fs[0].payload)] + EventsOf(fs[1..])
  }

  /** Control frames that the receiver has nothing against. */
  predicate Interjected(cfg: Config, fs: seq<Sent>) {
    forall i :: 0 <= i < |fs| ==>
      && Proper(fs[i]) && Control(fs[i].opcode) && (fs[i].key == [] <==> cfg.fromServer)
      && Acceptable(cfg, fs[i].opcode, fs[i].payload)
  }

  /** Events, and then what comes of the rest. */
  function Preceded(events: seq<Event>, o: Outcome): Outcome { o.(events := events + o.events) }

  lemma ControlBack(cfg: Config, frag: Fragment, f: Sent, rest: seq<byte>)
    requires Interjected(cfg, [f]) && IsXor(cfg.xor)
    ensures Proper(f)
    ensures Parse(cfg, frag, Wire(f) + rest) == Preceded([Event(f.opcode, f.payload)], Parse(cfg, frag, rest))
  {
    assert [f][0] == f;
    WireBack(cfg, frag, f, rest);
    ControlContents(cfg, frag, f.opcode, f.payload, |Wire(f)|);
    assert (Wire(f) + rest)[|Wire(f)|..] == rest;
  }

  lemma ControlThen(cfg: Config, frag: Fragment, f: Sent, x: seq<byte>, rest: seq<byte>, events: seq<Event>, o: Outcome)
    requires Interjected(cfg, [f]) && IsXor(cfg.xor) && Parse(cfg, frag, x + rest) == Preceded(events, o)
    ensures Proper(f)
    ensures Parse(cfg, frag, Wire(f) + x + rest) == Preceded([Event(f.opcode, f.payload)] + events, o)
  {
    ControlBack(cfg, frag, f, x + rest);
    assert Wire(f) + x + rest == Wire(f) + (x + rest);
    PrecededTwice([Event(f.opcode, f.payload)], events, o);
  }

  lemma FirstInterjected(cfg: Config, fs: seq<Sent>)
    requires Interjected(cfg, fs) && fs != []
    ensures Interjected(cfg, [fs[0]]) && Interjected(cfg, fs[1..])
  {
  }

  lemma {:induction false} ControlsBack(cfg: Config, frag: Fragment, fs: seq<Sent>, rest: seq<byte>)
    requires Interjected(cfg, fs) && IsXor(cfg.xor)
    ensures Parse(cfg, frag, WireAll(fs) + rest) == Preceded(EventsOf(fs), Parse(cfg, frag, rest))
  {
    var o := Parse(cfg, frag, rest);
    if fs == [] {
      assert [] + rest == rest && [] + o.events == o.events;
    } else {
      FirstInterjected(cfg, fs);
      ControlsBack(cfg, frag, fs[1..], rest);
      ControlThen(cfg, frag, fs[0], WireAll(fs[1..]), rest, EventsOf(fs[1..]), o);
    }
  }

  lemma PrecededTwice(a: seq<Event>, b: seq<Event>, o: Outcome)
    ensures Preceded(a, Preceded(b, o)) == Preceded(a + b, o)
  {
    assert a + (b + o.events) == a + b + o.events;
  }

  /** A piece of a message, with the control frames that come before it. */
  datatype Piece = Piece(before: seq<Sent>, key: seq<byte>, data: seq<byte>)

  predicate Cut(cfg: Config, pieces: seq<Piece>) {
    forall i :: 0 <= i < |pieces| ==>
      && Interjected(cfg, pieces[i].before) && |pieces[i].key| in {0, 4} && (pieces[i].key == [] <==> cfg.fromServer)
      && |pieces[i].data| < 0x8000_0000_0000_0000
  }

  /** The frame of the first of some pieces: the opcode is in the first frame of the message, and the last is
      marked. */
  function FirstFrame(kind: nat, start: bool, pieces: seq<Piece>): Sent
    requires pieces != []
  {
    Sent(|pieces| == 1, if start then kind else CONTINUATION, pieces[0].key, pieces[0].data)
  }

  function MessageWire(cfg: Config, kind: nat, start: bool, pieces: seq<Piece>): seq<byte>
    requires Cut(cfg, pieces) && kind in {TEXT, BINARY}
  {
    if pieces == [] then []
    else WireAll(pieces[0].before) + Wire(FirstFrame(kind, start, pieces)) + MessageWire(cfg, kind, false, pieces[1..])
  }

  function Controls(pieces: seq<Piece>): seq<Event> {
    if pieces == [] then [] else EventsOf(pieces[0].before) + Controls(pieces[1..])
  }

  function Data(pieces: seq<Piece>): seq<byte> {
    if pieces == [] then [] else pieces[0].data + Data(pieces[1..])
  }

  function Begun(kind: nat, start: bool, soFar: seq<byte>): Fragment {
    if start then None else Fragment(kind, soFar)
  }

  lemma AfterControls(cfg: Config, frag: Fragment, fs: seq<Sent>, x: seq<byte>, m: seq<byte>, rest: seq<byte>)
    requires Interjected(cfg, fs) && IsXor(cfg.xor)
    ensures Parse(cfg, frag, WireAll(fs) + x + m + rest)
            == Preceded(EventsOf(fs), Parse(cfg, frag, x + (m + rest)))
  {
    assert WireAll(fs) + x + m + rest == WireAll(fs) + (x + (m + rest));
    ControlsBack(cfg, frag, fs, x + (m + rest));
  }

  /** Text that no bytes after it can make well formed, or that ends where it must not. */
  predicate BadText(kind: nat, all: seq<byte>, last: bool) {
    kind == TEXT && (Run(START, all).Bad? || (last && !Idle(Run(START, all))))
  }

  lemma PieceVerdict(kind: nat, start: bool, soFar: seq<byte>, pieces: seq<Piece>, size: nat)
    requires pieces != [] && kind in {TEXT, BINARY} && (start ==> soFar == [])
    ensures var all, last := soFar + pieces[0].data, |pieces| == 1;
            Verdicted(Begun(kind, start, soFar), FirstFrame(kind, start, pieces), size) ==
            if BadText(kind, all, last) then Verdict.Error(ErrInvalidPayload)
            else if last then Emits(Event(kind, all), None, size) else Goes(Fragment(kind, all), size)
  {
    assert start ==> soFar + pieces[0].data == pieces[0].data;
  }

  /** What comes of the first of some pieces and of what follows it. */
  function PieceOutcome(cfg: Config, kind: nat, all: seq<byte>, last: bool, more: seq<byte>): Outcome {
    if |all| > cfg.max then Outcome([], true, ErrMessageTooBig, None, [])
    else if BadText(kind, all, last) then Outcome([], true, ErrInvalidPayload, None, [])
    else if last then Preceded([Event(kind, all)], Parse(cfg, None, more))
    else Parse(cfg, Fragment(kind, all), more)
  }

  lemma PieceBack(cfg: Config, kind: nat, start: bool, soFar: seq<byte>, pieces: seq<Piece>, more: seq<byte>)
    requires Cut(cfg, pieces) && pieces != [] && kind in {TEXT, BINARY} && IsXor(cfg.xor) && (start ==> soFar == [])
    ensures Parse(cfg, Begun(kind, start, soFar), Wire(FirstFrame(kind, start, pieces)) + more)
            == PieceOutcome(cfg, kind, soFar + pieces[0].data, |pieces| == 1, more)
  {
    var frag, f := Begun(kind, start, soFar), FirstFrame(kind, start, pieces);
    WireBack(cfg, frag, f, more);
    PieceVerdict(kind, start, soFar, pieces, |Wire(f)|);
    assert (Wire(f) + more)[|Wire(f)|..] == more;
  }

  lemma MessageStep(cfg: Config, kind: nat, start: bool, soFar: seq<byte>, pieces: seq<Piece>, rest: seq<byte>)
    requires Cut(cfg, pieces) && pieces != [] && kind in {TEXT, BINARY} && IsXor(cfg.xor) && (start ==> soFar == [])
    ensures var more := MessageWire(cfg, kind, false, pieces[1..]) + rest;
            Parse(cfg, Begun(kind, start, soFar), MessageWire(cfg, kind, start, pieces) + rest)
            == Preceded(EventsOf(pieces[0].before),
                        PieceOutcome(cfg, kind, soFar + pieces[0].data, |pieces| == 1, more))
  {
    var m := MessageWire(cfg, kind, false, pieces[1..]);
    AfterControls(cfg, Begun(kind, start, soFar), pieces[0].before, Wire(FirstFrame(kind, start, pieces)), m, rest);
    PieceBack(cfg, kind, start, soFar, pieces, m + rest);
  }

  predicate Welcome(cfg: Config, kind: nat, all: seq<byte>) {
    |all| <= cfg.max && (kind == TEXT ==> WellFormed(all))
  }

  lemma WelcomeParts(cfg: Config, kind: nat, all: seq<byte>, more: seq<byte>)
    requires Welcome(cfg, kind, all + more)
    ensures |all| <= cfg.max && !BadText(kind, all, false) && (more == [] ==> !BadText(kind, all, true))
  {
    AcceptsWellFormed(START, all + more);
    assert more == [] ==> all + more == all;
    if Run(START, all).Bad? {
      RunAppend(START, all, more);
      RunBad(more);
    }
  }

  lemma DataParts(soFar: seq<byte>, pieces: seq<Piece>)
    requires pieces != []
    ensures soFar + Data(pieces) == soFar + pieces[0].data + Data(pieces[1..])
  {
  }

  /** A message that the receiver can take, cut into any pieces, each masked with any key, with any control
      frames between them, gives the events of these, then one event with the opcode of the first frame and
      the pieces joined, and then what comes of the rest. */
  lemma {:induction false} MessageBack(cfg: Config, kind: nat, start: bool, soFar: seq<byte>, pieces: seq<Piece>,
                                       rest: seq<byte>)
    requires Cut(cfg, pieces) && pieces != [] && kind in {TEXT, BINARY} && IsXor(cfg.xor) && (start ==> soFar == [])
    requires Welcome(cfg, kind, soFar + Data(pieces))
    ensures Parse(cfg, Begun(kind, start, soFar), MessageWire(cfg, kind, start, pieces) + rest)
            == Preceded(Controls(pieces) + [Event(kind, soFar + Data(pieces))], Parse(cfg, None, rest))
    decreases |pieces|
  {
    var all, more := soFar + pieces[0].data, pieces[1..];
    MessageStep(cfg, kind, start, soFar, pieces, rest);
    DataParts(soFar, pieces);
    WelcomeParts(cfg, kind, all, Data(more));
    var before := EventsOf(pieces[0].before);
    if more == [] {
      assert [] + rest == rest && before + [] == before && all + [] == all;
      PrecededTwice(before, [Event(kind, all)], Parse(cfg, None, rest));
    } else {
      MessageBack(cfg, kind, false, all, more, rest);
      PrecededTwice(before, Controls(more) + [Event(kind, all + Data(more))], Parse(cfg, None, rest));
      assert before + (Controls(more) + [Event(kind, all + Data(more))])
          == before + Controls(more) + [Event(kind, all + Data(more))];
    }
  }

  /** An error, of the right kind if there is only one, after some of the events. */
  ghost predicate EndsIn(o: Outcome, kind: nat, fits: bool, events: seq<Event>) {
    && o.failed && o.events <= events && (kind == BINARY ==> o.error == ErrMessageTooBig)
    && (fits ==> o.error == ErrInvalidPayload)
  }

  lemma EndsLater(o: Outcome, kind: nat, fits: bool, before: seq<Event>, events: seq<Event>)
    requires EndsIn(o, kind, fits, events)
    ensures EndsIn(Preceded(before, o), kind, fits, before + events)
  {
  }

  /** The pieces so far do not decide, or they end it. */
  lemma PieceRefused(cfg: Config, kind: nat, all: seq<byte>, data: seq<byte>, last: bool, more: seq<byte>)
    requires !Welcome(cfg, kind, all + data) && (last ==> data == []) && kind in {TEXT, BINARY}
    requires |all| > cfg.max || BadText(kind, all, last) || last
    ensures EndsIn(PieceOutcome(cfg, kind, all, last, more), kind, |all + data| <= cfg.max, [])
  {
    AcceptsWellFormed(START, all);
    assert data == [] ==> all + data == all;
  }

  /** Any other message ends the connection before it is given to the application. */
  lemma {:induction false} MessageRefused(cfg: Config, kind: nat, start: bool, soFar: seq<byte>, pieces: seq<Piece>,
                                          rest: seq<byte>)
    requires Cut(cfg, pieces) && pieces != [] && kind in {TEXT, BINARY} && IsXor(cfg.xor) && (start ==> soFar == [])
    requires !Welcome(cfg, kind, soFar + Data(pieces))
    ensures EndsIn(Parse(cfg, Begun(kind, start, soFar), MessageWire(cfg, kind, start, pieces) + rest),
                   kind, |soFar + Data(pieces)| <= cfg.max, Controls(pieces))
    decreases |pieces|
  {
    var all, more := soFar + pieces[0].data, pieces[1..];
    MessageStep(cfg, kind, start, soFar, pieces, rest);
    DataParts(soFar, pieces);
    var o := PieceOutcome(cfg, kind, all, |pieces| == 1, MessageWire(cfg, kind, false, more) + rest);
    var fits := |all + Data(more)| <= cfg.max;
    if |all| > cfg.max || BadText(kind, all, |pieces| == 1) || more == [] {
      PieceRefused(cfg, kind, all, Data(more), |pieces| == 1, MessageWire(cfg, kind, false, more) + rest);
      EndsLater(o, kind, fits, EventsOf(pieces[0].before), []);
    } else {
      MessageRefused(cfg, kind, false, all, more, rest);
      EndsLater(o, kind, fits, EventsOf(pieces[0].before), Controls(more));
    }
  }
}
