/** WebSocket frames (section 5 of RFC 6455), without compression: what a stream of bytes means,
    whatever pieces it comes in. */
module WsFrame {
  import opened Bytes
  import opened Utf8
  import opened WsMask

  const CONTINUATION := 0x0
  const TEXT := 0x1
  const BINARY := 0x2
  const CLOSE := 0x8
  const PING := 0x9
  const PONG := 0xa

  datatype Error = ErrProtocol | ErrMessageTooBig | ErrInvalidPayload

  datatype Event = Event(opcode: nat, payload: seq<byte>)

  /** A message of which more fragments are to come. */
  datatype Fragment = None | Fragment(opcode: nat, data: seq<byte>)

  /** maxMessageBytes, and which side's frames are read. */
  datatype Config = Config(max: nat, fromServer: bool, xor: Mixer)

  function BigEndian(b: seq<byte>): nat {
    if b == [] then 0 else 256 * BigEndian(b[..|b| - 1]) + b[|b| - 1]
  }

  // Headers.

  datatype Header =
    | More
    | Fail(error: Error)
    | Header(fin: bool, opcode: nat, mask: seq<byte>, offset: nat, length: nat)

  predicate Control(opcode: nat) { opcode >= 0x8 }

  /** What the first two bytes already rule out. */
  predicate Refused(cfg: Config, frag: Fragment, first: byte, second: byte) {
    var opcode := first % 16;
    || first / 16 % 8 != 0 || (second >= 0x80) == cfg.fromServer
    || (Control(opcode) && (first < 0x80 || second % 128 > 125))
    || (opcode == CONTINUATION && frag.None?)
    || ((opcode == TEXT || opcode == BINARY) && !frag.None?)
    || !(opcode == CONTINUATION || opcode == TEXT || opcode == BINARY || opcode == CLOSE || opcode == PING
       || opcode == PONG)
  }

  datatype Length = LengthMore | LengthBad | Length(value: nat, offset: nat)

  /** The length field. */
  function ReadLength(b: seq<byte>): Length
    requires |b| >= 2
  {
    var short := b[1] % 128;
    if short == 126 then
      if |b| < 4 then LengthMore
      else if BigEndian(b[2..4]) < 126 then LengthBad else Length(BigEndian(b[2..4]), 4)
    else if short == 127 then
      if |b| < 10 then LengthMore
      else if BigEndian(b[2..10]) < 0x10000 || BigEndian(b[2..10]) >= 0x8000_0000_0000_0000 then LengthBad
      else Length(BigEndian(b[2..10]), 10)
    else Length(short, 2)
  }

  function Held(frag: Fragment): nat { if frag.None? then 0 else |frag.data| }

  function ReadHeader(cfg: Config, frag: Fragment, b: seq<byte>): Header {
    if |b| < 2 then More
    else if Refused(cfg, frag, b[0], b[1]) then Fail(ErrProtocol)
    else
      match ReadLength(b)
      case LengthMore => More
      case LengthBad => Fail(ErrProtocol)
      case Length(length, offset) =>
        var opcode := b[0] % 16;
        if Control(opcode) && length > 125 then Fail(ErrProtocol)
        else if !Control(opcode) && (length > cfg.max || Held(frag) > cfg.max - length) then Fail(ErrMessageTooBig)
        else if b[1] < 0x80 then Header(b[0] >= 0x80, opcode, [], offset, length)
        else if |b| < offset + 4 then More
        else Header(b[0] >= 0x80, opcode, b[offset..offset + 4], offset + 4, length)
  }

  /** Once a header is there, more bytes do not change it. */
  lemma HeaderStays(cfg: Config, frag: Fragment, a: seq<byte>, b: seq<byte>)
    ensures var h := ReadHeader(cfg, frag, a);
            !h.More? ==> ReadHeader(cfg, frag, a + b) == h && (h.Header? ==> h.offset <= |a| && |h.mask| in {0, 4})
  {
    if |a| >= 2 {
      assert (a + b)[0] == a[0] && (a + b)[1] == a[1];
      LengthStays(a, b);
      var n := ReadLength(a);
      if n.Length? && |a| >= n.offset + 4 {
        assert (a + b)[n.offset..n.offset + 4] == a[n.offset..n.offset + 4];
      }
    }
  }

  lemma LengthStays(a: seq<byte>, b: seq<byte>)
    requires |a| >= 2
    ensures var n := ReadLength(a); !n.LengthMore? ==> ReadLength(a + b) == n && (n.Length? ==> n.offset <= |a|)
  {
    if |a| >= 4 {
      assert (a + b)[2..4] == a[2..4];
    }
    if |a| >= 10 {
      assert (a + b)[2..10] == a[2..10];
    }
  }

  // Frames.

  /** Payload bytes as the sender meant them. */
  function Plain(cfg: Config, mask: seq<byte>, p: seq<byte>): (u: seq<byte>)
    ensures |u| == |p|
  {
    if |mask| == 4 then Unmask(cfg.xor, p, mask, 0) else p
  }

  predicate IsText(frag: Fragment, opcode: nat) {
    opcode == TEXT || (opcode == CONTINUATION && frag.Fragment? && frag.opcode == TEXT)
  }

  /** What the message holds before this frame. */
  function Before(frag: Fragment, opcode: nat): seq<byte> {
    if opcode == CONTINUATION && frag.Fragment? then frag.data else []
  }

  predicate ValidCloseCode(code: nat) {
    if 1000 <= code <= 1014 then code != 1004 && code != 1005 && code != 1006 else 3000 <= code <= 4999
  }

  /** What a buffer says about the frame at its head: wait for more, an error, a frame of a
      message that goes on, or an event. */
  datatype Verdict =
    | Wait
    | Error(error: Error)
    | Goes(frag: Fragment, size: nat)
    | Emits(event: Event, frag: Fragment, size: nat)

  function ControlVerdict(frag: Fragment, opcode: nat, payload: seq<byte>, size: nat): Verdict {
    if opcode == CLOSE && (|payload| == 1 || (|payload| >= 2 && !ValidCloseCode(BigEndian(payload[..2]))))
    then Error(ErrProtocol)
    else if opcode == CLOSE && |payload| > 2 && !WellFormed(payload[2..]) then Error(ErrInvalidPayload)
    else Emits(Event(opcode, payload), frag, size)
  }

  function DataVerdict(frag: Fragment, fin: bool, opcode: nat, payload: seq<byte>, size: nat): Verdict {
    var all := Before(frag, opcode) + payload;
    var kind := if opcode == CONTINUATION && frag.Fragment? then frag.opcode else opcode;
    var r := Run(START, all);
    if IsText(frag, opcode) && (r.Bad? || (fin && !Idle(r))) then Error(ErrInvalidPayload)
    else if fin then Emits(Event(kind, all), None, size) else Goes(Fragment(kind, all), size)
  }

  function Judge(cfg: Config, frag: Fragment, b: seq<byte>): Verdict {
    JudgeFrame(cfg, frag, b, ReadHeader(cfg, frag, b))
  }

  function JudgeFrame(cfg: Config, frag: Fragment, b: seq<byte>, h: Header): Verdict {
    match h
    case More => Wait
    case Fail(e) => Error(e)
    case Header(fin, opcode, mask, offset, length) =>
      if offset > |b| then Wait
      else if length > |b| - offset then
        if IsText(frag, opcode) && Run(START, Before(frag, opcode) + Plain(cfg, mask, b[offset..])).Bad?
        then Error(ErrInvalidPayload)
        else Wait
      else
        var payload := Plain(cfg, mask, b[offset..offset + length]);
        if Control(opcode) then ControlVerdict(frag, opcode, payload, offset + length)
        else DataVerdict(frag, fin, opcode, payload, offset + length)
  }

  lemma PlainPrefix(cfg: Config, mask: seq<byte>, p: seq<byte>, n: nat)
    requires n <= |p|
    ensures Plain(cfg, mask, p[..n]) == Plain(cfg, mask, p)[..n]
  {
  }

  /** What is refused stays refused. */
  lemma BadStays(base: seq<byte>, a: seq<byte>, n: nat)
    requires n <= |a| && Run(START, base + a[..n]).Bad?
    ensures Run(START, base + a).Bad?
  {
    RunAppend(START, base + a[..n], a[n..]);
    assert base + a == base + a[..n] + a[n..];
    RunBad(a[n..]);
  }

  /** Text refused before its frame is complete is refused when more of it is there. */
  lemma PartialStays(cfg: Config, frag: Fragment, a: seq<byte>, b: seq<byte>, h: Header)
    requires h.Header? && ReadHeader(cfg, frag, a) == h == ReadHeader(cfg, frag, a + b)
    requires h.offset <= |a| && h.length > |a| - h.offset && Judge(cfg, frag, a) == Error(ErrInvalidPayload)
    ensures Judge(cfg, frag, a + b) == Error(ErrInvalidPayload)
  {
    var n, base := |a| - h.offset, Before(frag, h.opcode);
    var end := if h.length > |a + b| - h.offset then |a + b| else h.offset + h.length;
    var p := (a + b)[h.offset..end];
    Slices(a, b, h.offset, end);
    PlainPrefix(cfg, h.mask, p, n);
    BadStays(base, Plain(cfg, h.mask, p), n);
  }

  lemma Slices(a: seq<byte>, b: seq<byte>, from: nat, end: nat)
    requires from <= |a| <= end <= |a + b|
    ensures (a + b)[from..end][..|a| - from] == a[from..] && (end == |a + b| ==> (a + b)[from..] == (a + b)[from..end])
  {
  }

  /** A verdict other than to wait is not changed by what follows. */
  lemma VerdictStays(cfg: Config, frag: Fragment, a: seq<byte>, b: seq<byte>)
    requires !Judge(cfg, frag, a).Wait?
    ensures Judge(cfg, frag, a + b) == Judge(cfg, frag, a)
  {
    HeaderStays(cfg, frag, a, b);
    var h := ReadHeader(cfg, frag, a);
    if h.Header? {
      if h.length > |a| - h.offset {
        PartialStays(cfg, frag, a, b, h);
      } else {
        SliceStays(a, b, h.offset, h.offset + h.length);
      }
    }
  }

  lemma SliceStays(a: seq<byte>, b: seq<byte>, from: nat, end: nat)
    requires from <= end <= |a|
    ensures (a + b)[from..end] == a[from..end]
  {
  }

  lemma SizeFits(cfg: Config, frag: Fragment, b: seq<byte>)
    ensures var v := Judge(cfg, frag, b); v.Goes? || v.Emits? ==> 2 <= v.size <= |b|
  {
    HeaderStays(cfg, frag, b, []);
  }

  // Streams.

  /** What has come of a stream: events, the first error if any, and where the parser stands. */
  datatype Outcome = Outcome(events: seq<Event>, failed: bool, error: Error, frag: Fragment, rest: seq<byte>)

  function Parse(cfg: Config, frag: Fragment, b: seq<byte>): Outcome
    decreases |b|
  {
    SizeFits(cfg, frag, b);
    match Judge(cfg, frag, b)
    case Wait => Outcome([], false, ErrProtocol, frag, b)
    case Error(e) => Outcome([], true, e, None, [])
    case Goes(next, size) => Parse(cfg, next, b[size..])
    case Emits(event, next, size) =>
      var more := Parse(cfg, next, b[size..]);
      more.(events := [event] + more.events)
  }

  /** One piece after another: the first error ends it. */
  function Then(cfg: Config, o: Outcome, piece: seq<byte>): Outcome {
    if o.failed then o else
    var more := Parse(cfg, o.frag, o.rest + piece);
    more.(events := o.events + more.events)
  }

  /** Parsing some of the bytes first makes no difference. */
  lemma {:induction false} ParseThen(cfg: Config, frag: Fragment, a: seq<byte>, b: seq<byte>)
    ensures Parse(cfg, frag, a + b) == Then(cfg, Parse(cfg, frag, a), b)
    decreases |a|
  {
    var v := Judge(cfg, frag, a);
    SizeFits(cfg, frag, a);
    if !v.Wait? {
      VerdictStays(cfg, frag, a, b);
      if v.Goes? || v.Emits? {
        assert (a + b)[v.size..] == a[v.size..] + b;
        ParseThen(cfg, v.frag, a[v.size..], b);
        if v.Emits? {
          EventsFirst(cfg, v.event, Parse(cfg, v.frag, a[v.size..]), b);
        }
      }
    } else {
      assert [] + Parse(cfg, frag, a + b).events == Parse(cfg, frag, a + b).events;
    }
  }

  lemma EventsFirst(cfg: Config, e: Event, o: Outcome, b: seq<byte>)
    ensures Then(cfg, o.(events := [e] + o.events), b) == (var t := Then(cfg, o, b); t.(events := [e] + t.events))
  {
    if !o.failed {
      var more := Parse(cfg, o.frag, o.rest + b).events;
      assert [e] + (o.events + more) == [e] + o.events + more;
    }
  }

  /** What comes of a stream that arrives in pieces. */
  function Fed(cfg: Config, pieces: seq<seq<byte>>): Outcome {
    if pieces == [] then Outcome([], false, ErrProtocol, None, [])
    else Then(cfg, Fed(cfg, pieces[..|pieces| - 1]), pieces[|pieces| - 1])
  }

  /** Any cut of a stream gives the same events and the same first error as the whole. */
  lemma {:induction false} CutsDoNotMatter(cfg: Config, pieces: seq<seq<byte>>)
    ensures Fed(cfg, pieces) == Parse(cfg, None, Concat(pieces))
  {
    if pieces != [] {
      CutsDoNotMatter(cfg, pieces[..|pieces| - 1]);
      ParseThen(cfg, None, Concat(pieces[..|pieces| - 1]), pieces[|pieces| - 1]);
    }
  }

  /** Data fragments are of text or binary messages. */
  predicate DataFragment(frag: Fragment) { frag.None? || frag.opcode == TEXT || frag.opcode == BINARY }

  /** A frame of a new message comes when there is none, and a continuation when there is one. */
  lemma HeaderKnows(cfg: Config, frag: Fragment, b: seq<byte>)
    ensures var h := ReadHeader(cfg, frag, b);
            && (h.Header? && (h.opcode == TEXT || h.opcode == BINARY) ==> frag.None?)
            && (h.Header? && h.opcode == CONTINUATION ==> frag.Fragment?)
            && (h.Header? ==> h.opcode in {CONTINUATION, TEXT, BINARY, CLOSE, PING, PONG})
  {
  }

  lemma DataText(frag: Fragment, fin: bool, opcode: nat, payload: seq<byte>, size: nat)
    requires DataFragment(frag) && opcode in {CONTINUATION, TEXT, BINARY} && (opcode == CONTINUATION ==> frag.Fragment?)
    ensures var v := DataVerdict(frag, fin, opcode, payload, size);
            && (v.Goes? || v.Emits? ==> DataFragment(v.frag))
            && (v.Emits? && v.event.opcode == TEXT ==> WellFormed(v.event.payload))
  {
    AcceptsWellFormed(START, Before(frag, opcode) + payload);
  }

  lemma FrameText(cfg: Config, frag: Fragment, b: seq<byte>, h: Header)
    requires DataFragment(frag)
    requires h.Header? ==> h.opcode in {CONTINUATION, TEXT, BINARY, CLOSE, PING, PONG}
    requires h.Header? && h.opcode == CONTINUATION ==> frag.Fragment?
    ensures var v := JudgeFrame(cfg, frag, b, h);
            && (v.Goes? || v.Emits? ==> DataFragment(v.frag))
            && (v.Emits? && v.event.opcode == TEXT ==> WellFormed(v.event.payload))
  {
    if h.Header? && h.offset <= |b| && h.length <= |b| - h.offset && !Control(h.opcode) {
      DataText(frag, h.fin, h.opcode, Plain(cfg, h.mask, b[h.offset..h.offset + h.length]), h.offset + h.length);
    }
  }

  lemma VerdictText(cfg: Config, frag: Fragment, b: seq<byte>)
    requires DataFragment(frag)
    ensures var v := Judge(cfg, frag, b);
            && (v.Goes? || v.Emits? ==> DataFragment(v.frag))
            && (v.Emits? && v.event.opcode == TEXT ==> WellFormed(v.event.payload))
  {
    HeaderKnows(cfg, frag, b);
    FrameText(cfg, frag, b, ReadHeader(cfg, frag, b));
  }

  /** Only valid UTF-8 is delivered as text. */
  lemma {:induction false} TextIsWellFormed(cfg: Config, frag: Fragment, b: seq<byte>)
    requires DataFragment(frag)
    ensures forall i :: 0 <= i < |Parse(cfg, frag, b).events| && Parse(cfg, frag, b).events[i].opcode == TEXT ==>
              WellFormed(Parse(cfg, frag, b).events[i].payload)
    decreases |b|
  {
    SizeFits(cfg, frag, b);
    VerdictText(cfg, frag, b);
    var v := Judge(cfg, frag, b);
    if v.Goes? || v.Emits? {
      TextIsWellFormed(cfg, v.frag, b[v.size..]);
    }
  }
}
