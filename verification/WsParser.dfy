/** The incremental parser, with its own buffer or over a borrowed one. */
module WsParser {
  import opened Bytes
  import opened Utf8
  import opened WsMask
  import opened WsFrame

  /** The text of the message so far. */
  function TextBefore(frag: Fragment): seq<byte> {
    if frag.Fragment? && frag.opcode == TEXT then frag.data else []
  }

  ghost predicate Reached(v: Check, s: seq<byte>) { v.Check? && Same(v, Run(START, s)) }

  /** The validator has seen the text before the frame at the head of cur and the first checked
      bytes of the payload of that frame. */
  ghost predicate TextOk(cfg: Config, frag: Fragment, v: Check, checked: nat, cur: seq<byte>) {
    if checked == 0 then Reached(v, TextBefore(frag))
    else
      var h := ReadHeader(cfg, frag, cur);
      && h.Header? && h.offset + checked <= |cur| && checked <= h.length && IsText(frag, h.opcode)
      && Reached(v, Before(frag, h.opcode) + Plain(cfg, h.mask, cur[h.offset..h.offset + checked]))
  }

  lemma ReachedFurther(v: Check, s: seq<byte>, p: seq<byte>)
    requires Reached(v, s)
    ensures Same(Run(v, p), Run(START, s + p))
  {
    RunAppend(START, s, p);
    SameRuns(v, Run(START, s), p);
  }

  lemma CheckedPart(cfg: Config, mask: seq<byte>, cur: seq<byte>, offset: nat, checked: nat, p: seq<byte>)
    requires checked <= |p| && offset + |p| <= |cur| && p == cur[offset..offset + |p|]
    ensures Plain(cfg, mask, p)[..checked] == Plain(cfg, mask, cur[offset..offset + checked])
  {
    PlainPrefix(cfg, mask, p, checked);
    assert p[..checked] == cur[offset..offset + checked];
  }

  /** What is left to check of the payload p of a text frame decides about all of it. */
  lemma RestDecides(cfg: Config, frag: Fragment, v: Check, checked: nat, cur: seq<byte>, h: Header, p: seq<byte>)
    requires DataFragment(frag) && TextOk(cfg, frag, v, checked, cur) && h == ReadHeader(cfg, frag, cur) && h.Header?
    requires IsText(frag, h.opcode) && checked <= |p| && h.offset + |p| <= |cur| && p == cur[h.offset..h.offset + |p|]
    ensures Same(Run(v, Plain(cfg, h.mask, p)[checked..]), Run(START, Before(frag, h.opcode) + Plain(cfg, h.mask, p)))
  {
    var u := Plain(cfg, h.mask, p);
    var base := Before(frag, h.opcode);
    if checked == 0 {
      HeaderKnows(cfg, frag, cur);
      assert base == TextBefore(frag);
      ReachedPart(v, base, u, 0);
    } else {
      CheckedPart(cfg, h.mask, cur, h.offset, checked, p);
      ReachedPart(v, base, u, checked);
    }
  }

  lemma ReachedPart(v: Check, base: seq<byte>, u: seq<byte>, n: nat)
    requires n <= |u| && Reached(v, if n == 0 then base else base + u[..n])
    ensures Same(Run(v, u[n..]), Run(START, base + u))
  {
    if n == 0 {
      assert base + u[..n] == base;
    }
    ReachedFurther(v, base + u[..n], u[n..]);
    assert base + u[..n] + u[n..] == base + u;
  }

  method TakeHeader(ghost cfg: Config, max: nat, fromServer: bool, frag: Fragment, b: seq<byte>) returns (h: Header)
    requires cfg.max == max && cfg.fromServer == fromServer
    ensures h == ReadHeader(cfg, frag, b)
  {
    if |b| < 2 {
      return More;
    }
    var first, second := b[0], b[1];
    var fin, opcode, masked := first >= 0x80, first % 16, second >= 0x80;
    if first / 16 % 8 != 0 || masked == fromServer {
      return Fail(ErrProtocol);
    }
    var control := opcode >= 0x8;
    if control && (!fin || second % 128 > 125) {
      return Fail(ErrProtocol);
    }
    if opcode == CONTINUATION {
      if frag.None? {
        return Fail(ErrProtocol);
      }
    } else if opcode == TEXT || opcode == BINARY {
      if !frag.None? {
        return Fail(ErrProtocol);
      }
    } else if opcode != CLOSE && opcode != PING && opcode != PONG {
      return Fail(ErrProtocol);
    }
    var offset, length := 2, second % 128;
    if length == 126 {
      if |b| < 4 {
        return More;
      }
      offset, length := 4, BigEndian(b[2..4]);
      if length < 126 {
        return Fail(ErrProtocol);
      }
    } else if length == 127 {
      if |b| < 10 {
        return More;
      }
      offset, length := 10, BigEndian(b[2..10]);
      if length < 0x10000 || length >= 0x8000_0000_0000_0000 {
        return Fail(ErrProtocol);
      }
    }
    if control && length > 125 {
      return Fail(ErrProtocol);
    }
    var current := if frag.None? then 0 else |frag.data|;
    if !control && (length > max || current > max - length) {
      return Fail(ErrMessageTooBig);
    }
    var mask: seq<byte> := [];
    if masked {
      if |b| < offset + 4 {
        return More;
      }
      mask := b[offset..offset + 4];
      offset := offset + 4;
    }
    h := Header(fin, opcode, mask, offset, length);
  }

  /** The payload as the sender meant it. */
  method TakePayload(ghost cfg: Config, mask: seq<byte>, p: seq<byte>) returns (u: seq<byte>)
    requires |mask| in {0, 4} && IsXor(cfg.xor)
    ensures u == Plain(cfg, mask, p)
  {
    u := p;
    if |mask| == 4 {
      u := ApplyMask(cfg.xor, p, mask);
    }
  }

  /** The inner loop of checkPartialText. */
  method UnmaskChunk(ghost cfg: Config, available: seq<byte>, mask: seq<byte>, i: nat, n: nat)
    returns (chunk: seq<byte>)
    requires |mask| == 4 && IsXor(cfg.xor) && i + n <= |available|
    ensures chunk == Plain(cfg, mask, available)[i..i + n]
  {
    chunk := [];
    ghost var u := Plain(cfg, mask, available);
    var j := 0;
    while j < n
      invariant 0 <= j <= n && chunk == u[i..i + j]
    {
      chunk := chunk + [Xor(available[i + j], mask[(i + j) % 4])];
      j := j + 1;
    }
  }

  /** checkPartialText for masked text, which is unmasked in chunks of 512 bytes; u is all of it. */
  method CheckMasked(text: Validator, ghost cfg: Config, available: seq<byte>, mask: seq<byte>, checked: nat,
                     ghost u: seq<byte>)
    returns (ok: bool)
    requires |mask| == 4 && IsXor(cfg.xor) && checked <= |available| == |u| && u == Plain(cfg, mask, available)
    modifies text
    ensures var r := Run(old(text.Value()), u[checked..]); ok == r.Check? && (ok ==> Same(text.Value(), r))
  {
    var i := checked;
    ghost var all := Run(text.Value(), u[checked..]);
    while i < |available|
      invariant checked <= i <= |available| && Same(Run(text.Value(), u[i..]), all)
    {
      var n := if |available| - i < 512 then |available| - i else 512;
      var chunk := UnmaskChunk(cfg, available, mask, i, n);
      ghost var v := text.Value();
      ok := text.Write(chunk);
      ChunkStep(v, text.Value(), u, i, n, all);
      if !ok {
        return;
      }
      i := i + n;
    }
    ok := true;
  }

  /** A chunk of u and the rest of it. */
  lemma ChunkStep(v: Check, w: Check, u: seq<byte>, i: nat, n: nat, all: Check)
    requires i + n <= |u| && Same(Run(v, u[i..]), all)
    ensures Run(v, u[i..i + n]).Bad? ==> all.Bad?
    ensures Run(v, u[i..i + n]).Check? && Same(w, Run(v, u[i..i + n])) ==> Same(Run(w, u[i + n..]), all)
  {
    assert u[i..] == u[i..i + n] + u[i + n..];
    RunAppend(v, u[i..i + n], u[i + n..]);
    RunBad(u[i + n..]);
    if Same(w, Run(v, u[i..i + n])) {
      SameRuns(w, Run(v, u[i..i + n]), u[i + n..]);
    }
  }

  /** checkPartialText. */
  method CheckPartial(text: Validator, ghost cfg: Config, available: seq<byte>, mask: seq<byte>, checked: nat)
    returns (ok: bool)
    requires |mask| in {0, 4} && IsXor(cfg.xor) && checked <= |available|
    modifies text
    ensures var r := Run(old(text.Value()), Plain(cfg, mask, available)[checked..]);
            ok == r.Check? && (ok ==> Same(text.Value(), r))
  {
    if |mask| == 0 {
      ok := text.Write(available[checked..]);
    } else {
      ok := CheckMasked(text, cfg, available, mask, checked, Plain(cfg, mask, available));
    }
  }

  lemma SameMeans(a: Check, b: Check)
    requires Same(a, b)
    ensures a.Bad? == b.Bad? && Idle(a) == Idle(b)
  {
  }

  /** What a complete frame needs of the validator, by its kind. */
  ghost predicate Prepared(frag: Fragment, v: Check, checked: nat, h: Header, payload: seq<byte>)
    requires h.Header?
  {
    && checked <= |payload|
    && if Control(h.opcode) then checked == 0 && Reached(v, TextBefore(frag))
       else if h.opcode == CONTINUATION then
         && frag.Fragment?
         && if frag.opcode == TEXT then Same(Run(v, payload[checked..]), Run(START, frag.data + payload))
            else Reached(v, [])
       else
         && frag.None? && (h.opcode == TEXT || h.opcode == BINARY)
         && if h.opcode == TEXT then Same(Run(v, payload[checked..]), Run(START, payload)) else Reached(v, [])
  }

  lemma WholeReady(cfg: Config, frag: Fragment, v: Check, checked: nat, cur: seq<byte>, h: Header, p: seq<byte>,
                   payload: seq<byte>)
    requires DataFragment(frag) && TextOk(cfg, frag, v, checked, cur) && h == ReadHeader(cfg, frag, cur) && h.Header?
    requires h.offset + h.length <= |cur| && p == cur[h.offset..h.offset + h.length] && payload == Plain(cfg, h.mask, p)
    ensures Prepared(frag, v, checked, h, payload)
  {
    HeaderKnows(cfg, frag, cur);
    if IsText(frag, h.opcode) {
      RestDecides(cfg, frag, v, checked, cur, h, p);
      assert [] + payload == payload;
    }
  }

  function FrameVerdict(frag: Fragment, h: Header, payload: seq<byte>): Verdict
    requires h.Header?
  {
    if Control(h.opcode) then ControlVerdict(frag, h.opcode, payload, h.offset + h.length)
    else DataVerdict(frag, h.fin, h.opcode, payload, h.offset + h.length)
  }

  lemma WholeJudged(cfg: Config, frag: Fragment, cur: seq<byte>, h: Header, payload: seq<byte>)
    requires h == ReadHeader(cfg, frag, cur) && h.Header? && h.offset + h.length <= |cur|
    requires payload == Plain(cfg, h.mask, cur[h.offset..h.offset + h.length])
    ensures Judge(cfg, frag, cur) == FrameVerdict(frag, h, payload)
  {
  }

  // How much of a read belongs to the frame at the head of the buffer.

  function FrameHeaderSize(b: seq<byte>): nat {
    if |b| < 2 then 2 else
    var size := if b[1] >= 0x80 then 6 else 2;
    if b[1] % 128 == 126 then size + 2 else if b[1] % 128 == 127 then size + 8 else size
  }

  const MAX_INT := 0x7fff_ffff_ffff_ffff

  /** frameSize: zero if it is not known. */
  function FrameSize(b: seq<byte>): nat {
    var header := FrameHeaderSize(b);
    if |b| < header then 0 else
    var length := if b[1] % 128 == 126 then BigEndian(b[2..4])
                  else if b[1] % 128 == 127 then BigEndian(b[2..10])
                  else b[1] % 128;
    if length > MAX_INT - header then 0 else header + length
  }

  lemma FrameSizeStays(a: seq<byte>, b: seq<byte>)
    requires FrameSize(a) > 0
    ensures FrameSize(a + b) == FrameSize(a)
  {
    assert (a + b)[1] == a[1];
    if |a| >= 4 {
      assert (a + b)[2..4] == a[2..4];
    }
    if |a| >= 10 {
      assert (a + b)[2..10] == a[2..10];
    }
  }

  /** The two ways to size a frame agree. */
  lemma HeaderSizes(cfg: Config, frag: Fragment, b: seq<byte>)
    requires FrameSize(b) > 0
    ensures var h := ReadHeader(cfg, frag, b);
            !h.More? && (h.Header? ==> h.offset == FrameHeaderSize(b) <= |b| && h.offset + h.length == FrameSize(b))
  {
    var n := ReadLength(b);
    assert |b| >= FrameHeaderSize(b);
    assert !n.LengthMore?;
  }

  /** A buffer that ends with its frame does not leave the parser waiting. */
  lemma ExactFrame(cfg: Config, frag: Fragment, b: seq<byte>)
    requires FrameSize(b) == |b| > 0
    ensures var v := Judge(cfg, frag, b); !v.Wait? && (v.Goes? || v.Emits? ==> v.size == |b|)
  {
    HeaderSizes(cfg, frag, b);
    var h := ReadHeader(cfg, frag, b);
    if h.Header? {
      WholeVerdict(cfg, frag, b, h);
    }
  }

  lemma WholeVerdict(cfg: Config, frag: Fragment, b: seq<byte>, h: Header)
    requires h.Header? && h == ReadHeader(cfg, frag, b) && h.offset + h.length == |b|
    ensures var v := Judge(cfg, frag, b); !v.Wait? && (v.Goes? || v.Emits? ==> v.size == |b|)
  {
  }

  /** appendCurrentFrame: data completes the frame in buffer, and what follows it stays apart. */
  method AppendCurrentFrame(buffer: seq<byte>, data: seq<byte>) returns (b: seq<byte>, tail: seq<byte>)
    requires buffer != []
    ensures b + tail == buffer + data && buffer <= b && (tail != [] ==> FrameSize(b) == |b| > 0)
  {
    b, tail := buffer, data;
    while true
      invariant b + tail == buffer + data && buffer <= b
      decreases |tail|
    {
      var end := FrameSize(b);
      if end > 0 {
        var need := end - |b|;
        if need <= 0 || need >= |tail| {
          return b + tail, [];
        }
        FrameSizeStays(b, tail[..need]);
        assert b + tail == b + tail[..need] + tail[need..];
        return b + tail[..need], tail[need..];
      }
      var need := FrameHeaderSize(b) - |b|;
      if need <= 0 || need >= |tail| {
        return b + tail, [];
      }
      assert b + tail == b + tail[..need] + tail[need..];
      b, tail := b + tail[..need], tail[need..];
    }
  }

  /** The first event or error in b, after frames that only carry a message on. */
  datatype First =
    | Nothing(frag: Fragment, rest: seq<byte>)
    | Broken(error: Error)
    | Found(event: Event, frag: Fragment, rest: seq<byte>)

  function FirstOf(cfg: Config, frag: Fragment, b: seq<byte>): First
    decreases |b|
  {
    SizeFits(cfg, frag, b);
    match Judge(cfg, frag, b)
    case Wait => Nothing(frag, b)
    case Error(e) => Broken(e)
    case Goes(next, size) => FirstOf(cfg, next, b[size..])
    case Emits(event, next, size) => Found(event, next, b[size..])
  }

  /** Parsing all of b is finding its first event and parsing the rest. */
  lemma {:induction false} ParseByFirst(cfg: Config, frag: Fragment, b: seq<byte>)
    ensures match FirstOf(cfg, frag, b)
            case Nothing(f, rest) => Parse(cfg, frag, b) == Outcome([], false, ErrProtocol, f, rest)
            case Broken(e) => Parse(cfg, frag, b) == Outcome([], true, e, None, [])
            case Found(event, f, rest) =>
              var more := Parse(cfg, f, rest);
              |rest| < |b| && Parse(cfg, frag, b) == more.(events := [event] + more.events)
    decreases |b|
  {
    SizeFits(cfg, frag, b);
    var v := Judge(cfg, frag, b);
    if v.Goes? {
      ParseByFirst(cfg, v.frag, b[v.size..]);
    }
  }

  function After(events: seq<Event>, o: Outcome): Outcome { o.(events := events + o.events) }

  lemma AfterNone(o: Outcome)
    ensures After([], o) == o
  {
    assert [] + o.events == o.events;
  }

  lemma AfterOne(events: seq<Event>, e: Event, o: Outcome)
    ensures After(events, o.(events := [e] + o.events)) == After(events + [e], o)
  {
    assert events + ([e] + o.events) == events + [e] + o.events;
  }

  /** The first event or error in b takes the parser one step on in all that b holds. */
  lemma FeedStep(cfg: Config, events: seq<Event>, frag: Fragment, b: seq<byte>, all: Outcome)
    requires After(events, Parse(cfg, frag, b)) == all
    ensures match FirstOf(cfg, frag, b)
            case Nothing(f, rest) => all == Outcome(events, false, ErrProtocol, f, rest)
            case Broken(e) => all == Outcome(events, true, e, None, [])
            case Found(event, f, rest) => |rest| < |b| && After(events + [event], Parse(cfg, f, rest)) == all
  {
    ParseByFirst(cfg, frag, b);
    assert events + [] == events;
    var first := FirstOf(cfg, frag, b);
    if first.Found? {
      AfterOne(events, first.event, Parse(cfg, first.frag, first.rest));
    }
  }

  /** What one call of the parser gives. */
  datatype Given = Nil | Fails(error: Error) | Gives(event: Event)

  /** More bytes do not disturb what has been checked. */
  lemma TextStays(cfg: Config, frag: Fragment, v: Check, checked: nat, cur: seq<byte>, more: seq<byte>)
    requires TextOk(cfg, frag, v, checked, cur)
    ensures TextOk(cfg, frag, v, checked, cur + more)
  {
    HeaderStays(cfg, frag, cur, more);
    var h := ReadHeader(cfg, frag, cur);
    if checked > 0 {
      assert (cur + more)[h.offset..h.offset + checked] == cur[h.offset..h.offset + checked];
    }
  }

  /** The frame at the head of b, when what follows it is kept apart. */
  lemma FirstStep(cfg: Config, frag: Fragment, b: seq<byte>, tail: seq<byte>)
    requires !Judge(cfg, frag, b).Wait?
    ensures match Judge(cfg, frag, b)
            case Wait => false
            case Error(e) => FirstOf(cfg, frag, b + tail) == Broken(e)
            case Goes(next, size) => size <= |b| && FirstOf(cfg, frag, b + tail) == FirstOf(cfg, next, b[size..] + tail)
            case Emits(event, next, size) =>
              size <= |b| && FirstOf(cfg, frag, b + tail) == Found(event, next, b[size..] + tail)
  {
    var v := Judge(cfg, frag, b);
    VerdictStays(cfg, frag, b, tail);
    SizeFits(cfg, frag, b);
    if v.Goes? || v.Emits? {
      assert (b + tail)[v.size..] == b[v.size..] + tail;
    }
  }

  /** Nothing is handled after this event. */
  predicate EndsServing(e: Event, i: nat, lost: nat) { e.opcode == CLOSE || (e.opcode == PING && i == lost) }

  /** Only the last of the events may end it, and does if ended. */
  ghost predicate Served(events: seq<Event>, ended: bool, lost: nat) {
    && (ended ==> events != [])
    && forall i :: 0 <= i < |events| ==> EndsServing(events[i], i, lost) == (ended && i == |events| - 1)
  }

  lemma ServedMore(events: seq<Event>, e: Event, lost: nat)
    requires Served(events, false, lost)
    ensures Served(events + [e], EndsServing(e, |events|, lost), lost)
  {
  }

  class Parser {
    const max: nat
    const fromServer: bool
    ghost const cfg: Config
    const text: Validator
    var buffer: seq<byte>
    var borrowedTail: seq<byte>
    var fragment: Fragment
    var textChecked: nat
    var pendingConsume: nat
    var borrowedBuffer: bool

    /** Everything but the text validator. */
    ghost predicate Framed()
      reads this
    {
      && cfg.max == max && cfg.fromServer == fromServer && IsXor(cfg.xor) && DataFragment(fragment)
      && pendingConsume <= |buffer| && (pendingConsume > 0 ==> textChecked == 0)
    }

    ghost predicate Checked()
      reads this, text
    {
      pendingConsume <= |buffer| && TextOk(cfg, fragment, text.Value(), textChecked, buffer[pendingConsume..])
    }

    /** What is left of the buffer after a borrowed event. */
    ghost function Current(): seq<byte>
      reads this
      requires pendingConsume <= |buffer|
    {
      buffer[pendingConsume..]
    }

    constructor (maxMessageBytes: nat, server: bool, ghost xor: Mixer)
      requires IsXor(xor)
      ensures Framed() && Checked() && fresh(text) && fragment == None && buffer == [] && borrowedTail == []
              && pendingConsume == 0
      ensures cfg == Config(max, server, xor) && max == if maxMessageBytes == 0 then 0x100_0000 else maxMessageBytes
    {
      max := if maxMessageBytes == 0 then 0x100_0000 else maxMessageBytes;
      fromServer := server;
      cfg := Config(if maxMessageBytes == 0 then 0x100_0000 else maxMessageBytes, server, xor);
      text := new Validator();
      buffer, borrowedTail, fragment, textChecked, pendingConsume, borrowedBuffer := [], [], None, 0, 0, false;
    }

    /** consume. */
    method Consume(n: nat)
      requires n <= |buffer|
      modifies this`buffer, this`borrowedBuffer
      ensures buffer == old(buffer)[n..]
    {
      if n == |buffer| {
        buffer := [];
        borrowedBuffer := false;
        return;
      }
      buffer := buffer[n..];
    }

    /** finishFrame: a borrowed payload stays in the buffer until the next call. */
    method FinishFrame(n: nat, borrowed: bool)
      requires 0 < n <= |buffer| && pendingConsume == 0
      modifies this`buffer, this`borrowedBuffer, this`pendingConsume
      ensures pendingConsume <= |buffer| && Current() == old(buffer)[n..] && (pendingConsume > 0 ==> borrowed)
    {
      if borrowed {
        pendingConsume := n;
      } else {
        Consume(n);
      }
    }

    /** next on an incomplete frame: text that cannot be right fails at once. */
    method NextPartial(h: Header) returns (v: Verdict)
      requires Framed() && Checked() && pendingConsume == 0 && h == ReadHeader(cfg, fragment, buffer) && h.Header?
      requires h.offset <= |buffer| < h.offset + h.length && |h.mask| in {0, 4}
      modifies this`textChecked, text
      ensures v == Judge(cfg, fragment, buffer) && (v.Wait? || v.Error?)
      ensures v.Wait? ==> Checked()
    {
      var available := buffer[h.offset..];
      if IsText(fragment, h.opcode) {
        assert available == buffer[h.offset..h.offset + |available|];
        RestDecides(cfg, fragment, text.Value(), textChecked, buffer, h, available);
        ghost var all := Run(START, Before(fragment, h.opcode) + Plain(cfg, h.mask, available));
        if |available| > textChecked {
          SameMeans(Run(text.Value(), Plain(cfg, h.mask, available)[textChecked..]), all);
          var ok := CheckPartial(text, cfg, available, h.mask, textChecked);
          if !ok {
            return Error(ErrInvalidPayload);
          }
          textChecked := |available|;
        } else {
          assert Plain(cfg, h.mask, available)[textChecked..] == [];
        }
      }
      v := Wait;
    }

    /** next on a control frame. */
    method NextControl(h: Header, payload: seq<byte>, borrow: bool) returns (v: Verdict)
      requires Framed() && pendingConsume == 0 && textChecked == 0 && Reached(text.Value(), TextBefore(fragment))
      requires h.Header? && Control(h.opcode) && 2 <= h.offset && h.offset + h.length <= |buffer|
               && |payload| == h.length
      modifies this`buffer, this`borrowedBuffer, this`pendingConsume
      ensures v == ControlVerdict(fragment, h.opcode, payload, h.offset + h.length) && (pendingConsume > 0 ==> v.Emits?)
      ensures !v.Error? ==> Framed() && Checked() && Current() == old(buffer)[h.offset + h.length..]
    {
      if h.opcode == CLOSE {
        if |payload| == 1 || (|payload| >= 2 && !ValidCloseCode(BigEndian(payload[..2]))) {
          return Error(ErrProtocol);
        }
        if |payload| > 2 && !WellFormed(payload[2..]) {
          return Error(ErrInvalidPayload);
        }
      }
      FinishFrame(h.offset + h.length, borrow);
      v := Emits(Event(h.opcode, payload), fragment, h.offset + h.length);
    }

    /** next on the first frame of a message. */
    method NextFirst(h: Header, payload: seq<byte>, checked: nat, borrow: bool) returns (v: Verdict)
      requires Framed() && pendingConsume == 0 && textChecked == 0 && fragment.None?
      requires h.Header? && (h.opcode == TEXT || h.opcode == BINARY) && 2 <= h.offset && h.offset + h.length <= |buffer|
      requires h.length == |payload| && checked <= |payload|
      requires if h.opcode == TEXT then Same(Run(text.Value(), payload[checked..]), Run(START, payload))
               else Reached(text.Value(), [])
      modifies this`buffer, this`borrowedBuffer, this`pendingConsume, this`fragment, text
      ensures v == DataVerdict(old(fragment), h.fin, h.opcode, payload, h.offset + h.length)
      ensures !v.Error? ==>
                Framed() && Checked() && fragment == v.frag && Current() == old(buffer)[h.offset + h.length..]
      ensures pendingConsume > 0 ==> v.Emits?
    {
      assert [] + payload == payload;
      if h.fin {
        if h.opcode == TEXT {
          AcceptsWellFormed(START, payload);
          SameMeans(Run(text.Value(), payload[checked..]), Run(START, payload));
          if checked == 0 {
            if !WellFormed(payload) {
              return Error(ErrInvalidPayload);
            }
          } else {
            var ok := text.Write(payload[checked..]);
            if !ok || text.need != 0 {
              return Error(ErrInvalidPayload);
            }
          }
          text.Reset();
        }
        FinishFrame(h.offset + h.length, borrow);
        return Emits(Event(h.opcode, payload), None, h.offset + h.length);
      }
      if h.opcode == TEXT {
        SameMeans(Run(text.Value(), payload[checked..]), Run(START, payload));
        var ok := text.Write(payload[checked..]);
        if !ok {
          return Error(ErrInvalidPayload);
        }
      }
      fragment := Fragment(h.opcode, payload);
      Consume(h.offset + h.length);
      v := Goes(fragment, h.offset + h.length);
    }

    /** next on a later frame of a message. */
    method NextContinuation(h: Header, payload: seq<byte>, checked: nat) returns (v: Verdict)
      requires Framed() && pendingConsume == 0 && textChecked == 0 && fragment.Fragment?
      requires h.Header? && h.opcode == CONTINUATION && 2 <= h.offset && h.offset + h.length <= |buffer|
      requires h.length == |payload| && checked <= |payload|
      requires if fragment.opcode == TEXT
               then Same(Run(text.Value(), payload[checked..]), Run(START, fragment.data + payload))
               else Reached(text.Value(), [])
      modifies this`buffer, this`borrowedBuffer, this`fragment, text
      ensures v == DataVerdict(old(fragment), h.fin, h.opcode, payload, h.offset + h.length)
      ensures !v.Error? ==>
                Framed() && Checked() && fragment == v.frag && Current() == old(buffer)[h.offset + h.length..]
    {
      if fragment.opcode == TEXT {
        SameMeans(Run(text.Value(), payload[checked..]), Run(START, fragment.data + payload));
        var ok := text.Write(payload[checked..]);
        if !ok || (h.fin && text.need != 0) {
          return Error(ErrInvalidPayload);
        }
      }
      fragment := fragment.(data := fragment.data + payload);
      Consume(h.offset + h.length);
      if !h.fin {
        return Goes(fragment, h.offset + h.length);
      }
      v := Emits(Event(fragment.opcode, fragment.data), None, h.offset + h.length);
      text.Reset();
      fragment := None;
    }

    /** The payload of a complete frame. A borrowed one is unmasked in the buffer. */
    method OpenFrame(h: Header, borrow: bool) returns (payload: seq<byte>, checked: nat)
      requires IsXor(cfg.xor) && h.Header? && h.offset + h.length <= |buffer| && |h.mask| in {0, 4}
      modifies this`buffer, this`textChecked
      ensures payload == Plain(cfg, h.mask, old(buffer)[h.offset..h.offset + h.length])
      ensures checked == old(textChecked) && textChecked == 0
      ensures |buffer| == |old(buffer)| && buffer[h.offset + h.length..] == old(buffer)[h.offset + h.length..]
    {
      var end := h.offset + h.length;
      checked := textChecked;
      textChecked := 0;
      payload := TakePayload(cfg, h.mask, buffer[h.offset..end]);
      if borrow {
        buffer := buffer[..h.offset] + payload + buffer[end..];
      }
    }

    /** next on a complete frame, by its kind. */
    method NextOpened(h: Header, payload: seq<byte>, checked: nat, borrow: bool) returns (v: Verdict)
      requires Framed() && pendingConsume == 0 && textChecked == 0
      requires h.Header? && 2 <= h.offset && h.offset + h.length <= |buffer| && |payload| == h.length
      requires Prepared(fragment, text.Value(), checked, h, payload)
      modifies this`buffer, this`borrowedBuffer, this`pendingConsume, this`fragment, text
      ensures v == FrameVerdict(old(fragment), h, payload) && (pendingConsume > 0 ==> v.Emits?)
      ensures !v.Error? ==> Framed() && Checked() && fragment == v.frag && Current() == old(buffer)[v.size..]
    {
      if Control(h.opcode) {
        v := NextControl(h, payload, borrow);
      } else if h.opcode == CONTINUATION {
        v := NextContinuation(h, payload, checked);
      } else {
        v := NextFirst(h, payload, checked, borrow);
      }
    }

    /** next on a complete frame. */
    method NextWhole(h: Header, borrow: bool) returns (v: Verdict)
      requires Framed() && Checked() && pendingConsume == 0 && h == ReadHeader(cfg, fragment, buffer) && h.Header?
      requires 2 <= h.offset && h.offset + h.length <= |buffer| && |h.mask| in {0, 4}
      modifies this`buffer, this`borrowedBuffer, this`pendingConsume, this`fragment, this`textChecked, text
      ensures v == Judge(cfg, old(fragment), old(buffer)) && !v.Wait?
      ensures !v.Error? ==> Framed() && Checked() && fragment == v.frag && textChecked == 0
      ensures !v.Error? ==> Current() == old(buffer)[v.size..]
      ensures pendingConsume > 0 ==> v.Emits?
    {
      ghost var b, checkedText := buffer, text.Value();
      var payload, checked := OpenFrame(h, borrow);
      WholeReady(cfg, fragment, checkedText, checked, b, h, b[h.offset..h.offset + h.length], payload);
      WholeJudged(cfg, fragment, b, h, payload);
      v := NextOpened(h, payload, checked, borrow);
    }

    /** next: one frame at the head of the buffer. */
    method Next(borrow: bool) returns (v: Verdict)
      requires Framed() && Checked() && pendingConsume == 0
      modifies this`buffer, this`borrowedBuffer, this`pendingConsume, this`fragment, this`textChecked, text
      ensures v == Judge(cfg, old(fragment), old(buffer))
      ensures !v.Error? ==> Framed() && Checked()
      ensures v.Wait? ==> buffer == old(buffer) && fragment == old(fragment)
      ensures v.Goes? || v.Emits? ==> fragment == v.frag && textChecked == 0 && Current() == old(buffer)[v.size..]
      ensures pendingConsume > 0 ==> v.Emits?
    {
      var h := TakeHeader(cfg, max, fromServer, fragment, buffer);
      match h
      case More => return Wait;
      case Fail(e) => return Error(e);
      case Header(fin, opcode, mask, offset, length) =>
        HeaderStays(cfg, fragment, buffer, []);
        assert buffer + [] == buffer;
        HeaderKnows(cfg, fragment, buffer);
        if length > |buffer| - offset {
          v := NextPartial(h);
          return;
        }
        v := NextWhole(h, borrow);
    }

    /** Between calls: bytes kept apart wait behind a frame that has been handed out. */
    ghost predicate Ready()
      reads this, text
    {
      Framed() && Checked() && (borrowedTail != [] ==> Current() == [])
    }

    /** Nothing in a read buffer is needed any longer. */
    ghost predicate Detached()
      reads this
    {
      pendingConsume == 0 && borrowedTail == [] && (borrowedBuffer ==> buffer == [])
    }

    /** Every byte received and not yet part of an event or of a fragment. */
    ghost function Pending(): seq<byte>
      reads this
      requires pendingConsume <= |buffer|
    {
      buffer[pendingConsume..] + borrowedTail
    }

    /** The start of feedOne: the frame handed out last is dropped. */
    method DropHandedOut()
      requires Ready()
      modifies this`buffer, this`borrowedTail, this`borrowedBuffer, this`pendingConsume
      ensures Framed() && Checked() && pendingConsume == 0 && borrowedTail == [] && buffer == old(Pending())
    {
      if pendingConsume != 0 {
        Consume(pendingConsume);
        pendingConsume := 0;
      }
      if buffer == [] && borrowedTail != [] {
        buffer, borrowedTail, borrowedBuffer := borrowedTail, [], true;
      }
    }

    /** feedOne up to its loop. */
    method TakeData(data: seq<byte>, borrow: bool)
      requires Framed() && Checked() && pendingConsume == 0 && borrowedTail == []
      modifies this`buffer, this`borrowedTail, this`borrowedBuffer
      ensures Framed() && Checked() && pendingConsume == 0 && buffer + borrowedTail == old(buffer) + data
      ensures borrowedTail != [] ==> FrameSize(buffer) == |buffer| > 0
    {
      assert buffer[0..] == buffer;
      ghost var added := data;
      if borrow && buffer == [] && data != [] {
        TextStays(cfg, fragment, text.Value(), textChecked, buffer, data);
        assert [] + data == data;
        buffer, borrowedBuffer := data, true;
      } else if borrow && !borrowedBuffer && buffer != [] && data != [] {
        var b, tail := AppendCurrentFrame(buffer, data);
        TextStays(cfg, fragment, text.Value(), textChecked, buffer, b[|buffer|..]);
        assert buffer + b[|buffer|..] == b;
        buffer, borrowedTail := b, tail;
      } else {
        TextStays(cfg, fragment, text.Value(), textChecked, buffer, data);
        buffer := buffer + data;
      }
      assert buffer[0..] == buffer;
    }

    /** After an error the parser forgets everything. */
    method Forget()
      modifies this`buffer, this`borrowedTail, this`borrowedBuffer, this`fragment, this`textChecked, text
      ensures buffer == [] && borrowedTail == [] && fragment == None && textChecked == 0 && text.Value() == START
    {
      buffer, borrowedTail, borrowedBuffer, fragment, textChecked := [], [], false, None, 0;
      text.Reset();
    }

    /** One round of the loop of feedOne: what it says about all that is pending. */
    method Round(borrow: bool) returns (v: Verdict)
      requires Framed() && Checked() && pendingConsume == 0
      requires borrowedTail != [] ==> buffer == [] || FrameSize(buffer) == |buffer| > 0
      modifies this`buffer, this`borrowedBuffer, this`pendingConsume, this`fragment, this`textChecked, text
      ensures pendingConsume > 0 ==> v.Emits?
      ensures !v.Error? ==> Framed() && Checked()
      ensures v.Error? ==> FirstOf(cfg, old(fragment), old(buffer + borrowedTail)) == Broken(v.error)
      ensures v.Wait? ==> buffer == old(buffer) && fragment == old(fragment) && (borrowedTail == [] || buffer == [])
      ensures v.Wait? && borrowedTail == [] ==>
                FirstOf(cfg, old(fragment), old(buffer + borrowedTail)) == Nothing(fragment, buffer)
      ensures v.Goes? ==>
                && FirstOf(cfg, old(fragment), old(buffer + borrowedTail))
                     == FirstOf(cfg, fragment, buffer + borrowedTail)
                && |buffer| < |old(buffer)| && (borrowedTail != [] ==> buffer == [])
      ensures v.Emits? ==>
                && FirstOf(cfg, old(fragment), old(buffer + borrowedTail)) == Found(v.event, fragment, Pending())
                && (borrowedTail != [] ==> Current() == [])
    {
      ghost var frag, b := fragment, buffer;
      if borrowedTail != [] && buffer != [] {
        ExactFrame(cfg, fragment, buffer);
      }
      SizeFits(cfg, fragment, buffer);
      if !Judge(cfg, fragment, buffer).Wait? {
        FirstStep(cfg, fragment, buffer, borrowedTail);
      } else if borrowedTail == [] {
        assert buffer + [] == buffer;
      }
      v := Next(borrow);
    }

    /** What follows the frame handed out is looked at where it lies. */
    method UseTail()
      requires Framed() && Checked() && pendingConsume == 0 && buffer == []
      modifies this`buffer, this`borrowedTail, this`borrowedBuffer
      ensures Framed() && Checked() && borrowedTail == [] && buffer + borrowedTail == old(buffer + borrowedTail)
      ensures |buffer| == old(|borrowedTail|)
    {
      TextStays(cfg, fragment, text.Value(), textChecked, buffer, borrowedTail);
      assert [] + borrowedTail == borrowedTail + [] && borrowedTail[0..] == borrowedTail;
      buffer, borrowedTail, borrowedBuffer := borrowedTail, [], true;
    }

    /** An incomplete frame is kept for the next call. */
    method LeaveRest()
      requires Framed() && Checked() && pendingConsume == 0 && borrowedTail == []
      modifies this`borrowedBuffer
      ensures Ready() && Pending() == buffer && Detached()
    {
      assert buffer[0..] + [] == buffer;
      borrowedBuffer := borrowedBuffer && buffer == [];
    }

    /** The loop of feedOne. */
    method FindEvent(borrow: bool) returns (out: Given)
      requires Framed() && Checked() && pendingConsume == 0
      requires borrowedTail != [] ==> FrameSize(buffer) == |buffer| > 0
      modifies this`buffer, this`borrowedTail, this`borrowedBuffer, this`pendingConsume, this`fragment,
               this`textChecked, text
      ensures Ready()
      ensures match FirstOf(cfg, old(fragment), old(buffer + borrowedTail))
              case Nothing(frag, rest) =>
                out == Nil && fragment == frag && Pending() == rest && Detached()
              case Broken(e) => out == Fails(e) && fragment == None && Pending() == [] && Detached()
              case Found(event, frag, rest) => out == Gives(event) && fragment == frag && Pending() == rest
    {
      ghost var all := FirstOf(cfg, fragment, buffer + borrowedTail);
      while true
        invariant Framed() && Checked() && pendingConsume == 0
        invariant borrowedTail != [] ==> buffer == [] || FrameSize(buffer) == |buffer| > 0
        invariant FirstOf(cfg, fragment, buffer + borrowedTail) == all
        decreases |buffer| + |borrowedTail|, |borrowedTail|
      {
        var v := Round(borrow);
        match v
        case Error(e) =>
          Forget();
          return Fails(e);
        case Wait =>
          if buffer == [] && borrowedTail != [] {
            UseTail();
          } else {
            LeaveRest();
            return Nil;
          }
        case Emits(event, _, _) => return Gives(event);
        case Goes(_, _) =>
      }
    }

    /** feedOne: the first event or error in what is pending and data, in either mode. */
    method FeedOne(data: seq<byte>, borrow: bool) returns (out: Given)
      requires Ready()
      modifies this`buffer, this`borrowedTail, this`borrowedBuffer, this`pendingConsume, this`fragment,
               this`textChecked, text
      ensures Ready()
      ensures match FirstOf(cfg, old(fragment), old(Pending()) + data)
              case Nothing(frag, rest) =>
                out == Nil && fragment == frag && Pending() == rest && Detached()
              case Broken(e) => out == Fails(e) && fragment == None && Pending() == [] && Detached()
              case Found(event, frag, rest) => out == Gives(event) && fragment == frag && Pending() == rest
    {
      DropHandedOut();
      TakeData(data, borrow);
      out := FindEvent(borrow);
    }

    /** Feed, and the loop of a handler over borrowed data: one piece of the stream. */
    method Feed(data: seq<byte>, borrow: bool) returns (events: seq<Event>, failed: bool, error: Error)
      requires Ready()
      modifies this`buffer, this`borrowedTail, this`borrowedBuffer, this`pendingConsume, this`fragment,
               this`textChecked, text
      ensures Ready() && Detached()
      ensures Parse(cfg, old(fragment), old(Pending()) + data) == Outcome(events, failed, error, fragment, Pending())
    {
      events, failed, error := [], false, ErrProtocol;
      var piece := data;
      ghost var all := Parse(cfg, fragment, Pending() + data);
      AfterNone(all);
      while true
        invariant Ready() && !failed && error == ErrProtocol
        invariant After(events, Parse(cfg, fragment, Pending() + piece)) == all
        decreases |Pending()| + |piece|
      {
        FeedStep(cfg, events, fragment, Pending() + piece, all);
        var out := FeedOne(piece, borrow);
        match out
        case Fails(e) =>
          failed, error := true, e;
          return;
        case Nil => return;
        case Gives(event) =>
          events, piece := events + [event], [];
          assert Pending() + [] == Pending();
      }
    }

    /** ReleaseBorrowed: the parser lets go of the read buffer, which after a call that has given nothing
        loses nothing. */
    method ReleaseBorrowed()
      requires Ready()
      modifies this`buffer, this`borrowedTail, this`borrowedBuffer, this`pendingConsume
      ensures !borrowedBuffer && borrowedTail == [] && pendingConsume == 0
      ensures old(Detached()) ==> Ready() && Pending() == old(Pending())
      ensures old(textChecked) == 0 ==> Ready()
    {
      if pendingConsume != 0 {
        Consume(pendingConsume);
        pendingConsume := 0;
      }
      borrowedTail := [];
      if borrowedBuffer {
        buffer := [];
        borrowedBuffer := false;
      }
    }

    /** The loop of serveFrames on one read: events are handled up to a close, or to a ping whose answer
        cannot be sent, here the one with number lost. */
    method ServeAll(data: seq<byte>, lost: nat) returns (events: seq<Event>, ended: bool, failed: bool, error: Error)
      requires Ready()
      modifies this`buffer, this`borrowedTail, this`borrowedBuffer, this`pendingConsume, this`fragment,
               this`textChecked, text
      ensures Ready() && (!ended ==> Detached())
      ensures Served(events, ended, lost)
      ensures var o := Parse(cfg, old(fragment), old(Pending()) + data);
              if ended then events <= o.events else o == Outcome(events, failed, error, fragment, Pending())
    {
      events, ended, failed, error := [], false, false, ErrProtocol;
      var piece := data;
      ghost var all := Parse(cfg, fragment, Pending() + data);
      AfterNone(all);
      while true
        invariant Ready() && !ended && !failed && error == ErrProtocol && Served(events, false, lost)
        invariant After(events, Parse(cfg, fragment, Pending() + piece)) == all
        decreases |Pending()| + |piece|
      {
        FeedStep(cfg, events, fragment, Pending() + piece, all);
        var out := FeedOne(piece, true);
        match out
        case Fails(e) =>
          failed, error := true, e;
          return;
        case Nil => return;
        case Gives(event) =>
          ended := EndsServing(event, |events|, lost);
          ServedMore(events, event, lost);
          events, piece := events + [event], [];
          assert Pending() + [] == Pending();
          if ended {
            return;
          }
      }
    }

    /** serveFrames: without an end, all events of the read are handled and nothing is lost; in every
        case the read buffer is let go. */
    method ServeFrames(data: seq<byte>, lost: nat) returns (events: seq<Event>, ended: bool, failed: bool, error: Error)
      requires Ready()
      modifies this`buffer, this`borrowedTail, this`borrowedBuffer, this`pendingConsume, this`fragment,
               this`textChecked, text
      ensures !borrowedBuffer && borrowedTail == [] && pendingConsume == 0
      ensures Served(events, ended, lost)
      ensures var o := Parse(cfg, old(fragment), old(Pending()) + data);
              if ended then events <= o.events else o == Outcome(events, failed, error, fragment, Pending()) && Ready()
    {
      events, ended, failed, error := ServeAll(data, lost);
      ReleaseBorrowed();
    }

    /** One piece, with the read buffer released if it was borrowed. */
    method FeedPiece(data: seq<byte>, borrow: bool) returns (events: seq<Event>, failed: bool, error: Error)
      requires Ready()
      modifies this`buffer, this`borrowedTail, this`borrowedBuffer, this`pendingConsume, this`fragment,
               this`textChecked, text
      ensures Ready()
      ensures Parse(cfg, old(fragment), old(Pending()) + data) == Outcome(events, failed, error, fragment, Pending())
    {
      events, failed, error := Feed(data, borrow);
      if borrow {
        ReleaseBorrowed();
      }
    }

    /** A whole stream in pieces, up to its first error: the outcome is that of the stream in one
        piece, however it was cut and in whichever mode, with the read buffer released after each
        borrowed piece. */
    method FeedPieces(pieces: seq<seq<byte>>, borrow: seq<bool>)
      returns (events: seq<Event>, failed: bool, error: Error)
      requires Ready() && fragment == None && Pending() == [] && |borrow| == |pieces|
      modifies this`buffer, this`borrowedTail, this`borrowedBuffer, this`pendingConsume, this`fragment,
               this`textChecked, text
      ensures var o := Parse(cfg, None, Concat(pieces));
              events == o.events && failed == o.failed && (failed ==> error == o.error)
    {
      events, failed, error := [], false, ErrProtocol;
      CutsDoNotMatter(cfg, pieces);
      var i := 0;
      assert pieces[..0] == [];
      while i < |pieces| && !failed
        invariant 0 <= i <= |pieces| && Ready()
        invariant Fed(cfg, pieces[..i]) == Outcome(events, failed, error, fragment, Pending())
      {
        FedNext(cfg, pieces, i);
        var more;
        more, failed, error := FeedPiece(pieces[i], borrow[i]);
        events := events + more;
        i := i + 1;
      }
      if failed {
        FailedStays(cfg, pieces, i);
      } else {
        assert pieces[..i] == pieces;
      }
    }
  }

  lemma FedNext(cfg: Config, pieces: seq<seq<byte>>, i: nat)
    requires i < |pieces|
    ensures Fed(cfg, pieces[..i + 1]) == Then(cfg, Fed(cfg, pieces[..i]), pieces[i])
  {
    assert pieces[..i + 1][..i] == pieces[..i];
  }

  lemma {:induction false} FailedStays(cfg: Config, pieces: seq<seq<byte>>, i: nat)
    requires i <= |pieces| && Fed(cfg, pieces[..i]).failed
    ensures Fed(cfg, pieces) == Fed(cfg, pieces[..i])
    decreases |pieces| - i
  {
    if i < |pieces| {
      assert pieces[..i + 1][..i] == pieces[..i];
      FailedStays(cfg, pieces, i + 1);
    } else {
      assert pieces[..i] == pieces;
    }
  }
}
