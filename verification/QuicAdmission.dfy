/** Which frames of the peer are accepted and which close the connection, and what has arrived, told from
    the frames that came and the limits in force (sections 4.1, 4.5 and 19.8 of RFC 9000). */
module QuicAdmission {
  import opened Arithmetic
  import opened Bytes
  import opened QuicRecvBuffer
  import opened QuicStreamRecv

  // What the peer has sent.

  /** Where a frame takes its stream, and whether the stream ends there. */
  datatype Frame = Frame(end: nat, last: bool)

  predicate IsFrame(e: Step) { e.StreamFrame? || e.ResetFrame? }

  function FrameOf(e: Step): Frame
    requires IsFrame(e)
  {
    if e.StreamFrame? then Frame(e.off + |e.data|, e.fin) else Frame(e.finalSize, true)
  }

  function Opened(run: seq<Step>): nat {
    if run == [] then 0 else Opened(run[..|run| - 1]) + if run[|run| - 1].Open? then 1 else 0
  }

  /** A step on stream i, which exists. */
  predicate Concerns(before: seq<Step>, e: Step, i: nat) { !e.Open? && e.i == i && i < Opened(before) }

  /** The frames of stream i, in the order they came. */
  function Frames(run: seq<Step>, i: nat): seq<Frame> {
    if run == [] then []
    else
      var before, e := run[..|run| - 1], run[|run| - 1];
      Frames(before, i) + if IsFrame(e) && Concerns(before, e, i) then [FrameOf(e)] else []
  }

  /** The highest offset that frames have taken their stream to. */
  function Reached(fs: seq<Frame>): nat {
    if fs == [] then 0 else Max(Reached(fs[..|fs| - 1]), fs[|fs| - 1].end)
  }

  function Sum(f: nat -> nat, n: nat): nat { if n == 0 then 0 else Sum(f, n - 1) + f(n - 1) }

  function ReachedIn(run: seq<Step>): nat -> nat { (i: nat) => Reached(Frames(run, i)) }

  /** The sum of the highest offsets of all streams. */
  function Total(run: seq<Step>): nat { Sum(ReachedIn(run), Opened(run)) }

  /** One frame goes beyond where the other ends the stream. */
  predicate Conflict(f: Frame, g: Frame) { (f.last && g.end > f.end) || (g.last && f.end > g.end) }

  predicate Contradicts(f: Frame, fs: seq<Frame>) { exists k :: 0 <= k < |fs| && Conflict(f, fs[k]) }

  // One frame.

  function Outcome(w: Windows, s: State, e: Step): Result
    requires IsFrame(e) && e.i < |s.streams|
  {
    var p := Pair(s.c, s.streams[e.i]);
    if e.StreamFrame? then OnStreamFrame(Using(w), p, e.off, e.data, e.fin)
    else OnResetStream(Using(w), p, e.finalSize)
  }

  lemma NextIsFrame(w: Windows, s: State, e: Step)
    requires !s.closed && IsFrame(e) && e.i < |s.streams|
    ensures Next(w, s, e) == After(s, e.i, Outcome(w, s, e))
  {
  }

  /** What a frame says against what its stream has recorded. */
  predicate Against(s: In, f: Frame) {
    (s.fin >= 0 && f.end > s.fin) || (f.last && s.fin >= 0 && f.end < s.fin) || (f.last && f.end < s.high)
  }

  predicate OverLimit(p: Pair, f: Frame) {
    f.end > p.s.max || (f.end > p.s.high && p.c.data + f.end - p.s.high > p.c.maxData)
  }

  /** An accepted frame is in the books. */
  predicate Records(p: Pair, f: Frame, q: Pair) {
    && q.s.high == Max(p.s.high, f.end) && q.s.fin == (if f.last then f.end else p.s.fin)
    && q.c.data == p.c.data + q.s.high - p.s.high
  }

  /** The outcome that the rules ask for. */
  ghost predicate Ruled(p: Pair, f: Frame, long: bool, r: Result) {
    && (r == Refused(7) <==> long)
    && (r == Refused(6) <==> !long && Against(p.s, f))
    && (r == Refused(3) <==> !long && !Against(p.s, f) && OverLimit(p, f))
    && (r.Refused? ==> r.code == 7 || r.code == 6 || r.code == 3)
    && (r.Accepted? ==> Records(p, f, r.p))
  }

  lemma AdmitIs(w: Windows, p: Pair, f: Frame, high: int, read: int)
    requires Whole(w, p, high, read)
    ensures var r := Admit(p, f.end, f.last);
            && Ruled(p, f, f.end > 0x3fff_ffff_ffff_ffff, r)
            && (r.Accepted? ==> Whole(w, r.p, high, read) && f.end <= r.p.s.high)
  {
    AdmitKeeps(w, p, f.end, f.last, high, read);
  }

  lemma AcceptedIs(w: Windows, use: Use, p: Pair, f: Frame, a: Pair, off: nat, data: seq<byte>, high: int, read: int)
    requires Keeps(w, use) && Whole(w, a, high, read) && off + |data| == f.end <= a.s.high && Records(p, f, a)
    ensures Records(p, f, TakeIn(use, a, off, data))
  {
    var q := TakeInKeeps(w, use, a, off, data, high, read);
  }

  lemma StreamFrameIs(w: Windows, use: Use, p: Pair, off: nat, data: seq<byte>, fin: bool, high: int, read: int)
    requires Keeps(w, use) && Whole(w, p, high, read)
    ensures var f := Frame(off + |data|, fin);
            Ruled(p, f, f.end > 0x3fff_ffff_ffff_ffff, OnStreamFrame(use, p, off, data, fin))
  {
    var f := Frame(off + |data|, fin);
    AdmitIs(w, p, f, high, read);
    var r := Admit(p, f.end, fin);
    if r.Accepted? {
      AcceptedIs(w, use, p, f, r.p, off, data, high, read);
      FrameIs(use, p, off, data, fin, r.p);
    }
  }

  lemma ResetFrameIs(w: Windows, use: Use, p: Pair, finalSize: nat, high: int, read: int)
    requires Keeps(w, use) && Whole(w, p, high, read)
    ensures Ruled(p, Frame(finalSize, true), false, OnResetStream(use, p, finalSize))
  {
    ResetStreamKeeps(w, use, p, finalSize, high, read);
  }

  // The books tell what has come.

  ghost predicate Knows(s: In, fs: seq<Frame>) {
    && s.high == Reached(fs)
    && (forall k :: 0 <= k < |fs| ==> fs[k].end <= s.high && (fs[k].last ==> s.fin == fs[k].end))
    && (s.high == 0 || exists k :: 0 <= k < |fs| && fs[k].end == s.high)
    && (s.fin < 0 || exists k :: 0 <= k < |fs| && fs[k] == Frame(s.fin, true))
  }

  lemma ReachedSnoc(fs: seq<Frame>, f: Frame)
    ensures Reached(fs + [f]) == Max(Reached(fs), f.end)
  {
    assert (fs + [f])[..|fs|] == fs;
  }

  lemma KnowsMore(p: Pair, fs: seq<Frame>, f: Frame, q: Pair)
    requires Knows(p.s, fs) && Records(p, f, q) && !Against(p.s, f)
    ensures Knows(q.s, fs + [f])
  {
    var all := fs + [f];
    ReachedSnoc(fs, f);
    assert all[|fs|] == f && forall k :: 0 <= k < |fs| ==> all[k] == fs[k];
  }

  lemma AgainstIs(s: In, fs: seq<Frame>, f: Frame)
    requires Knows(s, fs)
    ensures Against(s, f) <==> Contradicts(f, fs)
  {
    if Against(s, f) {
      if s.fin >= 0 && f.end != s.fin && (f.last || f.end > s.fin) {
        var k :| 0 <= k < |fs| && fs[k] == Frame(s.fin, true);
        assert Conflict(f, fs[k]);
      } else {
        var k :| 0 <= k < |fs| && fs[k].end == s.high;
        assert Conflict(f, fs[k]);
      }
    }
  }

  ghost predicate Told(s: State, run: seq<Step>) {
    |s.streams| == Opened(run) && forall i :: 0 <= i < |s.streams| ==> Knows(s.streams[i], Frames(run, i))
  }

  lemma FramesSnoc(run: seq<Step>, e: Step, i: nat)
    ensures IsFrame(e) && Concerns(run, e, i) ==> Frames(run + [e], i) == Frames(run, i) + [FrameOf(e)]
    ensures !(IsFrame(e) && Concerns(run, e, i)) ==> Frames(run + [e], i) == Frames(run, i)
  {
    assert (run + [e])[..|run|] == run;
    assert Frames(run, i) + [] == Frames(run, i);
  }

  lemma OpenedSnoc(run: seq<Step>, e: Step)
    ensures Opened(run + [e]) == Opened(run) + if e.Open? then 1 else 0
  {
    assert (run + [e])[..|run|] == run;
  }

  lemma {:induction false} NotOpenNoFrames(run: seq<Step>, i: nat)
    requires i >= Opened(run)
    ensures Frames(run, i) == []
  {
    if run != [] {
      NotOpenNoFrames(run[..|run| - 1], i);
    }
  }

  lemma TheCodes(w: Windows, s: State, run: seq<Step>, e: Step)
    requires Inv(w, s) && Told(s, run) && IsFrame(e) && e.i < |s.streams|
    ensures var long := e.StreamFrame? && FrameOf(e).end > 0x3fff_ffff_ffff_ffff;
            Ruled(Pair(s.c, s.streams[e.i]), FrameOf(e), long, Outcome(w, s, e))
    ensures Against(s.streams[e.i], FrameOf(e)) <==> Contradicts(FrameOf(e), Frames(run, e.i))
  {
    OneOfMany(w, s, e.i);
    UsingKeeps(w);
    AgainstIs(s.streams[e.i], Frames(run, e.i), FrameOf(e));
    var p := Pair(s.c, s.streams[e.i]);
    if e.StreamFrame? {
      StreamFrameIs(w, Using(w), p, e.off, e.data, e.fin, OtherHigh(s, e.i), OtherRead(s, e.i));
    } else {
      ResetFrameIs(w, Using(w), p, e.finalSize, OtherHigh(s, e.i), OtherRead(s, e.i));
    }
  }

  lemma FrameTold(w: Windows, s: State, run: seq<Step>, e: Step, r: Result)
    requires Inv(w, s) && Told(s, run) && IsFrame(e) && e.i < |s.streams| && r == Outcome(w, s, e) && r.Accepted?
    ensures Told(After(s, e.i, r), run + [e])
  {
    TheCodes(w, s, run, e);
    KnowsMore(Pair(s.c, s.streams[e.i]), Frames(run, e.i), FrameOf(e), r.p);
    OpenedSnoc(run, e);
    forall i | 0 <= i < |s.streams| ensures Knows(After(s, e.i, r).streams[i], Frames(run + [e], i)) {
      FramesSnoc(run, e, i);
    }
  }

  lemma OpenTold(s: State, run: seq<Step>, o: In, streams: seq<In>)
    requires Told(s, run) && o.high == 0 && o.fin == -1 && streams == s.streams + [o]
    ensures Told(s.(streams := streams), run + [Open])
  {
    OpenedSnoc(run, Open);
    forall i | 0 <= i < |streams| ensures Knows(streams[i], Frames(run + [Open], i)) {
      FramesSnoc(run, Open, i);
      if i == |s.streams| {
        NotOpenNoFrames(run, i);
      }
    }
  }

  lemma OtherTold(s: State, n: State, run: seq<Step>, e: Step)
    requires Told(s, run) && (e.Stop? || (IsFrame(e) && e.i >= |s.streams|)) && |n.streams| == |s.streams|
    requires forall i :: 0 <= i < |s.streams| ==>
               n.streams[i].high == s.streams[i].high && n.streams[i].fin == s.streams[i].fin
    ensures Told(n, run + [e])
  {
    OpenedSnoc(run, e);
    forall i | 0 <= i < |s.streams| ensures Knows(n.streams[i], Frames(run + [e], i)) {
      FramesSnoc(run, e, i);
      assert Knows(s.streams[i], Frames(run, i));
    }
  }

  lemma {:induction false} AlwaysTold(w: Windows, run: seq<Step>)
    requires !Exec(w, run).closed
    ensures Told(Exec(w, run), run)
  {
    if run != [] {
      var before, e := run[..|run| - 1], run[|run| - 1];
      var s := Exec(w, before);
      assert run == before + [e];
      AlwaysTold(w, before);
      BooksBalance(w, before);
      if e.Open? {
        var o := In(EMPTY, w.stream, 0, 0, -1, false, false, false);
        OpenTold(s, before, o, s.streams + [o]);
      } else if IsFrame(e) && e.i < |s.streams| {
        NextIsFrame(w, s, e);
        FrameTold(w, s, before, e, Outcome(w, s, e));
      } else {
        OtherTold(s, Next(w, s, e), before, e);
      }
    }
  }

  lemma {:induction false} SumIs(streams: seq<In>, f: nat -> nat)
    requires forall i :: 0 <= i < |streams| ==> streams[i].high == f(i)
    ensures SumHigh(streams) == Sum(f, |streams|)
  {
    if streams != [] {
      SumIs(streams[..|streams| - 1], f);
    }
  }

  /** What the peer has used of the connection's limit is the sum of the highest offsets. */
  lemma DataIsTotal(w: Windows, run: seq<Step>)
    requires !Exec(w, run).closed
    ensures Exec(w, run).c.data == Total(run)
  {
    AlwaysTold(w, run);
    BooksBalance(w, run);
    SumIs(Exec(w, run).streams, ReachedIn(run));
  }

  lemma {:induction false} SumMore(f: nat -> nat, g: nat -> nat, n: nat, j: nat)
    requires forall i: nat | i != j :: g(i) == f(i)
    ensures Sum(g, n) == Sum(f, n) + if j < n then g(j) - f(j) else 0
  {
    if n > 0 {
      SumMore(f, g, n - 1, j);
    }
  }

  lemma TotalMore(run: seq<Step>, e: Step)
    requires IsFrame(e) && e.i < Opened(run)
    ensures var r := Reached(Frames(run, e.i)); Total(run + [e]) == Total(run) - r + Max(r, FrameOf(e).end)
  {
    OpenedSnoc(run, e);
    forall i: nat | i != e.i ensures ReachedIn(run + [e])(i) == ReachedIn(run)(i) {
      FramesSnoc(run, e, i);
    }
    SumMore(ReachedIn(run), ReachedIn(run + [e]), Opened(run), e.i);
    FramesSnoc(run, e, e.i);
    ReachedSnoc(Frames(run, e.i), FrameOf(e));
  }

  /** The peer has used more than the limits that stand after a run. */
  ghost predicate Exceeds(w: Windows, run: seq<Step>, e: Step)
    requires IsFrame(e) && e.i < |Exec(w, run).streams|
  {
    FrameOf(e).end > Exec(w, run).streams[e.i].max || Total(run + [e]) > Exec(w, run).c.maxData
  }

  /** In every run a STREAM or RESET_STREAM frame closes the connection exactly if it breaks a rule, and with
      the code of the first rule that it breaks: FRAME_ENCODING_ERROR for a STREAM frame that ends beyond the
      largest offset there is; FINAL_SIZE_ERROR if it and a frame before it disagree about the final size;
      FLOW_CONTROL_ERROR beyond the limit of its stream, or if the highest offsets add up to more than the
      limit of the connection. */
  lemma Verdict(w: Windows, run: seq<Step>, e: Step)
    requires !Exec(w, run).closed && IsFrame(e) && e.i < Opened(run)
    ensures e.i < |Exec(w, run).streams|
    ensures var n, f := Exec(w, run + [e]), FrameOf(e);
            if e.StreamFrame? && f.end > 0x3fff_ffff_ffff_ffff then n.closed && n.code == 7
            else if Contradicts(f, Frames(run, e.i)) then n.closed && n.code == 6
            else if Exceeds(w, run, e) then n.closed && n.code == 3
            else !n.closed
  {
    var s := Exec(w, run);
    AlwaysTold(w, run);
    BooksBalance(w, run);
    DataIsTotal(w, run);
    TotalMore(run, e);
    TheCodes(w, s, run, e);
    ExecSnoc(w, run, e);
    NextIsFrame(w, s, e);
  }

  // A peer that keeps to the rules.

  /** All frames of stream i fit a stream of total(i) bytes, and the limits in force are kept. */
  ghost predicate Honest(w: Windows, total: nat -> nat, before: seq<Step>, e: Step) {
    IsFrame(e) && e.i < Opened(before) ==>
      && FrameOf(e).end <= total(e.i) && (FrameOf(e).last ==> FrameOf(e).end == total(e.i))
      && (e.StreamFrame? ==> FrameOf(e).end <= 0x3fff_ffff_ffff_ffff)
      && e.i < |Exec(w, before).streams| && !Exceeds(w, before, e)
  }

  ghost predicate AllHonest(w: Windows, total: nat -> nat, run: seq<Step>) {
    forall k :: 0 <= k < |run| ==> Honest(w, total, run[..k], run[k])
  }

  lemma {:induction false} FramesFit(w: Windows, total: nat -> nat, run: seq<Step>, i: nat)
    requires AllHonest(w, total, run)
    ensures forall k :: 0 <= k < |Frames(run, i)| ==>
              var g := Frames(run, i)[k]; g.end <= total(i) && (g.last ==> g.end == total(i))
  {
    if run != [] {
      var before := run[..|run| - 1];
      HonestBefore(w, total, run);
      FramesFit(w, total, before, i);
      assert Honest(w, total, run[..|run| - 1], run[|run| - 1]);
    }
  }

  lemma HonestBefore(w: Windows, total: nat -> nat, run: seq<Step>)
    requires AllHonest(w, total, run) && run != []
    ensures AllHonest(w, total, run[..|run| - 1])
  {
    var before := run[..|run| - 1];
    forall k | 0 <= k < |before| ensures Honest(w, total, before[..k], before[k]) {
      assert before[..k] == run[..k] && before[k] == run[k];
    }
  }

  /** A peer whose frames are pieces of one byte sequence for each stream, which ends the streams where these
      end and keeps to the limits, is never disconnected, whatever arrives in whatever order and however often. */
  lemma {:induction false} HonestStaysOpen(w: Windows, total: nat -> nat, run: seq<Step>)
    requires AllHonest(w, total, run)
    ensures !Exec(w, run).closed
  {
    if run != [] {
      var before, e := run[..|run| - 1], run[|run| - 1];
      HonestBefore(w, total, run);
      HonestStaysOpen(w, total, before);
      AlwaysTold(w, before);
      assert run == before + [e];
      assert Honest(w, total, run[..|run| - 1], run[|run| - 1]);
      if IsFrame(e) && e.i < Opened(before) {
        FramesFit(w, total, before, e.i);
        Verdict(w, before, e);
      }
    }
  }
}
