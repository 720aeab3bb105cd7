/** What the application has been given, told from the frames that came. */
module QuicArrival {
  import opened Arithmetic
  import opened Bytes
  import opened QuicRecvBuffer
  import opened QuicStreamRecv
  import opened QuicAdmission

  /** Byte x of stream i has come in some STREAM frame. */
  ghost predicate Came(run: seq<Step>, i: nat, x: int) {
    run != [] &&
    var before, e := run[..|run| - 1], run[|run| - 1];
    Came(before, i, x) || (e.StreamFrame? && Concerns(before, e, i) && e.off <= x < e.off + |e.data|)
  }

  /** Nobody has given up stream i: it was not reset, and its reader did not stop. */
  predicate GoesOn(run: seq<Step>, i: nat) {
    run == [] ||
    var before, e := run[..|run| - 1], run[|run| - 1];
    GoesOn(before, i) && ((e.Stop? || e.ResetFrame?) ==> !Concerns(before, e, i))
  }

  // Handing on.

  /** Everything up to the first byte that has not come has been read. */
  ghost predicate UpToDate(s: In) {
    s.recv.Valid() && !s.recv.Has(s.recv.offset) && s.read == s.recv.offset
  }

  ghost predicate SameBytes(a: RecvBuf, b: RecvBuf) { forall x: nat :: b.Has(x) <==> a.Has(x) }

  ghost predicate SameFlags(a: In, b: In) {
    b.done == a.done && b.peerReset == a.peerReset && b.stopSent == a.stopSent && b.fin == a.fin
  }

  lemma UsedIs(w: Windows, p: Pair, offset: nat)
    ensures var q := Using(w)(p, offset).s;
            q.read == Max(p.s.read, offset) && q.recv == p.s.recv && SameFlags(p.s, q) && q.high == p.s.high
  {
  }

  lemma {:induction false} DeliverArrives(w: Windows, p: Pair)
    requires p.s.recv.Valid() && p.s.read == p.s.recv.offset
    ensures var q := Deliver(Using(w), p).s;
            UpToDate(q) && SameBytes(p.s.recv, q.recv) && SameFlags(p.s, q)
    decreases |p.s.recv.segments|
  {
    var popped := p.s.recv.Pop();
    PopShrinks(p.s.recv);
    PopSound(p.s.recv, []);
    if popped.data != [] {
      var q := p.(s := p.s.(recv := popped.rest));
      UsedIs(w, q, popped.rest.offset);
      var n := Using(w)(q, popped.rest.offset);
      assert n.(s := n.s.(recv := popped.rest)) == n;
      DeliverArrives(w, n);
    }
  }

  ghost predicate Added(a: RecvBuf, off: nat, n: nat, b: RecvBuf) {
    forall x: nat :: b.Has(x) <==> a.Has(x) || off <= x < off + n
  }

  /** A stream that goes on: what was handed on, and whether the end was. */
  ghost predicate Current(s: In) {
    UpToDate(s) && !s.peerReset && !s.stopSent && (s.done <==> s.fin >= 0 && s.recv.offset == s.fin)
  }

  lemma FinishArrives(w: Windows, q: Pair)
    requires UpToDate(q.s) && !q.s.peerReset && !q.s.stopSent && !q.s.done
    ensures var n := Finish(Using(w), q).s; Current(n) && n.recv == q.s.recv && n.fin == q.s.fin
  {
    UsedIs(w, q.(s := q.s.(done := true)), q.s.recv.offset);
  }

  lemma HandOnArrives(w: Windows, p: Pair, off: nat, data: seq<byte>)
    requires UpToDate(p.s) && !p.s.peerReset && !p.s.stopSent && !p.s.done
    ensures var q := Finish(Using(w), Deliver(Using(w), p.(s := p.s.(recv := p.s.recv.Push(off, data))))).s;
            Current(q) && Added(p.s.recv, off, |data|, q.recv) && q.fin == p.s.fin
  {
    PushSound(p.s.recv, off, data, []);
    var pushed := p.(s := p.s.(recv := p.s.recv.Push(off, data)));
    DeliverArrives(w, pushed);
    FinishArrives(w, Deliver(Using(w), pushed));
  }

  lemma EndedArrives(w: Windows, p: Pair, off: nat, data: seq<byte>)
    requires Current(p.s) && p.s.done && off + |data| <= p.s.fin
    ensures var q := Discard(Using(w), p, off + |data|).s;
            Current(q) && Added(p.s.recv, off, |data|, q.recv) && q.fin == p.s.fin
  {
    UsedIs(w, p, off + |data|);
  }

  /** Within the limits only the final size and the highest offset are recorded. */
  lemma AdmittedAs(p: Pair, end: nat, fin: bool)
    requires Admit(p, end, fin).Accepted?
    ensures var s := Admit(p, end, fin).p.s;
            && s.recv == p.s.recv && s.read == p.s.read && s.done == p.s.done && s.peerReset == p.s.peerReset
            && s.stopSent == p.s.stopSent && s.fin == (if fin then end else p.s.fin)
            && (p.s.fin >= 0 ==> s.fin == p.s.fin && end <= p.s.fin)
  {
  }

  lemma FrameArrives(w: Windows, p: Pair, off: nat, data: seq<byte>, fin: bool)
    requires Current(p.s) && OnStreamFrame(Using(w), p, off, data, fin).Accepted?
    ensures var q := OnStreamFrame(Using(w), p, off, data, fin).p.s;
            Current(q) && Added(p.s.recv, off, |data|, q.recv)
  {
    AdmittedAs(p, off + |data|, fin);
    var a := Admit(p, off + |data|, fin).p;
    FrameIs(Using(w), p, off, data, fin, a);
    if p.s.done {
      EndedArrives(w, a, off, data);
    } else {
      HandOnArrives(w, a, off, data);
    }
  }

  // Every run.

  ghost predicate Holds(run: seq<Step>, i: nat, s: In) {
    GoesOn(run, i) ==> Current(s) && forall x: nat :: s.recv.Has(x) <==> Came(run, i, x)
  }

  lemma CameSnoc(run: seq<Step>, e: Step, i: nat, x: int)
    ensures Came(run + [e], i, x)
            <==> Came(run, i, x) || (e.StreamFrame? && Concerns(run, e, i) && e.off <= x < e.off + |e.data|)
    ensures GoesOn(run + [e], i)
            <==> GoesOn(run, i) && ((e.Stop? || e.ResetFrame?) ==> !Concerns(run, e, i))
  {
    assert (run + [e])[..|run|] == run;
  }

  lemma StaysHeld(run: seq<Step>, e: Step, i: nat, s: In)
    requires Holds(run, i, s) && !Concerns(run, e, i)
    ensures Holds(run + [e], i, s)
  {
    forall x: nat ensures Came(run + [e], i, x) <==> Came(run, i, x) {
      CameSnoc(run, e, i, x);
    }
    CameSnoc(run, e, i, 0);
  }

  lemma FrameHeld(w: Windows, run: seq<Step>, e: Step, p: Pair, q: Pair)
    requires e.StreamFrame? && Concerns(run, e, e.i) && Holds(run, e.i, p.s)
    requires OnStreamFrame(Using(w), p, e.off, e.data, e.fin) == Accepted(q)
    ensures Holds(run + [e], e.i, q.s)
  {
    CameSnoc(run, e, e.i, 0);
    if GoesOn(run, e.i) {
      FrameArrives(w, p, e.off, e.data, e.fin);
      forall x: nat ensures q.s.recv.Has(x) <==> Came(run + [e], e.i, x) {
        CameSnoc(run, e, e.i, x);
      }
    }
  }

  lemma GivenUpHeld(run: seq<Step>, e: Step, s: In)
    requires (e.Stop? || e.ResetFrame?) && Concerns(run, e, e.i)
    ensures Holds(run + [e], e.i, s)
  {
    CameSnoc(run, e, e.i, 0);
  }

  lemma {:induction false} NothingCame(run: seq<Step>, i: nat, x: int)
    requires i >= Opened(run)
    ensures !Came(run, i, x) && GoesOn(run, i)
  {
    if run != [] {
      NothingCame(run[..|run| - 1], i, x);
    }
  }

  lemma NewHeld(w: Windows, run: seq<Step>, i: nat)
    requires i == Opened(run)
    ensures Holds(run + [Open], i, In(EMPTY, w.stream, 0, 0, -1, false, false, false))
  {
    forall x: nat ensures !Came(run + [Open], i, x) {
      NothingCame(run, i, x);
      CameSnoc(run, Open, i, x);
    }
  }

  lemma StepHeld(w: Windows, run: seq<Step>, s: State, e: Step, i: nat)
    requires !s.closed && !Next(w, s, e).closed && |s.streams| == Opened(run) && i < |Next(w, s, e).streams|
    requires i < |s.streams| ==> Holds(run, i, s.streams[i])
    ensures Holds(run + [e], i, Next(w, s, e).streams[i])
  {
    if e.Open? {
      if i == |s.streams| {
        NewHeld(w, run, i);
      } else {
        StaysHeld(run, e, i, s.streams[i]);
      }
    } else if !Concerns(run, e, i) {
      StaysHeld(run, e, i, s.streams[i]);
    } else if e.StreamFrame? {
      NextIsFrame(w, s, e);
      FrameHeld(w, run, e, Pair(s.c, s.streams[i]), Outcome(w, s, e).p);
    } else {
      GivenUpHeld(run, e, Next(w, s, e).streams[i]);
    }
  }

  lemma {:induction false} AlwaysHeld(w: Windows, run: seq<Step>, i: nat)
    requires !Exec(w, run).closed && i < Opened(run)
    ensures i < |Exec(w, run).streams| && Holds(run, i, Exec(w, run).streams[i])
  {
    AlwaysTold(w, run);
    if run != [] {
      var before, e := run[..|run| - 1], run[|run| - 1];
      assert run == before + [e];
      AlwaysTold(w, before);
      if i < Opened(before) {
        AlwaysHeld(w, before, i);
      }
      StepHeld(w, before, Exec(w, before), e, i);
    }
  }

  /** In every run, of a stream that nobody has given up, everything before the first byte that has not come
      has been given to the application and nothing after it, and the end has been if and only if a frame told
      the final size and every byte before it has come. */
  lemma GivenAsItCame(w: Windows, run: seq<Step>, i: nat)
    requires !Exec(w, run).closed && i < Opened(run) && GoesOn(run, i)
    ensures i < |Exec(w, run).streams|
    ensures var s := Exec(w, run).streams[i];
            && (forall x :: 0 <= x < s.read ==> Came(run, i, x)) && !Came(run, i, s.read)
            && (s.done <==> exists f :: f in Frames(run, i) && f.last && forall x :: 0 <= x < f.end ==> Came(run, i, x))
  {
    AlwaysHeld(w, run, i);
    AlwaysTold(w, run);
    var s, fs := Exec(w, run).streams[i], Frames(run, i);
    assert Knows(s, fs);
    if s.done {
      var k :| 0 <= k < |fs| && fs[k] == Frame(s.fin, true);
      assert fs[k] in fs;
    }
    if f :| f in fs && f.last && forall x :: 0 <= x < f.end ==> Came(run, i, x) {
      BooksBalance(w, run);
      assert StreamOk(w, s) && s.fin == f.end && s.read >= f.end;
    }
  }

  // Streams that were given up.

  lemma DiscardArrives(w: Windows, p: Pair, end: nat)
    ensures var q := Discard(Using(w), p, end).s;
            && q.recv == p.s.recv && q.read == Max(p.s.read, end) && q.fin == p.s.fin
            && (q.done <==> p.s.done || (p.s.stopSent && p.s.fin >= 0))
            && q.peerReset == p.s.peerReset && q.stopSent == p.s.stopSent
  {
    UsedIs(w, p, end);
  }

  lemma GivenUpFrame(w: Windows, p: Pair, off: nat, data: seq<byte>, fin: bool)
    requires (p.s.peerReset || p.s.stopSent) && OnStreamFrame(Using(w), p, off, data, fin).Accepted?
    ensures var n := OnStreamFrame(Using(w), p, off, data, fin).p.s;
            && n.recv == p.s.recv && n.read == Max(p.s.read, off + |data|)
            && (n.done <==> p.s.done || (p.s.stopSent && (fin || p.s.fin >= 0)))
  {
    AdmittedAs(p, off + |data|, fin);
    var a := Admit(p, off + |data|, fin).p;
    FrameIs(Using(w), p, off, data, fin, a);
    DiscardArrives(w, a, off + |data|);
  }

  /** In every run a frame of a stream that was given up counts as read at once, and nothing of it is kept; a
      stream whose reader stopped ends with the first frame after its final size is known. */
  lemma GivenUpCountsAsRead(w: Windows, run: seq<Step>, e: Step)
    requires !Exec(w, run + [e]).closed && e.StreamFrame? && e.i < |Exec(w, run).streams|
    requires var s := Exec(w, run).streams[e.i]; s.peerReset || s.stopSent
    ensures e.i < |Exec(w, run + [e]).streams|
    ensures var s, n := Exec(w, run).streams[e.i], Exec(w, run + [e]).streams[e.i];
            && n.recv == s.recv && n.read == Max(s.read, e.off + |e.data|)
            && (n.done <==> s.done || (s.stopSent && (e.fin || s.fin >= 0)))
  {
    ExecSnoc(w, run, e);
    NextIsFrame(w, Exec(w, run), e);
    GivenUpFrame(w, Pair(Exec(w, run).c, Exec(w, run).streams[e.i]), e.off, e.data, e.fin);
  }

  /** In every run a reset that is accepted counts the whole stream as read and drops what waits, unless the
      application has already been told how the stream ended. */
  lemma ResetDrops(w: Windows, run: seq<Step>, e: Step)
    requires !Exec(w, run + [e]).closed && e.ResetFrame? && e.i < |Exec(w, run).streams|
    ensures e.i < |Exec(w, run + [e]).streams|
    ensures var s, n := Exec(w, run).streams[e.i], Exec(w, run + [e]).streams[e.i];
            && n.read == n.high == n.fin == e.finalSize && n.done == s.done && (n.peerReset <==> s.peerReset || !s.done)
            && n.recv == if s.done || s.peerReset then s.recv else RecvBuf(s.recv.offset, [], 0)
  {
    var s := Exec(w, run);
    ExecSnoc(w, run, e);
    NextIsFrame(w, s, e);
    BooksBalance(w, run);
    OneOfMany(w, s, e.i);
    UsingKeeps(w);
    var p := Pair(s.c, s.streams[e.i]);
    ResetStreamKeeps(w, Using(w), p, e.finalSize, OtherHigh(s, e.i), OtherRead(s, e.i));
    var r := Reach(p, e.finalSize);
    UsedIs(w, r.(s := r.s.(fin := e.finalSize)), e.finalSize);
  }

  /** Nothing waits on a stream that was given up. */
  ghost predicate Empty(s: In) { s.stopSent || s.peerReset ==> s.recv == RecvBuf(s.recv.offset, [], 0) }

  lemma FrameEmpty(w: Windows, p: Pair, off: nat, data: seq<byte>, fin: bool)
    requires Empty(p.s) && OnStreamFrame(Using(w), p, off, data, fin).Accepted?
    ensures Empty(OnStreamFrame(Using(w), p, off, data, fin).p.s)
  {
    AdmittedAs(p, off + |data|, fin);
    var a := Admit(p, off + |data|, fin).p;
    FrameIs(Using(w), p, off, data, fin, a);
    if p.s.done || p.s.peerReset || p.s.stopSent {
      DiscardArrives(w, a, off + |data|);
    } else {
      DeliverFlags(w, a.(s := a.s.(recv := a.s.recv.Push(off, data))));
      FinishFlags(w, Deliver(Using(w), a.(s := a.s.(recv := a.s.recv.Push(off, data)))));
    }
  }

  lemma {:induction false} DeliverFlags(w: Windows, p: Pair)
    ensures SameFlags(p.s, Deliver(Using(w), p).s)
    decreases |p.s.recv.segments|
  {
    var popped := p.s.recv.Pop();
    PopShrinks(p.s.recv);
    if popped.data != [] {
      var q := p.(s := p.s.(recv := popped.rest));
      UsedIs(w, q, popped.rest.offset);
      var n := Using(w)(q, popped.rest.offset);
      DeliverFlags(w, n.(s := n.s.(recv := popped.rest)));
    }
  }

  lemma FinishFlags(w: Windows, q: Pair)
    ensures var n := Finish(Using(w), q).s; n.peerReset == q.s.peerReset && n.stopSent == q.s.stopSent
  {
    UsedIs(w, q.(s := q.s.(done := true)), q.s.recv.offset);
  }

  lemma ResetEmpty(w: Windows, p: Pair, finalSize: nat)
    requires Empty(p.s) && OnResetStream(Using(w), p, finalSize).Accepted?
    ensures Empty(OnResetStream(Using(w), p, finalSize).p.s)
  {
    var r := Reach(p, finalSize);
    UsedIs(w, r.(s := r.s.(fin := finalSize)), finalSize);
  }

  lemma StepEmpty(w: Windows, s: State, e: Step, i: nat)
    requires i < |Next(w, s, e).streams| && (i < |s.streams| ==> Empty(s.streams[i]))
    ensures Empty(Next(w, s, e).streams[i])
  {
    if !s.closed && !e.Open? && e.i == i && i < |s.streams| {
      if IsFrame(e) {
        NextIsFrame(w, s, e);
        if Outcome(w, s, e).Accepted? {
          if e.StreamFrame? {
            FrameEmpty(w, Pair(s.c, s.streams[i]), e.off, e.data, e.fin);
          } else {
            ResetEmpty(w, Pair(s.c, s.streams[i]), e.finalSize);
          }
        }
      }
    }
  }

  /** In every run nothing is kept for a stream that was reset or whose reader stopped. */
  lemma {:induction false} NothingKept(w: Windows, run: seq<Step>, i: nat)
    requires i < |Exec(w, run).streams|
    ensures Empty(Exec(w, run).streams[i])
  {
    if run != [] {
      var before := run[..|run| - 1];
      if i < |Exec(w, before).streams| {
        NothingKept(w, before, i);
      }
      StepEmpty(w, Exec(w, before), run[|run| - 1], i);
    }
  }

  /** In every run a reader that stops before the end has stopped, and nothing else changes but what waits. */
  lemma StopIs(w: Windows, run: seq<Step>, i: nat)
    requires i < |Exec(w, run).streams| && !Exec(w, run).closed
    ensures i < |Exec(w, run + [Stop(i)]).streams|
    ensures var s, n := Exec(w, run).streams[i], Exec(w, run + [Stop(i)]).streams[i];
            && n == s.(stopSent := n.stopSent, recv := n.recv) && n.recv.offset == s.recv.offset
            && (n.stopSent <==> s.stopSent || !s.done)
  {
    ExecSnoc(w, run, Stop(i));
  }
}
