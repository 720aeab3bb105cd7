/** Whole runs of one stream: a sending buffer and a receiving buffer joined by a
    network that loses, repeats and reorders frames as it likes. */
module QuicStreamRun {
  import opened Bytes
  import S = QuicSendBuffer
  import R = QuicRecvBuffer

  datatype Frame = Frame(off: nat, data: seq<byte>) {
    ghost predicate Has(x: int) { off <= x < off + |data| }
  }

  /** What can happen next. A frame on the wire may be acknowledged, declared lost or
      delivered any number of times, in any order, or never. */
  datatype Step =
    | Write(p: seq<byte>)
    | SendNew(n: nat)
    | Resend(n: nat)
    | Ack(f: Frame)
    | Lose(f: Frame)
    | Deliver(f: Frame)
    | Pop

  /** written, wire, got and delivered record the history of the run. */
  datatype State = State(written: seq<byte>, snd: S.SendBuf, wire: set<Frame>, got: set<Frame>,
                         rcv: R.RecvBuf, delivered: seq<byte>)

  const START := State([], S.EMPTY, {}, {}, R.EMPTY, [])

  /** Byte x was in some frame that reached the receiver. */
  ghost predicate Arrived(got: set<Frame>, x: int) {
    exists f :: f in got && f.Has(x)
  }

  ghost predicate WireOk(s: State) {
    forall f :: f in s.wire ==> f.off + |f.data| <= s.snd.next && R.Segment(f.off, f.data).PieceOf(s.written)
  }

  ghost predicate RecvOk(s: State) {
    && s.rcv.Valid() && s.rcv.Agrees(s.written)
    && s.delivered == s.written[..s.rcv.offset]
    && (forall x :: 0 <= x ==> (s.rcv.Has(x) <==> Arrived(s.got, x)))
  }

  ghost predicate Inv(s: State) {
    && s.snd.Valid() && s.snd.Holds(s.written)
    && WireOk(s) && s.got <= s.wire
    && RecvOk(s)
  }

  predicate Enabled(s: State, step: Step) {
    match step
    case Ack(f) => f in s.wire
    case Lose(f) => f in s.wire
    case Deliver(f) => f in s.wire
    case _ => true
  }

  /** The state after a step; a step that is not enabled does nothing. Being defined
      at all says that no slice is ever out of bounds. */
  function Next(s: State, step: Step): State
    requires Inv(s)
  {
    if !Enabled(s, step) then s else
    match step
    case Write(p) => s.(written := s.written + p, snd := s.snd.Write(p))
    case SendNew(n) =>
      var pop := s.snd.PopNew(n);
      s.(snd := pop.rest, wire := s.wire + {Frame(pop.off, pop.data)})
    case Resend(n) =>
      var pop := s.snd.PopLost(n);
      s.(snd := pop.rest, wire := if pop.data == [] then s.wire else s.wire + {Frame(pop.off, pop.data)})
    case Ack(f) => s.(snd := s.snd.OnAck(f.off, |f.data|))
    case Lose(f) => s.(snd := s.snd.OnLost(f.off, |f.data|))
    case Deliver(f) => s.(rcv := s.rcv.Push(f.off, f.data), got := s.got + {f})
    case Pop =>
      var pop := s.rcv.Pop();
      s.(rcv := pop.rest, delivered := s.delivered + pop.data)
  }

  lemma StartInv()
    ensures Inv(START)
  {
  }

  /** Writing more leaves every piece of what was written a piece. */
  lemma WriteKeeps(s: State, p: seq<byte>)
    requires Inv(s)
    ensures Inv(Next(s, Write(p)))
  {
    var t := Next(s, Write(p));
    assert forall g: R.Segment :: g.PieceOf(s.written) ==> g.PieceOf(t.written) by {
      forall g: R.Segment | g.PieceOf(s.written) ensures g.PieceOf(t.written) {
        assert t.written[g.off..g.End()] == s.written[g.off..g.End()];
      }
    }
    assert t.snd.Holds(t.written) by {
      assert t.written[t.snd.base..] == s.written[s.snd.base..] + p;
    }
    assert t.delivered == t.written[..t.rcv.offset];
  }

  lemma SendKeeps(s: State, pop: S.Pop)
    requires Inv(s)
    requires pop.rest.Valid() && pop.rest.Holds(s.written) && pop.rest.next >= s.snd.next
    requires s.snd.base <= pop.off && pop.off + |pop.data| <= pop.rest.next <= s.snd.End()
    requires pop.data == s.snd.buf[pop.off - s.snd.base..pop.off - s.snd.base + |pop.data|]
    ensures Inv(s.(snd := pop.rest, wire := s.wire + {Frame(pop.off, pop.data)}))
  {
    assert R.Segment(pop.off, pop.data).PieceOf(s.written) by {
      assert s.written[s.snd.base..][pop.off - s.snd.base..pop.off - s.snd.base + |pop.data|]
          == s.written[pop.off..pop.off + |pop.data|];
    }
  }

  lemma AckKeeps(s: State, f: Frame)
    requires Inv(s) && f in s.wire
    ensures Inv(Next(s, Ack(f)))
  {
    S.OnAckSound(s.snd, f.off, |f.data|);
    var t := Next(s, Ack(f));
    assert s.written[s.snd.base..][t.snd.base - s.snd.base..] == s.written[t.snd.base..];
  }

  lemma DeliverKeeps(s: State, f: Frame)
    requires Inv(s) && f in s.wire
    ensures Inv(Next(s, Deliver(f)))
  {
    R.PushSound(s.rcv, f.off, f.data, s.written);
    var t := Next(s, Deliver(f));
    forall x | 0 <= x ensures t.rcv.Has(x) <==> Arrived(t.got, x) {
      assert Arrived(s.got, x) || f.Has(x) ==> Arrived(t.got, x) by {
        assert f in t.got;
        assert forall g :: g in s.got ==> g in t.got;
      }
    }
  }

  lemma PopKeeps(s: State)
    requires Inv(s)
    ensures Inv(Next(s, Pop))
  {
    R.PopSound(s.rcv, s.written);
    var t := Next(s, Pop);
    assert s.written[..s.rcv.offset] + s.written[s.rcv.offset..t.rcv.offset] == s.written[..t.rcv.offset];
  }

  /** Every step keeps the invariant. */
  lemma StepKeeps(s: State, step: Step)
    requires Inv(s)
    ensures Inv(Next(s, step))
  {
    if Enabled(s, step) {
      match step
      case Write(p) => WriteKeeps(s, p);
      case SendNew(n) =>
        S.PopNewSound(s.snd, n);
        SendKeeps(s, s.snd.PopNew(n));
      case Resend(n) =>
        S.PopLostSound(s.snd, n);
        if s.snd.PopLost(n).data != [] {
          SendKeeps(s, s.snd.PopLost(n));
        }
      case Ack(f) => AckKeeps(s, f);
      case Lose(f) => S.OnLostSound(s.snd, f.off, |f.data|);
      case Deliver(f) => DeliverKeeps(s, f);
      case Pop => PopKeeps(s);
    }
  }

  /** The state a run leads to. */
  ghost function Exec(s: State, steps: seq<Step>): (r: State)
    requires Inv(s)
    ensures Inv(r)
    decreases |steps|
  {
    if steps == [] then s
    else
      StepKeeps(s, steps[0]);
      Exec(Next(s, steps[0]), steps[1..])
  }

  /** Acknowledgements of an honest peer are for frames it has received. */
  ghost predicate Honest(s: State, steps: seq<Step>)
    requires Inv(s)
    decreases |steps|
  {
    steps == [] ||
    (StepKeeps(s, steps[0]);
     && (steps[0].Ack? ==> steps[0].f in s.got)
     && Honest(Next(s, steps[0]), steps[1..]))
  }

  ghost predicate AckedArrived(s: State) {
    forall x :: 0 <= x && s.snd.Acked(x) ==> Arrived(s.got, x)
  }

  lemma HonestStepKeeps(s: State, step: Step)
    requires Inv(s) && AckedArrived(s)
    requires step.Ack? ==> step.f in s.got
    ensures AckedArrived(Next(s, step))
  {
    if Enabled(s, step) {
      match step
      case Ack(f) =>
        S.OnAckSound(s.snd, f.off, |f.data|);
        assert forall x :: f.Has(x) ==> Arrived(s.got, x);
      case Lose(f) => S.OnLostSound(s.snd, f.off, |f.data|);
      case Resend(n) => S.PopLostSound(s.snd, n);
      case Deliver(f) =>
        forall x | Arrived(s.got, x) ensures Arrived(s.got + {f}, x) {
          var g :| g in s.got && g.Has(x);
          assert g in s.got + {f};
        }
      case _ =>
    }
  }

  lemma {:induction false} HonestRunKeeps(s: State, steps: seq<Step>)
    requires Inv(s) && AckedArrived(s) && Honest(s, steps)
    ensures AckedArrived(Exec(s, steps))
    decreases |steps|
  {
    if steps != [] {
      StepKeeps(s, steps[0]);
      HonestStepKeeps(s, steps[0]);
      HonestRunKeeps(Next(s, steps[0]), steps[1..]);
    }
  }

  /** The state after a run from an empty stream. */
  ghost function Run(steps: seq<Step>): State {
    StartInv();
    Exec(START, steps)
  }

  ghost predicate HonestRun(steps: seq<Step>) {
    StartInv();
    Honest(START, steps)
  }

  lemma RunInv(steps: seq<Step>)
    ensures Inv(Run(steps))
  {
    StartInv();
  }

  /** In every run, whatever the network does, what has been delivered is a prefix of
      what has been written, and delivery stalls only at a byte no frame has brought. */
  lemma DeliveredIsPrefix(steps: seq<Step>)
    ensures var s := Run(steps);
            && s.delivered <= s.written
            && |s.delivered| == s.rcv.offset
            && (!Popping(s.rcv) <==> !Arrived(s.got, |s.delivered|))
            && (forall x :: 0 <= x < |s.delivered| ==> Arrived(s.got, x))
  {
    RunInv(steps);
    var s := Run(steps);
    R.PopSound(s.rcv, s.written);
    assert forall x :: 0 <= x ==> (s.rcv.Has(x) <==> Arrived(s.got, x));
  }

  /** The receiver has data to hand on. */
  ghost predicate Popping(r: R.RecvBuf) { r.Valid() && r.Pop().data != [] }

  /** With an honest peer, once everything is acknowledged and the receiver has popped
      all it can, exactly the written bytes have been delivered. */
  lemma AllAckedMeansAllDelivered(steps: seq<Step>)
    requires HonestRun(steps) && Run(steps).snd.AllAcked() && !Popping(Run(steps).rcv)
    ensures Run(steps).delivered == Run(steps).written
  {
    RunInv(steps);
    StartInv();
    var s := Run(steps);
    HonestRunKeeps(START, steps);
    DeliveredIsPrefix(steps);
    assert s.snd.base == |s.written|;
    assert s.snd.Acked(s.rcv.offset) || s.rcv.offset == |s.written|;
  }
}
