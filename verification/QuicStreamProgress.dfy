/** A stream is never stuck: from wherever a run has got to, everything written can still be sent,
    delivered and acknowledged. */
module QuicStreamProgress {
  import opened QuicSpans
  import S = QuicSendBuffer
  import R = QuicRecvBuffer
  import opened QuicStreamRun

  /** Every byte before next has been on the wire. */
  ghost predicate SentOnce(s: State) {
    forall x {:trigger Arrived(s.wire, x)} :: 0 <= x < s.snd.next ==> Arrived(s.wire, x)
  }

  lemma ArrivedMore(a: set<Frame>, b: set<Frame>, x: int)
    requires Arrived(a, x) && a <= b
    ensures Arrived(b, x)
  {
    var f :| f in a && f.Has(x);
    assert f in b;
  }

  lemma NewSent(s: State, n: nat)
    requires Inv(s) && SentOnce(s)
    ensures SentOnce(Next(s, SendNew(n)))
    ensures Next(s, SendNew(n)).snd.next == if s.snd.next + n < |s.written| then s.snd.next + n else |s.written|
  {
    S.PopNewSound(s.snd, n);
    var pop, t := s.snd.PopNew(n), Next(s, SendNew(n));
    forall x | 0 <= x < t.snd.next ensures Arrived(t.wire, x) {
      if x < s.snd.next {
        ArrivedMore(s.wire, t.wire, x);
      } else {
        assert Frame(pop.off, pop.data) in t.wire && Frame(pop.off, pop.data).Has(x);
      }
    }
  }

  lemma SentOnceKept(s: State, step: Step)
    requires Inv(s) && SentOnce(s)
    ensures SentOnce(Next(s, step))
  {
    if Enabled(s, step) {
      match step
      case SendNew(n) => NewSent(s, n);
      case Resend(n) =>
        S.PopLostSound(s.snd, n);
        var t := Next(s, Resend(n));
        forall x | 0 <= x < t.snd.next ensures Arrived(t.wire, x) {
          ArrivedMore(s.wire, t.wire, x);
        }
      case Ack(f) => S.OnAckSound(s.snd, f.off, |f.data|);
      case Lose(f) => S.OnLostSound(s.snd, f.off, |f.data|);
      case _ =>
    }
  }

  lemma {:induction false} ExecSent(s: State, steps: seq<Step>)
    requires Inv(s) && SentOnce(s)
    ensures SentOnce(Exec(s, steps))
    decreases |steps|
  {
    if steps != [] {
      StepKeeps(s, steps[0]);
      SentOnceKept(s, steps[0]);
      ExecSent(Next(s, steps[0]), steps[1..]);
    }
  }

  lemma {:induction false} ExecAppend(s: State, a: seq<Step>, b: seq<Step>)
    requires Inv(s)
    ensures Exec(s, a + b) == Exec(Exec(s, a), b)
    decreases |a|
  {
    if a == [] {
      assert a + b == b;
    } else {
      StepKeeps(s, a[0]);
      assert (a + b)[0] == a[0] && (a + b)[1..] == a[1..] + b;
      ExecAppend(Next(s, a[0]), a[1..], b);
    }
  }

  lemma ExecOne(s: State, step: Step)
    requires Inv(s)
    ensures Exec(s, [step]) == Next(s, step)
  {
    StepKeeps(s, step);
    assert [step][1..] == [];
    assert Exec(Next(s, step), []) == Next(s, step);
  }

  /** In every run, sending as much as has not been sent puts every byte written on the wire. */
  lemma AllCanBeSent(steps: seq<Step>)
    ensures var s := Run(steps);
            var n := |s.written| - s.snd.next;
            n >= 0 && var t := Run(steps + [SendNew(n)]);
                      t.written == s.written && t.snd.next == |t.written| && SentOnce(t)
  {
    StartInv();
    RunInv(steps);
    var s := Run(steps);
    ExecSent(START, steps);
    ExecAppend(START, steps, [SendNew(|s.written| - s.snd.next)]);
    ExecOne(s, SendNew(|s.written| - s.snd.next));
    NewSent(s, |s.written| - s.snd.next);
  }

  // Delivering what is on the wire.

  lemma {:induction false} DeliverEach(s: State, fs: set<Frame>) returns (more: seq<Step>)
    requires Inv(s) && fs <= s.wire
    ensures Honest(s, more)
    ensures var t := Exec(s, more);
            t.written == s.written && t.snd == s.snd && t.wire == s.wire && t.got == s.got + fs
    decreases |fs|
  {
    if fs == {} {
      more := [];
      assert s.got + fs == s.got;
    } else {
      var f :| f in fs;
      StepKeeps(s, Deliver(f));
      var t := Next(s, Deliver(f));
      var rest := DeliverEach(t, fs - {f});
      more := [Deliver(f)] + rest;
      assert more[1..] == rest;
      assert s.got + {f} + (fs - {f}) == s.got + fs;
    }
  }

  lemma PopProgress(s: State)
    requires Inv(s) && s.rcv.Pop().data != []
    ensures Inv(Next(s, Pop)) && |s.written| - |Next(s, Pop).delivered| < |s.written| - |s.delivered|
    ensures Next(s, Pop).written == s.written && Next(s, Pop).snd == s.snd
    ensures Next(s, Pop).wire == s.wire && Next(s, Pop).got == s.got
  {
    PopKeeps(s);
    R.PopSound(s.rcv, s.written);
  }

  lemma {:induction false} PopEach(s: State) returns (more: seq<Step>)
    requires Inv(s)
    ensures Honest(s, more)
    ensures var t := Exec(s, more);
            && t.written == s.written && t.snd == s.snd && t.wire == s.wire && t.got == s.got
            && t.rcv.Pop().data == []
    decreases |s.written| - |s.delivered|
  {
    if s.rcv.Pop().data == [] {
      more := [];
    } else {
      PopProgress(s);
      var rest := PopEach(Next(s, Pop));
      more := [Pop] + rest;
      assert more[1..] == rest;
    }
  }

  lemma {:induction false} AckEach(s: State, fs: set<Frame>) returns (more: seq<Step>)
    requires Inv(s) && fs <= s.got
    ensures Honest(s, more)
    ensures var t := Exec(s, more);
            && t.written == s.written && t.snd.next == s.snd.next && t.rcv == s.rcv && t.delivered == s.delivered
            && t.wire == s.wire && t.got == s.got
            && (forall x :: s.snd.Acked(x) || Arrived(fs, x) ==> t.snd.Acked(x))
    decreases |fs|
  {
    if fs == {} {
      more := [];
    } else {
      var f :| f in fs;
      StepKeeps(s, Ack(f));
      S.OnAckSound(s.snd, f.off, |f.data|);
      var t := Next(s, Ack(f));
      var rest := AckEach(t, fs - {f});
      more := [Ack(f)] + rest;
      assert more[1..] == rest;
      forall x | s.snd.Acked(x) || Arrived(fs, x) ensures Exec(s, more).snd.Acked(x) {
        if Arrived(fs, x) && !f.Has(x) {
          var g :| g in fs && g.Has(x);
          assert g in fs - {f};
        }
      }
    }
  }

  lemma {:induction false} HonestAppend(s: State, a: seq<Step>, b: seq<Step>)
    requires Inv(s) && Honest(s, a) && Honest(Exec(s, a), b)
    ensures Honest(s, a + b)
    decreases |a|
  {
    if a == [] {
      assert a + b == b;
    } else {
      StepKeeps(s, a[0]);
      assert (a + b)[0] == a[0] && (a + b)[1..] == a[1..] + b;
      HonestAppend(Next(s, a[0]), a[1..], b);
    }
  }

  lemma Both(s: State, a: seq<Step>, b: seq<Step>) returns (more: seq<Step>)
    requires Inv(s) && Honest(s, a) && Honest(Exec(s, a), b)
    ensures Honest(s, more) && Exec(s, more) == Exec(Exec(s, a), b)
  {
    more := a + b;
    ExecAppend(s, a, b);
    HonestAppend(s, a, b);
  }

  lemma AllGotIsDelivered(s: State)
    requires Inv(s) && SentOnce(s) && s.snd.next == |s.written| && s.got == s.wire && s.rcv.Pop().data == []
    ensures s.delivered == s.written
  {
    R.PopSound(s.rcv, s.written);
    var x := s.rcv.offset;
    assert s.rcv.Has(x) <==> Arrived(s.got, x);
    assert Arrived(s.wire, x) || x == |s.written|;
    assert s.written[..|s.written|] == s.written;
  }

  lemma AllAckedIsDone(s: State)
    requires Inv(s) && s.snd.next == |s.written| && forall x :: 0 <= x < s.snd.next ==> s.snd.Acked(x)
    ensures s.snd.AllAcked() && (forall x :: s.snd.base <= x ==> !Covers(s.snd.lost, x))
  {
    var b := s.snd;
    assert forall i :: 0 <= i < |b.acked| ==> b.base < b.acked[i].off;
    assert !b.Acked(b.base);
  }

  lemma Sends(s: State) returns (more: seq<Step>)
    requires Inv(s) && SentOnce(s)
    ensures Honest(s, more)
    ensures var t := Exec(s, more); t.written == s.written && SentOnce(t) && t.snd.next == |t.written|
  {
    var n := |s.written| - s.snd.next;
    more := [SendNew(n)];
    ExecOne(s, SendNew(n));
    NewSent(s, n);
    StepKeeps(s, SendNew(n));
    assert more[1..] == [];
  }

  lemma Delivers(s: State) returns (more: seq<Step>)
    requires Inv(s) && SentOnce(s) && s.snd.next == |s.written|
    ensures Honest(s, more)
    ensures var t := Exec(s, more);
            && t.written == s.written && t.snd == s.snd && t.wire == s.wire && t.got == s.wire
            && t.delivered == t.written
  {
    var a := DeliverEach(s, s.wire);
    var b := PopEach(Exec(s, a));
    more := Both(s, a, b);
    ExecSent(s, more);
    AllGotIsDelivered(Exec(s, more));
  }

  lemma Acks(s: State) returns (more: seq<Step>)
    requires Inv(s) && SentOnce(s) && s.snd.next == |s.written| && s.got == s.wire
    ensures Honest(s, more)
    ensures var t := Exec(s, more);
            && t.written == s.written && t.delivered == s.delivered && t.snd.AllAcked()
            && (forall x :: t.snd.base <= x ==> !Covers(t.snd.lost, x))
  {
    more := AckEach(s, s.got);
    var t := Exec(s, more);
    forall x | 0 <= x < t.snd.next ensures t.snd.Acked(x) {
      assert Arrived(s.wire, x);
    }
    AllAckedIsDone(t);
  }

  /** From every state that a run reaches, there is a way on, with an honest peer, to where exactly the
      written bytes have been delivered, all are acknowledged, and none is left to be sent again. */
  lemma CanFinish(steps: seq<Step>) returns (more: seq<Step>)
    ensures var s, t := Run(steps), Run(steps + more);
            && t.written == s.written && t.delivered == t.written && t.snd.AllAcked()
            && (forall x :: t.snd.base <= x ==> !Covers(t.snd.lost, x))
    ensures HonestRun(steps) ==> HonestRun(steps + more)
  {
    StartInv();
    RunInv(steps);
    ExecSent(START, steps);
    var s := Run(steps);
    var a := Sends(s);
    var b := Delivers(Exec(s, a));
    var ab := Both(s, a, b);
    ExecSent(s, ab);
    var c := Acks(Exec(s, ab));
    more := Both(s, ab, c);
    ExecAppend(START, steps, more);
    if HonestRun(steps) {
      HonestAppend(START, steps, more);
    }
  }
}
