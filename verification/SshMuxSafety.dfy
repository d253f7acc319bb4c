/** Channel ids are reused safely: what every run of two multiplexers keeps. */
module SshMuxSafety {
  import opened Bytes
  import opened SshMux

  // ----- Delivery finds the right channel -----------------------------------

  /** The first packet of a link: its session's view, moved by it, is not broken. */
  lemma FirstPacket(snd: Mux, rcv: Mux, l: Link, next: nat)
    requires Direction(snd, rcv, l, next) && |l| > 0
    ensures var p := l[0];
      && PacketOK(snd, rcv, p) && p.session < next
      && Delta(Received(rcv, p.session), p.kind) != Broken
      && Scan(l[1..], p.session, Delta(Received(rcv, p.session), p.kind)) == SentSoFar(snd, p.session)
  {
    var p := l[0];
    assert PacketOK(snd, rcv, p);
    assert SessionOK(snd, rcv, l, p.session);
    if Delta(Received(rcv, p.session), p.kind) == Broken {
      ScanStaysBroken(l[1..], p.session);
      assert false;
    }
  }

  /**
   * The channel found under the id in a packet is the one the packet was meant
   * for, and it is in a state to take the packet.
   */
  lemma DeliverySucceeds(s: State)
    requires Inv(s) && |s.toA| > 0
    ensures var p := s.toA[0];
      && (!p.kind.Open? ==> Lookup(s.a.slots, p.to) == Some(p.session))
      && Deliver(s.a, s.toB, p).Some?
  {
    FirstPacket(s.b, s.a, s.toA, s.next);
    var p := s.toA[0];
    if p.kind.Message? {
      PeerDecided(s, p.session);
    }
  }

  /** Whoever is sent a message has accepted the channel. */
  lemma PeerDecided(s: State, k: nat)
    requires Inv(s) && Usable(s.b, k) && Present(s.a, k) && Received(s.a, k) == Established
    ensures Usable(s.a, k)
  {
    assert SessionOK(s.a, s.b, s.toB, k) && SessionOK(s.b, s.a, s.toA, k);
    if !Usable(s.a, k) {
      ScanMovesOn(s.toB, k, Received(s.b, k));
      assert false;
    }
  }

  // ----- Sessions a step does not touch -------------------------------------

  /** Multiplexer m' differs from m at most in session k0. */
  ghost predicate SameBut(m: Mux, m': Mux, k0: nat)
  {
    forall k: nat :: k != k0 ==>
      (k in m'.chans <==> k in m.chans)
      && (k in m.chans ==> m'.chans[k] == m.chans[k] && (Present(m', k) <==> Present(m, k)))
  }

  lemma RegisterSame(m: Mux, k0: nat, remoteId: nat, inbound: bool)
    requires SlotsOK(m)
    requires k0 !in m.chans
    ensures var m' := Register(m, k0, remoteId, inbound);
      && SameBut(m, m', k0) && Present(m', k0)
      && SlotsOK(m')
  {
    AddedIsFresh(m.slots, k0);
  }

  lemma RemoveSame(m: Mux, k0: nat, c: Chan)
    requires SlotsOK(m)
    requires Present(m, k0) && c.localId == m.chans[k0].localId
    ensures var m' := Mux(m.chans[k0 := c], Removed(m.slots, c.localId));
      && SameBut(m, m', k0) && !Present(m', k0)
      && SlotsOK(m')
  {
    var m' := Mux(m.chans[k0 := c], Removed(m.slots, c.localId));
    assert forall i: nat :: Lookup(m'.slots, i) == if i == c.localId then None else Lookup(m.slots, i);
  }

  lemma OtherSession(snd: Mux, snd': Mux, rcv: Mux, rcv': Mux, l: Link, l': Link, k0: nat, k: nat)
    requires SessionOK(snd, rcv, l, k) && k != k0
    requires SameBut(snd, snd', k0) && SameBut(rcv, rcv', k0)
    requires forall v :: Scan(l', k, v) == Scan(l, k, v)
    ensures SessionOK(snd', rcv', l', k)
  {
  }

  lemma PopOther(l: Link, k: nat)
    requires |l| > 0 && l[0].session != k
    ensures forall v :: Scan(l[1..], k, v) == Scan(l, k, v)
  {
  }

  lemma AppendOther(l: Link, p: Packet, k: nat)
    requires p.session != k
    ensures forall v :: Scan(l + [p], k, v) == Scan(l, k, v)
  {
    forall v ensures Scan(l + [p], k, v) == Scan(l, k, v) { ScanAppend(l, p, k, v); }
  }

  // ----- One step, for the session it is about ------------------------------

  /** A channel object keeps its id and its direction, and stays usable. */
  ghost predicate Grows(m: Mux, m': Mux, k0: nat)
  {
    k0 in m.chans ==>
      && k0 in m'.chans && m'.chans[k0].localId == m.chans[k0].localId
      && m'.chans[k0].inbound == m.chans[k0].inbound
      && (Usable(m, k0) ==> Usable(m', k0))
  }

  lemma PacketKept(snd: Mux, snd': Mux, rcv: Mux, rcv': Mux, k0: nat, p: Packet)
    requires PacketOK(snd, rcv, p)
    requires SameBut(snd, snd', k0) && SameBut(rcv, rcv', k0) && Grows(snd, snd', k0) && Grows(rcv, rcv', k0)
    ensures PacketOK(snd', rcv', p)
  {
  }

  /** Links to which at most one packet of session k0 was added or from which one was taken. */
  ghost predicate LinkStep(l: Link, l': Link, k0: nat)
  {
    || l' == l
    || (|l| > 0 && l[0].session == k0 && l' == l[1..])
    || (|l'| > 0 && l'[|l'| - 1].session == k0 && l == l'[..|l'| - 1])
  }

  lemma LinkStepOther(l: Link, l': Link, k0: nat, k: nat)
    requires LinkStep(l, l', k0) && k != k0
    ensures forall v :: Scan(l', k, v) == Scan(l, k, v)
  {
    if l' != l {
      if |l| > 0 && l[0].session == k0 && l' == l[1..] {
        PopOther(l, k);
      } else {
        var p := l'[|l'| - 1];
        assert l' == l + [p];
        AppendOther(l, p, k);
      }
    }
  }

  /** One direction after a step about session k0, given that k0 itself is in order. */
  lemma DirectionKept(snd: Mux, snd': Mux, rcv: Mux, rcv': Mux, l: Link, l': Link, next: nat, next': nat, k0: nat)
    requires Direction(snd, rcv, l, next)
    requires SameBut(snd, snd', k0) && SameBut(rcv, rcv', k0) && Grows(snd, snd', k0) && Grows(rcv, rcv', k0)
    requires LinkStep(l, l', k0)
    requires next == next' || (k0 == next && next' == next + 1)
    requires k0 < next' && SessionOK(snd', rcv', l', k0)
    requires |l'| > |l| ==> PacketOK(snd', rcv', l'[|l|])
    requires SlotsOK(snd')
    ensures Direction(snd', rcv', l', next')
  {
    hide SessionOK, PacketOK, LinkStep;
    forall k: nat | k < next'
      ensures SessionOK(snd', rcv', l', k)
    {
      if k != k0 {
        LinkStepOther(l, l', k0, k);
        OtherSession(snd, snd', rcv, rcv', l, l', k0, k);
      }
    }
    forall i | 0 <= i < |l'|
      ensures PacketOK(snd', rcv', l'[i])
    {
      LinkStepAt(l, l', k0, i);
      if i < |l| || |l'| <= |l| {
        var j := if |l'| < |l| then i + 1 else i;
        PacketKept(snd, snd', rcv, rcv', k0, l[j]);
      }
    }
    forall k: nat | k in snd'.chans
      ensures k < next'
    {
      assert k != k0 ==> k in snd.chans;
    }
  }

  lemma LinkStepAt(l: Link, l': Link, k0: nat, i: nat)
    requires LinkStep(l, l', k0) && i < |l'|
    ensures |l'| < |l| ==> |l'| + 1 == |l| && l'[i] == l[i + 1]
    ensures |l'| == |l| ==> l'[i] == l[i]
    ensures |l'| > |l| ==> |l'| == |l| + 1 && (i < |l| ==> l'[i] == l[i])
  {
  }

  lemma StepFor(s: State, t: State, k0: nat)
    requires Inv(s) && t.b == s.b
    requires SameBut(s.a, t.a, k0) && Grows(s.a, t.a, k0) && SlotsOK(t.a)
    requires LinkStep(s.toB, t.toB, k0) && LinkStep(s.toA, t.toA, k0) && |t.toA| <= |s.toA|
    requires t.next == s.next || (k0 == s.next && t.next == s.next + 1)
    requires k0 < t.next && (k0 in t.a.chans || k0 in t.b.chans)
    requires SessionOK(t.a, t.b, t.toB, k0) && SessionOK(t.b, t.a, t.toA, k0)
    requires |t.toB| > |s.toB| ==> PacketOK(t.a, t.b, t.toB[|s.toB|])
    ensures Inv(t)
  {
    hide SessionOK, PacketOK, LinkStep;
    DirectionKept(s.a, t.a, s.b, t.b, s.toB, t.toB, s.next, t.next, k0);
    DirectionKept(s.b, t.b, s.a, t.a, s.toA, t.toA, s.next, t.next, k0);
  }

  lemma {:induction false} ScanNone(l: Link, k: nat, v: View)
    requires forall i :: 0 <= i < |l| ==> l[i].session != k
    ensures Scan(l, k, v) == v
  {
    if |l| > 0 {
      ScanNone(l[1..], k, v);
    }
  }

  lemma OpenStep(s: State)
    requires Inv(s)
    ensures Inv(After(s, DoOpen))
  {
    hide Scan, Lookup, Added, FirstFree;
    var t := After(s, DoOpen);
    var k0 := s.next;
    var p := t.toB[|s.toB|];
    RegisterSame(s.a, k0, 0, false);
    forall i | 0 <= i < |s.toB| ensures s.toB[i].session != k0 { assert PacketOK(s.a, s.b, s.toB[i]); }
    forall i | 0 <= i < |s.toA| ensures s.toA[i].session != k0 { assert PacketOK(s.b, s.a, s.toA[i]); }
    ScanNone(s.toB, k0, NotOpened);
    ScanNone(s.toA, k0, Waiting);
    ScanAppend(s.toB, p, k0, NotOpened);
    StepFor(s, t, k0);
  }

  /** Accept and Reject: the inbound channel is decided, and the opener told. */
  lemma DecideStep(s: State, step: Step)
    requires Inv(s) && Enabled(s, step) && (step.DoAccept? || step.DoReject?)
    ensures Inv(After(s, step))
  {
    hide Scan, Lookup, SessionOK;
    DecideSession(s, step);
    StepFor(s, After(s, step), step.k);
  }

  /** The session that is being decided. */
  lemma DecideSession(s: State, step: Step)
    requires Inv(s) && Enabled(s, step) && (step.DoAccept? || step.DoReject?)
    ensures var t := After(s, step);
      && SessionOK(t.a, t.b, t.toB, step.k) && SessionOK(t.b, t.a, t.toA, step.k)
      && |t.toB| == |s.toB| + 1 && t.toB[..|s.toB|] == s.toB
      && t.toB[|s.toB|].session == step.k && PacketOK(t.a, t.b, t.toB[|s.toB|])
  {
    hide Scan, Lookup;
    var t := After(s, step);
    var k0 := step.k;
    assert SessionOK(s.a, s.b, s.toB, k0) && SessionOK(s.b, s.a, s.toA, k0);
    var p := t.toB[|s.toB|];
    ScanAppend(s.toB, p, k0, Received(s.b, k0));
  }

  lemma SendStep(s: State, k0: nat)
    requires Inv(s) && Enabled(s, DoSend(k0))
    ensures Inv(After(s, DoSend(k0)))
  {
    hide Scan, Lookup;
    var t := After(s, DoSend(k0));
    assert SessionOK(s.a, s.b, s.toB, k0) && SessionOK(s.b, s.a, s.toA, k0);
    ScanAppend(s.toB, Packet(k0, Message, s.a.chans[k0].remoteId, s.a.chans[k0].localId), k0, Received(s.b, k0));
    StepFor(s, t, k0);
  }

  lemma CloseStep(s: State, k0: nat)
    requires Inv(s) && Enabled(s, DoClose(k0))
    ensures Inv(After(s, DoClose(k0)))
  {
    hide Scan, Lookup;
    var t := After(s, DoClose(k0));
    assert SessionOK(s.a, s.b, s.toB, k0) && SessionOK(s.b, s.a, s.toA, k0);
    ScanAppend(s.toB, Packet(k0, Close, s.a.chans[k0].remoteId, s.a.chans[k0].localId), k0, Received(s.b, k0));
    StepFor(s, t, k0);
  }

  lemma DeliverOpen(s: State)
    requires Inv(s) && |s.toA| > 0 && s.toA[0].kind.Open?
    ensures Inv(After(s, DoDeliver))
  {
    hide Scan, Lookup, Added, FirstFree;
    var t := After(s, DoDeliver);
    var p := s.toA[0];
    var k0 := p.session;
    FirstPacket(s.b, s.a, s.toA, s.next);
    assert SessionOK(s.a, s.b, s.toB, k0) && SessionOK(s.b, s.a, s.toA, k0);
    RegisterSame(s.a, k0, p.from, true);
    StepFor(s, t, k0);
  }

  lemma DeliverAnswer(s: State)
    requires Inv(s) && |s.toA| > 0 && (s.toA[0].kind.Confirm? || s.toA[0].kind.Failure?)
    requires Enabled(s, DoDeliver)
    ensures Inv(After(s, DoDeliver))
  {
    hide Scan, Lookup, Removed;
    var t := After(s, DoDeliver);
    var p := s.toA[0];
    var k0 := p.session;
    FirstPacket(s.b, s.a, s.toA, s.next);
    DeliverySucceeds(s);
    assert SessionOK(s.a, s.b, s.toB, k0) && SessionOK(s.b, s.a, s.toA, k0);
    if p.kind.Failure? {
      RemoveSame(s.a, k0, t.a.chans[k0]);
    }
    StepFor(s, t, k0);
  }

  lemma DeliverMessage(s: State)
    requires Inv(s) && |s.toA| > 0 && s.toA[0].kind.Message?
    requires Enabled(s, DoDeliver)
    ensures Inv(After(s, DoDeliver))
  {
    hide Scan, Lookup;
    var k0 := s.toA[0].session;
    FirstPacket(s.b, s.a, s.toA, s.next);
    DeliverySucceeds(s);
    assert SessionOK(s.a, s.b, s.toB, k0) && SessionOK(s.b, s.a, s.toA, k0);
    StepFor(s, After(s, DoDeliver), k0);
  }

  lemma DeliverClose(s: State)
    requires Inv(s) && |s.toA| > 0 && s.toA[0].kind.Close?
    requires Enabled(s, DoDeliver)
    ensures Inv(After(s, DoDeliver))
  {
    hide Scan, Lookup, Removed, SessionOK, Received, Delta, PacketOK;
    var t := After(s, DoDeliver);
    var k0 := s.toA[0].session;
    FirstPacket(s.b, s.a, s.toA, s.next);
    DeliverySucceeds(s);
    CloseSession(s, k0);
    RemoveSame(s.a, k0, s.a.chans[k0].(sentClose := true));
    StepFor(s, t, k0);
  }

  /** The session that is being closed, after the close was delivered and answered. */
  lemma CloseSession(s: State, k0: nat)
    requires Inv(s) && Enabled(s, DoDeliver) && s.toA[0].kind.Close? && s.toA[0].session == k0
    ensures var t := After(s, DoDeliver);
      && Present(s.a, k0) && t.a == Mux(s.a.chans[k0 := s.a.chans[k0].(sentClose := true)],
                                        Removed(s.a.slots, s.a.chans[k0].localId))
      && SessionOK(t.a, t.b, t.toB, k0) && SessionOK(t.b, t.a, t.toA, k0)
      && t.toB == Put(s.a, s.toB, k0, Close)
      && (|t.toB| > |s.toB| ==> PacketOK(t.a, t.b, t.toB[|s.toB|]))
      && Usable(s.a, k0)
  {
    hide Scan, Lookup, Removed;
    FirstPacket(s.b, s.a, s.toA, s.next);
    DeliverySucceeds(s);
    assert SessionOK(s.a, s.b, s.toB, k0) && SessionOK(s.b, s.a, s.toA, k0);
    PeerDecided(s, k0);
    var c := s.a.chans[k0];
    RemoveSame(s.a, k0, c.(sentClose := true));
    ScanAppend(s.toB, Packet(k0, Close, c.remoteId, c.localId), k0, Received(s.b, k0));
  }

  // ----- Every run ----------------------------------------------------------

  lemma StepKeepsInv(s: State, step: Step)
    requires Inv(s) && Enabled(s, step)
    ensures Inv(After(s, step))
  {
    hide Inv, Deliver;
    match step
    case DoOpen => OpenStep(s);
    case DoAccept(_) => DecideStep(s, step);
    case DoReject(_) => DecideStep(s, step);
    case DoSend(k) => SendStep(s, k);
    case DoClose(k) => CloseStep(s, k);
    case DoDeliver =>
      match s.toA[0].kind
      case Open => DeliverOpen(s);
      case Message => DeliverMessage(s);
      case Close => DeliverClose(s);
      case _ => DeliverAnswer(s);
  }

  lemma InvSwap(s: State)
    requires Inv(s)
    ensures Inv(Swap(s))
  {
    hide Direction;
  }

  lemma {:induction false} RunKeepsInv(run: seq<State>, i: nat)
    requires IsRun(run) && i < |run|
    ensures Inv(run[i])
  {
    hide Inv, Enabled, After;
    if i == 0 {
      InitInv(run[0]);
    } else {
      RunKeepsInv(run, i - 1);
      var s, s' := run[i - 1], run[i - 1 + 1];
      assert Next(s, s');
      if exists step :: Enabled(s, step) && s' == After(s, step) {
        var step :| Enabled(s, step) && s' == After(s, step);
        StepKeepsInv(s, step);
      } else {
        var step :| Enabled(Swap(s), step) && s' == Swap(After(Swap(s), step));
        InvSwap(s);
        StepKeepsInv(Swap(s), step);
        InvSwap(After(Swap(s), step));
      }
    }
  }

  lemma InitInv(s: State)
    requires Init(s)
    ensures Inv(s)
  {
  }

  // ----- What it is all for -------------------------------------------------

  /** The first packet of l, if any, is taken by the channel of rcv it was sent for. */
  ghost predicate FirstArrives(rcv: Mux, out: Link, l: Link)
  {
    |l| > 0 ==>
      && (!l[0].kind.Open? ==> Lookup(rcv.slots, l[0].to) == Some(l[0].session))
      && Deliver(rcv, out, l[0]).Some?
  }

  /**
   * In every run, a packet reaches the very channel it was sent for, however
   * often its id was used before, and never a free id; and no packet is refused.
   */
  lemma NoPacketGoesAstray(run: seq<State>, i: nat)
    requires IsRun(run) && i < |run|
    ensures FirstArrives(run[i].a, run[i].toB, run[i].toA)
    ensures FirstArrives(run[i].b, run[i].toA, run[i].toB)
  {
    hide IsRun, Inv, Deliver;
    RunKeepsInv(run, i);
    InvSwap(run[i]);
    if |run[i].toA| > 0 {
      DeliverySucceeds(run[i]);
    }
    if |run[i].toB| > 0 {
      DeliverySucceeds(Swap(run[i]));
    }
  }

  /** The step of s.a leaves the channel of session k, once closed, closed and silent. */
  ghost predicate StaysShut(s: State, step: Step, k: nat)
  {
    Enabled(s, step) && k in s.a.chans && s.a.chans[k].sentClose ==>
      var t := After(s, step);
      && k in t.a.chans && t.a.chans[k].sentClose
      && (t.toB == s.toB || (|t.toB| == |s.toB| + 1 && t.toB[|s.toB|].session != k))
  }

  lemma StepStaysShut(s: State, step: Step, k: nat)
    requires Inv(s)
    ensures StaysShut(s, step, k)
  {
    hide Scan, Added, FirstFree;
    if Enabled(s, step) && step.DoDeliver? && k in s.a.chans {
      FirstPacket(s.b, s.a, s.toA, s.next);
      DeliverySucceeds(s);
      assert SessionOK(s.a, s.b, s.toB, k) && SessionOK(s.b, s.a, s.toA, k);
    }
  }

  /** At either end, a channel sends nothing after its close, and closes at most once. */
  lemma NothingAfterClose(run: seq<State>, i: nat, step: Step, k: nat)
    requires IsRun(run) && i < |run|
    ensures StaysShut(run[i], step, k) && StaysShut(Swap(run[i]), step, k)
  {
    hide IsRun, Inv, StaysShut;
    RunKeepsInv(run, i);
    InvSwap(run[i]);
    StepStaysShut(run[i], step, k);
    StepStaysShut(Swap(run[i]), step, k);
  }

  /** If the step of s.a frees the id of session k, it delivers the peer's close or refusal of k. */
  ghost predicate FreedByPeer(s: State, step: Step, k: nat)
  {
    Enabled(s, step) && Present(s.a, k) && !Present(After(s, step).a, k) ==>
      step.DoDeliver? && s.toA[0].session == k && (s.toA[0].kind.Close? || s.toA[0].kind.Failure?)
  }

  lemma StepFrees(s: State, step: Step, k: nat)
    requires Inv(s)
    ensures FreedByPeer(s, step, k)
  {
    hide Scan, Added, FirstFree;
    if !Enabled(s, step) {
    } else if step.DoOpen? {
      RegisterSame(s.a, s.next, 0, false);
    } else if step.DoDeliver? {
      FirstPacket(s.b, s.a, s.toA, s.next);
      DeliverySucceeds(s);
      var p := s.toA[0];
      if p.kind.Open? {
        RegisterSame(s.a, p.session, p.from, true);
      } else if p.kind.Close? {
        RemoveSame(s.a, p.session, s.a.chans[p.session].(sentClose := true));
      } else if p.kind.Failure? {
        RemoveSame(s.a, p.session, s.a.chans[p.session].(decided := true, refused := true));
      }
    }
  }

  /** At either end, an id is freed only by the peer's close, or its refusal to open, of that channel. */
  lemma FreedOnlyByPeer(run: seq<State>, i: nat, step: Step, k: nat)
    requires IsRun(run) && i < |run|
    ensures FreedByPeer(run[i], step, k) && FreedByPeer(Swap(run[i]), step, k)
  {
    hide IsRun, Inv, FreedByPeer;
    RunKeepsInv(run, i);
    InvSwap(run[i]);
    StepFrees(run[i], step, k);
    StepFrees(Swap(run[i]), step, k);
  }
}
