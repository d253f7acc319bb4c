/**
 * What the packets on the wire are for: each data packet names the channel its sender
 * was told to name, and every end-of-file signal arrives.
 */
module SshFlowWire {
  import opened Bytes
  import opened SshFlow
  import opened SshFlowSafety

  // ----- Addresses ----------------------------------------------------------

  /** All that e has sent is addressed to id, which is what it was told or is being told. */
  ghost predicate Addressed(e: End, out: Link, inn: Link, id: nat)
  {
    && id < U32_LIMIT
    && (if e.decided then e.remoteId == id else e.calls == [])
    && (forall k :: 0 <= k < |out| && out[k].Data? ==> e.decided && Names(out[k].bytes, id))
    && (forall k :: 0 <= k < |inn| && inn[k].Confirm? ==> inn[k].id == id)
  }

  lemma StepAddressed(s: State, step: Step, id: nat)
    requires Enabled(s, step) && EndOK(s.a) && LinkOK(s.b, s.a, s.toA)
    requires Addressed(s.a, s.toB, s.toA, id)
    ensures var t := After(s, step); Addressed(t.a, t.toB, t.toA, id)
  {
    hide LinkOK, EndOK, After;
    SentByStep(s, step);
    AddressStays(s, step, id);
    var t, ps := After(s, step), SentBy(s, step);
    if ps != [] && ps[0].Data? {
      SentNames(s, step);
    }
    forall k | 0 <= k < |t.toB| && t.toB[k].Data?
      ensures t.a.decided && Names(t.toB[k].bytes, id)
    {
      if k < |s.toB| {
        assert t.toB[k] == s.toB[k];
      } else {
        assert t.toB[k] == ps[0];
      }
    }
  }

  /** What the sender knows of its peer's id does not change once it is decided. */
  lemma AddressStays(s: State, step: Step, id: nat)
    requires Enabled(s, step) && EndOK(s.a) && Addressed(s.a, s.toB, s.toA, id)
    ensures var t := After(s, step);
      && (if t.a.decided then t.a.remoteId == id else t.a.calls == [])
      && (s.a.decided ==> t.a.decided)
      && (forall k :: 0 <= k < |t.toA| && t.toA[k].Confirm? ==> t.toA[k].id == id)
  {
    hide DataPacket, ParseData, CallsOK;
  }

  lemma SentNames(s: State, step: Step)
    requires Enabled(s, step) && EndOK(s.a)
    requires SentBy(s, step) != [] && SentBy(s, step)[0].Data? && s.a.remoteId < U32_LIMIT
    requires s.a.decided || s.a.calls == []
    ensures s.a.decided && After(s, step).a.decided && Names(SentBy(s, step)[0].bytes, s.a.remoteId)
  {
    hide DataPacket, Handle, Names;
    var c := s.a.calls[step.i];
    DataPacketNames(s.a.remoteId, c.code, c.data[c.n..c.n + c.hold.value]);
  }

  /** A step of the peer sends no confirmation and takes packets off the other link. */
  lemma PeerStepAddressed(s: State, step: Step, id: nat)
    requires Enabled(s, step) && EndOK(s.a) && LinkOK(s.b, s.a, s.toA)
    requires Addressed(s.b, s.toA, s.toB, id)
    ensures var t := After(s, step); Addressed(t.b, t.toA, t.toB, id)
  {
    hide LinkOK, EndOK, Handle, SentBy, Names;
    SentByStep(s, step);
    PeerUntouched(s, step);
  }

  lemma {:induction false} RunAddressed(run: seq<State>, k: nat, ida: nat, idb: nat)
    requires IsRun(run) && k < |run|
    requires Addressed(run[0].a, run[0].toB, run[0].toA, ida) && Addressed(run[0].b, run[0].toA, run[0].toB, idb)
    ensures Addressed(run[k].a, run[k].toB, run[k].toA, ida) && Addressed(run[k].b, run[k].toA, run[k].toB, idb)
  {
    hide Next, Inv, Addressed;
    if k > 0 {
      RunAddressed(run, k - 1, ida, idb);
      RunKeepsInv(run, k - 1);
      assert Next(run[k - 1], run[k - 1 + 1]);
      NextAddressed(run[k - 1], run[k], ida, idb);
    }
  }

  lemma NextAddressed(s: State, s': State, ida: nat, idb: nat)
    requires Next(s, s') && Inv(s)
    requires Addressed(s.a, s.toB, s.toA, ida) && Addressed(s.b, s.toA, s.toB, idb)
    ensures Addressed(s'.a, s'.toB, s'.toA, ida) && Addressed(s'.b, s'.toA, s'.toB, idb)
  {
    hide Enabled, After, EndOK, LinkOK, Addressed, ReceiverAccount, JointAccount, StreamKept, MarkOK;
    if exists step :: Enabled(s, step) && s' == After(s, step) {
      var step :| Enabled(s, step) && s' == After(s, step);
      StepAddressed(s, step, ida);
      PeerStepAddressed(s, step, idb);
    } else {
      var step :| Enabled(Swap(s), step) && s' == Swap(After(Swap(s), step));
      StepAddressed(Swap(s), step, idb);
      PeerStepAddressed(Swap(s), step, ida);
    }
  }

  /** The ids that the ends are told: in the confirmation on its way, and in the open that came before. */
  ghost predicate Told(s: State, ida: nat, idb: nat)
  {
    && |s.toA| > 0 && s.toA[0].Confirm? && s.toA[0].id == ida && ida < U32_LIMIT
    && s.b.remoteId == idb && idb < U32_LIMIT
  }

  /** In every run, each data packet on a link names the id that its sender was told. */
  lemma DataIsAddressed(run: seq<State>, k: nat, ida: nat, idb: nat)
    requires IsRun(run) && k < |run| && Told(run[0], ida, idb)
    ensures forall i :: 0 <= i < |run[k].toB| && run[k].toB[i].Data? ==> Names(run[k].toB[i].bytes, ida)
    ensures forall i :: 0 <= i < |run[k].toA| && run[k].toA[i].Data? ==> Names(run[k].toA[i].bytes, idb)
  {
    assert Init(run[0]);
    assert Addressed(run[0].a, run[0].toB, run[0].toA, ida) && Addressed(run[0].b, run[0].toA, run[0].toB, idb);
    RunAddressed(run, k, ida, idb);
  }

  // ----- End of file --------------------------------------------------------

  /** An end of file that was signalled has arrived or is on its way. */
  ghost predicate EofOnItsWay(snd: End, rcv: End, fwd: Link)
  {
    snd.eofMark.Some? ==>
      || (|rcv.pending| == 2 && rcv.pending[0].closed && rcv.pending[1].closed)
      || exists k :: 0 <= k < |fwd| && Signals(fwd[k])
  }

  ghost predicate Signals(p: Packet)
  {
    p.Eof? || p.Close?
  }

  lemma StepEofSent(s: State, step: Step)
    requires Enabled(s, step) && EndOK(s.a) && LinkOK(s.b, s.a, s.toA)
    requires EofOnItsWay(s.a, s.b, s.toB)
    ensures var t := After(s, step); EofOnItsWay(t.a, t.b, t.toB)
  {
    hide LinkOK, EndOK, After, SentBy, Signals;
    SentByStep(s, step);
    PeerUntouched(s, step);
    MarkIsSent(s, step);
    var t, ps := After(s, step), SentBy(s, step);
    if s.a.eofMark.None? && t.a.eofMark.Some? {
      assert Signals(t.toB[|s.toB|]);
    } else if k :| 0 <= k < |s.toB| && Signals(s.toB[k]) {
      assert t.toB[k] == s.toB[k];
    }
  }

  /** The first signal is put on the wire, and the mark stays. */
  lemma MarkIsSent(s: State, step: Step)
    requires Enabled(s, step) && EndOK(s.a)
    ensures var t, ps := After(s, step), SentBy(s, step);
      && (s.a.eofMark.None? && t.a.eofMark.Some? ==> |ps| == 1 && Signals(ps[0]))
      && (s.a.eofMark.Some? ==> t.a.eofMark.Some?)
  {
    hide ParseData, DataPacket, CallsOK, OnStream, Handle;
    if step.DoDeliver? {
      HandleMark(s.a, s.toA[0]);
    }
  }

  lemma StepEofReceived(s: State, step: Step)
    requires Enabled(s, step) && EndOK(s.a) && EofOnItsWay(s.b, s.a, s.toA)
    ensures var t := After(s, step); EofOnItsWay(t.b, t.a, t.toA)
  {
    hide ParseData, DataPacket, CallsOK, OnStream, Handle;
    var t := After(s, step);
    if step.DoDeliver? {
      SignalCloses(s.a, s.toA[0]);
      if k :| 0 <= k < |s.toA| && Signals(s.toA[k]) {
        if k > 0 {
          assert t.toA[k - 1] == s.toA[k];
        }
      }
    }
  }

  /** A signal closes both streams, and a closed stream stays closed. */
  lemma SignalCloses(e: End, p: Packet)
    requires EndOK(e) && Handle(e, p).Done?
    ensures var e' := Handle(e, p).value.0;
      && |e'.pending| == 2
      && (forall c :: 0 <= c < 2 ==> (e'.pending[c].closed <==> e.pending[c].closed || Signals(p)))
  {
    hide ParseData, CallsOK;
  }

  lemma {:induction false} RunEof(run: seq<State>, k: nat)
    requires IsRun(run) && k < |run|
    ensures EofOnItsWay(run[k].a, run[k].b, run[k].toB) && EofOnItsWay(run[k].b, run[k].a, run[k].toA)
  {
    hide Next, Inv, EofOnItsWay;
    if k == 0 {
      NoEofYet(run[0]);
    } else {
      RunEof(run, k - 1);
      RunKeepsInv(run, k - 1);
      assert Next(run[k - 1], run[k - 1 + 1]);
      NextEof(run[k - 1], run[k]);
    }
  }

  lemma NoEofYet(s: State)
    requires Init(s)
    ensures EofOnItsWay(s.a, s.b, s.toB) && EofOnItsWay(s.b, s.a, s.toA)
  {
  }

  lemma NextEof(s: State, s': State)
    requires Next(s, s') && Inv(s)
    requires EofOnItsWay(s.a, s.b, s.toB) && EofOnItsWay(s.b, s.a, s.toA)
    ensures EofOnItsWay(s'.a, s'.b, s'.toB) && EofOnItsWay(s'.b, s'.a, s'.toA)
  {
    hide Enabled, After, EndOK, LinkOK, EofOnItsWay, ReceiverAccount, JointAccount, StreamKept, MarkOK;
    if exists step :: Enabled(s, step) && s' == After(s, step) {
      var step :| Enabled(s, step) && s' == After(s, step);
      StepEofSent(s, step);
      StepEofReceived(s, step);
    } else {
      var step :| Enabled(Swap(s), step) && s' == Swap(After(Swap(s), step));
      StepEofSent(Swap(s), step);
      StepEofReceived(Swap(s), step);
    }
  }

  /** Once an end has signalled end of file and nothing of that is on its way, both streams at the other have ended. */
  lemma EofArrives(run: seq<State>, k: nat)
    requires IsRun(run) && k < |run|
    ensures Ended(run[k].a, run[k].b, run[k].toB) && Ended(run[k].b, run[k].a, run[k].toA)
  {
    hide IsRun;
    RunEof(run, k);
  }

  ghost predicate Ended(snd: End, rcv: End, fwd: Link)
  {
    snd.eofMark.Some? && (forall k :: 0 <= k < |fwd| ==> !Signals(fwd[k])) ==>
      |rcv.pending| == 2 && rcv.pending[0].closed && rcv.pending[1].closed
  }
}
