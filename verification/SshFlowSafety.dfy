/** What every run of a channel keeps, and what follows from it. */
module SshFlowSafety {
  import opened Bytes
  import opened SshFlow

  // ----- The invariant ------------------------------------------------------

  ghost predicate CallOK(c: WriteCall)
  {
    && c.code < U32_LIMIT && c.n + Hold(c) <= |c.data|
    && Hold(c) <= CHANNEL_MAX_PACKET && (c.hold.Some? ==> c.active)
  }

  ghost predicate CallsOK(calls: seq<WriteCall>)
  {
    forall i :: 0 <= i < |calls| ==> CallOK(calls[i])
  }

  ghost predicate EndOK(e: End)
  {
    && |e.pending| == 2 && |e.got| == 2 && CallsOK(e.calls)
    && e.maxRemotePayload <= CHANNEL_MAX_PACKET && (e.decided ==> e.maxRemotePayload > 0)
    && (e.removed <==> e.winClosed) && (e.removed ==> e.sentClose)
    && (e.sentClose ==> e.eofMark.Some?) && (e.eofMark.Some? ==> |e.eofMark.value| == 2)
  }

  function Unread(e: End): (n: nat)
    requires |e.pending| == 2
  {
    |e.pending[0].bytes| + |e.pending[1].bytes|
  }

  /** The receiver's account: every byte of its window is free, unread, owed or discarded. */
  ghost predicate ReceiverAccount(rcv: End)
    requires |rcv.pending| == 2
  {
    rcv.myWindow + Unread(rcv) + rcv.owed + rcv.discarded == CHANNEL_WINDOW_SIZE
  }

  /** All the credit the sender has, holds, has spent on data in flight, or is being granted. */
  function Outstanding(snd: End, rcv: End, fwd: Link, back: Link): (n: nat)
  {
    snd.remoteWin + Held(snd.calls) + InFlight(fwd) + Granted(back) + rcv.credited
  }

  /** The joint account: it balances until a close is sent, and never exceeds the window. */
  ghost predicate JointAccount(snd: End, rcv: End, fwd: Link, back: Link)
  {
    && Outstanding(snd, rcv, fwd, back) <= rcv.myWindow
    && (!snd.sentClose && !rcv.sentClose ==> Outstanding(snd, rcv, fwd, back) == rcv.myWindow)
  }

  /** Nothing is lost, repeated or reordered on a stream. */
  ghost predicate StreamKept(snd: End, rcv: End, fwd: Link, code: nat)
    requires code < |rcv.got| && code < |rcv.pending|
  {
    OnStream(snd.sent, code) == rcv.got[code] + rcv.pending[code].bytes + Carried(fwd, code)
  }

  /** A close is the last packet of its sender; a confirmation the first, and only until it arrives. */
  ghost predicate LinkOK(snd: End, rcv: End, fwd: Link)
  {
    && (forall k :: 0 <= k < |fwd| && fwd[k].Data? ==> GoodData(fwd[k].bytes))
    && (forall k :: 0 <= k < |fwd| && fwd[k].Close? ==> k == |fwd| - 1)
    && (snd.sentClose <==> rcv.removed || (|fwd| > 0 && fwd[|fwd| - 1].Close?))
    && (rcv.removed ==> fwd == [])
    && (forall k :: 0 <= k < |fwd| && fwd[k].Confirm? ==> k == 0 && !rcv.decided)
    && (!rcv.decided ==> |fwd| > 0 && GoodConfirm(fwd[0]))
  }

  ghost predicate GoodConfirm(p: Packet)
  {
    p.Confirm? && p.window == CHANNEL_WINDOW_SIZE && p.maxPacket == CHANNEL_MAX_PACKET
  }

  /** An end-of-file signal still on the link has all that preceded it in front of it. */
  ghost predicate MarkOK(snd: End, rcv: End, fwd: Link, code: nat)
    requires code < 2 && |rcv.pending| == 2 && |rcv.got| == 2
    requires snd.eofMark.Some? ==> |snd.eofMark.value| == 2
  {
    && (snd.eofMark.Some? ==> snd.eofMark.value[code] <= |OnStream(snd.sent, code)|)
    && (rcv.pending[code].closed ==>
          snd.eofMark.Some? && snd.eofMark.value[code] <= |rcv.got[code]| + |rcv.pending[code].bytes|)
    && (forall k :: 0 <= k < |fwd| && (fwd[k].Eof? || fwd[k].Close?) ==>
          && snd.eofMark.Some?
          && snd.eofMark.value[code] <= |rcv.got[code]| + |rcv.pending[code].bytes| + |Carried(fwd[..k], code)|)
  }

  ghost predicate Direction(snd: End, rcv: End, fwd: Link, back: Link)
    requires EndOK(snd) && EndOK(rcv)
  {
    && ReceiverAccount(rcv) && JointAccount(snd, rcv, fwd, back)
    && StreamKept(snd, rcv, fwd, 0) && StreamKept(snd, rcv, fwd, 1)
    && LinkOK(snd, rcv, fwd)
    && MarkOK(snd, rcv, fwd, 0) && MarkOK(snd, rcv, fwd, 1)
  }

  ghost predicate Inv(s: State)
  {
    EndOK(s.a) && EndOK(s.b) && Direction(s.a, s.b, s.toB, s.toA) && Direction(s.b, s.a, s.toA, s.toB)
  }

  lemma InitInv(s: State)
    requires Init(s)
    ensures Inv(s)
  {
    assert s.toA[1..] == [];
    assert Granted(s.toA) == PacketCredit(s.toA[0]) + Granted([]);
    assert InFlight(s.toA) == |Payload(s.toA[0])| + InFlight([]);
    assert forall c: nat :: Carried(s.toA, c) == [] + Carried([], c);
  }

  // ----- Nothing an endpoint is sent can fail -------------------------------

  lemma DeliverySucceeds(s: State)
    requires Inv(s) && |s.toA| > 0
    ensures Handle(s.a, s.toA[0]).Done?
  {
    hide ParseData, OnStream, Carried;
    var p := s.toA[0];
    assert Granted(s.toA) == PacketCredit(p) + Granted(s.toA[1..]);
    assert InFlight(s.toA) == |Payload(p)| + InFlight(s.toA[1..]);
    if p.Data? {
      assert GoodData(p.bytes);
    }
  }

  // ----- The steps keep the endpoints well formed ---------------------------

  lemma CallsUpdated(calls: seq<WriteCall>, i: nat, c: WriteCall)
    requires CallsOK(calls) && i < |calls| && CallOK(c)
    ensures CallsOK(calls[i := c])
  {
  }

  lemma StepEnd(s: State, step: Step)
    requires Enabled(s, step) && EndOK(s.a)
    requires LinkOK(s.b, s.a, s.toA)
    ensures EndOK(After(s, step).a)
  {
    hide ParseData, JointAccount, StreamKept, MarkOK, OnStream, Held, Handle;
    var e := s.a;
    match step
    case DoReserve(i) => CallsUpdated(e.calls, i, Reserve(e, i).calls[i]);
    case DoAbandon(i) => CallsUpdated(e.calls, i, Abandon(e, i).calls[i]);
    case DoSend(i) => CallsUpdated(e.calls, i, AfterWrite(e, i).calls[i]);
    case DoDeliver => HandleEnd(e, s.toA[0]);
    case _ =>
  }

  lemma HandleEnd(e: End, p: Packet)
    requires EndOK(e) && Handle(e, p).Done? && (p.Confirm? ==> GoodConfirm(p))
    ensures EndOK(Handle(e, p).value.0)
  {
    hide ParseData, CallsOK, OnStream;
  }

  /** What delivering one packet does to an endpoint. */
  lemma HandleEffect(e: End, p: Packet)
    requires EndOK(e) && Handle(e, p).Done? && (p.Data? ==> GoodData(p.bytes))
    ensures var (e', reply) := Handle(e, p).value;
      && e'.calls == e.calls && e'.sent == e.sent && e'.got == e.got && e'.owed == e.owed && e'.credited == e.credited
      && (reply <==> p.Close?) && (e'.sentClose <==> e.sentClose || p.Close?)
      && e'.myWindow == e.myWindow - |Payload(p)|
      && e'.discarded == e.discarded + (if Code(p) >= 2 then |Payload(p)| else 0)
      && |e'.pending| == 2
      && (forall c: nat :: c < 2 ==>
            e'.pending[c].bytes == e.pending[c].bytes + if Code(p) == c then Payload(p) else [])
      && (e.remoteWin + PacketCredit(p) < U32_LIMIT ==> e'.remoteWin == e.remoteWin + PacketCredit(p))
      && e'.remoteWin >= e.remoteWin
  {
    hide ParseData, CallsOK;
  }

  // ----- The accounts -------------------------------------------------------

  lemma StepReceiverAccount(s: State, step: Step)
    requires Enabled(s, step) && EndOK(s.a) && ReceiverAccount(s.a)
    requires LinkOK(s.b, s.a, s.toA) && EndOK(After(s, step).a)
    ensures ReceiverAccount(After(s, step).a)
  {
    hide ParseData, OnStream, Held, CallsOK, Handle;
    if step.DoDeliver? {
      HandleEffect(s.a, s.toA[0]);
    }
  }

  /** Steps of the sender: what it reserves, sends or is granted stays in the account. */
  lemma StepJointAsSender(s: State, step: Step)
    requires Enabled(s, step) && EndOK(s.a) && EndOK(s.b)
    requires JointAccount(s.a, s.b, s.toB, s.toA) && ReceiverAccount(s.b) && LinkOK(s.b, s.a, s.toA)
    ensures var t := After(s, step); JointAccount(t.a, t.b, t.toB, t.toA)
  {
    hide ParseData, OnStream, InFlight, Granted, Held, Handle, DataPacket, LinkOK;
    var e := s.a;
    match step
    case DoStartWrite(code, data) => HeldAppend(e.calls, WriteCall(code, data, 0, None, true));
    case DoReserve(i) => HeldUpdate(e.calls, i, Reserve(e, i).calls[i]);
    case DoAbandon(i) => HeldUpdate(e.calls, i, Abandon(e, i).calls[i]);
    case DoSend(i) =>
      HeldUpdate(e.calls, i, AfterWrite(e, i).calls[i]);
      SentPacket(e, i);
      LinkAppend(s.toB, HeldPacket(e, i));
    case DoCloseWrite => LinkAppend(s.toB, Eof);
    case DoClose => LinkAppend(s.toB, Close);
    case DoAdjust(n) => LinkAppend(s.toB, Adjust(n));
    case DoDeliver => DeliverJointAsSender(s);
    case _ =>
  }

  lemma DeliverJointAsSender(s: State)
    requires Enabled(s, DoDeliver) && EndOK(s.a) && EndOK(s.b)
    requires JointAccount(s.a, s.b, s.toB, s.toA) && ReceiverAccount(s.b) && LinkOK(s.b, s.a, s.toA)
    ensures var t := After(s, DoDeliver); JointAccount(t.a, t.b, t.toB, t.toA)
  {
    hide ParseData, OnStream, InFlight, Granted, Held, Handle, CallsOK;
    LinkPop(s.toA);
    HandleEffect(s.a, s.toA[0]);
    LinkAppend(s.toB, Close);
  }

  lemma LinkPop(l: Link)
    requires |l| > 0
    ensures Granted(l) == PacketCredit(l[0]) + Granted(l[1..])
    ensures InFlight(l) == |Payload(l[0])| + InFlight(l[1..])
    ensures forall c: nat :: Carried(l, c) == (if Code(l[0]) == c then Payload(l[0]) else []) + Carried(l[1..], c)
  {
  }

  /** The packet of a held call is good and carries the bytes the call is about to send. */
  lemma SentPacket(e: End, i: nat)
    requires i < |e.calls| && CallOK(e.calls[i]) && e.calls[i].hold.Some?
    ensures var c := e.calls[i];
      var p := HeldPacket(e, i);
      && GoodData(p.bytes) && Payload(p) == c.data[c.n..c.n + c.hold.value] && Code(p) == c.code
  {
    hide ParseData, DataPacket;
    var c := e.calls[i];
    DataPacketParses(e.remoteId, c.code, c.data[c.n..c.n + c.hold.value]);
  }

  /** Steps of the receiver: what it takes in, hands out or grants stays in the account. */
  lemma StepJointAsReceiver(s: State, step: Step)
    requires Enabled(s, step) && EndOK(s.a)
    requires JointAccount(s.b, s.a, s.toA, s.toB) && LinkOK(s.b, s.a, s.toA)
    ensures var t := After(s, step); JointAccount(t.b, t.a, t.toA, t.toB)
  {
    hide ParseData, OnStream, InFlight, Granted, Held, Handle, DataPacket, CallsOK;
    var e := s.a;
    match step
    case DoSend(i) => LinkAppend(s.toB, HeldPacket(e, i));
    case DoCloseWrite => LinkAppend(s.toB, Eof);
    case DoClose => LinkAppend(s.toB, Close);
    case DoAdjust(n) => LinkAppend(s.toB, Adjust(n));
    case DoDeliver =>
      LinkPop(s.toA);
      LinkAppend(s.toB, Close);
      HandleEffect(e, s.toA[0]);
    case _ =>
  }

  // ----- The streams --------------------------------------------------------

  lemma StepStreamAsSender(s: State, step: Step, code: nat)
    requires Enabled(s, step) && code < 2
    requires EndOK(s.a) && EndOK(s.b) && StreamKept(s.a, s.b, s.toB, code) && LinkOK(s.b, s.a, s.toA)
    ensures var t := After(s, step); StreamKept(t.a, t.b, t.toB, code)
  {
    hide ParseData, InFlight, Granted, Held, OnStream, Carried, Handle, DataPacket, LinkOK;
    var e := s.a;
    match step
    case DoSend(i) => SendStream(s, i, code);
    case DoCloseWrite => LinkAppend(s.toB, Eof);
    case DoClose => LinkAppend(s.toB, Close);
    case DoAdjust(n) => LinkAppend(s.toB, Adjust(n));
    case DoDeliver =>
      assert s.toA[0].Data? ==> GoodData(s.toA[0].bytes) by { assert LinkOK(s.b, s.a, s.toA); FirstGood(s); }
      HandleEffect(e, s.toA[0]);
      LinkAppend(s.toB, Close);
    case _ =>
  }

  /** What a call adds to the record when it writes its packet. */
  function SentChunk(e: End, i: nat): (c: Chunk)
    requires i < |e.calls| && CallOK(e.calls[i]) && e.calls[i].hold.Some?
  {
    var c := e.calls[i];
    Chunk(i, c.code, c.data[c.n..c.n + c.hold.value])
  }

  lemma FirstGood(s: State)
    requires |s.toA| > 0 && LinkOK(s.b, s.a, s.toA)
    ensures s.toA[0].Data? ==> GoodData(s.toA[0].bytes)
  {
  }

  lemma SendStream(s: State, i: nat, code: nat)
    requires Enabled(s, DoSend(i)) && code < 2
    requires EndOK(s.a) && EndOK(s.b) && StreamKept(s.a, s.b, s.toB, code)
    ensures var t := After(s, DoSend(i)); StreamKept(t.a, t.b, t.toB, code)
  {
    hide ParseData, InFlight, Granted, Held, OnStream, Carried, DataPacket;
    var e := s.a;
    OnStreamAppend(e.sent, SentChunk(e, i), code);
    SentPacket(e, i);
    LinkAppend(s.toB, HeldPacket(e, i));
  }

  lemma StepStreamAsReceiver(s: State, step: Step, code: nat)
    requires Enabled(s, step) && code < 2 && EndOK(s.a) && EndOK(After(s, step).a)
    requires StreamKept(s.b, s.a, s.toA, code) && LinkOK(s.b, s.a, s.toA)
    ensures var t := After(s, step); StreamKept(t.b, t.a, t.toA, code)
  {
    hide ParseData, InFlight, Granted, Held, OnStream, Carried, Handle, DataPacket, CallsOK;
    if step.DoDeliver? {
      LinkPop(s.toA);
      HandleEffect(s.a, s.toA[0]);
    } else if step.DoRead? && step.code == code {
      var q := s.a.pending[code].bytes;
      var n := Min(step.max, |q|);
      assert q == q[..n] + q[n..];
    }
  }

  // ----- The links ----------------------------------------------------------

  lemma StepLinkAsSender(s: State, step: Step)
    requires Enabled(s, step) && EndOK(s.a) && LinkOK(s.a, s.b, s.toB)
    requires LinkOK(s.b, s.a, s.toA)
    ensures var t := After(s, step); LinkOK(t.a, t.b, t.toB)
  {
    hide LinkOK, EndOK, OnStream;
    SentByStep(s, step);
    if SentBy(s, step) == [] {
      assert s.toB + [] == s.toB;
      assert LinkOK(After(s, step).a, s.b, s.toB) by { LinkKept(s.a, After(s, step).a, s.b, s.toB); }
    } else {
      LinkAppended(s.a, After(s, step).a, s.b, s.toB, SentBy(s, step)[0]);
    }
  }

  lemma LinkKept(a: End, a': End, b: End, l: Link)
    requires LinkOK(a, b, l) && a'.sentClose == a.sentClose
    ensures LinkOK(a', b, l)
  {
  }

  /** One packet more, from an end that had not closed. */
  lemma LinkAppended(a: End, a': End, b: End, l: Link, p: Packet)
    requires LinkOK(a, b, l) && !a.sentClose && (a'.sentClose <==> p.Close?)
    requires !p.Confirm? && (p.Data? ==> GoodData(p.bytes))
    ensures LinkOK(a', b, l + [p])
  {
    hide ParseData;
    assert forall k :: 0 <= k < |l| ==> (l + [p])[k] == l[k];
  }

  /** What a step sends: nothing, or one packet. */
  ghost function SentBy(s: State, step: Step): (ps: seq<Packet>)
    requires Enabled(s, step)
  {
    if s.a.sentClose then []
    else
      match step
      case DoSend(i) => [HeldPacket(s.a, i)]
      case DoCloseWrite => [Eof]
      case DoClose => [Close]
      case DoAdjust(n) => [Adjust(n)]
      case DoDeliver => if s.toA[0].Close? then [Close] else []
      case _ => []
  }

  lemma SentByStep(s: State, step: Step)
    requires Enabled(s, step) && EndOK(s.a) && LinkOK(s.b, s.a, s.toA)
    ensures var t, ps := After(s, step), SentBy(s, step);
      && t.toB == s.toB + ps && |ps| <= 1 && (s.a.sentClose ==> ps == [])
      && (ps == [] ==> t.a.sentClose == s.a.sentClose)
      && (ps != [] ==> (t.a.sentClose <==> ps[0].Close?) && !ps[0].Confirm?)
      && (ps != [] && ps[0].Data? ==> GoodData(ps[0].bytes))
  {
    hide Handle, DataPacket, OnStream, LinkOK, GoodData;
    match step
    case DoSend(i) => SentPacket(s.a, i);
    case DoDeliver =>
      FirstGood(s);
      HandleEffect(s.a, s.toA[0]);
    case _ =>
  }

  lemma StepLinkAsReceiver(s: State, step: Step)
    requires Enabled(s, step) && EndOK(s.a) && LinkOK(s.b, s.a, s.toA)
    ensures var t := After(s, step); LinkOK(t.b, t.a, t.toA)
  {
    hide ParseData, JointAccount, StreamKept, MarkOK, OnStream, Held, InFlight, Granted;
    if step.DoDeliver? {
      var l := s.toA[1..];
      assert forall k :: 0 <= k < |l| ==> l[k] == s.toA[k + 1];
    }
  }

  // ----- The end-of-file marks ----------------------------------------------

  lemma SentGrows(s: State, step: Step, code: nat)
    requires Enabled(s, step) && EndOK(s.a) && LinkOK(s.b, s.a, s.toA)
    ensures |OnStream(After(s, step).a.sent, code)| >= |OnStream(s.a.sent, code)|
  {
    hide ParseData, OnStream, Held, Handle, DataPacket, LinkOK;
    var e := s.a;
    match step
    case DoSend(i) => OnStreamAppend(e.sent, SentChunk(e, i), code);
    case DoDeliver =>
      FirstGood(s);
      HandleEffect(e, s.toA[0]);
    case _ =>
  }

  /** What happens to the sender's mark in one step. */
  lemma MarkEffect(s: State, step: Step)
    requires Enabled(s, step) && EndOK(s.a)
    ensures var t, ps := After(s, step), SentBy(s, step);
      && (t.a.eofMark == s.a.eofMark || (s.a.eofMark.None? && t.a.eofMark == Mark(s.a) && t.a.sent == s.a.sent))
      && (ps != [] && (ps[0].Eof? || ps[0].Close?) ==> t.a.eofMark == Mark(s.a) && t.a.sent == s.a.sent)
  {
    hide ParseData, DataPacket, CallsOK, OnStream, Handle;
    if step.DoDeliver? {
      HandleMark(s.a, s.toA[0]);
    }
  }

  lemma HandleMark(e: End, p: Packet)
    requires EndOK(e) && Handle(e, p).Done?
    ensures var e' := Handle(e, p).value.0;
      && e'.sent == e.sent
      && e'.eofMark == if p.Close? && !e.sentClose then Mark(e) else e.eofMark
  {
    hide ParseData, CallsOK, OnStream, Mark;
  }

  lemma StepMarkAsSender(s: State, step: Step, code: nat)
    requires Enabled(s, step) && code < 2 && EndOK(s.a) && EndOK(s.b) && EndOK(After(s, step).a)
    requires MarkOK(s.a, s.b, s.toB, code) && StreamKept(s.a, s.b, s.toB, code) && LinkOK(s.b, s.a, s.toA)
    ensures var t := After(s, step); MarkOK(t.a, t.b, t.toB, code)
  {
    hide EndOK, LinkOK, MarkOK, StreamKept, Mark, After, SentBy;
    var t := After(s, step);
    SentGrows(s, step, code);
    SentByStep(s, step);
    MarkEffect(s, step);
    PeerUntouched(s, step);
    MarkAppended(s.a, t.a, s.b, s.toB, SentBy(s, step), code);
  }

  lemma MarkAppended(a: End, a': End, b: End, l: Link, ps: seq<Packet>, code: nat)
    requires code < 2 && EndOK(a) && EndOK(a') && EndOK(b) && |ps| <= 1
    requires MarkOK(a, b, l, code) && StreamKept(a, b, l, code)
    requires |OnStream(a'.sent, code)| >= |OnStream(a.sent, code)|
    requires a'.eofMark == a.eofMark || (a.eofMark.None? && a'.eofMark == Mark(a) && a'.sent == a.sent)
    requires ps != [] && (ps[0].Eof? || ps[0].Close?) ==> a'.eofMark == Mark(a) && a'.sent == a.sent
    ensures MarkOK(a', b, l + ps, code)
  {
    hide OnStream, Carried, CallsOK;
    var l' := l + ps;
    forall k | 0 <= k < |l'| && (l'[k].Eof? || l'[k].Close?)
      ensures a'.eofMark.Some?
      ensures a'.eofMark.value[code] <= |b.got[code]| + |b.pending[code].bytes| + |Carried(l'[..k], code)|
    {
      if k < |l| {
        assert l'[..k] == l[..k] && l'[k] == l[k];
      } else {
        assert l'[..k] == l && l'[k] == ps[0];
      }
    }
  }

  lemma StepMarkAsReceiver(s: State, step: Step, code: nat)
    requires Enabled(s, step) && code < 2 && EndOK(s.a) && EndOK(s.b) && EndOK(After(s, step).a)
    requires MarkOK(s.b, s.a, s.toA, code) && LinkOK(s.b, s.a, s.toA)
    ensures var t := After(s, step); MarkOK(t.b, t.a, t.toA, code)
  {
    hide ParseData, OnStream, Carried, HandleData, DataPacket, CallsOK;
    if step.DoDeliver? {
      DeliverMark(s, code);
    }
  }

  lemma DeliverMark(s: State, code: nat)
    requires Enabled(s, DoDeliver) && code < 2 && EndOK(s.a) && EndOK(s.b)
    requires EndOK(After(s, DoDeliver).a)
    requires MarkOK(s.b, s.a, s.toA, code) && LinkOK(s.b, s.a, s.toA)
    ensures var t := After(s, DoDeliver); MarkOK(t.b, t.a, t.toA, code)
  {
    hide ParseData, OnStream, Carried, CallsOK, HandleData;
    var t := After(s, DoDeliver);
    FirstGood(s);
    HandleEffect(s.a, s.toA[0]);
    CarriedNothing(code);
    assert s.toA[..0] == [];
    assert t.a.pending[code].closed ==> s.a.pending[code].closed || s.toA[0].Eof? || s.toA[0].Close? by {
      QueuesClose(s.a, s.toA[0], code);
    }
    forall k | 0 <= k < |t.toA| && (t.toA[k].Eof? || t.toA[k].Close?)
      ensures s.b.eofMark.Some?
      ensures s.b.eofMark.value[code] <=
              |t.a.got[code]| + |t.a.pending[code].bytes| + |Carried(t.toA[..k], code)|
    {
      assert t.toA[k] == s.toA[k + 1];
      LinkPop(s.toA[..k + 1]);
      assert s.toA[..k + 1][1..] == t.toA[..k];
    }
  }

  lemma CarriedNothing(code: nat)
    ensures Carried([], code) == []
  {
  }

  lemma QueuesClose(e: End, p: Packet, code: nat)
    requires EndOK(e) && Handle(e, p).Done? && code < 2
    ensures var (e', _) := Handle(e, p).value;
      |e'.pending| == 2 && (e'.pending[code].closed ==> e.pending[code].closed || p.Eof? || p.Close?)
  {
    hide ParseData, CallsOK;
  }

  // ----- Every run ----------------------------------------------------------

  lemma StepKeepsInv(s: State, step: Step)
    requires Inv(s) && Enabled(s, step)
    ensures Inv(After(s, step))
  {
    hide EndOK, After, ReceiverAccount, JointAccount, StreamKept, LinkOK, MarkOK, Enabled;
    StepEnd(s, step);
    StepReceiverAccount(s, step);
    StepJointAsSender(s, step);
    StepJointAsReceiver(s, step);
    StepLinkAsSender(s, step);
    StepLinkAsReceiver(s, step);
    StepStreamAsSender(s, step, 0);
    StepStreamAsSender(s, step, 1);
    StepStreamAsReceiver(s, step, 0);
    StepStreamAsReceiver(s, step, 1);
    StepMarkAsSender(s, step, 0);
    StepMarkAsSender(s, step, 1);
    StepMarkAsReceiver(s, step, 0);
    StepMarkAsReceiver(s, step, 1);
    PeerUntouched(s, step);
  }

  lemma PeerUntouched(s: State, step: Step)
    requires Enabled(s, step)
    ensures After(s, step).b == s.b
  {
    hide Handle;
  }

  lemma InvSwap(s: State)
    requires Inv(s)
    ensures Inv(Swap(s))
  {
    hide EndOK, Direction;
  }

  lemma NextKeepsInv(s: State, s': State)
    requires Inv(s) && Next(s, s')
    ensures Inv(s')
  {
    hide Inv, Enabled, After;
    if exists step :: Enabled(s, step) && s' == After(s, step) {
      var step :| Enabled(s, step) && s' == After(s, step);
      StepKeepsInv(s, step);
    } else {
      var step :| Enabled(Swap(s), step) && s' == Swap(After(Swap(s), step));
      InvSwap(s);
      StepKeepsInv(Swap(s), step);
      InvSwap(After(Swap(s), step));
    }
  }

  lemma {:induction false} RunKeepsInv(run: seq<State>, k: nat)
    requires IsRun(run) && k < |run|
    ensures Inv(run[k])
  {
    hide Inv, Next, Init;
    if k == 0 {
      InitInv(run[0]);
    } else {
      RunKeepsInv(run, k - 1);
      assert Next(run[k - 1], run[k - 1 + 1]);
      NextKeepsInv(run[k - 1], run[k]);
    }
  }

  // ----- What it is all for -------------------------------------------------

  /**
   * No packet an endpoint receives is ever refused: neither "remote side wrote
   * too much", nor a payload that is too large or of the wrong length, nor a
   * window that overflows, nor a second confirmation, nor a packet for a channel
   * already removed. This holds even after one side or both have closed.
   */
  lemma NoPacketIsRefused(run: seq<State>, k: nat)
    requires IsRun(run) && k < |run|
    ensures |run[k].a.pending| == 2 && |run[k].b.pending| == 2
    ensures |run[k].toA| > 0 ==> Handle(run[k].a, run[k].toA[0]).Done?
    ensures |run[k].toB| > 0 ==> Handle(run[k].b, run[k].toB[0]).Done?
  {
    hide Handle, IsRun;
    RunKeepsInv(run, k);
    if |run[k].toA| > 0 {
      DeliverySucceeds(run[k]);
    }
    if |run[k].toB| > 0 {
      InvSwap(run[k]);
      DeliverySucceeds(Swap(run[k]));
    }
  }

  /** Until a close is sent, every byte of the window is accounted for, in each direction. */
  lemma CreditIsConserved(run: seq<State>, k: nat)
    requires IsRun(run) && k < |run| && !run[k].a.sentClose && !run[k].b.sentClose
    ensures var s := run[k];
      && |s.a.pending| == 2 && |s.b.pending| == 2
      && s.a.remoteWin + Held(s.a.calls) + InFlight(s.toB)
         + Unread(s.b) + s.b.discarded + s.b.owed + s.b.credited + Granted(s.toA) == CHANNEL_WINDOW_SIZE
      && s.b.remoteWin + Held(s.b.calls) + InFlight(s.toA)
         + Unread(s.a) + s.a.discarded + s.a.owed + s.a.credited + Granted(s.toB) == CHANNEL_WINDOW_SIZE
  {
    hide IsRun;
    RunKeepsInv(run, k);
  }

  /** Nothing from snd to rcv is on its way, unread, or read and not yet acknowledged. */
  ghost predicate Quiet(s: State, snd: End, rcv: End)
  {
    && s.toA == [] && s.toB == [] && Held(snd.calls) == 0
    && |rcv.pending| == 2 && Unread(rcv) == 0 && rcv.owed == 0 && rcv.credited == 0
  }

  /**
   * Once all that was sent is read and acknowledged, the sender has its whole
   * window again, less what it sent on streams that are discarded: that part of
   * the window never comes back.
   */
  lemma QuietWindowIsWhole(run: seq<State>, k: nat)
    requires IsRun(run) && k < |run| && !run[k].a.sentClose && !run[k].b.sentClose
    ensures var s := run[k];
      && (Quiet(s, s.a, s.b) ==> s.a.remoteWin == CHANNEL_WINDOW_SIZE - s.b.discarded)
      && (Quiet(s, s.b, s.a) ==> s.b.remoteWin == CHANNEL_WINDOW_SIZE - s.a.discarded)
  {
    hide IsRun;
    CreditIsConserved(run, k);
    assert InFlight([]) == 0 && Granted([]) == 0;
  }

  /**
   * What was read from a stream is a prefix of what the other end put on the wire
   * for it, however many calls wrote it.
   */
  lemma ReadsAreAPrefix(run: seq<State>, k: nat, code: nat)
    requires IsRun(run) && k < |run| && code < 2
    ensures |run[k].a.got| == 2 && run[k].a.got[code] <= OnStream(run[k].b.sent, code)
    ensures |run[k].b.got| == 2 && run[k].b.got[code] <= OnStream(run[k].a.sent, code)
  {
    hide IsRun;
    RunKeepsInv(run, k);
  }

  /** A reader of the stream at rcv that is told of its end has read all sent before the end was signalled. */
  ghost predicate EofComesLast(snd: End, rcv: End, code: nat)
  {
    |rcv.pending| == 2 && code < 2 && rcv.pending[code] == Queue([], true) ==>
      && snd.eofMark.Some? && |snd.eofMark.value| == 2 && |rcv.got| == 2
      && snd.eofMark.value[code] <= |rcv.got[code]|
      && (snd.eofMark.value[code] == |OnStream(snd.sent, code)| ==> rcv.got[code] == OnStream(snd.sent, code))
  }

  /**
   * A read can report end of file only when all that the other end had sent on
   * the stream before it signalled the end, by CloseWrite or Close, was read.
   */
  lemma EofOnlyAfterEverything(run: seq<State>, k: nat, code: nat)
    requires IsRun(run) && k < |run| && code < 2
    ensures EofComesLast(run[k].a, run[k].b, code) && EofComesLast(run[k].b, run[k].a, code)
  {
    hide IsRun, JointAccount, LinkOK;
    RunKeepsInv(run, k);
    EofLast(run[k], code);
    EofLast(Swap(run[k]), code);
  }

  lemma EofLast(s: State, code: nat)
    requires Inv(s) && code < 2
    ensures EofComesLast(s.a, s.b, code)
  {
    hide JointAccount, LinkOK, OnStream, Carried;
  }

  // ----- Long writes --------------------------------------------------------

  /** A reservation makes progress exactly when what is left is no multiple of 2^32. */
  lemma ReserveProgress(e: End, i: nat)
    requires i < |e.calls| && e.calls[i].n < |e.calls[i].data|
    requires !e.winClosed && e.remoteWin > 0 && e.maxRemotePayload > 0
    ensures Hold(Reserve(e, i).calls[i]) > 0 <==> (|e.calls[i].data| - e.calls[i].n) % U32_LIMIT != 0
  {
  }

  /** Of a call for 2^32 bytes or more, at least 2^32 are still neither sent nor reserved. */
  ghost predicate FarFromDone(c: WriteCall)
  {
    |c.data| >= U32_LIMIT ==> |c.data| - c.n - Hold(c) >= U32_LIMIT
  }

  ghost predicate LongCalls(e: End)
  {
    forall i :: 0 <= i < |e.calls| ==> FarFromDone(e.calls[i])
  }

  lemma StepLongCalls(s: State, step: Step)
    requires Enabled(s, step) && EndOK(s.a) && LinkOK(s.b, s.a, s.toA) && LongCalls(s.a)
    ensures LongCalls(After(s, step).a)
  {
    hide Handle, DataPacket, LinkOK;
    if step.DoDeliver? {
      FirstGood(s);
      HandleEffect(s.a, s.toA[0]);
    }
  }

  lemma {:induction false} RunLongCalls(run: seq<State>, k: nat)
    requires IsRun(run) && k < |run|
    ensures LongCalls(run[k].a) && LongCalls(run[k].b)
  {
    hide Enabled, After, EndOK, LinkOK, LongCalls;
    if k == 0 {
      assert LongCalls(run[0].a) && LongCalls(run[0].b) by { NoCallsYet(run[0]); }
    } else {
      RunLongCalls(run, k - 1);
      RunKeepsInv(run, k - 1);
      var s, s' := run[k - 1], run[k - 1 + 1];
      assert Next(s, s');
      if exists step :: Enabled(s, step) && s' == After(s, step) {
        var step :| Enabled(s, step) && s' == After(s, step);
        StepLongCalls(s, step);
        PeerUntouched(s, step);
      } else {
        var step :| Enabled(Swap(s), step) && s' == Swap(After(Swap(s), step));
        StepLongCalls(Swap(s), step);
        PeerUntouched(Swap(s), step);
      }
    }
  }

  lemma NoCallsYet(s: State)
    requires Init(s)
    ensures LongCalls(s.a) && LongCalls(s.b)
  {
  }

  /** A call for 2^32 bytes or more never sends all of them: it ends up writing empty packets. */
  lemma LongWriteNeverEnds(run: seq<State>, k: nat)
    requires IsRun(run) && k < |run|
    ensures NoneEnds(run[k].a.calls) && NoneEnds(run[k].b.calls)
  {
    RunLongCalls(run, k);
  }

  ghost predicate NoneEnds(calls: seq<WriteCall>)
  {
    forall i :: 0 <= i < |calls| && |calls[i].data| >= U32_LIMIT ==> calls[i].n < |calls[i].data|
  }

  /** A shorter call can: each round of it that finds any window sends at least one byte. */
  lemma ShortWriteProgresses(s: State, i: nat)
    requires Inv(s) && Enabled(s, DoReserve(i)) && !s.a.winClosed && s.a.decided
    requires |s.a.calls[i].data| < U32_LIMIT
    ensures Hold(After(s, DoReserve(i)).a.calls[i]) > 0
  {
    ReserveProgress(s.a, i);
  }
}
