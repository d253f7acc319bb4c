/**
 * Several writers on one channel: the packets of concurrent calls interleave on
 * the wire, but each call keeps its own order, and calls that do not overlap come
 * out one after the other.
 */
module SshWriters {
  import opened Bytes
  import opened SshFlow
  import opened SshFlowSafety

  // ----- Each call by itself ------------------------------------------------

  /** What one call put on the wire. */
  function OfCall(sent: seq<Chunk>, i: nat): (s: seq<byte>)
  {
    if |sent| == 0 then []
    else
      var last := sent[|sent| - 1];
      OfCall(sent[..|sent| - 1], i) + if last.call == i then last.bytes else []
  }

  /** The record is that of the calls: each put the first n bytes of its data on the wire. */
  ghost predicate LogOK(e: End)
  {
    && (forall i: nat :: i < |e.calls| ==>
          e.calls[i].n <= |e.calls[i].data| && OfCall(e.sent, i) == e.calls[i].data[..e.calls[i].n])
    && ChunksOK(e.sent, e.calls)
  }

  ghost predicate ChunksOK(sent: seq<Chunk>, calls: seq<WriteCall>)
  {
    forall j :: 0 <= j < |sent| ==> sent[j].call < |calls| && sent[j].code == calls[sent[j].call].code
  }

  lemma OfCallAppend(sent: seq<Chunk>, c: Chunk, i: nat)
    ensures OfCall(sent + [c], i) == OfCall(sent, i) + if c.call == i then c.bytes else []
  {
    assert (sent + [c])[..|sent|] == sent;
  }

  lemma {:induction false} OfCallNone(sent: seq<Chunk>, i: nat)
    requires forall j :: 0 <= j < |sent| ==> sent[j].call != i
    ensures OfCall(sent, i) == []
  {
    if |sent| > 0 {
      OfCallNone(sent[..|sent| - 1], i);
    }
  }

  lemma StepLog(s: State, step: Step)
    requires Enabled(s, step) && EndOK(s.a) && LinkOK(s.b, s.a, s.toA) && LogOK(s.a)
    ensures LogOK(After(s, step).a)
  {
    hide Handle, DataPacket, LinkOK, OfCall;
    var e := s.a;
    match step
    case DoStartWrite(code, data) => OfCallNone(e.sent, |e.calls|);
    case DoSend(i) => SendLog(e, i);
    case DoDeliver =>
      FirstGood(s);
      HandleEffect(e, s.toA[0]);
    case _ =>
  }

  lemma SendLog(e: End, i: nat)
    requires i < |e.calls| && e.calls[i].hold.Some? && CallOK(e.calls[i]) && LogOK(e)
    ensures LogOK(AfterWrite(e, i))
  {
    hide OfCall;
    var e' := AfterWrite(e, i);
    if !e.sentClose {
      var c := e.calls[i];
      assert c.data[..c.n] + c.data[c.n..c.n + c.hold.value] == c.data[..c.n + c.hold.value];
      forall k: nat | k < |e.calls|
        ensures OfCall(e'.sent, k) == e'.calls[k].data[..e'.calls[k].n]
      {
        OfCallAppend(e.sent, SentChunk(e, i), k);
      }
    }
  }

  // ----- Calls that do not overlap ------------------------------------------

  /** All that a list of calls put on the wire for one stream, one call after the other. */
  function Sent(calls: seq<WriteCall>, code: nat): (s: seq<byte>)
  {
    if |calls| == 0 then []
    else
      var last := calls[|calls| - 1];
      Sent(calls[..|calls| - 1], code)
      + if last.code == code && last.n <= |last.data| then last.data[..last.n] else []
  }

  /** No packet of a stream comes after one of a later call. */
  ghost predicate InOrder(sent: seq<Chunk>, code: nat)
  {
    forall i, j :: 0 <= i < j < |sent| && sent[i].code == code && sent[j].code == code ==>
      sent[i].call <= sent[j].call
  }

  /** What the first k calls put on the wire for one stream, in the order of the wire. */
  function Upto(sent: seq<Chunk>, code: nat, k: nat): (s: seq<byte>)
  {
    if |sent| == 0 then []
    else
      var last := sent[|sent| - 1];
      Upto(sent[..|sent| - 1], code, k) + if last.code == code && last.call < k then last.bytes else []
  }

  lemma UptoAppend(sent: seq<Chunk>, c: Chunk, code: nat, k: nat)
    ensures Upto(sent + [c], code, k) == Upto(sent, code, k) + if c.code == code && c.call < k then c.bytes else []
  {
    assert (sent + [c])[..|sent|] == sent;
  }

  lemma {:induction false} UptoNext(sent: seq<Chunk>, calls: seq<WriteCall>, code: nat, k: nat)
    requires ChunksOK(sent, calls) && InOrder(sent, code) && k < |calls|
    ensures Upto(sent, code, k + 1) == Upto(sent, code, k) + if calls[k].code == code then OfCall(sent, k) else []
  {
    if |sent| > 0 {
      hide Upto, OfCall, ChunksOK, InOrder;
      var front, last := sent[..|sent| - 1], sent[|sent| - 1];
      FrontOK(sent, calls, code);
      UptoNext(front, calls, code, k);
      assert sent == front + [last];
      UptoAppend(front, last, code, k);
      UptoAppend(front, last, code, k + 1);
      OfCallAppend(front, last, k);
      var before, own := Upto(front, code, k), if calls[k].code == code then OfCall(front, k) else [];
      if last.code != code || last.call > k {
        assert Upto(sent, code, k + 1) == Upto(front, code, k + 1) && Upto(sent, code, k) == before;
      } else if last.call == k {
        assert Upto(sent, code, k + 1) == before + own + last.bytes;
        assert before + own + last.bytes == before + (own + last.bytes);
      } else if calls[k].code == code {
        NoLater(sent, calls, code, k);
        OfCallNone(front, k);
        assert own == [] && before + own == before;
      } else {
        assert before + own == before;
      }
    }
  }

  lemma FrontOK(sent: seq<Chunk>, calls: seq<WriteCall>, code: nat)
    requires ChunksOK(sent, calls) && InOrder(sent, code) && |sent| > 0
    ensures ChunksOK(sent[..|sent| - 1], calls) && InOrder(sent[..|sent| - 1], code)
    ensures var last := sent[|sent| - 1]; last.call < |calls| && last.code == calls[last.call].code
  {
  }

  /** Before a packet of an earlier call there is none of call k. */
  lemma NoLater(sent: seq<Chunk>, calls: seq<WriteCall>, code: nat, k: nat)
    requires ChunksOK(sent, calls) && InOrder(sent, code) && k < |calls| && calls[k].code == code
    requires |sent| > 0 && sent[|sent| - 1].code == code && sent[|sent| - 1].call < k
    ensures forall j :: 0 <= j < |sent| - 1 ==> sent[j].call != k
  {
  }

  lemma {:induction false} UptoAll(sent: seq<Chunk>, code: nat, k: nat)
    requires forall j :: 0 <= j < |sent| ==> sent[j].call < k
    ensures Upto(sent, code, k) == OnStream(sent, code)
  {
    if |sent| > 0 {
      UptoAll(sent[..|sent| - 1], code, k);
    }
  }

  lemma {:induction false} UptoNone(sent: seq<Chunk>, code: nat)
    ensures Upto(sent, code, 0) == []
  {
    if |sent| > 0 {
      UptoNone(sent[..|sent| - 1], code);
    }
  }

  lemma {:induction false} UptoIsSent(e: End, code: nat, k: nat)
    requires LogOK(e) && InOrder(e.sent, code) && k <= |e.calls|
    ensures Upto(e.sent, code, k) == Sent(e.calls[..k], code)
  {
    hide Upto, OfCall;
    if k == 0 {
      UptoNone(e.sent, code);
    } else {
      UptoIsSent(e, code, k - 1);
      UptoNext(e.sent, e.calls, code, k - 1);
      assert e.calls[..k][..k - 1] == e.calls[..k - 1];
    }
  }

  lemma StreamIsSent(e: End, code: nat)
    requires LogOK(e) && InOrder(e.sent, code)
    ensures OnStream(e.sent, code) == Sent(e.calls, code)
  {
    hide Upto, OfCall, Sent, OnStream;
    UptoIsSent(e, code, |e.calls|);
    assert e.calls[..|e.calls|] == e.calls;
    UptoAll(e.sent, code, |e.calls|);
  }

  /** Not two calls at work on one stream. */
  ghost predicate OneWriter(e: End, code: nat)
  {
    forall i, j :: 0 <= i < j < |e.calls| && e.calls[i].code == code && e.calls[j].code == code ==>
      !(e.calls[i].active && e.calls[j].active)
  }

  /** A call that another has followed on its stream is over. */
  ghost predicate OrderOK(e: End, code: nat)
  {
    && InOrder(e.sent, code)
    && forall i, j :: 0 <= i < j < |e.calls| && e.calls[i].code == code && e.calls[j].code == code ==>
         !e.calls[i].active
  }

  lemma StepOrder(s: State, step: Step, code: nat)
    requires Enabled(s, step) && EndOK(s.a) && LinkOK(s.b, s.a, s.toA) && LogOK(s.a)
    requires OrderOK(s.a, code) && OneWriter(After(s, step).a, code)
    ensures OrderOK(After(s, step).a, code)
  {
    hide Handle, DataPacket, LinkOK, OfCall;
    if step.DoDeliver? {
      FirstGood(s);
      HandleEffect(s.a, s.toA[0]);
    }
  }

  // ----- Every run ----------------------------------------------------------

  /** Of each stream, both ends have at most one writer at any time. */
  ghost predicate Sequential(run: seq<State>, code: nat)
  {
    forall k :: 0 <= k < |run| ==> OneWriter(run[k].a, code) && OneWriter(run[k].b, code)
  }

  lemma NothingSent(s: State, code: nat)
    requires Init(s)
    ensures LogOK(s.a) && LogOK(s.b) && OrderOK(s.a, code) && OrderOK(s.b, code)
  {
  }

  lemma {:induction false} RunKeepsLog(run: seq<State>, k: nat)
    requires IsRun(run) && k < |run|
    ensures LogOK(run[k].a) && LogOK(run[k].b)
  {
    hide Enabled, After, EndOK, LinkOK, LogOK;
    if k == 0 {
      NothingSent(run[0], 0);
    } else {
      RunKeepsLog(run, k - 1);
      RunKeepsInv(run, k - 1);
      var s, s' := run[k - 1], run[k - 1 + 1];
      assert Next(s, s');
      if exists step :: Enabled(s, step) && s' == After(s, step) {
        var step :| Enabled(s, step) && s' == After(s, step);
        StepLog(s, step);
        PeerUntouched(s, step);
      } else {
        var step :| Enabled(Swap(s), step) && s' == Swap(After(Swap(s), step));
        StepLog(Swap(s), step);
        PeerUntouched(Swap(s), step);
      }
    }
  }

  lemma {:induction false} RunKeepsOrder(run: seq<State>, k: nat, code: nat)
    requires IsRun(run) && Sequential(run, code) && k < |run|
    ensures OrderOK(run[k].a, code) && OrderOK(run[k].b, code)
  {
    hide Next, Inv, LogOK, OrderOK, OneWriter;
    if k == 0 {
      NothingSent(run[0], code);
    } else {
      RunKeepsOrder(run, k - 1, code);
      RunKeepsInv(run, k - 1);
      RunKeepsLog(run, k - 1);
      assert Next(run[k - 1], run[k - 1 + 1]);
      NextKeepsOrder(run[k - 1], run[k], code);
    }
  }

  lemma NextKeepsOrder(s: State, s': State, code: nat)
    requires Next(s, s') && Inv(s) && LogOK(s.a) && LogOK(s.b) && OrderOK(s.a, code) && OrderOK(s.b, code)
    requires OneWriter(s'.a, code) && OneWriter(s'.b, code)
    ensures OrderOK(s'.a, code) && OrderOK(s'.b, code)
  {
    hide Enabled, After, EndOK, LinkOK, LogOK, OrderOK, OneWriter, ReceiverAccount, JointAccount, StreamKept, MarkOK;
    if exists step :: Enabled(s, step) && s' == After(s, step) {
      var step :| Enabled(s, step) && s' == After(s, step);
      StepOrder(s, step, code);
      PeerUntouched(s, step);
    } else {
      var step :| Enabled(Swap(s), step) && s' == Swap(After(Swap(s), step));
      StepOrder(Swap(s), step, code);
      PeerUntouched(Swap(s), step);
    }
  }

  /**
   * However many writers interleave, the packets of each call carry, in their order,
   * exactly the bytes it has written so far.
   */
  lemma EachCallInOrder(run: seq<State>, k: nat, i: nat)
    requires IsRun(run) && k < |run| && i < |run[k].a.calls|
    ensures var c := run[k].a.calls[i]; c.n <= |c.data| && OfCall(run[k].a.sent, i) == c.data[..c.n]
  {
    RunKeepsLog(run, k);
  }

  /**
   * With one writer at a time, what was read from a stream at one end is a prefix of
   * what was passed to WriteExtended at the other, call after call.
   */
  lemma ReadsFollowWrites(run: seq<State>, k: nat, code: nat)
    requires IsRun(run) && Sequential(run, code) && k < |run| && code < 2
    ensures |run[k].a.got| == 2 && run[k].a.got[code] <= Sent(run[k].b.calls, code)
    ensures |run[k].b.got| == 2 && run[k].b.got[code] <= Sent(run[k].a.calls, code)
  {
    hide IsRun, Sequential, LogOK, Sent, OnStream;
    RunKeepsLog(run, k);
    RunKeepsOrder(run, k, code);
    ReadsAreAPrefix(run, k, code);
    StreamIsSent(run[k].a, code);
    StreamIsSent(run[k].b, code);
  }

  // ----- A call that runs by itself -----------------------------------------

  ghost predicate StepOf(s: State, t: State)
  {
    exists step :: Enabled(s, step) && t == After(s, step)
  }

  /** Each state follows from the one before it by a step of endpoint a. */
  ghost predicate IsPath(path: seq<State>)
  {
    |path| > 0 && forall k, j :: 0 <= k < |path| && j == k + 1 < |path| ==> StepOf(path[k], path[j])
  }

  lemma PathExtends(path: seq<State>, step: Step)
    requires IsPath(path) && Enabled(path[|path| - 1], step)
    ensures IsPath(path + [After(path[|path| - 1], step)])
  {
    hide Enabled, After;
    assert StepOf(path[|path| - 1], After(path[|path| - 1], step));
  }

  /** Where the rounds of a call lead is where the state machine can get by reserving and sending. */
  lemma {:induction false} RoundsAreSteps(path: seq<State>, i: nat) returns (path': seq<State>)
    requires IsPath(path)
    requires var e := path[|path| - 1].a;
      && i < |e.calls| && e.calls[i].n <= |e.calls[i].data| < U32_LIMIT && e.maxRemotePayload > 0
      && e.calls[i].hold.None? && (e.calls[i].active ==> e.calls[i].n < |e.calls[i].data|)
    ensures IsPath(path') && path <= path'
    ensures var s := path[|path| - 1];
      path'[|path'| - 1] == s.(a := Rounds(s.a, s.toB, i).0, toB := Rounds(s.a, s.toB, i).1)
    decreases path[|path| - 1].a.calls[i].active,
              |path[|path| - 1].a.calls[i].data| - path[|path| - 1].a.calls[i].n
  {
    assert |path| > 0;
    hide IsPath, Round, Rounds;
    var s := path[|path| - 1];
    RoundsUnfold(s.a, s.toB, i);
    if !s.a.calls[i].active || (s.a.remoteWin == 0 && !s.a.winClosed) {
      path' := path;
    } else {
      RoundSends(s.a, s.toB, i);
      var path1 := RoundIsSteps(path, i);
      path' := RoundsAreSteps(path1, i);
    }
  }

  lemma RoundIsSteps(path: seq<State>, i: nat) returns (path': seq<State>)
    requires IsPath(path)
    requires var e := path[|path| - 1].a;
      && i < |e.calls| && e.calls[i].n < |e.calls[i].data|
      && e.calls[i].hold.None? && e.calls[i].active && (e.remoteWin > 0 || e.winClosed)
    ensures IsPath(path') && path <= path'
    ensures var s := path[|path| - 1];
      path'[|path'| - 1] == s.(a := Round(s.a, s.toB, i).0, toB := Round(s.a, s.toB, i).1)
  {
    assert |path| > 0;
    hide DataPacket, IsPath;
    var s := path[|path| - 1];
    PathExtends(path, DoReserve(i));
    var s1 := After(s, DoReserve(i));
    path' := path + [s1];
    if !s.a.winClosed {
      PathExtends(path', DoSend(i));
      path' := path' + [After(s1, DoSend(i))];
    }
  }

  /** The packets l carry exactly bs, all on one stream, each within the limit. */
  ghost predicate Chunks(l: Link, code: nat, bs: seq<byte>, max: nat)
  {
    && Carried(l, code) == bs && InFlight(l) == |bs|
    && forall i :: 0 <= i < |l| ==> l[i].Data? && |Payload(l[i])| <= max
  }

  lemma ChunksPrepend(remoteId: nat, code: nat, first: seq<byte>, l: Link, bs: seq<byte>, max: nat)
    requires code < U32_LIMIT && |first| < U32_LIMIT && |first| <= max && Chunks(l, code, bs, max)
    ensures Chunks([Data(DataPacket(remoteId, code, first))] + l, code, first + bs, max)
  {
    hide DataPacket, ParseData;
    DataPacketParses(remoteId, code, first);
    assert ([Data(DataPacket(remoteId, code, first))] + l)[1..] == l;
  }

  lemma NoChunks(code: nat, max: nat)
    ensures Chunks([], code, [], max)
  {
  }

  /** The call as it is in e has sent more than in e0, and l is what it put on the wire in between. */
  ghost predicate Progressed(e0: End, e: End, i: nat, l: Link)
    requires i < |e0.calls| && i < |e.calls|
  {
    var c0, c := e0.calls[i], e.calls[i];
    && c.data == c0.data && c0.n <= c.n <= |c.data|
    && Chunks(l, c0.code, c.data[c0.n..c.n], e0.maxRemotePayload)
    && (c.active || c.n == |c.data| ==> e.remoteWin == e0.remoteWin - (c.n - c0.n))
    && (c.active ==> e.remoteWin == 0 && !e.winClosed)
    && (!c.active && c.n < |c.data| ==> e.winClosed || e.sentClose)
  }

  /**
   * The rounds of a call put on the wire, in packets within the peer's limit, exactly
   * the next bytes of its data, and spend as much window; the call ends unless it has
   * to wait, and short of its end only on a closed channel.
   */
  lemma {:induction false} RoundsSend(e: End, out: Link, i: nat)
    requires i < |e.calls| && e.calls[i].n <= |e.calls[i].data| < U32_LIMIT && e.maxRemotePayload > 0
    requires e.calls[i].hold.None? && e.calls[i].code < U32_LIMIT
    requires e.calls[i].active && e.calls[i].n < |e.calls[i].data|
    ensures var (e', out') := Rounds(e, out, i);
      |e'.calls| == |e.calls| && out <= out' && Progressed(e, e', i, out'[|out|..])
    decreases |e.calls[i].data| - e.calls[i].n
  {
    hide DataPacket, Chunks, Round, Rounds, Progressed;
    var c := e.calls[i];
    RoundsUnfold(e, out, i);
    if e.remoteWin == 0 && !e.winClosed {
      NoProgress(e, e, out, i);
    } else {
      RoundSends(e, out, i);
      var (e1, out1) := Round(e, out, i);
      if e.winClosed || e.sentClose {
        RoundsUnfold(e1, out1, i);
        NoProgress(e, e1, out, i);
      } else if e1.calls[i].active {
        RoundsSend(e1, out1, i);
        var (e', out') := Rounds(e1, out1, i);
        assert out'[|out|..] == [out1[|out|]] + out'[|out1|..];
        Compose(e, e1, e', i, out'[|out1|..]);
      } else {
        RoundsUnfold(e1, out1, i);
        NoProgress(e1, e1, out1, i);
        assert out1[|out|..] == [out1[|out|]] + out1[|out1|..];
        Compose(e, e1, e1, i, out1[|out1|..]);
      }
    }
  }

  lemma RoundsUnfold(e: End, out: Link, i: nat)
    requires i < |e.calls| && e.calls[i].n <= |e.calls[i].data| < U32_LIMIT && e.maxRemotePayload > 0
    requires e.calls[i].active ==> e.calls[i].n < |e.calls[i].data|
    ensures !e.calls[i].active || (e.remoteWin == 0 && !e.winClosed) ==> Rounds(e, out, i) == (e, out)
    ensures e.calls[i].active && (e.remoteWin > 0 || e.winClosed) ==>
      var (e1, out1) := Round(e, out, i);
      && i < |e1.calls| && e1.calls[i].n <= |e1.calls[i].data| < U32_LIMIT && e1.maxRemotePayload > 0
      && (e1.calls[i].active ==> e1.calls[i].n < |e1.calls[i].data|)
      && Rounds(e, out, i) == Rounds(e1, out1, i)
  {
    hide HeldPacket, Put;
  }

  /** A call that sent nothing: it waits, or its channel is closed, or it was over. */
  lemma NoProgress(e: End, e': End, out: Link, i: nat)
    requires i < |e.calls| && i < |e'.calls| && e.calls[i].n <= |e.calls[i].data|
    requires e'.calls[i].data == e.calls[i].data && e'.calls[i].n == e.calls[i].n
    requires e'.calls[i].active ==> e'.remoteWin == 0 && !e'.winClosed
    requires e'.calls[i].active || e'.calls[i].n == |e'.calls[i].data| ==> e'.remoteWin == e.remoteWin
    requires !e'.calls[i].active && e'.calls[i].n < |e'.calls[i].data| ==> e'.winClosed || e'.sentClose
    ensures Progressed(e, e', i, out[|out|..])
  {
    hide Chunks;
    NoChunks(e.calls[i].code, e.maxRemotePayload);
    assert out[|out|..] == [] && e.calls[i].data[e.calls[i].n..e.calls[i].n] == [];
  }

  /** A packet, and then what follows it. */
  lemma Compose(e: End, e1: End, e': End, i: nat, l: Link)
    requires i < |e.calls| && i < |e1.calls| && i < |e'.calls| && Progressed(e1, e', i, l)
    requires e1.calls[i].data == e.calls[i].data && e1.calls[i].code == e.calls[i].code < U32_LIMIT
    requires e1.maxRemotePayload == e.maxRemotePayload
    requires e.calls[i].n <= e1.calls[i].n <= |e.calls[i].data| < U32_LIMIT
    requires e1.calls[i].n - e.calls[i].n <= e.maxRemotePayload
    requires e1.remoteWin == e.remoteWin - (e1.calls[i].n - e.calls[i].n)
    ensures var c, n1 := e.calls[i], e1.calls[i].n;
      Progressed(e, e', i, [Data(DataPacket(e.remoteId, c.code, c.data[c.n..n1]))] + l)
  {
    hide Chunks, DataPacket;
    var c, n1, n' := e.calls[i], e1.calls[i].n, e'.calls[i].n;
    ChunksPrepend(e.remoteId, c.code, c.data[c.n..n1], l, c.data[n1..n'], e.maxRemotePayload);
    assert c.data[c.n..n1] + c.data[n1..n'] == c.data[c.n..n'];
  }

  /** One round: one packet, as large as the limit, the data and the window allow, or none on a closed channel. */
  lemma RoundSends(e: End, out: Link, i: nat)
    requires i < |e.calls| && e.calls[i].n < |e.calls[i].data| < U32_LIMIT && e.maxRemotePayload > 0
    requires e.calls[i].hold.None? && (e.remoteWin > 0 || e.winClosed)
    ensures var (e1, out1) := Round(e, out, i);
      var c, c1 := e.calls[i], e1.calls[i];
      && |e1.calls| == |e.calls| && e1.maxRemotePayload == e.maxRemotePayload
      && e1.winClosed == e.winClosed && e1.sentClose == e.sentClose && e1.remoteId == e.remoteId
      && c1.data == c.data && c1.code == c.code && c1.hold.None?
      && (e.winClosed || e.sentClose ==> out1 == out && c1.n == c.n && !c1.active)
      && (!e.winClosed && !e.sentClose ==>
            && c.n < c1.n <= |c.data| && (c1.active <==> c1.n < |c.data|)
            && c1.n - c.n == Min(Min(e.maxRemotePayload, |c.data| - c.n), e.remoteWin)
            && e1.remoteWin == e.remoteWin - (c1.n - c.n)
            && out1 == out + [Data(DataPacket(e.remoteId, c.code, c.data[c.n..c1.n]))])
  {
    hide DataPacket;
  }
}
