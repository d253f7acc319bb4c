/** Runs of a channel that show what its guarantees leave open. */
module SshFlowRuns {
  import opened Bytes
  import opened SshFlow
  import opened SshFlowSafety
  import opened SshWriters

  /** A run in which b, whose channel is confirmed, takes steps before a hears of it. */
  function Start(): (s: State)
  {
    State(NewEnd(false, 0, 0, 0), NewEnd(true, CHANNEL_WINDOW_SIZE, CHANNEL_MAX_PACKET, 0), [],
          [Confirm(0, CHANNEL_WINDOW_SIZE, CHANNEL_MAX_PACKET)])
  }

  lemma Extended(run: seq<State>, step: Step)
    requires IsRun(run) && Enabled(run[|run| - 1], step)
    ensures IsRun(run + [After(run[|run| - 1], step)])
  {
    hide Enabled, After, Init;
    var run' := run + [After(run[|run| - 1], step)];
    forall k | 0 <= k < |run'| - 1
      ensures Next(run'[k], run'[k + 1])
    {
      if k < |run| - 1 {
        assert Next(run[k], run[k + 1]);
      }
    }
  }

  lemma ExtendedByB(run: seq<State>, step: Step)
    requires IsRun(run) && Enabled(Swap(run[|run| - 1]), step)
    ensures IsRun(run + [Swap(After(Swap(run[|run| - 1]), step))])
  {
    hide Enabled, After, Init;
    var run' := run + [Swap(After(Swap(run[|run| - 1]), step))];
    forall k | 0 <= k < |run'| - 1
      ensures Next(run'[k], run'[k + 1])
    {
      if k < |run| - 1 {
        assert Next(run[k], run[k + 1]);
      }
    }
  }

  lemma StartIsRun()
    ensures IsRun([Start()])
  {
    assert Start().toA == [Confirm(0, CHANNEL_WINDOW_SIZE, CHANNEL_MAX_PACKET)];
  }

  /** b may write, and has window for a few bytes. */
  ghost predicate Writable(e: End)
  {
    && e.decided && !e.sentEOF && !e.sentClose && !e.winClosed && e.remoteWin >= 100
    && e.maxRemotePayload == CHANNEL_MAX_PACKET
  }

  /** A call of WriteExtended at b begins. */
  lemma Begun(run: seq<State>, code: nat, data: seq<byte>) returns (run': seq<State>)
    requires IsRun(run) && code < U32_LIMIT && |data| > 0 && Writable(run[|run| - 1].b)
    ensures IsRun(run') && |run'| > 0
    ensures var s := run[|run| - 1];
      run'[|run'| - 1] == s.(b := s.b.(calls := s.b.calls + [WriteCall(code, data, 0, None, true)]))
  {
    ExtendedByB(run, DoStartWrite(code, data));
    run' := run + [Swap(After(Swap(run[|run| - 1]), DoStartWrite(code, data)))];
  }

  /** Call i of b, which has sent nothing yet, sends its few bytes in one packet and ends. */
  lemma Finished(run: seq<State>, i: nat) returns (run': seq<State>)
    requires IsRun(run) && Writable(run[|run| - 1].b) && i < |run[|run| - 1].b.calls|
    requires var c := run[|run| - 1].b.calls[i]; c.active && c.n == 0 && c.hold.None? && 0 < |c.data| < 100
    ensures IsRun(run') && |run'| > 0
    ensures var s := run[|run| - 1];
      var c := s.b.calls[i];
      run'[|run'| - 1] ==
      s.(toA := s.toA + [Data(DataPacket(s.b.remoteId, c.code, c.data))],
         b := s.b.(remoteWin := s.b.remoteWin - |c.data|,
                   calls := s.b.calls[i := c.(n := |c.data|, active := false)],
                   sent := s.b.sent + [Chunk(i, c.code, c.data)]))
  {
    assert |run| > 0;
    hide DataPacket, IsRun;
    var s0 := run[|run| - 1];
    var c := s0.b.calls[i];
    ExtendedByB(run, DoReserve(i));
    var s1 := Swap(After(Swap(s0), DoReserve(i)));
    var run1 := run + [s1];
    assert s1.b.calls[i] == c.(hold := Some(|c.data|));
    ExtendedByB(run1, DoSend(i));
    run' := run1 + [Swap(After(Swap(s1), DoSend(i)))];
    assert c.data[0..|c.data|] == c.data;
    assert s1.b.calls[i := c.(n := |c.data|, active := false)] == s0.b.calls[i := c.(n := |c.data|, active := false)];
  }

  /** a takes in the confirmation. */
  lemma Confirmed(run: seq<State>) returns (run': seq<State>)
    requires IsRun(run) && run[|run| - 1].a == NewEnd(false, 0, 0, 0) && |run[|run| - 1].toA| > 0
    requires run[|run| - 1].toA[0] == Confirm(0, CHANNEL_WINDOW_SIZE, CHANNEL_MAX_PACKET)
    ensures IsRun(run') && |run'| > 0
    ensures var s, t := run[|run| - 1], run'[|run'| - 1];
      t == State(NewEnd(true, CHANNEL_WINDOW_SIZE, CHANNEL_MAX_PACKET, 0), s.b, s.toB, s.toA[1..])
  {
    assert |run| > 0;
    hide IsRun;
    Extended(run, DoDeliver);
    run' := run + [After(run[|run| - 1], DoDeliver)];
  }

  /** a takes in one data packet. */
  lemma Received(run: seq<State>, code: nat, data: seq<byte>) returns (run': seq<State>)
    requires IsRun(run) && code < U32_LIMIT && 0 < |data| < 100 && |run[|run| - 1].toA| > 0
    requires run[|run| - 1].a == NewEnd(true, CHANNEL_WINDOW_SIZE, CHANNEL_MAX_PACKET, 0)
    requires run[|run| - 1].toA[0] == Data(DataPacket(0, code, data))
    ensures IsRun(run') && |run'| > 0
    ensures var s, t := run[|run| - 1], run'[|run'| - 1];
      && t.b == s.b && t.toB == s.toB && t.toA == s.toA[1..]
      && t.a == if code >= 2
                then s.a.(myWindow := s.a.myWindow - |data|, discarded := |data|)
                else s.a.(myWindow := s.a.myWindow - |data|,
                          pending := s.a.pending[code := Queue(data, false)])
  {
    assert |run| > 0;
    hide DataPacket, IsRun, ParseData;
    DataPacketParses(0, code, data);
    assert [] + data == data;
    Extended(run, DoDeliver);
    run' := run + [After(run[|run| - 1], DoDeliver)];
  }

  /**
   * A byte written on a stream nobody can read: when the channel is quiet again, the
   * window is one byte smaller than it was.
   */
  lemma WindowIsLost() returns (run: seq<State>)
    ensures IsRun(run) && |run| > 0
    ensures var s := run[|run| - 1];
      && !s.a.sentClose && !s.b.sentClose && Quiet(s, s.b, s.a)
      && s.a.discarded == 1 && s.b.remoteWin == CHANNEL_WINDOW_SIZE - 1
  {
    hide DataPacket, IsRun, Enabled, After;
    StartIsRun();
    run := Begun([Start()], 2, [7]);
    run := Finished(run, 0);
    var toA := run[|run| - 1].toA;
    run := Confirmed(run);
    assert toA[1..] == [Data(DataPacket(0, 2, [7]))];
    run := Received(run, 2, [7]);
    assert toA[1..][1..] == [];
    HeldAppend([], WriteCall(2, [7], 1, None, false));
    assert run[|run| - 1].b.calls == [] + [WriteCall(2, [7], 1, None, false)];
  }

  /** a reads the one byte it has. */
  lemma HandedOver(run: seq<State>, data: seq<byte>) returns (run': seq<State>)
    requires IsRun(run) && |data| == 1
    requires var e := run[|run| - 1].a;
      e.decided && |e.pending| == 2 && |e.got| == 2 && e.got[0] == [] && e.pending[0].bytes == data
    ensures IsRun(run') && |run'| > 0
    ensures var s, t := run[|run| - 1], run'[|run'| - 1];
      t.b == s.b && |t.a.got| == 2 && t.a.got[0] == data
  {
    Extended(run, DoRead(0, 1));
    run' := run + [After(run[|run| - 1], DoRead(0, 1))];
    assert [] + data[..1] == data;
  }

  /** What two calls for a byte each have written, one after the other. */
  lemma TwoCalls()
    ensures Sent([WriteCall(0, [1], 1, None, false), WriteCall(0, [2], 1, None, false)], 0) == [1, 2]
  {
    var calls := [WriteCall(0, [1], 1, None, false), WriteCall(0, [2], 1, None, false)];
    assert calls[..1] == [calls[0]] && calls[..1][..0] == [];
    assert Sent(calls[..1], 0) == [1];
  }

  /**
   * Two calls on one stream at a time: the one that began later overtakes the other,
   * and what is read is no prefix of the two written one after the other.
   */
  lemma OverlappingWritesMix() returns (run: seq<State>)
    ensures IsRun(run) && |run| > 0
    ensures var s := run[|run| - 1];
      && Sent(s.b.calls, 0) == [1, 2] && |s.a.got| == 2 && s.a.got[0] == [2]
      && !(s.a.got[0] <= Sent(s.b.calls, 0))
  {
    hide DataPacket, IsRun, Sent;
    StartIsRun();
    run := Begun([Start()], 0, [1]);
    run := Begun(run, 0, [2]);
    run := Finished(run, 1);
    run := Finished(run, 0);
    var toA := run[|run| - 1].toA;
    assert run[|run| - 1].b.calls == [WriteCall(0, [1], 1, None, false), WriteCall(0, [2], 1, None, false)];
    run := Confirmed(run);
    assert toA[1] == Data(DataPacket(0, 0, [2]));
    run := Received(run, 0, [2]);
    run := HandedOver(run, [2]);
    TwoCalls();
    assert [2][0] != [1, 2][0];
  }
}
