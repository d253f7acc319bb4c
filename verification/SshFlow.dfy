/**
 * One open SSH channel between two endpoints: flow control, the two byte
 * streams, end of file and close, as a state machine whose steps are the atomic
 * sections of the channel code. Any number of writers, readers and deliveries
 * interleave; the links between the endpoints are FIFO.
 */
module SshFlow {
  import opened Bytes

  const CHANNEL_MAX_PACKET: nat := 0x8000
  const CHANNEL_WINDOW_SIZE: nat := 64 * CHANNEL_MAX_PACKET
  const MSG_CHANNEL_DATA: byte := 94
  const MSG_CHANNEL_EXTENDED_DATA: byte := 95

  // ----- Data packets -------------------------------------------------------

  /** The packet that carries payload on an extended stream, or on the main one for code 0. */
  function DataPacket(remoteId: nat, code: nat, payload: seq<byte>): (p: seq<byte>)
  {
    (if code > 0 then [MSG_CHANNEL_EXTENDED_DATA] else [MSG_CHANNEL_DATA])
    + ToBE(remoteId, 4)
    + (if code > 0 then ToBE(code, 4) else [])
    + ToBE(|payload|, 4) + payload
  }

  /** What the header of a data packet announces, and what follows it. */
  datatype DataHeader = Malformed | DataHeader(code: nat, length: nat, data: seq<byte>)

  function ParseData(p: seq<byte>): (h: DataHeader)
    requires |p| > 0
  {
    var isExtendedData := p[0] == MSG_CHANNEL_EXTENDED_DATA;
    var headerLen := if isExtendedData then 13 else 9;
    if |p| < headerLen then Malformed
    else DataHeader(
           if isExtendedData then FromBE(p[5..9]) else 0,
           FromBE(p[headerLen - 4..headerLen]),
           p[headerLen..])
  }

  lemma DataPacketParses(remoteId: nat, code: nat, payload: seq<byte>)
    requires code < U32_LIMIT && |payload| < U32_LIMIT
    ensures var p := DataPacket(remoteId, code, payload);
      |p| > 0 && ParseData(p) == DataHeader(code, |payload|, payload)
  {
    hide ToBE, FromBE;
    var p := DataPacket(remoteId, code, payload);
    Pow256Small();
    FromToBE(code, 4);
    FromToBE(|payload|, 4);
    if code > 0 {
      assert p[5..9] == ToBE(code, 4) && p[9..13] == ToBE(|payload|, 4) && p[13..] == payload;
    } else {
      assert p[5..9] == ToBE(|payload|, 4) && p[9..] == payload;
    }
  }

  // ----- State --------------------------------------------------------------

  /** Where a data packet says which channel it is for, and on which stream. */
  lemma DataPacketNames(remoteId: nat, code: nat, payload: seq<byte>)
    requires remoteId < U32_LIMIT && code < U32_LIMIT
    ensures var p := DataPacket(remoteId, code, payload);
      && Names(p, remoteId)
      && (code == 0 ==> p[0] == 94)
      && (code > 0 ==> p[0] == 95 && |p| >= 9 && FromBE(p[5..9]) == code)
  {
    hide ToBE, FromBE;
    var p := DataPacket(remoteId, code, payload);
    assert p[1..5] == ToBE(remoteId, 4);
    FromToBE32(remoteId);
    if code > 0 {
      assert p[5..9] == ToBE(code, 4);
      FromToBE32(code);
    }
  }

  /** The packet is addressed to the channel with this id at its receiver. */
  ghost predicate Names(p: seq<byte>, id: nat)
  {
    |p| >= 5 && FromBE(p[1..5]) == id
  }

  datatype Packet =
    | Data(bytes: seq<byte>)
    | Adjust(additional: nat)
    | Confirm(id: nat, window: nat, maxPacket: nat)
    | Eof
    | Close

  type Link = seq<Packet>

  /**
   * One call of WriteExtended: n bytes of data are on the wire, and hold is the
   * window it has reserved for the packet it is about to write.
   */
  datatype WriteCall = WriteCall(code: nat, data: seq<byte>, n: nat, hold: Option<nat>, active: bool)

  /** What one packet of a call put on the wire. */
  datatype Chunk = Chunk(call: nat, code: nat, bytes: seq<byte>)

  /** A receive buffer: the bytes queued, and whether end of file was signalled. */
  datatype Queue = Queue(bytes: seq<byte>, closed: bool)

  /**
   * An endpoint. sent lists what its calls put on the wire, packet by packet. For
   * each readable stream, `got` is what its readers were given.
   * owed: read by the application, adjustWindow not yet entered; credited: added
   * to myWindow, adjust message not yet written; discarded: received on streams
   * nobody can read.
   */
  datatype End = End(
    decided: bool,
    remoteId: nat,
    maxRemotePayload: nat,
    remoteWin: nat,
    winClosed: bool,
    calls: seq<WriteCall>,
    sent: seq<Chunk>,
    sentEOF: bool,
    sentClose: bool,
    myWindow: nat,
    pending: seq<Queue>,
    got: seq<seq<byte>>,
    owed: nat,
    credited: nat,
    discarded: nat,
    removed: bool,
    eofMark: Option<seq<nat>>)

  /** Two endpoints; toB carries what a sent, toA what b sent. */
  datatype State = State(a: End, b: End, toB: Link, toA: Link)

  function Swap(s: State): (t: State)
    ensures t.a == s.b && t.b == s.a && t.toB == s.toA && t.toA == s.toB
  {
    State(s.b, s.a, s.toA, s.toB)
  }

  function NewEnd(decided: bool, remoteWin: nat, maxRemotePayload: nat, remoteId: nat): (e: End)
  {
    End(decided, remoteId, maxRemotePayload, remoteWin, false, [], [], false, false,
        CHANNEL_WINDOW_SIZE, [Queue([], false), Queue([], false)], [[], []], 0, 0, 0, false, None)
  }

  /** a opened the channel and b has just accepted it: the confirmation is on its way. */
  ghost predicate Init(s: State)
  {
    && s.a == NewEnd(false, 0, 0, 0)
    && s.b == NewEnd(true, CHANNEL_WINDOW_SIZE, CHANNEL_MAX_PACKET, s.b.remoteId)
    && s.toB == [] && s.b.remoteId < U32_LIMIT
    && exists id: nat :: id < U32_LIMIT && s.toA == [Confirm(id, CHANNEL_WINDOW_SIZE, CHANNEL_MAX_PACKET)]
  }

  // ----- Steps of an endpoint -----------------------------------------------

  datatype Outcome<T> = Done(value: T) | Failed

  /** window.add: refuses an addition that would overflow 32 bits. */
  function WindowAdd(win: nat, more: nat): (r: Option<nat>)
    ensures r.Some? ==> r.value == win + more
  {
    if more == 0 then Some(win)
    else if (win + more) % U32_LIMIT < more then None
    else Some(win + more)
  }

  /** How much WriteExtended asks for: min(maxRemotePayload, len), where len is cut to 32 bits. */
  function Space(maxRemotePayload: nat, left: nat): (space: nat)
  {
    Min(maxRemotePayload, left % U32_LIMIT)
  }

  /** Where each readable stream of the sender stood when it first signalled end of file. */
  function Mark(e: End): (m: Option<seq<nat>>)
  {
    if e.eofMark.Some? then e.eofMark else Some([|OnStream(e.sent, 0)|, |OnStream(e.sent, 1)|])
  }

  /** Everything that was put on the wire for one stream. */
  function OnStream(sent: seq<Chunk>, code: nat): (s: seq<byte>)
  {
    if |sent| == 0 then []
    else
      var last := sent[|sent| - 1];
      OnStream(sent[..|sent| - 1], code) + if last.code == code then last.bytes else []
  }

  function StartWrite(e: End, code: nat, data: seq<byte>): (r: End)
  {
    if !e.decided || e.sentEOF || |data| == 0 then e
    else e.(calls := e.calls + [WriteCall(code, data, 0, None, true)])
  }

  /** reserve, once it does not have to wait; on a closed window the call ends with an error. */
  function Reserve(e: End, i: nat): (r: End)
    requires i < |e.calls| && e.calls[i].n <= |e.calls[i].data|
  {
    var c := e.calls[i];
    var num := Min(Space(e.maxRemotePayload, |c.data| - c.n), e.remoteWin);
    var c' := if e.winClosed then c.(active := false) else c.(hold := Some(num));
    e.(remoteWin := e.remoteWin - num, calls := e.calls[i := c'])
  }

  /** The call returns early: the idle timer fired or the channel was told to stop. */
  function Abandon(e: End, i: nat): (r: End)
    requires i < |e.calls|
  {
    e.(calls := e.calls[i := e.calls[i].(active := false)])
  }

  function HeldPacket(e: End, i: nat): (p: Packet)
    requires i < |e.calls| && e.calls[i].hold.Some?
    requires e.calls[i].n + e.calls[i].hold.value <= |e.calls[i].data|
  {
    var c := e.calls[i];
    Data(DataPacket(e.remoteId, c.code, c.data[c.n..c.n + c.hold.value]))
  }

  /** The call after its packet was written, or refused because the channel is closed. */
  function AfterWrite(e: End, i: nat): (r: End)
    requires i < |e.calls| && e.calls[i].hold.Some?
    requires e.calls[i].n + e.calls[i].hold.value <= |e.calls[i].data|
  {
    var c := e.calls[i];
    var n := if e.sentClose then c.n else c.n + c.hold.value;
    e.(calls := e.calls[i := c.(n := n, hold := None, active := !e.sentClose && n < |c.data|)],
       sent := if e.sentClose then e.sent else e.sent + [Chunk(i, c.code, c.data[c.n..n])])
  }

  /** writePacket: nothing is sent once a close was. */
  function Put(e: End, out: Link, p: Packet): (out': Link)
  {
    if e.sentClose then out else out + [p]
  }

  /** One round of WriteExtended for call i: a reservation, and the packet unless the window was closed. */
  function Round(e: End, out: Link, i: nat): (r: (End, Link))
    requires i < |e.calls| && e.calls[i].n <= |e.calls[i].data|
  {
    var e1 := Reserve(e, i);
    if e.winClosed then (e1, out) else (AfterWrite(e1, i), Put(e1, out, HeldPacket(e1, i)))
  }

  /** Call i goes on, round after round, until it is over or has to wait for window. */
  function Rounds(e: End, out: Link, i: nat): (r: (End, Link))
    requires i < |e.calls| && e.calls[i].n <= |e.calls[i].data| < U32_LIMIT && e.maxRemotePayload > 0
    requires e.calls[i].active ==> e.calls[i].n < |e.calls[i].data|
    decreases e.calls[i].active, |e.calls[i].data| - e.calls[i].n
  {
    if !e.calls[i].active || (e.remoteWin == 0 && !e.winClosed) then (e, out)
    else
      var (e', out') := Round(e, out, i);
      Rounds(e', out', i)
  }

  function AfterEof(e: End): (r: End)
  {
    e.(sentEOF := true, eofMark := if e.sentClose then e.eofMark else Mark(e))
  }

  function AfterClose(e: End): (r: End)
  {
    e.(sentClose := true, eofMark := if e.sentClose then e.eofMark else Mark(e))
  }

  /** ReadExtended up to the return of the buffer's Read, which has something to return. */
  function Read(e: End, code: nat, max: nat): (r: End)
    requires code < |e.pending| && code < |e.got|
  {
    var q := e.pending[code];
    var n := Min(max, |q.bytes|);
    e.(pending := e.pending[code := q.(bytes := q.bytes[n..])],
       got := e.got[code := e.got[code] + q.bytes[..n]],
       owed := e.owed + n)
  }

  /** The first half of adjustWindow. */
  function Credit(e: End, n: nat): (r: End)
    requires n <= e.owed
  {
    e.(myWindow := e.myWindow + n, owed := e.owed - n, credited := e.credited + n)
  }

  function AfterAdjust(e: End, n: nat): (r: End)
    requires n <= e.credited
  {
    e.(credited := e.credited - n)
  }

  /** handleData. */
  function HandleData(e: End, p: seq<byte>): (r: Outcome<End>)
    requires |e.pending| == 2
  {
    if |p| == 0 then Failed
    else
      match ParseData(p)
      case Malformed => Failed
      case DataHeader(code, length, data) =>
        if length == 0 then Done(e)
        else if length > CHANNEL_MAX_PACKET then Failed
        else if length != |data| % U32_LIMIT then Failed
        else if e.myWindow < length then Failed
        else
          var e1 := e.(myWindow := e.myWindow - length);
          if code >= 2 then Done(e1.(discarded := e.discarded + length))
          else
            var q := e.pending[code];
            Done(e1.(pending := e.pending[code := q.(bytes := q.bytes + data)]))
  }

  /** A packet of data is taken in exactly if it is whole, as long as it says, and within the limits. */
  lemma DataAcceptedIff(e: End, p: seq<byte>)
    requires |e.pending| == 2
    ensures var headerLen := if |p| > 0 && p[0] == 95 then 13 else 9;
      HandleData(e, p).Done? <==>
        && |p| >= headerLen
        && var length := FromBE(p[headerLen - 4..headerLen]);
           (length == 0 ||
            (length <= 0x8000 && length == (|p| - headerLen) % U32_LIMIT && length <= e.myWindow))
  {
    hide FromBE;
  }

  function CloseQueues(e: End): (r: End)
    requires |e.pending| == 2
  {
    e.(pending := [e.pending[0].(closed := true), e.pending[1].(closed := true)])
  }

  /** handlePacket, with what it writes in answer; fails where the connection would be torn down. */
  function Handle(e: End, p: Packet): (r: Outcome<(End, bool)>)
    requires |e.pending| == 2
  {
    if e.removed then Failed
    else
      match p
      case Data(bytes) =>
        (match HandleData(e, bytes)
         case Failed => Failed
         case Done(e') => Done((e', false)))
      case Adjust(n) =>
        (match WindowAdd(e.remoteWin, n)
         case None => Failed
         case Some(win) => Done((e.(remoteWin := win), false)))
      case Confirm(id, window, maxPacket) =>
        if e.decided || maxPacket < 9 || maxPacket > 0x8000_0000 then Failed
        else
          // The result of this addition is not looked at.
          var win := WindowAdd(e.remoteWin, window);
          Done((e.(decided := true, remoteId := id, maxRemotePayload := maxPacket,
                   remoteWin := if win.Some? then win.value else e.remoteWin), false))
      case Eof => Done((CloseQueues(e), false))
      case Close => Done((CloseQueues(AfterClose(e)).(removed := true, winClosed := true), true))
  }

  // ----- Runs ---------------------------------------------------------------

  datatype Step =
    | DoStartWrite(code: nat, data: seq<byte>)
    | DoReserve(i: nat)
    | DoAbandon(i: nat)
    | DoSend(i: nat)
    | DoCloseWrite
    | DoClose
    | DoRead(code: nat, max: nat)
    | DoCredit(n: nat)
    | DoAdjust(n: nat)
    | DoDeliver

  /** When endpoint a can take a step. */
  ghost predicate Enabled(s: State, step: Step)
  {
    var e := s.a;
    match step
    case DoStartWrite(code, _) => code < U32_LIMIT
    case DoReserve(i) =>
      // reserve waits while the window is empty and not closed.
      && i < |e.calls| && e.calls[i].active && e.calls[i].hold.None? && e.calls[i].n < |e.calls[i].data|
      && (e.remoteWin > 0 || e.winClosed)
    case DoAbandon(i) => i < |e.calls| && e.calls[i].active && e.calls[i].hold.None?
    case DoSend(i) =>
      && i < |e.calls| && e.calls[i].hold.Some?
      && e.calls[i].n + e.calls[i].hold.value <= |e.calls[i].data|
    case DoCloseWrite => e.decided
    case DoClose => e.decided
    case DoRead(code, max) =>
      && e.decided && max > 0 && code < |e.pending| && code < |e.got|
      && |e.pending[code].bytes| > 0
    case DoCredit(n) => 0 < n <= e.owed
    case DoAdjust(n) => 0 < n <= e.credited
    case DoDeliver => |s.toA| > 0 && |e.pending| == 2 && Handle(e, s.toA[0]).Done?
  }

  /** The state after endpoint a took a step. */
  function After(s: State, step: Step): (s': State)
    requires Enabled(s, step)
  {
    var e := s.a;
    match step
    case DoStartWrite(code, data) => s.(a := StartWrite(e, code, data))
    case DoReserve(i) => s.(a := Reserve(e, i))
    case DoAbandon(i) => s.(a := Abandon(e, i))
    case DoSend(i) => s.(a := AfterWrite(e, i), toB := Put(e, s.toB, HeldPacket(e, i)))
    case DoCloseWrite => s.(a := AfterEof(e), toB := Put(e, s.toB, Eof))
    case DoClose => s.(a := AfterClose(e), toB := Put(e, s.toB, Close))
    case DoRead(code, max) => s.(a := Read(e, code, max))
    case DoCredit(n) => s.(a := Credit(e, n))
    case DoAdjust(n) => s.(a := AfterAdjust(e, n), toB := Put(e, s.toB, Adjust(n)))
    case DoDeliver =>
      var (e', reply) := Handle(e, s.toA[0]).value;
      State(e', s.b, if reply then Put(e, s.toB, Close) else s.toB, s.toA[1..])
  }

  /** Either endpoint takes a step. */
  ghost predicate Next(s: State, s': State)
  {
    || (exists step :: Enabled(s, step) && s' == After(s, step))
    || (exists step :: Enabled(Swap(s), step) && s' == Swap(After(Swap(s), step)))
  }

  ghost predicate IsRun(run: seq<State>)
  {
    && |run| > 0 && Init(run[0])
    && forall k :: 0 <= k < |run| - 1 ==> Next(run[k], run[k + 1])
  }

  // ----- What the links and calls amount to ---------------------------------

  /** A data packet as WriteExtended makes them. */
  ghost predicate GoodData(bytes: seq<byte>)
  {
    && |bytes| > 0 && ParseData(bytes).DataHeader?
    && ParseData(bytes).length == |ParseData(bytes).data| <= CHANNEL_MAX_PACKET
  }

  function Payload(p: Packet): (d: seq<byte>)
  {
    if p.Data? && |p.bytes| > 0 && ParseData(p.bytes).DataHeader? then ParseData(p.bytes).data else []
  }

  function Code(p: Packet): (c: int)
  {
    if p.Data? && |p.bytes| > 0 && ParseData(p.bytes).DataHeader? then ParseData(p.bytes).code else -1
  }

  function PacketCredit(p: Packet): (n: nat)
  {
    match p
    case Adjust(n) => n
    case Confirm(_, window, _) => window
    case _ => 0
  }

  /** Data bytes on a link. */
  function InFlight(l: Link): (n: nat)
  {
    if |l| == 0 then 0 else |Payload(l[0])| + InFlight(l[1..])
  }

  /** Window granted by packets on a link. */
  function Granted(l: Link): (n: nat)
  {
    if |l| == 0 then 0 else PacketCredit(l[0]) + Granted(l[1..])
  }

  /** What a link carries for one stream. */
  function Carried(l: Link, code: nat): (d: seq<byte>)
  {
    if |l| == 0 then [] else (if Code(l[0]) == code then Payload(l[0]) else []) + Carried(l[1..], code)
  }

  function Hold(c: WriteCall): (n: nat)
  {
    if c.hold.Some? then c.hold.value else 0
  }

  /** Window reserved by calls that have not used it yet. */
  function Held(calls: seq<WriteCall>): (n: nat)
  {
    if |calls| == 0 then 0 else Held(calls[..|calls| - 1]) + Hold(calls[|calls| - 1])
  }

  lemma LinkAppend(l: Link, p: Packet)
    ensures InFlight(l + [p]) == InFlight(l) + |Payload(p)|
    ensures Granted(l + [p]) == Granted(l) + PacketCredit(p)
    ensures forall c: nat :: Carried(l + [p], c) == Carried(l, c) + if Code(p) == c then Payload(p) else []
  {
    hide Payload, Code, InFlight, Granted, Carried, PacketCredit;
    CountsAppend(l, p);
    forall c: nat
      ensures Carried(l + [p], c) == Carried(l, c) + if Code(p) == c then Payload(p) else []
    {
      CarriedAppend(l, p, c);
    }
  }

  lemma {:induction false} CountsAppend(l: Link, p: Packet)
    ensures InFlight(l + [p]) == InFlight(l) + |Payload(p)|
    ensures Granted(l + [p]) == Granted(l) + PacketCredit(p)
  {
    hide Payload, PacketCredit;
    if |l| == 0 {
      assert l + [p] == [p] && [p][1..] == [];
    } else {
      CountsAppend(l[1..], p);
      assert (l + [p])[1..] == l[1..] + [p];
    }
  }

  lemma {:induction false} CarriedAppend(l: Link, p: Packet, c: nat)
    ensures Carried(l + [p], c) == Carried(l, c) + if Code(p) == c then Payload(p) else []
  {
    hide Payload, Code;
    var last := if Code(p) == c then Payload(p) else [];
    if |l| == 0 {
      assert l + [p] == [p] && [p][1..] == [];
      assert last + [] == [] + last;
    } else {
      CarriedAppend(l[1..], p, c);
      assert (l + [p])[1..] == l[1..] + [p] && (l + [p])[0] == l[0];
      var first := if Code(l[0]) == c then Payload(l[0]) else [];
      assert first + (Carried(l[1..], c) + last) == first + Carried(l[1..], c) + last;
    }
  }

  lemma {:induction false} HeldUpdate(calls: seq<WriteCall>, i: nat, c: WriteCall)
    requires i < |calls|
    ensures Held(calls[i := c]) == Held(calls) - Hold(calls[i]) + Hold(c)
  {
    var k := |calls| - 1;
    if i < k {
      HeldUpdate(calls[..k], i, c);
      assert calls[i := c][..k] == calls[..k][i := c];
    } else {
      assert calls[i := c][..k] == calls[..k];
    }
  }

  lemma HeldAppend(calls: seq<WriteCall>, c: WriteCall)
    ensures Held(calls + [c]) == Held(calls) + Hold(c)
  {
    assert (calls + [c])[..|calls|] == calls;
  }

  lemma OnStreamAppend(sent: seq<Chunk>, c: Chunk, code: nat)
    ensures OnStream(sent + [c], code) == OnStream(sent, code) + if c.code == code then c.bytes else []
  {
    assert (sent + [c])[..|sent|] == sent;
  }
}
