/**
 * The mutable objects of a channel: the flow-control window, the linked-list
 * receive buffer, and the channel itself, each proved against the functions
 * that the state machine of SshFlow is made of.
 */
module SshObjects {
  import opened Bytes
  import opened SshFlow

  // ----- window -------------------------------------------------------------

  class Window {
    var win: nat
    var closed: bool

    constructor ()
      ensures win == 0 && !closed
    {
      win, closed := 0, false;
    }

    /** Adds to the window, unless 32 bits would overflow. */
    method Add(more: nat) returns (ok: bool)
      requires win < U32_LIMIT && more < U32_LIMIT
      modifies this`win
      ensures ok <==> old(win) + more < U32_LIMIT
      ensures win == if ok then old(win) + more else old(win)
      ensures WindowAdd(old(win), more) == if ok then Some(win) else None
    {
      if more == 0 {
        return true;
      }
      if (win + more) % U32_LIMIT < more {
        return false;
      }
      win := (win + more) % U32_LIMIT;
      return true;
    }

    /** Reserves up to `want`; called when it does not have to wait. Fails on a closed window. */
    method Reserve(want: nat) returns (num: nat, ok: bool)
      requires win > 0 || closed
      modifies this`win
      ensures num == Min(want, old(win)) && win == old(win) - num && (ok <==> !closed)
    {
      num := want;
      if win < num {
        num := win;
      }
      win := win - num;
      ok := !closed;
    }

    method CloseWindow()
      modifies this`closed
      ensures closed
    {
      closed := true;
    }
  }

  // ----- buffer -------------------------------------------------------------

  class Element {
    var buf: seq<byte>
    var next: Element?

    constructor (buf: seq<byte>)
      ensures this.buf == buf && next == null
    {
      this.buf, next := buf, null;
    }
  }

  datatype ReadResult = Got | EndOfFile | WouldBlock

  class Buffer {
    var head: Element
    var tail: Element
    var closed: bool
    ghost var cells: set<Element>
    ghost var spine: seq<Element>
    ghost var contents: seq<byte>

    /** The spine is the list from head to tail, each element once, and contents all bytes queued. */
    ghost predicate Valid()
      reads this, cells
    {
      && (forall i :: 0 <= i < |spine| ==> spine[i] in cells)
      && |spine| > 0 && head == spine[0] && tail == spine[|spine| - 1] && tail.next == null
      && (forall i :: 0 <= i < |spine| - 1 ==> spine[i].next == spine[i + 1])
      && (forall i, j :: 0 <= i < j < |spine| ==> spine[i] != spine[j])
      && contents == Bytes(spine)
    }

    static ghost function Bytes(elements: seq<Element>): (bs: seq<byte>)
      reads elements
    {
      if |elements| == 0 then [] else elements[0].buf + Bytes(elements[1..])
    }

    constructor ()
      ensures Valid() && contents == [] && !closed && fresh(cells)
    {
      var e := new Element([]);
      head, tail, closed, cells, spine, contents := e, e, false, {e}, [e], [];
      new;
      assert spine[1..] == [];
      assert Bytes(spine) == e.buf + Bytes(spine[1..]);
    }

    static lemma BytesAppend(elements: seq<Element>, e: Element)
      ensures Bytes(elements + [e]) == Bytes(elements) + e.buf
    {
      if |elements| == 0 {
        assert elements + [e] == [e] && [e][1..] == [];
      } else {
        assert (elements + [e])[1..] == elements[1..] + [e];
        BytesAppend(elements[1..], e);
      }
    }

    /** Makes buf available to Read, after all that is queued. */
    method Write(buf: seq<byte>)
      requires Valid()
      modifies this`tail, this`cells, this`spine, this`contents, cells
      ensures Valid() && fresh(cells - old(cells))
      ensures contents == old(contents) + buf
    {
      hide Bytes;
      var e := new Element(buf);
      label L:
      tail.next := e;
      tail := e;
      assert e !in spine;
      BytesSame@L(spine);
      BytesAppend(spine, e);
      cells, spine := cells + {e}, spine + [e];
      contents := contents + buf;
    }

    /** Bytes depends on the bytes of the elements only. */
    static twostate lemma BytesSame(elements: seq<Element>)
      requires forall i :: 0 <= i < |elements| ==> elements[i].buf == old(elements[i].buf)
      ensures Bytes(elements) == old(Bytes(elements))
    {
      if |elements| > 0 {
        BytesSame(elements[1..]);
      }
    }

    /** Signals that no more will be written. */
    method Eof()
      requires Valid()
      modifies this`closed
      ensures Valid() && closed
    {
      closed := true;
    }

    /**
     * Read into a buffer of k bytes: hands out what is queued, as much as fits. Only
     * if nothing is queued does it report end of file, or wait if none was signalled.
     */
    method Read(k: nat) returns (data: seq<byte>, r: ReadResult)
      requires Valid()
      modifies this`head, this`spine, this`contents, cells
      ensures Valid()
      ensures data == old(contents)[..Min(k, |old(contents)|)] && contents == old(contents)[|data|..]
      ensures r == if k == 0 || old(contents) != [] then Got else if closed then EndOfFile else WouldBlock
    {
      data := [];
      ghost var all := contents;
      while |data| < k
        invariant Valid() && |data| <= k
        invariant all == data + contents
        decreases k - |data|, |spine|
      {
        if |head.buf| > 0 {
          var n := Min(k - |data|, |head.buf|);
          assert spine[0] in spine;
          var front := TakeFront(n);
          assert data + (front + contents) == data + front + contents;
          data := data + front;
        } else if head != tail {
          assert |spine| > 1;
          assert Bytes(spine) == [] + Bytes(spine[1..]);
          head := head.next;
          spine := spine[1..];
        } else {
          assert Bytes(spine[1..]) == [];
          assert contents == [];
          if |data| > 0 {
            break;
          }
          return data, if closed then EndOfFile else WouldBlock;
        }
      }
      r := Got;
    }

    /** Takes n bytes from the first element. */
    method TakeFront(n: nat) returns (front: seq<byte>)
      requires Valid() && n <= |head.buf|
      modifies head`buf, this`contents
      ensures Valid() && |front| == n && old(contents) == front + contents
      ensures |head.buf| == |old(head.buf)| - n
    {
      front := head.buf[..n];
      ghost var before, rest := head.buf, Bytes(spine[1..]);
      label L:
      head.buf := head.buf[n..];
      BytesSame@L(spine[1..]);
      assert before == front + head.buf;
      assert before + rest == front + (head.buf + rest);
      contents := head.buf + rest;
    }
  }

  // ----- channel ------------------------------------------------------------

  datatype WriteResult = Written | Refused | Waiting

  /**
   * A channel used by one goroutine at a time; out is what it gave the connection to
   * send. The ghost fields are the histories of the state machine.
   */
  class Channel {
    const remoteWin: Window
    const pending: Buffer
    const extPending: Buffer
    var decided: bool
    var remoteId: nat
    var maxRemotePayload: nat
    var sentEOF: bool
    var sentClose: bool
    var hasClosed: bool
    var myWindow: nat
    var removed: bool
    var out: Link
    ghost var calls: seq<WriteCall>
    ghost var sent: seq<Chunk>
    ghost var got: seq<seq<byte>>
    ghost var discarded: nat
    ghost var eofMark: Option<seq<nat>>

    /** The two buffers are lists of their own. */
    ghost predicate Valid()
      reads this, remoteWin, pending, extPending, pending.cells, extPending.cells
    {
      && pending != extPending && pending.cells !! extPending.cells && pending.Valid() && extPending.Valid()
      && |got| == 2
      && remoteWin.win < U32_LIMIT
    }

    /** The endpoint of the state machine that this channel is. */
    ghost function View(): (e: End)
      reads this, remoteWin, pending, extPending
    {
      End(decided, remoteId, maxRemotePayload, remoteWin.win, remoteWin.closed, calls, sent, sentEOF, sentClose,
          myWindow, [Queue(pending.contents, pending.closed), Queue(extPending.contents, extPending.closed)],
          got, 0, 0, discarded, removed, eofMark)
    }

    constructor (decided: bool, window: nat, maxRemotePayload: nat, remoteId: nat)
      requires window < U32_LIMIT
      ensures Valid() && View() == NewEnd(decided, window, maxRemotePayload, remoteId) && out == []
      ensures fresh(remoteWin) && fresh(pending) && fresh(extPending)
      ensures fresh(pending.cells) && fresh(extPending.cells)
    {
      hide Buffer.Valid;
      this.decided, this.maxRemotePayload, this.remoteId := decided, maxRemotePayload, remoteId;
      sentEOF, sentClose, hasClosed, removed := false, false, false, false;
      myWindow, out := CHANNEL_WINDOW_SIZE, [];
      calls, sent, got, discarded, eofMark := [], [], [[], []], 0, None;
      var w := new Window();
      w.win := window;
      remoteWin := w;
      pending := new Buffer();
      extPending := new Buffer();
    }

    /** writePacket: a close is the last packet sent. */
    method WritePacket(p: Packet) returns (ok: bool)
      modifies this`out, this`sentClose
      ensures ok <==> !old(sentClose)
      ensures out == Put(old(View()), old(out), p)
      ensures sentClose == (old(sentClose) || p.Close?)
    {
      if sentClose {
        return false;
      }
      sentClose := p.Close?;
      out := out + [p];
      return true;
    }

    /** Reserves window for the next packet of call i. */
    method ReserveFor(want: nat, ghost i: nat) returns (num: nat, ok: bool)
      requires Valid() && i < |calls| && calls[i].n < |calls[i].data|
      requires want == Space(maxRemotePayload, |calls[i].data| - calls[i].n)
      requires remoteWin.win > 0 || remoteWin.closed
      modifies this`calls, remoteWin`win
      ensures Valid() && View() == Reserve(old(View()), i)
      ensures (ok <==> !remoteWin.closed) && num == Min(want, old(remoteWin.win))
    {
      hide Buffer.Valid;
      num, ok := remoteWin.Reserve(want);
      calls := calls[i := if ok then calls[i].(hold := Some(num)) else calls[i].(active := false)];
    }

    /** Writes the packet for which call i holds window. */
    method SendHeld(data: seq<byte>, n: nat, num: nat, code: nat, ghost i: nat) returns (ok: bool)
      requires Valid() && n + num <= |data|
      requires i < |calls| && calls[i] == WriteCall(code, data, n, Some(num), true)
      modifies this`out, this`sentClose, this`calls, this`sent
      ensures Valid() && View() == AfterWrite(old(View()), i) && (ok <==> !old(sentClose))
      ensures out == Put(old(View()), old(out), HeldPacket(old(View()), i))
      ensures out == if ok then old(out) + [Data(DataPacket(remoteId, code, data[n..n + num]))] else old(out)
    {
      hide DataPacket, Buffer.Valid;
      ok := WritePacket(Data(DataPacket(remoteId, code, data[n..n + num])));
      var n' := if ok then n + num else n;
      calls := calls[i := WriteCall(code, data, n', None, ok && n' < |data|)];
      if ok {
        sent := sent + [Chunk(i, code, data[n..n'])];
      }
    }

    /** One round of WriteExtended for call i, which has sent data[..n]. */
    method WriteRound(data: seq<byte>, n: nat, code: nat, ghost i: nat) returns (num: nat, ok: bool)
      requires Valid() && n < |data| < U32_LIMIT && maxRemotePayload > 0
      requires i < |calls| && calls[i] == WriteCall(code, data, n, None, true)
      requires remoteWin.win > 0 || remoteWin.closed
      modifies this`out, this`sentClose, this`calls, this`sent, remoteWin`win
      ensures Valid() && n + num <= |data| && |calls| == |old(calls)|
      ensures out == if ok then old(out) + [Data(DataPacket(remoteId, code, data[n..n + num]))] else old(out)
      ensures (View(), out) == Round(old(View()), old(out), i)
      ensures calls[i] == WriteCall(code, data, if ok then n + num else n, None, ok && n + num < |data|)
      ensures ok ==> num > 0
      ensures !ok ==> remoteWin.closed || sentClose
    {
      hide Valid, DataPacket, HeldPacket;
      num, ok := ReserveFor(Space(maxRemotePayload, |data| - n), i);
      if ok {
        ok := SendHeld(data, n, num, code, i);
      }
    }

    ghost method BeginCall(code: nat, data: seq<byte>)
      requires Valid() && decided && !sentEOF && |data| > 0
      modifies this`calls
      ensures Valid() && calls == old(calls) + [WriteCall(code, data, 0, None, true)]
      ensures View() == StartWrite(old(View()), code, data)
    {
      hide Buffer.Valid;
      calls := calls + [WriteCall(code, data, 0, None, true)];
    }

    /**
     * WriteExtended on a channel that is decided: the call begins, and goes on in rounds
     * until all is written, the channel is closed, or it would have to wait for window.
     * Data of 2^32 bytes or more would keep it from ever ending.
     */
    method WriteExtended(data: seq<byte>, code: nat) returns (n: nat, r: WriteResult)
      requires Valid() && decided && code < U32_LIMIT && |data| < U32_LIMIT && maxRemotePayload > 0
      modifies this`out, this`sentClose, this`calls, this`sent, remoteWin`win
      ensures Valid()
      ensures var e := StartWrite(old(View()), code, data);
        (View(), out) == if |e.calls| == |old(calls)| then (e, old(out)) else Rounds(e, old(out), |old(calls)|)
      ensures n <= |data| && (r.Written? ==> n == |data|)
      ensures sentEOF ==> r.Refused? && n == 0 && out == old(out)
      ensures old(out) <= out && (remoteId < U32_LIMIT ==>
        forall k :: |old(out)| <= k < |out| ==> out[k].Data? && Names(out[k].bytes, remoteId))
      ensures |calls| > |old(calls)| ==> calls[|old(calls)|].n == n
      ensures r.Waiting? ==> remoteWin.win == 0 && !remoteWin.closed
      ensures r.Refused? ==> sentEOF || remoteWin.closed || sentClose
    {
      hide Valid, Rounds, Names;
      n, r := 0, Written;
      if sentEOF {
        return 0, Refused;
      }
      if |data| == 0 {
        return;
      }
      ghost var i := |calls|;
      BeginCall(code, data);
      n, r := GoOn(data, code, i);
    }

    /** The loop of WriteExtended, for a call that has begun. */
    method GoOn(data: seq<byte>, code: nat, ghost i: nat) returns (n: nat, r: WriteResult)
      requires Valid() && code < U32_LIMIT && 0 < |data| < U32_LIMIT && maxRemotePayload > 0
      requires |calls| == i + 1 && calls[i] == WriteCall(code, data, 0, None, true)
      modifies this`out, this`sentClose, this`calls, this`sent, remoteWin`win
      ensures Valid() && (View(), out) == Rounds(old(View()), old(out), i)
      ensures n <= |data| && (r.Written? ==> n == |data|)
      ensures old(out) <= out && (remoteId < U32_LIMIT ==>
        forall k :: |old(out)| <= k < |out| ==> out[k].Data? && Names(out[k].bytes, remoteId))
      ensures |calls| == i + 1 && calls[i].n == n
      ensures r.Waiting? ==> remoteWin.win == 0 && !remoteWin.closed
      ensures r.Refused? ==> remoteWin.closed || sentClose
    {
      hide Valid, Round, DataPacket, Names;
      n, r := 0, Written;
      while r.Written? && n < |data|
        invariant Valid() && n <= |data| && |calls| == i + 1 && maxRemotePayload > 0
        invariant calls[i] == WriteCall(code, data, n, None, !r.Refused? && n < |data|)
        invariant Rounds(old(View()), old(out), i) == Rounds(View(), out, i)
        invariant old(out) <= out && (remoteId < U32_LIMIT ==>
          forall k :: |old(out)| <= k < |out| ==> out[k].Data? && Names(out[k].bytes, remoteId))
        invariant r.Waiting? ==> remoteWin.win == 0 && !remoteWin.closed
        invariant r.Refused? ==> remoteWin.closed || sentClose
        decreases r.Written?, |data| - n
      {
        if remoteWin.win == 0 && !remoteWin.closed {
          r := Waiting;
        } else {
          var num;
          var ok;
          ghost var before := out;
          num, ok := WriteRound(data, n, code, i);
          if ok {
            if remoteId < U32_LIMIT {
              DataPacketNames(remoteId, code, data[n..n + num]);
            }
            assert out[..|before|] == before;
            n := n + num;
          } else {
            r := Refused;
          }
        }
      }
    }

    /** Hands out what is queued on a readable stream. */
    method Dequeue(code: nat, k: nat) returns (data: seq<byte>, r: ReadResult)
      requires Valid() && code < 2
      modifies pending, pending.cells, extPending, extPending.cells
      ensures Valid() && |View().got| == 2
      ensures var q := old(View()).pending[code];
        && data == q.bytes[..Min(k, |q.bytes|)]
        && View() == old(View()).(pending := old(View()).pending[code := q.(bytes := q.bytes[|data|..])])
        && r == if k == 0 || q.bytes != [] then Got else if q.closed then EndOfFile else WouldBlock
    {
      hide Buffer.Valid;
      if code == 0 {
        data, r := pending.Read(k);
      } else {
        data, r := extPending.Read(k);
      }
    }

    /**
     * ReadExtended: hands out what is queued and grants the peer as much window. With
     * nothing queued it reports the end of the stream, or waits.
     */
    method ReadExtended(code: nat, k: nat) returns (data: seq<byte>, r: Option<ReadResult>)
      requires Valid()
      modifies this`got, this`myWindow, this`out, this`sentClose
      modifies pending, pending.cells, extPending, extPending.cells
      ensures Valid()
      ensures code >= 2 ==> r == None && data == [] && View() == old(View()) && out == old(out)
      ensures code < 2 ==>
        var q := old(View()).pending[code];
        && data == q.bytes[..Min(k, |q.bytes|)]
        && r == Some(if k == 0 || q.bytes != [] then Got else if q.closed then EndOfFile else WouldBlock)
        && (data == [] ==> View() == old(View()) && out == old(out))
        && (data != [] ==>
              && View() == AfterAdjust(Credit(SshFlow.Read(old(View()), code, k), |data|), |data|)
              && out == Put(old(View()), old(out), Adjust(|data|)))
    {
      hide Valid;
      if code >= 2 {
        return [], None;
      }
      var res;
      ghost var was := View();
      data, res := Dequeue(code, k);
      r := Some(res);
      if |data| > 0 {
        NoteRead(code, data);
        AdjustWindow(|data|);
      } else {
        assert was.pending[code].bytes[0..] == was.pending[code].bytes;
        assert View().pending == was.pending;
      }
    }

    ghost method NoteRead(code: nat, data: seq<byte>)
      requires Valid() && code < 2 && |View().got| == 2
      modifies this`got
      ensures Valid() && View() == old(View()).(got := old(View()).got[code := old(View()).got[code] + data])
    {
      hide Buffer.Valid;
      got := got[code := got[code] + data];
    }

    method AdjustWindow(n: nat)
      requires Valid()
      modifies this`myWindow, this`out, this`sentClose
      ensures Valid() && View() == old(View()).(myWindow := old(myWindow) + n)
      ensures out == Put(old(View()), old(out), Adjust(n))
    {
      hide Buffer.Valid;
      myWindow := myWindow + n;
      var _ := WritePacket(Adjust(n));
    }

    method CloseWrite() returns (ok: bool)
      requires Valid()
      modifies this`sentEOF, this`sentClose, this`out, this`eofMark
      ensures Valid() && (ok <==> decided && !old(sentClose))
      ensures decided ==> sentEOF
      ensures View() == if decided then AfterEof(old(View())) else old(View())
      ensures out == if decided then Put(old(View()), old(out), Eof) else old(out)
    {
      hide Buffer.Valid, Mark;
      if !decided {
        return false;
      }
      eofMark := if sentClose then eofMark else Mark(View());
      sentEOF := true;
      ok := WritePacket(Eof);
    }

    /** Close: only the first call does anything, and it sends nothing while the channel is undecided. */
    method Close() returns (ok: bool)
      requires Valid()
      modifies this`hasClosed, this`out, this`sentClose, this`eofMark
      ensures Valid() && hasClosed
      ensures old(hasClosed) ==> ok && View() == old(View()) && out == old(out)
      ensures !old(hasClosed) && !decided ==> !ok && View() == old(View()) && out == old(out)
      ensures !old(hasClosed) && decided ==>
        && (ok <==> !old(sentClose))
        && View() == AfterClose(old(View())) && out == Put(old(View()), old(out), Packet.Close)
    {
      hide Valid;
      if hasClosed {
        return true;
      }
      NoteClosed();
      if !decided {
        return false;
      }
      ok := SendClose();
    }

    method NoteClosed()
      requires Valid()
      modifies this`hasClosed
      ensures Valid() && hasClosed && View() == old(View())
    {
      hide Buffer.Valid;
      hasClosed := true;
    }

    /** A close, from here or in answer to the peer's: nothing is sent if one was. */
    method SendClose() returns (ok: bool)
      requires Valid()
      modifies this`out, this`sentClose, this`eofMark
      ensures Valid() && sentClose && (ok <==> !old(sentClose))
      ensures View() == AfterClose(old(View())) && out == Put(old(View()), old(out), Packet.Close)
    {
      hide Buffer.Valid, Mark;
      eofMark := if sentClose then eofMark else Mark(View());
      ok := WritePacket(Packet.Close);
    }

    /** The numbers of a packet fit 32 bits, as they do on the wire. */
    static predicate Fits32(p: Packet)
    {
      (p.Adjust? ==> p.additional < U32_LIMIT) && (p.Confirm? ==> p.window < U32_LIMIT)
    }

    /** handlePacket: false where the connection is torn down. */
    method HandlePacket(p: Packet) returns (ok: bool)
      requires Valid() && Fits32(p)
      modifies this, remoteWin, pending, pending.cells, extPending, extPending.cells
      ensures Valid() && fresh(pending.cells - old(pending.cells)) && fresh(extPending.cells - old(extPending.cells))
      ensures ok <==> Handle(old(View()), p).Done?
      ensures ok ==> View() == Handle(old(View()), p).value.0
      ensures ok ==> out == if p.Close? then Put(old(View()), old(out), Packet.Close) else old(out)
      ensures ok && (p.Eof? || p.Close?) ==> pending.closed && extPending.closed
      ensures ok && p.Close? ==> sentClose && removed && remoteWin.closed
    {
      hide HandleData, WindowAdd, AfterClose, Valid;
      if removed {
        return false;
      }
      match p
      case Data(bytes) =>
        ok := HandleDataPacket(bytes);
      case Adjust(n) =>
        ok := AddWindow(n);
      case Confirm(id, window, maxPacket) =>
        ok := HandleConfirm(id, window, maxPacket);
      case Eof =>
        EndStreams();
        ok := true;
      case Close =>
        TearDown();
        ok := true;
    }

    /** The peer has closed: a close in answer, and everything that waits here is let go. */
    method TearDown()
      requires Valid()
      modifies this`out, this`sentClose, this`eofMark, this`removed
      modifies pending`closed, extPending`closed, remoteWin`closed
      ensures Valid() && sentClose && out == Put(old(View()), old(out), Packet.Close)
      ensures View() == CloseQueues(AfterClose(old(View()))).(removed := true, winClosed := true)
    {
      hide AfterClose, Buffer.Valid;
      var _ := SendClose();
      removed := true;
      EndStreams();
      remoteWin.CloseWindow();
    }

    method AddWindow(n: nat) returns (ok: bool)
      requires Valid() && n < U32_LIMIT
      modifies remoteWin`win
      ensures Valid() && WindowAdd(old(remoteWin.win), n) == if ok then Some(remoteWin.win) else None
      ensures !ok ==> remoteWin.win == old(remoteWin.win)
    {
      hide WindowAdd, Buffer.Valid;
      ok := remoteWin.Add(n);
    }

    method EndStreams()
      requires Valid()
      modifies pending`closed, extPending`closed
      ensures Valid() && View() == CloseQueues(old(View()))
    {
      hide Buffer.Valid;
      extPending.Eof();
      pending.Eof();
    }

    /** The confirmation of an open; whether its window could be added is not looked at. */
    method HandleConfirm(id: nat, window: nat, maxPacket: nat) returns (ok: bool)
      requires Valid() && window < U32_LIMIT
      modifies this`decided, this`remoteId, this`maxRemotePayload, remoteWin`win
      ensures Valid() && (ok <==> !old(decided) && 9 <= maxPacket <= 0x8000_0000)
      ensures !ok ==> View() == old(View())
      ensures ok ==>
        var win := WindowAdd(old(remoteWin.win), window);
        View() == old(View()).(decided := true, remoteId := id, maxRemotePayload := maxPacket,
                               remoteWin := if win.Some? then win.value else old(remoteWin.win))
    {
      hide WindowAdd, Buffer.Valid;
      if decided || maxPacket < 9 || maxPacket > 0x8000_0000 {
        return false;
      }
      decided, remoteId, maxRemotePayload := true, id, maxPacket;
      var _ := AddWindow(window);
      ok := true;
    }

    /** handleData. */
    method HandleDataPacket(p: seq<byte>) returns (ok: bool)
      requires Valid()
      modifies this`myWindow, this`discarded, pending, pending.cells, extPending, extPending.cells
      ensures Valid() && fresh(pending.cells - old(pending.cells)) && fresh(extPending.cells - old(extPending.cells))
      ensures HandleData(old(View()), p) == if ok then Done(View()) else Failed
    {
      hide ParseData, Buffer.Valid;
      if |p| == 0 || ParseData(p).Malformed? {
        return false;
      }
      var DataHeader(code, length, data) := ParseData(p);
      if length == 0 {
        return true;
      }
      if length > CHANNEL_MAX_PACKET || length != |data| % U32_LIMIT || myWindow < length {
        return false;
      }
      myWindow := myWindow - length;
      if code >= 2 {
        discarded := discarded + length;
      } else {
        Enqueue(code, data);
      }
      return true;
    }

    method Enqueue(code: nat, data: seq<byte>)
      requires Valid() && code < 2
      modifies pending, pending.cells, extPending, extPending.cells
      ensures Valid() && fresh(pending.cells - old(pending.cells)) && fresh(extPending.cells - old(extPending.cells))
      ensures var q := old(View()).pending[code];
        View() == old(View()).(pending := old(View()).pending[code := q.(bytes := q.bytes + data)])
    {
      hide Buffer.Valid;
      if code == 1 {
        extPending.Write(data);
      } else {
        pending.Write(data);
      }
    }
  }
}
