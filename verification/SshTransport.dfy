/**
 * The transport object that one side of the re-keying machine runs: its fields,
 * the sections of code that hold its lock, and the counters that make a write ask
 * for new keys.
 */
module SshTransport {
  import opened SshRekey

  // ----- When a write asks for new keys -------------------------------------

  const PACKET_REKEY_THRESHOLD := 0x8000_0000

  /** What may still be written under the present keys. */
  datatype Budget = Budget(bytesLeft: int, packetsLeft: int)

  function FreshBudget(bytes: int): (b: Budget)
  {
    Budget(bytes, PACKET_REKEY_THRESHOLD)
  }

  predicate Asks(b: Budget)
  {
    b.bytesLeft <= 0 || b.packetsLeft <= 0
  }

  function Spend(b: Budget, size: nat): (b': Budget)
  {
    Budget(if b.bytesLeft > 0 then b.bytesLeft - size else b.bytesLeft,
           if b.packetsLeft > 0 then b.packetsLeft - 1 else b.packetsLeft)
  }

  function SpendAll(b: Budget, sizes: seq<nat>): (b': Budget)
  {
    if |sizes| == 0 then b else Spend(SpendAll(b, sizes[..|sizes| - 1]), sizes[|sizes| - 1])
  }

  function Sum(sizes: seq<nat>): (n: nat)
  {
    if |sizes| == 0 then 0 else Sum(sizes[..|sizes| - 1]) + sizes[|sizes| - 1]
  }

  lemma {:induction false} BudgetAfter(bytes: int, sizes: seq<nat>)
    requires bytes > 0
    ensures var b := SpendAll(FreshBudget(bytes), sizes);
      && b.packetsLeft == (if |sizes| <= PACKET_REKEY_THRESHOLD then PACKET_REKEY_THRESHOLD - |sizes| else 0)
      && (b.bytesLeft > 0 <==> Sum(sizes) < bytes)
      && (b.bytesLeft > 0 ==> b.bytesLeft == bytes - Sum(sizes))
  {
    if |sizes| > 0 {
      BudgetAfter(bytes, sizes[..|sizes| - 1]);
    }
  }

  /**
   * After any writes under the same keys, the next one asks for new keys if and only
   * if as many packets or as many bytes as the limits allow were written before it.
   */
  lemma AsksIff(bytes: int, sizes: seq<nat>)
    requires bytes > 0
    ensures Asks(SpendAll(FreshBudget(bytes), sizes)) <==>
      Sum(sizes) >= bytes || |sizes| >= PACKET_REKEY_THRESHOLD
  {
    hide SpendAll, Sum;
    BudgetAfter(bytes, sizes);
  }

  /** A packet with its size in bytes. */
  datatype Sized = Sized(payload: nat, size: nat)

  function Sizes(ps: seq<Sized>): (sizes: seq<nat>)
  {
    seq(|ps|, i requires 0 <= i < |ps| => ps[i].size)
  }

  /** The side, and its budget, after writes one after the other. */
  function WroteAll(e: Side, b: Budget, ps: seq<Sized>): (r: (Side, Budget))
  {
    if |ps| == 0 then (e, b)
    else
      var (e1, b1) := WroteAll(e, b, ps[..|ps| - 1]);
      var p := ps[|ps| - 1];
      (Wrote(e1, p.payload, Asks(b1)), if e1.sentInit then b1 else Spend(b1, p.size))
  }

  /** Some of these packets was preceded by as much, under the same keys, as the limits allow. */
  ghost predicate PastLimit(bytes: int, ps: seq<Sized>)
  {
    exists j :: 0 <= j < |ps| && AtLimit(bytes, ps, j)
  }

  ghost predicate AtLimit(bytes: int, ps: seq<Sized>, j: nat)
    requires j <= |ps|
  {
    Sum(Sizes(ps[..j])) >= bytes || j >= PACKET_REKEY_THRESHOLD
  }

  /**
   * Writes since the last exchange leave a request for new keys if and only if there was
   * one already or the limit was reached before one of them; and all of them are sent.
   */
  lemma {:induction false} RequestsIff(e: Side, bytes: int, ps: seq<Sized>)
    requires bytes > 0 && !e.sentInit
    ensures var (e', b') := WroteAll(e, FreshBudget(bytes), ps);
      && !e'.sentInit && e'.pending == e.pending && |e'.log| == |e.log| + |ps|
      && b' == SpendAll(FreshBudget(bytes), Sizes(ps))
      && (e'.requestKex <==> e.requestKex || PastLimit(bytes, ps))
  {
    hide Spend, Asks, AtLimit, Sum;
    if |ps| == 0 {
      assert Sizes(ps) == [];
    } else {
      var front := ps[..|ps| - 1];
      RequestsIff(e, bytes, front);
      assert Sizes(ps)[..|ps| - 1] == Sizes(front);
      LimitGrows(bytes, ps);
      LimitIs(bytes, front);
    }
  }

  lemma LimitIs(bytes: int, ps: seq<Sized>)
    requires bytes > 0
    ensures Asks(SpendAll(FreshBudget(bytes), Sizes(ps))) <==> AtLimit(bytes, ps, |ps|)
  {
    hide SpendAll, Sum, Asks;
    AsksIff(bytes, Sizes(ps));
    assert ps[..|ps|] == ps;
  }

  lemma LimitGrows(bytes: int, ps: seq<Sized>)
    requires |ps| > 0
    ensures var front := ps[..|ps| - 1];
      PastLimit(bytes, ps) <==> PastLimit(bytes, front) || AtLimit(bytes, front, |front|)
  {
    var front := ps[..|ps| - 1];
    assert forall j :: 0 <= j <= |front| ==> ps[..j] == front[..j];
    if PastLimit(bytes, ps) {
      var j :| 0 <= j < |ps| && AtLimit(bytes, ps, j);
      assert AtLimit(bytes, front, j);
    }
    if PastLimit(bytes, front) {
      var j :| 0 <= j < |front| && AtLimit(bytes, front, j);
      assert AtLimit(bytes, ps, j);
    }
    if AtLimit(bytes, front, |front|) {
      assert AtLimit(bytes, ps, |front|);
    }
  }

  // ----- Steps of one side --------------------------------------------------

  /** A side whose step does not depend on the links. */
  function Alone(e: Side): (s: State)
  {
    State(e, e, [], [])
  }

  /** The held packets go out in order, then the lock is free. */
  function Flushed(e: Side): (e': Side)
    requires Locked(e)
    decreases |e.pending|
  {
    if |e.pending| == 0 then Acted(Alone(e), Unlock) else Flushed(Acted(Alone(e), FlushOne))
  }

  /** What is on the wire once packets held back have followed it. */
  function Wires(xs: seq<nat>, epoch: nat): (l: Link)
  {
    seq(|xs|, i requires 0 <= i < |xs| => Wire(App(xs[i]), epoch))
  }

  lemma FinishIs(e: Side)
    requires e.pc.Exchange? && e.pc.gotNewKeys
    ensures Acted(Alone(e), Finish) == e.(sentInit := false, requestKex := false, reading := true, pc := Flush)
  {
  }

  lemma WiresAppend(xs: seq<nat>, x: nat, epoch: nat)
    ensures Wires(xs + [x], epoch) == Wires(xs, epoch) + [Wire(App(x), epoch)]
  {
  }

  lemma {:induction false} FlushedIs(e: Side)
    requires Locked(e)
    ensures Flushed(e) == e.(pending := [], pc := Collect(false, false), log := e.log + Wires(e.pending, e.writeEpoch))
    decreases |e.pending|
  {
    if |e.pending| == 0 {
      assert e.log + Wires([], e.writeEpoch) == e.log;
    } else {
      var e1 := Acted(Alone(e), FlushOne);
      FlushedIs(e1);
      var first := [Wire(App(e.pending[0]), e.writeEpoch)];
      var more := Wires(e.pending[1..], e.writeEpoch);
      assert Wires(e.pending, e.writeEpoch) == first + more;
      assert e.log + first + more == e.log + (first + more);
    }
  }

  /** What the layer above may want to write, by the number of the packet. */
  datatype Offered = LikeKexInit | LikeNewKeys | Packet(payload: nat)

  // ----- The object ---------------------------------------------------------

  /**
   * sentInit stands for sentInitMsg being set, wire for what conn was given so far
   * under the keys in force. The ghost fields are where the loops stand and what
   * was accepted and passed up.
   */
  class HandshakeTransport {
    const role: Role
    const rekeyBytes: int
    var sentInit: bool
    var pending: seq<nat>
    var requestKex: bool
    var startKex: bool
    var writeBudget: Budget
    var wire: Link
    var writeEpoch: nat
    ghost var pc: Pc
    ghost var reading: bool
    ghost var readEpoch: nat
    ghost var accepted: seq<nat>
    ghost var incoming: seq<nat>
    ghost var delivered: seq<nat>

    ghost function View(): (e: Side)
      reads this
    {
      Side(role, pc, sentInit, pending, requestKex, startKex, reading, writeEpoch, readEpoch,
           accepted, incoming, delivered, wire)
    }

    constructor (role: Role, rekeyBytes: int)
      ensures View() == NewSide(role) && writeBudget == FreshBudget(rekeyBytes)
      ensures this.role == role && this.rekeyBytes == rekeyBytes
    {
      this.role, this.rekeyBytes := role, rekeyBytes;
      sentInit, pending, requestKex, startKex := false, [], true, false;
      writeBudget, wire, writeEpoch := FreshBudget(rekeyBytes), [], 0;
      pc, reading, readEpoch, accepted, incoming, delivered := Collect(false, false), true, 0, [], [], [];
    }

    method PushPacket(kind: Kind)
      modifies this`wire
      ensures View() == Push(old(View()), kind)
    {
      wire := wire + [Wire(kind, writeEpoch)];
    }

    /** Any number of requests make one. */
    method RequestKeyExchange()
      modifies this`requestKex
      ensures requestKex
    {
      if !requestKex {
        requestKex := true;
      }
    }

    /**
     * A packet of the layer above is accepted, unless it has the number of a KEXINIT or
     * of NEWKEYS: put on the wire, or held back once our KEXINIT is out. Whatever other
     * number it has, the reader at the other end passes it up.
     */
    method WritePacket(p: Offered, size: nat) returns (ok: bool)
      requires !Locked(View())
      modifies this
      ensures ok <==> p.Packet?
      ensures !ok ==> View() == old(View())
      ensures ok ==> View() == Wrote(old(View()), p.payload, Asks(old(writeBudget)))
      ensures writeBudget == if ok && !old(sentInit) then Spend(old(writeBudget), size) else old(writeBudget)
      ensures ok && !old(sentInit) ==>
        && wire == old(wire) + [Wire(App(p.payload), writeEpoch)] && pending == old(pending)
        && (requestKex <==>
              old(requestKex) || old(writeBudget).bytesLeft <= 0 || old(writeBudget).packetsLeft <= 0)
      ensures ok && old(sentInit) ==>
        wire == old(wire) && pending == old(pending) + [p.payload] && requestKex == old(requestKex)
    {
      match p
      case LikeKexInit => return false;
      case LikeNewKeys => return false;
      case Packet(x) =>
        accepted := accepted + [x];
        if sentInit {
          pending := pending + [x];
          return true;
        }
        if writeBudget.bytesLeft > 0 {
          writeBudget := writeBudget.(bytesLeft := writeBudget.bytesLeft - size);
        } else {
          RequestKeyExchange();
        }
        if writeBudget.packetsLeft > 0 {
          writeBudget := writeBudget.(packetsLeft := writeBudget.packetsLeft - 1);
        } else {
          RequestKeyExchange();
        }
        PushPacket(App(x));
        return true;
    }

    /** At most one KEXINIT in an exchange. */
    method SendKexInit()
      requires pc.MustSend?
      modifies this`sentInit, this`wire, this`pc
      ensures View() == Acted(Alone(old(View())), SendInit)
      ensures sentInit && wire == if old(sentInit) then old(wire) else old(wire) + [Wire(KexInit, writeEpoch)]
    {
      pc := Collect(pc.got, true);
      if sentInit {
        return;
      }
      PushPacket(KexInit);
      sentInit := true;
    }

    /** The packets held back go out, in order. */
    method FlushPending()
      requires pc.Flush?
      modifies this`wire, this`pending
      ensures wire == old(wire) + Wires(old(pending), writeEpoch) && pending == []
    {
      for i := 0 to |pending|
        invariant pending == old(pending)
        invariant wire == old(wire) + Wires(pending[..i], writeEpoch)
      {
        WiresAppend(pending[..i], pending[i], writeEpoch);
        assert pending[..i + 1] == pending[..i] + [pending[i]];
        PushPacket(App(pending[i]));
      }
      assert pending[..|pending|] == pending;
      pending := [];
    }

    /** The part of the key-exchange loop after an exchange, all of it under the lock. */
    method CompleteExchange()
      requires pc.Exchange? && pc.gotNewKeys
      modifies this
      ensures View() == Flushed(Acted(Alone(old(View())), Finish))
      ensures wire == old(wire) + Wires(old(pending), old(writeEpoch)) && pending == []
      ensures writeBudget == FreshBudget(rekeyBytes) && !requestKex && !sentInit
    {
      hide Wires, Flushed, Acted;
      FinishIs(View());
      sentInit := false;
      writeBudget := FreshBudget(rekeyBytes);
      requestKex := false;
      reading, pc := true, Flush;
      ghost var finished := View();
      assert finished == Acted(Alone(old(View())), Finish);
      FlushedIs(finished);
      FlushPending();
      pc := Collect(false, false);
    }
  }
}
