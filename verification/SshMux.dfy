/**
 * Many channels over one connection: how channel ids are assigned, looked up,
 * freed and used again. A state machine of two multiplexers joined by FIFO
 * links. Each opened channel has a session number that the program does not
 * know; it serves to say which channel a packet was meant for.
 */
module SshMux {
  import opened Bytes

  // ----- The channel list ---------------------------------------------------

  /** The index of the first free slot, or the length of the list if there is none. */
  function FirstFree<T>(slots: seq<Option<T>>): (i: nat)
    ensures i <= |slots| && (i < |slots| ==> slots[i].None?)
    ensures forall j :: 0 <= j < i ==> slots[j].Some?
  {
    if |slots| == 0 || slots[0].None? then 0 else 1 + FirstFree(slots[1..])
  }

  function Added<T>(slots: seq<Option<T>>, ch: T): (r: seq<Option<T>>)
  {
    var i := FirstFree(slots);
    if i < |slots| then slots[i := Some(ch)] else slots + [Some(ch)]
  }

  function Lookup<T>(slots: seq<Option<T>>, id: nat): (r: Option<T>)
  {
    if id < |slots| then slots[id] else None
  }

  function Removed<T>(slots: seq<Option<T>>, id: nat): (r: seq<Option<T>>)
  {
    if id < |slots| then slots[id := None] else slots
  }

  function Live<T>(slots: seq<Option<T>>): (r: seq<T>)
  {
    if |slots| == 0 then []
    else
      var last := slots[|slots| - 1];
      Live(slots[..|slots| - 1]) + if last.Some? then [last.value] else []
  }

  function InUse<T>(slots: seq<Option<T>>): (n: nat)
  {
    if |slots| == 0 then 0
    else InUse(slots[..|slots| - 1]) + if slots[|slots| - 1].Some? then 1 else 0
  }

  /** The channels in use, all of them and no other, in the order of their slots. */
  lemma {:induction false} LiveInOrder<T>(slots: seq<Option<T>>)
    ensures |Live(slots)| == InUse(slots)
    ensures forall i :: 0 <= i < |slots| && slots[i].Some? ==>
      InUse(slots[..i]) < InUse(slots) && Live(slots)[InUse(slots[..i])] == slots[i].value
  {
    if |slots| > 0 {
      var k := |slots| - 1;
      LiveInOrder(slots[..k]);
      forall i | 0 <= i < |slots| && slots[i].Some?
        ensures InUse(slots[..i]) < InUse(slots) && Live(slots)[InUse(slots[..i])] == slots[i].value
      {
        if i < k {
          assert slots[..k][..i] == slots[..i] && slots[..k][i] == slots[i];
        }
      }
    }
  }

  /** Adding a channel gives it an id of its own: no other id's answer changes. */
  lemma AddedIsFresh<T>(slots: seq<Option<T>>, ch: T)
    ensures var id := FirstFree(slots);
      && Lookup(slots, id).None? && Lookup(Added(slots, ch), id) == Some(ch)
      && forall j: nat :: j != id ==> Lookup(Added(slots, ch), j) == Lookup(slots, j)
  {
  }

  /** The list of channels, indexed by local id; ids are offset by a constant. */
  class ChanList<T(==)> {
    var chans: seq<Option<T>>
    const offset: nat

    constructor (offset: nat)
      requires offset < U32_LIMIT
      ensures chans == [] && this.offset == offset
    {
      chans := [];
      this.offset := offset;
    }

    method Add(ch: T) returns (id: nat)
      requires |chans| < U32_LIMIT
      modifies this
      ensures chans == Added(old(chans), ch)
      ensures id == (FirstFree(old(chans)) + offset) % U32_LIMIT
    {
      var i := 0;
      while i < |chans|
        invariant 0 <= i <= |chans| && chans == old(chans)
        invariant i + FirstFree(chans[i..]) == FirstFree(chans)
      {
        if chans[i].None? {
          chans := chans[i := Some(ch)];
          return (i + offset) % U32_LIMIT;
        }
        assert chans[i..][1..] == chans[i + 1..];
        i := i + 1;
      }
      chans := chans + [Some(ch)];
      return (|chans| - 1 + offset) % U32_LIMIT;
    }

    method GetChan(id: nat) returns (r: Option<T>)
      requires id < U32_LIMIT
      ensures r == Lookup(chans, (id - offset) % U32_LIMIT)
    {
      var i := (id - offset) % U32_LIMIT;
      r := if i < |chans| then chans[i] else None;
    }

    method Remove(id: nat)
      requires id < U32_LIMIT
      modifies this
      ensures chans == Removed(old(chans), (id - offset) % U32_LIMIT)
    {
      var i := (id - offset) % U32_LIMIT;
      if i < |chans| {
        chans := chans[i := None];
      }
    }

    method DropAll() returns (r: seq<T>)
      modifies this
      ensures chans == [] && r == Live(old(chans)) && |r| == InUse(old(chans))
      ensures forall i :: 0 <= i < |old(chans)| && old(chans)[i].Some? ==>
        InUse(old(chans)[..i]) < |r| && r[InUse(old(chans)[..i])] == old(chans)[i].value
    {
      LiveInOrder(chans);
      r := [];
      for i := 0 to |chans|
        invariant chans == old(chans) && r == Live(chans[..i])
      {
        assert chans[..i + 1][..i] == chans[..i];
        if chans[i].Some? {
          r := r + [chans[i].value];
        }
      }
      assert chans[..|chans|] == chans;
      chans := [];
    }
  }

  /** The id that Add answers is the one under which GetChan finds the channel. */
  lemma IdFindsChannel<T>(slots: seq<Option<T>>, ch: T, offset: nat)
    requires |slots| < U32_LIMIT && offset < U32_LIMIT
    ensures var id := (FirstFree(slots) + offset) % U32_LIMIT;
      (id - offset) % U32_LIMIT == FirstFree(slots) &&
      Lookup(Added(slots, ch), (id - offset) % U32_LIMIT) == Some(ch)
  {
    hide FirstFree, Added, Lookup;
    AddedIsFresh(slots, ch);
    OffsetCancels(FirstFree(slots), offset);
  }

  lemma OffsetCancels(i: nat, offset: nat)
    requires i < U32_LIMIT && offset < U32_LIMIT
    ensures ((i + offset) % U32_LIMIT - offset) % U32_LIMIT == i
  {
    if i + offset >= U32_LIMIT {
      assert (i + offset) % U32_LIMIT == i + offset - U32_LIMIT;
    }
  }

  // ----- State --------------------------------------------------------------

  /** A channel object. It outlives its place in the channel list. */
  datatype Chan = Chan(
    localId: nat,
    remoteId: nat,
    inbound: bool,
    decided: bool,
    refused: bool,
    sentClose: bool)

  /** One multiplexer: its channel objects by session, and its list of ids in use. */
  datatype Mux = Mux(chans: map<nat, Chan>, slots: seq<Option<nat>>)

  datatype Kind = Open | Confirm | Failure | Message | Close

  /** A packet; session is not on the wire. */
  datatype Packet = Packet(session: nat, kind: Kind, to: nat, from: nat)

  type Link = seq<Packet>

  /** next is the session number of the next channel to be opened. */
  datatype State = State(a: Mux, b: Mux, toB: Link, toA: Link, next: nat)

  function Swap(s: State): (t: State)
  {
    State(s.b, s.a, s.toA, s.toB, s.next)
  }

  ghost predicate Init(s: State)
  {
    s == State(Mux(map[], []), Mux(map[], []), [], [], 0)
  }

  // ----- Steps --------------------------------------------------------------

  datatype Step =
    | DoOpen
    | DoAccept(k: nat)
    | DoReject(k: nat)
    | DoSend(k: nat)
    | DoClose(k: nat)
    | DoDeliver

  /** The application holds the channel and may call its methods. */
  ghost predicate Usable(m: Mux, k: nat)
  {
    k in m.chans && m.chans[k].decided && !m.chans[k].refused
  }

  function Register(m: Mux, k: nat, remoteId: nat, inbound: bool): (m': Mux)
  {
    Mux(m.chans[k := Chan(FirstFree(m.slots), remoteId, inbound, false, false, false)], Added(m.slots, k))
  }

  /** writePacket for the channel of session k: nothing is sent once a close was. */
  function Put(m: Mux, out: Link, k: nat, kind: Kind): (out': Link)
    requires k in m.chans
  {
    var c := m.chans[k];
    if c.sentClose then out else out + [Packet(k, kind, c.remoteId, c.localId)]
  }

  function MarkClosed(m: Mux, k: nat): (m': Mux)
    requires k in m.chans
  {
    m.(chans := m.chans[k := m.chans[k].(sentClose := true)])
  }

  /**
   * Delivery of the packet: the channel is found by the id in the packet alone.
   * None where the code would fail and tear the connection down.
   */
  function Deliver(m: Mux, out: Link, p: Packet): (r: Option<(Mux, Link)>)
  {
    if p.kind.Open? then Some((Register(m, p.session, p.from, true), out))
    else
      match Lookup(m.slots, p.to)
      case None => None
      case Some(k) =>
        if k !in m.chans then None
        else
          var c := m.chans[k];
          match p.kind
          case Confirm =>
            if c.inbound || c.decided then None
            else Some((m.(chans := m.chans[k := c.(decided := true, remoteId := p.from)]), out))
          case Failure =>
            if c.inbound || c.decided then None
            else
              Some((Mux(m.chans[k := c.(decided := true, refused := true)], Removed(m.slots, p.to)), out))
          case Message => if c.decided then Some((m, out)) else None
          case _ =>
            Some((MarkClosed(m, k).(slots := Removed(m.slots, c.localId)), Put(m, out, k, Close)))
  }

  ghost predicate Enabled(s: State, step: Step)
  {
    match step
    case DoOpen => true
    case DoAccept(k) => k in s.a.chans && s.a.chans[k].inbound && !s.a.chans[k].decided
    case DoReject(k) => k in s.a.chans && s.a.chans[k].inbound && !s.a.chans[k].decided
    case DoSend(k) => Usable(s.a, k)
    case DoClose(k) => Usable(s.a, k)
    case DoDeliver => |s.toA| > 0 && Deliver(s.a, s.toB, s.toA[0]).Some?
  }

  function After(s: State, step: Step): (s': State)
    requires Enabled(s, step)
  {
    match step
    case DoOpen =>
      s.(a := Register(s.a, s.next, 0, false),
         toB := s.toB + [Packet(s.next, Open, 0, FirstFree(s.a.slots))], next := s.next + 1)
    case DoAccept(k) =>
      s.(a := s.a.(chans := s.a.chans[k := s.a.chans[k].(decided := true)]), toB := Put(s.a, s.toB, k, Confirm))
    case DoReject(k) =>
      s.(a := s.a.(chans := s.a.chans[k := s.a.chans[k].(decided := true, refused := true)]),
         toB := Put(s.a, s.toB, k, Failure))
    case DoSend(k) => s.(toB := Put(s.a, s.toB, k, Message))
    case DoClose(k) => s.(a := MarkClosed(s.a, k), toB := Put(s.a, s.toB, k, Close))
    case DoDeliver =>
      var (a', toB') := Deliver(s.a, s.toB, s.toA[0]).value;
      s.(a := a', toB := toB', toA := s.toA[1..])
  }

  ghost predicate Next(s: State, s': State)
  {
    || (exists step :: Enabled(s, step) && s' == After(s, step))
    || (exists step :: Enabled(Swap(s), step) && s' == Swap(After(Swap(s), step)))
  }

  ghost predicate IsRun(run: seq<State>)
  {
    && |run| > 0 && Init(run[0])
    && forall i :: 0 <= i < |run| - 1 ==> Next(run[i], run[i + 1])
  }

  // ----- The life of a session in one direction -----------------------------

  datatype View = NotOpened | Waiting | Established | Refused | Over | Broken

  /** How a packet moves the receiver's view of a session. */
  function Delta(v: View, kind: Kind): (v': View)
  {
    match (v, kind)
    case (NotOpened, Open) => Established
    case (Waiting, Confirm) => Established
    case (Waiting, Failure) => Refused
    case (Established, Message) => Established
    case (Established, Close) => Over
    case _ => Broken
  }

  /** The receiver's view after all packets on a link. */
  function Scan(l: Link, k: nat, v: View): (v': View)
  {
    if |l| == 0 then v
    else Scan(l[1..], k, if l[0].session == k then Delta(v, l[0].kind) else v)
  }

  lemma {:induction false} ScanAppend(l: Link, p: Packet, k: nat, v: View)
    ensures Scan(l + [p], k, v) == if p.session == k then Delta(Scan(l, k, v), p.kind) else Scan(l, k, v)
  {
    if |l| == 0 {
      assert l + [p] == [p] && [p][1..] == [];
    } else {
      assert (l + [p])[1..] == l[1..] + [p];
      ScanAppend(l[1..], p, k, if l[0].session == k then Delta(v, l[0].kind) else v);
    }
  }

  lemma {:induction false} ScanStaysBroken(l: Link, k: nat)
    ensures Scan(l, k, Broken) == Broken
  {
    if |l| > 0 {
      ScanStaysBroken(l[1..], k);
    }
  }

  /** A session that is established, or over, is not waited for or refused any more. */
  lemma {:induction false} ScanMovesOn(l: Link, k: nat, v: View)
    requires v != Waiting && v != Refused
    ensures Scan(l, k, v) != Waiting && Scan(l, k, v) != Refused
  {
    if |l| > 0 {
      ScanMovesOn(l[1..], k, if l[0].session == k then Delta(v, l[0].kind) else v);
    }
  }

  ghost predicate Present(m: Mux, k: nat)
  {
    k in m.chans && Lookup(m.slots, m.chans[k].localId) == Some(k)
  }

  /** What a multiplexer has received of session k. */
  ghost function Received(m: Mux, k: nat): (v: View)
  {
    if k !in m.chans then NotOpened
    else if !Present(m, k) then (if m.chans[k].refused then Refused else Over)
    else if !m.chans[k].inbound && !m.chans[k].decided then Waiting
    else Established
  }

  /** What it has sent of it. */
  ghost function SentSoFar(m: Mux, k: nat): (v: View)
  {
    if k !in m.chans || (m.chans[k].inbound && !m.chans[k].decided) then Waiting
    else if m.chans[k].inbound && m.chans[k].refused then Refused
    else if m.chans[k].sentClose then Over
    else Established
  }

  /** The session was opened by m. */
  ghost predicate Opened(m: Mux, k: nat)
  {
    k in m.chans && !m.chans[k].inbound
  }

  // ----- The invariant ------------------------------------------------------

  /** What a packet on its way from snd to rcv says about both. */
  ghost predicate PacketOK(snd: Mux, rcv: Mux, p: Packet)
  {
    && p.session in snd.chans
    && (if p.kind.Open? then Opened(snd, p.session) && p.from == snd.chans[p.session].localId
        else p.session in rcv.chans && p.to == rcv.chans[p.session].localId)
    && (p.kind.Confirm? ==> p.from == snd.chans[p.session].localId)
    && (p.kind.Message? || p.kind.Close? ==> Usable(snd, p.session))
  }

  /** The direction from snd to rcv, for session k. */
  ghost predicate SessionOK(snd: Mux, rcv: Mux, l: Link, k: nat)
  {
    && Scan(l, k, Received(rcv, k)) == SentSoFar(snd, k)
    && (k in snd.chans ==>
          var c := snd.chans[k];
          && (c.inbound ==> Opened(rcv, k))
          && (c.inbound || (c.decided && !c.refused) ==> k in rcv.chans && c.remoteId == rcv.chans[k].localId)
          && (c.sentClose ==> c.decided && !c.refused) && (c.refused ==> c.decided)
          && (!c.inbound ==> k in rcv.chans ==> rcv.chans[k].inbound)
          && (!Present(snd, k) ==> c.sentClose || c.refused)
          && (c.refused && !c.inbound ==> !Present(snd, k)))
  }

  ghost predicate Direction(snd: Mux, rcv: Mux, l: Link, next: nat)
  {
    && (forall k: nat :: k < next ==> SessionOK(snd, rcv, l, k))
    && (forall k: nat :: k in snd.chans ==> k < next)
    && (forall i :: 0 <= i < |l| ==> PacketOK(snd, rcv, l[i]))
    && SlotsOK(snd)
  }

  /** A slot in use holds the channel whose id it is. */
  ghost predicate SlotsOK(m: Mux)
  {
    forall i: nat, k: nat :: Lookup(m.slots, i) == Some(k) ==> k in m.chans && m.chans[k].localId == i
  }

  ghost predicate Inv(s: State)
  {
    && Direction(s.a, s.b, s.toB, s.next) && Direction(s.b, s.a, s.toA, s.next)
    && (forall k: nat :: k < s.next ==> k in s.a.chans || k in s.b.chans)
  }
}
