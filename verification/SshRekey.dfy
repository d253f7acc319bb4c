/**
 * The re-keying transport: concurrent writers, a read loop and a key-exchange
 * loop on each of two sides, joined by FIFO links, as a state machine whose
 * steps are the atomic sections of the code. Any number of key exchanges may
 * follow each other, and either side or both may ask for one.
 */
module SshRekey {

  // ----- State --------------------------------------------------------------

  datatype Role = Client | Server

  /** What a packet is, as far as this layer looks into it. */
  datatype Kind = App(payload: nat) | KexInit | KexMsg | NewKeys

  /** A packet with the number of the keys it was protected with. */
  datatype Wire = Wire(kind: Kind, epoch: nat)

  type Link = seq<Wire>

  /** What can wait for the layer above: a channel of 16 packets, and the one the read loop holds. */
  const INCOMING_ROOM := 17

  /**
   * Where the key-exchange loop stands. Collect: waiting for the peer's KEXINIT
   * (got: it arrived) and for a reason to send ours (sent: it was sent). MustSend:
   * about to send ours. Exchange: inside enterKeyExchange. Flush: the exchange is
   * over, the lock is held, and the packets held back are being written.
   */
  datatype Pc =
    | Collect(got: bool, sent: bool)
    | MustSend(got: bool)
    | Exchange(sentMsg: bool, gotMsg: bool, sentNewKeys: bool, gotNewKeys: bool)
    | Flush

  /**
   * One side. reading is false while the read loop waits for an exchange to end.
   * writeEpoch and readEpoch count the key changes in each direction; accepted,
   * delivered and log are histories: what writePacket accepted, what the layer above
   * was given, and all that was put on the wire. incoming waits for the layer above.
   */
  datatype Side = Side(
    role: Role,
    pc: Pc,
    sentInit: bool,
    pending: seq<nat>,
    requestKex: bool,
    startKex: bool,
    reading: bool,
    writeEpoch: nat,
    readEpoch: nat,
    accepted: seq<nat>,
    incoming: seq<nat>,
    delivered: seq<nat>,
    log: Link)

  datatype State = State(a: Side, b: Side, toB: Link, toA: Link)

  function Swap(s: State): (t: State)
  {
    State(s.b, s.a, s.toA, s.toB)
  }

  /** Both sides start with a request for the mandatory first exchange. */
  function NewSide(role: Role): (e: Side)
  {
    Side(role, Collect(false, false), false, [], true, false, true, 0, 0, [], [], [], [])
  }

  ghost predicate Init(s: State)
  {
    s.a == NewSide(s.a.role) && s.b == NewSide(s.b.role) && s.a.role != s.b.role && s.toA == [] && s.toB == []
  }

  // ----- Steps --------------------------------------------------------------

  datatype Step =
    | Write(payload: nat, ask: bool)
    | TakeRequest
    | TakeStart
    | SendInit
    | Enter
    | SendMsg
    | SendNewKeys
    | ReadInKex
    | Finish
    | FlushOne
    | Unlock
    | ReadOne(ask: bool)
    | Take

  /** The lock is held from the end of an exchange until the held packets are written. */
  ghost predicate Locked(e: Side)
  {
    e.pc.Flush?
  }

  function Push(e: Side, kind: Kind): (e': Side)
  {
    e.(log := e.log + [Wire(kind, e.writeEpoch)])
  }

  /** What the exchange reads next, if it is its turn to read. */
  ghost predicate KexReads(e: Side)
  {
    && e.pc.Exchange?
    && var x := e.pc;
       || (!x.gotMsg && (e.role.Client? ==> x.sentMsg))
       || (x.gotMsg && x.sentMsg && x.sentNewKeys && !x.gotNewKeys)
  }

  /** The packet the exchange has to find there: anything else ends it with an error. */
  ghost predicate KexExpects(e: Side, p: Wire)
    requires e.pc.Exchange?
  {
    p.epoch == e.readEpoch && (if e.pc.gotMsg then p.kind.NewKeys? else p.kind.KexMsg?)
  }

  /** What the read loop may find: application packets, and a KEXINIT it has room to announce. */
  ghost predicate ReaderExpects(e: Side, p: Wire)
  {
    p.epoch == e.readEpoch && (p.kind.App? || (p.kind.KexInit? && !e.startKex))
  }

  ghost predicate Enabled(s: State, step: Step)
  {
    var e := s.a;
    match step
    // Applications write once the first exchange is over.
    case Write(_, _) => !Locked(e) && e.readEpoch > 0 && e.writeEpoch > 0
    case TakeRequest => e.pc.Collect? && !(e.pc.got && e.pc.sent) && e.requestKex
    case TakeStart => e.pc.Collect? && !(e.pc.got && e.pc.sent) && e.startKex
    case SendInit => e.pc.MustSend?
    case Enter => e.pc == Collect(true, true)
    case SendMsg => e.pc.Exchange? && !e.pc.sentMsg && (e.role.Server? ==> e.pc.gotMsg)
    case SendNewKeys => e.pc.Exchange? && e.pc.sentMsg && e.pc.gotMsg && !e.pc.sentNewKeys
    case ReadInKex => KexReads(e) && |s.toA| > 0 && KexExpects(e, s.toA[0])
    case Finish => e.pc.Exchange? && e.pc.gotNewKeys
    case FlushOne => Locked(e) && |e.pending| > 0
    case Unlock => Locked(e) && |e.pending| == 0
    // With no room left the read loop waits for the layer above.
    case ReadOne(_) => e.reading && |s.toA| > 0 && |e.incoming| < INCOMING_ROOM && ReaderExpects(e, s.toA[0])
    case Take => |e.incoming| > 0
  }

  /** A packet is held back or sent; past a limit of packets or bytes, a direct write also asks for an exchange. */
  function Wrote(e: Side, x: nat, ask: bool): (e': Side)
  {
    if e.sentInit then e.(pending := e.pending + [x], accepted := e.accepted + [x])
    else Push(e, App(x)).(accepted := e.accepted + [x], requestKex := e.requestKex || ask)
  }

  /** The side after its step. */
  function Acted(s: State, step: Step): (e': Side)
    requires Enabled(s, step)
  {
    var e := s.a;
    match step
    case Write(x, ask) => Wrote(e, x, ask)
    case TakeRequest =>
      e.(requestKex := false, pc := if e.pc.sent then e.pc else MustSend(e.pc.got))
    case TakeStart =>
      e.(startKex := false, pc := if e.pc.sent then Collect(true, true) else MustSend(true))
    case SendInit =>
      // Not sent twice in one exchange.
      if e.sentInit then e.(pc := Collect(e.pc.got, true))
      else Push(e, KexInit).(sentInit := true, pc := Collect(e.pc.got, true))
    case Enter => e.(pc := Exchange(false, false, false, false))
    case SendMsg => Push(e, KexMsg).(pc := e.pc.(sentMsg := true))
    case SendNewKeys => Push(e, NewKeys).(pc := e.pc.(sentNewKeys := true), writeEpoch := e.writeEpoch + 1)
    case ReadInKex =>
      if e.pc.gotMsg then e.(pc := e.pc.(gotNewKeys := true), readEpoch := e.readEpoch + 1)
      else e.(pc := e.pc.(gotMsg := true))
    case Finish => e.(sentInit := false, requestKex := false, reading := true, pc := Flush)
    case FlushOne => Push(e, App(e.pending[0])).(pending := e.pending[1..])
    case Unlock => e.(pc := Collect(false, false))
    case Take => e.(delivered := e.delivered + [e.incoming[0]], incoming := e.incoming[1..])
    case ReadOne(ask) =>
      var e1 := e.(requestKex := e.requestKex || ask);
      match s.toA[0].kind
      case App(x) => e1.(incoming := e.incoming + [x])
      case _ => e1.(startKex := true, reading := false)
  }

  function After(s: State, step: Step): (s': State)
    requires Enabled(s, step)
  {
    var e' := Acted(s, step);
    State(e', s.b,
          s.toB + (if |e'.log| > |s.a.log| then [e'.log[|e'.log| - 1]] else []),
          if step.ReadInKex? || step.ReadOne? then s.toA[1..] else s.toA)
  }

  ghost predicate Next(s: State, s': State)
  {
    || (exists step :: Enabled(s, step) && s' == After(s, step))
    || (exists step :: Enabled(Swap(s), step) && s' == Swap(After(Swap(s), step)))
  }

  ghost predicate IsRun(run: seq<State>)
  {
    && |run| > 0 && Init(run[0])
    && forall i :: 0 <= i < |run| - 1 ==> Next(run[i], run[i + 1])
  }

  // ----- The order of packets in one direction ------------------------------

  /**
   * Application packets flow in phase Normal; a KEXINIT, one message of the key
   * exchange method and NEWKEYS lead, with nothing in between, to the next keys.
   */
  datatype Phase = Normal(epoch: nat) | Init(epoch: nat) | Msg(epoch: nat) | Broken

  function Delta(v: Phase, p: Wire): (v': Phase)
  {
    if v.Broken? || p.epoch != v.epoch then Broken
    else
      match (v, p.kind)
      case (Normal(e), App(_)) => Normal(e)
      case (Normal(e), KexInit) => Phase.Init(e)
      case (Init(e), KexMsg) => Msg(e)
      case (Msg(e), NewKeys) => Normal(e + 1)
      case _ => Broken
  }

  function Scan(l: Link, v: Phase): (v': Phase)
  {
    if |l| == 0 then v else Scan(l[1..], Delta(v, l[0]))
  }

  lemma {:induction false} ScanAppend(l: Link, p: Wire, v: Phase)
    ensures Scan(l + [p], v) == Delta(Scan(l, v), p)
  {
    if |l| == 0 {
      assert l + [p] == [p] && [p][1..] == [];
    } else {
      assert (l + [p])[1..] == l[1..] + [p];
      ScanAppend(l[1..], p, Delta(v, l[0]));
    }
  }

  lemma {:induction false} ScanBroken(l: Link)
    ensures Scan(l, Broken) == Broken
  {
    if |l| > 0 {
      ScanBroken(l[1..]);
    }
  }

  function AppOf(p: Wire): (xs: seq<nat>)
  {
    if p.kind.App? then [p.kind.payload] else []
  }

  /** The application packets on a link. */
  function Apps(l: Link): (xs: seq<nat>)
  {
    if |l| == 0 then [] else AppOf(l[0]) + Apps(l[1..])
  }

  lemma {:induction false} AppsAppend(l: Link, p: Wire)
    ensures Apps(l + [p]) == Apps(l) + AppOf(p)
  {
    if |l| == 0 {
      assert l + [p] == [p] && [p][1..] == [];
    } else {
      assert (l + [p])[1..] == l[1..] + [p] && (l + [p])[0] == l[0];
      AppsAppend(l[1..], p);
      var x, y := AppOf(l[0]), AppOf(p);
      assert x + (Apps(l[1..]) + y) == x + Apps(l[1..]) + y;
    }
  }

  /** Where a side is in what it sends. */
  function Sending(e: Side): (v: Phase)
  {
    match e.pc
    case Exchange(sentMsg, _, sentNewKeys, _) =>
      if sentNewKeys then Normal(e.writeEpoch)
      else if sentMsg then Msg(e.writeEpoch)
      else Phase.Init(e.writeEpoch)
    case _ => if e.sentInit then Phase.Init(e.writeEpoch) else Normal(e.writeEpoch)
  }

  /** Where a side is in what it has read. */
  function Receiving(e: Side): (v: Phase)
  {
    match e.pc
    case Exchange(_, gotMsg, _, gotNewKeys) =>
      if gotNewKeys then Normal(e.readEpoch)
      else if gotMsg then Msg(e.readEpoch)
      else Phase.Init(e.readEpoch)
    case _ => if e.reading then Normal(e.readEpoch) else Phase.Init(e.readEpoch)
  }

  // ----- The invariant ------------------------------------------------------

  /** Where the key-exchange loop stands agrees with the fields of the side. */
  ghost predicate PcOK(e: Side)
  {
    match e.pc
    case Collect(got, sent) =>
      && (sent <==> e.sentInit) && (got ==> !e.reading && !e.startKex) && e.writeEpoch == e.readEpoch
      && (got ==> sent) && (!got ==> (e.reading <==> !e.startKex))
    case MustSend(got) =>
      && !e.sentInit && (got ==> !e.reading && !e.startKex) && e.writeEpoch == e.readEpoch
      && (!got ==> (e.reading <==> !e.startKex))
    case Exchange(sentMsg, gotMsg, sentNewKeys, gotNewKeys) =>
      && e.sentInit && !e.reading && !e.startKex
      && (sentNewKeys ==> sentMsg && gotMsg) && (gotNewKeys ==> sentNewKeys)
      && (e.role.Client? && gotMsg ==> sentMsg) && (e.role.Server? && sentMsg ==> gotMsg)
      && e.writeEpoch == e.readEpoch + (if sentNewKeys && !gotNewKeys then 1 else 0)
    case Flush => !e.sentInit && (e.reading <==> !e.startKex) && e.writeEpoch == e.readEpoch
  }

  /** What holds of one side by itself. */
  ghost predicate SideOK(e: Side)
  {
    && PcOK(e)
    && (!e.sentInit && !e.pc.Flush? ==> e.pending == [])
    && Scan(e.log, Normal(0)) == Sending(e)
    && Apps(e.log) + e.pending == e.accepted
  }

  /** What is on its way takes the receiver where the sender is, and completes what was accepted. */
  ghost predicate LinkOK(snd: Side, rcv: Side, l: Link)
  {
    && Scan(l, Receiving(rcv)) == Sending(snd)
    && rcv.delivered + rcv.incoming + Apps(l) == Apps(snd.log)
  }

  ghost predicate Inv(s: State)
  {
    && SideOK(s.a) && SideOK(s.b) && s.a.role != s.b.role
    && LinkOK(s.a, s.b, s.toB) && LinkOK(s.b, s.a, s.toA)
  }

  lemma InitInv(s: State)
    requires Init(s)
    ensures Inv(s)
  {
  }

  /** The step writes to the connection. */
  ghost predicate Pushes(e: Side, step: Step)
  {
    match step
    case Write(_, _) => !e.sentInit
    case SendInit => !e.sentInit
    case SendMsg => true
    case SendNewKeys => true
    case FlushOne => true
    case _ => false
  }

  lemma QuietStep(s: State, step: Step)
    requires PcOK(s.a) && Enabled(s, step) && !Pushes(s.a, step)
    ensures var e' := Acted(s, step); e'.log == s.a.log && Sending(e') == Sending(s.a)
  {
  }

  lemma PushingStep(s: State, step: Step)
    requires PcOK(s.a) && Enabled(s, step) && Pushes(s.a, step)
    ensures var e' := Acted(s, step);
      && |e'.log| == |s.a.log| + 1 && e'.log == s.a.log + [e'.log[|s.a.log|]]
      && Sending(e') == Delta(Sending(s.a), e'.log[|s.a.log|])
  {
  }

  /** What a step puts on the wire: nothing, or one packet that its phase allows. */
  lemma StepSends(s: State, step: Step)
    requires SideOK(s.a) && Enabled(s, step)
    ensures var e' := Acted(s, step);
      || (e'.log == s.a.log && Sending(e') == Sending(s.a))
      || (|e'.log| == |s.a.log| + 1 && e'.log == s.a.log + [e'.log[|s.a.log|]] &&
          Sending(e') == Delta(Sending(s.a), e'.log[|s.a.log|]))
  {
    hide Scan, Apps, Acted, Enabled, PcOK, Sending, Delta, Pushes;
    if Pushes(s.a, step) {
      PushingStep(s, step);
    } else {
      QuietStep(s, step);
    }
  }

  lemma StepPc(s: State, step: Step)
    requires PcOK(s.a) && Enabled(s, step)
    ensures PcOK(Acted(s, step)) && Acted(s, step).role == s.a.role
  {
  }

  /** What a step does to the packets accepted, held back and sent. */
  lemma StepHolds(s: State, step: Step)
    requires SideOK(s.a) && Enabled(s, step)
    ensures var e, e' := s.a, Acted(s, step);
      && (!e'.sentInit && !e'.pc.Flush? ==> e'.pending == [])
      && (e'.log == e.log ==> exists more :: e'.pending == e.pending + more && e'.accepted == e.accepted + more)
      && (|e'.log| == |e.log| + 1 ==>
            var xs := AppOf(e'.log[|e.log|]);
            || (xs + e'.pending == e.pending && e'.accepted == e.accepted)
            || (e.pending == e'.pending == [] && e'.accepted == e.accepted + xs))
  {
    hide Scan, Apps, Sending;
    var e, e' := s.a, Acted(s, step);
    if step.Write? && e.sentInit {
      assert e'.pending == e.pending + [step.payload] && e'.accepted == e.accepted + [step.payload];
    } else {
      assert e.pending == e.pending + [] && e.accepted == e.accepted + [];
    }
    if step.FlushOne? {
      assert [e.pending[0]] + e.pending[1..] == e.pending;
    }
  }

  lemma StepSide(s: State, step: Step)
    requires SideOK(s.a) && Enabled(s, step)
    ensures SideOK(Acted(s, step)) && Acted(s, step).role == s.a.role
  {
    hide Scan, Apps, Acted, Enabled, PcOK, Sending, Delta, AppOf;
    var e, e' := s.a, Acted(s, step);
    StepPc(s, step);
    StepSends(s, step);
    StepHolds(s, step);
    if |e'.log| > |e.log| {
      var p := e'.log[|e.log|];
      ScanAppend(e.log, p, Normal(0));
      AppsAppend(e.log, p);
      Regrouped(Apps(e.log), AppOf(p), e'.pending, e.pending);
    } else {
      var more :| e'.pending == e.pending + more && e'.accepted == e.accepted + more;
      assert Apps(e.log) + (e.pending + more) == Apps(e.log) + e.pending + more;
    }
  }

  lemma Regrouped(a: seq<nat>, b: seq<nat>, c: seq<nat>, bc: seq<nat>)
    ensures a + b + c == a + (b + c)
    ensures bc == [] ==> a + bc == a
    ensures c == [] ==> a + b + c == a + b
  {
  }

  lemma StepLinks(s: State, step: Step)
    requires Inv(s) && Enabled(s, step)
    ensures var t := After(s, step); LinkOK(t.a, t.b, t.toB) && LinkOK(t.b, t.a, t.toA)
  {
    hide Scan, Apps, Delta;
    StepOutLink(s, step);
    StepInLink(s, step);
  }

  lemma StepOutLink(s: State, step: Step)
    requires SideOK(s.a) && LinkOK(s.a, s.b, s.toB) && Enabled(s, step)
    ensures var t := After(s, step); LinkOK(t.a, t.b, t.toB)
  {
    hide Scan, Apps, SideOK, Delta;
    var e' := Acted(s, step);
    StepSends(s, step);
    if |e'.log| > |s.a.log| {
      var p := e'.log[|s.a.log|];
      ScanAppend(s.toB, p, Receiving(s.b));
      AppsAppend(s.toB, p);
      AppsAppend(s.a.log, p);
    } else {
      assert s.toB + [] == s.toB;
    }
  }

  /** What a step takes from the wire, and what it passes on. */
  lemma StepReceives(s: State, step: Step)
    requires PcOK(s.a) && Enabled(s, step)
    ensures var e, e' := s.a, Acted(s, step);
      if step.ReadInKex? || step.ReadOne? then
        && |s.toA| > 0 && Receiving(e') == Delta(Receiving(e), s.toA[0])
        && e'.delivered + e'.incoming == e.delivered + e.incoming + AppOf(s.toA[0])
      else Receiving(e') == Receiving(e) && e'.delivered + e'.incoming == e.delivered + e.incoming
  {
    var e := s.a;
    if step.ReadOne? && s.toA[0].kind.App? {
      var x := AppOf(s.toA[0]);
      assert e.delivered + (e.incoming + x) == e.delivered + e.incoming + x;
    }
    if step.Take? {
      var first, rest := [e.incoming[0]], e.incoming[1..];
      assert e.incoming == first + rest;
      assert e.delivered + first + rest == e.delivered + (first + rest);
    }
  }

  lemma StepInLink(s: State, step: Step)
    requires SideOK(s.a) && LinkOK(s.b, s.a, s.toA) && Enabled(s, step)
    ensures var t := After(s, step); LinkOK(t.b, t.a, t.toA)
  {
    hide Scan, Apps, Acted, Enabled, PcOK, Receiving, Sending, Delta, AppOf;
    StepReceives(s, step);
    if step.ReadInKex? || step.ReadOne? {
      ScanPop(s.toA, Receiving(s.a));
      AppsPop(s.toA);
      var e, e' := s.a, Acted(s, step);
      Regrouped(e.delivered + e.incoming, AppOf(s.toA[0]), Apps(s.toA[1..]), []);
    }
  }

  lemma ScanPop(l: Link, v: Phase)
    requires |l| > 0
    ensures Scan(l, v) == Scan(l[1..], Delta(v, l[0]))
  {
  }

  lemma AppsPop(l: Link)
    requires |l| > 0
    ensures Apps(l) == AppOf(l[0]) + Apps(l[1..])
  {
  }

  lemma StepKeepsInv(s: State, step: Step)
    requires Inv(s) && Enabled(s, step)
    ensures Inv(After(s, step))
  {
    hide SideOK, LinkOK, Enabled, Acted;
    StepSide(s, step);
    StepLinks(s, step);
  }

  lemma {:induction false} RunKeepsInv(run: seq<State>, i: nat)
    requires IsRun(run) && i < |run|
    ensures Inv(run[i])
  {
    hide SideOK, LinkOK, Enabled, After;
    if i == 0 {
      InitInv(run[0]);
    } else {
      RunKeepsInv(run, i - 1);
      var s, s' := run[i - 1], run[i - 1 + 1];
      assert Next(s, s');
      if exists step :: Enabled(s, step) && s' == After(s, step) {
        var step :| Enabled(s, step) && s' == After(s, step);
        StepKeepsInv(s, step);
      } else {
        var step :| Enabled(Swap(s), step) && s' == Swap(After(Swap(s), step));
        StepKeepsInv(Swap(s), step);
      }
    }
  }

  // ----- What it is all for -------------------------------------------------

  /** The first packet on a link is one that its receiver's phase allows. */
  lemma FirstAllowed(snd: Side, rcv: Side, l: Link)
    requires SideOK(snd) && LinkOK(snd, rcv, l) && |l| > 0
    ensures !Delta(Receiving(rcv), l[0]).Broken?
  {
    hide Apps;
    ScanPop(l, Receiving(rcv));
    if Delta(Receiving(rcv), l[0]).Broken? {
      ScanBroken(l[1..]);
    }
  }

  /**
   * Whoever reads finds a packet it expects, under the keys it was written with:
   * the read loop never sees a stray message of an exchange, and an exchange never
   * an application packet, or its messages out of turn.
   */
  lemma NothingUnexpected(run: seq<State>, i: nat)
    requires IsRun(run) && i < |run|
    ensures ReadsExpected(run[i].a, run[i].toA) && ReadsExpected(run[i].b, run[i].toB)
  {
    hide IsRun, Scan, Apps;
    RunKeepsInv(run, i);
    FirstExpected(run[i]);
    FirstExpected(Swap(run[i]));
  }

  /** The first packet on the link to a side is one that whoever reads there expects. */
  ghost predicate ReadsExpected(e: Side, l: Link)
  {
    |l| > 0 ==>
      && (e.reading ==> ReaderExpects(e, l[0]))
      && (KexReads(e) ==> KexExpects(e, l[0]))
  }

  lemma FirstExpected(s: State)
    requires Inv(s)
    ensures ReadsExpected(s.a, s.toA)
  {
    hide Scan, Apps;
    if |s.toA| > 0 {
      FirstAllowed(s.b, s.a, s.toA);
    }
  }

  /**
   * What was passed up on one side is a prefix of what the other side's writers
   * were told was accepted: in order, without loss or duplicate. What is missing
   * waits to be passed up, is on the wire or is held back.
   */
  lemma DeliveredInOrder(run: seq<State>, i: nat)
    requires IsRun(run) && i < |run|
    ensures var s := run[i];
      && s.b.delivered + s.b.incoming + Apps(s.toB) + s.a.pending == s.a.accepted
      && s.a.delivered + s.a.incoming + Apps(s.toA) + s.b.pending == s.b.accepted
      && s.b.delivered <= s.a.accepted && s.a.delivered <= s.b.accepted
  {
    hide IsRun, Scan, Apps;
    RunKeepsInv(run, i);
  }

  /** Phases along an accepted sequence after a KEXINIT, as long as no NEWKEYS comes. */
  lemma {:induction false} KeyingGoesOn(l: Link, v: Phase, j: nat)
    requires !Scan(l, v).Broken? && (v.Init? || v.Msg?) && j < |l|
    requires forall k :: 0 <= k < j ==> !l[k].kind.NewKeys?
    ensures !l[j].kind.App? && !l[j].kind.KexInit?
    decreases j
  {
    if Delta(v, l[0]).Broken? {
      ScanBroken(l[1..]);
    } else if j > 0 {
      KeyingGoesOn(l[1..], Delta(v, l[0]), j - 1);
    }
  }

  lemma {:induction false} AfterInit(l: Link, v: Phase, i: nat, j: nat)
    requires !Scan(l, v).Broken? && i < j < |l| && l[i].kind.KexInit?
    requires l[j].kind.App? || l[j].kind.KexInit?
    ensures exists k :: i < k < j && l[k].kind.NewKeys?
    decreases i
  {
    var v' := Delta(v, l[0]);
    if v'.Broken? {
      ScanBroken(l[1..]);
    } else if i > 0 {
      AfterInit(l[1..], v', i - 1, j - 1);
      var k :| i - 1 < k < j - 1 && l[1..][k].kind.NewKeys?;
      assert l[k + 1].kind.NewKeys?;
    } else if forall k :: 0 < k < j ==> !l[k].kind.NewKeys? {
      KeyingGoesOn(l[1..], v', j - 1);
    }
  }

  ghost predicate Whole(l: Link)
  {
    forall i, j :: 0 <= i < j < |l| && l[i].kind.KexInit? && (l[j].kind.App? || l[j].kind.KexInit?) ==>
      exists k :: i < k < j && l[k].kind.NewKeys?
  }

  lemma SideWhole(e: Side)
    requires SideOK(e)
    ensures Whole(e.log)
  {
    hide Scan, Apps;
    var l := e.log;
    forall i: int, j: int | 0 <= i < j < |l| && l[i].kind.KexInit? && (l[j].kind.App? || l[j].kind.KexInit?)
      ensures exists k :: i < k < j && l[k].kind.NewKeys?
    {
      AfterInit(l, Normal(0), i, j);
    }
  }

  /**
   * On the wire, after a KEXINIT nothing but the exchange follows until its NEWKEYS:
   * no application packet, and no second KEXINIT, however many writers, requests
   * and initiators there are, on either side.
   */
  lemma NothingButTheExchange(run: seq<State>, n: nat)
    requires IsRun(run) && n < |run|
    ensures Whole(run[n].a.log) && Whole(run[n].b.log)
  {
    hide IsRun, SideOK, LinkOK, Whole;
    RunKeepsInv(run, n);
    SideWhole(run[n].a);
    SideWhole(run[n].b);
  }

  // ----- Exactly one KEXINIT in an exchange ---------------------------------

  /** The place of the KEXINIT for the keys after epoch. */
  ghost predicate InitAt(l: Link, i: int, epoch: nat)
  {
    0 <= i < |l| && l[i] == Wire(KexInit, epoch)
  }

  lemma {:induction false} EpochsRise(l: Link, v: Phase, j: nat)
    requires !Scan(l, v).Broken? && !v.Broken? && j < |l|
    ensures l[j].epoch >= v.epoch
    decreases j
  {
    if Delta(v, l[0]).Broken? {
      ScanBroken(l[1..]);
    } else if j > 0 {
      EpochsRise(l[1..], Delta(v, l[0]), j - 1);
    }
  }

  /** Once the KEXINIT of an exchange is out, there is no other with the same keys. */
  lemma {:induction false} NoOtherInit(l: Link, v: Phase, j: nat)
    requires !Scan(l, v).Broken? && (v.Init? || v.Msg?) && j < |l|
    ensures !InitAt(l, j, v.epoch)
    decreases j
  {
    var v' := Delta(v, l[0]);
    if v'.Broken? {
      ScanBroken(l[1..]);
    } else if j > 0 {
      if v'.Normal? {
        EpochsRise(l[1..], v', j - 1);
      } else {
        NoOtherInit(l[1..], v', j - 1);
      }
    }
  }

  lemma {:induction false} OnlyInit(l: Link, v: Phase, i: nat, j: nat, epoch: nat)
    requires !Scan(l, v).Broken? && InitAt(l, i, epoch) && InitAt(l, j, epoch) && i < j
    ensures false
    decreases i
  {
    var v' := Delta(v, l[0]);
    if v'.Broken? {
      ScanBroken(l[1..]);
    } else if i > 0 {
      OnlyInit(l[1..], v', i - 1, j - 1, epoch);
    } else {
      NoOtherInit(l[1..], v', j - 1);
    }
  }

  ghost predicate HasInit(l: Link, epoch: nat)
  {
    exists i :: InitAt(l, i, epoch)
  }

  lemma {:induction false} InitFor(l: Link, v: Phase, epoch: nat)
    requires !Scan(l, v).Broken? && !v.Broken? && v.epoch <= epoch < Scan(l, v).epoch
    requires v.epoch == epoch ==> v.Normal?
    ensures HasInit(l, epoch)
  {
    var v' := Delta(v, l[0]);
    if v'.Broken? {
      ScanBroken(l[1..]);
    } else if v'.epoch == epoch && !v'.Normal? {
      assert InitAt(l, 0, epoch);
    } else {
      InitFor(l[1..], v', epoch);
      var i :| InitAt(l[1..], i, epoch);
      assert InitAt(l, i + 1, epoch);
    }
  }

  /** For every change of its keys a side has sent exactly one KEXINIT, under the keys before. */
  ghost predicate OneInitEach(e: Side)
  {
    && (forall epoch: nat :: epoch < e.writeEpoch ==> HasInit(e.log, epoch))
    && (forall epoch: nat, i, j :: InitAt(e.log, i, epoch) && InitAt(e.log, j, epoch) ==> i == j)
  }

  lemma SideOneInit(e: Side)
    requires SideOK(e)
    ensures OneInitEach(e)
  {
    hide Scan, Apps;
    forall epoch: nat | epoch < e.writeEpoch
      ensures HasInit(e.log, epoch)
    {
      InitFor(e.log, Normal(0), epoch);
    }
    forall epoch: nat, i, j | InitAt(e.log, i, epoch) && InitAt(e.log, j, epoch)
      ensures i == j
    {
      if i < j {
        OnlyInit(e.log, Normal(0), i, j, epoch);
      } else if j < i {
        OnlyInit(e.log, Normal(0), j, i, epoch);
      }
    }
  }

  /** Each exchange carries exactly one KEXINIT from each side, even if both ask for it. */
  lemma OneInitPerExchange(run: seq<State>, n: nat)
    requires IsRun(run) && n < |run|
    ensures OneInitEach(run[n].a) && OneInitEach(run[n].b)
  {
    hide IsRun, SideOK, LinkOK, OneInitEach;
    RunKeepsInv(run, n);
    SideOneInit(run[n].a);
    SideOneInit(run[n].b);
  }

  /** How far a direction has come. */
  function Rank(v: Phase): (r: nat)
    requires !v.Broken?
  {
    3 * v.epoch + match v case Normal(_) => 0 case Init(_) => 1 case _ => 2
  }

  lemma {:induction false} ScanMonotone(l: Link, v: Phase)
    requires !v.Broken? && !Scan(l, v).Broken?
    ensures Rank(v) <= Rank(Scan(l, v))
  {
    if |l| > 0 {
      if Delta(v, l[0]).Broken? {
        ScanBroken(l[1..]);
      } else {
        ScanMonotone(l[1..], Delta(v, l[0]));
      }
    }
  }

  /** The two sides take part in the same exchanges: they are never more than one apart. */
  lemma SameExchanges(run: seq<State>, i: nat)
    requires IsRun(run) && i < |run|
    ensures var s := run[i];
      && s.a.readEpoch <= s.b.writeEpoch <= s.a.readEpoch + 1
      && s.b.readEpoch <= s.a.writeEpoch <= s.b.readEpoch + 1
  {
    hide IsRun, Scan, Apps;
    RunKeepsInv(run, i);
    var s := run[i];
    ScanMonotone(s.toA, Receiving(s.a));
    ScanMonotone(s.toB, Receiving(s.b));
  }

  // ----- Requests -----------------------------------------------------------

  /** A step that takes a request for an exchange away starts one, or one is under way or has just ended. */
  ghost predicate RequestServed(e: Side, e': Side)
  {
    e.requestKex && !e'.requestKex ==>
      (e'.pc.MustSend? && !e'.sentInit) || (e.sentInit && e'.sentInit) || (e.pc.Exchange? && e'.pc.Flush?)
  }

  /** What a side is about to send goes out with its next step in the loop, and nothing else is done before. */
  ghost predicate MustSendNext(s: State, step: Step)
  {
    s.a.pc.MustSend? && Enabled(s, step) && (step.TakeRequest? || step.TakeStart? || step.SendInit? || step.Enter?) ==>
      step.SendInit? && Acted(s, step).log == s.a.log + [Wire(KexInit, s.a.writeEpoch)]
  }

  /** On neither side is a request for an exchange lost. */
  lemma RequestsAreServed(run: seq<State>, i: nat, step: Step)
    requires IsRun(run) && i < |run|
    ensures Enabled(run[i], step) ==> RequestServed(run[i].a, Acted(run[i], step))
    ensures Enabled(Swap(run[i]), step) ==> RequestServed(run[i].b, Acted(Swap(run[i]), step))
    ensures MustSendNext(run[i], step) && MustSendNext(Swap(run[i]), step)
    ensures Enabled(run[i], ReadOne(true)) ==> Acted(run[i], ReadOne(true)).requestKex
    ensures Enabled(Swap(run[i]), ReadOne(true)) ==> Acted(Swap(run[i]), ReadOne(true)).requestKex
  {
    hide IsRun, Scan, Apps;
    RunKeepsInv(run, i);
    StepServes(run[i], step);
    StepServes(Swap(run[i]), step);
  }

  lemma StepServes(s: State, step: Step)
    requires PcOK(s.a)
    ensures Enabled(s, step) ==> RequestServed(s.a, Acted(s, step))
    ensures MustSendNext(s, step)
  {
  }

  // ----- No deadlock --------------------------------------------------------

  /** Nothing to do but wait for an application to write. */
  ghost predicate AtRest(e: Side)
  {
    e.pc == Collect(false, false) && !e.requestKex && !e.startKex
  }

  /** Some step of side a itself is possible: not a write or a read of the layer above. */
  ghost predicate CanMove(s: State)
  {
    exists step: Step :: !step.Write? && !step.Take? && Enabled(s, step)
  }

  /** As much waits for the layer above as can. */
  ghost predicate Full(e: Side)
  {
    |e.incoming| >= INCOMING_ROOM
  }

  lemma MovesBy(s: State, step: Step)
    ensures !step.Write? && !step.Take? && Enabled(s, step) ==> CanMove(s)
  {
  }

  /** A side that cannot move is at rest or waits, with nothing to read, for its peer. */
  lemma StuckSide(s: State)
    requires Inv(s)
    ensures !CanMove(s) && !Full(s.a) ==>
      && s.toA == []
      && (AtRest(s.a) || (s.a.pc == Collect(false, true) && s.a.reading) || KexReads(s.a))
  {
    hide Scan, Apps, CanMove;
    if CanMove(s) || Full(s.a) {
      return;
    }
    if |s.toA| > 0 {
      FirstAllowed(s.b, s.a, s.toA);
    }
    forall step: Step | !step.Write? && !step.Take?
      ensures !Enabled(s, step)
    {
      MovesBy(s, step);
    }
    assert !Enabled(s, TakeRequest) && !Enabled(s, TakeStart) && !Enabled(s, SendInit) && !Enabled(s, Enter);
    assert !Enabled(s, SendMsg) && !Enabled(s, SendNewKeys) && !Enabled(s, Finish);
    assert !Enabled(s, FlushOne) && !Enabled(s, Unlock);
    assert !Enabled(s, ReadInKex) && !Enabled(s, ReadOne(false));
  }

  /**
   * The two sides never wait for each other: if neither can move, then either a layer
   * above has let its packets pile up, or both are at rest, nothing is on the wire and
   * every packet accepted was delivered or waits to be taken.
   */
  lemma NoDeadlock(run: seq<State>, i: nat)
    requires IsRun(run) && i < |run|
    ensures var s := run[i];
      || CanMove(s) || CanMove(Swap(s)) || Full(s.a) || Full(s.b)
      || (&& AtRest(s.a) && AtRest(s.b) && s.toA == [] && s.toB == []
          && s.b.delivered + s.b.incoming == s.a.accepted && s.a.delivered + s.a.incoming == s.b.accepted
          && s.a.writeEpoch == s.b.writeEpoch)
  {
    hide IsRun, CanMove, Scan, Apps;
    var s := run[i];
    RunKeepsInv(run, i);
    if CanMove(s) || CanMove(Swap(s)) || Full(s.a) || Full(s.b) {
      return;
    }
    StuckSide(s);
    StuckSide(Swap(s));
    assert Sending(s.a) == Receiving(s.b) && Sending(s.b) == Receiving(s.a) by {
      ScanNothing(Receiving(s.a));
      ScanNothing(Receiving(s.b));
    }
    assert Apps([]) == [] by { AppsNothing(); }
  }

  lemma ScanNothing(v: Phase)
    ensures Scan([], v) == v
  {
  }

  lemma AppsNothing()
    ensures Apps([]) == []
  {
  }
}
