/**
 * User authentication on the server: the request loop, its cache of answers
 * about public keys, and the two callbacks that together demand a public key
 * and an interactive answer. What the client sends, and what the checks of
 * passwords, codes and signatures say, is part of each request.
 */
module SshAuth {
  import opened Bytes
  import opened SshMessages

  const MAX_CACHED_PUB_KEYS := 16

  /** Which of the three factors are switched off, and how many failures are allowed. */
  datatype Config = Config(skipRSA: bool, skipPassphrase: bool, skipTOTP: bool, maxAuthTries: int)

  predicate HasPublicKey(cfg: Config)
  {
    !cfg.skipRSA
  }

  predicate HasKeyboard(cfg: Config)
  {
    !(cfg.skipPassphrase && cfg.skipTOTP)
  }

  /** NewServerConn: no limit given means six. */
  function WithDefaults(cfg: Config): (c: Config)
  {
    if cfg.maxAuthTries == 0 then cfg.(maxAuthTries := 6) else cfg
  }

  // ----- Requests -----------------------------------------------------------

  datatype Request =
    | Malformed
    | NoneAuth
    | Password
    | Keyboard(k: KeyboardReq)
    | PublicKey(p: PublicKeyReq)
    | OtherMethod

  /** The packet the client sends in reply, if one comes, and what the checks say of an answer. */
  datatype KeyboardReq = KeyboardReq(
    user: Str,
    reply: Option<seq<byte>>,
    known: bool,
    passwordOK: Str -> bool,
    codeOK: Str -> bool)

  /**
   * A query or a signed attempt with a key, and what parsing, lookup and verification
   * say of it. The key is known to the cache as it was sent (keyData) and to the user's
   * records as it is marshalled again (key).
   */
  datatype PublicKeyReq = PublicKeyReq(
    user: Str,
    keyData: Str,
    key: Str,
    query: bool,
    algoParses: bool,
    algoOK: bool,
    keyParses: bool,
    restParses: bool,
    signatureAlgoOK: bool,
    verified: bool,
    validLogin: bool,
    found: bool,
    keyOnFile: Option<Str>)

  // ----- State --------------------------------------------------------------

  /** How often a key was seen for a user, and how often it was the right one. */
  datatype Record = Record(seen: nat, accepted: nat)

  datatype Attempt = Attempt(publicKeyOK: bool, oneTimeOK: bool, records: map<(Str, Str), Record>)

  datatype Cached = Cached(user: Str, keyData: Str, ok: bool)

  datatype Loop = Loop(a: Attempt, cache: seq<Cached>, failures: int)

  predicate BothOK(a: Attempt)
  {
    a.publicKeyOK && a.oneTimeOK
  }

  /** SetupAuthRequirements: a factor that is switched off counts as passed. */
  function Start(cfg: Config): (st: Loop)
  {
    Loop(Attempt(cfg.skipRSA, cfg.skipPassphrase && cfg.skipTOTP, map[]), [], 0)
  }

  // ----- Callbacks ----------------------------------------------------------

  function Questions(cfg: Config): (n: nat)
  {
    (if cfg.skipPassphrase then 0 else 1) + if cfg.skipTOTP then 0 else 1
  }

  const MSG_USER_AUTH_INFO_RESPONSE: byte := 61

  /** The answers in a reply to n questions; the transport gives no empty packet. */
  function ParseReply(packet: seq<byte>, n: nat): (ans: Option<seq<Str>>)
    ensures ans.Some? ==> |ans.value| == n
  {
    if |packet| < 5 || packet[0] != MSG_USER_AUTH_INFO_RESPONSE || FromBE(packet[1..5]) != n then None
    else ParseStrings(packet[5..], n)
  }

  /** The reply that gives these answers. */
  function ReplyBytes(answers: seq<Str>): (packet: seq<byte>)
  {
    [MSG_USER_AUTH_INFO_RESPONSE] + ToBE(|answers|, 4) + StringList(answers)
  }

  /** A reply is taken for the answers it was made of if and only if they are as many as asked for and fit. */
  lemma ReplyRoundTripIff(answers: seq<Str>, n: nat)
    requires n < U32_LIMIT
    ensures ParseReply(ReplyBytes(answers), n) == Some(answers) <==> |answers| == n && ListFits(answers)
  {
    hide ToBE, FromBE, StringList, ParseStringList, ParseStrings, ListFits, ReplyBytes;
    ReplyParts(answers);
    FromToBE32(|answers|);
    StringsIffList(StringList(answers), n, answers);
    StringListRoundTripIff(answers);
  }

  lemma ReplyParts(answers: seq<Str>)
    ensures var packet := ReplyBytes(answers);
      && |packet| >= 5 && packet[0] == MSG_USER_AUTH_INFO_RESPONSE
      && packet[1..5] == ToBE(|answers|, 4) && packet[5..] == StringList(answers)
  {
    hide ToBE, StringList;
  }

  /** Challenge: as many answers as questions, or an error. */
  function Challenge(cfg: Config, r: KeyboardReq): (ans: Option<seq<Str>>)
    ensures ans.Some? ==> |ans.value| == Questions(cfg)
  {
    match r.reply
    case None => None
    case Some(packet) => ParseReply(packet, Questions(cfg))
  }

  /** The loop of Challenge over the answers of a reply. */
  method ReadReply(packet: seq<byte>, n: nat) returns (answers: Option<seq<Str>>)
    ensures answers == ParseReply(packet, n)
  {
    hide ParseString, FromBE;
    if |packet| < 5 || packet[0] != MSG_USER_AUTH_INFO_RESPONSE || FromBE(packet[1..5]) != n {
      return None;
    }
    var rest, got: seq<Str> := packet[5..], [];
    assert forall more: seq<Str> :: got + more == more;
    for i := 0 to n
      invariant |got| == i
      invariant ParseStrings(packet[5..], n) ==
        match ParseStrings(rest, n - i) case None => None case Some(more) => Some(got + more)
    {
      var one := ParseString(rest);
      if one.None? {
        return None;
      }
      assert forall more: seq<Str> :: got + ([one.value.0] + more) == got + [one.value.0] + more;
      got, rest := got + [one.value.0], one.value.1;
    }
    assert got + [] == got;
    return if |rest| != 0 then None else Some(got);
  }

  function KeyboardCallback(cfg: Config, a: Attempt, r: KeyboardReq): (res: (Attempt, bool))
    requires HasKeyboard(cfg)
  {
    match Challenge(cfg, r)
    case None => (a, false)
    case Some(ans) =>
      if !r.known then (a, false)
      else
        var totpIdx := if cfg.skipPassphrase then 0 else 1;
        var firstPassOK := cfg.skipPassphrase || r.passwordOK(ans[0]);
        var timeOK := cfg.skipTOTP || (|ans[totpIdx]| > 0 && r.codeOK(ans[totpIdx]));
        if firstPassOK && timeOK then (a.(oneTimeOK := true), a.publicKeyOK) else (a, false)
  }

  /** The record of a key after it was seen once more. */
  function Noted(a: Attempt, r: PublicKeyReq, accepted: bool): (records: map<(Str, Str), Record>)
  {
    var k := (r.user, r.key);
    var was := if k in a.records then a.records[k] else Record(0, 0);
    a.records[k := Record(was.seen + 1, was.accepted + if accepted then 1 else 0)]
  }

  /** PublicKeyCallback, with what its deferred function does at the end. */
  function KeyCallback(a: Attempt, r: PublicKeyReq): (res: (Attempt, bool))
  {
    if !r.validLogin || !r.found then (a, false)
    else
      var accepted := r.keyOnFile == Some(r.key);
      var a' := a.(publicKeyOK := a.publicKeyOK || accepted, records := Noted(a, r, accepted));
      (a', BothOK(a'))
  }

  /** pubKeyCache.get. */
  function Lookup(cache: seq<Cached>, user: Str, keyData: Str): (r: Option<bool>)
  {
    if |cache| == 0 then None
    else if cache[0].user == user && cache[0].keyData == keyData then Some(cache[0].ok)
    else Lookup(cache[1..], user, keyData)
  }

  function AddToCache(cache: seq<Cached>, c: Cached): (r: seq<Cached>)
  {
    if |cache| < MAX_CACHED_PUB_KEYS then cache + [c] else cache
  }

  /** What Add does to the answers that Get gives: up to sixteen, the first for a user and key is kept. */
  ghost predicate Remembers(cache: seq<Cached>, c: Cached, cache': seq<Cached>)
  {
    forall user: Str, keyData: Str ::
      Lookup(cache', user, keyData) ==
      if |cache| < 16 && user == c.user && keyData == c.keyData && Lookup(cache, user, keyData) == None
      then Some(c.ok)
      else Lookup(cache, user, keyData)
  }

  lemma {:induction false} LookupAppend(cache: seq<Cached>, c: Cached, user: Str, keyData: Str)
    ensures Lookup(cache + [c], user, keyData) ==
      if Lookup(cache, user, keyData) == None && user == c.user && keyData == c.keyData then Some(c.ok)
      else Lookup(cache, user, keyData)
  {
    if |cache| == 0 {
      assert cache + [c] == [c] && [c][1..] == [];
    } else {
      assert (cache + [c])[0] == cache[0] && (cache + [c])[1..] == cache[1..] + [c];
      LookupAppend(cache[1..], c, user, keyData);
    }
  }

  lemma AddRemembers(cache: seq<Cached>, c: Cached)
    ensures Remembers(cache, c, AddToCache(cache, c))
  {
    hide Lookup;
    forall user: Str, keyData: Str
      ensures Lookup(cache + [c], user, keyData) ==
        if Lookup(cache, user, keyData) == None && user == c.user && keyData == c.keyData then Some(c.ok)
        else Lookup(cache, user, keyData)
    {
      LookupAppend(cache, c, user, keyData);
    }
  }

  // ----- The loop -----------------------------------------------------------

  /** What a method says of a request: passed, failed, answered a query, or the connection ends. */
  datatype Verdict = Passed | Failed | QueryOK | Ends

  /** The switch over the method of a request. */
  function Judge(cfg: Config, st: Loop, r: Request): (res: (Loop, Verdict))
  {
    match r
    case Malformed => (st, Ends)
    case NoneAuth => (st.(failures := if st.failures == 0 then st.failures - 1 else st.failures), Failed)
    case Password => (st, Failed)
    case Keyboard(k) =>
      if !HasKeyboard(cfg) then (st, Failed)
      else
        var (a, ok) := KeyboardCallback(cfg, st.a, k);
        (st.(a := a), if ok then Passed else Failed)
    case PublicKey(p) => JudgeKey(cfg, st, p)
    case OtherMethod => (st, Failed)
  }

  function JudgeKey(cfg: Config, st: Loop, p: PublicKeyReq): (res: (Loop, Verdict))
  {
    if !HasPublicKey(cfg) then (st, Failed)
    else if !p.algoParses then (st, Ends)
    else if !p.algoOK then (st, Failed)
    else if !p.keyParses then (st, Ends)
    else
      var (st', ok) := Consult(st, p);
      if !p.restParses then (st', Ends)
      else if p.query then (st', if ok then QueryOK else Failed)
      else if !p.signatureAlgoOK then (st', Failed)
      else if !p.verified then (st', Ends)
      else (st', if ok then Passed else Failed)
  }

  /** The answer about a key, from the cache or from the callback. */
  function Consult(st: Loop, p: PublicKeyReq): (res: (Loop, bool))
  {
    match Lookup(st.cache, p.user, p.keyData)
    case Some(ok) => (st, ok)
    case None =>
      var (a, ok) := KeyCallback(st.a, p);
      (st.(a := a, cache := AddToCache(st.cache, Cached(p.user, p.keyData, ok))), ok)
  }

  /** AuthLogCallback. */
  function Logged(a: Attempt, r: Request, passed: bool): (a': Attempt)
  {
    if passed && r.Keyboard? then a.(oneTimeOK := true)
    else if passed && r.PublicKey? then a.(publicKeyOK := true)
    else a
  }

  datatype Outcome = Again(st: Loop) | Success(st: Loop) | Ended

  /** One round of the loop, from the reading of a request on. */
  function Round(cfg: Config, st: Loop, r: Request): (o: Outcome)
  {
    var (st1, v) := Judge(cfg, st, r);
    match v
    case Ends => Ended
    case QueryOK => Again(st1)
    case Passed => Success(st1.(a := Logged(st1.a, r, true)))
    case Failed =>
      if !HasPublicKey(cfg) && !HasKeyboard(cfg) then Ended
      else Again(st1.(failures := st1.failures + 1))
  }

  /** The check at the top of the loop. */
  predicate TooMany(cfg: Config, st: Loop)
  {
    st.failures >= cfg.maxAuthTries && cfg.maxAuthTries > 0
  }

  /** The loop over the requests of a client, the last of which is followed by the end of input. */
  function Serve(cfg: Config, st: Loop, rs: seq<Request>): (o: Outcome)
    decreases |rs|
  {
    if TooMany(cfg, st) || |rs| == 0 then Ended
    else
      match Round(cfg, st, rs[0])
      case Again(st') => Serve(cfg, st', rs[1..])
      case o => o
  }

  // ----- What the loop keeps ------------------------------------------------

  /** A success in the cache was, and still is, one of both factors. */
  ghost predicate CacheOK(st: Loop)
  {
    forall i :: 0 <= i < |st.cache| && st.cache[i].ok ==> BothOK(st.a)
  }

  ghost predicate RecordsOK(a: Attempt)
  {
    forall k :: k in a.records ==> a.records[k].accepted <= a.records[k].seen
  }

  ghost predicate LoopOK(st: Loop)
  {
    CacheOK(st) && RecordsOK(st.a) && |st.cache| <= MAX_CACHED_PUB_KEYS && st.failures >= 0
  }

  lemma {:induction false} LookupFound(cache: seq<Cached>, user: Str, keyData: Str)
    requires Lookup(cache, user, keyData) == Some(true)
    ensures exists i :: 0 <= i < |cache| && cache[i].ok
  {
    if !(cache[0].user == user && cache[0].keyData == keyData) {
      LookupFound(cache[1..], user, keyData);
      var i :| 0 <= i < |cache[1..]| && cache[1..][i].ok;
      assert cache[i + 1].ok;
    }
  }

  /** The callback about keys is asked, and accepts: the key on file of a user it knows. */
  ghost predicate RightKey(cfg: Config, r: Request)
  {
    && r.PublicKey? && HasPublicKey(cfg) && r.p.algoParses && r.p.algoOK && r.p.keyParses
    && r.p.validLogin && r.p.found && r.p.keyOnFile == Some(r.p.key)
  }

  /** A right key, and a signature under an accepted algorithm that it verifies. */
  ghost predicate ProvedKey(cfg: Config, r: Request)
  {
    RightKey(cfg, r) && !r.p.query && r.p.restParses && r.p.signatureAlgoOK && r.p.verified
  }

  /** A right key in a request for which no signature is looked at: a query, or an algorithm not accepted. */
  ghost predicate BareKey(cfg: Config, r: Request)
  {
    RightKey(cfg, r) && r.p.restParses && (r.p.query || !r.p.signatureAlgoOK)
  }

  /** The answers to every question asked, all of them right, from a user the server knows. */
  ghost predicate RightAnswers(cfg: Config, r: Request)
  {
    && r.Keyboard? && HasKeyboard(cfg) && r.k.known
    && var ans := Challenge(cfg, r.k);
       && ans.Some?
       && (!cfg.skipPassphrase ==> r.k.passwordOK(ans.value[0]))
       && (!cfg.skipTOTP ==>
             var code := ans.value[Questions(cfg) - 1];
             |code| > 0 && r.k.codeOK(code))
  }

  /** Flags are only set, and each only by a request that brings the factor it stands for. */
  ghost predicate FlagsFollow(cfg: Config, a: Attempt, r: Request, a': Attempt)
  {
    && (a.publicKeyOK ==> a'.publicKeyOK)
    && (a.oneTimeOK ==> a'.oneTimeOK)
    && (a'.publicKeyOK && !a.publicKeyOK ==> RightKey(cfg, r))
    && (a'.oneTimeOK != a.oneTimeOK ==> RightAnswers(cfg, r))
    && (RightAnswers(cfg, r) ==> a'.oneTimeOK)
  }

  lemma ConsultKeeps(cfg: Config, st: Loop, p: PublicKeyReq)
    requires LoopOK(st) && HasPublicKey(cfg) && p.algoParses && p.algoOK && p.keyParses
    ensures var (st', ok) := Consult(st, p);
      && LoopOK(st') && (ok ==> BothOK(st'.a)) && st'.failures == st.failures
      && FlagsFollow(cfg, st.a, PublicKey(p), st'.a)
  {
    if Lookup(st.cache, p.user, p.keyData) == Some(true) {
      LookupFound(st.cache, p.user, p.keyData);
    }
  }

  lemma KeyboardKeeps(cfg: Config, a: Attempt, k: KeyboardReq)
    requires HasKeyboard(cfg)
    ensures var (a', ok) := KeyboardCallback(cfg, a, k);
      && FlagsFollow(cfg, a, Keyboard(k), a') && a'.records == a.records
      && (ok <==> RightAnswers(cfg, Keyboard(k)) && a.publicKeyOK)
      && (a.oneTimeOK ==> BothOK(a) == BothOK(a'))
  {
  }

  /** Whatever the request: a pass means both factors, and the state stays in order. */
  lemma JudgeKeeps(cfg: Config, st: Loop, r: Request)
    requires LoopOK(st)
    ensures var (st', v) := Judge(cfg, st, r);
      && (v.Passed? ==> BothOK(st'.a))
      && (r.NoneAuth? ==> v.Failed?)
      && FlagsFollow(cfg, st.a, r, st'.a)
      && CacheOK(st') && RecordsOK(st'.a) && |st'.cache| <= MAX_CACHED_PUB_KEYS
      && st'.failures == (if r.NoneAuth? && st.failures == 0 then -1 else st.failures)
  {
    assert !r.Keyboard? || !HasKeyboard(cfg) ==> !RightAnswers(cfg, r);
    hide Consult, KeyboardCallback, RightKey, RightAnswers;
    match r
    case PublicKey(p) =>
      if HasPublicKey(cfg) && p.algoParses && p.algoOK && p.keyParses {
        ConsultKeeps(cfg, st, p);
      }
    case Keyboard(k) =>
      if HasKeyboard(cfg) {
        KeyboardKeeps(cfg, st.a, k);
      }
    case _ =>
  }

  lemma RoundKeeps(cfg: Config, st: Loop, r: Request)
    requires LoopOK(st)
    ensures match Round(cfg, st, r)
      case Again(st') => LoopOK(st') && FlagsFollow(cfg, st.a, r, st'.a)
      case Success(st') => LoopOK(st') && BothOK(st'.a) && FlagsFollow(cfg, st.a, r, st'.a)
      case Ended => true
  {
    hide Judge, RightKey, RightAnswers;
    JudgeKeeps(cfg, st, r);
  }

  /** An interactive round succeeds exactly with right answers after a right key. */
  lemma KeyboardSucceedsIff(cfg: Config, st: Loop, r: Request)
    requires r.Keyboard?
    ensures Round(cfg, st, r).Success? <==> RightAnswers(cfg, r) && st.a.publicKeyOK
  {
    hide KeyboardCallback;
    if HasKeyboard(cfg) {
      KeyboardKeeps(cfg, st.a, r.k);
    }
  }

  /** What the server holds of a key: what it answered before, or both factors with the key that is on file. */
  ghost predicate KeyPasses(st: Loop, p: PublicKeyReq)
  {
    match Lookup(st.cache, p.user, p.keyData)
    case Some(ok) => ok
    case None =>
      p.validLogin && p.found && st.a.oneTimeOK && (st.a.publicKeyOK || p.keyOnFile == Some(p.key))
  }

  /** A round with a key succeeds exactly if the key passes and is signed for under accepted algorithms. */
  lemma KeySucceedsIff(cfg: Config, st: Loop, r: Request)
    requires r.PublicKey?
    ensures Round(cfg, st, r).Success? <==>
      && HasPublicKey(cfg) && r.p.algoParses && r.p.algoOK && r.p.keyParses && r.p.restParses
      && !r.p.query && r.p.signatureAlgoOK && r.p.verified && KeyPasses(st, r.p)
  {
  }

  // ----- Whole sessions -----------------------------------------------------

  /** The states of the loop after each request, as long as it goes on. */
  function States(cfg: Config, st: Loop, rs: seq<Request>): (ss: seq<Loop>)
    ensures 1 <= |ss| <= |rs| + 1 && ss[0] == st
    decreases |rs|
  {
    if TooMany(cfg, st) || |rs| == 0 then [st]
    else
      match Round(cfg, st, rs[0])
      case Again(st') => [st] + States(cfg, st', rs[1..])
      case _ => [st]
  }

  lemma {:induction false} ServeKeeps(cfg: Config, st: Loop, rs: seq<Request>)
    requires LoopOK(st)
    ensures Serve(cfg, st, rs).Success? ==> BothOK(Serve(cfg, st, rs).st.a)
    ensures forall i :: 0 <= i < |States(cfg, st, rs)| ==> LoopOK(States(cfg, st, rs)[i])
    ensures forall i, j :: 0 <= i <= j < |States(cfg, st, rs)| ==>
      var a, a' := States(cfg, st, rs)[i].a, States(cfg, st, rs)[j].a;
      (a.publicKeyOK ==> a'.publicKeyOK) && (a.oneTimeOK ==> a'.oneTimeOK)
    decreases |rs|
  {
    hide Round, LoopOK, RightKey, RightAnswers;
    if !TooMany(cfg, st) && |rs| > 0 {
      RoundKeeps(cfg, st, rs[0]);
      var o := Round(cfg, st, rs[0]);
      if o.Again? {
        ServeKeeps(cfg, o.st, rs[1..]);
        var ss := States(cfg, o.st, rs[1..]);
        assert States(cfg, st, rs) == [st] + ss;
      }
    }
  }

  /** The requests the loop takes up, to the one with which it ends. */
  function Handled(cfg: Config, st: Loop, rs: seq<Request>): (hs: seq<Request>)
    decreases |rs|
  {
    if TooMany(cfg, st) || |rs| == 0 then []
    else
      [rs[0]] + match Round(cfg, st, rs[0])
                case Again(st') => Handled(cfg, st', rs[1..])
                case _ => []
  }

  lemma {:induction false} HandledIsPrefix(cfg: Config, st: Loop, rs: seq<Request>)
    ensures Handled(cfg, st, rs) <= rs
    decreases |rs|
  {
    hide Round;
    if !TooMany(cfg, st) && |rs| > 0 && Round(cfg, st, rs[0]).Again? {
      HandledIsPrefix(cfg, Round(cfg, st, rs[0]).st, rs[1..]);
    }
  }

  ghost predicate SomeRightKey(cfg: Config, rs: seq<Request>)
  {
    exists i :: 0 <= i < |rs| && RightKey(cfg, rs[i])
  }

  ghost predicate SomeRightAnswers(cfg: Config, rs: seq<Request>)
  {
    exists i :: 0 <= i < |rs| && RightAnswers(cfg, rs[i])
  }

  /** A success owes each of its flags to the start or to a request that earned it. */
  lemma {:induction false} FactorsWereShown(cfg: Config, st: Loop, rs: seq<Request>)
    requires LoopOK(st) && Serve(cfg, st, rs).Success?
    ensures st.a.publicKeyOK || SomeRightKey(cfg, Handled(cfg, st, rs))
    ensures st.a.oneTimeOK || SomeRightAnswers(cfg, Handled(cfg, st, rs))
    decreases |rs|
  {
    hide Round, LoopOK, RightKey, RightAnswers;
    RoundKeeps(cfg, st, rs[0]);
    var o := Round(cfg, st, rs[0]);
    var hs := Handled(cfg, st, rs);
    assert hs[0] == rs[0];
    if o.Again? {
      FactorsWereShown(cfg, o.st, rs[1..]);
      var more := Handled(cfg, o.st, rs[1..]);
      assert hs == [rs[0]] + more;
      if SomeRightKey(cfg, more) {
        var i :| 0 <= i < |more| && RightKey(cfg, more[i]);
        assert hs[i + 1] == more[i];
      }
      if SomeRightAnswers(cfg, more) {
        var i :| 0 <= i < |more| && RightAnswers(cfg, more[i]);
        assert hs[i + 1] == more[i];
      }
    }
  }

  /**
   * Whatever requests come, in whatever order and under any mix of factors switched
   * off: the server reports success only with both flags set, which takes a right key
   * unless keys are switched off and right answers unless both questions are. No flag
   * is ever taken back, so a success in the cache is never out of date.
   */
  lemma SuccessNeedsBoth(cfg: Config, rs: seq<Request>)
    ensures var o := Serve(cfg, Start(cfg), rs);
      o.Success? ==>
        && BothOK(o.st.a)
        && (cfg.skipRSA || SomeRightKey(cfg, Handled(cfg, Start(cfg), rs)))
        && ((cfg.skipPassphrase && cfg.skipTOTP) || SomeRightAnswers(cfg, Handled(cfg, Start(cfg), rs)))
    ensures forall i :: 0 <= i < |States(cfg, Start(cfg), rs)| ==> LoopOK(States(cfg, Start(cfg), rs)[i])
    ensures forall i, j :: 0 <= i <= j < |States(cfg, Start(cfg), rs)| ==>
      var a, a' := States(cfg, Start(cfg), rs)[i].a, States(cfg, Start(cfg), rs)[j].a;
      (a.publicKeyOK ==> a'.publicKeyOK) && (a.oneTimeOK ==> a'.oneTimeOK)
  {
    hide Serve, States, Handled, SomeRightKey, SomeRightAnswers;
    assert LoopOK(Start(cfg));
    ServeKeeps(cfg, Start(cfg), rs);
    if Serve(cfg, Start(cfg), rs).Success? {
      FactorsWereShown(cfg, Start(cfg), rs);
    }
  }

  // ----- Whether the key was proved -----------------------------------------

  ghost predicate SomeProvedKey(cfg: Config, rs: seq<Request>)
  {
    exists i :: 0 <= i < |rs| && ProvedKey(cfg, rs[i])
  }

  /** Every right key came in a query, or with a signature algorithm that is not accepted. */
  ghost predicate OnlyBareKeys(cfg: Config, rs: seq<Request>)
  {
    forall i :: 0 <= i < |rs| && RightKey(cfg, rs[i]) ==> rs[i].p.query || !rs[i].p.signatureAlgoOK
  }

  /** A right key that does not end the connection is proved, or no signature was looked at. */
  lemma ProvedOrBare(cfg: Config, st: Loop, r: Request)
    requires RightKey(cfg, r) && !Round(cfg, st, r).Ended?
    ensures if r.p.query || !r.p.signatureAlgoOK then BareKey(cfg, r) else ProvedKey(cfg, r)
  {
    hide Consult;
  }

  lemma {:induction false} AllProvedOrBare(cfg: Config, st: Loop, rs: seq<Request>, i: nat)
    requires Serve(cfg, st, rs).Success?
    requires i < |Handled(cfg, st, rs)| && RightKey(cfg, Handled(cfg, st, rs)[i])
    ensures var r := Handled(cfg, st, rs)[i];
      if r.p.query || !r.p.signatureAlgoOK then BareKey(cfg, r) else ProvedKey(cfg, r)
    decreases |rs|
  {
    hide Round, RightKey, ProvedKey, BareKey;
    var o := Round(cfg, st, rs[0]);
    if i == 0 {
      ProvedOrBare(cfg, st, rs[0]);
    } else {
      AllProvedOrBare(cfg, o.st, rs[1..], i - 1);
    }
  }

  /**
   * A success comes with a proof that somebody holds a right key if and only if not all
   * right keys were bare: the callback is asked, and its flag set, before any signature
   * is looked at.
   */
  lemma SuccessProvesKeyIff(cfg: Config, rs: seq<Request>)
    requires Serve(cfg, Start(cfg), rs).Success? && !cfg.skipRSA
    ensures var hs := Handled(cfg, Start(cfg), rs);
      SomeProvedKey(cfg, hs) <==> !OnlyBareKeys(cfg, hs)
  {
    hide Serve, Handled;
    var hs := Handled(cfg, Start(cfg), rs);
    forall i | 0 <= i < |hs| && RightKey(cfg, hs[i])
      ensures if hs[i].p.query || !hs[i].p.signatureAlgoOK then BareKey(cfg, hs[i]) else ProvedKey(cfg, hs[i])
    {
      AllProvedOrBare(cfg, Start(cfg), rs, i);
    }
  }

  /** So a client that never offers a right key bare has proved one when it gets in. */
  lemma WithoutBareKeys(cfg: Config, rs: seq<Request>)
    requires Serve(cfg, Start(cfg), rs).Success? && !cfg.skipRSA
    requires forall i :: 0 <= i < |rs| ==> !BareKey(cfg, rs[i])
    ensures SomeProvedKey(cfg, Handled(cfg, Start(cfg), rs))
  {
    hide Serve, Handled, RightKey, RightAnswers, BareKey, States;
    var hs := Handled(cfg, Start(cfg), rs);
    SuccessNeedsBoth(cfg, rs);
    HandledIsPrefix(cfg, Start(cfg), rs);
    var i :| 0 <= i < |hs| && RightKey(cfg, hs[i]);
    AllProvedOrBare(cfg, Start(cfg), rs, i);
    assert hs[i] == rs[i] && ProvedKey(cfg, hs[i]);
  }

  /** A right key, bare or proved, and right answers from anybody are enough. */
  lemma TwoRequestsEnter(cfg: Config, q: Request, k: Request)
    requires (BareKey(cfg, q) || ProvedKey(cfg, q)) && RightAnswers(cfg, k) && cfg.maxAuthTries != 1
    ensures Serve(cfg, Start(cfg), [q, k]).Success? && Handled(cfg, Start(cfg), [q, k]) == [q, k]
  {
    hide RightAnswers;
    var st := Start(cfg);
    var o := Round(cfg, st, q);
    assert HasKeyboard(cfg) && k.Keyboard? by { AnswersNeedKeyboard(cfg, k); }
    assert o.Again? && o.st.a.publicKeyOK && o.st.failures == 1;
    KeyboardSucceedsIff(cfg, o.st, k);
    assert [q, k][1..] == [k];
    assert Serve(cfg, o.st, [k]) == Round(cfg, o.st, k);
    assert Handled(cfg, o.st, [k]) == [k];
  }

  /** A factor that is switched off is not asked for: right answers alone, or a proved key alone, are enough. */
  lemma OneFactorEnters(cfg: Config, r: Request)
    requires (cfg.skipRSA && RightAnswers(cfg, r)) || (cfg.skipPassphrase && cfg.skipTOTP && ProvedKey(cfg, r))
    ensures Serve(cfg, Start(cfg), [r]).Success?
  {
    if cfg.skipRSA && RightAnswers(cfg, r) {
      KeyboardSucceedsIff(cfg, Start(cfg), r);
    } else {
      KeySucceedsIff(cfg, Start(cfg), r);
    }
    ServeOne(cfg, Start(cfg), r);
  }

  lemma AnswersNeedKeyboard(cfg: Config, k: Request)
    requires RightAnswers(cfg, k)
    ensures HasKeyboard(cfg) && k.Keyboard?
  {
  }

  /** The failing family: a right key in a query, with no proof of anything, gets in with right answers. */
  lemma BareKeyIsEnough(cfg: Config, q: Request, k: Request)
    requires BareKey(cfg, q) && RightAnswers(cfg, k) && cfg.maxAuthTries != 1
    ensures Serve(cfg, Start(cfg), [q, k]).Success?
    ensures !SomeProvedKey(cfg, Handled(cfg, Start(cfg), [q, k]))
  {
    hide Serve, Handled;
    TwoRequestsEnter(cfg, q, k);
  }

  /**
   * With both flags set, which takes a query for a right key after right answers, a signed
   * request with any key of any known user gets in, unless that key was refused before.
   */
  lemma AnyKeyOnceBothAreSet(cfg: Config, st: Loop, r: Request)
    requires r.PublicKey? && BothOK(st.a) && Lookup(st.cache, r.p.user, r.p.keyData) == None
    requires HasPublicKey(cfg) && r.p.algoParses && r.p.algoOK && r.p.keyParses && r.p.restParses
    requires !r.p.query && r.p.signatureAlgoOK && r.p.verified && r.p.validLogin && r.p.found
    ensures Round(cfg, st, r).Success?
  {
    KeySucceedsIff(cfg, st, r);
  }

  /** Such a state is reached: after right answers and a query for a right key, a key that is not on file gets in. */
  lemma WrongKeyEnters(cfg: Config, k: Request, q: Request, r: Request)
    requires cfg.maxAuthTries != 1 && RightAnswers(cfg, k) && BareKey(cfg, q) && q.p.query
    requires r.PublicKey? && r.p.algoParses && r.p.algoOK && r.p.keyParses && r.p.restParses
    requires !r.p.query && r.p.signatureAlgoOK && r.p.verified && r.p.validLogin && r.p.found
    requires (r.p.user, r.p.keyData) != (q.p.user, q.p.keyData)
    ensures Serve(cfg, Start(cfg), [k, q, r]).Success? && Handled(cfg, Start(cfg), [k, q, r]) == [k, q, r]
  {
    hide RightAnswers;
    AnswersNeedKeyboard(cfg, k);
    var o := Round(cfg, Start(cfg), k);
    KeyboardRound(cfg, Start(cfg), k);
    var o2 := Round(cfg, o.st, q);
    assert o2.Again? && BothOK(o2.st.a) && o2.st.failures == 1 && |o2.st.cache| == 1;
    assert o2.st.cache[1..] == [];
    AnyKeyOnceBothAreSet(cfg, o2.st, r);
    assert [k, q, r][1..] == [q, r] && [q, r][1..] == [r];
    ServeOne(cfg, o2.st, r);
    ServeTwo(cfg, o.st, q, [r]);
    ServeTwo(cfg, Start(cfg), k, [q, r]);
  }

  lemma KeyboardRound(cfg: Config, st: Loop, k: Request)
    requires RightAnswers(cfg, k) && !st.a.publicKeyOK
    ensures Round(cfg, st, k) == Again(st.(a := st.a.(oneTimeOK := true), failures := st.failures + 1))
  {
  }

  lemma ServeOne(cfg: Config, st: Loop, r: Request)
    requires !TooMany(cfg, st) && Round(cfg, st, r).Success?
    ensures Serve(cfg, st, [r]).Success? && Handled(cfg, st, [r]) == [r]
  {
    hide Round;
  }

  lemma ServeTwo(cfg: Config, st: Loop, r: Request, rs: seq<Request>)
    requires !TooMany(cfg, st) && Round(cfg, st, r).Again?
    ensures Serve(cfg, st, [r] + rs) == Serve(cfg, Round(cfg, st, r).st, rs)
    ensures Handled(cfg, st, [r] + rs) == [r] + Handled(cfg, Round(cfg, st, r).st, rs)
  {
    hide Round;
    assert ([r] + rs)[1..] == rs;
  }

  /** Without bare keys the loop does not go on with both flags set. */
  lemma RoundNotBoth(cfg: Config, st: Loop, r: Request)
    requires LoopOK(st) && !BothOK(st.a) && !BareKey(cfg, r)
    ensures Round(cfg, st, r).Again? ==> !BothOK(Round(cfg, st, r).st.a)
  {
    hide Lookup;
    if r.Keyboard? && HasKeyboard(cfg) {
      KeyboardKeeps(cfg, st.a, r.k);
    }
  }

  /** So a key that gets in is a right key, and proved. */
  lemma RoundByProvedKey(cfg: Config, st: Loop, r: Request)
    requires LoopOK(st) && !BothOK(st.a) && r.PublicKey? && Round(cfg, st, r).Success?
    ensures ProvedKey(cfg, r)
  {
    hide Round, Lookup;
    KeySucceedsIff(cfg, st, r);
    if Lookup(st.cache, r.p.user, r.p.keyData) == Some(true) {
      LookupFound(st.cache, r.p.user, r.p.keyData);
    }
  }

  lemma {:induction false} ByProvedKey(cfg: Config, st: Loop, rs: seq<Request>)
    requires LoopOK(st) && !BothOK(st.a) && Serve(cfg, st, rs).Success?
    requires forall i :: 0 <= i < |rs| ==> !BareKey(cfg, rs[i])
    ensures var hs := Handled(cfg, st, rs);
      |hs| > 0 && (hs[|hs| - 1].PublicKey? ==> ProvedKey(cfg, hs[|hs| - 1]))
    decreases |rs|
  {
    hide Round, LoopOK, BareKey, ProvedKey, BothOK;
    var o := Round(cfg, st, rs[0]);
    if o.Again? {
      RoundNotBoth(cfg, st, rs[0]);
      RoundKeeps(cfg, st, rs[0]);
      ByProvedKey(cfg, o.st, rs[1..]);
    } else if rs[0].PublicKey? {
      RoundByProvedKey(cfg, st, rs[0]);
    }
  }

  /** Where no right key is offered bare, a session that ends with a key in success ends with a proved key. */
  lemma KeySuccessIsProved(cfg: Config, rs: seq<Request>)
    requires Serve(cfg, Start(cfg), rs).Success? && HasPublicKey(cfg)
    requires forall i :: 0 <= i < |rs| ==> !BareKey(cfg, rs[i])
    ensures var hs := Handled(cfg, Start(cfg), rs);
      |hs| > 0 && (hs[|hs| - 1].PublicKey? ==> ProvedKey(cfg, hs[|hs| - 1]))
  {
    hide Serve, Handled, BareKey;
    assert LoopOK(Start(cfg)) && !BothOK(Start(cfg).a);
    ByProvedKey(cfg, Start(cfg), rs);
  }

  // ----- Whether the factors are of one user --------------------------------

  function UserOf(r: Request): (user: Option<Str>)
  {
    match r
    case Keyboard(k) => Some(k.user)
    case PublicKey(p) => Some(p.user)
    case _ => None
  }

  /** A right key and right answers of the same user are among the requests. */
  ghost predicate OneUser(cfg: Config, rs: seq<Request>)
  {
    exists i, j :: 0 <= i < |rs| && 0 <= j < |rs| && RightKey(cfg, rs[i]) && RightAnswers(cfg, rs[j])
      && UserOf(rs[i]) == UserOf(rs[j])
  }

  /** Requests that name a user name one of these. */
  ghost predicate AllFrom(users: set<Str>, rs: seq<Request>)
  {
    forall i :: 0 <= i < |rs| && UserOf(rs[i]).Some? ==> UserOf(rs[i]).value in users
  }

  /** Every session whose requests name only these users shows both factors of one of them if it succeeds. */
  ghost predicate NeverMixed(cfg: Config, users: set<Str>)
  {
    forall rs | AllFrom(users, rs) && Serve(cfg, Start(cfg), rs).Success? ::
      OneUser(cfg, Handled(cfg, Start(cfg), rs))
  }

  lemma OneUserOnly(cfg: Config, users: set<Str>, rs: seq<Request>)
    requires HasPublicKey(cfg) && HasKeyboard(cfg) && forall u, v :: u in users && v in users ==> u == v
    requires AllFrom(users, rs) && Serve(cfg, Start(cfg), rs).Success?
    ensures OneUser(cfg, Handled(cfg, Start(cfg), rs))
  {
    hide Serve, Handled, States;
    SuccessNeedsBoth(cfg, rs);
    HandledIsPrefix(cfg, Start(cfg), rs);
    var hs := Handled(cfg, Start(cfg), rs);
    var i :| 0 <= i < |hs| && RightKey(cfg, hs[i]);
    var j :| 0 <= j < |hs| && RightAnswers(cfg, hs[j]);
    assert hs[i] == rs[i] && hs[j] == rs[j];
  }

  /** A signed request with the key on file of u, and the right answers of v. */
  function KeyOfUser(u: Str): (r: Request)
  {
    PublicKey(PublicKeyReq(u, [1], [1], false, true, true, true, true, true, true, true, true, Some([1])))
  }

  function AnswersOfUser(cfg: Config, v: Str): (r: Request)
  {
    Keyboard(KeyboardReq(v, Some(ReplyBytes(seq(Questions(cfg), _ => [1]))), true, _ => true, _ => true))
  }

  lemma MadeRight(cfg: Config, u: Str, v: Str)
    requires HasPublicKey(cfg) && HasKeyboard(cfg)
    ensures ProvedKey(cfg, KeyOfUser(u)) && RightAnswers(cfg, AnswersOfUser(cfg, v))
  {
    hide ParseReply, ReplyBytes;
    var answers := seq(Questions(cfg), _ => [1]);
    ReplyRoundTripIff(answers, Questions(cfg));
    assert ListFits(answers) by { FewAnswersFit(answers); }
  }

  lemma {:induction false} FewAnswersFit(answers: seq<Str>)
    requires |answers| <= 2 && forall i :: 0 <= i < |answers| ==> |answers[i]| == 1
    ensures ListFits(answers) && |StringList(answers)| == 5 * |answers|
  {
    if |answers| > 0 {
      FewAnswersFit(answers[1..]);
    }
  }

  /**
   * The flags belong to the connection and not to a user: the two factors of a success are
   * sure to be of one user if and only if the requests can name only one, or there is only
   * one try, with which nobody gets in.
   */
  lemma FactorsOfOneUserIff(cfg: Config, users: set<Str>)
    requires HasPublicKey(cfg) && HasKeyboard(cfg)
    ensures NeverMixed(cfg, users) <==>
      cfg.maxAuthTries == 1 || forall u, v :: u in users && v in users ==> u == v
  {
    hide Serve, Handled, OneUser, RightKey, RightAnswers, ProvedKey, BareKey;
    if cfg.maxAuthTries == 1 {
      forall rs
        ensures !Serve(cfg, Start(cfg), rs).Success?
      {
        OneTryNeverEnters(cfg, rs);
      }
    } else if forall u, v :: u in users && v in users ==> u == v {
      forall rs | AllFrom(users, rs) && Serve(cfg, Start(cfg), rs).Success?
        ensures OneUser(cfg, Handled(cfg, Start(cfg), rs))
      {
        OneUserOnly(cfg, users, rs);
      }
    } else {
      var u, v :| u in users && v in users && u != v;
      var q, k := KeyOfUser(u), AnswersOfUser(cfg, v);
      MadeRight(cfg, u, v);
      TwoRequestsEnter(cfg, q, k);
      assert AllFrom(users, [q, k]);
      assert !OneUser(cfg, [q, k]) by { TwoUsers(cfg, q, k); }
    }
  }

  /** With both factors asked for, one try is too few. */
  lemma {:induction false} OneTryNeverEnters(cfg: Config, rs: seq<Request>)
    requires HasPublicKey(cfg) && HasKeyboard(cfg) && cfg.maxAuthTries == 1
    ensures Serve(cfg, Start(cfg), rs) == Ended
    decreases |rs|
  {
    if |rs| > 0 {
      FirstTry(cfg, rs[0]);
      hide Round;
      var o := Round(cfg, Start(cfg), rs[0]);
      if o == Again(Start(cfg)) {
        OneTryNeverEnters(cfg, rs[1..]);
      }
    }
  }

  lemma FirstTry(cfg: Config, r: Request)
    requires HasPublicKey(cfg) && HasKeyboard(cfg)
    ensures var o := Round(cfg, Start(cfg), r);
      o.Ended? || o == Again(Start(cfg)) || (o.Again? && o.st.failures == 1)
  {
  }

  /** For any two users: a query for the key of one, which nobody has signed for, and the answers of the other. */
  lemma QueryOfOneAnswersOfAnother(cfg: Config, u: Str, v: Str)
    requires HasPublicKey(cfg) && HasKeyboard(cfg) && cfg.maxAuthTries != 1
    ensures var q := PublicKey(KeyOfUser(u).p.(query := true, verified := false));
      var rs := [q, AnswersOfUser(cfg, v)];
      Serve(cfg, Start(cfg), rs).Success? && !SomeProvedKey(cfg, Handled(cfg, Start(cfg), rs))
  {
    hide Serve, Handled, RightAnswers;
    MadeRight(cfg, u, v);
    BareKeyIsEnough(cfg, PublicKey(KeyOfUser(u).p.(query := true, verified := false)), AnswersOfUser(cfg, v));
  }

  lemma TwoUsers(cfg: Config, q: Request, k: Request)
    requires q.PublicKey? && k.Keyboard? && UserOf(q) != UserOf(k)
    ensures !OneUser(cfg, [q, k])
  {
  }

  // ----- A key once refused -------------------------------------------------

  /** A round only adds to the answers about keys. */
  lemma RoundRemembers(cfg: Config, st: Loop, r: Request, user: Str, keyData: Str)
    requires Lookup(st.cache, user, keyData).Some? && Round(cfg, st, r).Again?
    ensures Lookup(Round(cfg, st, r).st.cache, user, keyData) == Lookup(st.cache, user, keyData)
  {
    hide KeyboardCallback, KeyCallback, Lookup, AddToCache;
    if r.PublicKey? && Lookup(st.cache, r.p.user, r.p.keyData) == None {
      var ok := KeyCallback(st.a, r.p).1;
      AddRemembers(st.cache, Cached(r.p.user, r.p.keyData, ok));
    }
  }

  /** r is about this key, sent by this user. */
  ghost predicate AboutKey(r: Request, user: Str, keyData: Str)
  {
    r.PublicKey? && r.p.user == user && r.p.keyData == keyData
  }

  lemma {:induction false} StaysRefused(cfg: Config, st: Loop, rs: seq<Request>, user: Str, keyData: Str)
    requires Lookup(st.cache, user, keyData) == Some(false) && Serve(cfg, st, rs).Success?
    ensures var hs := Handled(cfg, st, rs); |hs| > 0 && !AboutKey(hs[|hs| - 1], user, keyData)
    decreases |rs|
  {
    hide Round, Lookup;
    var o := Round(cfg, st, rs[0]);
    if o.Again? {
      RoundRemembers(cfg, st, rs[0], user, keyData);
      StaysRefused(cfg, o.st, rs[1..], user, keyData);
    } else if rs[0].PublicKey? {
      KeySucceedsIff(cfg, st, rs[0]);
    }
  }

  /** The callback is asked about the key, or was before. */
  ghost predicate Consulted(cfg: Config, r: Request)
  {
    r.PublicKey? && HasPublicKey(cfg) && r.p.algoParses && r.p.algoOK && r.p.keyParses
  }

  /**
   * A key refused for a user, while fewer than sixteen answers are kept or if this one was,
   * never gets that user in for the rest of the session, whatever becomes of the flags.
   */
  lemma RefusedForGood(cfg: Config, st: Loop, r: Request, rs: seq<Request>)
    requires Consulted(cfg, r) && !KeyPasses(st, r.p) && Round(cfg, st, r).Again?
    requires |st.cache| < 16 || Lookup(st.cache, r.p.user, r.p.keyData).Some?
    ensures var st' := Round(cfg, st, r).st;
      Serve(cfg, st', rs).Success? ==>
        var hs := Handled(cfg, st', rs); |hs| > 0 && !AboutKey(hs[|hs| - 1], r.p.user, r.p.keyData)
  {
    hide Serve, Handled, Lookup;
    var st' := Round(cfg, st, r).st;
    RefusalIsKept(cfg, st, r);
    if Serve(cfg, st', rs).Success? {
      StaysRefused(cfg, st', rs, r.p.user, r.p.keyData);
    }
  }

  lemma RefusalIsKept(cfg: Config, st: Loop, r: Request)
    requires Consulted(cfg, r) && !KeyPasses(st, r.p) && Round(cfg, st, r).Again?
    requires |st.cache| < 16 || Lookup(st.cache, r.p.user, r.p.keyData).Some?
    ensures Lookup(Round(cfg, st, r).st.cache, r.p.user, r.p.keyData) == Some(false)
  {
    hide Lookup, AddToCache;
    var ok := KeyCallback(st.a, r.p).1;
    AddRemembers(st.cache, Cached(r.p.user, r.p.keyData, ok));
  }

  // ----- When a client is cut off -------------------------------------------

  /** How many rounds count against the limit: all failures but a "none" before any other. */
  function Penalties(cfg: Config, st: Loop, rs: seq<Request>): (n: nat)
    decreases |rs|
  {
    if TooMany(cfg, st) || |rs| == 0 then 0
    else
      match Round(cfg, st, rs[0])
      case Again(st') =>
        (if Judge(cfg, st, rs[0]).1.Failed? && !(rs[0].NoneAuth? && st.failures == 0) then 1 else 0)
        + Penalties(cfg, st', rs[1..])
      case _ => 0
  }

  lemma {:induction false} FailuresArePenalties(cfg: Config, st: Loop, rs: seq<Request>)
    requires LoopOK(st)
    ensures var ss := States(cfg, st, rs); ss[|ss| - 1].failures == st.failures + Penalties(cfg, st, rs)
    decreases |rs|
  {
    if !TooMany(cfg, st) && |rs| > 0 && Round(cfg, st, rs[0]).Again? {
      hide Judge, LoopOK, FlagsFollow;
      var st' := Round(cfg, st, rs[0]).st;
      RoundKeeps(cfg, st, rs[0]);
      OnePenalty(cfg, st, rs[0]);
      FailuresArePenalties(cfg, st', rs[1..]);
      assert States(cfg, st, rs) == [st] + States(cfg, st', rs[1..]);
    }
  }

  lemma OnePenalty(cfg: Config, st: Loop, r: Request)
    requires LoopOK(st) && Round(cfg, st, r).Again?
    ensures Round(cfg, st, r).st.failures ==
      st.failures + if Judge(cfg, st, r).1.Failed? && !(r.NoneAuth? && st.failures == 0) then 1 else 0
  {
    hide Judge, FlagsFollow;
    JudgeKeeps(cfg, st, r);
  }

  /** A client is cut off exactly when its penalties reach the limit, six where none is given. */
  lemma CutOffIff(cfg: Config, rs: seq<Request>)
    requires cfg.maxAuthTries >= 0
    ensures var c := WithDefaults(cfg);
      var ss := States(c, Start(c), rs);
      TooMany(c, ss[|ss| - 1]) <==>
      Penalties(c, Start(c), rs) >= (if cfg.maxAuthTries == 0 then 6 else cfg.maxAuthTries)
  {
    hide States, Penalties;
    var c := WithDefaults(cfg);
    assert LoopOK(Start(c));
    FailuresArePenalties(c, Start(c), rs);
  }

  // ----- How many rejections ------------------------------------------------

  /** How many requests other than "none" the loop rejected. */
  function Rejected(cfg: Config, st: Loop, rs: seq<Request>): (n: nat)
    decreases |rs|
  {
    if TooMany(cfg, st) || |rs| == 0 then 0
    else
      (if Judge(cfg, st, rs[0]).1.Failed? && !rs[0].NoneAuth? then 1 else 0)
      + match Round(cfg, st, rs[0])
        case Again(st') => Rejected(cfg, st', rs[1..])
        case _ => 0
  }

  lemma {:induction false} RejectedBound(cfg: Config, st: Loop, rs: seq<Request>)
    requires LoopOK(st) && cfg.maxAuthTries > 0 && st.failures <= cfg.maxAuthTries
    ensures Rejected(cfg, st, rs) <= cfg.maxAuthTries - st.failures
    ensures Rejected(cfg, st, rs) == cfg.maxAuthTries - st.failures ==> Serve(cfg, st, rs) == Ended
    decreases |rs|
  {
    hide Judge, FlagsFollow;
    if !TooMany(cfg, st) && |rs| > 0 {
      JudgeKeeps(cfg, st, rs[0]);
      RoundKeeps(cfg, st, rs[0]);
      var o := Round(cfg, st, rs[0]);
      if o.Again? {
        RejectedBound(cfg, o.st, rs[1..]);
      }
    }
  }

  /**
   * Unless the limit is negative, at most that many requests other than "none" are
   * rejected, six where no limit is given; and a client that uses them up is out.
   */
  lemma TriesAreLimited(cfg: Config, rs: seq<Request>)
    requires cfg.maxAuthTries >= 0
    ensures var c := WithDefaults(cfg);
      && Rejected(c, Start(c), rs) <= (if cfg.maxAuthTries == 0 then 6 else cfg.maxAuthTries)
      && (Rejected(c, Start(c), rs) == c.maxAuthTries ==> Serve(c, Start(c), rs) == Ended)
  {
    hide Serve, Rejected;
    var c := WithDefaults(cfg);
    assert LoopOK(Start(c));
    RejectedBound(c, Start(c), rs);
  }

  /** With a negative limit, a client may be rejected any number of times. */
  lemma {:induction false} NoLimitWhenNegative(cfg: Config, st: Loop, n: nat)
    requires cfg.maxAuthTries < 0 && (HasPublicKey(cfg) || HasKeyboard(cfg))
    ensures Rejected(cfg, st, seq(n, _ => OtherMethod)) == n
    decreases n
  {
    var rs := seq(n, _ => OtherMethod);
    if n > 0 {
      assert rs[1..] == seq(n - 1, _ => OtherMethod);
      NoLimitWhenNegative(cfg, st.(failures := st.failures + 1), n - 1);
    }
  }

  /**
   * Not only the first "none" is free: until another request has failed, any number
   * of them leaves the loop where it was. From then on each one counts.
   */
  lemma {:induction false} NoneIsFreeUntilAFailure(cfg: Config, st: Loop, rs: seq<Request>, tail: seq<Request>)
    requires HasPublicKey(cfg) || HasKeyboard(cfg)
    requires LoopOK(st) && !TooMany(cfg, st)
    requires forall i :: 0 <= i < |rs| ==> rs[i].NoneAuth?
    ensures st.failures == 0 ==> Serve(cfg, st, rs + tail) == Serve(cfg, st, tail)
    ensures st.failures > 0 && cfg.maxAuthTries > 0 && |rs| >= cfg.maxAuthTries - st.failures ==>
      Serve(cfg, st, rs + tail) == Ended
    decreases |rs|
  {
    if |rs| == 0 {
      assert rs + tail == tail;
    } else {
      var st' := if st.failures == 0 then st else st.(failures := st.failures + 1);
      assert (rs + tail)[0] == rs[0] && (rs + tail)[1..] == rs[1..] + tail;
      assert Round(cfg, st, rs[0]) == Again(st');
      if !TooMany(cfg, st') {
        NoneIsFreeUntilAFailure(cfg, st', rs[1..], tail);
      }
    }
  }

  // ----- The objects of the source -------------------------------------------

  /** The flags and records of one login attempt. */
  class PerAttempt {
    const cfg: Config
    var publicKeyOK: bool
    var oneTimeOK: bool
    var records: map<(Str, Str), Record>

    ghost function View(): (a: Attempt)
      reads this
    {
      Attempt(publicKeyOK, oneTimeOK, records)
    }

    /** NewPerAttempt and SetupAuthRequirements. */
    constructor (cfg: Config)
      ensures this.cfg == cfg && View() == Start(cfg).a
      ensures publicKeyOK == cfg.skipRSA && oneTimeOK == (cfg.skipPassphrase && cfg.skipTOTP) && records == map[]
    {
      this.cfg := cfg;
      publicKeyOK, oneTimeOK, records := false, false, map[];
      new;
      if cfg.skipRSA {
        publicKeyOK := true;
      }
      if cfg.skipPassphrase && cfg.skipTOTP {
        oneTimeOK := true;
      }
    }

    method KeyboardInteractiveCallback(r: KeyboardReq) returns (ok: bool)
      requires HasKeyboard(cfg)
      modifies this
      ensures (View(), ok) == KeyboardCallback(cfg, old(View()), r)
    {
      var totpIdx, chal := 0, 0;
      if !cfg.skipPassphrase {
        chal := chal + 1;
        totpIdx := totpIdx + 1;
      }
      if !cfg.skipTOTP {
        chal := chal + 1;
      }
      if r.reply.None? {
        return false;
      }
      var answers := ReadReply(r.reply.value, chal);
      if answers.None? {
        return false;
      }
      var ans := answers.value;
      if !r.known {
        return false;
      }
      var firstPassOK, timeOK := false, false;
      if cfg.skipPassphrase || r.passwordOK(ans[0]) {
        firstPassOK := true;
      }
      if cfg.skipTOTP || (|ans[totpIdx]| > 0 && r.codeOK(ans[totpIdx])) {
        timeOK := true;
      }
      if firstPassOK && timeOK {
        oneTimeOK := true;
        return publicKeyOK;
      }
      return false;
    }

    method PublicKeyCallback(r: PublicKeyReq) returns (ok: bool)
      modifies this
      ensures (View(), ok) == KeyCallback(old(View()), r)
      ensures oneTimeOK == old(oneTimeOK)
      ensures var right := r.validLogin && r.found && r.keyOnFile == Some(r.key);
        && publicKeyOK == (old(publicKeyOK) || right)
        && (ok <==> r.validLogin && r.found && oneTimeOK && publicKeyOK)
        && (forall k :: k in records && k != (r.user, r.key) ==> k in old(records) && records[k] == old(records)[k])
        && (r.validLogin && r.found ==>
              && (r.user, r.key) in records
              && var now := records[(r.user, r.key)];
                 var was := if (r.user, r.key) in old(records) then old(records)[(r.user, r.key)] else Record(0, 0);
                 now.seen == was.seen + 1 && now.accepted == was.accepted + if right then 1 else 0)
    {
      if !r.validLogin {
        return false;
      }
      if !r.found {
        return false;
      }
      var k := (r.user, r.key);
      var updated := if k in records then records[k] else Record(0, 0);
      updated := updated.(seen := updated.seen + 1);
      ok := false;
      if r.keyOnFile == Some(r.key) {
        updated := updated.(accepted := updated.accepted + 1);
        publicKeyOK := true;
        ok := oneTimeOK;
      }
      // the deferred function
      records := records[k := updated];
      if publicKeyOK && oneTimeOK {
        ok := true;
      }
    }

    method AuthLogCallback(r: Request, passed: bool)
      modifies this
      ensures View() == Logged(old(View()), r, passed)
      ensures oneTimeOK == (old(oneTimeOK) || (passed && r.Keyboard?))
      ensures publicKeyOK == (old(publicKeyOK) || (passed && r.PublicKey?))
    {
      if passed {
        match r
        case Keyboard(_) => oneTimeOK := true;
        case PublicKey(_) => publicKeyOK := true;
        case _ =>
      }
    }
  }

  class PubKeyCache {
    var keys: seq<Cached>

    constructor ()
      ensures keys == []
    {
      keys := [];
    }

    method Get(user: Str, keyData: Str) returns (r: Option<bool>)
      ensures r == Lookup(keys, user, keyData)
    {
      for i := 0 to |keys|
        invariant Lookup(keys, user, keyData) == Lookup(keys[i..], user, keyData)
      {
        if keys[i].user == user && keys[i].keyData == keyData {
          return Some(keys[i].ok);
        }
        assert keys[i..][1..] == keys[i + 1..];
      }
      return None;
    }

    method Add(c: Cached)
      modifies this
      ensures keys == AddToCache(old(keys), c)
      ensures Remembers(old(keys), c, keys)
    {
      AddRemembers(keys, c);
      if |keys| < MAX_CACHED_PUB_KEYS {
        keys := keys + [c];
      }
    }
  }

  /** The part of the switch that deals with a key. */
  method TryKey(cfg: Config, a: PerAttempt, cache: PubKeyCache, p: PublicKeyReq, ghost st: Loop)
    returns (v: Verdict)
    requires st.a == a.View() && st.cache == cache.keys
    modifies a, cache
    ensures (Loop(a.View(), cache.keys, st.failures), v) == JudgeKey(cfg, st, p)
  {
    if cfg.skipRSA {
      return Failed;
    }
    if !p.algoParses {
      return Ends;
    }
    if !p.algoOK {
      return Failed;
    }
    if !p.keyParses {
      return Ends;
    }
    var found := cache.Get(p.user, p.keyData);
    var result: bool;
    if found.None? {
      result := a.PublicKeyCallback(p);
      cache.Add(Cached(p.user, p.keyData, result));
    } else {
      result := found.value;
    }
    if !p.restParses {
      return Ends;
    }
    if p.query {
      return if result then QueryOK else Failed;
    }
    if !p.signatureAlgoOK {
      return Failed;
    }
    if !p.verified {
      return Ends;
    }
    return if result then Passed else Failed;
  }

  /** serverAuthenticate over the requests of one client; no more requests is the end of input. */
  method ServerAuthenticate(cfg: Config, a: PerAttempt, rs: seq<Request>) returns (ok: bool)
    requires a.cfg == cfg && a.View() == Start(cfg).a
    modifies a
    ensures ok == Serve(cfg, Start(cfg), rs).Success?
    ensures ok ==> a.View() == Serve(cfg, Start(cfg), rs).st.a
  {
    hide KeyboardCallback, JudgeKey;
    var cache := new PubKeyCache();
    var authFailures, i := 0, 0;
    ghost var st := Start(cfg);
    while true
      invariant 0 <= i <= |rs| && a.View() == st.a && cache.keys == st.cache && authFailures == st.failures
      invariant Serve(cfg, Start(cfg), rs) == Serve(cfg, st, rs[i..])
      invariant fresh(cache)
      decreases |rs| - i
    {
      if authFailures >= cfg.maxAuthTries && cfg.maxAuthTries > 0 {
        return false;
      }
      if i == |rs| {
        return false;
      }
      var r := rs[i];
      ghost var was := st;
      assert rs[i..][0] == r && rs[i..][1..] == rs[i + 1..];
      i := i + 1;
      var v := Failed;
      match r {
        case Malformed =>
          return false;
        case NoneAuth =>
          if authFailures == 0 {
            authFailures := authFailures - 1;
          }
        case Keyboard(k) =>
          if HasKeyboard(cfg) {
            var passed := a.KeyboardInteractiveCallback(k);
            v := if passed then Passed else Failed;
          }
        case PublicKey(p) =>
          v := TryKey(cfg, a, cache, p, st);
        case _ =>
      }
      st := Loop(a.View(), cache.keys, authFailures);
      assert Judge(cfg, was, r) == (st, v);
      match v {
        case Ends =>
          return false;
        case QueryOK =>
        case _ =>
          a.AuthLogCallback(r, v.Passed?);
          if v.Passed? {
            return true;
          }
          authFailures := authFailures + 1;
          st := st.(failures := authFailures);
          if !HasPublicKey(cfg) && !HasKeyboard(cfg) {
            return false;
          }
      }
    }
  }
}
