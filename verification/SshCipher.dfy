/**
 * Packet protection: padded packets under a stream cipher with a MAC, in both
 * orders of encryption and authentication, and under an AEAD cipher. The
 * primitives are parameters: a keystream, a MAC, and a pair of seal and open.
 */
module SshCipher {
  import opened Bytes

  const PACKET_SIZE_MULTIPLE := 16
  const PREFIX_LEN := 5
  const MAX_PACKET := 256 * 1024
  const GCM_TAG_SIZE := 16

  datatype CipherError =
    | PacketTooLarge | ShortInput | TooSmall | TooLarge | MacFailure | OpenFailure | BadPadding | Crash

  // ----- Exclusive or -------------------------------------------------------

  /** Bitwise exclusive or of the k low bits. */
  function XorBits(a: nat, b: nat, k: nat): (x: nat)
  {
    if k == 0 then 0 else (a + b) % 2 + 2 * XorBits(a / 2, b / 2, k - 1)
  }

  lemma {:induction false} XorTwice(a: nat, b: nat, k: nat)
    requires a < Pow2(k)
    ensures XorBits(a, b, k) < Pow2(k)
    ensures XorBits(XorBits(a, b, k), b, k) == a
  {
    if k > 0 {
      XorTwice(a / 2, b / 2, k - 1);
      var y := XorBits(a / 2, b / 2, k - 1);
      var x := (a + b) % 2 + 2 * y;
      assert x == XorBits(a, b, k);
      LowBit(a, b, y);
      assert XorBits(x, b, k) == (x + b) % 2 + 2 * XorBits(y, b / 2, k - 1);
    }
  }

  lemma LowBit(a: nat, b: nat, y: nat)
    ensures var x := (a + b) % 2 + 2 * y; x / 2 == y && (x + b) % 2 == a % 2
  {
  }

  /** Bit i of a number. */
  function Bit(a: nat, i: nat): (b: nat)
  {
    if i == 0 then a % 2 else Bit(a / 2, i - 1)
  }

  /** Each bit of the result is set if and only if it is set in one of the two. */
  lemma {:induction false} XorBitwise(a: nat, b: nat, k: nat, i: nat)
    requires i < k
    ensures Bit(XorBits(a, b, k), i) == (Bit(a, i) + Bit(b, i)) % 2
    decreases k
  {
    var y := XorBits(a / 2, b / 2, k - 1);
    LowAndHigh(a, b, y);
    if i == 0 {
      assert Bit(a, 0) == a % 2 && Bit(b, 0) == b % 2;
    } else {
      XorBitwise(a / 2, b / 2, k - 1, i - 1);
    }
  }

  lemma LowAndHigh(a: nat, b: nat, y: nat)
    ensures var x := (a + b) % 2 + 2 * y; x / 2 == y && x % 2 == (a % 2 + b % 2) % 2
  {
  }

  function Xor(a: byte, b: byte): (x: byte)
  {
    Pow2Eight();
    XorTwice(a, b, 8);
    XorBits(a, b, 8)
  }

  lemma Pow2Eight()
    ensures Pow2(8) == 256
  {
    assert Pow2(4) == 4 * Pow2(2) == 16 * Pow2(0);
    assert Pow2(8) == 4 * Pow2(6) == 16 * Pow2(4);
  }

  // ----- The keystream ------------------------------------------------------

  /** XORKeyStream from position pos of the keystream. */
  function Crypt(ks: nat -> byte, pos: nat, data: seq<byte>): (r: seq<byte>)
    ensures |r| == |data|
    ensures forall i :: 0 <= i < |data| ==> r[i] == Xor(data[i], ks(pos + i))
  {
    seq(|data|, i requires 0 <= i < |data| => Xor(data[i], ks(pos + i)))
  }

  lemma CryptTwice(ks: nat -> byte, pos: nat, data: seq<byte>)
    ensures Crypt(ks, pos, Crypt(ks, pos, data)) == data
  {
    hide Xor;
    forall i | 0 <= i < |data|
      ensures Crypt(ks, pos, Crypt(ks, pos, data))[i] == data[i]
    {
      XorByteTwice(data[i], ks(pos + i));
    }
  }

  lemma XorByteTwice(a: byte, b: byte)
    ensures Xor(Xor(a, b), b) == a
  {
    Pow2Eight();
    XorTwice(a, b, 8);
  }

  lemma CryptConcat(ks: nat -> byte, pos: nat, a: seq<byte>, b: seq<byte>)
    ensures Crypt(ks, pos, a + b) == Crypt(ks, pos, a) + Crypt(ks, pos + |a|, b)
  {
    hide Xor;
  }

  // ----- The stream packet cipher -------------------------------------------

  /** A MAC with the size of its tags. */
  datatype Mac = Mac(tag: seq<byte> -> seq<byte>, size: nat)

  datatype Mode = Mode(ks: nat -> byte, mac: Option<Mac>, etm: bool)

  ghost predicate ModeOK(m: Mode)
  {
    m.mac.Some? ==> forall x :: |m.mac.value.tag(x)| == m.mac.value.size
  }

  /** Encrypt-then-MAC: the packet length stays in the clear. */
  predicate ClearLength(m: Mode)
  {
    m.mac.Some? && m.etm
  }

  /** How much padding a packet of n bytes gets when aad of the prefix bytes are not encrypted. */
  function PaddingLength(n: nat, aad: nat): (p: nat)
    requires aad <= 5
  {
    var p := PACKET_SIZE_MULTIPLE - (PREFIX_LEN + n - aad) % PACKET_SIZE_MULTIPLE;
    if p < 4 then p + PACKET_SIZE_MULTIPLE else p
  }

  /** Section 6 of RFC 4253: at least four bytes, and a whole number of blocks. */
  lemma PaddingRules(n: nat, aad: nat)
    requires aad <= 5
    ensures 4 <= PaddingLength(n, aad) <= 19
    ensures (PREFIX_LEN + n - aad + PaddingLength(n, aad)) % PACKET_SIZE_MULTIPLE == 0
  {
  }

  function Aad(m: Mode): (n: nat)
    ensures n <= 5
  {
    if ClearLength(m) then 4 else 0
  }

  function Padding(m: Mode, n: nat): (p: nat)
    ensures 4 <= p <= 19
  {
    PaddingRules(n, Aad(m));
    PaddingLength(n, Aad(m))
  }

  /** The five bytes in front of a packet. */
  function Prefix(length: nat, padding: byte): (bs: seq<byte>)
    ensures |bs| == 5
  {
    ToBE(length, 4) + [padding]
  }

  /** The prefix as it goes on the wire, and how much keystream it takes. */
  function EncryptedPrefix(m: Mode, pos: nat, prefix: seq<byte>): (bs: seq<byte>)
    requires |prefix| == 5
    ensures |bs| == 5
  {
    if ClearLength(m) then prefix[..4] + Crypt(m.ks, pos, prefix[4..]) else Crypt(m.ks, pos, prefix)
  }

  function AfterPrefix(m: Mode, pos: nat): (pos': nat)
  {
    pos + if ClearLength(m) then 1 else 5
  }

  /** The tag, over the ciphertext or over the plaintext. */
  function Tag(m: Mode, seqNum: nat, wirePrefix: seq<byte>, prefix: seq<byte>,
               cipherText: seq<byte>, plainText: seq<byte>): (t: seq<byte>)
  {
    if m.mac.None? then []
    else if m.etm then m.mac.value.tag(ToBE(seqNum, 4) + wirePrefix + cipherText)
    else m.mac.value.tag(ToBE(seqNum, 4) + prefix + plainText)
  }

  /** What writePacket puts on the wire, for the padding bytes it drew. */
  function StreamBytes(m: Mode, seqNum: nat, pos: nat, packet: seq<byte>, padding: seq<byte>): (wire: seq<byte>)
    requires |padding| < 256
  {
    Untagged(m, pos, packet, padding) + RightTag(m, seqNum, pos, packet, padding)
  }

  /** The prefix and the packet with its padding, as they go on the wire. */
  function Untagged(m: Mode, pos: nat, packet: seq<byte>, padding: seq<byte>): (wire: seq<byte>)
    requires |padding| < 256
  {
    EncryptedPrefix(m, pos, Prefix(|packet| + 1 + |padding|, |padding|))
    + Crypt(m.ks, AfterPrefix(m, pos), packet + padding)
  }

  function RightTag(m: Mode, seqNum: nat, pos: nat, packet: seq<byte>, padding: seq<byte>): (t: seq<byte>)
    requires |padding| < 256
  {
    var prefix := Prefix(|packet| + 1 + |padding|, |padding|);
    Tag(m, seqNum, EncryptedPrefix(m, pos, prefix), prefix, Crypt(m.ks, AfterPrefix(m, pos), packet + padding),
        packet + padding)
  }

  /** Where writePacket leaves the keystream. */
  function StreamAfter(m: Mode, pos: nat, n: nat): (pos': nat)
  {
    AfterPrefix(m, pos) + n + Padding(m, n)
  }

  /** readPacket: the packet, the input left, and the position in the keystream. */
  function StreamRead(m: Mode, seqNum: nat, pos: nat, input: seq<byte>):
    (r: Result<(seq<byte>, seq<byte>, nat), CipherError>)
  {
    if |input| < PREFIX_LEN then Err(ShortInput)
    else
      var wirePrefix := input[..5];
      var prefix := EncryptedPrefix(m, pos, wirePrefix);
      var length := FromBE(prefix[..4]);
      var padding: int := prefix[4];
      var macSize := if m.mac.Some? then m.mac.value.size else 0;
      if length <= padding + 1 then Err(TooSmall)
      else if length > MAX_PACKET then Err(TooLarge)
      else if |input| - PREFIX_LEN < length - 1 + macSize then Err(ShortInput)
      else
        var body := input[5..5 + length - 1];
        var mac := input[5 + length - 1..5 + length - 1 + macSize];
        var data := Crypt(m.ks, AfterPrefix(m, pos), body);
        if m.mac.Some? && Tag(m, seqNum, wirePrefix, prefix, body, data) != mac then Err(MacFailure)
        else Ok((data[..length - padding - 1], input[5 + length - 1 + macSize..], AfterPrefix(m, pos) + length - 1))
  }

  /** The packets a reader accepts: not empty, and with their padding within the limit. */
  predicate Readable(n: nat, padding: nat)
  {
    1 <= n && n + 1 + padding <= MAX_PACKET
  }

  lemma PrefixTwice(m: Mode, pos: nat, prefix: seq<byte>)
    requires |prefix| == 5
    ensures EncryptedPrefix(m, pos, EncryptedPrefix(m, pos, prefix)) == prefix
  {
    hide Crypt;
    var e := EncryptedPrefix(m, pos, prefix);
    if ClearLength(m) {
      assert e[..4] == prefix[..4] && e[4..] == Crypt(m.ks, pos, prefix[4..]);
      CryptTwice(m.ks, pos, prefix[4..]);
      assert prefix == prefix[..4] + prefix[4..];
    } else {
      CryptTwice(m.ks, pos, prefix);
    }
  }

  /**
   * A reader in the writer's state gets the packet back, and stays in step, if and
   * only if the packet is not empty and its padded length is within the limit. The
   * writer does not look at that: it refuses only packets that are too long unpadded.
   */
  lemma StreamRoundTripIff(m: Mode, seqNum: nat, pos: nat, packet: seq<byte>, padding: seq<byte>, rest: seq<byte>)
    requires ModeOK(m) && |padding| == Padding(m, |packet|) && |packet| <= MAX_PACKET
    ensures var r := StreamRead(m, seqNum, pos, StreamBytes(m, seqNum, pos, packet, padding) + rest);
      && (Readable(|packet|, |padding|) ==> r == Ok((packet, rest, StreamAfter(m, pos, |packet|))))
      && (!Readable(|packet|, |padding|) ==> r == Err(if |packet| == 0 then TooSmall else TooLarge))
  {
    hide Crypt, ToBE, FromBE, EncryptedPrefix, Tag, StreamRead, Untagged, RightTag;
    TagOf(m, seqNum, pos, packet, padding);
    StreamReadsTagged(m, seqNum, pos, packet, padding, RightTag(m, seqNum, pos, packet, padding), rest);
    assert StreamBytes(m, seqNum, pos, packet, padding) + rest ==
           Untagged(m, pos, packet, padding) + RightTag(m, seqNum, pos, packet, padding) + rest;
  }

  function MacSize(m: Mode): (n: nat)
  {
    if m.mac.Some? then m.mac.value.size else 0
  }

  lemma TagOf(m: Mode, seqNum: nat, pos: nat, packet: seq<byte>, padding: seq<byte>)
    requires ModeOK(m) && |padding| < 256
    ensures |RightTag(m, seqNum, pos, packet, padding)| == MacSize(m)
  {
    hide Crypt, EncryptedPrefix;
  }

  /** Whatever its padding, a packet is read if it is readable and the tag behind it is the right one. */
  lemma StreamReadsTagged(m: Mode, seqNum: nat, pos: nat, packet: seq<byte>, padding: seq<byte>,
                          tag: seq<byte>, rest: seq<byte>)
    requires ModeOK(m) && |padding| < 256 && |packet| <= MAX_PACKET && |tag| == MacSize(m)
    ensures StreamRead(m, seqNum, pos, Untagged(m, pos, packet, padding) + tag + rest) ==
      if |packet| == 0 then Err(TooSmall)
      else if |packet| + 1 + |padding| > MAX_PACKET then Err(TooLarge)
      else if tag != RightTag(m, seqNum, pos, packet, padding) then Err(MacFailure)
      else Ok((packet, rest, AfterPrefix(m, pos) + |packet| + |padding|))
  {
    hide Crypt, Xor, ToBE, FromBE, EncryptedPrefix, Tag, Pow256;
    var length := |packet| + 1 + |padding|;
    var prefix := Prefix(length, |padding|);
    var plain := packet + padding;
    var wirePrefix, body := EncryptedPrefix(m, pos, prefix), Crypt(m.ks, AfterPrefix(m, pos), plain);
    var input := wirePrefix + body + tag + rest;
    assert input == Untagged(m, pos, packet, padding) + tag + rest;
    assert input[..5] == wirePrefix;
    PrefixTwice(m, pos, prefix);
    assert prefix[..4] == ToBE(length, 4) && prefix[4] == |padding|;
    FromToBE32(length);
    if Readable(|packet|, |padding|) {
      assert input[5..5 + length - 1] == body;
      assert input[5 + length - 1..5 + length - 1 + |tag|] == tag;
      assert input[5 + length - 1 + |tag|..] == rest;
      CryptTwice(m.ks, AfterPrefix(m, pos), plain);
      assert plain[..|packet|] == packet;
      NoMacNoTag(m, seqNum, pos, packet, padding, tag);
    }
  }

  lemma NoMacNoTag(m: Mode, seqNum: nat, pos: nat, packet: seq<byte>, padding: seq<byte>, tag: seq<byte>)
    requires ModeOK(m) && |padding| < 256 && |tag| == MacSize(m)
    ensures m.mac.None? ==> tag == RightTag(m, seqNum, pos, packet, padding)
  {
    hide Crypt, EncryptedPrefix;
  }

  // ----- What exactly is accepted -------------------------------------------

  /**
   * A packet as section 6 of RFC 4253 lays it out: length, padding length, packet,
   * padding, encrypted as one stretch of the keystream, and then the MAC of sequence
   * number and plain text. With encrypt-then-MAC the length stays in the clear, and the
   * MAC is over what is on the wire.
   */
  function SealedForm(m: Mode, seqNum: nat, pos: nat, packet: seq<byte>, padding: seq<byte>): (wire: seq<byte>)
    requires |padding| < 256
  {
    var clear := ToBE(|packet| + 1 + |padding|, 4) + [|padding|] + packet + padding;
    match m.mac
    case None => Crypt(m.ks, pos, clear)
    case Some(mac) =>
      if m.etm then
        var c := clear[..4] + Crypt(m.ks, pos, clear[4..]);
        c + mac.tag(ToBE(seqNum, 4) + c)
      else Crypt(m.ks, pos, clear) + mac.tag(ToBE(seqNum, 4) + clear)
  }

  /** How much keystream that takes: each byte of it once. */
  function KeystreamUsed(m: Mode, packet: seq<byte>, padding: seq<byte>): (n: nat)
  {
    (if m.mac.Some? && m.etm then 1 else 5) + |packet| + |padding|
  }

  /** What is written is that form, under the tag that belongs there. */
  lemma StreamBytesAreSealed(m: Mode, seqNum: nat, pos: nat, packet: seq<byte>, padding: seq<byte>)
    requires |padding| < 256
    ensures StreamBytes(m, seqNum, pos, packet, padding) == SealedForm(m, seqNum, pos, packet, padding)
    ensures AfterPrefix(m, pos) + |packet| + |padding| == pos + KeystreamUsed(m, packet, padding)
  {
    hide Crypt, ToBE, SealedForm, StreamBytes;
    if ClearLength(m) {
      SealedInClear(m, seqNum, pos, packet, padding);
    } else {
      SealedWhole(m, seqNum, pos, packet, padding);
    }
  }

  lemma SealedInClear(m: Mode, seqNum: nat, pos: nat, packet: seq<byte>, padding: seq<byte>)
    requires |padding| < 256 && ClearLength(m)
    ensures StreamBytes(m, seqNum, pos, packet, padding) == SealedForm(m, seqNum, pos, packet, padding)
  {
    hide Crypt, ToBE;
    var len, plain := ToBE(|packet| + 1 + |padding|, 4), packet + padding;
    var prefix := Prefix(|packet| + 1 + |padding|, |padding|);
    var clear := len + [|padding|] + packet + padding;
    var body := Crypt(m.ks, AfterPrefix(m, pos), plain);
    assert prefix[..4] == len && prefix[4..] == [|padding|];
    assert clear[..4] == len && clear[4..] == [|padding|] + plain;
    CryptConcat(m.ks, pos, [|padding|], plain);
    var c := len + Crypt(m.ks, pos, clear[4..]);
    assert EncryptedPrefix(m, pos, prefix) + body == c;
    assert ToBE(seqNum, 4) + EncryptedPrefix(m, pos, prefix) + body == ToBE(seqNum, 4) + c;
  }

  lemma SealedWhole(m: Mode, seqNum: nat, pos: nat, packet: seq<byte>, padding: seq<byte>)
    requires |padding| < 256 && !ClearLength(m)
    ensures StreamBytes(m, seqNum, pos, packet, padding) == SealedForm(m, seqNum, pos, packet, padding)
  {
    hide Crypt, ToBE;
    var plain := packet + padding;
    var prefix := Prefix(|packet| + 1 + |padding|, |padding|);
    var clear := ToBE(|packet| + 1 + |padding|, 4) + [|padding|] + packet + padding;
    assert clear == prefix + plain;
    CryptConcat(m.ks, pos, prefix, plain);
    assert ToBE(seqNum, 4) + prefix + plain == ToBE(seqNum, 4) + clear;
  }

  /** The input is a readable packet in that form, for some padding, and what follows it. */
  ghost predicate Carries(m: Mode, seqNum: nat, pos: nat, input: seq<byte>, packet: seq<byte>, rest: seq<byte>,
                          pos': nat)
  {
    exists padding: seq<byte> ::
      && |padding| < 256 && Readable(|packet|, |padding|)
      && input == SealedForm(m, seqNum, pos, packet, padding) + rest
      && pos' == pos + KeystreamUsed(m, packet, padding)
  }

  /**
   * A packet is handed up if and only if it stands at the front of the input in its sealed
   * form, tag included: nothing else is ever accepted, and the keystream is used without a gap.
   */
  lemma StreamReadIff(m: Mode, seqNum: nat, pos: nat, input: seq<byte>, packet: seq<byte>, rest: seq<byte>, pos': nat)
    requires ModeOK(m)
    ensures StreamRead(m, seqNum, pos, input) == Ok((packet, rest, pos')) <==>
      Carries(m, seqNum, pos, input, packet, rest, pos')
  {
    hide StreamRead, SealedForm, StreamBytes, Untagged, RightTag, AfterPrefix;
    if padding: seq<byte> :|
      |padding| < 256 && Readable(|packet|, |padding|) && input == SealedForm(m, seqNum, pos, packet, padding) + rest
      && pos' == pos + KeystreamUsed(m, packet, padding)
    {
      StreamBytesAreSealed(m, seqNum, pos, packet, padding);
      TagOf(m, seqNum, pos, packet, padding);
      StreamReadsTagged(m, seqNum, pos, packet, padding, RightTag(m, seqNum, pos, packet, padding), rest);
      assert input == Untagged(m, pos, packet, padding) + RightTag(m, seqNum, pos, packet, padding) + rest by {
        BytesAreTagged(m, seqNum, pos, packet, padding);
      }
    }
    if StreamRead(m, seqNum, pos, input) == Ok((packet, rest, pos')) {
      var padding := ReadIsSealed(m, seqNum, pos, input);
      StreamBytesAreSealed(m, seqNum, pos, packet, padding);
    }
  }

  lemma BytesAreTagged(m: Mode, seqNum: nat, pos: nat, packet: seq<byte>, padding: seq<byte>)
    requires |padding| < 256
    ensures StreamBytes(m, seqNum, pos, packet, padding) ==
      Untagged(m, pos, packet, padding) + RightTag(m, seqNum, pos, packet, padding)
  {
  }

  /** What was accepted is what a writer would have written for the padding that was found. */
  lemma ReadIsSealed(m: Mode, seqNum: nat, pos: nat, input: seq<byte>) returns (padding: seq<byte>)
    requires ModeOK(m) && StreamRead(m, seqNum, pos, input).Ok?
    ensures var (packet, rest, pos') := StreamRead(m, seqNum, pos, input).value;
      && |padding| < 256 && Readable(|packet|, |padding|)
      && input == StreamBytes(m, seqNum, pos, packet, padding) + rest
      && pos' == AfterPrefix(m, pos) + |packet| + |padding|
  {
    hide Crypt, Xor, ToBE, FromBE, EncryptedPrefix, Tag, Pow256;
    var wirePrefix := input[..5];
    var prefix := EncryptedPrefix(m, pos, wirePrefix);
    var length := FromBE(prefix[..4]);
    var macSize := MacSize(m);
    var body := input[5..5 + length - 1];
    var data := Crypt(m.ks, AfterPrefix(m, pos), body);
    var n := length - prefix[4] - 1;
    padding := data[n..];
    PrefixTwice(m, pos, wirePrefix);
    ToFromBE(prefix[..4]);
    assert Prefix(length, prefix[4]) == prefix;
    CryptTwice(m.ks, AfterPrefix(m, pos), body);
    assert data[..n] + padding == data;
    assert Untagged(m, pos, data[..n], padding) == wirePrefix + body;
    var tag := input[5 + length - 1..5 + length - 1 + macSize];
    NoMacNoTag(m, seqNum, pos, data[..n], padding, tag);
    assert tag == RightTag(m, seqNum, pos, data[..n], padding);
    assert input == wirePrefix + body + tag + input[5 + length - 1 + macSize..];
  }

  lemma TagSize(m: Mode, seqNum: nat, wirePrefix: seq<byte>, prefix: seq<byte>, body: seq<byte>, plain: seq<byte>)
    requires ModeOK(m)
    ensures |Tag(m, seqNum, wirePrefix, prefix, body, plain)| == if m.mac.Some? then m.mac.value.size else 0
  {
  }

  // ----- Sequences of packets under a stream cipher -------------------------

  /** Packets with the padding drawn for each. */
  datatype Padded = Padded(packet: seq<byte>, padding: seq<byte>)

  ghost predicate AllReadable(m: Mode, ps: seq<Padded>)
  {
    forall i :: 0 <= i < |ps| ==>
      |ps[i].padding| == Padding(m, |ps[i].packet|) && Readable(|ps[i].packet|, |ps[i].padding|)
  }

  function Packets(ps: seq<Padded>): (r: seq<seq<byte>>)
  {
    if |ps| == 0 then [] else [ps[0].packet] + Packets(ps[1..])
  }

  function NextSeq(seqNum: nat): (n: nat)
  {
    (seqNum + 1) % U32_LIMIT
  }

  ghost function StreamWriteAll(m: Mode, seqNum: nat, pos: nat, ps: seq<Padded>): (wire: seq<byte>)
    requires AllReadable(m, ps)
    decreases |ps|
  {
    if |ps| == 0 then []
    else
      StreamBytes(m, seqNum, pos, ps[0].packet, ps[0].padding)
      + StreamWriteAll(m, NextSeq(seqNum), StreamAfter(m, pos, |ps[0].packet|), ps[1..])
  }

  function StreamReadAll(m: Mode, seqNum: nat, pos: nat, input: seq<byte>, n: nat):
    (r: Result<seq<seq<byte>>, CipherError>)
    decreases n
  {
    if n == 0 then Ok([])
    else
      match StreamRead(m, seqNum, pos, input)
      case Err(e) => Err(e)
      case Ok((packet, rest, pos')) =>
        match StreamReadAll(m, NextSeq(seqNum), pos', rest, n - 1)
        case Err(e) => Err(e)
        case Ok(more) => Ok([packet] + more)
  }

  /** Where the keystream stands after some packets: every byte of it is used once. */
  function PosAfter(m: Mode, pos: nat, ps: seq<Padded>): (pos': nat)
    decreases |ps|
  {
    if |ps| == 0 then pos else PosAfter(m, pos + KeystreamUsed(m, ps[0].packet, ps[0].padding), ps[1..])
  }

  /** The k-th packet of a sequence has the k-th sequence number, and the keystream that follows the others. */
  lemma {:induction false} StreamSealedUnder(m: Mode, seqNum: nat, pos: nat, ps: seq<Padded>, k: nat)
    requires AllReadable(m, ps) && k < |ps| && seqNum < U32_LIMIT
    ensures var here := SealedForm(m, (seqNum + k) % U32_LIMIT, PosAfter(m, pos, ps[..k]), ps[k].packet, ps[k].padding);
      StreamWriteAll(m, seqNum, pos, ps) ==
      StreamWriteAll(m, seqNum, pos, ps[..k]) + here
      + StreamWriteAll(m, (seqNum + k + 1) % U32_LIMIT, PosAfter(m, pos, ps[..k + 1]), ps[k + 1..])
    decreases k
  {
    hide StreamBytes, SealedForm, StreamWriteAll, PosAfter, StreamAfter, KeystreamUsed, Padding, NextSeq;
    NextSeqIs(seqNum, k);
    var p, rest := ps[0], ps[1..];
    var next := pos + KeystreamUsed(m, p.packet, p.padding);
    StreamFirst(m, seqNum, pos, ps);
    if k == 0 {
      NoneBefore(m, seqNum, pos, ps);
      assert ps[..0] == [] && ps[..1][1..] == [] && ps[..1][0] == p;
      var bytes := SealedForm(m, seqNum, pos, p.packet, p.padding);
      assert [] + bytes == bytes;
    } else {
      StreamSealedUnder(m, NextSeq(seqNum), next, rest, k - 1);
      StreamFirst(m, seqNum, pos, ps[..k]);
      PosFirst(m, pos, ps[..k]);
      PosFirst(m, pos, ps[..k + 1]);
      assert rest[..k - 1] == ps[..k][1..] && rest[k - 1] == ps[k] && rest[k..] == ps[k + 1..];
      assert rest[..k] == ps[..k + 1][1..] && ps[..k][0] == ps[..k + 1][0] == p;
      FourParts(SealedForm(m, seqNum, pos, p.packet, p.padding),
                StreamWriteAll(m, NextSeq(seqNum), next, rest[..k - 1]),
                SealedForm(m, (seqNum + k) % U32_LIMIT, PosAfter(m, pos, ps[..k]), ps[k].packet, ps[k].padding),
                StreamWriteAll(m, (seqNum + k + 1) % U32_LIMIT, PosAfter(m, pos, ps[..k + 1]), ps[k + 1..]));
    }
  }

  lemma NextSeqIs(seqNum: nat, k: nat)
    ensures NextSeq(seqNum) < U32_LIMIT && (seqNum < U32_LIMIT && k == 0 ==> seqNum % U32_LIMIT == seqNum)
    ensures NextSeq(seqNum) == (seqNum + 1) % U32_LIMIT
    ensures k > 0 ==> (NextSeq(seqNum) + (k - 1)) % U32_LIMIT == (seqNum + k) % U32_LIMIT
    ensures k > 0 ==> (NextSeq(seqNum) + (k - 1) + 1) % U32_LIMIT == (seqNum + k + 1) % U32_LIMIT
  {
    if k > 0 {
      SeqShift(seqNum + 1, k - 1);
      SeqShift(seqNum + 1, k);
    } else {
      LowWord(NextSeq(seqNum), 0);
      if seqNum < U32_LIMIT {
        LowWord(seqNum, 0);
      }
    }
  }

  lemma SeqShift(x: nat, j: nat)
    ensures (x % U32_LIMIT + j) % U32_LIMIT == (x + j) % U32_LIMIT
  {
    var q, y := x / U32_LIMIT, x % U32_LIMIT + j;
    var p, r := y / U32_LIMIT, y % U32_LIMIT;
    assert x + j == r + U32_LIMIT * (q + p);
    LowWord(r, q + p);
  }

  lemma StreamFirst(m: Mode, seqNum: nat, pos: nat, ps: seq<Padded>)
    requires AllReadable(m, ps) && |ps| > 0
    ensures var p := ps[0];
      StreamWriteAll(m, seqNum, pos, ps) == SealedForm(m, seqNum, pos, p.packet, p.padding)
      + StreamWriteAll(m, NextSeq(seqNum), pos + KeystreamUsed(m, p.packet, p.padding), ps[1..])
  {
    hide StreamBytes, SealedForm;
    StreamBytesAreSealed(m, seqNum, pos, ps[0].packet, ps[0].padding);
  }

  lemma NoneBefore(m: Mode, seqNum: nat, pos: nat, ps: seq<Padded>)
    requires |ps| > 0
    ensures StreamWriteAll(m, seqNum, pos, []) == [] && PosAfter(m, pos, []) == pos
    ensures PosAfter(m, pos, ps[..1]) == pos + KeystreamUsed(m, ps[0].packet, ps[0].padding)
  {
    assert ps[..1][1..] == [];
  }

  lemma PosFirst(m: Mode, pos: nat, ps: seq<Padded>)
    requires |ps| > 0
    ensures PosAfter(m, pos, ps) == PosAfter(m, pos + KeystreamUsed(m, ps[0].packet, ps[0].padding), ps[1..])
  {
  }

  /** A reader that starts in step with the writer stays so, packet after packet. */
  lemma {:induction false} StreamStaysInStep(m: Mode, seqNum: nat, pos: nat, ps: seq<Padded>)
    requires ModeOK(m) && AllReadable(m, ps)
    ensures StreamReadAll(m, seqNum, pos, StreamWriteAll(m, seqNum, pos, ps), |ps|) == Ok(Packets(ps))
    decreases |ps|
  {
    hide StreamRead, StreamBytes, StreamAfter;
    if |ps| > 0 {
      var p := ps[0];
      var rest := StreamWriteAll(m, NextSeq(seqNum), StreamAfter(m, pos, |p.packet|), ps[1..]);
      StreamRoundTripIff(m, seqNum, pos, p.packet, p.padding, rest);
      StreamStaysInStep(m, NextSeq(seqNum), StreamAfter(m, pos, |p.packet|), ps[1..]);
    }
  }

  // ----- The object ---------------------------------------------------------

  /** A streamPacketCipher: one direction of a connection, with its place in the keystream. */
  class StreamCipher {
    const mode: Mode
    var pos: nat

    constructor (mode: Mode)
      ensures this.mode == mode && pos == 0
    {
      this.mode, pos := mode, 0;
    }

    /** writePacket, with the padding that the source of randomness gives. */
    method WritePacket(seqNum: nat, packet: seq<byte>, padding: seq<byte>) returns (r: Result<seq<byte>, CipherError>)
      requires |padding| == Padding(mode, |packet|)
      modifies this
      ensures r.Ok? ==> r.value == SealedForm(mode, seqNum, old(pos), packet, padding)
      ensures r.Ok? ==> pos == old(pos) + KeystreamUsed(mode, packet, padding)
      ensures r.Err? <==> |packet| > MAX_PACKET
      ensures r.Err? ==> r.error == PacketTooLarge && pos == old(pos)
      ensures r.Ok? ==> r.value == StreamBytes(mode, seqNum, old(pos), packet, padding)
      ensures r.Ok? ==> pos == StreamAfter(mode, old(pos), |packet|)
    {
      hide Crypt, Tag, EncryptedPrefix, Prefix, Padding;
      if |packet| > MAX_PACKET {
        return Err(PacketTooLarge);
      }
      var length := |packet| + 1 + |padding|;
      var prefix := Prefix(length, |padding|);
      var wirePrefix := EncryptedPrefix(mode, pos, prefix);
      pos := AfterPrefix(mode, pos);
      ghost var start := pos;
      var encPacket := Crypt(mode.ks, pos, packet);
      pos := pos + |packet|;
      var encPadding := Crypt(mode.ks, pos, padding);
      pos := pos + |padding|;
      CryptConcat(mode.ks, start, packet, padding);
      var tag := Tag(mode, seqNum, wirePrefix, prefix, encPacket + encPadding, packet + padding);
      StreamBytesAreSealed(mode, seqNum, old(pos), packet, padding);
      r := Ok(wirePrefix + (encPacket + encPadding) + tag);
    }

    /** readPacket from the front of input; the caller gets the rest of it. */
    method ReadPacket(seqNum: nat, input: seq<byte>) returns (r: Result<(seq<byte>, seq<byte>), CipherError>)
      modifies this
      ensures match StreamRead(mode, seqNum, old(pos), input)
        case Err(e) => r == Err(e)
        case Ok((packet, rest, pos')) => r == Ok((packet, rest)) && pos == pos'
      ensures ModeOK(mode) && r.Ok? ==> Carries(mode, seqNum, old(pos), input, r.value.0, r.value.1, pos)
    {
      r := Take(seqNum, input);
      if ModeOK(mode) && r.Ok? {
        StreamReadIff(mode, seqNum, old(pos), input, r.value.0, r.value.1, pos);
      }
    }

    method Take(seqNum: nat, input: seq<byte>) returns (r: Result<(seq<byte>, seq<byte>), CipherError>)
      modifies this
      ensures match StreamRead(mode, seqNum, old(pos), input)
        case Err(e) => r == Err(e)
        case Ok((packet, rest, pos')) => r == Ok((packet, rest)) && pos == pos'
    {
      hide Crypt, Tag, EncryptedPrefix, FromBE;
      if |input| < PREFIX_LEN {
        return Err(ShortInput);
      }
      var wirePrefix := input[..5];
      var prefix := EncryptedPrefix(mode, pos, wirePrefix);
      pos := AfterPrefix(mode, pos);
      var length := FromBE(prefix[..4]);
      var padding: int := prefix[4];
      var macSize := if mode.mac.Some? then mode.mac.value.size else 0;
      if length <= padding + 1 {
        return Err(TooSmall);
      }
      if length > MAX_PACKET {
        return Err(TooLarge);
      }
      if |input| - PREFIX_LEN < length - 1 + macSize {
        return Err(ShortInput);
      }
      var body := input[5..5 + length - 1];
      var mac := input[5 + length - 1..5 + length - 1 + macSize];
      var data := Crypt(mode.ks, pos, body);
      pos := pos + |body|;
      if mode.mac.Some? && Tag(mode, seqNum, wirePrefix, prefix, body, data) != mac {
        return Err(MacFailure);
      }
      return Ok((data[..length - padding - 1], input[5 + length - 1 + macSize..]));
    }
  }

  // ----- The counter of the AEAD cipher -------------------------------------

  /** A big-endian counter plus one, wrapping around. */
  function Incremented(bs: seq<byte>): (r: seq<byte>)
    ensures |r| == |bs|
  {
    if |bs| == 0 then []
    else
      var k := |bs| - 1;
      if bs[k] == 255 then Incremented(bs[..k]) + [0] else bs[..k] + [bs[k] + 1]
  }

  lemma {:induction false} IncrementedValue(bs: seq<byte>)
    ensures FromBE(Incremented(bs)) == if FromBE(bs) + 1 == Pow256(|bs|) then 0 else FromBE(bs) + 1
  {
    ToFromBE(bs);
    if |bs| > 0 {
      var k := |bs| - 1;
      IncrementedValue(bs[..k]);
      ToFromBE(bs[..k]);
      assert Incremented(bs)[..k] == if bs[k] == 255 then Incremented(bs[..k]) else bs[..k];
    }
  }

  /** A byte plus one, in one byte. */
  function Successor(b: byte): (r: byte)
  {
    if b == 255 then 0 else b + 1
  }

  /** incIV: adds one to bytes 4 to 11 and leaves the first four alone. */
  method IncIV(iv: array<byte>)
    requires iv.Length == 12
    modifies iv
    ensures iv[..4] == old(iv[..4]) && iv[4..] == Incremented(old(iv[4..]))
  {
    hide Incremented;
    ghost var was := iv[..];
    var i := 11;
    assert was[4..12] == was[4..] && iv[..][12..] == [];
    assert Incremented(was[4..]) + [] == Incremented(was[4..]);
    while i >= 4
      invariant 3 <= i <= 11 && iv[..][..i + 1] == was[..i + 1]
      invariant Incremented(was[4..]) == Incremented(was[4..i + 1]) + iv[..][i + 1..]
      decreases i
    {
      ghost var before := iv[..];
      iv[i] := Successor(iv[i]);
      assert iv[..] == before[i := Successor(before[i])];
      CarryStep(was, before, i);
      if iv[i] != 0 {
        break;
      }
      i := i - 1;
    }
    if i == 3 {
      NothingToCarry(was, iv[..]);
    }
    assert iv[..4] == iv[..][..4] && iv[4..] == iv[..][4..];
    assert was[..i + 1][..4] == was[..4];
  }

  /** One byte of incIV: either the carry goes on below it, or the number is complete. */
  lemma CarryStep(was: seq<byte>, before: seq<byte>, i: nat)
    requires |was| == |before| == 12 && 4 <= i <= 11 && before[..i + 1] == was[..i + 1]
    requires Incremented(was[4..]) == Incremented(was[4..i + 1]) + before[i + 1..]
    ensures var now := before[i := Successor(before[i])];
      && now[..i] == was[..i] && now[..4] == was[..4]
      && (now[i] != 0 ==> now[4..] == Incremented(was[4..]))
      && (now[i] == 0 ==> Incremented(was[4..]) == Incremented(was[4..i]) + now[i..])
  {
    var now := before[i := Successor(before[i])];
    var low := was[4..i + 1];
    assert low[..i - 4] == was[4..i] && low[i - 4] == was[i] == before[..i + 1][i];
    assert now[..i] == before[..i + 1][..i] == was[..i + 1][..i];
    assert now[i + 1..] == before[i + 1..];
    assert now[i..] == [now[i]] + now[i + 1..];
    if now[i] != 0 {
      assert now[4..] == now[..i][4..] + [now[i]] + now[i + 1..];
      assert was[..i][4..] == was[4..i];
    } else {
      assert Incremented(was[4..i]) + [0] + now[i + 1..] == Incremented(was[4..i]) + ([0] + now[i + 1..]);
    }
  }

  lemma NothingToCarry(was: seq<byte>, now: seq<byte>)
    requires |was| == |now| == 12 && Incremented(was[4..]) == Incremented(was[4..4]) + now[4..]
    ensures now[4..] == Incremented(was[4..])
  {
    assert was[4..4] == [] && Incremented([]) == [];
  }

  // ----- The AEAD packet cipher ---------------------------------------------

  /** Seal and open under one key; open may refuse. */
  datatype Aead = Aead(
    seal: (seq<byte>, seq<byte>, seq<byte>) -> seq<byte>,
    open: (seq<byte>, seq<byte>, seq<byte>) -> Option<seq<byte>>)

  ghost predicate AeadOK(a: Aead)
  {
    forall iv: seq<byte>, plain: seq<byte>, aad: seq<byte> ::
      |a.seal(iv, plain, aad)| == |plain| + GCM_TAG_SIZE && a.open(iv, a.seal(iv, plain, aad), aad) == Some(plain)
  }

  function GcmPadding(n: nat): (p: nat)
    ensures 4 <= p <= 19 && (1 + n + p) % PACKET_SIZE_MULTIPLE == 0
  {
    var p := PACKET_SIZE_MULTIPLE - (1 + n) % PACKET_SIZE_MULTIPLE;
    if p < 4 then p + PACKET_SIZE_MULTIPLE else p
  }

  /** What writePacket puts on the wire; the length is authenticated but not encrypted. */
  function GcmBytes(a: Aead, iv: seq<byte>, packet: seq<byte>, padding: seq<byte>): (wire: seq<byte>)
    requires |padding| == GcmPadding(|packet|)
  {
    var prefix := ToBE(|packet| + |padding| + 1, 4);
    prefix + a.seal(iv, [|padding|] + packet + padding, prefix)
  }

  /** writePacket: from 2^32 bytes on, the length is cut and the packet does not fit a buffer of that length. */
  function GcmWrite(a: Aead, iv: seq<byte>, packet: seq<byte>, padding: seq<byte>): (r: Result<seq<byte>, CipherError>)
    requires |padding| == GcmPadding(|packet|)
  {
    if |packet| + |padding| + 1 >= U32_LIMIT then Err(Crash) else Ok(GcmBytes(a, iv, packet, padding))
  }

  /** readPacket: the packet and the input left. */
  function GcmRead(a: Aead, iv: seq<byte>, input: seq<byte>): (r: Result<(seq<byte>, seq<byte>), CipherError>)
  {
    if |input| < 4 then Err(ShortInput)
    else
      var prefix := input[..4];
      var length := FromBE(prefix);
      if length > MAX_PACKET then Err(TooLarge)
      else if |input| - 4 < length + GCM_TAG_SIZE then Err(ShortInput)
      else
        var end := 4 + length + GCM_TAG_SIZE;
        match a.open(iv, input[4..end], prefix)
        case None => Err(OpenFailure)
        case Some(plain) =>
          // Only a peer that seals nothing, or less than its padding, gets here with a crash.
          if |plain| == 0 then Err(Crash)
          else
            var padding: int := plain[0];
            // The sum is taken in one byte.
            if padding < 4 || (padding + 1) % 256 >= |plain| then Err(BadPadding)
            else if !(1 <= length - padding <= |plain|) then Err(Crash)
            else Ok((plain[1..length - padding], input[end..]))
  }

  /**
   * The same for the AEAD cipher, which does not check the length of what it writes at
   * all, and crashes from 2^32 bytes on.
   */
  lemma GcmRoundTripIff(a: Aead, iv: seq<byte>, packet: seq<byte>, padding: seq<byte>, rest: seq<byte>)
    requires AeadOK(a) && |padding| == GcmPadding(|packet|)
    ensures var w := GcmWrite(a, iv, packet, padding);
      && (Readable(|packet|, |padding|) ==> w.Ok? && GcmRead(a, iv, w.value + rest) == Ok((packet, rest)))
      && (!Readable(|packet|, |padding|) && w.Ok? ==>
            GcmRead(a, iv, w.value + rest) == Err(if |packet| == 0 then BadPadding else TooLarge))
  {
    if |packet| + |padding| + 1 < U32_LIMIT {
      hide ToBE, FromBE, GcmBytes, GcmPadding, AeadOK;
      GcmParts(a, iv, packet, padding, rest);
      GcmPlain(packet, padding);
    }
  }

  /** What an AEAD reader takes: a text that opens, with the length as what else was authenticated. */
  ghost predicate Opens(a: Aead, iv: seq<byte>, input: seq<byte>, packet: seq<byte>, rest: seq<byte>, plain: seq<byte>)
  {
    && |input| >= 4
    && var length := FromBE(input[..4]);
       var end := 4 + length + GCM_TAG_SIZE;
       && length <= MAX_PACKET && end <= |input| && rest == input[end..]
       && a.open(iv, input[4..end], input[..4]) == Some(plain)
       && |plain| > 0 && plain[0] >= 4 && (plain[0] + 1) % 256 < |plain|
       && 1 <= length - plain[0] <= |plain| && packet == plain[1..length - plain[0]]
  }

  /** A packet is handed up if and only if the cipher opens what stands there and finds it inside. */
  lemma GcmReadIff(a: Aead, iv: seq<byte>, input: seq<byte>, packet: seq<byte>, rest: seq<byte>)
    ensures GcmRead(a, iv, input) == Ok((packet, rest)) <==> exists plain :: Opens(a, iv, input, packet, rest, plain)
    ensures |input| >= 4 && FromBE(input[..4]) <= MAX_PACKET && 4 + FromBE(input[..4]) + GCM_TAG_SIZE <= |input| ==>
      (a.open(iv, input[4..4 + FromBE(input[..4]) + GCM_TAG_SIZE], input[..4]) == None <==>
       GcmRead(a, iv, input) == Err(OpenFailure))
  {
    hide FromBE;
    if GcmRead(a, iv, input) == Ok((packet, rest)) {
      var plain := a.open(iv, input[4..4 + FromBE(input[..4]) + GCM_TAG_SIZE], input[..4]).value;
      assert Opens(a, iv, input, packet, rest, plain);
    }
  }

  /** The plain text: the length of the padding, the packet, the padding. */
  lemma GcmPlain(packet: seq<byte>, padding: seq<byte>)
    requires |padding| < 256
    ensures var plain := [|padding|] + packet + padding;
      |plain| == 1 + |packet| + |padding| && plain[0] == |padding| && plain[1..1 + |packet|] == packet
  {
  }

  /** What is on the wire, and what follows it: the length, the sealed text, the rest. */
  lemma GcmParts(a: Aead, iv: seq<byte>, packet: seq<byte>, padding: seq<byte>, rest: seq<byte>)
    requires AeadOK(a) && |padding| == GcmPadding(|packet|) && |packet| + |padding| + 1 < U32_LIMIT
    ensures var input := GcmBytes(a, iv, packet, padding) + rest;
      var length := |packet| + |padding| + 1;
      var end := 4 + length + GCM_TAG_SIZE;
      && |input| == end + |rest| && FromBE(input[..4]) == length && input[end..] == rest
      && a.open(iv, input[4..end], input[..4]) == Some([|padding|] + packet + padding)
  {
    hide ToBE, FromBE;
    var length := |packet| + |padding| + 1;
    var prefix := ToBE(length, 4);
    var sealed := a.seal(iv, [|padding|] + packet + padding, prefix);
    var input := GcmBytes(a, iv, packet, padding) + rest;
    assert input == prefix + sealed + rest && |sealed| == length + GCM_TAG_SIZE;
    FromToBE32(length);
    assert input[..4] == prefix && input[4..4 + |sealed|] == sealed && input[4 + |sealed|..] == rest;
  }

  /** iv' is iv with its counter, bytes 4 to 11, one higher, from all ones to zero. */
  ghost predicate CountedUp(iv: seq<byte>, iv': seq<byte>)
  {
    && |iv| == |iv'| == 12 && iv'[..4] == iv[..4]
    && FromBE(iv'[4..]) == (FromBE(iv[4..]) + 1) % 0x1_0000_0000_0000_0000
  }

  lemma NextIVCountsUp(iv: seq<byte>)
    requires |iv| == 12
    ensures CountedUp(iv, NextIV(iv))
  {
    hide FromBE, Incremented, Pow256;
    IncrementedValue(iv[4..]);
    ToFromBE(iv[4..]);
    Pow256Small();
    assert NextIV(iv)[4..] == Incremented(iv[4..]) && NextIV(iv)[..4] == iv[..4];
  }

  /** The IV of the k-th packet from iv on. */
  function IVAfter(iv: seq<byte>, k: nat): (iv': seq<byte>)
    requires |iv| == 12
    ensures |iv'| == 12
  {
    if k == 0 then iv else NextIV(IVAfter(iv, k - 1))
  }

  lemma {:induction false} IVAfterValue(iv: seq<byte>, k: nat)
    requires |iv| == 12
    ensures IVAfter(iv, k)[..4] == iv[..4]
    ensures FromBE(IVAfter(iv, k)[4..]) == (FromBE(iv[4..]) + k) % 0x1_0000_0000_0000_0000
  {
    hide FromBE, NextIV;
    if k == 0 {
      ToFromBE(iv[4..]);
      assert Pow256(8) == 0x1_0000_0000_0000_0000 by { Pow256Small(); }
    } else {
      IVAfterValue(iv, k - 1);
      NextIVCountsUp(IVAfter(iv, k - 1));
      PlusOne(FromBE(iv[4..]) + k - 1);
    }
  }

  lemma PlusOne(x: nat)
    ensures (x % 0x1_0000_0000_0000_0000 + 1) % 0x1_0000_0000_0000_0000 == (x + 1) % 0x1_0000_0000_0000_0000
  {
  }

  /** Of fewer than 2^64 packets, no two are sealed under the same IV. */
  lemma IVsDiffer(iv: seq<byte>, i: nat, j: nat)
    requires |iv| == 12 && i < j < i + 0x1_0000_0000_0000_0000
    ensures IVAfter(iv, i) != IVAfter(iv, j)
  {
    hide FromBE, IVAfter;
    IVAfterValue(iv, i);
    IVAfterValue(iv, j);
    SmallGap(FromBE(iv[4..]) + i, j - i);
  }

  lemma SmallGap(x: nat, d: nat)
    requires 0 < d < 0x1_0000_0000_0000_0000
    ensures (x + d) % 0x1_0000_0000_0000_0000 != x % 0x1_0000_0000_0000_0000
  {
  }

  /** The counter part of an IV moves; its fixed part stays. */
  function NextIV(iv: seq<byte>): (iv': seq<byte>)
    requires |iv| == 12
    ensures |iv'| == 12
  {
    iv[..4] + Incremented(iv[4..])
  }

  ghost predicate GcmAllReadable(ps: seq<Padded>)
  {
    forall i :: 0 <= i < |ps| ==>
      |ps[i].padding| == GcmPadding(|ps[i].packet|) && Readable(|ps[i].packet|, |ps[i].padding|)
  }

  ghost function GcmWriteAll(a: Aead, iv: seq<byte>, ps: seq<Padded>): (wire: seq<byte>)
    requires |iv| == 12 && GcmAllReadable(ps)
    decreases |ps|
  {
    if |ps| == 0 then [] else GcmBytes(a, iv, ps[0].packet, ps[0].padding) + GcmWriteAll(a, NextIV(iv), ps[1..])
  }

  function GcmReadAll(a: Aead, iv: seq<byte>, input: seq<byte>, n: nat): (r: Result<seq<seq<byte>>, CipherError>)
    requires |iv| == 12
    decreases n
  {
    if n == 0 then Ok([])
    else
      match GcmRead(a, iv, input)
      case Err(e) => Err(e)
      case Ok((packet, rest)) =>
        match GcmReadAll(a, NextIV(iv), rest, n - 1)
        case Err(e) => Err(e)
        case Ok(more) => Ok([packet] + more)
  }

  /** The k-th packet of a sequence is sealed under the k-th IV from the first on. */
  lemma {:induction false} GcmSealedUnder(a: Aead, iv: seq<byte>, ps: seq<Padded>, k: nat)
    requires |iv| == 12 && GcmAllReadable(ps) && k < |ps|
    ensures GcmWriteAll(a, iv, ps) ==
      GcmWriteAll(a, iv, ps[..k]) + GcmBytes(a, IVAfter(iv, k), ps[k].packet, ps[k].padding)
      + GcmWriteAll(a, IVAfter(iv, k + 1), ps[k + 1..])
    decreases k
  {
    hide GcmBytes, NextIV, GcmWriteAll, IVAfter;
    GcmFirst(a, iv, ps);
    assert IVAfter(iv, 0) == iv && IVAfter(iv, 1) == NextIV(iv) by { IVFirst(iv); }
    if k == 0 {
      assert ps[..0] == [] && GcmWriteAll(a, iv, []) == [] by { GcmNothing(a, iv); }
      var bytes := GcmBytes(a, iv, ps[0].packet, ps[0].padding);
      assert [] + bytes == bytes;
    } else {
      var rest := ps[1..];
      GcmSealedUnder(a, NextIV(iv), rest, k - 1);
      IVAfterNext(iv, k - 1);
      IVAfterNext(iv, k);
      GcmFirst(a, iv, ps[..k]);
      assert rest[..k - 1] == ps[..k][1..] && rest[k - 1] == ps[k] && rest[k..] == ps[k + 1..];
      FourParts(GcmBytes(a, iv, ps[0].packet, ps[0].padding), GcmWriteAll(a, NextIV(iv), rest[..k - 1]),
                GcmBytes(a, IVAfter(iv, k), ps[k].packet, ps[k].padding),
                GcmWriteAll(a, IVAfter(iv, k + 1), ps[k + 1..]));
    }
  }

  lemma GcmFirst(a: Aead, iv: seq<byte>, ps: seq<Padded>)
    requires |iv| == 12 && GcmAllReadable(ps) && |ps| > 0
    ensures GcmWriteAll(a, iv, ps) ==
      GcmBytes(a, iv, ps[0].packet, ps[0].padding) + GcmWriteAll(a, NextIV(iv), ps[1..])
  {
    hide GcmBytes, NextIV;
  }

  lemma GcmNothing(a: Aead, iv: seq<byte>)
    requires |iv| == 12
    ensures GcmWriteAll(a, iv, []) == []
  {
  }

  lemma IVFirst(iv: seq<byte>)
    requires |iv| == 12
    ensures IVAfter(iv, 0) == iv && IVAfter(iv, 1) == NextIV(iv)
  {
    hide NextIV;
  }

  lemma FourParts(a: seq<byte>, b: seq<byte>, c: seq<byte>, d: seq<byte>)
    ensures a + (b + c + d) == a + b + c + d
  {
  }

  lemma {:induction false} IVAfterNext(iv: seq<byte>, k: nat)
    requires |iv| == 12
    ensures IVAfter(NextIV(iv), k) == IVAfter(iv, k + 1)
  {
    hide NextIV;
    if k > 0 {
      IVAfterNext(iv, k - 1);
    }
  }

  lemma {:induction false} GcmStaysInStep(a: Aead, iv: seq<byte>, ps: seq<Padded>)
    requires AeadOK(a) && |iv| == 12 && GcmAllReadable(ps)
    ensures GcmReadAll(a, iv, GcmWriteAll(a, iv, ps), |ps|) == Ok(Packets(ps))
    decreases |ps|
  {
    hide GcmRead, GcmBytes, NextIV, AeadOK;
    if |ps| > 0 {
      var rest := GcmWriteAll(a, NextIV(iv), ps[1..]);
      GcmRoundTripIff(a, iv, ps[0].packet, ps[0].padding, rest);
      GcmStaysInStep(a, NextIV(iv), ps[1..]);
    }
  }

  /** A gcmCipher: its IV moves with every packet sealed or opened. */
  class GcmCipher {
    const aead: Aead
    const iv: array<byte>

    constructor (aead: Aead, iv: array<byte>)
      requires iv.Length == 12
      ensures this.aead == aead && this.iv == iv
    {
      this.aead, this.iv := aead, iv;
    }

    method WritePacket(packet: seq<byte>, padding: seq<byte>) returns (r: Result<seq<byte>, CipherError>)
      requires iv.Length == 12 && |padding| == GcmPadding(|packet|)
      modifies iv
      ensures r == GcmWrite(aead, old(iv[..]), packet, padding)
      ensures iv[..] == if r.Ok? then NextIV(old(iv[..])) else old(iv[..])
      ensures r.Ok? ==> CountedUp(old(iv[..]), iv[..])
    {
      hide ToBE, Incremented, NextIV, CountedUp;
      NextIVCountsUp(iv[..]);
      var length := (|packet| + |padding| + 1) % U32_LIMIT;
      // The slice behind the packet, in a buffer of that length.
      if 1 + |packet| > length {
        return Err(Crash);
      }
      var prefix := ToBE(length, 4);
      r := Ok(prefix + aead.seal(iv[..], [|padding|] + packet + padding, prefix));
      MoveIV();
    }

    /**
     * What a writer with the same IV has sealed is read back, and both move on alike. The
     * IV moves once a packet is opened, whatever its padding then turns out to be.
     */
    method ReadPacket(input: seq<byte>) returns (r: Result<(seq<byte>, seq<byte>), CipherError>)
      requires iv.Length == 12
      modifies iv
      ensures r == GcmRead(aead, old(iv[..]), input)
      ensures AeadOK(aead) ==>
        forall packet, padding, rest | ReadsAs(old(iv[..]), input, packet, padding, rest) :: r == Ok((packet, rest))
      ensures iv[..] == if r.Ok? || r.error.BadPadding? || r.error.Crash? then NextIV(old(iv[..])) else old(iv[..])
      ensures r.Ok? || r.error.BadPadding? || r.error.Crash? ==> CountedUp(old(iv[..]), iv[..])
    {
      NextIVCountsUp(iv[..]);
      r := Open(input);
      ghost var was := old(iv[..]);
      if AeadOK(aead) {
        forall packet, padding, rest | ReadsAs(was, input, packet, padding, rest)
          ensures r == Ok((packet, rest))
        {
          GcmRoundTripIff(aead, was, packet, padding, rest);
        }
      }
    }

    /** The input starts with a packet sealed under iv that a reader can read. */
    ghost predicate ReadsAs(iv: seq<byte>, input: seq<byte>, packet: seq<byte>, padding: seq<byte>, rest: seq<byte>)
    {
      && |padding| == GcmPadding(|packet|) && Readable(|packet|, |padding|)
      && input == GcmBytes(aead, iv, packet, padding) + rest
    }

    method Open(input: seq<byte>) returns (r: Result<(seq<byte>, seq<byte>), CipherError>)
      requires iv.Length == 12
      modifies iv
      ensures r == GcmRead(aead, old(iv[..]), input)
      ensures iv[..] == if r.Ok? || r.error.BadPadding? || r.error.Crash? then NextIV(old(iv[..])) else old(iv[..])
    {
      hide FromBE, Incremented;
      if |input| < 4 {
        return Err(ShortInput);
      }
      var prefix := input[..4];
      var length := FromBE(prefix);
      if length > MAX_PACKET {
        return Err(TooLarge);
      }
      if |input| - 4 < length + GCM_TAG_SIZE {
        return Err(ShortInput);
      }
      var end := 4 + length + GCM_TAG_SIZE;
      var unsealed := aead.open(iv[..], input[4..end], prefix);
      if unsealed.None? {
        return Err(OpenFailure);
      }
      MoveIV();
      var plain := unsealed.value;
      if |plain| == 0 {
        return Err(Crash);
      }
      var padding: int := plain[0];
      if padding < 4 {
        return Err(BadPadding);
      }
      if (padding + 1) % 256 >= |plain| {
        return Err(BadPadding);
      }
      if length - padding < 1 || length - padding > |plain| {
        return Err(Crash);
      }
      return Ok((plain[1..length - padding], input[end..]));
    }

    method MoveIV()
      requires iv.Length == 12
      modifies iv
      ensures iv[..] == NextIV(old(iv[..])) && CountedUp(old(iv[..]), iv[..])
    {
      NextIVCountsUp(iv[..]);
      hide Incremented;
      assert iv[..][..4] == iv[..4] && iv[..][4..] == iv[4..];
      IncIV(iv);
      assert iv[..] == iv[..4] + iv[4..];
    }
  }
}
