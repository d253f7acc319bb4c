/** Arbitrary-precision integers on the wire: the mpint of section 5 of RFC 4251. */
module SshInt {
  import opened Bytes

  // ----- What big.Int provides ----------------------------------------------

  /** The absolute value in big-endian bytes, without leading zeros. */
  function NatBytes(n: nat): (bs: seq<byte>)
  {
    if n == 0 then [] else NatBytes(n / 256) + [n % 256]
  }

  function BitLen(n: nat): (k: nat)
  {
    if n == 0 then 0 else 1 + BitLen(n / 2)
  }

  lemma {:induction false} NatBytesValue(n: nat)
    ensures FromBE(NatBytes(n)) == n
    ensures n > 0 ==> |NatBytes(n)| > 0 && NatBytes(n)[0] > 0
  {
    if n > 0 {
      NatBytesValue(n / 256);
      var front := NatBytes(n / 256);
      assert NatBytes(n)[..|front|] == front;
    }
  }

  /** A byte string without a leading zero is the one for its value. */
  lemma {:induction false} NatBytesOfValue(bs: seq<byte>)
    requires |bs| > 0 ==> bs[0] > 0
    ensures NatBytes(FromBE(bs)) == bs && (|bs| > 0 ==> FromBE(bs) > 0)
  {
    if |bs| > 0 {
      var k := |bs| - 1;
      NatBytesOfValue(bs[..k]);
      assert FromBE(bs) / 256 == FromBE(bs[..k]) && FromBE(bs) % 256 == bs[k];
      assert bs == bs[..k] + [bs[k]];
    }
  }

  /** A number has at most k bits if and only if it is below the k-th power of two. */
  lemma {:induction false} BitLenIff(n: nat, k: nat)
    ensures BitLen(n) <= k <==> n < Pow2(k)
  {
    if n > 0 && k > 0 {
      BitLenIff(n / 2, k - 1);
    }
  }

  lemma BitLenByte(n: nat)
    requires 0 < n < 256
    ensures 1 <= BitLen(n) <= 8 && (BitLen(n) == 8 <==> n >= 128)
  {
    hide BitLen;
    BitLenIff(n, 0);
    BitLenIff(n, 7);
    BitLenIff(n, 8);
    assert Pow2(7) == 128;
  }

  lemma BitLenShift(n: nat)
    requires n >= 256
    ensures BitLen(n) == 8 + BitLen(n / 256)
  {
    var n2, n4, n6 := n / 4, n / 16, n / 64;
    assert n / 2 / 2 == n2 && n2 / 2 / 2 == n4 && n4 / 2 / 2 == n6 && n6 / 2 / 2 == n / 256;
    assert BitLen(n) == 2 + BitLen(n2);
    assert BitLen(n2) == 2 + BitLen(n4);
    assert BitLen(n4) == 2 + BitLen(n6);
    assert BitLen(n6) == 2 + BitLen(n / 256);
  }

  /** Bytes and bits of a number agree, and so do its top bit and a full top byte. */
  lemma {:induction false} BytesAndBits(n: nat)
    ensures |NatBytes(n)| == (BitLen(n) + 7) / 8
    ensures n > 0 ==> |NatBytes(n)| > 0 && (NatBytes(n)[0] >= 128 <==> BitLen(n) % 8 == 0)
  {
    if n >= 256 {
      hide BitLen;
      BytesAndBits(n / 256);
      BitLenShift(n);
      var front := NatBytes(n / 256);
      assert NatBytes(n) == front + [n % 256] && (front + [n % 256])[0] == front[0];
    } else if n > 0 {
      BitLenByte(n);
      hide BitLen;
      assert n / 256 == 0 && NatBytes(0) == [];
      assert NatBytes(n) == NatBytes(0) + [n] == [n];
    } else {
      assert BitLen(0) == 0 && NatBytes(0) == [];
    }
  }

  // ----- The encoding -------------------------------------------------------

  /** Each byte inverted. */
  function Inverted(bs: seq<byte>): (r: seq<byte>)
    ensures |r| == |bs| && forall i :: 0 <= i < |bs| ==> r[i] == 255 - bs[i]
  {
    seq(|bs|, i requires 0 <= i < |bs| => 255 - bs[i])
  }

  /** The bytes of n, or of its complement if it is negative. */
  function Magnitude(n: int): (bs: seq<byte>)
  {
    if n < 0 then Inverted(NatBytes(-n - 1)) else NatBytes(n)
  }

  /** The extra byte that keeps the top bit telling the sign, where it is needed. */
  function SignPad(n: int): (bs: seq<byte>)
    ensures |bs| <= 1
  {
    var bytes := Magnitude(n);
    if n < 0 then (if |bytes| == 0 || bytes[0] < 128 then [0xff] else [])
    else if |bytes| > 0 && bytes[0] >= 128 then [0] else []
  }

  /** What marshalInt writes after the length. */
  function IntContent(n: int): (c: seq<byte>)
  {
    SignPad(n) + Magnitude(n)
  }

  /** What parseInt makes of the bytes after the length. */
  function ContentValue(c: seq<byte>): (n: int)
  {
    if |c| > 0 && c[0] >= 128 then -(FromBE(Inverted(c)) + 1) else FromBE(c)
  }

  /** intLength: the length bytes, the magnitude, and a sign byte where the top bit is taken. */
  function IntLength(n: int): (k: nat)
  {
    if n < 0 then
      var bitLen := BitLen(-n - 1);
      4 + (if bitLen % 8 == 0 then 1 else 0) + (bitLen + 7) / 8
    else if n == 0 then 4
    else
      var bitLen := BitLen(n);
      4 + (if bitLen % 8 == 0 then 1 else 0) + (bitLen + 7) / 8
  }

  /** The reference: two's complement, most significant byte first. */
  function TwosComplement(c: seq<byte>): (n: int)
  {
    FromBE(c) - if |c| > 0 && c[0] >= 128 then Pow256(|c|) else 0
  }

  /** No leading byte could be dropped without changing the value. */
  predicate Shortest(c: seq<byte>)
  {
    && (|c| > 0 && c[0] == 0 ==> |c| > 1 && c[1] >= 128)
    && (|c| > 1 && c[0] == 255 ==> c[1] < 128)
  }

  lemma {:induction false} InvertedValue(bs: seq<byte>)
    ensures FromBE(Inverted(bs)) == Pow256(|bs|) - 1 - FromBE(bs)
  {
    if |bs| > 0 {
      var k := |bs| - 1;
      InvertedValue(bs[..k]);
      assert Inverted(bs)[..k] == Inverted(bs[..k]);
    }
  }

  lemma InvertedTwice(bs: seq<byte>)
    ensures Inverted(Inverted(bs)) == bs
  {
  }

  /** parseInt reads two's complement. */
  lemma ContentIsTwosComplement(c: seq<byte>)
    ensures ContentValue(c) == TwosComplement(c)
  {
    InvertedValue(c);
  }

  lemma {:induction false} LeadingZero(bs: seq<byte>)
    ensures FromBE([0] + bs) == FromBE(bs)
  {
    if |bs| == 0 {
      assert [0] + bs == [0] && [0][..0] == [];
      assert FromBE([0]) == 256 * FromBE([]) + 0;
    } else {
      var k := |bs| - 1;
      LeadingZero(bs[..k]);
      assert ([0] + bs)[..k + 1] == [0] + bs[..k];
    }
  }

  /** Every integer comes back. */
  lemma IntRoundTrip(n: int)
    ensures ContentValue(IntContent(n)) == n
  {
    hide NatBytes, FromBE, Inverted;
    var bytes := Magnitude(n);
    if n < 0 {
      var m := -n - 1;
      NatBytesValue(m);
      InvertedTwice(NatBytes(m));
      LeadingZero(NatBytes(m));
      if SignPad(n) == [] {
        assert IntContent(n) == bytes;
      } else {
        assert Inverted(IntContent(n)) == [0] + NatBytes(m);
      }
    } else {
      NatBytesValue(n);
      LeadingZero(bytes);
      assert SignPad(n) == [] ==> IntContent(n) == bytes;
    }
  }

  /** The encoding is the shortest, as the standard demands, and as long as intLength says. */
  lemma IntContentShortest(n: int)
    ensures Shortest(IntContent(n)) && 4 + |IntContent(n)| == IntLength(n)
  {
    hide NatBytes, FromBE, Inverted, BitLen;
    var m := if n < 0 then -n - 1 else n;
    NatBytesValue(m);
    BytesAndBits(m);
    NoBits();
  }

  lemma NoBits()
    ensures NatBytes(0) == [] && BitLen(0) == 0
  {
  }

  /** The shortest encoding of a value is unique: it is the one marshalInt writes. */
  lemma ShortestIsUnique(c: seq<byte>)
    requires Shortest(c)
    ensures IntContent(ContentValue(c)) == c
  {
    hide NatBytes, FromBE, Inverted;
    NoValue();
    if |c| > 0 && c[0] >= 128 {
      var inv := Inverted(c);
      InvertedTwice(c);
      if c[0] == 255 {
        assert inv == [0] + inv[1..];
        LeadingZero(inv[1..]);
        NatBytesOfValue(inv[1..]);
        assert Inverted(inv[1..]) == c[1..];
        assert c == [0xff] + c[1..];
      } else {
        NatBytesOfValue(inv);
      }
    } else if |c| > 0 {
      if c[0] == 0 {
        assert c == [0] + c[1..];
        LeadingZero(c[1..]);
        NatBytesOfValue(c[1..]);
      } else {
        NatBytesOfValue(c);
      }
    } else {
      assert c == [];
    }
  }

  lemma NoValue()
    ensures FromBE([]) == 0 && NatBytes(0) == []
  {
  }

  /** No byte string is a shorter encoding of its value than the one marshalInt writes. */
  lemma {:induction false} NoneIsShorter(c: seq<byte>)
    ensures |IntContent(ContentValue(c))| <= |c|
    decreases |c|
  {
    hide NatBytes, FromBE, Inverted, IntContent;
    if Shortest(c) {
      ShortestIsUnique(c);
    } else {
      var c1 := c[1..];
      if c[0] == 0 {
        assert c == [0] + c1;
        LeadingZero(c1);
      } else {
        assert Inverted(c) == [0] + Inverted(c1);
        LeadingZero(Inverted(c1));
      }
      NoneIsShorter(c1);
    }
  }

  /** marshalInt: writes the length and the content at to[at..] and returns what comes after. */
  method MarshalInt(to: array<byte>, at: nat, n: int) returns (end: nat)
    requires at + IntLength(n) <= to.Length
    modifies to
    ensures end == at + IntLength(n)
    ensures to[..end] == old(to[..at]) + ToBE(IntLength(n) - 4, 4) + IntContent(n)
    ensures forall i :: end <= i < to.Length ==> to[i] == old(to[i])
  {
    hide ToBE, NatBytes, Inverted, SignPad, Magnitude, IntLength;
    IntContentShortest(n);
    var pad, bytes := SignPad(n), Magnitude(n);
    end := at + 4 + |pad| + |bytes|;
    PutContent(to, at + 4, pad, bytes);
    ghost var content := to[at + 4..end];
    ghost var pre := to[..at + 4][..at];
    assert pre == to[..at] == old(to[..at]);
    PutAt(to, at, ToBE(|pad| + |bytes|, 4));
    assert to[at + 4..end] == content == pad + bytes;
    assert to[..end] == to[..at + 4] + to[at + 4..end];
  }

  method PutContent(to: array<byte>, at: nat, pad: seq<byte>, bytes: seq<byte>)
    requires at + |pad| + |bytes| <= to.Length
    modifies to
    ensures to[..at] == old(to[..at]) && to[at..at + |pad| + |bytes|] == pad + bytes
    ensures forall i :: at + |pad| + |bytes| <= i < to.Length ==> to[i] == old(to[i])
  {
    ghost var pre := to[..at];
    PutAt(to, at, pad);
    PutAt(to, at + |pad|, bytes);
    ghost var all := to[..at + |pad| + |bytes|];
    assert all == pre + pad + bytes;
    assert to[..at] == all[..at] && to[at..at + |pad| + |bytes|] == all[at..];
  }
}
