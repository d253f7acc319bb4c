/** Bytes and fixed-width integers, shared by the wire formats. */
module Bytes {

  /** An unsigned 8-bit value; arithmetic on it is arithmetic on integers. */
  type byte = x: int | 0 <= x < 256

  /** A string, as Go has it: any bytes. */
  type Str = seq<byte>

  const U16_LIMIT := 0x1_0000
  const U32_LIMIT := 0x1_0000_0000
  const U64_LIMIT := 0x1_0000_0000_0000_0000

  datatype Option<+T> = None | Some(value: T)

  datatype Result<+T, +E> = Ok(value: T) | Err(error: E)

  function Min(a: int, b: int): (m: int)
  {
    if a < b then a else b
  }

  function Pow2(k: nat): (p: nat)
    ensures p >= 1
  {
    if k == 0 then 1 else 2 * Pow2(k - 1)
  }

  /** The value of a little-endian byte string. */
  function FromLE(bs: seq<byte>): (v: nat)
  {
    if |bs| == 0 then 0 else bs[0] + 256 * FromLE(bs[1..])
  }

  /** The k low bytes of v, least significant first. */
  function ToLE(v: nat, k: nat): (bs: seq<byte>)
    ensures |bs| == k
  {
    if k == 0 then [] else [v % 256] + ToLE(v / 256, k - 1)
  }

  function Pow256(k: nat): (p: nat)
    ensures p >= 1
  {
    if k == 0 then 1 else 256 * Pow256(k - 1)
  }

  lemma {:induction false} FromToLE(v: nat, k: nat)
    requires v < Pow256(k)
    ensures FromLE(ToLE(v, k)) == v
  {
    if k > 0 {
      FromToLE(v / 256, k - 1);
      assert ToLE(v, k)[1..] == ToLE(v / 256, k - 1);
    }
  }

  lemma {:induction false} ToFromLE(bs: seq<byte>)
    ensures FromLE(bs) < Pow256(|bs|)
    ensures ToLE(FromLE(bs), |bs|) == bs
  {
    if |bs| > 0 {
      ToFromLE(bs[1..]);
      assert FromLE(bs) / 256 == FromLE(bs[1..]);
      assert bs == [bs[0]] + bs[1..];
    }
  }

  /** The value of a big-endian byte string. */
  function FromBE(bs: seq<byte>): (v: nat)
  {
    if |bs| == 0 then 0 else 256 * FromBE(bs[..|bs| - 1]) + bs[|bs| - 1]
  }

  /** The k low bytes of v, most significant first. */
  function ToBE(v: nat, k: nat): (bs: seq<byte>)
    ensures |bs| == k
  {
    if k == 0 then [] else ToBE(v / 256, k - 1) + [v % 256]
  }

  lemma {:induction false} FromToBE(v: nat, k: nat)
    requires v < Pow256(k)
    ensures FromBE(ToBE(v, k)) == v
  {
    if k > 0 {
      FromToBE(v / 256, k - 1);
      assert ToBE(v, k)[..k - 1] == ToBE(v / 256, k - 1);
    }
  }

  /** A write of k bytes loses all above them. */
  lemma {:induction false} ToBEPeriodic(v: nat, k: nat, q: nat)
    ensures ToBE(v + q * Pow256(k), k) == ToBE(v, k)
  {
    if k > 0 {
      hide Pow256;
      var t := q * Pow256(k - 1);
      PowerTimes(q, k);
      AboveLowByte(v, t);
      ToBEPeriodic(v / 256, k - 1, q);
    }
  }

  lemma PowerTimes(q: nat, k: nat)
    requires k > 0
    ensures q * Pow256(k) == 256 * (q * Pow256(k - 1))
  {
    var p := Pow256(k - 1);
    assert q * (256 * p) == 256 * (q * p);
  }

  /** What is added above the low byte leaves it alone. */
  lemma AboveLowByte(v: nat, t: nat)
    ensures (v + 256 * t) / 256 == v / 256 + t && (v + 256 * t) % 256 == v % 256
  {
    assert v + 256 * t == v % 256 + 256 * (v / 256 + t);
    LowByte(v % 256, v / 256 + t);
  }

  /** A low byte and what is above it. */
  lemma LowByte(low: byte, high: int)
    ensures (low + 256 * high) / 256 == high && (low + 256 * high) % 256 == low
  {
  }

  lemma LowWord(low: int, high: int)
    requires 0 <= low < U32_LIMIT
    ensures (low + U32_LIMIT * high) / U32_LIMIT == high && (low + U32_LIMIT * high) % U32_LIMIT == low
  {
  }

  /** A four-byte write keeps the value modulo 2^32. */
  lemma FromToBE32(v: nat)
    ensures FromBE(ToBE(v, 4)) == v % U32_LIMIT
  {
    hide ToBE, FromBE;
    var low := v % U32_LIMIT;
    Pow256Small();
    ToBEPeriodic(low, 4, v / U32_LIMIT);
    FromToBE(low, 4);
  }

  lemma {:induction false} ToFromBE(bs: seq<byte>)
    ensures FromBE(bs) < Pow256(|bs|)
    ensures ToBE(FromBE(bs), |bs|) == bs
  {
    if |bs| > 0 {
      var k := |bs| - 1;
      ToFromBE(bs[..k]);
      assert FromBE(bs) / 256 == FromBE(bs[..k]) && FromBE(bs) % 256 == bs[k];
      assert bs == bs[..k] + [bs[k]];
    }
  }

  /** The first byte of a big-endian number weighs most. */
  lemma {:induction false} FirstWeighsMost(bs: seq<byte>)
    requires |bs| > 0
    ensures FromBE(bs) == bs[0] * Pow256(|bs| - 1) + FromBE(bs[1..])
  {
    var k := |bs| - 1;
    if k == 0 {
      assert bs[..0] == [] && bs[1..] == [];
    } else {
      hide Pow256, FromBE;
      FirstWeighsMost(bs[..k]);
      PowerTimes(bs[0], k);
      LastByte(bs);
      LastByte(bs[1..]);
      assert bs[..k][1..] == bs[1..][..k - 1] && bs[1..][k - 1] == bs[k] && bs[..k][0] == bs[0];
    }
  }

  lemma LastByte(bs: seq<byte>)
    requires |bs| > 0
    ensures FromBE(bs) == 256 * FromBE(bs[..|bs| - 1]) + bs[|bs| - 1]
  {
  }

  lemma Pow256Small()
    ensures Pow256(0) == 1 && Pow256(1) == 256 && Pow256(2) == 0x1_0000
    ensures Pow256(3) == 0x100_0000 && Pow256(4) == 0x1_0000_0000
    ensures Pow256(8) == U64_LIMIT
  {
    assert Pow256(1) == 256 * Pow256(0);
    assert Pow256(2) == 256 * Pow256(1);
    assert Pow256(3) == 256 * Pow256(2);
    assert Pow256(4) == 256 * Pow256(3);
    assert Pow256(6) == 256 * Pow256(5) == 65536 * Pow256(4);
    assert Pow256(8) == 256 * Pow256(7) == 65536 * Pow256(6);
  }

  /** copy(dst[d:], bs), where bs fits. */
  method PutAt(dst: array<byte>, d: nat, bs: seq<byte>)
    requires d + |bs| <= dst.Length
    modifies dst
    ensures dst[..d + |bs|] == old(dst[..d]) + bs
    ensures forall i :: d + |bs| <= i < dst.Length ==> dst[i] == old(dst[i])
  {
    forall i | 0 <= i < |bs| {
      dst[d + i] := bs[i];
    }
  }
}
