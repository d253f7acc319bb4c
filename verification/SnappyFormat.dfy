/**
 * The Snappy block format: a sequence of literal and copy tags, what replaying
 * them produces, and the reading of one tag from a byte string.
 */
module SnappyFormat {
  import opened Bytes

  /** The most bytes that one block, or one frame, stands for. */
  const MAX_BLOCK_SIZE := 65536

  datatype Op =
    | Literal(lit: seq<byte>)
    | Copy(offset: nat, length: nat)

  // ----- The meaning of tags ------------------------------------------------

  /** Appends n bytes to out, each a copy of the byte `offset` places before it. */
  function CopyForward(out: seq<byte>, offset: nat, n: nat): (r: seq<byte>)
    requires 1 <= offset <= |out|
    ensures |r| == |out| + n
    decreases n
  {
    if n == 0 then out
    else CopyForward(out + [out[|out| - offset]], offset, n - 1)
  }

  /** r is out and n bytes more, each the one `offset` places before it. */
  ghost predicate Repeats(out: seq<byte>, offset: nat, n: nat, r: seq<byte>)
    requires 1 <= offset <= |out|
  {
    && |r| == |out| + n && out <= r
    && forall i {:trigger r[i]} :: |out| <= i < |r| ==> r[i] == r[i - offset]
  }

  lemma RepeatsStep(out: seq<byte>, offset: nat, n: nat, r: seq<byte>)
    requires 1 <= offset <= |out| && n > 0
    ensures Repeats(out, offset, n, r) <==> Repeats(out + [out[|out| - offset]], offset, n - 1, r)
  {
    var out1 := out + [out[|out| - offset]];
    if Repeats(out, offset, n, r) {
      assert r[|out|] == r[|out| - offset] == out[|out| - offset];
      assert r[..|out1|] == out1;
    }
    if Repeats(out1, offset, n - 1, r) {
      assert r[..|out1|] == out1;
      assert r[..|out|] == out1[..|out|] == out;
      assert r[|out|] == out1[|out|] == r[|out| - offset];
    }
  }

  /** A forward copy is the one extension of out that repeats with period `offset`. */
  lemma {:induction false} CopyForwardUnique(out: seq<byte>, offset: nat, n: nat, r: seq<byte>)
    requires 1 <= offset <= |out|
    ensures r == CopyForward(out, offset, n) <==> Repeats(out, offset, n, r)
    decreases n
  {
    if n == 0 {
      assert |r| == |out| && out <= r ==> r == out;
    } else {
      hide Repeats;
      RepeatsStep(out, offset, n, r);
      CopyForwardUnique(out + [out[|out| - offset]], offset, n - 1, r);
    }
  }

  /** One op applied to the output so far; a copy may not reach before its start. */
  function Apply(out: seq<byte>, op: Op): (r: Option<seq<byte>>)
  {
    match op
    case Literal(lit) => Some(out + lit)
    case Copy(offset, length) =>
      if 1 <= offset <= |out| then Some(CopyForward(out, offset, length)) else None
  }

  function Replay(out: seq<byte>, ops: seq<Op>): (r: Option<seq<byte>>)
    decreases |ops|
  {
    if |ops| == 0 then Some(out)
    else
      match Apply(out, ops[0])
      case None => None
      case Some(out1) => Replay(out1, ops[1..])
  }

  // ----- The bytes of tags --------------------------------------------------

  /** bs is one chunk that stands for op, in any of the encodings the format has. */
  ghost predicate IsTag(bs: seq<byte>, op: Op)
  {
    match op
    case Literal(lit) =>
      && |lit| >= 1
      && var n := |lit| - 1;
         || (n < 60 && bs == [4 * n] + lit)
         || (exists k: nat :: 1 <= k <= 4 && n < Pow256(k) && bs == [4 * (59 + k)] + ToLE(n, k) + lit)
    case Copy(offset, length) =>
      || (4 <= length < 12 && offset < 2048 &&
          bs == [offset / 256 * 32 + (length - 4) * 4 + 1, offset % 256])
      || (1 <= length <= 64 && offset < 0x1_0000 &&
          bs == [(length - 1) * 4 + 2] + ToLE(offset, 2))
      || (1 <= length <= 64 && offset < 0x1_0000_0000 &&
          bs == [(length - 1) * 4 + 3] + ToLE(offset, 4))
  }

  ghost predicate Encodes(bs: seq<byte>, ops: seq<Op>)
    decreases |ops|
  {
    if |ops| == 0 then bs == []
    else exists k: nat :: k <= |bs| && IsTag(bs[..k], ops[0]) && Encodes(bs[k..], ops[1..])
  }

  // ----- Reading tags -------------------------------------------------------

  /** What the leading bytes of a chunk announce. */
  datatype Header =
    | Short
    | LiteralHeader(size: nat, length: nat)
    | CopyHeader(size: nat, offset: nat, length: nat)

  function ReadHeader(src: seq<byte>): (h: Header)
    requires |src| > 0
    ensures !h.Short? ==> 1 <= h.size <= |src| && 1 <= h.length <= U32_LIMIT
    ensures h.CopyHeader? ==> h.length <= 64 && h.offset < U32_LIMIT
  {
    var tag: int := src[0];
    var m := tag / 4;
    match tag % 4
    case 0 =>
      if m < 60 then LiteralHeader(1, m + 1)
      else
        var k := m - 59;
        if |src| < 1 + k then Short
        else
          ToFromLE(src[1..1 + k]);
          Pow256Small();
          LiteralHeader(1 + k, FromLE(src[1..1 + k]) + 1)
    case 1 =>
      if |src| < 2 then Short else CopyHeader(2, tag / 32 * 256 + src[1], m % 8 + 4)
    case 2 =>
      if |src| < 3 then Short
      else
        ToFromLE(src[1..3]);
        Pow256Small();
        CopyHeader(3, FromLE(src[1..3]), m + 1)
    case _ =>
      if |src| < 5 then Short
      else
        ToFromLE(src[1..5]);
        Pow256Small();
        CopyHeader(5, FromLE(src[1..5]), m + 1)
  }

  datatype Parsed = Bad | Good(op: Op, size: nat)

  /** The first chunk of src, with its literal bytes if it is a literal. */
  function ParseOp(src: seq<byte>): (p: Parsed)
    requires |src| > 0
    ensures p.Good? ==> 1 <= p.size <= |src|
  {
    match ReadHeader(src)
    case Short => Bad
    case LiteralHeader(size, length) =>
      if size + length <= |src| then Good(Literal(src[size..size + length]), size + length) else Bad
    case CopyHeader(size, offset, length) => Good(Copy(offset, length), size)
  }

  /** Reads and replays chunks until src is used up. */
  function Run(src: seq<byte>, out: seq<byte>): (r: Option<seq<byte>>)
    decreases |src|
  {
    if |src| == 0 then Some(out)
    else
      match ParseOp(src)
      case Bad => None
      case Good(op, size) =>
        match Apply(out, op)
        case None => None
        case Some(out1) => Run(src[size..], out1)
  }

  // ----- ParseOp reads exactly the tags of the format -----------------------

  /** The header bytes of a literal are those the format prescribes for its length. */
  lemma LiteralHeaderBytes(src: seq<byte>)
    requires |src| > 0 && ReadHeader(src).LiteralHeader?
    ensures var LiteralHeader(size, length) := ReadHeader(src);
      || (size == 1 && length <= 60 && src[..1] == [4 * (length - 1)])
      || (2 <= size <= 5 && length - 1 < Pow256(size - 1) &&
          src[..size] == [4 * (58 + size)] + ToLE(length - 1, size - 1))
  {
    hide ToLE, FromLE, Pow256;
    var h := ReadHeader(src);
    var m := src[0] / 4;
    assert src[0] == 4 * m;
    if m < 60 {
      assert h == LiteralHeader(1, m + 1) && src[..1] == [src[0]];
    } else {
      assert h.size == m - 58;
      ToFromLE(src[1..h.size]);
      assert src[..h.size] == [src[0]] + src[1..h.size];
    }
  }

  lemma CopyHeaderBytes(src: seq<byte>)
    requires |src| > 0 && ReadHeader(src).CopyHeader?
    ensures var CopyHeader(size, offset, length) := ReadHeader(src);
      IsTag(src[..size], Copy(offset, length))
  {
    var h := ReadHeader(src);
    if h.size == 2 {
      assert src[..2] == [src[0], src[1]];
      ShortCopyByte(src[0], h.offset, h.length, src[1]);
    } else {
      ToFromLE(src[1..h.size]);
      assert src[..h.size] == [src[0]] + src[1..h.size];
      Pow256Small();
    }
  }

  lemma ShortCopyByte(tag: byte, offset: nat, length: nat, low: byte)
    requires tag % 4 == 1 && offset == tag / 32 * 256 + low && length == tag / 4 % 8 + 4
    ensures tag == offset / 256 * 32 + (length - 4) * 4 + 1 && low == offset % 256
    ensures offset < 2048 && 4 <= length < 12
  {
    var high, four := tag / 32, tag / 4;
    assert four == 8 * high + four % 8 && tag == 4 * four + 1;
    LowByte(low, high);
  }

  lemma ParseOpSound(src: seq<byte>)
    requires |src| > 0 && ParseOp(src).Good?
    ensures IsTag(src[..ParseOp(src).size], ParseOp(src).op)
  {
    hide ReadHeader, ToLE, Pow256;
    match ReadHeader(src)
    case LiteralHeader(size, length) =>
      var lit := src[size..size + length];
      LiteralHeaderBytes(src);
      assert src[..size + length] == src[..size] + lit;
      if size > 1 {
        var k := size - 1;
        assert src[..size + length] == [4 * (59 + k)] + ToLE(length - 1, k) + lit;
      }
    case CopyHeader(size, offset, length) =>
      CopyHeaderBytes(src);
  }

  lemma ParseOpComplete(tag: seq<byte>, op: Op, rest: seq<byte>)
    requires IsTag(tag, op)
    ensures |tag| > 0 && ParseOp(tag + rest) == Good(op, |tag|)
  {
    hide ReadHeader, ToLE, Pow256;
    match op
    case Literal(lit) => ParseLiteral(tag, lit, rest);
    case Copy(offset, length) =>
      var src := tag + rest;
      if |tag| == 2 {
        assert src[..2] == tag;
        ReadHeaderOfShortCopy(src, offset, length);
      } else {
        assert src[1..|tag|] == tag[1..] == ToLE(offset, |tag| - 1);
        ReadHeaderOfLongCopy(src, offset, length, |tag| - 1);
      }
  }

  lemma ReadHeaderOfShortCopy(src: seq<byte>, offset: nat, length: nat)
    requires |src| >= 2 && offset < 2048 && 4 <= length < 12
    requires src[..2] == [offset / 256 * 32 + (length - 4) * 4 + 1, offset % 256]
    ensures ReadHeader(src) == CopyHeader(2, offset, length)
  {
    assert src[0] == src[..2][0] && src[1] == src[..2][1];
    ShortCopyTag(offset, length);
  }

  lemma ShortCopyTag(offset: nat, length: nat)
    requires offset < 2048 && 4 <= length < 12
    ensures var tag := offset / 256 * 32 + (length - 4) * 4 + 1;
      tag % 4 == 1 && tag / 32 == offset / 256 && tag / 4 % 8 + 4 == length
  {
    var high, l := offset / 256, length - 4;
    var tag := high * 32 + l * 4 + 1;
    assert tag == 4 * (8 * high + l) + 1;
    assert tag / 4 == 8 * high + l && tag % 4 == 1;
    assert (8 * high + l) / 8 == high && (8 * high + l) % 8 == l;
  }

  lemma ReadHeaderOfLongCopy(src: seq<byte>, offset: nat, length: nat, k: nat)
    requires k == 2 || k == 4
    requires |src| >= 1 + k && 1 <= length <= 64
    requires offset < if k == 2 then 0x1_0000 else 0x1_0000_0000
    requires src[0] == (length - 1) * 4 + if k == 2 then 2 else 3
    requires src[1..1 + k] == ToLE(offset, k)
    ensures ReadHeader(src) == CopyHeader(1 + k, offset, length)
  {
    Pow256Small();
    FromToLE(offset, k);
  }

  lemma ParseLiteral(tag: seq<byte>, lit: seq<byte>, rest: seq<byte>)
    requires IsTag(tag, Literal(lit))
    ensures |tag| > 0 && ParseOp(tag + rest) == Good(Literal(lit), |tag|)
  {
    hide ReadHeader, ToLE, Pow256;
    var src := tag + rest;
    var n := |lit| - 1;
    if n < 60 && tag == [4 * n] + lit {
      ReadHeaderOfLiteral(src, n, 0);
      assert src[1..1 + |lit|] == lit;
    } else {
      var k: nat :| 1 <= k <= 4 && n < Pow256(k) && tag == [4 * (59 + k)] + ToLE(n, k) + lit;
      assert src[1..1 + k] == ToLE(n, k);
      ReadHeaderOfLiteral(src, n, k);
      assert src[1 + k..1 + k + |lit|] == lit;
    }
  }

  lemma ReadHeaderOfLiteral(src: seq<byte>, n: nat, k: nat)
    requires k <= 4 && 1 + k <= |src|
    requires if k == 0 then n < 60 && src[0] == 4 * n else src[0] == 4 * (59 + k)
    requires k > 0 ==> n < Pow256(k) && src[1..1 + k] == ToLE(n, k)
    ensures ReadHeader(src) == LiteralHeader(1 + k, n + 1)
  {
    if k > 0 {
      FromToLE(n, k);
    }
  }

  // ----- Run is the replay of the tag sequence that src spells --------------

  /** A byte string spells at most one sequence of ops. */
  lemma {:induction false} EncodesUnique(src: seq<byte>, ops: seq<Op>, ops': seq<Op>)
    requires Encodes(src, ops) && Encodes(src, ops')
    ensures ops == ops'
    decreases |ops|
  {
    hide ParseOp, IsTag;
    if |ops| > 0 && |ops'| > 0 {
      var k: nat :| k <= |src| && IsTag(src[..k], ops[0]) && Encodes(src[k..], ops[1..]);
      var k': nat :| k' <= |src| && IsTag(src[..k'], ops'[0]) && Encodes(src[k'..], ops'[1..]);
      ParseOpComplete(src[..k], ops[0], src[k..]);
      ParseOpComplete(src[..k'], ops'[0], src[k'..]);
      assert src == src[..k] + src[k..] == src[..k'] + src[k'..];
      EncodesUnique(src[k..], ops[1..], ops'[1..]);
      assert ops == [ops[0]] + ops[1..] && ops' == [ops'[0]] + ops'[1..];
    } else if |ops| + |ops'| > 0 {
      var more := if |ops| > 0 then ops else ops';
      var k: nat :| k <= |src| && IsTag(src[..k], more[0]) && Encodes(src[k..], more[1..]);
      ParseOpComplete(src[..k], more[0], []);
    }
  }

  /** Run replays the ops that a byte string spells. */
  lemma {:induction false} RunReplays(src: seq<byte>, ops: seq<Op>, out: seq<byte>)
    requires Encodes(src, ops)
    ensures Run(src, out) == Replay(out, ops)
    decreases |ops|
  {
    hide ParseOp, IsTag, Apply;
    if |ops| > 0 {
      var k: nat :| k <= |src| && IsTag(src[..k], ops[0]) && Encodes(src[k..], ops[1..]);
      ParseOpComplete(src[..k], ops[0], src[k..]);
      assert src == src[..k] + src[k..];
      match Apply(out, ops[0])
      case None =>
      case Some(out1) => RunReplays(src[k..], ops[1..], out1);
    }
  }

  lemma {:induction false} RunHasOps(src: seq<byte>, out: seq<byte>) returns (ops: seq<Op>)
    requires Run(src, out).Some?
    ensures Encodes(src, ops)
    decreases |src|
  {
    if |src| == 0 {
      ops := [];
    } else {
      var Good(op, size) := ParseOp(src);
      ParseOpSound(src);
      var rest := RunHasOps(src[size..], Apply(out, op).value);
      ops := [op] + rest;
      assert ops[1..] == rest;
    }
  }

  /** Run succeeds with r exactly when src spells ops whose replay is legal and gives r. */
  lemma RunIffReplay(src: seq<byte>, r: seq<byte>)
    ensures Run(src, []) == Some(r) <==> exists ops :: Encodes(src, ops) && Replay([], ops) == Some(r)
  {
    if Run(src, []) == Some(r) {
      var ops := RunHasOps(src, []);
      RunReplays(src, ops, []);
    }
    if exists ops :: Encodes(src, ops) && Replay([], ops) == Some(r) {
      var ops :| Encodes(src, ops) && Replay([], ops) == Some(r);
      RunReplays(src, ops, []);
    }
  }

  // ----- Composition --------------------------------------------------------

  lemma RunOne(tag: seq<byte>, op: Op, out: seq<byte>)
    requires IsTag(tag, op)
    ensures Run(tag, out) == Apply(out, op)
  {
    ParseOpComplete(tag, op, []);
    assert tag + [] == tag;
    assert tag[|tag|..] == [];
  }

  lemma ParseOpExtends(src: seq<byte>, more: seq<byte>)
    requires |src| > 0 && ParseOp(src).Good?
    ensures ParseOp(src + more) == ParseOp(src)
  {
    var Good(op, size) := ParseOp(src);
    ParseOpSound(src);
    ParseOpComplete(src[..size], op, src[size..] + more);
    assert src + more == src[..size] + (src[size..] + more);
  }

  lemma {:induction false} RunConcat(a: seq<byte>, b: seq<byte>, out: seq<byte>)
    requires Run(a, out).Some?
    ensures Run(a + b, out) == Run(b, Run(a, out).value)
    decreases |a|
  {
    hide ParseOp, Apply;
    if |a| == 0 {
      assert a + b == b;
    } else {
      var Good(op, size) := ParseOp(a);
      ParseOpExtends(a, b);
      RunConcat(a[size..], b, Apply(out, op).value);
      assert (a + b)[size..] == a[size..] + b;
    }
  }

  lemma {:induction false} CopyForwardUnderPrefix(pre: seq<byte>, out: seq<byte>, offset: nat, n: nat)
    requires 1 <= offset <= |out|
    ensures CopyForward(pre + out, offset, n) == pre + CopyForward(out, offset, n)
    decreases n
  {
    if n > 0 {
      var x := out[|out| - offset];
      assert (pre + out)[|pre + out| - offset] == x;
      assert pre + out + [x] == pre + (out + [x]);
      CopyForwardUnderPrefix(pre, out + [x], offset, n - 1);
    }
  }

  /** A chunk sequence that is legal on its own means the same after any output. */
  lemma {:induction false} RunUnderPrefix(src: seq<byte>, pre: seq<byte>, out: seq<byte>)
    requires Run(src, out).Some?
    ensures Run(src, pre + out) == Some(pre + Run(src, out).value)
    decreases |src|
  {
    if |src| > 0 {
      var Good(op, size) := ParseOp(src);
      match op {
        case Literal(lit) =>
          assert pre + out + lit == pre + (out + lit);
        case Copy(offset, length) =>
          CopyForwardUnderPrefix(pre, out, offset, length);
      }
      RunUnderPrefix(src[size..], pre, Apply(out, op).value);
    }
  }

  lemma {:induction false} RunGrows(src: seq<byte>, out: seq<byte>)
    requires Run(src, out).Some?
    ensures |Run(src, out).value| >= |out|
    decreases |src|
  {
    if |src| > 0 {
      var Good(op, size) := ParseOp(src);
      RunGrows(src[size..], Apply(out, op).value);
    }
  }
}
