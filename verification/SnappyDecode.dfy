/**
 * The Snappy block decoder: the length header, the tag interpreter that fills
 * a destination buffer in place, and what its result says about the input.
 */
module SnappyDecode {
  import opened Bytes
  import opened SnappyFormat

  /** The width of Go's int and uint on the machine. */
  datatype Word = W32 | W64

  function MaxInt(w: Word): (m: nat)
  {
    if w.W32? then 0x7fff_ffff else 0x7fff_ffff_ffff_ffff
  }

  /** The conversion int(x), for an x below 2^63: it wraps only where int has 32 bits. */
  function AsInt(w: Word, x: nat): (i: int)
  {
    var low := x % U32_LIMIT;
    if w.W32? then (if low > MaxInt(W32) then low - U32_LIMIT else low) else x
  }

  datatype Error = Corrupt | UnsupportedLiteralLength | TooLarge

  // ----- The tag interpreter ------------------------------------------------

  /**
   * The interpreter as a function: src is what is left to read, out what has
   * been written, and dLen the size of the destination.
   */
  function Interpret(w: Word, src: seq<byte>, out: seq<byte>, dLen: nat): (r: Result<seq<byte>, Error>)
    requires |out| <= dLen
    decreases |src|
  {
    if |src| == 0 then
      if |out| == dLen then Ok(out) else Err(Corrupt)
    else
      match ReadHeader(src)
      case Short => Err(Corrupt)
      case LiteralHeader(size, n) =>
        var length := AsInt(w, n);
        if length <= 0 then Err(UnsupportedLiteralLength)
        else if length > dLen - |out| || length > |src| - size then Err(Corrupt)
        else Interpret(w, src[size + length..], out + src[size..size + length], dLen)
      case CopyHeader(size, off, length) =>
        var offset := AsInt(w, off);
        if offset <= 0 || |out| < offset || length > dLen - |out| then Err(Corrupt)
        else Interpret(w, src[size..], CopyForward(out, offset, length), dLen)
  }

  /**
   * The interpreter accepts src, for a destination of dLen bytes, exactly when
   * replaying the tags src spells is legal and gives dLen bytes.
   */
  lemma {:induction false} InterpretIffRun(w: Word, src: seq<byte>, out: seq<byte>, dLen: nat, r: seq<byte>)
    requires |out| <= dLen <= MaxInt(w)
    ensures Interpret(w, src, out, dLen) == Ok(r) <==> Run(src, out) == Some(r) && |r| == dLen
  {
    InterpretAgrees(w, src, out, dLen, r);
  }

  lemma {:induction false} InterpretAgrees(w: Word, src: seq<byte>, out: seq<byte>, dLen: nat, r: seq<byte>)
    requires |out| <= dLen <= MaxInt(w)
    ensures Agree(w, src, out, dLen, r)
    decreases |src|
  {
    if |src| > 0 {
      hide ReadHeader, CopyForward, MaxInt, AsInt, Interpret, Run, Agree;
      match ReadHeader(src)
      case Short => ShortCase(w, src, out, dLen, r);
      case LiteralHeader(size, n) =>
        if size + n <= |src| && n <= dLen - |out| {
          InterpretAgrees(w, src[size + n..], out + src[size..size + n], dLen, r);
        }
        LiteralCase(w, src, out, dLen, r);
      case CopyHeader(size, offset, length) =>
        if 1 <= offset <= |out| && length <= dLen - |out| {
          InterpretAgrees(w, src[size..], CopyForward(out, offset, length), dLen, r);
        }
        CopyCase(w, src, out, dLen, r);
    }
  }

  /** The two agree on what is left of src after what was made of its front. */
  ghost predicate Agree(w: Word, src: seq<byte>, out: seq<byte>, dLen: nat, r: seq<byte>)
    requires |out| <= dLen
  {
    Interpret(w, src, out, dLen) == Ok(r) <==> Run(src, out) == Some(r) && |r| == dLen
  }

  lemma ShortCase(w: Word, src: seq<byte>, out: seq<byte>, dLen: nat, r: seq<byte>)
    requires |out| <= dLen && |src| > 0 && ReadHeader(src).Short?
    ensures Agree(w, src, out, dLen, r)
  {
    hide ReadHeader;
  }

  lemma LiteralCase(w: Word, src: seq<byte>, out: seq<byte>, dLen: nat, r: seq<byte>)
    requires |out| <= dLen <= MaxInt(w) && |src| > 0 && ReadHeader(src).LiteralHeader?
    requires var LiteralHeader(size, n) := ReadHeader(src);
      size + n <= |src| && n <= dLen - |out| ==>
        Agree(w, src[size + n..], out + src[size..size + n], dLen, r)
    ensures Agree(w, src, out, dLen, r)
  {
    hide ReadHeader, MaxInt, AsInt;
    var LiteralHeader(size, n) := ReadHeader(src);
    LiteralAsInt(w, n);
    if size + n <= |src| && n > dLen - |out| && Run(src, out).Some? {
      RunGrows(src[size + n..], out + src[size..size + n]);
    }
  }

  lemma CopyCase(w: Word, src: seq<byte>, out: seq<byte>, dLen: nat, r: seq<byte>)
    requires |out| <= dLen <= MaxInt(w) && |src| > 0 && ReadHeader(src).CopyHeader?
    requires var h := ReadHeader(src);
      1 <= h.offset <= |out| && h.length <= dLen - |out| ==>
        Agree(w, src[h.size..], CopyForward(out, h.offset, h.length), dLen, r)
    ensures Agree(w, src, out, dLen, r)
  {
    hide ReadHeader, CopyForward, MaxInt, AsInt;
    var h := ReadHeader(src);
    LiteralAsInt(w, h.offset);
    if 1 <= h.offset <= |out| && h.length > dLen - |out| && Run(src, out).Some? {
      RunGrows(src[h.size..], CopyForward(out, h.offset, h.length));
    }
  }

  lemma LiteralAsInt(w: Word, n: nat)
    requires n <= U32_LIMIT
    ensures n <= MaxInt(w) ==> AsInt(w, n) == n
    ensures n > MaxInt(w) ==> AsInt(w, n) <= 0
  {
  }

  /** One round of the interpreter at position s, in terms of the whole of src. */
  lemma InterpretAt(w: Word, src: seq<byte>, s: nat, out: seq<byte>, dLen: nat)
    requires s < |src| && |out| <= dLen
    ensures var r := Interpret(w, src[s..], out, dLen);
      match ReadHeader(src[s..])
      case Short => r == Err(Corrupt)
      case LiteralHeader(size, n) =>
        var length := AsInt(w, n);
        if length <= 0 then r == Err(UnsupportedLiteralLength)
        else if length > dLen - |out| || length > |src| - s - size then r == Err(Corrupt)
        else r == Interpret(w, src[s + size + length..], out + src[s + size..s + size + length], dLen)
      case CopyHeader(size, off, length) =>
        var offset := AsInt(w, off);
        if offset <= 0 || |out| < offset || length > dLen - |out| then r == Err(Corrupt)
        else r == Interpret(w, src[s + size..], CopyForward(out, offset, length), dLen)
  {
    hide ReadHeader, CopyForward, AsInt;
    match ReadHeader(src[s..])
    case Short =>
    case LiteralHeader(size, n) =>
      var length := AsInt(w, n);
      if 0 < length <= |src| - s - size {
        assert src[s..][size..size + length] == src[s + size..s + size + length];
        assert src[s..][size + length..] == src[s + size + length..];
      }
    case CopyHeader(size, _, _) =>
      assert src[s..][size..] == src[s + size..];
  }

  /** Decodes src into dst[..dLen] in place; those bytes are meaningful only without an error. */
  method DecodeTags(w: Word, dst: array<byte>, dLen: nat, src: seq<byte>) returns (err: Option<Error>)
    requires dLen <= dst.Length
    modifies dst
    ensures dst[dLen..] == old(dst[dLen..])
    ensures Interpret(w, src, [], dLen) == if err.None? then Ok(dst[..dLen]) else Err(err.value)
  {
    hide ReadHeader, CopyForward, AsInt, Interpret;
    var d, s := 0, 0;
    assert src[0..] == src && dst[..0] == [];
    while s < |src|
      invariant 0 <= s <= |src| && 0 <= d <= dLen
      invariant dst[dLen..] == old(dst[dLen..])
      invariant Interpret(w, src[s..], dst[..d], dLen) == Interpret(w, src, [], dLen)
    {
      InterpretAt(w, src, s, dst[..d], dLen);
      match ReadHeader(src[s..])
      case Short =>
        return Some(Corrupt);
      case LiteralHeader(size, n) =>
        var length := AsInt(w, n);
        if length <= 0 {
          return Some(UnsupportedLiteralLength);
        }
        if length > dLen - d || length > |src| - s - size {
          return Some(Corrupt);
        }
        PutAt(dst, d, src[s + size..s + size + length]);
        d, s := d + length, s + size + length;
      case CopyHeader(size, off, length) =>
        var offset := AsInt(w, off);
        if offset <= 0 || d < offset || length > dLen - d {
          return Some(Corrupt);
        }
        CopyWithin(dst, d, offset, length);
        d, s := d + length, s + size;
    }
    assert src[s..] == [];
    InterpretEnd(w, dst[..d], dLen);
    err := if d != dLen then Some(Corrupt) else None;
  }

  lemma InterpretEnd(w: Word, out: seq<byte>, dLen: nat)
    requires |out| <= dLen
    ensures Interpret(w, [], out, dLen) == if |out| == dLen then Ok(out) else Err(Corrupt)
  {
  }

  /** The byte-by-byte copy, which always runs forwards even if the ranges overlap. */
  method CopyWithin(dst: array<byte>, d: nat, offset: nat, length: nat)
    requires 1 <= offset <= d && d + length <= dst.Length
    modifies dst
    ensures dst[..d + length] == CopyForward(old(dst[..d]), offset, length)
    ensures forall i :: d + length <= i < dst.Length ==> dst[i] == old(dst[i])
  {
    var i := d;
    ghost var want := CopyForward(dst[..d], offset, length);
    while i != d + length
      invariant d <= i <= d + length
      invariant CopyForward(dst[..i], offset, d + length - i) == want
      invariant forall k :: d + length <= k < dst.Length ==> dst[k] == old(dst[k])
    {
      ghost var before := dst[..i];
      dst[i] := dst[i - offset];
      i := i + 1;
      assert dst[..i] == before + [before[|before| - offset]];
    }
  }

  // ----- The length header --------------------------------------------------

  /** binary.PutUvarint: seven bits a byte, least significant first. */
  function Uvarint(v: nat): (bs: seq<byte>)
    ensures |bs| >= 1
  {
    if v < 0x80 then [v] else [v % 0x80 + 0x80] + Uvarint(v / 0x80)
  }

  /**
   * binary.Uvarint from byte i on: the value above the bits already read and
   * the number of bytes read, or none on a missing end or an overflow of 64 bits.
   */
  function ReadUvarint(src: seq<byte>, i: nat): (r: Option<(nat, nat)>)
    requires i <= |src|
    ensures r.Some? ==> i < r.value.1 <= |src|
    decreases |src| - i
  {
    if i == |src| then None
    else
      var b: int := src[i];
      if b < 0x80 then
        if i > 9 || (i == 9 && b > 1) then None else Some((b, i + 1))
      else
        match ReadUvarint(src, i + 1)
        case None => None
        case Some((v, n)) => Some((b - 0x80 + 0x80 * v, n))
  }

  function DecodedLen(w: Word, src: seq<byte>): (r: Result<(nat, nat), Error>)
    ensures r.Ok? ==> r.value.0 < U32_LIMIT && r.value.0 <= MaxInt(w) && r.value.1 <= |src|
  {
    match ReadUvarint(src, 0)
    case None => Err(Corrupt)
    case Some((v, n)) =>
      if v > 0xffff_ffff then Err(Corrupt)
      else if w.W32? && v > 0x7fff_ffff then Err(TooLarge)
      else Ok((v, n))
  }

  lemma {:induction false} UvarintRoundTrip(v: nat, pre: seq<byte>, post: seq<byte>)
    requires |pre| + |Uvarint(v)| <= 9
    ensures ReadUvarint(pre + Uvarint(v) + post, |pre|) == Some((v, |pre| + |Uvarint(v)|))
    decreases v
  {
    var src := pre + Uvarint(v) + post;
    if v >= 0x80 {
      var b := v % 0x80 + 0x80;
      var pre1 := pre + [b];
      UvarintRoundTrip(v / 0x80, pre1, post);
      assert src == pre1 + Uvarint(v / 0x80) + post;
      assert src[|pre|] == b;
    } else {
      assert src[|pre|] == v;
    }
  }

  /** Seven bits a byte, the lowest first. */
  function VarintValue(bs: seq<byte>): (v: nat)
  {
    if |bs| == 0 then 0 else bs[0] % 0x80 + 0x80 * VarintValue(bs[1..])
  }

  /** n bytes from i on that say of themselves where they end, within 64 bits. */
  ghost predicate IsVarint(src: seq<byte>, i: nat, n: nat)
  {
    && i < n <= |src| && n <= 10 && src[n - 1] < 0x80 && (n == 10 ==> src[9] <= 1)
    && forall k :: i <= k < n - 1 ==> src[k] >= 0x80
  }

  /** What is read is the value of the bytes up to the first without its top bit, and nothing else is accepted. */
  lemma {:induction false} ReadUvarintIff(src: seq<byte>, i: nat, v: nat, n: nat)
    requires i <= |src|
    ensures ReadUvarint(src, i) == Some((v, n)) <==> IsVarint(src, i, n) && v == VarintValue(src[i..n])
    decreases |src| - i
  {
    if i < |src| {
      var b: int := src[i];
      if b < 0x80 {
        if n == i + 1 {
          assert src[i..n] == [src[i]] && [src[i]][1..] == [];
          assert VarintValue([src[i]]) == b;
        }
      } else {
        var r := ReadUvarint(src, i + 1);
        if r.Some? {
          ReadUvarintIff(src, i + 1, r.value.0, r.value.1);
        }
        if i + 1 < n <= |src| {
          assert src[i..n][1..] == src[i + 1..n];
          ReadUvarintIff(src, i + 1, VarintValue(src[i + 1..n]), n);
        }
      }
    }
  }

  /** And what is written has that value. */
  lemma {:induction false} UvarintValue(v: nat)
    ensures VarintValue(Uvarint(v)) == v
    ensures forall k :: 0 <= k < |Uvarint(v)| ==> (Uvarint(v)[k] < 0x80 <==> k == |Uvarint(v)| - 1)
    decreases v
  {
    if v >= 0x80 {
      UvarintValue(v / 0x80);
      assert Uvarint(v)[1..] == Uvarint(v / 0x80);
      assert (v % 0x80 + 0x80) % 0x80 == v % 0x80;
    } else {
      assert Uvarint(v)[1..] == [];
    }
  }

  lemma UvarintSize(v: nat)
    requires v < U32_LIMIT
    ensures |Uvarint(v)| <= 5
  {
    assert |Uvarint(v)| <= 5 by {
      var a, b, c, d := v / 0x80, v / 0x80 / 0x80, v / 0x80 / 0x80 / 0x80, v / 0x80 / 0x80 / 0x80 / 0x80;
      assert |Uvarint(d)| == 1;
      assert |Uvarint(c)| <= 2;
      assert |Uvarint(b)| <= 3;
      assert |Uvarint(a)| <= 4;
    }
  }

  // ----- Decode -------------------------------------------------------------

  /** What Decode answers for a block. */
  function BlockContents(w: Word, src: seq<byte>): (r: Result<seq<byte>, Error>)
  {
    match DecodedLen(w, src)
    case Err(e) => Err(e)
    case Ok((dLen, n)) => Interpret(w, src[n..], [], dLen)
  }

  /** Decodes into the front of dst where that is large enough, else into a new buffer. */
  method Decode(w: Word, dst: array<byte>, src: seq<byte>) returns (r: Result<(array<byte>, nat), Error>)
    modifies dst
    ensures r.Err? ==> BlockContents(w, src) == Err(r.error)
    ensures r.Ok? ==>
      var (buf, n) := r.value;
      && n <= buf.Length && BlockContents(w, src) == Ok(buf[..n])
      && (if n <= dst.Length then buf == dst && dst[n..] == old(dst[n..])
          else fresh(buf) && dst[..] == old(dst[..]))
  {
    hide Interpret;
    var header := DecodedLen(w, src);
    if header.Err? {
      return Err(header.error);
    }
    var (dLen, n) := header.value;
    var buf := dst;
    if dLen > dst.Length {
      buf := new byte[dLen];
    }
    var err := DecodeTags(w, buf, dLen, src[n..]);
    r := if err.None? then Ok((buf, dLen)) else Err(err.value);
  }

  /**
   * The format, both ways: a block decodes to r exactly when it is a length
   * header for |r| followed by a tag sequence whose replay is legal and gives r.
   */
  lemma BlockContentsIffTags(w: Word, src: seq<byte>, r: seq<byte>)
    ensures BlockContents(w, src) == Ok(r) <==>
            && DecodedLen(w, src).Ok? && DecodedLen(w, src).value.0 == |r|
            && exists ops :: Encodes(src[DecodedLen(w, src).value.1..], ops) && Replay([], ops) == Some(r)
  {
    if DecodedLen(w, src).Ok? {
      var (dLen, n) := DecodedLen(w, src).value;
      InterpretIffRun(w, src[n..], [], dLen, r);
      RunIffReplay(src[n..], r);
    }
  }
}
