/**
 * The Snappy block encoder: literal and copy emission, the greedy matcher that
 * looks for earlier occurrences through a hash table, and Encode over blocks.
 */
module SnappyEncode {
  import opened Bytes
  import opened SnappyFormat
  import opened SnappyDecode

  const INPUT_MARGIN := 15
  const MIN_NON_LITERAL_BLOCK_SIZE := 17
  const MAX_TABLE_SIZE := 16384

  // ----- Literals -----------------------------------------------------------

  /** The tag byte and length bytes of a literal of n + 1 bytes. */
  function LiteralHead(n: nat): (t: seq<byte>)
    requires n < MAX_BLOCK_SIZE
    ensures 1 <= |t| <= 3 && 61 * (|t| - 1) <= n + 1
  {
    if n < 60 then [4 * n]
    else if n < 256 then [4 * 60, n]
    else [4 * 61, n % 256, n / 256]
  }

  function LiteralTag(lit: seq<byte>): (t: seq<byte>)
    requires 1 <= |lit| <= MAX_BLOCK_SIZE
    ensures |lit| < |t| <= |lit| + 3
    ensures 61 * (|t| - |lit| - 1) <= |lit|
  {
    LiteralHead(|lit| - 1) + lit
  }

  lemma LiteralTagIsTag(lit: seq<byte>)
    requires 1 <= |lit| <= MAX_BLOCK_SIZE
    ensures IsTag(LiteralTag(lit), Literal(lit))
  {
    var n := |lit| - 1;
    Pow256Small();
    if 60 <= n < 256 {
      assert ToLE(n, 1) == [n];
      assert LiteralTag(lit) == [4 * (59 + 1)] + ToLE(n, 1) + lit;
    } else if n >= 256 {
      assert ToLE(n / 256, 1) == [n / 256];
      assert ToLE(n, 2) == [n % 256, n / 256];
      assert LiteralTag(lit) == [4 * (59 + 2)] + ToLE(n, 2) + lit;
    }
  }

  /** Writes a literal chunk at dst[d..] and returns its size. */
  method EmitLiteral(dst: array<byte>, d: nat, lit: seq<byte>) returns (size: nat)
    requires 1 <= |lit| <= MAX_BLOCK_SIZE
    requires d + |LiteralTag(lit)| <= dst.Length
    modifies dst
    ensures size == |LiteralTag(lit)|
    ensures dst[..d + size] == old(dst[..d]) + LiteralTag(lit)
  {
    hide LiteralHead;
    var head := LiteralHead(|lit| - 1);
    PutAt(dst, d, head);
    PutAt(dst, d + |head|, lit);
    size := |head| + |lit|;
    assert dst[..d + size] == old(dst[..d]) + (head + lit);
  }

  // ----- Copies -------------------------------------------------------------

  /** The chunks for a copy of any length of at least 4. */
  function CopyTags(offset: nat, length: nat): (t: seq<byte>)
    requires 1 <= offset < U16_LIMIT && 4 <= length
    decreases length
  {
    if length >= 68 then Copy2(offset, 64) + CopyTags(offset, length - 64)
    else if length > 64 then Copy2(offset, 60) + CopyTags(offset, length - 60)
    else if length >= 12 || offset >= 2048 then Copy2(offset, length)
    else [offset / 256 * 32 + (length - 4) * 4 + 1, offset % 256]
  }

  function Copy2(offset: nat, length: nat): (t: seq<byte>)
    requires offset < U16_LIMIT && 1 <= length <= 64
    ensures |t| == 3
  {
    [(length - 1) * 4 + 2, offset % 256, offset / 256]
  }

  lemma Copy2IsTag(offset: nat, length: nat)
    requires offset < U16_LIMIT && 1 <= length <= 64
    ensures IsTag(Copy2(offset, length), Copy(offset, length))
  {
    assert ToLE(offset / 256, 1) == [offset / 256];
    assert ToLE(offset, 2) == [offset % 256, offset / 256];
    assert Copy2(offset, length) == [(length - 1) * 4 + 2] + ToLE(offset, 2);
  }

  lemma {:induction false} CopyForwardSplit(out: seq<byte>, offset: nat, m: nat, n: nat)
    requires 1 <= offset <= |out|
    ensures CopyForward(out, offset, m + n) == CopyForward(CopyForward(out, offset, m), offset, n)
    decreases m
  {
    if m > 0 {
      CopyForwardSplit(out + [out[|out| - offset]], offset, m - 1, n);
    }
  }

  /** However a copy is split into chunks, together they perform one forward copy. */
  lemma {:induction false} CopyTagsRun(offset: nat, length: nat, out: seq<byte>)
    requires 1 <= offset < U16_LIMIT && 4 <= length && offset <= |out|
    ensures Run(CopyTags(offset, length), out) == Some(CopyForward(out, offset, length))
    decreases length, 0
  {
    hide Run, CopyForward, ParseOp, IsTag;
    if length > 64 {
      var m := if length >= 68 then 64 else 60;
      Copy2ThenTags(offset, m, length - m, out);
    } else if length >= 12 || offset >= 2048 {
      Copy2IsTag(offset, length);
      RunOne(Copy2(offset, length), Copy(offset, length), out);
    } else {
      ShortCopyIsTag(offset, length);
      RunOne(CopyTags(offset, length), Copy(offset, length), out);
    }
  }

  lemma {:induction false} Copy2ThenTags(offset: nat, m: nat, n: nat, out: seq<byte>)
    requires 1 <= offset < U16_LIMIT && 1 <= m <= 64 && 4 <= n && offset <= |out|
    ensures Run(Copy2(offset, m) + CopyTags(offset, n), out) == Some(CopyForward(out, offset, m + n))
    decreases n, 1
  {
    hide Run, CopyForward, ParseOp, IsTag, CopyTags;
    Copy2IsTag(offset, m);
    RunOne(Copy2(offset, m), Copy(offset, m), out);
    var out1 := CopyForward(out, offset, m);
    RunConcat(Copy2(offset, m), CopyTags(offset, n), out);
    CopyTagsRun(offset, n, out1);
    CopyForwardSplit(out, offset, m, n);
  }

  lemma ShortCopyIsTag(offset: nat, length: nat)
    requires 1 <= offset < 2048 && 4 <= length < 12
    ensures IsTag(CopyTags(offset, length), Copy(offset, length))
  {
  }

  /** Each copy costs at least one byte less than it produces. */
  lemma {:induction false} CopyTagsSize(offset: nat, length: nat)
    requires 1 <= offset < U16_LIMIT && 4 <= length
    ensures 0 < |CopyTags(offset, length)| < length
    decreases length
  {
    if length >= 68 {
      CopyTagsSize(offset, length - 64);
    } else if length > 64 {
      CopyTagsSize(offset, length - 60);
    }
  }

  lemma CopyTagsLong(done: seq<byte>, offset: nat, length: nat)
    requires 1 <= offset < U16_LIMIT && length > 64
    ensures var m := if length >= 68 then 64 else 60;
      done + CopyTags(offset, length) == done + Copy2(offset, m) + CopyTags(offset, length - m)
  {
    hide Copy2;
    var m := if length >= 68 then 64 else 60;
    assert CopyTags(offset, length) == Copy2(offset, m) + CopyTags(offset, length - m);
  }

  /** Writes a copy as one or more chunks at dst[d..] and returns their size. */
  method EmitCopy(dst: array<byte>, d: nat, offset: nat, copyLength: nat) returns (size: nat)
    requires 1 <= offset < U16_LIMIT && 4 <= copyLength
    requires d + |CopyTags(offset, copyLength)| <= dst.Length
    modifies dst
    ensures size == |CopyTags(offset, copyLength)|
    ensures dst[..d + size] == old(dst[..d]) + CopyTags(offset, copyLength)
  {
    hide CopyTags, Copy2;
    var i, length := 0, copyLength;
    ghost var pre, all := dst[..d], CopyTags(offset, copyLength);
    ghost var done: seq<byte> := [];
    assert done + CopyTags(offset, length) == all;
    while length >= 68
      invariant 4 <= length && i == |done|
      invariant done + CopyTags(offset, length) == all
      invariant dst[..d + i] == pre + done
    {
      CopyTagsLong(done, offset, length);
      PutAt(dst, d + i, Copy2(offset, 64));
      done, i, length := done + Copy2(offset, 64), i + 3, length - 64;
    }
    var last := EmitShortCopy(dst, d + i, offset, length);
    assert dst[..d + i + last] == pre + (done + CopyTags(offset, length));
    return i + last;
  }

  /** The rest of emitCopy, once the 64-byte chunks have been written. */
  method EmitShortCopy(dst: array<byte>, d: nat, offset: nat, length: nat) returns (size: nat)
    requires 1 <= offset < U16_LIMIT && 4 <= length < 68
    requires d + |CopyTags(offset, length)| <= dst.Length
    modifies dst
    ensures size == |CopyTags(offset, length)|
    ensures dst[..d + size] == old(dst[..d]) + CopyTags(offset, length)
  {
    hide CopyTags, Copy2;
    if length <= 64 {
      size := EmitLastCopy(dst, d, offset, length);
    } else {
      ghost var pre := dst[..d];
      CopyTagsLong([], offset, length);
      assert [] + CopyTags(offset, length) == CopyTags(offset, length);
      PutAt(dst, d, Copy2(offset, 60));
      assert dst[..d + 3] == pre + Copy2(offset, 60);
      size := EmitLastCopy(dst, d + 3, offset, length - 60);
      size := size + 3;
      assert dst[..d + size] == pre + (Copy2(offset, 60) + CopyTags(offset, length - 60));
    }
  }

  /** The end of emitCopy: one chunk of three or two bytes. */
  method EmitLastCopy(dst: array<byte>, d: nat, offset: nat, length: nat) returns (size: nat)
    requires 1 <= offset < U16_LIMIT && 4 <= length <= 64
    requires d + |CopyTags(offset, length)| <= dst.Length
    modifies dst
    ensures size == |CopyTags(offset, length)|
    ensures dst[..d + size] == old(dst[..d]) + CopyTags(offset, length)
  {
    if length >= 12 || offset >= 2048 {
      PutAt(dst, d, Copy2(offset, length));
      return 3;
    }
    PutAt(dst, d, [offset / 256 * 32 + (length - 4) * 4 + 1, offset % 256]);
    return 2;
  }

  // ----- Matching -----------------------------------------------------------

  function Load32(b: seq<byte>, i: nat): (v: nat)
    requires i + 4 <= |b|
    ensures v < U32_LIMIT
  {
    U32(b[i], b[i + 1], b[i + 2], b[i + 3])
  }

  function U32(b0: int, b1: int, b2: int, b3: int): (v: int)
  {
    b0 + 0x100 * b1 + 0x1_0000 * b2 + 0x100_0000 * b3
  }

  function Load64(b: seq<byte>, i: nat): (v: nat)
    requires i + 8 <= |b|
  {
    Load32(b, i) + U32_LIMIT * Load32(b, i + 4)
  }

  /** The conversion uint32(x). */
  function LowU32(x: nat): (v: nat)
  {
    x % U32_LIMIT
  }

  lemma Load32Injective(b: seq<byte>, i: nat, j: nat)
    requires i + 4 <= |b| && j + 4 <= |b| && Load32(b, i) == Load32(b, j)
    ensures b[i..i + 4] == b[j..j + 4]
  {
    FourBytes(b[i], b[i + 1], b[i + 2], b[i + 3], b[j], b[j + 1], b[j + 2], b[j + 3]);
  }

  lemma FourBytes(a: byte, b: byte, c: byte, d: byte, a': byte, b': byte, c': byte, d': byte)
    requires U32(a, b, c, d) == U32(a', b', c', d')
    ensures a == a' && b == b' && c == c' && d == d'
  {
    var x, x' := b + 0x100 * c + 0x1_0000 * d, b' + 0x100 * c' + 0x1_0000 * d';
    LowByte(a, x);
    LowByte(a', x');
    ThreeBytes(b, c, d, b', c', d');
  }

  lemma ThreeBytes(b: byte, c: byte, d: byte, b': byte, c': byte, d': byte)
    requires b + 0x100 * c + 0x1_0000 * d == b' + 0x100 * c' + 0x1_0000 * d'
    ensures b == b' && c == c' && d == d'
  {
    LowByte(b, c + 0x100 * d);
    LowByte(b', c' + 0x100 * d');
    LowByte(c, d);
    LowByte(c', d');
  }

  /** The three 32-bit windows that one 64-bit load stands for. */
  lemma Load64Windows(b: seq<byte>, i: nat)
    requires i + 8 <= |b|
    ensures LowU32(Load64(b, i)) == Load32(b, i)
    ensures LowU32(Load64(b, i) / 0x100) == Load32(b, i + 1)
    ensures LowU32(Load64(b, i) / 0x1_0000) == Load32(b, i + 2)
  {
    hide U32;
    var b0, b1, b2, b3, b4 := b[i], b[i + 1], b[i + 2], b[i + 3], b[i + 4];
    var b5, b6, b7 := b[i + 5], b[i + 6], b[i + 7];
    U32Low(b4, b5, b6, b7);
    Windows(b0, b1, b2, b3, b4, U32(b5, b6, b7, 0));
    U32Low(b5, b6, b7, 0);
    Windows(b1, b2, b3, b4, b5, U32(b6, b7, 0, 0));
  }

  lemma U32Low(b0: byte, b1: byte, b2: byte, b3: byte)
    ensures U32(b0, b1, b2, b3) == b0 + 0x100 * U32(b1, b2, b3, 0)
    ensures U32(b0, b1, b2, b3) >= 0
  {
  }

  /** Dropping the lowest byte of a wide value moves its low 32 bits up by one byte. */
  lemma Windows(b0: byte, b1: byte, b2: byte, b3: byte, b4: byte, hi: nat)
    ensures var x := U32(b0, b1, b2, b3) + U32_LIMIT * (b4 + 0x100 * hi);
      && LowU32(x) == U32(b0, b1, b2, b3)
      && x / 0x100 == U32(b1, b2, b3, b4) + U32_LIMIT * hi
      && LowU32(x / 0x100) == U32(b1, b2, b3, b4)
  {
    var x := U32(b0, b1, b2, b3) + U32_LIMIT * (b4 + 0x100 * hi);
    var y := U32(b1, b2, b3, b4) + U32_LIMIT * hi;
    assert x == b0 + 0x100 * y;
    LowByte(b0, y);
    LowWord(U32(b0, b1, b2, b3), b4 + 0x100 * hi);
    LowWord(U32(b1, b2, b3, b4), hi);
  }

  function ShiftRight(x: nat, n: nat): (r: nat)
  {
    if n == 0 then x else ShiftRight(x / 2, n - 1)
  }

  function Hash(u: nat, shift: nat): (h: nat)
  {
    ShiftRight(LowU32(u * 0x1e35a7bd), shift)
  }

  /** The table slot of a hash: hash & tableMask. */
  function Slot(hash: nat): (i: nat)
    ensures i < MAX_TABLE_SIZE
  {
    hash % MAX_TABLE_SIZE
  }

  /** Every candidate the table can answer lies before position s. */
  ghost predicate TableBelow(table: array<nat>, s: nat)
    reads table
  {
    table.Length == MAX_TABLE_SIZE && forall i :: 0 <= i < MAX_TABLE_SIZE ==> table[i] < s
  }

  /** The four bytes at s also stand at the earlier position candidate. */
  ghost predicate MatchAt(src: seq<byte>, candidate: nat, s: nat)
  {
    candidate < s && s + 4 <= |src| && src[candidate..candidate + 4] == src[s..s + 4]
  }

  // ----- The matcher as a function ------------------------------------------

  /** A table of earlier positions, all below s. */
  ghost predicate Below(t: seq<nat>, s: nat)
  {
    |t| == MAX_TABLE_SIZE && forall i :: 0 <= i < |t| ==> t[i] < s
  }

  function SlotAt(src: seq<byte>, s: nat, shift: nat): (i: nat)
    requires s + 4 <= |src|
    ensures i < MAX_TABLE_SIZE
  {
    Slot(Hash(Load32(src, s), shift))
  }

  datatype Search = NotFound | Hit(s: nat, candidate: nat, t: seq<nat>)

  /**
   * Looks at s, and then at positions further and further apart, for four bytes that the
   * table knows from before, and records each position in its slot.
   */
  function SearchFrom(src: seq<byte>, shift: nat, t: seq<nat>, s: nat, skip: nat): (r: Search)
    requires Below(t, s) && skip >= 32
    ensures r.Hit? ==> s <= r.s && r.s + INPUT_MARGIN < |src| && Below(r.t, r.s + 1)
    ensures r.Hit? ==> r.candidate < r.s && Load32(src, r.s) == Load32(src, r.candidate)
    decreases |src| - s
  {
    var next := s + skip / 32;
    if next > |src| - INPUT_MARGIN then NotFound
    else
      var i := SlotAt(src, s, shift);
      var t1 := t[i := s];
      if Load32(src, s) == Load32(src, t[i]) then Hit(s, t[i], t1)
      else SearchFrom(src, shift, t1, next, skip + skip / 32)
  }

  /** The first position from j on where src differs from what stands at the same distance before it. */
  function MatchEnd(src: seq<byte>, i: nat, j: nat): (k: nat)
    requires i < j <= |src|
    ensures j <= k <= |src|
    decreases |src| - j
  {
    if j < |src| && src[i] == src[j] then MatchEnd(src, i + 1, j + 1) else j
  }

  function Tail(src: seq<byte>, nextEmit: nat): (tags: seq<byte>)
    requires nextEmit <= |src| <= MAX_BLOCK_SIZE
  {
    if nextEmit < |src| then LiteralTag(src[nextEmit..]) else []
  }

  /** All that is written for src[nextEmit..] when scanning goes on at s. */
  function TagsFrom(src: seq<byte>, shift: nat, t: seq<nat>, nextEmit: nat, s: nat): (tags: seq<byte>)
    requires nextEmit < s <= |src| <= MAX_BLOCK_SIZE && Below(t, s)
    decreases |src| - s, 1
  {
    match SearchFrom(src, shift, t, s, 32)
    case NotFound => Tail(src, nextEmit)
    case Hit(s1, candidate, t1) =>
      LiteralTag(src[nextEmit..s1]) + CopiesFrom(src, shift, t1, s1, candidate)
  }

  /** The match at base as one copy, matches that follow at once, and the rest. */
  function CopiesFrom(src: seq<byte>, shift: nat, t: seq<nat>, base: nat, candidate: nat): (tags: seq<byte>)
    requires candidate < base && base + 4 <= |src| <= MAX_BLOCK_SIZE && Below(t, base + 1)
    decreases |src| - base, 0
  {
    var end := MatchEnd(src, candidate + 4, base + 4);
    CopyTags(base - candidate, end - base) +
    if end >= |src| - INPUT_MARGIN then Tail(src, end)
    else
      var t1 := t[SlotAt(src, end - 1, shift) := end - 1];
      var again := t1[SlotAt(src, end, shift)];
      var t2 := t1[SlotAt(src, end, shift) := end];
      if Load32(src, end) == Load32(src, again) then CopiesFrom(src, shift, t2, end, again)
      else TagsFrom(src, shift, t2, end, end + 1)
  }

  /** The hash shift for a block of n bytes: a table of 2^8 slots, or up to 2^14 for longer blocks. */
  function ShiftFor(n: nat): (shift: nat)
  {
    if n <= 256 then 24 else if n <= 512 then 23 else if n <= 1024 then 22
    else if n <= 2048 then 21 else if n <= 4096 then 20 else if n <= 8192 then 19 else 18
  }

  function EmptyTable(): (t: seq<nat>)
    ensures Below(t, 1)
  {
    seq(MAX_TABLE_SIZE, _ => 0)
  }

  /** What encodeBlock writes. */
  function BlockTags(src: seq<byte>): (tags: seq<byte>)
    requires 1 <= |src| <= MAX_BLOCK_SIZE
  {
    TagsFrom(src, ShiftFor(|src|), EmptyTable(), 0, 1)
  }

  lemma {:induction false} MatchEndAll(src: seq<byte>, i: nat, j: nat)
    requires i < j <= |src| && forall k :: j <= k < |src| ==> src[k] == src[k - (j - i)]
    ensures MatchEnd(src, i, j) == |src|
    decreases |src| - j
  {
    if j < |src| {
      assert src[j] == src[j - (j - i)];
      MatchEndAll(src, i + 1, j + 1);
    }
  }

  /** Repeated bytes are found: a block of one byte over and over is a literal of one byte and one copy. */
  lemma OneByteOverAndOver(src: seq<byte>)
    requires MIN_NON_LITERAL_BLOCK_SIZE <= |src| <= MAX_BLOCK_SIZE
    requires forall i :: 0 <= i < |src| ==> src[i] == src[0]
    ensures BlockTags(src) == LiteralTag([src[0]]) + CopyTags(1, |src| - 1)
  {
    hide LiteralTag, CopyTags, SearchFrom, TagsFrom, CopiesFrom, Tail, EmptyTable, MatchEnd, ShiftFor, SlotAt, Load32;
    var shift := ShiftFor(|src|);
    FoundAtOnce(src, shift);
    LiteralAndCopy(src, shift);
    assert src[0..1] == [src[0]];
  }

  lemma LiteralAndCopy(src: seq<byte>, shift: nat)
    requires 5 <= |src| <= MAX_BLOCK_SIZE && MatchEnd(src, 4, 5) == |src|
    requires SearchFrom(src, shift, EmptyTable(), 1, 32) == Hit(1, 0, EmptyTable()[SlotAt(src, 1, shift) := 1])
    ensures TagsFrom(src, shift, EmptyTable(), 0, 1) == LiteralTag(src[0..1]) + CopyTags(1, |src| - 1)
  {
    hide SlotAt, LiteralTag, CopyTags, SearchFrom, TagsFrom, CopiesFrom, EmptyTable, MatchEnd, Load32, Tail;
    var t1 := EmptyTable()[SlotAt(src, 1, shift) := 1];
    TagsStep(src, shift, EmptyTable(), 0, 1);
    CopiesStep(src, shift, t1, 1, 0);
    TailIs(src, |src|);
    var copy := CopyTags(1, |src| - 1);
    assert copy + [] == copy;
  }

  /** The second byte is where the first match is, and it runs to the end. */
  lemma FoundAtOnce(src: seq<byte>, shift: nat)
    requires MIN_NON_LITERAL_BLOCK_SIZE <= |src| && forall i :: 0 <= i < |src| ==> src[i] == src[0]
    ensures SearchFrom(src, shift, EmptyTable(), 1, 32) == Hit(1, 0, EmptyTable()[SlotAt(src, 1, shift) := 1])
    ensures MatchEnd(src, 4, 5) == |src|
  {
    SameLoads(src);
    MatchEndAll(src, 4, 5);
    hide SlotAt, SearchFrom, EmptyTable, MatchEnd, Load32;
    EmptyTableIs();
    SearchStep(src, shift, EmptyTable(), 1, 32);
  }

  lemma EmptyTableIs()
    ensures |EmptyTable()| == MAX_TABLE_SIZE && forall i :: 0 <= i < MAX_TABLE_SIZE ==> EmptyTable()[i] == 0
  {
  }

  lemma SameLoads(src: seq<byte>)
    requires |src| >= 5 && forall i :: 0 <= i < |src| ==> src[i] == src[0]
    ensures Load32(src, 1) == Load32(src, 0)
  {
  }

  lemma SearchStep(src: seq<byte>, shift: nat, t: seq<nat>, s: nat, skip: nat)
    requires Below(t, s) && skip >= 32
    ensures var next := s + skip / 32;
      if next > |src| - INPUT_MARGIN then SearchFrom(src, shift, t, s, skip) == NotFound
      else
        var i := SlotAt(src, s, shift);
        SearchFrom(src, shift, t, s, skip) ==
        if Load32(src, s) == Load32(src, t[i]) then Hit(s, t[i], t[i := s])
        else SearchFrom(src, shift, t[i := s], next, skip + skip / 32)
  {
    hide SlotAt, Load32;
  }

  lemma TagsStep(src: seq<byte>, shift: nat, t: seq<nat>, nextEmit: nat, s: nat)
    requires nextEmit < s <= |src| <= MAX_BLOCK_SIZE && Below(t, s)
    ensures var r := SearchFrom(src, shift, t, s, 32);
      if r.NotFound? then TagsFrom(src, shift, t, nextEmit, s) == Tail(src, nextEmit)
      else TagsFrom(src, shift, t, nextEmit, s) ==
           LiteralTag(src[nextEmit..r.s]) + CopiesFrom(src, shift, r.t, r.s, r.candidate)
  {
    hide SearchFrom, LiteralTag, CopiesFrom;
  }

  lemma CopiesStep(src: seq<byte>, shift: nat, t: seq<nat>, base: nat, candidate: nat)
    requires candidate < base && base + 4 <= |src| <= MAX_BLOCK_SIZE && Below(t, base + 1)
    ensures var end := MatchEnd(src, candidate + 4, base + 4);
      CopiesFrom(src, shift, t, base, candidate) ==
      CopyTags(base - candidate, end - base) +
      if end >= |src| - INPUT_MARGIN then Tail(src, end)
      else
        var t1 := t[SlotAt(src, end - 1, shift) := end - 1];
        var again := t1[SlotAt(src, end, shift)];
        var t2 := t1[SlotAt(src, end, shift) := end];
        if Load32(src, end) == Load32(src, again) then CopiesFrom(src, shift, t2, end, again)
        else TagsFrom(src, shift, t2, end, end + 1)
  {
    hide SlotAt, Load32, CopyTags, TagsFrom, MatchEnd;
  }

  lemma Assoc<T>(a: seq<T>, b: seq<T>, c: seq<T>)
    ensures a + (b + c) == a + b + c
  {
  }

  /**
   * Scans from s for a four-byte match, skipping faster the longer none is
   * found, and records every position it looks at.
   */
  method FindMatch(table: array<nat>, src: seq<byte>, shift: nat, start: nat, hash: nat)
      returns (found: bool, s: nat, candidate: nat, nextHash: nat)
    requires |src| <= MAX_BLOCK_SIZE && 1 <= start <= |src|
    requires TableBelow(table, start)
    requires start + 4 <= |src| ==> hash == Hash(Load32(src, start), shift)
    modifies table
    ensures table.Length == MAX_TABLE_SIZE
    ensures SearchFrom(src, shift, old(table[..]), start, 32) ==
      if found then Hit(s, candidate, table[..]) else NotFound
    ensures found ==> start <= s && s + INPUT_MARGIN < |src| && MatchAt(src, candidate, s)
    ensures found ==> TableBelow(table, s + 1)
  {
    hide Hash, Load32, SearchFrom, Slot;
    var sLimit := |src| - INPUT_MARGIN;
    var skip := 32;
    var nextS := start;
    candidate, nextHash := 0, hash;
    while true
      invariant 32 <= skip && start <= nextS <= |src|
      invariant TableBelow(table, nextS)
      invariant nextS + 4 <= |src| ==> nextHash == Hash(Load32(src, nextS), shift)
      invariant SearchFrom(src, shift, old(table[..]), start, 32) == SearchFrom(src, shift, table[..], nextS, skip)
      decreases |src| - nextS
    {
      s := nextS;
      ghost var t := table[..];
      SearchStep(src, shift, t, s, skip);
      var bytesBetweenHashLookups := skip / 32;
      nextS := s + bytesBetweenHashLookups;
      skip := skip + bytesBetweenHashLookups;
      if nextS > sLimit {
        return false, s, candidate, nextHash;
      }
      candidate := table[Slot(nextHash)];
      table[Slot(nextHash)] := s % U16_LIMIT;
      assert s % U16_LIMIT == s && table[..] == t[SlotAt(src, s, shift) := s];
      nextHash := Hash(Load32(src, nextS), shift);
      if Load32(src, s) == Load32(src, candidate) {
        Load32Injective(src, s, candidate);
        return true, s, candidate, nextHash;
      }
    }
  }

  /** The largest k such that src[i..i + k - j] and src[j..k] agree. */
  method ExtendMatch(src: seq<byte>, i0: nat, j0: nat) returns (k: nat)
    requires i0 < j0 <= |src|
    ensures j0 <= k <= |src|
    ensures src[i0..i0 + k - j0] == src[j0..k]
    ensures k < |src| ==> src[i0 + k - j0] != src[k]
    ensures k == MatchEnd(src, i0, j0)
  {
    var i, j := i0, j0;
    while j < |src| && src[i] == src[j]
      invariant j0 <= j <= |src| && i - i0 == j - j0 && MatchEnd(src, i0, j0) == MatchEnd(src, i, j)
      invariant src[i0..i] == src[j0..j]
    {
      assert src[i0..i + 1] == src[i0..i] + [src[i]] && src[j0..j + 1] == src[j0..j] + [src[j]];
      i, j := i + 1, j + 1;
    }
    return j;
  }

  /** Copying a stretch that occurred earlier extends the output along src. */
  lemma CopyFollowsSource(src: seq<byte>, candidate: nat, s: nat, end: nat)
    requires candidate < s <= end <= |src|
    requires src[candidate..candidate + end - s] == src[s..end]
    ensures CopyForward(src[..s], s - candidate, end - s) == src[..end]
  {
    var r := src[..end];
    forall i | s <= i < end
      ensures r[i] == r[i - (s - candidate)]
    {
      assert src[s..end][i - s] == src[candidate..candidate + end - s][i - s];
    }
    CopyForwardUnique(src[..s], s - candidate, end - s, r);
  }

  // ----- One block ----------------------------------------------------------

  /** Enough room for any block of n bytes: what encodeBlock can write at most. */
  function BlockRoom(n: nat): (room: nat)
  {
    n + n / 61 + 1
  }

  /** The bytes enc written so far stand for the first `emitted` bytes of src. */
  ghost predicate Emitted(enc: seq<byte>, src: seq<byte>, emitted: nat)
  {
    emitted <= |src| && Run(enc, []) == Some(src[..emitted])
  }

  /**
   * dst[..d] is what stood before the block, followed by an encoding of the first
   * `emitted` bytes of src that is at most a 61st longer than them, give or take slack.
   */
  ghost predicate Written(dst: array<byte>, d: nat, pre: seq<byte>, enc: seq<byte>,
                          src: seq<byte>, emitted: nat, slack: nat)
    reads dst
  {
    && d <= dst.Length && dst[..d] == pre + enc
    && Emitted(enc, src, emitted)
    && 61 * (|enc| - emitted) <= emitted + 61 * slack
  }

  lemma EmittedLiteral(enc: seq<byte>, src: seq<byte>, from: nat, to: nat)
    requires Emitted(enc, src, from) && from < to <= |src| && to - from <= MAX_BLOCK_SIZE
    ensures Emitted(enc + LiteralTag(src[from..to]), src, to)
  {
    hide Run, LiteralTag, IsTag, ParseOp;
    var lit := src[from..to];
    LiteralTagIsTag(lit);
    RunConcat(enc, LiteralTag(lit), []);
    RunOne(LiteralTag(lit), Literal(lit), src[..from]);
    assert src[..from] + lit == src[..to];
  }

  lemma EmittedCopy(enc: seq<byte>, src: seq<byte>, candidate: nat, s: nat, end: nat)
    requires Emitted(enc, src, s) && candidate < s && s + 4 <= end <= |src| <= MAX_BLOCK_SIZE
    requires src[candidate..candidate + end - s] == src[s..end]
    ensures Emitted(enc + CopyTags(s - candidate, end - s), src, end)
  {
    hide Run, CopyTags, CopyForward, ParseOp;
    RunConcat(enc, CopyTags(s - candidate, end - s), []);
    CopyTagsRun(s - candidate, end - s, src[..s]);
    CopyFollowsSource(src, candidate, s, end);
  }

  lemma SlicesJoin<T>(src: seq<T>, i: nat, j: nat, m: nat, n: nat)
    requires i + m + n <= |src| && j + m + n <= |src|
    requires src[i..i + m] == src[j..j + m] && src[i + m..i + m + n] == src[j + m..j + m + n]
    ensures src[i..i + m + n] == src[j..j + m + n]
  {
    assert src[i..i + m + n] == src[i..i + m] + src[i + m..i + m + n];
    assert src[j..j + m + n] == src[j..j + m] + src[j + m..j + m + n];
  }

  /** Extends the four-byte match at s as far as it goes and emits it as a copy. */
  method EmitMatch(dst: array<byte>, d: nat, src: seq<byte>, base: nat, candidate: nat,
                   ghost pre: seq<byte>, ghost enc: seq<byte>)
      returns (size: nat, s: nat, ghost enc': seq<byte>)
    requires |src| <= MAX_BLOCK_SIZE && MatchAt(src, candidate, base)
    requires Written(dst, d, pre, enc, src, base, 1)
    requires |pre| + BlockRoom(|src|) <= dst.Length
    modifies dst
    ensures base + 4 <= s <= |src| && s == MatchEnd(src, candidate + 4, base + 4)
    ensures enc' == enc + CopyTags(base - candidate, s - base)
    ensures Written(dst, d + size, pre, enc', src, s, 0)
  {
    hide Run, CopyTags, MatchEnd, Emitted;
    s := ExtendMatch(src, candidate + 4, base + 4);
    SlicesJoin(src, candidate, base, 4, s - base - 4);
    ghost var tags := CopyTags(base - candidate, s - base);
    CopyTagsSize(base - candidate, s - base);
    EmittedCopy(enc, src, candidate, base, s);
    size := EmitCopy(dst, d, base - candidate, s - base);
    enc' := enc + tags;
  }

  /**
   * Emits the match at s0, and then every match that starts right where the
   * last one ended. Either the input is nearly used up (done), or scanning goes
   * on from s with the hash of the bytes there.
   */
  method EmitMatches(dst: array<byte>, d0: nat, table: array<nat>, src: seq<byte>, shift: nat,
                     s0: nat, candidate0: nat, ghost pre: seq<byte>, ghost enc0: seq<byte>)
      returns (d: nat, s: nat, nextEmit: nat, nextHash: nat, done: bool, ghost enc: seq<byte>)
    requires |src| <= MAX_BLOCK_SIZE && MatchAt(src, candidate0, s0)
    requires TableBelow(table, s0 + 1)
    requires Written(dst, d0, pre, enc0, src, s0, 1)
    requires |pre| + BlockRoom(|src|) <= dst.Length
    modifies dst, table
    ensures s0 < nextEmit <= |src|
    ensures Written(dst, d, pre, enc, src, nextEmit, 0)
    ensures !done ==> s == nextEmit + 1 <= |src| && TableBelow(table, s)
    ensures !done ==> s + 4 <= |src| && nextHash == Hash(Load32(src, s), shift)
    ensures table.Length == MAX_TABLE_SIZE
    ensures enc + (if done then Tail(src, nextEmit) else TagsFrom(src, shift, table[..], nextEmit, s)) ==
      enc0 + CopiesFrom(src, shift, old(table[..]), s0, candidate0)
  {
    hide Hash, Load32, Written, SlotAt, CopiesFrom, TagsFrom, MatchEnd, CopyTags, Tail;
    var sLimit := |src| - INPUT_MARGIN;
    var candidate := candidate0;
    d, s, enc := d0, s0, enc0;
    while true
      invariant s0 <= s && MatchAt(src, candidate, s) && TableBelow(table, s + 1)
      invariant Written(dst, d, pre, enc, src, s, 1)
      invariant enc + CopiesFrom(src, shift, table[..], s, candidate) ==
        enc0 + CopiesFrom(src, shift, old(table[..]), s0, candidate0)
      decreases |src| - s
    {
      var size;
      ghost var base, cand, before, t := s, candidate, enc, table[..];
      size, s, enc := EmitMatch(dst, d, src, s, candidate, pre, enc);
      d, nextEmit := d + size, s;
      CopiesStep(src, shift, t, base, cand);
      Assoc(before, CopyTags(base - cand, s - base),
            if s >= sLimit then Tail(src, s)
            else
              var prev: nat := s - 1;
              var t1 := t[SlotAt(src, prev, shift) := prev];
              var next := t1[SlotAt(src, s, shift)];
              var t2 := t1[SlotAt(src, s, shift) := s];
              if Load32(src, s) == Load32(src, next) then CopiesFrom(src, shift, t2, s, next)
              else TagsFrom(src, shift, t2, s, s + 1));
      if s >= sLimit {
        return d, s, nextEmit, 0, true, enc;
      }
      var again;
      again, candidate, nextHash := ProbeAfterCopy(table, src, shift, s);
      if !again {
        return d, s + 1, nextEmit, nextHash, false, enc;
      }
      WrittenLoosely(dst, d, pre, enc, src, nextEmit);
    }
  }

  /**
   * Records positions s - 1 and s, just after a copy that ended at s, and tells
   * whether another match starts at s; if not, gives the hash of the bytes at s + 1.
   */
  method ProbeAfterCopy(table: array<nat>, src: seq<byte>, shift: nat, s: nat)
      returns (again: bool, candidate: nat, nextHash: nat)
    requires 1 <= s && s + INPUT_MARGIN < |src| <= MAX_BLOCK_SIZE
    requires TableBelow(table, s)
    modifies table
    ensures TableBelow(table, s + 1)
    ensures var t1 := old(table[..])[SlotAt(src, s - 1, shift) := s - 1];
      && table[..] == t1[SlotAt(src, s, shift) := s] && candidate == t1[SlotAt(src, s, shift)]
      && (again <==> Load32(src, s) == Load32(src, candidate))
    ensures again ==> MatchAt(src, candidate, s)
    ensures !again ==> nextHash == Hash(Load32(src, s + 1), shift)
  {
    hide Hash, Load32, Load64, LowU32;
    var x := Load64(src, s - 1);
    Load64Windows(src, s - 1);
    var prevHash := Hash(LowU32(x), shift);
    table[Slot(prevHash)] := (s - 1) % U16_LIMIT;
    var currHash := Hash(LowU32(x / 0x100), shift);
    candidate := table[Slot(currHash)];
    table[Slot(currHash)] := s % U16_LIMIT;
    nextHash := Hash(LowU32(x / 0x1_0000), shift);
    again := LowU32(x / 0x100) == Load32(src, candidate);
    if again {
      Load32Injective(src, s, candidate);
    }
  }

  /** Emits src[from..to], which no match covers, as a literal. */
  method EmitUnmatched(dst: array<byte>, d: nat, src: seq<byte>, from: nat, to: nat,
                       ghost pre: seq<byte>, ghost enc: seq<byte>)
      returns (size: nat, ghost enc': seq<byte>)
    requires from < to <= |src| <= MAX_BLOCK_SIZE
    requires Written(dst, d, pre, enc, src, from, 0)
    requires |pre| + BlockRoom(|src|) <= dst.Length
    modifies dst
    ensures Written(dst, d + size, pre, enc', src, to, 1)
    ensures |enc'| <= BlockRoom(to) && enc' == enc + LiteralTag(src[from..to])
  {
    hide Run, LiteralTag;
    var lit := src[from..to];
    EmittedLiteral(enc, src, from, to);
    size := EmitLiteral(dst, d, lit);
    enc' := enc + LiteralTag(lit);
    assert dst[..d + size] == pre + enc + LiteralTag(lit) == pre + enc';
  }

  /** Encodes one block of src at dst[d0..] and returns where it ends. */
  method EncodeBlock(dst: array<byte>, d0: nat, src: seq<byte>) returns (d: nat)
    requires MIN_NON_LITERAL_BLOCK_SIZE <= |src| <= MAX_BLOCK_SIZE
    requires d0 + BlockRoom(|src|) <= dst.Length
    modifies dst
    ensures d0 <= d <= d0 + BlockRoom(|src|)
    ensures dst[..d0] == old(dst[..d0])
    ensures Run(dst[d0..d], []) == Some(src) && dst[d0..d] == BlockTags(src)
  {
    hide Hash, Load32, Written, MatchAt, SearchFrom, CopiesFrom, TagsFrom, Tail, LiteralTag;
    var shift := TableShift(|src|);
    var table := new nat[MAX_TABLE_SIZE](_ => 0);
    ghost var pre, enc := dst[..d0], [];
    WrittenNothing(dst, d0, src);
    d := d0;
    var nextEmit, s := 0, 1;
    var nextHash := Hash(Load32(src, s), shift);
    assert table[..] == EmptyTable();
    assert [] + BlockTags(src) == BlockTags(src);
    while true
      invariant nextEmit < s <= |src| && TableBelow(table, s)
      invariant s + 4 <= |src| ==> nextHash == Hash(Load32(src, s), shift)
      invariant enc + TagsFrom(src, shift, table[..], nextEmit, s) == BlockTags(src)
      invariant Written(dst, d, pre, enc, src, nextEmit, 0)
      decreases |src| - nextEmit
    {
      var found, candidate;
      TagsStep(src, shift, table[..], nextEmit, s);
      found, s, candidate, nextHash := FindMatch(table, src, shift, s, nextHash);
      if !found {
        break;
      }
      Assoc(enc, LiteralTag(src[nextEmit..s]), CopiesFrom(src, shift, table[..], s, candidate));
      var size, done;
      size, enc := EmitUnmatched(dst, d, src, nextEmit, s, pre, enc);
      d, s, nextEmit, nextHash, done, enc := EmitMatches(dst, d + size, table, src, shift, s, candidate, pre, enc);
      if done {
        break;
      }
    }
    assert enc + Tail(src, nextEmit) == BlockTags(src);
    TailIs(src, nextEmit);
    if nextEmit < |src| {
      var size;
      size, enc := EmitUnmatched(dst, d, src, nextEmit, |src|, pre, enc);
      d := d + size;
    } else {
      WrittenLoosely(dst, d, pre, enc, src, nextEmit);
    }
    WrittenAll(dst, d, pre, enc, src);
  }

  lemma TailIs(src: seq<byte>, nextEmit: nat)
    requires nextEmit <= |src| <= MAX_BLOCK_SIZE
    ensures Tail(src, nextEmit) == if nextEmit < |src| then LiteralTag(src[nextEmit..|src|]) else []
  {
    assert src[nextEmit..] == src[nextEmit..|src|];
  }

  lemma WrittenLoosely(dst: array<byte>, d: nat, pre: seq<byte>, enc: seq<byte>, src: seq<byte>, emitted: nat)
    requires Written(dst, d, pre, enc, src, emitted, 0)
    ensures Written(dst, d, pre, enc, src, emitted, 1)
  {
  }

  lemma WrittenNothing(dst: array<byte>, d0: nat, src: seq<byte>)
    requires d0 <= dst.Length
    ensures Written(dst, d0, dst[..d0], [], src, 0, 0)
  {
  }

  lemma WrittenAll(dst: array<byte>, d: nat, pre: seq<byte>, enc: seq<byte>, src: seq<byte>)
    requires Written(dst, d, pre, enc, src, |src|, 1)
    ensures dst[..|pre|] == pre && d == |pre| + |enc| && |enc| <= BlockRoom(|src|)
    ensures Run(dst[|pre|..d], []) == Some(src) && dst[|pre|..d] == enc
  {
    hide Run;
    assert dst[..d][..|pre|] == pre && dst[..d][|pre|..] == enc;
    assert src[..|src|] == src;
  }

  lemma EmittedNothing(src: seq<byte>)
    ensures Emitted([], src, 0)
  {
  }

  /** The hash shift: the table has the least power of two of 2^8 to 2^14 slots that is not below n. */
  method TableShift(n: nat) returns (shift: nat)
    ensures 18 <= shift <= 24
    ensures shift == 18 || n <= Pow2(32 - shift)
    ensures shift == 24 || Pow2(31 - shift) < n
    ensures shift == ShiftFor(n)
  {
    var tableSize := 256;
    shift := 24;
    assert Pow2(8) == 256;
    assert Pow2(14) == 64 * Pow2(8) by {
      assert Pow2(10) == 4 * Pow2(8);
      assert Pow2(12) == 4 * Pow2(10);
      assert Pow2(14) == 4 * Pow2(12);
    }
    while tableSize < MAX_TABLE_SIZE && tableSize < n
      invariant 18 <= shift <= 24 && tableSize == Pow2(32 - shift)
      invariant shift == 18 <==> tableSize >= MAX_TABLE_SIZE
      invariant shift == 24 || Pow2(31 - shift) < n
      decreases shift
    {
      shift := shift - 1;
      tableSize := tableSize * 2;
    }
    OneShift(n, shift);
  }

  lemma OneShift(n: nat, shift: nat)
    requires 18 <= shift <= 24 && (shift == 18 || n <= Pow2(32 - shift)) && (shift == 24 || Pow2(31 - shift) < n)
    ensures shift == ShiftFor(n)
  {
    assert Pow2(8) == 256;
    assert Pow2(9) == 512;
    assert Pow2(10) == 1024;
    assert Pow2(11) == 2048;
    assert Pow2(12) == 4096;
    assert Pow2(13) == 8192;
  }

  // ----- Whole inputs -------------------------------------------------------

  /** The most an input of srcLen bytes can take, or negative if it is too large to encode. */
  function MaxEncodedLen(w: Word, srcLen: int): (n: int)
  {
    if srcLen < 0 || srcLen > 0xffff_ffff then -1
    else
      var n := 32 + srcLen + srcLen / 6;
      if n > 0xffff_ffff then -1 else AsInt(w, n)
  }

  lemma MaxEncodedLenFits(w: Word, srcLen: nat)
    requires MaxEncodedLen(w, srcLen) >= 0
    ensures MaxEncodedLen(w, srcLen) == 32 + srcLen + srcLen / 6
    ensures srcLen < U32_LIMIT && srcLen <= MaxInt(w)
  {
  }

  /** The room that Encode leaves its first block, in a destination of dstLen bytes or a new one. */
  function RoomForBlock(w: Word, dstLen: nat, n: nat): (room: int)
  {
    var need := MaxEncodedLen(w, n);
    (if need <= dstLen then dstLen else need) - |Uvarint(n)|
  }

  /**
   * For an input of one block, what encodeBlock documents that it needs is there if and
   * only if the destination has room for the length header on top of MaxEncodedLen.
   */
  lemma DocumentedRoomIff(w: Word, dstLen: nat, n: nat)
    requires MIN_NON_LITERAL_BLOCK_SIZE <= n <= MAX_BLOCK_SIZE
    ensures RoomForBlock(w, dstLen, n) >= MaxEncodedLen(w, n) <==>
      dstLen >= MaxEncodedLen(w, n) + |Uvarint(n)|
  {
    hide Uvarint;
  }

  /** What it really needs is always there. */
  lemma NeededRoomIsThere(w: Word, dstLen: nat, n: nat)
    requires MIN_NON_LITERAL_BLOCK_SIZE <= n <= MAX_BLOCK_SIZE
    ensures RoomForBlock(w, dstLen, n) >= BlockRoom(n)
  {
    hide Uvarint, MaxEncodedLen;
    UvarintSize(n);
    OneBlockLen(w, n);
  }

  lemma OneBlockLen(w: Word, n: nat)
    requires n <= MAX_BLOCK_SIZE
    ensures MaxEncodedLen(w, n) == 32 + n + n / 6 && n / 61 <= n / 6
  {
    assert 32 + n + n / 6 < 0x8000_0000;
    LiteralAsInt(w, 32 + n + n / 6);
    assert 61 * (n / 61) <= n < 6 * (n / 6) + 6;
  }

  /** The shortest block that is not a lone literal, in a destination that Encode makes itself. */
  lemma DocumentedRoomIsMissing(w: Word)
    ensures MaxEncodedLen(w, 17) == 51 && RoomForBlock(w, 0, 17) == 50
  {
    assert Uvarint(17) == [17];
  }

  /** What one block adds to what has been written for the first k bytes of src. */
  lemma WrittenBehind<T>(before: seq<T>, after: seq<T>, d0: nat, d': nat)
    requires d0 <= |before| <= d' <= |after| && after[..|before|] == before
    ensures after[..d0] == before[..d0]
    ensures after[d0..d'] == before[d0..] + after[|before|..d']
  {
    assert after[..d0] == after[..|before|][..d0];
    assert after[d0..|before|] == after[..|before|][d0..];
  }

  lemma RunNextBlock(enc: seq<byte>, block: seq<byte>, src: seq<byte>, k: nat, k': nat)
    requires k <= k' <= |src|
    requires Run(enc, []) == Some(src[..k]) && Run(block, []) == Some(src[k..k'])
    ensures Run(enc + block, []) == Some(src[..k'])
  {
    hide Run;
    RunConcat(enc, block, []);
    RunUnderPrefix(block, src[..k], []);
    assert src[..k] + [] == src[..k];
    assert src[..k] + src[k..k'] == src[..k'];
  }

  /** Encodes one block, as a lone literal where it is too short to hold a copy. */
  method EncodeOneBlock(dst: array<byte>, d0: nat, p: seq<byte>) returns (d: nat)
    requires 1 <= |p| <= MAX_BLOCK_SIZE
    requires d0 + BlockRoom(|p|) <= dst.Length
    modifies dst
    ensures d0 <= d <= d0 + BlockRoom(|p|)
    ensures dst[..d0] == old(dst[..d0])
    ensures Run(dst[d0..d], []) == Some(p)
  {
    hide Run;
    if |p| < MIN_NON_LITERAL_BLOCK_SIZE {
      EmittedNothing(p);
      ghost var enc;
      ghost var pre := dst[..d0];
      d, enc := EmitUnmatched(dst, d0, p, 0, |p|, pre, []);
      d := d0 + d;
      assert dst[d0..d] == enc && p[..|p|] == p;
      assert dst[..d0] == pre;
    } else {
      d := EncodeBlock(dst, d0, p);
    }
  }

  /** Encodes all of src at dst[d0..], block after block, and returns where it ends. */
  method EncodeBlocks(dst: array<byte>, d0: nat, src: seq<byte>) returns (d: nat)
    requires d0 + |src| + |src| / 6 + 1 <= dst.Length
    modifies dst
    ensures d0 <= d <= d0 + |src| + |src| / 6 + 1
    ensures dst[..d0] == old(dst[..d0])
    ensures Run(dst[d0..d], []) == Some(src)
  {
    hide Run;
    d := d0;
    var k := 0;
    EmittedNothing(src);
    assert dst[d0..d] == [];
    while k < |src|
      invariant 0 <= k <= |src| && d0 <= d <= dst.Length
      invariant 6 * (d - d0 - k) <= k + 6
      invariant k < |src| ==> 6 * (d - d0 - k) <= k
      invariant dst[..d0] == old(dst[..d0])
      invariant Run(dst[d0..d], []) == Some(src[..k])
    {
      var k' := if |src| - k > MAX_BLOCK_SIZE then k + MAX_BLOCK_SIZE else |src|;
      ghost var before := dst[..d];
      var d' := EncodeOneBlock(dst, d, src[k..k']);
      RunNextBlock(before[d0..], dst[d..d'], src, k, k');
      WrittenBehind(before, dst[..], d0, d');
      d, k := d', k';
    }
    assert src[..|src|] == src;
  }

  lemma EncodedBlockDecodes(w: Word, src: seq<byte>, tags: seq<byte>)
    requires |src| < U32_LIMIT && |src| <= MaxInt(w)
    requires Run(tags, []) == Some(src)
    ensures BlockContents(w, Uvarint(|src|) + tags) == Ok(src)
  {
    hide Run, Interpret, ReadUvarint;
    var header := Uvarint(|src|);
    UvarintSize(|src|);
    UvarintRoundTrip(|src|, [], tags);
    assert [] + header + tags == header + tags;
    assert (header + tags)[|header|..] == tags;
    InterpretIffRun(w, tags, [], |src|, src);
  }

  /** Writes the length header and the blocks of src to buf[start..]. */
  method EncodeInto(buf: array<byte>, start: nat, src: seq<byte>) returns (end: nat)
    requires |src| < U32_LIMIT && start + 32 + |src| + |src| / 6 <= buf.Length
    modifies buf
    ensures start < end <= start + 32 + |src| + |src| / 6
    ensures buf[..start] == old(buf[..start])
    ensures forall w: Word :: |src| <= MaxInt(w) ==> BlockContents(w, buf[start..end]) == Ok(src)
  {
    hide Run, BlockContents, Uvarint;
    var header := Uvarint(|src|);
    UvarintSize(|src|);
    ghost var pre := buf[..start];
    PutAt(buf, start, header);
    var tagsAt := start + |header|;
    end := EncodeBlocks(buf, tagsAt, src);
    assert buf[..tagsAt] == pre + header;
    assert buf[..start] == buf[..tagsAt][..start] == pre;
    assert buf[start..end] == buf[..tagsAt][start..] + buf[tagsAt..end];
    forall w: Word | |src| <= MaxInt(w)
      ensures BlockContents(w, buf[start..end]) == Ok(src)
    {
      EncodedBlockDecodes(w, src, buf[tagsAt..end]);
    }
  }

  /**
   * Encodes src into dst[off..] where that is large enough, else into a new
   * buffer, and answers the buffer with the range that holds the encoding.
   * Decoding that range, on a machine of either width, gives src again.
   */
  method Encode(w: Word, dst: array<byte>, off: nat, src: seq<byte>)
      returns (r: Result<(array<byte>, nat, nat), Error>)
    requires off <= dst.Length && |src| <= MaxInt(w)
    modifies dst
    ensures r.Err? <==> MaxEncodedLen(w, |src|) < 0
    ensures r.Err? ==> r.error == TooLarge
    ensures r.Ok? ==>
      var (buf, start, end) := r.value;
      && (if MaxEncodedLen(w, |src|) <= dst.Length - off
          then buf == dst && start == off && dst[..off] == old(dst[..off])
          else fresh(buf) && start == 0 && dst[..] == old(dst[..]))
      && start < end <= buf.Length && end - start <= MaxEncodedLen(w, |src|)
      && forall w': Word :: |src| <= MaxInt(w') ==> BlockContents(w', buf[start..end]) == Ok(src)
  {
    hide BlockContents;
    var n := MaxEncodedLen(w, |src|);
    if n < 0 {
      return Err(TooLarge);
    }
    MaxEncodedLenFits(w, |src|);
    var buf, start := dst, off;
    if dst.Length - off < n {
      buf, start := new byte[n], 0;
    }
    var end := EncodeInto(buf, start, src);
    return Ok((buf, start, end));
  }

  /** Decode undoes Encode, for every input that Encode accepts. */
  method EncodeThenDecode(w: Word, src: seq<byte>) returns (out: seq<byte>)
    requires |src| <= MaxInt(w) && MaxEncodedLen(w, |src|) >= 0
    ensures out == src
  {
    var none := new byte[0];
    var encoded := Encode(w, none, 0, src);
    var (buf, start, end) := encoded.value;
    var decoded := Decode(w, none, buf[start..end]);
    out := decoded.value.0[..decoded.value.1];
  }
}
