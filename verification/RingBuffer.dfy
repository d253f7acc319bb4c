/**
 * A fixed-size ring buffer with a second buffer of the same size, into which
 * wrapped contents are copied when they are wanted in one piece. It behaves as
 * a first-in first-out queue of bounded capacity.
 */
module RingBuffer {
  import opened Bytes

  /** The n bytes from position beg on in a buffer of size |buf|, continuing at its start. */
  function Wrapped(buf: seq<byte>, beg: nat, n: nat): (bs: seq<byte>)
    requires beg < |buf| && n <= |buf|
    ensures |bs| == n
  {
    if beg + n <= |buf| then buf[beg..beg + n] else buf[beg..] + buf[..beg + n - |buf|]
  }

  /** A position in a ring of size n. */
  function Around(x: nat, n: nat): (r: nat)
    requires n > 0
  {
    x % n
  }

  lemma AroundOnce(x: nat, n: nat)
    requires n > 0 && x < 2 * n
    ensures Around(x, n) == if x < n then x else x - n
  {
  }

  lemma WrappedAt(buf: seq<byte>, beg: nat, n: nat, i: nat)
    requires beg < |buf| && n <= |buf| && i < n
    ensures Wrapped(buf, beg, n)[i] == buf[if beg + i < |buf| then beg + i else beg + i - |buf|]
  {
  }

  /** The contents in two pieces: up to the end of the buffer, and from its start. */
  lemma TwoPieces(buf: seq<byte>, beg: nat, n: nat, front: nat)
    requires beg < |buf| && n <= |buf| && front == Min(beg + n, |buf|) - beg
    ensures Wrapped(buf, beg, n) == buf[beg..beg + front] + buf[..n - front]
  {
  }

  /** The first k bytes of the contents, or all: in one piece, or in two. */
  lemma WrappedTake(buf: seq<byte>, beg: nat, n: nat, k: nat)
    requires beg < |buf| && n <= |buf|
    ensures beg + n <= |buf| ==> Wrapped(buf, beg, n)[..Min(k, n)] == buf[beg..beg + Min(k, n)]
    ensures beg + n > |buf| ==>
      var m := Min(k, |buf| - beg);
      Wrapped(buf, beg, n)[..Min(k, n)] ==
      buf[beg..beg + m] + if m < k then buf[..Min(k - m, beg + n - |buf|)] else []
  {
    if beg + n > |buf| && k <= |buf| - beg {
      assert Wrapped(buf, beg, n)[..k] == buf[beg..][..k] == buf[beg..beg + k];
    }
  }

  /** Dropping bytes from the front moves the start around the ring. */
  lemma WrappedDrop(buf: seq<byte>, beg: nat, n: nat, k: nat)
    requires beg < |buf| && k <= n <= |buf|
    ensures Around(beg + k, |buf|) < |buf|
    ensures Wrapped(buf, Around(beg + k, |buf|), n - k) == Wrapped(buf, beg, n)[k..]
  {
    hide Around, Wrapped;
    AroundOnce(beg + k, |buf|);
    var beg' := Around(beg + k, |buf|);
    var l, r := Wrapped(buf, beg', n - k), Wrapped(buf, beg, n)[k..];
    forall i | 0 <= i < n - k
      ensures l[i] == r[i]
    {
      WrappedAt(buf, beg', n - k, i);
      WrappedAt(buf, beg, n, k + i);
    }
  }

  /** buf' is buf with `more` written at position at. */
  ghost predicate Written(buf: seq<byte>, buf': seq<byte>, at: nat, more: seq<byte>)
  {
    && |buf| == |buf'| && at + |more| <= |buf| && buf'[at..at + |more|] == more
    && forall i :: 0 <= i < |buf| && !(at <= i < at + |more|) ==> buf'[i] == buf[i]
  }

  /** Writing right behind the contents, without reaching the start again, appends. */
  lemma WrappedAppend(buf: seq<byte>, buf': seq<byte>, beg: nat, n: nat, more: seq<byte>)
    requires beg < |buf| && n + |more| <= |buf| && Written(buf, buf', Around(beg + n, |buf|), more)
    ensures Wrapped(buf', beg, n + |more|) == Wrapped(buf, beg, n) + more
  {
    hide Around, Wrapped;
    AroundOnce(beg + n, |buf|);
    var at := Around(beg + n, |buf|);
    var l, r := Wrapped(buf', beg, n + |more|), Wrapped(buf, beg, n) + more;
    forall i | 0 <= i < n + |more|
      ensures l[i] == r[i]
    {
      WrappedAt(buf', beg, n + |more|, i);
      if i < n {
        WrappedAt(buf, beg, n, i);
      } else {
        assert more[i - n] == buf'[at..at + |more|][i - n];
      }
    }
  }

  /** What a writer does with one write: how much it takes at most, and whether it reports an error. */
  datatype WriteAnswer = WriteAnswer(taken: nat, failed: bool)

  /** How WriteTo ends; Empty is reported as end of file. */
  datatype WriteEnd = Complete | Empty | Short | Failed

  /** How much is taken of two stretches of a and b bytes, of which only b may be empty if a is not. */
  function Taken(a: nat, b: nat, w1: WriteAnswer, w2: WriteAnswer): (r: (nat, WriteEnd))
  {
    var m, m2 := Min(a, w1.taken), Min(b, w2.taken);
    if a == 0 then (0, Empty)
    else if w1.failed then (m, Failed)
    else if m < a then (m, Short)
    else if b == 0 then (a, Complete)
    else (a + m2, if w2.failed then Failed else if m2 < b then Short else Complete)
  }

  /** A write that was made reported an error: the first always is, the second if the first took all of its stretch. */
  predicate Reported(a: nat, b: nat, w1: WriteAnswer, w2: WriteAnswer)
  {
    a > 0 && (w1.failed || (w1.taken >= a && b > 0 && w2.failed))
  }

  /** Empty, failed, short and complete mean just what they say, and only what was offered is taken. */
  lemma TakenEnds(a: nat, b: nat, w1: WriteAnswer, w2: WriteAnswer)
    requires a == 0 ==> b == 0
    ensures var (n, end) := Taken(a, b, w1, w2);
      && (end.Empty? <==> a + b == 0)
      && (end.Failed? <==> Reported(a, b, w1, w2))
      && (end.Complete? <==> 0 < a + b == n && !Reported(a, b, w1, w2))
      && (end.Short? <==> n < a + b && !Reported(a, b, w1, w2))
      && n <= a + b && (n <= a ==> n <= w1.taken) && (n < a ==> n == w1.taken) && (n > a ==> n - a <= w2.taken)
  {
  }

  class FixedSizeRingBuf {
    var first: array<byte>
    var second: array<byte>
    var use: nat
    var N: nat
    var beg: nat
    var readable: nat
    var oneMade: bool

    ghost predicate Valid()
      reads this
    {
      && 0 < N && first.Length == N && beg < N && readable <= N
      && (oneMade ==> second.Length == N && second != first)
      && (use == 0 || (use == 1 && oneMade))
    }

    function Active(): (buf: array<byte>)
      reads this
    {
      if use == 0 then first else second
    }

    /** The queue this buffer is. */
    ghost function Contents(): (bs: seq<byte>)
      requires Valid()
      reads this, first, second
      ensures |bs| == readable
    {
      Wrapped(Active()[..], beg, readable)
    }

    constructor (maxViewInBytes: nat)
      requires maxViewInBytes > 0
      ensures Valid() && Contents() == [] && N == maxViewInBytes && fresh(first) && fresh(second)
    {
      first := new byte[maxViewInBytes];
      second := new byte[0];
      N, use, beg, readable, oneMade := maxViewInBytes, 0, 0, 0, false;
    }

    /** How much can be read without wrapping. */
    function ContigLen(): (n: nat)
      requires Valid()
      reads this
      ensures n <= readable && beg + n <= N && (n < readable ==> beg + n == N)
    {
      Min(beg + readable, N) - beg
    }

    /** The contents in one piece, copied into the other buffer if they wrap; the queue stays the same. */
    method Bytes() returns (bs: seq<byte>)
      requires Valid()
      modifies this`second, this`oneMade, this`use, this`beg, first, second
      ensures Valid() && bs == old(Contents()) && Contents() == old(Contents())
      ensures N == old(N) && beg + readable <= N && bs == Active()[beg..beg + readable]
      ensures first == old(first) && (second == old(second) || fresh(second))
    {
      hide Wrapped;
      var front := ContigLen();
      ghost var all := Contents();
      TwoPieces(Active()[..], beg, readable, front);
      if beg + readable <= N {
        bs := Active()[beg..beg + readable];
        assert Active()[..][beg..beg + front] == bs && Active()[..][..0] == [];
        return;
      }
      Make2ndBuffer();
      bs := Linearise();
    }

    /** Copies wrapped contents into the other buffer, where they start at the front. */
    method Linearise() returns (bs: seq<byte>)
      requires Valid() && oneMade && beg + readable > N
      modifies this`use, this`beg, first, second
      ensures Valid() && bs == old(Contents()) && beg == 0
      ensures Contents() == bs && bs == Active()[0..readable]
    {
      hide Wrapped;
      var src := Active();
      var dest := if use == 0 then second else first;
      TwoPieces(src[..], beg, readable, N - beg);
      var a, b := src[beg..], src[..beg + readable - N];
      assert src[..][beg..N] == a && src[..][..beg + readable - N] == b;
      CopyBoth(dest, a, b);
      bs := dest[..readable];
      use, beg := 1 - use, 0;
      TwoPieces(dest[..], 0, readable, readable);
      assert dest[..][0..readable] == bs == dest[0..readable];
      assert bs + dest[..][..0] == bs;
    }

    static method CopyBoth(dest: array<byte>, a: seq<byte>, b: seq<byte>)
      requires |a| + |b| <= dest.Length
      modifies dest
      ensures dest[..|a| + |b|] == a + b
    {
      PutAt(dest, 0, a);
      PutAt(dest, |a|, b);
    }

    method Make2ndBuffer()
      requires Valid()
      modifies this`second, this`oneMade
      ensures Valid() && oneMade && (second == old(second) || fresh(second))
      ensures Active() == old(Active()) && Contents() == old(Contents())
    {
      if oneMade {
        return;
      }
      second := new byte[N];
      oneMade := true;
    }

    /** Read into a buffer of k bytes, keeping what was read if doAdvance is false. */
    method ReadAndMaybeAdvance(k: nat, doAdvance: bool) returns (data: seq<byte>, eof: bool)
      requires Valid()
      modifies this`beg, this`readable
      ensures Valid()
      ensures data == old(Contents())[..Min(k, |old(Contents())|)]
      ensures eof <==> k > 0 && old(Contents()) == []
      ensures Contents() == if doAdvance then old(Contents())[|data|..] else old(Contents())
    {
      hide Wrapped;
      data, eof := [], false;
      if k == 0 {
        return;
      }
      if readable == 0 {
        return [], true;
      }
      data := Peek(k);
      if doAdvance {
        Advance(|data|);
      }
    }

    /** The copy of a read: up to the end of the buffer, and on from its start if there is room. */
    method Peek(k: nat) returns (data: seq<byte>)
      requires Valid()
      ensures data == Contents()[..Min(k, readable)]
    {
      hide Wrapped;
      var extent := beg + readable;
      var buf := Active();
      ghost var s := buf[..];
      WrappedTake(s, beg, readable, k);
      if extent <= N {
        data := buf[beg..beg + Min(k, readable)];
        assert data == s[beg..beg + Min(k, readable)];
      } else {
        var n := Min(k, N - beg);
        data := buf[beg..beg + n];
        assert data == s[beg..beg + n];
        AroundOnce(extent, N);
        if n < k {
          var n2 := Min(k - n, Around(extent, N));
          data := data + buf[..n2];
          assert buf[..n2] == s[..n2];
        }
      }
    }

    /** Drops n bytes from the front, or all if there are fewer; a negative n drops nothing. */
    method Advance(n: int)
      requires Valid()
      modifies this`beg, this`readable
      ensures Valid() && Contents() == old(Contents())[Min(if n > 0 then n else 0, |old(Contents())|)..]
      ensures 0 < n <= old(readable) ==> beg == Around(old(beg) + n, N)
      ensures n <= 0 ==> beg == old(beg)
    {
      hide Wrapped, Around;
      if n <= 0 {
        return;
      }
      var k := Min(n, readable);
      WrappedDrop(Active()[..], beg, readable, k);
      readable := readable - k;
      beg := Around(beg + k, N);
    }

    /** Appends as much of p as fits; short exactly when that is not all. */
    method Write(p: seq<byte>) returns (n: nat, short: bool)
      requires Valid()
      modifies this`readable, first, second
      ensures Valid() && n == Min(|p|, N - old(readable))
      ensures Contents() == old(Contents()) + p[..n]
      ensures short <==> n < |p|
    {
      hide Wrapped;
      n, short := 0, false;
      assert Contents() == old(Contents()) + p[..0];
      while n < |p|
        invariant Valid() && n <= |p| && readable == old(readable) + n
        invariant Contents() == old(Contents()) + p[..n]
        invariant short <==> |p| > N - old(readable) && n > 0
        decreases |p| - n
      {
        var writeCapacity := N - readable;
        if writeCapacity <= 0 {
          short := true;
          return;
        }
        if |p| - n > writeCapacity {
          short := true;
        }
        var k := WriteOnce(p[n..]);
        assert p[..n] + p[n..][..k] == p[..n + k];
        n := n + k;
      }
    }

    /** One copy of Write or ReadFrom: up to the end of the free space or of the buffer. */
    method WriteOnce(p: seq<byte>) returns (k: nat)
      requires Valid() && |p| > 0 && readable < N
      modifies this`readable, first, second
      ensures Valid() && 0 < k <= |p| && readable == old(readable) + k
      ensures Contents() == old(Contents()) + p[..k]
    {
      hide Wrapped, Around;
      var buf := Active();
      AroundOnce(beg + readable, N);
      var writeStart := Around(beg + readable, N);
      var upperLim := Min(writeStart + (N - readable), N);
      k := Min(upperLim - writeStart, |p|);
      ghost var before := buf[..];
      PutAt(buf, writeStart, p[..k]);
      assert Written(before, buf[..], writeStart, p[..k]) by {
        WrittenBy(before, buf[..], writeStart, p[..k]);
      }
      WrappedAppend(before, buf[..], beg, readable, p[..k]);
      readable := readable + k;
    }

    static lemma WrittenBy(before: seq<byte>, now: seq<byte>, at: nat, more: seq<byte>)
      requires |before| == |now| && at + |more| <= |before| && now[..at + |more|] == before[..at] + more
      requires forall i :: at + |more| <= i < |before| ==> now[i] == before[i]
      ensures Written(before, now, at, more)
    {
      var front := now[..at + |more|];
      assert now[at..at + |more|] == front[at..] == more;
      forall i | 0 <= i < at ensures now[i] == before[i] {
        assert now[i] == front[i] == before[..at][i];
      }
    }

    /**
     * ReadFrom a source that hands out its bytes in reads of sizes of its own, at most
     * chunk(n) after n bytes, and then ends, or fails: in the read that gives its last
     * bytes (withLast), or in one after it. It stops when the buffer is full, so that a
     * later failure goes unnoticed.
     */
    method ReadFrom(source: seq<byte>, chunk: nat -> nat, fails: bool, withLast: bool)
        returns (n: nat, failed: bool)
      requires Valid() && forall i :: chunk(i) > 0
      modifies this`readable, first, second
      ensures Valid() && n == Min(|source|, N - old(readable))
      ensures Contents() == old(Contents()) + source[..n]
      ensures failed <==>
        fails && n == |source| && (old(readable) + n < N || (withLast && n > 0))
    {
      hide Wrapped;
      n := 0;
      assert Contents() == old(Contents()) + source[..0];
      while true
        invariant Valid() && n <= |source| && readable == old(readable) + n
        invariant Contents() == old(Contents()) + source[..n]
        invariant fails && withLast && n > 0 ==> n < |source|
        decreases |source| - n
      {
        if readable == N {
          return n, false;
        }
        if n == |source| {
          return n, fails;
        }
        var offered := source[n..Min(n + chunk(n), |source|)];
        var k := WriteOnce(offered);
        assert source[..n] + offered[..k] == source[..n + k];
        n := n + k;
        if n == |source| && fails && withLast {
          return n, true;
        }
      }
    }

    /** WriteTo: what the writer took leaves the queue, in whatever way it ended. */
    method WriteTo(w1: WriteAnswer, w2: WriteAnswer) returns (out: seq<byte>, r: WriteEnd)
      requires Valid()
      modifies this`beg, this`readable
      ensures Valid() && old(Contents()) == out + Contents()
      ensures (|out|, r) == Taken(old(ContigLen()), old(readable) - old(ContigLen()), w1, w2)
    {
      hide Wrapped;
      ghost var all := Contents();
      if readable == 0 {
        return [], Empty;
      }
      var firstWriteLen := ContigLen();
      var secondWriteLen := readable - firstWriteLen;
      var m := Min(firstWriteLen, w1.taken);
      out := Drain(m);
      if w1.failed {
        return out, Failed;
      }
      if m != firstWriteLen {
        return out, Short;
      }
      if secondWriteLen > 0 {
        var m2 := Min(secondWriteLen, w2.taken);
        var more := Drain(m2);
        InThree(all, m, m2);
        out := out + more;
        if w2.failed {
          return out, Failed;
        }
        if m2 != secondWriteLen {
          return out, Short;
        }
      }
      r := Complete;
    }

    /** One write of WriteTo, of a stretch that does not wrap: what was taken leaves the queue. */
    method Drain(m: nat) returns (out: seq<byte>)
      requires Valid() && m <= ContigLen()
      modifies this`beg, this`readable
      ensures Valid() && out == old(Contents())[..m] && Contents() == old(Contents())[m..]
      ensures m == old(ContigLen()) && m < old(readable) ==> beg == 0 && ContigLen() == readable
    {
      hide Wrapped, Around;
      TwoPieces(Active()[..], beg, readable, ContigLen());
      out := Active()[beg..beg + m];
      ghost var buf := Active()[..];
      assert Contents()[..m] == buf[beg..beg + ContigLen()][..m] == buf[beg..beg + m] == out;
      AroundOnce(beg + m, N);
      AroundOnce(beg, N);
      Advance(m);
    }

    static lemma InThree(all: seq<byte>, m: nat, m2: nat)
      requires m + m2 <= |all|
      ensures all == all[..m] + all[m..][..m2] + all[m..][m2..]
    {
    }

    /** Forgets the contents. */
    method Reset()
      requires Valid()
      modifies this`beg, this`readable, this`use
      ensures Valid() && Contents() == []
    {
      beg, readable, use := 0, 0, 0;
    }

    /**
     * Takes over a slice that is larger than the buffer, else copies it in, even if it is
     * one of the two buffers; either way it is the contents.
     */
    method Adopt(me: array<byte>)
      requires Valid()
      modifies this, first
      ensures Valid() && Contents() == old(me[..]) && N == (if me.Length > old(N) then me.Length else old(N))
      ensures first == if me.Length > old(N) then me else old(first)
    {
      var n := me.Length;
      if n > N {
        first, oneMade, N := me, false, n;
      } else {
        PutAt(first, 0, me[..]);
      }
      use, beg, readable := 0, 0, n;
      assert first[..][0..n] == first[..n] == old(me[..]);
    }

    /** Position i of the active buffer holds a readable byte. */
    ghost predicate Holds(i: nat)
      requires Valid()
      reads this
    {
      i < N && (if i >= beg then i - beg else i + N - beg) < readable
    }

    /** Where the last free stretch of the active buffer lies: no byte of it is readable. */
    method GetEndmostWritable() returns (from: nat, to: nat)
      requires Valid()
      ensures from <= to <= N && forall i :: from <= i < to ==> !Holds(i)
      ensures readable < N ==> from == Around(beg + readable, N) && from < to
      ensures readable == N ==> from == to
    {
      hide Around;
      var extent := beg + readable;
      AroundOnce(extent, N);
      if extent < N {
        return extent, N;
      }
      return Around(extent, N), beg;
    }

    /** The positions that hold readable bytes are those the contents are made of. */
    lemma HoldsContents(i: nat)
      requires Valid() && i < readable
      ensures Holds(Around(beg + i, N)) && Contents()[i] == Active()[Around(beg + i, N)]
    {
      hide Around, Wrapped;
      AroundOnce(beg + i, N);
      WrappedAt(Active()[..], beg, readable, i);
    }
  }
}
