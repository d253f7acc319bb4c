/**
 * The framed Writer and Reader as objects. The Writer's abstract value is all
 * the data it accepted; the Reader's is what is still to be read.
 */
module SnappyStream {
  import opened Bytes
  import opened SnappyFormat
  import opened SnappyDecode
  import opened SnappyFraming
  import SnappyEncode

  /** The underlying io.Writer: it may have room for only so many bytes more. */
  class Sink {
    var data: seq<byte>
    var room: Option<nat>

    constructor (room: Option<nat>)
      ensures data == [] && this.room == room
    {
      data := [];
      this.room := room;
    }

    method Write(p: seq<byte>) returns (ok: bool)
      modifies this
      ensures ok <==> old(room).None? || |p| <= old(room).value
      ensures ok ==> data == old(data) + p
      ensures !ok ==> data == old(data) + p[..old(room).value]
      ensures old(room).None? <==> room.None?
    {
      ok := room.None? || |p| <= room.value;
      if ok {
        data := data + p;
        room := if room.None? then None else Some(room.value - |p|);
      } else {
        data := data + p[..room.value];
        room := Some(0);
      }
    }
  }

  lemma RegroupMiddle<T>(a: seq<T>, b: seq<T>, c: seq<T>, d: seq<T>)
    ensures a + (b + c) + d == a + b + (c + d)
  {
  }

  lemma SplitFront<T>(front: seq<T>, rest: seq<T>, n: nat)
    requires n <= |front|
    ensures front[..n] <= front + rest && (front + rest)[n..] == front[n..] + rest
  {
  }

  lemma TakeFront<T>(taken: seq<T>, all: seq<T>, more: seq<T>)
    requires more <= all
    ensures taken + all == taken + more + all[|more|..]
  {
    assert all == more + all[|more|..];
  }

  datatype WriterError = SinkFailed | Closed

  class Writer {
    const env: Env
    const buffered: bool
    var sink: Sink
    var err: Option<WriterError>
    var ibuf: seq<byte>
    const obuf: array<byte>
    var wroteStreamHeader: bool

    /** Unless the sink failed, it holds a complete stream, with its identifier iff non-empty. */
    ghost predicate Valid()
      reads this, sink
    {
      && obuf.Length == OBUF_LEN
      && |ibuf| <= MAX_BLOCK_SIZE && (!buffered ==> ibuf == [])
      && (err != Some(SinkFailed) ==>
            && Unframe(env, sink.data, false).end == EndOfStream
            && (wroteStreamHeader <==> sink.data != []))
    }

    /** All data accepted so far: what a reader of the sink would get, then what is buffered. */
    ghost function Contents(): (s: seq<byte>)
      reads this, sink
    {
      Unframe(env, sink.data, false).data + ibuf
    }

    constructor (env: Env, sink: Sink, buffered: bool)
      requires sink.data == []
      ensures Valid() && this.sink == sink && this.env == env && this.buffered == buffered
      ensures Contents() == [] && err.None? && ibuf == [] && fresh(obuf)
    {
      this.env, this.sink, this.buffered := env, sink, buffered;
      err, ibuf, wroteStreamHeader := None, [], false;
      obuf := new byte[OBUF_LEN];
    }

    /** Discards the state and switches to another sink. */
    method Reset(writer: Sink)
      requires Valid() && writer.data == []
      modifies this
      ensures Valid() && sink == writer && err.None? && Contents() == [] && ibuf == []
    {
      sink, err, ibuf, wroteStreamHeader := writer, None, [], false;
    }

    /** Compresses one block in place in obuf and frames it, or frames it as it is. */
    method FillBuffer(block: seq<byte>) returns (end: nat, plain: bool, ghost compressed: seq<byte>)
      requires obuf.Length == OBUF_LEN && 1 <= |block| <= MAX_BLOCK_SIZE
      modifies obuf
      ensures OBUF_HEADER_LEN <= end <= OBUF_LEN
      ensures obuf[..10] == old(obuf[..10])
      ensures var frame := obuf[10..end] + if plain then block else [];
        ReadChunk(env, frame, true) == Data(block, |frame|)
      ensures BlockContents(env.w, compressed) == Ok(block)
      ensures plain <==> |compressed| >= |block| - |block| / 8
      ensures if plain then end == OBUF_HEADER_LEN else obuf[OBUF_HEADER_LEN..end] == compressed
    {
      hide ReadChunk, BlockContents, ChunkBytes;
      var stop := Compress(block);
      compressed := obuf[OBUF_HEADER_LEN..stop];
      plain := stop - OBUF_HEADER_LEN >= |block| - |block| / 8;
      end := if plain then OBUF_HEADER_LEN else stop;
      ghost var body := if plain then block else compressed;
      var chunkType: byte := if plain then UNCOMPRESSED_DATA else COMPRESSED_DATA;
      var chunkLen := CHECKSUM_SIZE + if plain then |block| else stop - OBUF_HEADER_LEN;
      PutHeader(chunkType, chunkLen, env.crc(block));
      assert obuf[OBUF_HEADER_LEN..stop] == compressed;
      ChunkReadsBack(env, block, chunkType, body, true);
      assert obuf[10..end] == obuf[10..18] + obuf[18..end];
      ChunkIs(chunkType, env.crc(block), obuf[10..18], obuf[18..end], if plain then block else []);
      assert obuf[18..end] + (if plain then block else []) == body;
    }

    /** A header and, after it, what is in the buffer and what is not. */
    static lemma ChunkIs(chunkType: byte, checksum: u32, head: seq<byte>, a: seq<byte>, b: seq<byte>)
      requires head == [chunkType] + ToLE(CHECKSUM_SIZE + |a + b|, 3) + ToLE(checksum, 4)
      ensures head + a + b == ChunkBytes(chunkType, checksum, a + b)
    {
      hide ToLE;
      assert head + a + b == head + (a + b);
    }

    /** Compresses one block behind the place of the header; the buffer is large enough for any. */
    method Compress(block: seq<byte>) returns (stop: nat)
      requires obuf.Length == OBUF_LEN && 1 <= |block| <= MAX_BLOCK_SIZE
      modifies obuf
      ensures OBUF_HEADER_LEN <= stop <= OBUF_LEN && obuf[..10] == old(obuf[..10])
      ensures BlockContents(env.w, obuf[OBUF_HEADER_LEN..stop]) == Ok(block)
    {
      hide BlockContents;
      var encoded := SnappyEncode.Encode(env.w, obuf, OBUF_HEADER_LEN, block);
      stop := encoded.value.2;
      assert obuf[..10] == obuf[..18][..10];
    }

    /** The per-chunk header that comes before the body. */
    method PutHeader(chunkType: byte, chunkLen: nat, checksum: u32)
      requires obuf.Length == OBUF_LEN
      modifies obuf
      ensures obuf[..10] == old(obuf[..10])
      ensures obuf[10..18] == [chunkType] + ToLE(chunkLen, 3) + ToLE(checksum, 4)
      ensures forall i :: 18 <= i < OBUF_LEN ==> obuf[i] == old(obuf[i])
    {
      hide ToLE;
      var head := [chunkType] + ToLE(chunkLen, 3) + ToLE(checksum, 4);
      PutAt(obuf, 10, head);
      assert obuf[..10] == obuf[..18][..10];
      assert obuf[10..18] == obuf[..18][10..];
    }

    /** Puts the stream identifier in front of the first frame; returns where to send from. */
    method StartFrame() returns (obufStart: nat)
      requires obuf.Length == OBUF_LEN
      modifies this`wroteStreamHeader, obuf
      ensures obufStart <= 10 && wroteStreamHeader
      ensures obuf[obufStart..10] == if old(wroteStreamHeader) then [] else MAGIC_CHUNK
    {
      obufStart := |MAGIC_CHUNK|;
      if !wroteStreamHeader {
        wroteStreamHeader := true;
        PutAt(obuf, 0, MAGIC_CHUNK);
        assert obuf[0..10] == obuf[..10];
        obufStart := 0;
      }
    }

    /** One round of write: frames one block and sends it, after the identifier if it is the first. */
    method WriteBlock(block: seq<byte>)
      requires Valid() && err.None? && 1 <= |block| <= MAX_BLOCK_SIZE
      modifies this`err, this`wroteStreamHeader, sink, obuf
      ensures Valid() && (err.None? || err == Some(SinkFailed))
      ensures old(sink.room).None? ==> err.None? && sink.room.None?
      ensures err.None? ==>
        Unframe(env, sink.data, false).data == old(Unframe(env, sink.data, false).data) + block
    {
      hide ReadChunk, Unframe, MAGIC_CHUNK;
      ghost var stream := sink.data;
      var obufStart, end, plain := PrepareFrame(block);
      ghost var start := if stream == [] then MAGIC_CHUNK else [];
      var tail := if plain then block else [];
      ghost var head := obuf[10..end];
      AppendFrame(env, stream, head + tail, block);
      Send(obuf[obufStart..end], tail);
      RegroupMiddle(stream, start, head, tail);
    }

    /** Lays out in obuf what is to be sent for a block. */
    method PrepareFrame(block: seq<byte>) returns (obufStart: nat, end: nat, plain: bool)
      requires obuf.Length == OBUF_LEN && 1 <= |block| <= MAX_BLOCK_SIZE
      modifies this`wroteStreamHeader, obuf
      ensures obufStart <= 10 <= end <= OBUF_LEN && wroteStreamHeader
      ensures obuf[obufStart..end] == (if old(wroteStreamHeader) then [] else MAGIC_CHUNK) + obuf[10..end]
      ensures var frame := obuf[10..end] + if plain then block else [];
        ReadChunk(env, frame, true) == Data(block, |frame|)
    {
      hide ReadChunk;
      obufStart := StartFrame();
      ghost var start := obuf[obufStart..10];
      assert start == obuf[..10][obufStart..];
      ghost var compressed;
      end, plain, compressed := FillBuffer(block);
      assert start == obuf[..10][obufStart..] == obuf[obufStart..10];
      assert obuf[obufStart..end] == obuf[obufStart..10] + obuf[10..end];
    }

    /** Sends the filled buffer and, after it, a block that is not in it. */
    method Send(head: seq<byte>, block: seq<byte>)
      requires err.None?
      modifies this`err, sink
      ensures err.None? || err == Some(SinkFailed)
      ensures old(sink.room).None? ==> err.None? && sink.room.None?
      ensures err.None? ==> sink.data == old(sink.data) + head + block
    {
      var ok := sink.Write(head);
      if ok && block != [] {
        ok := sink.Write(block);
      }
      if !ok {
        err := Some(SinkFailed);
      }
    }

    /** write: sends p, block after block, and counts the bytes of the blocks sent. */
    method WriteUnbuffered(p: seq<byte>) returns (nRet: nat, errRet: Option<WriterError>)
      requires Valid()
      modifies this`err, this`wroteStreamHeader, sink, obuf
      ensures Valid() && errRet == err && nRet <= |p|
      ensures old(err).Some? ==> err == old(err) && nRet == 0 && sink.data == old(sink.data)
      ensures old(err).None? ==> err.None? || err == Some(SinkFailed)
      ensures old(err).None? && old(sink.room).None? ==> err.None? && sink.room.None?
      ensures err.None? ==> nRet == |p|
      ensures err.None? ==>
        Unframe(env, sink.data, false).data == old(Unframe(env, sink.data, false).data) + p
    {
      hide Unframe;
      nRet := 0;
      if err.Some? {
        return 0, err;
      }
      ghost var before := Unframe(env, sink.data, false).data;
      assert before + p[..0] == before;
      while nRet < |p|
        invariant Valid() && err.None? && nRet <= |p|
        invariant old(sink.room).None? ==> sink.room.None?
        invariant Unframe(env, sink.data, false).data == before + p[..nRet]
      {
        var next := if |p| - nRet > MAX_BLOCK_SIZE then nRet + MAX_BLOCK_SIZE else |p|;
        WriteBlock(p[nRet..next]);
        if err.Some? {
          return nRet, err;
        }
        assert before + p[..nRet] + p[nRet..next] == before + p[..next];
        nRet := next;
      }
      assert p[..nRet] == p;
      return nRet, None;
    }

    /** Flush: sends what is buffered. */
    method Flush() returns (ret: Option<WriterError>)
      requires Valid()
      modifies this`err, this`ibuf, this`wroteStreamHeader, sink, obuf
      ensures Valid() && ret == err
      ensures old(err).Some? ==> err == old(err) && ibuf == old(ibuf) && sink.data == old(sink.data)
      ensures old(err).None? ==> (err.None? || err == Some(SinkFailed)) && ibuf == []
      ensures old(err).None? && old(sink.room).None? ==> err.None? && sink.room.None?
      ensures err.None? ==> Contents() == old(Contents())
    {
      hide Unframe;
      if err.Some? || |ibuf| == 0 {
        return err;
      }
      var n, e := WriteUnbuffered(ibuf);
      ibuf := [];
      return err;
    }

    /**
     * One round of Write, for a rest that does not fit the buffer: sends it
     * directly if the buffer is empty, else fills the buffer up and flushes it.
     */
    method WriteSome(rest: seq<byte>) returns (n: nat)
      requires Valid() && buffered && err.None? && |rest| > MAX_BLOCK_SIZE - |ibuf|
      modifies this`err, this`ibuf, this`wroteStreamHeader, sink, obuf
      ensures Valid() && n <= |rest| && (err.None? || err == Some(SinkFailed))
      ensures old(sink.room).None? ==> err.None? && sink.room.None?
      ensures err.None? ==> Contents() == old(Contents()) + rest[..n]
      ensures err.None? ==> n > 0 || |ibuf| < |old(ibuf)|
    {
      hide Unframe;
      ghost var all := Contents();
      if |ibuf| == 0 {
        var sent, _ := WriteUnbuffered(rest);
        n := sent;
        assert err.None? ==> rest[..n] == rest;
      } else {
        n := MAX_BLOCK_SIZE - |ibuf|;
        ibuf := ibuf + rest[..n];
        assert Contents() == all + rest[..n];
        var _ := Flush();
      }
    }

    /** Write: buffers p if it fits, sending full blocks as they come. */
    method Write(p: seq<byte>) returns (nRet: nat, errRet: Option<WriterError>)
      requires Valid()
      modifies this`err, this`ibuf, this`wroteStreamHeader, sink, obuf
      ensures Valid() && errRet == err && nRet <= |p|
      ensures old(err).Some? ==> err == old(err) && nRet == 0 && ibuf == old(ibuf) && sink.data == old(sink.data)
      ensures old(err).None? ==> err.None? || err == Some(SinkFailed)
      ensures old(err).None? && old(sink.room).None? ==> err.None? && sink.room.None?
      ensures err.None? ==> nRet == |p| && Contents() == old(Contents()) + p
    {
      hide Unframe;
      nRet := 0;
      if !buffered {
        nRet, errRet := WriteUnbuffered(p);
        return;
      }
      if err.Some? {
        return 0, err;
      }
      ghost var all := Contents();
      nRet := WriteBlocks(p, all);
      if err.Some? {
        return nRet, err;
      }
      ibuf := ibuf + p[nRet..];
      assert all + p[..nRet] + p[nRet..] == all + p;
      return |p|, None;
    }

    /** The loop of Write: full blocks go out until the rest fits the buffer. */
    method WriteBlocks(p: seq<byte>, ghost all: seq<byte>) returns (nRet: nat)
      requires Valid() && buffered && err.None? && all == Contents()
      modifies this`err, this`ibuf, this`wroteStreamHeader, sink, obuf
      ensures Valid() && nRet <= |p| && (err.None? || err == Some(SinkFailed))
      ensures old(sink.room).None? ==> err.None? && sink.room.None?
      ensures err.None? ==> Contents() == all + p[..nRet] && |p| - nRet <= MAX_BLOCK_SIZE - |ibuf|
    {
      hide Unframe;
      nRet := 0;
      assert all + p[..0] == all;
      while |p| - nRet > MAX_BLOCK_SIZE - |ibuf| && err.None?
        invariant Valid() && nRet <= |p| && (err.None? || err == Some(SinkFailed))
        invariant old(sink.room).None? ==> err.None? && sink.room.None?
        invariant err.None? ==> Contents() == all + p[..nRet]
        decreases if err.None? then 1 else 0, |p| - nRet, |ibuf|
      {
        var n := WriteSome(p[nRet..]);
        assert p[nRet..][..n] == p[nRet..nRet + n];
        assert p[..nRet] + p[nRet..nRet + n] == p[..nRet + n];
        assert all + p[..nRet] + p[nRet..nRet + n] == all + p[..nRet + n];
        nRet := nRet + n;
      }
    }

    /** Close: flushes, and makes every later call fail. */
    method Close() returns (ret: Option<WriterError>)
      requires Valid()
      modifies this`err, this`ibuf, this`wroteStreamHeader, sink, obuf
      ensures Valid() && err.Some?
      ensures old(err).Some? ==>
        ret == err == old(err) && ibuf == old(ibuf) && sink.data == old(sink.data)
      ensures old(err).None? && old(sink.room).None? ==> ret.None? && err == Some(Closed)
      ensures old(err).None? && ret.Some? ==> ret == err == Some(SinkFailed)
      ensures old(err).None? && ret.None? ==>
        err == Some(Closed) && ibuf == [] && Unframe(env, sink.data, false).data == old(Contents())
    {
      hide Unframe;
      var _ := Flush();
      ret := err;
      if err.None? {
        assert Contents() == Unframe(env, sink.data, false).data;
        err := Some(Closed);
      }
    }
  }

  class Reader {
    const env: Env
    const input: seq<byte>
    var pos: nat
    var err: Option<ReadError>
    const decoded: array<byte>
    const buf: array<byte>
    var i: nat
    var j: nat
    var readHeader: bool

    ghost predicate Valid()
      reads this
    {
      && decoded.Length == MAX_BLOCK_SIZE && buf.Length == READ_BUF_LEN
      && pos <= |input| && i <= j <= MAX_BLOCK_SIZE
    }

    /** All that is still to be read: the data, and the error that comes after it. */
    ghost function Pending(): (s: Stream)
      requires Valid()
      reads this, decoded
    {
      if err.Some? then Stream([], err.value)
      else
        var rest := Unframe(env, input[pos..], readHeader);
        Stream(decoded[i..j] + rest.data, rest.end)
    }

    constructor (env: Env, input: seq<byte>)
      ensures Valid() && Pending() == Unframe(env, input, false)
      ensures this.env == env && this.input == input && fresh(decoded) && fresh(buf)
    {
      this.env, this.input, pos, err := env, input, 0, None;
      i, j, readHeader := 0, 0, false;
      decoded := new byte[MAX_BLOCK_SIZE];
      buf := new byte[READ_BUF_LEN];
      new;
      assert input[0..] == input && decoded[0..0] == [];
    }

    /** io.ReadFull into the front of a buffer, with the end of input turned into an error. */
    method ReadFull(into: array<byte>, n: nat, allowEOF: bool) returns (ok: bool)
      requires Valid() && n <= into.Length
      modifies this`pos, this`err, into
      ensures Valid()
      ensures ok <==> n <= |input| - old(pos)
      ensures ok ==> err.None? && pos == old(pos) + n && into[..n] == input[old(pos)..pos]
      ensures !ok ==> err == Some(if allowEOF && old(pos) == |input| then EndOfStream else Corrupted)
    {
      if n <= |input| - pos {
        PutAt(into, 0, input[pos..pos + n]);
        pos, err := pos + n, None;
        return true;
      }
      err := Some(if allowEOF && pos == |input| then EndOfStream else Corrupted);
      pos := |input|;
      return false;
    }

    /** What a fetch of chunk c must leave behind, where it started at position from. */
    ghost predicate Fetched(c: Chunk, from: nat)
      requires Valid()
      reads this, decoded
    {
      match c
      case Fail(e) => err == Some(e)
      case Skip(size) => err.None? && i == j && pos == from + size
      case Data(payload, size) => err.None? && decoded[i..j] == payload && pos == from + size
    }

    /** Compressed data, its four header bytes already read. */
    method FetchCompressed(chunkLen: nat)
      requires Valid() && err.None? && i == j && 4 <= pos && chunkLen <= READ_BUF_LEN
      modifies this`pos, this`err, this`i, this`j, decoded, buf
      ensures Valid() && Fetched(CompressedChunk(env, input[old(pos)..], chunkLen), old(pos) - 4)
    {
      hide BlockContents, DecodedLen, FromLE;
      ghost var body := input[pos..];
      if chunkLen < CHECKSUM_SIZE {
        err := Some(Corrupted);
        return;
      }
      var ok := ReadFull(buf, chunkLen, false);
      if !ok {
        return;
      }
      var got := buf[..chunkLen];
      var checksum := FromLE(got[..CHECKSUM_SIZE]);
      var block := got[CHECKSUM_SIZE..];
      assert got == body[..chunkLen] && block == body[CHECKSUM_SIZE..chunkLen];
      assert got[..CHECKSUM_SIZE] == body[..CHECKSUM_SIZE];
      var header := DecodedLen(env.w, block);
      if header.Err? {
        err := Some(InBlock(header.error));
        return;
      }
      var n := header.value.0;
      if n > MAX_BLOCK_SIZE {
        err := Some(Corrupted);
        return;
      }
      FetchBlock(block, checksum);
    }

    /** Decodes a block straight into the decoded buffer and checks it. */
    method FetchBlock(block: seq<byte>, checksum: nat)
      requires Valid() && err.None? && i == j
      requires DecodedLen(env.w, block).Ok? && DecodedLen(env.w, block).value.0 <= MAX_BLOCK_SIZE
      modifies this`err, this`i, this`j, decoded
      ensures Valid()
      ensures match BlockContents(env.w, block)
        case Err(e) => err == Some(InBlock(e))
        case Ok(data) =>
          if env.crc(data) != checksum then err == Some(Corrupted) else err.None? && decoded[i..j] == data
    {
      hide Interpret, DecodedLen;
      var result := Decode(env.w, decoded, block);
      if result.Err? {
        err := Some(InBlock(result.error));
        return;
      }
      var n := result.value.1;
      BlockContentsIffTags(env.w, block, result.value.0[..n]);
      if env.crc(decoded[..n]) != checksum {
        err := Some(Corrupted);
        return;
      }
      i, j := 0, n;
      assert decoded[0..n] == decoded[..n];
    }

    /** Plain data, read straight into the decoded buffer. */
    method FetchUncompressed(chunkLen: nat)
      requires Valid() && err.None? && i == j && 4 <= pos && chunkLen <= READ_BUF_LEN
      modifies this`pos, this`err, this`i, this`j, decoded, buf
      ensures Valid() && Fetched(UncompressedChunk(env, input[old(pos)..], chunkLen), old(pos) - 4)
    {
      hide FromLE;
      ghost var body := input[pos..];
      if chunkLen < CHECKSUM_SIZE {
        err := Some(Corrupted);
        return;
      }
      var ok := ReadFull(buf, CHECKSUM_SIZE, false);
      if !ok {
        return;
      }
      var checksum := FromLE(buf[..CHECKSUM_SIZE]);
      assert buf[..CHECKSUM_SIZE] == body[..CHECKSUM_SIZE];
      var n := chunkLen - CHECKSUM_SIZE;
      if n > MAX_BLOCK_SIZE {
        err := Some(Corrupted);
        return;
      }
      ok := ReadFull(decoded, n, false);
      if !ok {
        return;
      }
      assert decoded[..n] == body[CHECKSUM_SIZE..chunkLen];
      if env.crc(decoded[..n]) != checksum {
        err := Some(Corrupted);
        return;
      }
      i, j := 0, n;
      assert decoded[0..n] == decoded[..n];
    }

    /** The stream identifier, or a chunk to skip; both only move the position. */
    method FetchOther(chunkType: byte, chunkLen: nat)
      requires Valid() && err.None? && i == j && 4 <= pos && chunkLen <= READ_BUF_LEN
      requires chunkType != COMPRESSED_DATA && chunkType != UNCOMPRESSED_DATA
      modifies this`pos, this`err, buf
      ensures Valid()
      ensures var body := input[old(pos)..];
        var c :=
          if chunkType == STREAM_IDENTIFIER then
            if chunkLen == |MAGIC_BODY| && MAGIC_BODY <= body then Skip(4 + chunkLen) else Fail(Corrupted)
          else if chunkType <= 0x7f then Fail(Unsupported)
          else if |body| < chunkLen then Fail(Corrupted)
          else Skip(4 + chunkLen);
        Fetched(c, old(pos) - 4)
    {
      ghost var body := input[pos..];
      if chunkType == STREAM_IDENTIFIER {
        if chunkLen != |MAGIC_BODY| {
          err := Some(Corrupted);
          return;
        }
        var ok := ReadFull(buf, |MAGIC_BODY|, false);
        if !ok {
          return;
        }
        assert buf[..|MAGIC_BODY|] == body[..|MAGIC_BODY|];
        if buf[..|MAGIC_BODY|] != MAGIC_BODY {
          err := Some(Corrupted);
        }
        return;
      }
      if chunkType <= 0x7f {
        err := Some(Unsupported);
        return;
      }
      var _ := ReadFull(buf, chunkLen, false);
    }

    /** One round of the read loop: fetches the next chunk. */
    method Fetch()
      requires Valid() && err.None? && i == j
      modifies this`pos, this`err, this`i, this`j, this`readHeader, decoded, buf
      ensures Valid()
      ensures Fetched(ReadChunk(env, input[old(pos)..], old(readHeader)), old(pos))
      ensures err.None? ==> readHeader
    {
      hide CompressedChunk, UncompressedChunk;
      ghost var bs := input[pos..];
      var ok := ReadFull(buf, 4, true);
      if !ok {
        return;
      }
      assert buf[..4] == bs[..4] && bs[4..] == input[pos..];
      var chunkType := buf[0];
      if !readHeader {
        if chunkType != STREAM_IDENTIFIER {
          err := Some(Corrupted);
          return;
        }
        readHeader := true;
      }
      var chunkLen := FromLE(buf[1..4]);
      assert buf[1..4] == buf[..4][1..4] == bs[..4][1..4] == bs[1..4];
      assert chunkType == bs[..4][0];
      if chunkLen > READ_BUF_LEN {
        err := Some(Unsupported);
        return;
      }
      if chunkType == COMPRESSED_DATA {
        FetchCompressed(chunkLen);
      } else if chunkType == UNCOMPRESSED_DATA {
        FetchUncompressed(chunkLen);
      } else {
        FetchOther(chunkType, chunkLen);
      }
    }

    /**
     * Read: hands out the next bytes, in order and each once; gives the error that
     * ends the stream, and keeps giving it, only when no data is left.
     */
    method Read(p: array<byte>) returns (n: nat, e: Option<ReadError>)
      requires Valid() && p != decoded && p != buf
      modifies this`pos, this`err, this`i, this`j, this`readHeader, decoded, buf, p
      ensures Valid() && n <= p.Length
      ensures e.Some? ==> n == 0 && old(Pending()) == Stream([], e.value) && Pending() == old(Pending())
      ensures e.None? ==>
        && p[..n] <= old(Pending()).data && p[n..] == old(p[n..])
        && Pending() == Stream(old(Pending()).data[n..], old(Pending()).end)
        && (p.Length > 0 ==> n > 0)
    {
      hide Unframe;
      if err.Some? {
        return 0, err;
      }
      FetchData();
      if err.Some? {
        return 0, err;
      }
      n := if j - i < p.Length then j - i else p.Length;
      ghost var chunk, rest := decoded[i..j], Unframe(env, input[pos..], readHeader);
      var front := decoded[i..i + n];
      assert front == chunk[..n] && decoded[i + n..j] == chunk[n..];
      assert Pending() == Stream(chunk + rest.data, rest.end);
      PutAt(p, 0, front);
      assert p[..n] == p[..0 + |front|] == front;
      assert decoded[i + n..j] == chunk[n..];
      SplitFront(chunk, rest.data, n);
      i := i + n;
      assert decoded[i..j] == chunk[n..];
      assert Pending() == Stream(chunk[n..] + rest.data, rest.end);
      return n, None;
    }

    /** The read loop: fetches chunks until there is data to hand out or an error. */
    method FetchData()
      requires Valid() && err.None?
      modifies this`pos, this`err, this`i, this`j, this`readHeader, decoded, buf
      ensures Valid() && Pending() == old(Pending())
      ensures err.None? ==> i < j
    {
      hide ReadChunk;
      while i == j
        invariant Valid() && err.None? && Pending() == old(Pending())
        decreases |input| - pos
      {
        ghost var from, wasHeader := pos, readHeader;
        Fetch();
        if err.Some? {
          return;
        }
        ghost var c := ReadChunk(env, input[from..], wasHeader);
        assert input[from..][c.size..] == input[pos..];
        assert decoded[i..j] == if c.Data? then c.payload else [];
      }
    }
  }

  // ----- Whole sessions -----------------------------------------------------

  datatype Call = DoWrite(p: seq<byte>) | DoFlush | DoClose

  /** The data a run of calls gets accepted: every write before the first close. */
  function Accepted(calls: seq<Call>): (data: seq<byte>)
  {
    if |calls| == 0 || calls[0].DoClose? then []
    else (if calls[0].DoWrite? then calls[0].p else []) + Accepted(calls[1..])
  }

  /** Performs the calls in order on a writer whose sink does not fail. */
  method Perform(w: Writer, calls: seq<Call>)
    requires w.Valid() && w.err.None? && w.sink.room.None?
    modifies w`err, w`ibuf, w`wroteStreamHeader, w.sink, w.obuf
    ensures w.Valid() && (w.err.None? || w.err == Some(Closed))
    ensures w.Contents() == old(w.Contents()) + Accepted(calls)
    ensures w.err.None? ==> w.sink.room.None?
    ensures w.err.Some? ==> w.ibuf == []
    decreases |calls|
  {
    hide Unframe;
    if |calls| == 0 {
      return;
    }
    match calls[0]
    case DoWrite(p) =>
      var _, _ := w.Write(p);
      Perform(w, calls[1..]);
    case DoFlush =>
      var _ := w.Flush();
      Perform(w, calls[1..]);
    case DoClose =>
      var _ := w.Close();
      Refused(w, calls[1..]);
  }

  /** After Close, no call changes anything. */
  method Refused(w: Writer, calls: seq<Call>)
    requires w.Valid() && w.err == Some(Closed)
    modifies w`err, w`ibuf, w`wroteStreamHeader, w.sink, w.obuf
    ensures w.Valid() && w.err == Some(Closed) && w.ibuf == old(w.ibuf) && w.sink.data == old(w.sink.data)
    decreases |calls|
  {
    if |calls| == 0 {
      return;
    }
    match calls[0] {
      case DoWrite(p) => var _, _ := w.Write(p);
      case DoFlush => var _ := w.Flush();
      case DoClose => var _ := w.Close();
    }
    Refused(w, calls[1..]);
  }

  /** Reads with a buffer of k bytes until the reader reports an error. */
  method ReadAll(r: Reader, k: nat) returns (data: seq<byte>, e: ReadError)
    requires r.Valid() && k > 0
    modifies r`pos, r`err, r`i, r`j, r`readHeader, r.decoded, r.buf
    ensures r.Valid() && old(r.Pending()) == Stream(data, e)
  {
    hide Reader.Pending;
    var p := new byte[k];
    data := [];
    assert [] + r.Pending().data == r.Pending().data;
    while true
      invariant r.Valid()
      invariant Stream(data + r.Pending().data, r.Pending().end) == old(r.Pending())
      decreases |r.Pending().data|
    {
      ghost var before := r.Pending();
      var n, err := r.Read(p);
      if err.Some? {
        return data, err.value;
      }
      TakeFront(data, before.data, p[..n]);
      data := data + p[..n];
    }
  }

  /**
   * Whatever is written to a framed Writer, in whatever pieces, with whatever
   * flushes, comes out of a Reader, whatever the size of its reads.
   */
  method WriteThenRead(env: Env, buffered: bool, calls: seq<Call>, k: nat) returns (data: seq<byte>, e: ReadError)
    requires k > 0
    ensures data == Accepted(calls) && e == EndOfStream
  {
    hide Unframe;
    var sink := new Sink(None);
    var w := new Writer(env, sink, buffered);
    Perform(w, calls);
    assert [] + Accepted(calls) == Accepted(calls);
    if w.err.None? && buffered {
      var _ := w.Close();
    }
    assert Unframe(env, w.sink.data, false).data + [] == Unframe(env, w.sink.data, false).data;
    assert Unframe(env, w.sink.data, false) == Stream(Accepted(calls), EndOfStream);
    var r := new Reader(env, w.sink.data);
    data, e := ReadAll(r, k);
  }
}
