/**
 * The Snappy framing format: a stream identifier followed by chunks that carry
 * compressed or plain data with a checksum. What a reader makes of any byte
 * string is a function; the Writer and the Reader are objects proved against it.
 */
module SnappyFraming {
  import opened Bytes
  import opened SnappyFormat
  import opened SnappyDecode

  type u32 = x: int | 0 <= x < 0x1_0000_0000

  const CHECKSUM_SIZE := 4
  const MAGIC_BODY: seq<byte> := [0x73, 0x4e, 0x61, 0x50, 0x70, 0x59]
  const MAGIC_CHUNK: seq<byte> := [0xff, 0x06, 0x00, 0x00] + MAGIC_BODY
  const MAX_ENCODED_LEN_OF_MAX_BLOCK_SIZE := 76490
  const OBUF_HEADER_LEN := 18
  const OBUF_LEN := 76508
  const READ_BUF_LEN := 76494

  const COMPRESSED_DATA := 0x00
  const UNCOMPRESSED_DATA := 0x01
  const STREAM_IDENTIFIER := 0xff

  datatype ReadError = EndOfStream | Corrupted | Unsupported | InBlock(error: Error)

  /** How the checksum is computed, and the width of int that DecodedLen depends on. */
  datatype Env = Env(crc: seq<byte> -> u32, w: Word)

  // ----- Reading chunks -----------------------------------------------------

  datatype Chunk =
    | Fail(error: ReadError)
    | Data(payload: seq<byte>, size: nat)
    | Skip(size: nat)

  function ChunkLen(bs: seq<byte>): (n: nat)
    requires |bs| >= 4
  {
    FromLE(bs[1..4])
  }

  /** The first chunk of bs; `header` tells whether a stream identifier was seen before. */
  function ReadChunk(env: Env, bs: seq<byte>, header: bool): (c: Chunk)
    ensures !c.Fail? ==> 4 <= c.size <= |bs|
    ensures c == Fail(EndOfStream) <==> bs == []
  {
    if |bs| < 4 then Fail(if |bs| == 0 then EndOfStream else Corrupted)
    else
      var chunkType: int := bs[0];
      var chunkLen := ChunkLen(bs);
      if !header && chunkType != STREAM_IDENTIFIER then Fail(Corrupted)
      else if chunkLen > READ_BUF_LEN then Fail(Unsupported)
      else if chunkType == COMPRESSED_DATA then CompressedChunk(env, bs[4..], chunkLen)
      else if chunkType == UNCOMPRESSED_DATA then UncompressedChunk(env, bs[4..], chunkLen)
      else if chunkType == STREAM_IDENTIFIER then
        if chunkLen == |MAGIC_BODY| && MAGIC_BODY <= bs[4..] then Skip(4 + chunkLen) else Fail(Corrupted)
      else if chunkType <= 0x7f then Fail(Unsupported)
      else if |bs| - 4 < chunkLen then Fail(Corrupted)
      else Skip(4 + chunkLen)
  }

  function CompressedChunk(env: Env, body: seq<byte>, chunkLen: nat): (c: Chunk)
    ensures !c.Fail? ==> c.size == 4 + chunkLen && chunkLen <= |body|
    ensures c.Data? ==> |c.payload| <= MAX_BLOCK_SIZE
    ensures c != Fail(EndOfStream)
  {
    if chunkLen < CHECKSUM_SIZE || |body| < chunkLen then Fail(Corrupted)
    else
      var block := body[CHECKSUM_SIZE..chunkLen];
      match DecodedLen(env.w, block)
      case Err(e) => Fail(InBlock(e))
      case Ok((n, _)) =>
        if n > MAX_BLOCK_SIZE then Fail(Corrupted)
        else
          match BlockContents(env.w, block)
          case Err(e) => Fail(InBlock(e))
          case Ok(data) =>
            BlockContentsIffTags(env.w, block, data);
            if env.crc(data) != FromLE(body[..CHECKSUM_SIZE]) then Fail(Corrupted)
            else Data(data, 4 + chunkLen)
  }

  function UncompressedChunk(env: Env, body: seq<byte>, chunkLen: nat): (c: Chunk)
    ensures !c.Fail? ==> c.size == 4 + chunkLen && chunkLen <= |body|
    ensures c.Data? ==> |c.payload| <= MAX_BLOCK_SIZE
    ensures c != Fail(EndOfStream)
  {
    if chunkLen < CHECKSUM_SIZE || |body| < CHECKSUM_SIZE then Fail(Corrupted)
    else if chunkLen - CHECKSUM_SIZE > MAX_BLOCK_SIZE || |body| < chunkLen then Fail(Corrupted)
    else
      var data := body[CHECKSUM_SIZE..chunkLen];
      if env.crc(data) != FromLE(body[..CHECKSUM_SIZE]) then Fail(Corrupted)
      else Data(data, 4 + chunkLen)
  }

  lemma SliceBehind<T>(s: seq<T>, k: nat, i: nat, j: nat)
    requires i <= j && k + j <= |s|
    ensures s[k..][i..j] == s[k + i..k + j]
  {
  }

  /** The front of bs is a chunk of size bytes that stands for payload, by its type, its length and its checksum. */
  ghost predicate IsDataChunk(env: Env, bs: seq<byte>, payload: seq<byte>, size: nat)
  {
    && 8 <= size <= |bs| && size - 4 <= 76494 && FromLE(bs[1..4]) == size - 4
    && FromLE(bs[4..8]) == env.crc(payload) && |payload| <= 65536
    && (|| (bs[0] == 0 && BlockContents(env.w, bs[8..size]) == Ok(payload))
        || (bs[0] == 1 && payload == bs[8..size]))
  }

  /** Data is handed out exactly for chunks whose checksum is that of the data; a damaged one is refused. */
  lemma DataChunkIff(env: Env, bs: seq<byte>, payload: seq<byte>, size: nat)
    ensures ReadChunk(env, bs, true) == Data(payload, size) <==> IsDataChunk(env, bs, payload, size)
    ensures ReadChunk(env, bs, false) != Data(payload, size)
  {
    hide BlockContents, DecodedLen, FromLE;
    if |bs| >= 8 {
      SliceBehind(bs, 4, 0, 4);
      if 8 <= 4 + ChunkLen(bs) <= |bs| {
        var block := bs[8..4 + ChunkLen(bs)];
        SliceBehind(bs, 4, 4, ChunkLen(bs));
        BlockContentsIffTags(env.w, block, payload);
      }
    }
  }

  /** The front of bs is the stream identifier, or a chunk of a type that may be skipped, with nothing missing. */
  ghost predicate IsSkipped(bs: seq<byte>, header: bool, size: nat)
  {
    && 4 <= size <= |bs| && size - 4 <= 76494 && FromLE(bs[1..4]) == size - 4
    && (|| (bs[0] == 0xff && size == 10 && bs[4..10] == [0x73, 0x4e, 0x61, 0x50, 0x70, 0x59])
        || (header && 0x80 <= bs[0] <= 0xfe))
  }

  /** Nothing else is passed over, and before the identifier nothing but it is taken. */
  lemma SkippedIff(env: Env, bs: seq<byte>, header: bool, size: nat)
    ensures ReadChunk(env, bs, header) == Skip(size) <==> IsSkipped(bs, header, size)
  {
    hide BlockContents, DecodedLen, FromLE;
    if |bs| >= 10 {
      assert bs[4..][..6] == bs[4..10];
    }
  }

  /** Everything a reader gets out of a byte string: the data, then the error that ends it. */
  datatype Stream = Stream(data: seq<byte>, end: ReadError)

  function Unframe(env: Env, bs: seq<byte>, header: bool): (s: Stream)
    decreases |bs|
  {
    match ReadChunk(env, bs, header)
    case Fail(e) => Stream([], e)
    case Skip(size) => Unframe(env, bs[size..], true)
    case Data(payload, size) =>
      var rest := Unframe(env, bs[size..], true);
      Stream(payload + rest.data, rest.end)
  }

  lemma ReadChunkExtends(env: Env, a: seq<byte>, b: seq<byte>, header: bool)
    requires !ReadChunk(env, a, header).Fail?
    ensures ReadChunk(env, a + b, header) == ReadChunk(env, a, header)
  {
    hide BlockContents, DecodedLen;
    var n := ChunkLen(a);
    assert (a + b)[1..4] == a[1..4];
    assert (a + b)[4..] == a[4..] + b;
    if a[0] == COMPRESSED_DATA || a[0] == UNCOMPRESSED_DATA {
      assert (a[4..] + b)[CHECKSUM_SIZE..n] == a[4..][CHECKSUM_SIZE..n];
      assert (a[4..] + b)[..CHECKSUM_SIZE] == a[4..][..CHECKSUM_SIZE];
    }
  }

  /** Streams concatenate: what follows a complete stream is read on its own. */
  lemma {:induction false} UnframeConcat(env: Env, a: seq<byte>, b: seq<byte>, header: bool)
    requires Unframe(env, a, header).end == EndOfStream
    ensures Unframe(env, a + b, header) ==
            var rest := Unframe(env, b, header || a != []);
            Stream(Unframe(env, a, header).data + rest.data, rest.end)
    decreases |a|
  {
    hide ReadChunk, Unframe;
    UnframeStep(env, a, header);
    UnframeStep(env, a + b, header);
    if a == [] {
      assert a + b == b && [] + Unframe(env, b, header).data == Unframe(env, b, header).data;
    } else {
      ReadChunkExtends(env, a, b, header);
      var chunk := ReadChunk(env, a, header);
      var size := chunk.size;
      assert (a + b)[size..] == a[size..] + b;
      UnframeConcat(env, a[size..], b, true);
      if chunk.Data? {
        var x, y := Unframe(env, a[size..], true).data, Unframe(env, b, true).data;
        assert chunk.payload + (x + y) == chunk.payload + x + y;
      }
    }
  }

  /** One chunk, and the stream after it. */
  lemma UnframeStep(env: Env, bs: seq<byte>, header: bool)
    ensures Unframe(env, bs, header) ==
      match ReadChunk(env, bs, header)
      case Fail(e) => Stream([], e)
      case Skip(size) => Unframe(env, bs[size..], true)
      case Data(payload, size) =>
        var rest := Unframe(env, bs[size..], true);
        Stream(payload + rest.data, rest.end)
  {
    hide ReadChunk;
  }

  // ----- Writing chunks -----------------------------------------------------

  /** A chunk as the Writer lays it out: type, length, checksum, body. */
  function ChunkBytes(chunkType: byte, checksum: u32, body: seq<byte>): (bs: seq<byte>)
    ensures |bs| == 8 + |body|
  {
    [chunkType] + ToLE(CHECKSUM_SIZE + |body|, 3) + ToLE(checksum, 4) + body
  }

  lemma ChunkBytesParts(chunkType: byte, checksum: u32, body: seq<byte>)
    requires |body| <= MAX_ENCODED_LEN_OF_MAX_BLOCK_SIZE
    ensures var bs := ChunkBytes(chunkType, checksum, body);
      && bs[0] == chunkType && ChunkLen(bs) == CHECKSUM_SIZE + |body|
      && FromLE(bs[4..][..CHECKSUM_SIZE]) == checksum && bs[4..][CHECKSUM_SIZE..] == body
  {
    var bs := ChunkBytes(chunkType, checksum, body);
    var n := CHECKSUM_SIZE + |body|;
    Pow256Small();
    assert bs[1..4] == ToLE(n, 3);
    FromToLE(n, 3);
    assert bs[4..][..CHECKSUM_SIZE] == ToLE(checksum, 4);
    FromToLE(checksum, 4);
  }

  /** A chunk written for data, compressed or not, reads back as data. */
  lemma ChunkReadsBack(env: Env, data: seq<byte>, chunkType: byte, body: seq<byte>, header: bool)
    requires header && |data| <= MAX_BLOCK_SIZE
    requires || (chunkType == UNCOMPRESSED_DATA && body == data)
             || (chunkType == COMPRESSED_DATA && |body| <= MAX_ENCODED_LEN_OF_MAX_BLOCK_SIZE &&
                 BlockContents(env.w, body) == Ok(data))
    ensures var bs := ChunkBytes(chunkType, env.crc(data), body);
      ReadChunk(env, bs, header) == Data(data, |bs|)
  {
    hide BlockContents, ReadChunk, ChunkBytes, FromLE;
    var bs := ChunkBytes(chunkType, env.crc(data), body);
    ChunkBytesParts(chunkType, env.crc(data), body);
    assert bs[4..][..CHECKSUM_SIZE] == bs[4..8] && bs[4..][CHECKSUM_SIZE..] == bs[8..] == bs[8..|bs|];
    assert IsDataChunk(env, bs, data, |bs|);
    DataChunkIff(env, bs, data, |bs|);
  }

  lemma MagicReadsBack(env: Env, header: bool)
    ensures ReadChunk(env, MAGIC_CHUNK, header) == Skip(|MAGIC_CHUNK|)
  {
    assert MAGIC_CHUNK[1..4] == [6, 0, 0];
    assert FromLE([6, 0, 0]) == 6 by {
      assert [6, 0, 0][1..] == [0, 0] && [0, 0][1..] == [0];
      assert FromLE([0]) == 0 && FromLE([0, 0]) == 0;
    }
    assert MAGIC_CHUNK[4..] == MAGIC_BODY;
  }

  /** Appending a frame, with the stream identifier first if need be, appends its data. */
  lemma AppendFrame(env: Env, stream: seq<byte>, frame: seq<byte>, data: seq<byte>)
    requires Unframe(env, stream, false).end == EndOfStream
    requires ReadChunk(env, frame, true) == Data(data, |frame|)
    ensures var start := if stream == [] then MAGIC_CHUNK else [];
      Unframe(env, stream + start + frame, false) ==
      Stream(Unframe(env, stream, false).data + data, EndOfStream)
  {
    hide ReadChunk, ChunkBytes;
    var start := if stream == [] then MAGIC_CHUNK else [];
    UnframeNothing(env);
    assert frame[|frame|..] == [] && data + [] == data;
    assert Unframe(env, frame, true) == Stream(data, EndOfStream);
    if stream == [] {
      MagicReadsBack(env, false);
      assert MAGIC_CHUNK[|MAGIC_CHUNK|..] == [];
      assert Unframe(env, MAGIC_CHUNK, false) == Stream([], EndOfStream);
      UnframeConcat(env, MAGIC_CHUNK, frame, false);
      assert [] + MAGIC_CHUNK == MAGIC_CHUNK && [] + data == data;
      assert Unframe(env, [], false).data == [];
    } else {
      UnframeConcat(env, stream, frame, false);
      assert stream + [] == stream;
    }
  }

  lemma UnframeNothing(env: Env)
    ensures forall h :: Unframe(env, [], h) == Stream([], EndOfStream)
  {
  }
}
