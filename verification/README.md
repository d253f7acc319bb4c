# Snappy compression and the SSH protocol core of sshego, in Dafny

sshego can store its known hosts with Snappy framing, speaks SSH through its own
copy of an SSH library, and guards logins with up to three factors. This project
models the parts of it whose correctness is hardest to see from the code, and
proves what they are for. `dafny verify dfyconfig.toml` checks everything.

| files | what they hold | main results |
|---|---|---|
| SnappyFormat, SnappyDecode, SnappyEncode | the block format, the tag interpreter, the greedy hash-table encoder | the interpreter accepts exactly the legal tag sequences; Decode undoes Encode for every input; Encode stays within MaxEncodedLen; each block is written as the greedy parse that the matcher is specified to find |
| SnappyFraming, SnappyStream | the framing format; Writer and Reader as objects | any writes, flushes and closes read back as the data written, whatever the read sizes |
| SshFlow, SshFlowSafety, SshFlowWire, SshWriters, SshFlowRuns | two ends of a channel and two FIFO links, as a state machine over every interleaving | no packet is ever refused; window credit is conserved; data packets name the channel they are for; reads are a prefix of writes; end of file arrives, and comes last |
| SshMux, SshMuxSafety | channel ids of two multiplexers, as a state machine | a packet reaches the very channel it was sent for, however often ids are used again |
| SshObjects | window, linked-list buffer and channel as objects | the linked list is a queue; each method of the channel takes the steps of the state machine that it stands for |
| SshRekey, SshTransport | the re-keying transport of both sides, as a state machine; its object | delivery in order without loss, exactly one KEXINIT per side in an exchange and nothing but the exchange up to NEWKEYS, no deadlock |
| SshInt, SshMessages, SshKeys, SshCerts, SshCertificate | mpints, structs by schema, the six kinds of key, option tuples, chains of certificates | what is written is read back, each with its exact condition |
| SshCipher | stream and AEAD packet protection, padding, the IV counter | readers stay in step with writers, with the exact condition per packet; nothing is accepted but packets in their sealed form, tag included; no two packets share an IV or a stretch of keystream |
| Graphs, Halter (module Lifecycle) | finite graphs; stop requests over a graph of halters | on every acyclic graph, and exactly for the reachable halters, a stop is asked for; done implies asked; which new link closes a cycle |
| RingBuffer | the two-buffer ring | it is a FIFO queue of bounded capacity |
| SshAuth | the authentication loop with its cache, flags and failure counter | success takes a right key and right answers where they are not switched off; exactly when it proves possession of the key, and when both are of one user; rejected requests are limited |
| Bytes | fixed-width integers in both byte orders | round trips |

Objects whose methods update fields are classes; loops are loops. Protocols with
several goroutines are state machines whose steps are the atomic sections of the
code, and the classes beside them are proved against the same step functions.
Bytes are integers from 0 to 255; 32-bit wrap-around is written out wherever the
code has it.

## What the code does that its documentation does not say

- encodeBlock documents that its destination must hold MaxEncodedLen(len(src))
  bytes. For an input of one block that room is there if and only if Encode's own
  destination has the length header's bytes on top of that
  (SnappyEncode.DocumentedRoomIff); in a destination that Encode makes itself it is
  missing (DocumentedRoomIsMissing). What encodeBlock needs is n + n/61 + 1 bytes, and
  those are always there (NeededRoomIsThere).
- WriteExtended cuts the length of what is left to 32 bits. A write of 2^32 bytes or
  more never ends, and a round of any write makes progress exactly when what is left
  is no multiple of 2^32 (SshFlowSafety.LongWriteNeverEnds, ReserveProgress).
- Window spent on extended streams that nobody can read is never given back
  (SshFlowSafety.QuietWindowIsWhole, with a run in SshFlowRuns.WindowIsLost).
- The packet writers of cipher.go accept packets that their readers refuse: empty
  ones, and ones that exceed the limit only with their padding
  (SshCipher.StreamRoundTripIff, GcmRoundTripIff). The AEAD writer crashes on packets of
  2^32 bytes or more.
- Unmarshal refuses an empty packet even for an untagged struct that marshals to
  nothing (SshMessages.EmptyStructIsRefused).
- A certificate that was never signed marshals, but does not parse
  (SshCertificate.CertificateRoundTripIff).
- The "none" request is documented as free once; it is free any number of times until
  another request has failed (SshAuth.NoneIsFreeUntilAFailure).
- AddDownstream does not keep the graph of halters free of cycles, on which RequestStop
  depends: a link from h to d closes a cycle if and only if d led to h, as
  `h.AddDownstream(h)` does (Graphs.LinkKeepsAcyclicIff, SelfLinkIsACycle). A halter
  ended by its context does not tell those downstream of it
  (Lifecycle.Halter.ContextCancelled).
- The public-key callback is asked, and sets its flag, before a signature is looked at,
  and for a mere query too. A success proves possession of a right key if and only if
  some right key came signed under an accepted algorithm and not in a query
  (SshAuth.SuccessProvesKeyIff); with queries alone it does not
  (BareKeyIsEnough, QueryOfOneAnswersOfAnother).
- The flags of a login attempt belong to the connection, while each request names its
  user. The key and the answers of a success are sure to be of one user if and only if
  the requests can name only one, or nobody gets in at all (SshAuth.FactorsOfOneUserIff).
  Once both flags are set, a signed request with any other key of a known user passes
  (AnyKeyOnceBothAreSet); a session in which that happens is WrongKeyEnters.
- Calls of WriteExtended that overlap on one stream mix their packets, so that reads are
  no prefix of the writes one after the other (SshFlowRuns.OverlappingWritesMix).

## Model

| member | source | states |
|---|---|---|
| `SnappyFormat.CopyForwardUnique` | _vendor/github.com/golang/snappy/decode_other.go:89-95 | a forward copy, overlapping or not, is the one extension of the output that repeats with the given period |
| `SnappyFormat.ParseOpSound` | _vendor/github.com/golang/snappy/snappy.go:15-39 | what the tag reader reads is a chunk of the format for the op it answers |
| `SnappyFormat.ParseOpComplete` | _vendor/github.com/golang/snappy/snappy.go:15-39 | every chunk of the format, in any of its encodings, is read as its op, whatever follows |
| `SnappyFormat.EncodesUnique` | _vendor/github.com/golang/snappy/snappy.go:15-39 | a byte string spells at most one sequence of ops |
| `SnappyFormat.RunReplays` | _vendor/github.com/golang/snappy/decode_other.go:14-101 | interpreting a byte string that spells ops is replaying them, legal or not |
| `SnappyFormat.RunIffReplay` | _vendor/github.com/golang/snappy/decode_other.go:14-101 | interpretation succeeds with r if and only if the input spells ops whose replay is legal and gives r |
| `SnappyFormat.RunUnderPrefix` | _vendor/github.com/golang/snappy/encode.go:18-41 | a block that is legal by itself means the same after any earlier output, so blocks concatenate |
| `SnappyDecode.InterpretIffRun` | _vendor/github.com/golang/snappy/decode_other.go:14-101 | the bounded interpreter, with its 32-bit or 64-bit int, accepts exactly the legal tag sequences that fill the destination |
| `SnappyDecode.DecodeTags` | _vendor/github.com/golang/snappy/decode_other.go:14-101 | terminates on every input, stays in bounds, leaves the rest of dst alone, and answers 0 or the error of the interpreter; without error dst is the replay |
| `SnappyDecode.CopyWithin` | _vendor/github.com/golang/snappy/decode_other.go:89-95 | the in-place byte loop is a forward copy even when source and target overlap |
| `SnappyDecode.DecodedLen` | _vendor/github.com/golang/snappy/decode.go:32-43 | an accepted length fits 32 bits and the int of the machine |
| `SnappyDecode.UvarintRoundTrip` | _vendor/github.com/golang/snappy/encode.go:26 | the length header is read back, and its size with it |
| `SnappyDecode.ReadUvarintIff` | _vendor/github.com/golang/snappy/decode.go:32-37 | exactly the byte strings that end at the first byte without its top bit, within 64 bits, are read, as their value in base 128 |
| `SnappyDecode.UvarintValue` | _vendor/github.com/golang/snappy/encode.go:26 | the length header written has that value |
| `SnappyDecode.Decode` | _vendor/github.com/golang/snappy/decode.go:55-72 | decodes into dst if it is large enough, else into a new buffer, with the errors of header and tags |
| `SnappyDecode.BlockContentsIffTags` | _vendor/github.com/golang/snappy/decode.go:55-72 | a block decodes to r if and only if it is a header for the length of r and a legal tag sequence that replays to r |
| `SnappyEncode.EmitLiteral` | _vendor/github.com/golang/snappy/encode_other.go:25-42 | writes the tag, length bytes and literal at d, and nothing before it |
| `SnappyEncode.LiteralTagIsTag` | _vendor/github.com/golang/snappy/encode_other.go:25-42 | what emitLiteral writes is a literal chunk of the format |
| `SnappyEncode.CopyTagsRun` | _vendor/github.com/golang/snappy/encode_other.go:50-88 | however emitCopy splits a copy into chunks, together they perform the one forward copy |
| `SnappyEncode.CopyTagsSize` | _vendor/github.com/golang/snappy/encode_other.go:50-88 | a copy takes at least one byte less than it produces |
| `SnappyEncode.EmitCopy` | _vendor/github.com/golang/snappy/encode_other.go:50-88 | writes those chunks at d, and nothing before it |
| `SnappyEncode.Load64Windows` | _vendor/github.com/golang/snappy/encode_other.go:9-18 | the shifted low halves of one 64-bit load are the 32-bit loads at the next positions |
| `SnappyEncode.Load32Injective` | _vendor/github.com/golang/snappy/encode_other.go:9-12 | equal 32-bit loads are equal bytes, so a confirmed candidate is a match |
| `SnappyEncode.FindMatch` | _vendor/github.com/golang/snappy/encode_other.go:161-179 | finds the first match that the search, with its skipping and its table, comes upon, or none if it comes upon none; a match found is a real earlier occurrence |
| `SnappyEncode.ExtendMatch` | _vendor/github.com/golang/snappy/encode_other.go:95-99 | the extension is the longest: the stretches agree up to it and differ after it |
| `SnappyEncode.CopyFollowsSource` | _vendor/github.com/golang/snappy/encode_other.go:194-208 | copying a stretch that occurred earlier extends the output along the source |
| `SnappyEncode.EmitMatch` | _vendor/github.com/golang/snappy/encode_other.go:194-208 | emits the longest extension of the match as one copy; the output so far replays to the source so far, and is at most one 61st longer |
| `SnappyEncode.ProbeAfterCopy` | _vendor/github.com/golang/snappy/encode_other.go:219-229 | records both positions, and another match is reported if and only if the table answers with one |
| `SnappyEncode.TableShift` | _vendor/github.com/golang/snappy/encode_other.go:122-125 | the table size is the least power of two from 2^8 to 2^14 that is not below the input length |
| `SnappyEncode.EncodeBlock` | _vendor/github.com/golang/snappy/encode_other.go:112-238 | for every block: all writes in bounds, at most n + n/61 + 1 bytes, just the tags of the greedy parse, and they replay to the block |
| `SnappyEncode.OneByteOverAndOver` | _vendor/github.com/golang/snappy/encode_other.go:112-238 | repetition is found: a block of one byte over and over is a literal of one byte and one copy |
| `SnappyEncode.EncodeBlocks` | _vendor/github.com/golang/snappy/encode.go:28-40 | the same for any number of blocks, within n + n/6 + 1 bytes |
| `SnappyEncode.MaxEncodedLenFits` | _vendor/github.com/golang/snappy/encode.go:76-106 | a non-negative answer is 32 + n + n/6 on either machine, and n fits its int |
| `SnappyEncode.DocumentedRoomIff` | _vendor/github.com/golang/snappy/encode_other.go:105-112 | for an input of one block, the room that encodeBlock documents is there if and only if the destination has the length header on top of MaxEncodedLen |
| `SnappyEncode.NeededRoomIsThere` | _vendor/github.com/golang/snappy/encode.go:18-41 | the room that encodeBlock really needs is always there |
| `SnappyEncode.DocumentedRoomIsMissing` | _vendor/github.com/golang/snappy/encode.go:18-26 | 17 bytes in a destination that Encode makes itself leave encodeBlock 50 bytes of the 51 it documents |
| `SnappyEncode.EncodeInto` | _vendor/github.com/golang/snappy/encode.go:18-41 | header and blocks stay within 32 + n + n/6 bytes and decode to the input |
| `SnappyEncode.Encode` | _vendor/github.com/golang/snappy/encode.go:18-41 | refuses exactly the inputs MaxEncodedLen refuses; uses dst if it is large enough; the result decodes to the input on either machine |
| `SnappyEncode.EncodeThenDecode` | _vendor/github.com/golang/snappy/decode.go:55-72 | Decode(Encode(src)) is src, for every src that Encode accepts |
| `SnappyFraming.UnframeConcat` | _vendor/github.com/golang/snappy/decode.go:118-237 | what follows a complete stream is read as it would be by itself |
| `SnappyFraming.ChunkReadsBack` | _vendor/github.com/golang/snappy/encode.go:225-258 | a chunk written for data, compressed or not, reads back as that data under any checksum function |
| `SnappyFraming.DataChunkIff` | _vendor/github.com/golang/snappy/decode.go:143-205 | data is handed out for exactly the chunks, compressed or not, whose checksum is that of the data; a damaged one is refused |
| `SnappyFraming.SkippedIff` | _vendor/github.com/golang/snappy/decode.go:206-236 | just the stream identifier and whole chunks of the types that may be skipped are passed over, and nothing else comes before the identifier |
| `SnappyFraming.AppendFrame` | _vendor/github.com/golang/snappy/encode.go:207-262 | a frame appended, with the stream identifier first if the stream is new, appends its data |
| `SnappyStream.Writer.Reset` | _vendor/github.com/golang/snappy/encode.go:162-169 | a reset writer has accepted nothing and has no error |
| `SnappyStream.Writer.FillBuffer` | _vendor/github.com/golang/snappy/encode.go:225-247 | compression in place fits obuf; the block goes out plain if and only if compression saves less than an eighth; the frame reads back as the block |
| `SnappyStream.Writer.WriteBlock` | _vendor/github.com/golang/snappy/encode.go:211-259 | unless the sink fails, a reader of the sink gets one block more |
| `SnappyStream.Writer.WriteUnbuffered` | _vendor/github.com/golang/snappy/encode.go:207-262 | all of p is sent and counted unless the sink fails; an earlier error is kept and nothing is sent |
| `SnappyStream.Writer.Flush` | _vendor/github.com/golang/snappy/encode.go:265-275 | empties the buffer and accepts nothing new; an earlier error is kept |
| `SnappyStream.Writer.Write` | _vendor/github.com/golang/snappy/encode.go:172-205 | appends p to what was accepted, and counts all of it, unless there is an error |
| `SnappyStream.Writer.Close` | _vendor/github.com/golang/snappy/encode.go:278-285 | flushes and reports its error; without one all that was accepted is on the sink, and every later call fails, a second Close too |
| `SnappyStream.Reader.ReadFull` | _vendor/github.com/golang/snappy/decode.go:107-115 | end of input is an error except where a chunk may end the stream |
| `SnappyStream.Reader.Fetch` | _vendor/github.com/golang/snappy/decode.go:128-236 | one round of the read loop takes the first chunk of what is left, with the error for each malformed one |
| `SnappyStream.Reader.Read` | _vendor/github.com/golang/snappy/decode.go:118-237 | hands out the next bytes in order and each once; an error comes only when no data is left, and stays |
| `SnappyStream.Perform` | _vendor/github.com/golang/snappy/encode.go:172-285 | any calls of Write, Flush and Close accept exactly the writes before the first Close |
| `SnappyStream.ReadAll` | _vendor/github.com/golang/snappy/decode.go:118-237 | reading to the end gives all that is in the stream and the error that ends it, whatever the size of the reads |
| `SnappyStream.WriteThenRead` | _vendor/github.com/golang/snappy/encode.go:172-285 | the data read is the concatenation of the data written, ending in end of stream |
| `SshFlow.DataPacketParses` | xendor/github.com/glycerine/xcryptossh/channel.go:347-456 | the packet WriteExtended builds is the one handleData takes apart: stream, length and payload |
| `SshFlow.DataPacketNames` | xendor/github.com/glycerine/xcryptossh/channel.go:386-391 | bytes 1 to 4 of the packet are the id of the channel at the peer, its first byte and bytes 5 to 8 the stream |
| `SshFlow.DataAcceptedIff` | xendor/github.com/glycerine/xcryptossh/channel.go:409-446 | a data packet is taken in if and only if it is whole, as long as it says, and within the packet limit and the window |
| `SshFlowSafety.RunKeepsInv` | xendor/github.com/glycerine/xcryptossh/channel.go:320-627 | every step of either end keeps the accounts, the streams, the links and the end-of-file marks |
| `SshFlowSafety.NoPacketIsRefused` | xendor/github.com/glycerine/xcryptossh/channel.go:409-456 | in every run no packet is refused: not for the window, the payload size, an overflow of window.add, a second confirmation or a removed channel |
| `SshFlowSafety.CreditIsConserved` | xendor/github.com/glycerine/xcryptossh/channel.go:347-495 | until a close is sent, in each direction: window, reserved, in flight, unread, discarded, owed and granted bytes add up to the window size |
| `SshFlowSafety.QuietWindowIsWhole` | xendor/github.com/glycerine/xcryptossh/channel.go:458-495 | when all is read and acknowledged the sender has its window back, less what was discarded |
| `SshFlowSafety.ReadsAreAPrefix` | xendor/github.com/glycerine/xcryptossh/buffer.go:46-124 | for each stream, what was read is a prefix of what the other end put on the wire, however many calls wrote it |
| `SshFlowSafety.EofOnlyAfterEverything` | xendor/github.com/glycerine/xcryptossh/buffer.go:76-124 | end of file is reported only when all sent before the other end signalled it was read |
| `SshFlowWire.DataIsAddressed` | xendor/github.com/glycerine/xcryptossh/channel.go:386-391 | in every run each data packet on a link names the id that its sender was told, in the open or the confirmation |
| `SshFlowWire.EofArrives` | xendor/github.com/glycerine/xcryptossh/channel.go:549-554 | once an end has signalled end of file and nothing of that is on its way, both streams at the other end are marked as ended |
| `SshFlowSafety.ReserveProgress` | xendor/github.com/glycerine/xcryptossh/channel.go:372-376 | a round of WriteExtended reserves something if and only if what is left is no multiple of 2^32 |
| `SshFlowSafety.LongWriteNeverEnds` | xendor/github.com/glycerine/xcryptossh/channel.go:347-407 | at neither end does a call for 2^32 bytes or more ever send all of them |
| `SshFlowSafety.ShortWriteProgresses` | xendor/github.com/glycerine/xcryptossh/channel.go:347-407 | a shorter call sends at least a byte in each round that finds any window |
| `SshWriters.EachCallInOrder` | xendor/github.com/glycerine/xcryptossh/channel.go:347-407 | under any interleaving of writers, the packets of a call carry exactly the bytes it has written so far, in order |
| `SshWriters.ReadsFollowWrites` | xendor/github.com/glycerine/xcryptossh/channel.go:347-495 | with one writer at a time on a stream, reads are a prefix of what was passed to WriteExtended, call after call |
| `SshWriters.RoundsAreSteps` | xendor/github.com/glycerine/xcryptossh/channel.go:372-400 | where the rounds of a call lead, the state machine gets by reserving and sending |
| `SshWriters.RoundsSend` | xendor/github.com/glycerine/xcryptossh/channel.go:372-400 | the rounds of a call put exactly the next bytes of its data on the wire, in packets within the limit, and spend as much window; it ends unless it has to wait |
| `SshWriters.RoundSends` | xendor/github.com/glycerine/xcryptossh/channel.go:372-400 | a round sends as much as the limit, the data and the window allow, in one packet |
| `SshFlowRuns.OverlappingWritesMix` | xendor/github.com/glycerine/xcryptossh/channel.go:365-370 | a run in which two calls overlap on one stream and what is read is no prefix of the two in turn |
| `SshFlowRuns.WindowIsLost` | xendor/github.com/glycerine/xcryptossh/channel.go:445-455 | a run after which the channel is quiet and the window one byte smaller, for a byte on a stream nobody reads |
| `SshMux.AddedIsFresh` | xendor/github.com/glycerine/xcryptossh/mux.go:38-49 | an added channel gets a free id and changes the answer for no other |
| `SshMux.IdFindsChannel` | xendor/github.com/glycerine/xcryptossh/mux.go:38-61 | the id add answers is the one under which getChan finds the channel, through the 32-bit offset |
| `SshMux.ChanList.Add` | xendor/github.com/glycerine/xcryptossh/mux.go:38-49 | takes the first free slot, or a new one |
| `SshMux.ChanList.GetChan` | xendor/github.com/glycerine/xcryptossh/mux.go:52-61 | answers what the slot of the id holds, or nothing |
| `SshMux.ChanList.Remove` | xendor/github.com/glycerine/xcryptossh/mux.go:63-70 | frees the slot of the id and no other |
| `SshMux.ChanList.DropAll` | xendor/github.com/glycerine/xcryptossh/mux.go:73-86 | answers just the channels in use, in the order of their slots, and leaves none |
| `SshMux.LiveInOrder` | xendor/github.com/glycerine/xcryptossh/mux.go:73-86 | the list of channels in use has each where the number of those before its slot says |
| `SshMuxSafety.RunKeepsInv` | xendor/github.com/glycerine/xcryptossh/mux.go:241-397 | every open, accept, reject, send, close and delivery keeps both ends and the wire consistent for every session |
| `SshMuxSafety.NoPacketGoesAstray` | xendor/github.com/glycerine/xcryptossh/mux.go:241-274 | in every run a packet is taken by the very channel it was sent for, never by a free id or a later channel that reuses it |
| `SshMuxSafety.NothingAfterClose` | xendor/github.com/glycerine/xcryptossh/channel.go:320-333 | a channel closes at most once and sends nothing afterwards |
| `SshMuxSafety.FreedOnlyByPeer` | xendor/github.com/glycerine/xcryptossh/channel.go:497-627 | an id is freed only by the close, or the refusal to open, that the peer sent for that channel |
| `SshObjects.Window.Add` | xendor/github.com/glycerine/xcryptossh/common.go:322-339 | adds if and only if 32 bits do not overflow, and else changes nothing |
| `SshObjects.Window.Reserve` | xendor/github.com/glycerine/xcryptossh/common.go:374-398 | takes the smaller of what is asked for and what there is; fails on a closed window |
| `SshObjects.Buffer.Write` | xendor/github.com/glycerine/xcryptossh/buffer.go:46-53 | appends to the queue the linked list holds |
| `SshObjects.Buffer.Eof` | xendor/github.com/glycerine/xcryptossh/buffer.go:57-63 | marks the end and keeps what is queued |
| `SshObjects.Buffer.Read` | xendor/github.com/glycerine/xcryptossh/buffer.go:76-124 | hands out the front of the queue, as much as fits; end of file only when nothing is queued |
| `SshObjects.Channel.WritePacket` | xendor/github.com/glycerine/xcryptossh/channel.go:320-333 | a close is the last packet sent |
| `SshObjects.Channel.WriteExtended` | xendor/github.com/glycerine/xcryptossh/channel.go:347-407 | begins a call and takes its rounds, as the state machine does, until all is written, the channel is closed or it has to wait for window; every packet names the peer's channel; nothing is sent after CloseWrite |
| `SshObjects.Channel.ReadExtended` | xendor/github.com/glycerine/xcryptossh/channel.go:458-495 | hands out the front of the queue of the stream and grants the peer as much window; end of file, or a wait, only with nothing queued; other streams are refused |
| `SshObjects.Channel.CloseWrite` | xendor/github.com/glycerine/xcryptossh/channel.go:719-726 | signals end of file once the channel is decided, as the state machine does |
| `SshObjects.Channel.Close` | xendor/github.com/glycerine/xcryptossh/channel.go:728-744 | only the first call does anything; on an undecided channel it sends nothing and fails; else it sends a close as the state machine does |
| `SshObjects.Channel.SendClose` | xendor/github.com/glycerine/xcryptossh/channel.go:540-549 | sends a close unless one was sent, and marks what was sent before it |
| `SshObjects.Channel.HandlePacket` | xendor/github.com/glycerine/xcryptossh/channel.go:540-627 | handles or refuses each packet as the state machine does; end of file and close end both streams, and a close is answered with a close |
| `SshObjects.Channel.HandleDataPacket` | xendor/github.com/glycerine/xcryptossh/channel.go:409-456 | takes data in, or refuses it, as the state machine does |
| `SshObjects.Channel.HandleConfirm` | xendor/github.com/glycerine/xcryptossh/channel.go:582-598 | a confirmation is taken once, with a packet size within the limits; whether its window could be added is not looked at |
| `SshRekey.RunKeepsInv` | xendor/github.com/glycerine/xcryptossh/handshake.go:215-685 | every interleaving of writers, readers and key-exchange loops keeps both sides and both links in step |
| `SshRekey.NothingUnexpected` | xendor/github.com/glycerine/xcryptossh/handshake.go:435-507 | on either side, whoever reads finds a packet it expects, protected with the keys it has |
| `SshRekey.DeliveredInOrder` | xendor/github.com/glycerine/xcryptossh/handshake.go:556-595 | packets taken by the layer above, waiting for it, on the wire and held back are together those accepted, in order, without loss or duplicate |
| `SshRekey.NothingButTheExchange` | xendor/github.com/glycerine/xcryptossh/handshake.go:286-383 | on either side, between a KEXINIT and the next application packet or KEXINIT lies a NEWKEYS |
| `SshRekey.OneInitPerExchange` | xendor/github.com/glycerine/xcryptossh/handshake.go:510-554 | for every change of its keys each side has sent exactly one KEXINIT, under the keys before, even if both ask for the exchange |
| `SshRekey.RequestsAreServed` | xendor/github.com/glycerine/xcryptossh/handshake.go:286-331 | on neither side is a request for an exchange lost: it is taken away only to send a KEXINIT, with one out already, or at the end of an exchange |
| `SshRekey.SameExchanges` | xendor/github.com/glycerine/xcryptossh/handshake.go:601-685 | the two sides take part in the same exchanges: their key counts differ by at most one |
| `SshRekey.NoDeadlock` | xendor/github.com/glycerine/xcryptossh/handshake.go:286-415 | if neither side can move, then a layer above has let its sixteen packets pile up, or both are at rest with nothing on the wire and nothing lost |
| `SshTransport.AsksIff` | xendor/github.com/glycerine/xcryptossh/handshake.go:556-595 | a write asks for new keys if and only if as many bytes or packets as the limits allow were written before it under the same keys |
| `SshTransport.RequestsIff` | xendor/github.com/glycerine/xcryptossh/handshake.go:556-595 | writes since the last exchange leave a request for new keys if and only if there was one, or the limit was reached before one of them |
| `SshTransport.FlushedIs` | xendor/github.com/glycerine/xcryptossh/handshake.go:375-381 | the packets held back follow what was sent, in order, under the new keys |
| `SshTransport.HandshakeTransport.WritePacket` | xendor/github.com/glycerine/xcryptossh/handshake.go:556-595 | refuses exactly packets numbered as KEXINIT or NEWKEYS; else holds back, or writes and requests new keys if the bytes or packets left are used up |
| `SshTransport.HandshakeTransport.SendKexInit` | xendor/github.com/glycerine/xcryptossh/handshake.go:510-554 | sends at most one KEXINIT in an exchange |
| `SshTransport.HandshakeTransport.CompleteExchange` | xendor/github.com/glycerine/xcryptossh/handshake.go:340-382 | clears the request, resets the counters and sends all packets held back before the lock is free |
| `SshInt.IntRoundTrip` | xendor/github.com/glycerine/xcryptossh/messages.go:548-666 | every integer, positive, zero or negative, comes back |
| `SshInt.IntContentShortest` | xendor/github.com/glycerine/xcryptossh/messages.go:586-609 | the encoding has intLength bytes and no redundant leading byte |
| `SshInt.ShortestIsUnique` | xendor/github.com/glycerine/xcryptossh/messages.go:621-666 | an encoding without redundant leading byte is the one marshalInt writes for its value |
| `SshInt.NoneIsShorter` | xendor/github.com/glycerine/xcryptossh/messages.go:621-666 | no byte string is a shorter encoding of its value |
| `SshInt.ContentIsTwosComplement` | xendor/github.com/glycerine/xcryptossh/messages.go:548-570 | parseInt reads big-endian two's complement, as section 5 of RFC 4251 defines it |
| `SshInt.MarshalInt` | xendor/github.com/glycerine/xcryptossh/messages.go:621-666 | writes the length and that encoding at its place, and nothing before it |
| `SshMessages.ParseStringIff` | xendor/github.com/glycerine/xcryptossh/messages.go:511-524 | a string comes back if and only if its length, together with what follows, passes the 32-bit comparison |
| `SshMessages.NamesRoundTripIff` | xendor/github.com/glycerine/xcryptossh/messages.go:531-546 | a name-list comes back if and only if no name has a comma and it is not the one empty name |
| `SshMessages.FieldsIff` | xendor/github.com/glycerine/xcryptossh/messages.go:328-409 | fields come back, with all input consumed, if and only if each can be read with what follows it |
| `SshMessages.StructRoundTripIff` | xendor/github.com/glycerine/xcryptossh/messages.go:300-507 | Unmarshal undoes Marshal for any schema if and only if the tag is not 0, the packet not empty, lengths fit and name-lists come back |
| `SshMessages.EmptyStructIsRefused` | xendor/github.com/glycerine/xcryptossh/messages.go:310-312 | an untagged struct that marshals to nothing is refused |
| `SshMessages.ShortStructFits` | xendor/github.com/glycerine/xcryptossh/messages.go:428-507 | all lengths fit in a packet shorter than 2^32 bytes |
| `SshMessages.FieldLayout` | xendor/github.com/glycerine/xcryptossh/messages.go:428-507 | how booleans, numbers, strings and name-lists stand on the wire, byte by byte |
| `SshMessages.Marshal` | xendor/github.com/glycerine/xcryptossh/messages.go:428-507 | field after field, after the tag if there is one |
| `SshMessages.Unmarshal` | xendor/github.com/glycerine/xcryptossh/messages.go:300-416 | the values, or the error for a short, wrong or over-long packet |
| `SshMessages.StringListRoundTripIff` | xendor/github.com/glycerine/xcryptossh/certs.go:80-87 | a list of strings comes back if and only if each fits with what follows it |
| `SshCerts.AscendingUnique` | xendor/github.com/glycerine/xcryptossh/certs.go:101-117 | a set of keys has one ascending order, so sorting makes the bytes depend on the map alone |
| `SshCerts.LessIff` | xendor/github.com/glycerine/xcryptossh/certs.go:101-143 | the order of keys: a proper beginning comes first, else the smaller byte where two keys first differ |
| `SshCerts.PairLayout` | xendor/github.com/glycerine/xcryptossh/certs.go:89-117 | how a tuple with and without a value stands on the wire |
| `SshCerts.TuplesRoundTripIff` | xendor/github.com/glycerine/xcryptossh/certs.go:101-158 | a map comes back from its tuples, with empty and non-empty values, if and only if each tuple fits with what follows it |
| `SshCerts.MarshalTuples` | xendor/github.com/glycerine/xcryptossh/certs.go:101-117 | collects the keys in any order and writes the tuples in ascending order |
| `SshCerts.ParseTuples` | xendor/github.com/glycerine/xcryptossh/certs.go:121-158 | reads tuples in strictly ascending order and refuses others |
| `SshKeys.Names` | xendor/github.com/glycerine/xcryptossh/keys.go:32-62 | each of the six algorithms is known by its name |
| `SshKeys.CertNames` | xendor/github.com/glycerine/xcryptossh/certs.go:415-433 | so is each certificate algorithm, and no name stands for both a key and a certificate |
| `SshKeys.KeyLayout` | xendor/github.com/glycerine/xcryptossh/keys.go:334-598 | the wire form of a key of each algorithm, field by field |
| `SshKeys.KeyBodyRoundTripIff` | xendor/github.com/glycerine/xcryptossh/keys.go:310-598 | an RSA, DSA, ECDSA or Ed25519 key comes back, with what follows it left over, if and only if its parser accepts it and its lengths fit |
| `SshCertificate.PlainKeyRoundTripIff` | xendor/github.com/glycerine/xcryptossh/keys.go:246-258 | ParsePublicKey gives a key back if and only if its parser accepts it |
| `SshCertificate.MarshalStringList` | xendor/github.com/glycerine/xcryptossh/certs.go:80-87 | the principals one after the other |
| `SshCertificate.ParsePrincipals` | xendor/github.com/glycerine/xcryptossh/certs.go:186-193 | the principals, or an error for a short one |
| `SshCertificate.SignatureRoundTripIff` | xendor/github.com/glycerine/xcryptossh/certs.go:491-506 | a signature comes back if and only if its strings fit; an absent one is refused |
| `SshCertificate.SignedBytesArePrefix` | xendor/github.com/glycerine/xcryptossh/certs.go:435-441 | the signed bytes are the marshalled certificate up to its signature, the same whatever the signature |
| `SshCertificate.CertLayout` | xendor/github.com/glycerine/xcryptossh/certs.go:445-474 | the wire form of a certificate, field by field |
| `SshCertificate.CertificateRoundTripIff` | xendor/github.com/glycerine/xcryptossh/certs.go:160-216 | a certificate comes back from its wire form if and only if the keys are acceptable and it and every certificate in the chain of keys that signed it is signed; else a signature is the error |
| `SshCipher.PaddingRules` | xendor/github.com/glycerine/xcryptossh/cipher.go:226-235 | padding is 4 to 19 bytes and fills a multiple of 16 |
| `SshCipher.CryptTwice` | xendor/github.com/glycerine/xcryptossh/cipher.go:149-298 | applying the keystream twice from the same place gives the data back |
| `SshCipher.XorBitwise` | xendor/github.com/glycerine/xcryptossh/cipher.go:149-298 | a bit of the result is set if and only if it is set in one of data and keystream |
| `SshCipher.StreamRoundTripIff` | xendor/github.com/glycerine/xcryptossh/cipher.go:149-298 | with or without a MAC, in both orders: the packet comes back and the keystream stays in step if and only if it is not empty and its padded length is within maxPacket |
| `SshCipher.StreamReadIff` | xendor/github.com/glycerine/xcryptossh/cipher.go:149-218 | a packet is handed up if and only if it stands at the front of the input in its sealed form, for some padding, with the right MAC where there is one |
| `SshCipher.StreamReadsTagged` | xendor/github.com/glycerine/xcryptossh/cipher.go:206-214 | with any other tag behind it a readable packet is refused |
| `SshCipher.StreamBytesAreSealed` | xendor/github.com/glycerine/xcryptossh/cipher.go:221-298 | what is written is that form, and each byte of keystream is used once |
| `SshCipher.StreamSealedUnder` | xendor/github.com/glycerine/xcryptossh/cipher.go:221-298 | the k-th packet of a sequence has the k-th sequence number and the keystream that follows the others |
| `SshCipher.StreamStaysInStep` | xendor/github.com/glycerine/xcryptossh/cipher.go:149-298 | any sequence of such packets is read back as written |
| `SshCipher.StreamCipher.WritePacket` | xendor/github.com/glycerine/xcryptossh/cipher.go:221-298 | writes prefix, encrypted packet with padding, and tag; refuses only packets too long without padding |
| `SshCipher.StreamCipher.ReadPacket` | xendor/github.com/glycerine/xcryptossh/cipher.go:149-218 | hands up only what stands there in its sealed form, tag included; else the error for a short, too small, too large or unauthentic packet |
| `SshCipher.IncrementedValue` | xendor/github.com/glycerine/xcryptossh/cipher.go:360-367 | the counter goes up by one, from all ones to zero |
| `SshCipher.IncIV` | xendor/github.com/glycerine/xcryptossh/cipher.go:360-367 | increments bytes 4 to 11 as one number and leaves bytes 0 to 3 alone |
| `SshCipher.IVAfterValue` | xendor/github.com/glycerine/xcryptossh/cipher.go:360-367 | after k packets the counter is k higher modulo 2^64 and the fixed part the same |
| `SshCipher.IVsDiffer` | xendor/github.com/glycerine/xcryptossh/cipher.go:326-367 | of fewer than 2^64 packets no two are sealed under the same IV |
| `SshCipher.GcmSealedUnder` | xendor/github.com/glycerine/xcryptossh/cipher.go:326-358 | the k-th packet of a sequence is sealed under the k-th IV |
| `SshCipher.GcmReadIff` | xendor/github.com/glycerine/xcryptossh/cipher.go:369-406 | a packet is handed up if and only if the cipher opens what stands there, with the length authenticated, and finds it inside |
| `SshCipher.GcmRoundTripIff` | xendor/github.com/glycerine/xcryptossh/cipher.go:326-406 | a packet of any length is written and comes back if and only if it is not empty and its padded length is within maxPacket; what is written of others is refused |
| `SshCipher.GcmStaysInStep` | xendor/github.com/glycerine/xcryptossh/cipher.go:326-406 | any sequence of such packets is read back, with both IVs moving alike |
| `SshCipher.GcmCipher.WritePacket` | xendor/github.com/glycerine/xcryptossh/cipher.go:326-358 | seals padding length, packet and padding under the length, and counts the IV up by one; crashes from 2^32 bytes on |
| `SshCipher.GcmCipher.ReadPacket` | xendor/github.com/glycerine/xcryptossh/cipher.go:369-406 | gives back whatever a writer with the same IV has sealed, if it is readable; counts the IV up by one whenever a packet could be opened |
| `Lifecycle.Halter.AddDownstream` | xendor/github.com/glycerine/xcryptossh/halter.go:126-131 | links both ways; the graph is acyclic afterwards if and only if it was and d did not lead to this |
| `Lifecycle.Halter.RemoveDownstream` | xendor/github.com/glycerine/xcryptossh/halter.go:133-138 | unlinks both ways, and keeps an acyclic graph so |
| `Lifecycle.Halter.RequestStop` | xendor/github.com/glycerine/xcryptossh/halter.go:196-205 | terminates on every acyclic graph, and asks exactly the halters reachable from it to stop |
| `Lifecycle.Halter.WaitForDownstreamDone` | xendor/github.com/glycerine/xcryptossh/halter.go:207-218 | returns if and only if all directly downstream are done |
| `Lifecycle.Halter.MarkDone` | xendor/github.com/glycerine/xcryptossh/halter.go:234-238 | done only when all directly downstream were seen done; all reachable are asked to stop |
| `Lifecycle.Halter.MarkDoneNoBlock` | xendor/github.com/glycerine/xcryptossh/halter.go:243-246 | the same without the wait |
| `Lifecycle.Halter.ContextCancelled` | xendor/github.com/glycerine/xcryptossh/halter.go:267-303 | ends the halter itself and tells no other |
| `Graphs.ReachesIffWalk` | xendor/github.com/glycerine/xcryptossh/halter.go:196-205 | a halter is reached if and only if a walk along links leads to it |
| `Graphs.AcyclicIffNoClosedWalk` | xendor/github.com/glycerine/xcryptossh/halter.go:126-138 | a graph is acyclic if and only if no walk comes back to its start |
| `Graphs.AcyclicIffRanked` | xendor/github.com/glycerine/xcryptossh/halter.go:196-205 | a graph has a ranking that falls along every link, which is why the recursion ends, if and only if it is acyclic |
| `Graphs.LinkKeepsAcyclicIff` | xendor/github.com/glycerine/xcryptossh/halter.go:126-131 | a new link from h to d leaves the graph acyclic if and only if it was and d does not lead to h |
| `Graphs.SelfLinkIsACycle` | xendor/github.com/glycerine/xcryptossh/halter.go:126-131 | a halter added downstream of itself is a cycle |
| `RingBuffer.FixedSizeRingBuf.Bytes` | _vendor/github.com/glycerine/go-unsnap-stream/rbuf.go:90-111 | the contents in one piece, copied to the other buffer if they wrap; the queue is unchanged |
| `RingBuffer.FixedSizeRingBuf.ReadAndMaybeAdvance` | _vendor/github.com/glycerine/go-unsnap-stream/rbuf.go:163-183 | the front of the queue, as much as fits; end of file only on an empty queue; drops it only if told to |
| `RingBuffer.FixedSizeRingBuf.Write` | _vendor/github.com/glycerine/go-unsnap-stream/rbuf.go:191-223 | appends the longest prefix that fits, and reports short if and only if that is not all |
| `RingBuffer.FixedSizeRingBuf.WriteTo` | _vendor/github.com/glycerine/go-unsnap-stream/rbuf.go:230-269 | what the writer took leaves the front of the queue; ends as empty, failed, short or complete by what the two writes answered |
| `RingBuffer.TakenEnds` | _vendor/github.com/glycerine/go-unsnap-stream/rbuf.go:230-269 | empty, failed, short and complete each mean just what they say: nothing there, an error reported, less or all taken without one |
| `RingBuffer.FixedSizeRingBuf.ReadFrom` | _vendor/github.com/glycerine/go-unsnap-stream/rbuf.go:274-294 | appends what the source gives, in reads of whatever sizes, until it ends, fails or the buffer is full; a failure is reported unless the buffer was full before it |
| `RingBuffer.FixedSizeRingBuf.Reset` | _vendor/github.com/glycerine/go-unsnap-stream/rbuf.go:296-300 | empties the queue |
| `RingBuffer.FixedSizeRingBuf.Advance` | _vendor/github.com/glycerine/go-unsnap-stream/rbuf.go:306-315 | drops bytes from the front, all if there are fewer, none for a count that is not positive |
| `RingBuffer.FixedSizeRingBuf.Adopt` | _vendor/github.com/glycerine/go-unsnap-stream/rbuf.go:326-342 | the slice becomes the contents, and the buffer if it is larger |
| `RingBuffer.FixedSizeRingBuf.GetEndmostWritable` | _vendor/github.com/glycerine/go-unsnap-stream/rbuf.go:362-369 | the stretch answered is free, starts where the next write goes, and is empty only on a full buffer |
| `RingBuffer.FixedSizeRingBuf.HoldsContents` | _vendor/github.com/glycerine/go-unsnap-stream/rbuf.go:362-369 | the positions counted as readable are those the contents are made of |
| `SshAuth.SuccessNeedsBoth` | xendor/github.com/glycerine/xcryptossh/server.go:311-511 | over every sequence of requests and mix of skip flags: success takes both flags, hence a right key and right answers among the requests handled, where they are not switched off; flags never revert and cached successes hold |
| `SshAuth.FactorsWereShown` | xendor/github.com/glycerine/xcryptossh/server.go:311-511 | from any state in order, a success owes each flag to that state or to a request, handled before it, that earned it |
| `SshAuth.OneFactorEnters` | server.go:841-853 | a factor that is switched off is not asked for: the other alone gets in |
| `SshAuth.SuccessProvesKeyIff` | xendor/github.com/glycerine/xcryptossh/server.go:417-470 | a success comes with a right key that was signed for if and only if not every right key came in a query or under a signature algorithm that is not accepted |
| `SshAuth.WithoutBareKeys` | xendor/github.com/glycerine/xcryptossh/server.go:417-470 | a client that offers no right key that way has proved one when it gets in |
| `SshAuth.BareKeyIsEnough` | xendor/github.com/glycerine/xcryptossh/server.go:417-448 | every query for a right key, with right answers after it, gets in without any proof of the key |
| `SshAuth.QueryOfOneAnswersOfAnother` | xendor/github.com/glycerine/xcryptossh/server.go:417-448 | for any two users, a query for the key of one and the answers of the other get in |
| `SshAuth.AnyKeyOnceBothAreSet` | server.go:768-789 | with both flags set, a signed request with any key of a known user gets in unless that key was refused before |
| `SshAuth.WrongKeyEnters` | server.go:768-789 | after right answers and a query for a right key, a signed request with another key gets in, from the start and for any limit but one try |
| `SshAuth.KeySuccessIsProved` | xendor/github.com/glycerine/xcryptossh/server.go:417-470 | where no right key is offered that way, a session that ends with a key in success ends with a right key that was signed for |
| `SshAuth.FactorsOfOneUserIff` | xendor/github.com/glycerine/xcryptossh/server.go:348-350 | the key and the answers of every success are of one user if and only if the requests can name only one, or the limit is one try |
| `SshAuth.OneTryNeverEnters` | xendor/github.com/glycerine/xcryptossh/server.go:320-332 | with a limit of one try and both factors asked for, nobody gets in |
| `SshAuth.RoundKeeps` | xendor/github.com/glycerine/xcryptossh/server.go:320-504 | a round keeps the cache and the records in order and sets a flag only for the factor shown |
| `SshAuth.KeyboardSucceedsIff` | server.go:613-697 | an interactive round succeeds if and only if all answers are right and a key was accepted before |
| `SshAuth.KeySucceedsIff` | server.go:723-818 | any round with a key succeeds if and only if it parses, is signed for under accepted algorithms, and the key passes: by the cached answer, or with both factors |
| `SshAuth.TriesAreLimited` | xendor/github.com/glycerine/xcryptossh/server.go:320-332 | at most MaxAuthTries requests other than "none" are rejected, six if it is 0, and a client that uses them up is out |
| `SshAuth.CutOffIff` | xendor/github.com/glycerine/xcryptossh/server.go:320-332 | a client is cut off if and only if its penalties, all failures but a "none" before any other, reach the limit |
| `SshAuth.NoLimitWhenNegative` | xendor/github.com/glycerine/xcryptossh/server.go:62-66 | with a negative limit any number of requests may be rejected |
| `SshAuth.NoneIsFreeUntilAFailure` | xendor/github.com/glycerine/xcryptossh/server.go:353-361 | "none" changes nothing until another request failed; from then on each counts |
| `SshAuth.Challenge` | xendor/github.com/glycerine/xcryptossh/server.go:519-566 | as many answers as questions, so every index into them is in range |
| `SshAuth.ReplyRoundTripIff` | xendor/github.com/glycerine/xcryptossh/server.go:538-566 | a reply is taken for the answers it was made of if and only if they are as many as asked for and fit |
| `SshAuth.ReadReply` | xendor/github.com/glycerine/xcryptossh/server.go:538-566 | the answers, or an error for another message, a wrong count, a short string or junk at the end |
| `SshAuth.PerAttempt.constructor` | server.go:841-853 | a factor that is switched off counts as passed from the start |
| `SshAuth.PerAttempt.KeyboardInteractiveCallback` | server.go:613-697 | sets the one-time flag for right answers, and succeeds only if a key was accepted too |
| `SshAuth.PerAttempt.PublicKeyCallback` | server.go:723-818 | counts the key as seen, and as accepted if it is the one on file, which sets the key flag; succeeds exactly for known users with both flags set in the end |
| `SshAuth.PerAttempt.AuthLogCallback` | server.go:705-721 | on success sets the flag of the method |
| `SshAuth.PubKeyCache.Get` | xendor/github.com/glycerine/xcryptossh/server.go:137-144 | the first answer cached for the user and key |
| `SshAuth.PubKeyCache.Add` | xendor/github.com/glycerine/xcryptossh/server.go:147-151 | up to sixteen, the first answer for a user and key is the one Get gives from then on, and no other answer changes; then nothing does |
| `SshAuth.RefusedForGood` | xendor/github.com/glycerine/xcryptossh/server.go:417-428 | a key refused while fewer than sixteen answers are kept never gets that user in for the rest of the session, whatever the flags |
| `SshAuth.ServerAuthenticate` | xendor/github.com/glycerine/xcryptossh/server.go:311-511 | the loop over a client's requests ends as the specification of the session says |

## Left out

- SnappyEncode.EncodeBlock: asks for at least 17 bytes, as the source does; shorter blocks are EncodeOneBlock's.
- SshObjects.Channel.WriteExtended: the call that ends; for 2^32 bytes or more it does not (SshFlowSafety.LongWriteNeverEnds).
- SshWriters.ReadsFollowWrites: one writer at a time on the stream; with several it does not hold (SshFlowRuns.OverlappingWritesMix), and SshWriters.EachCallInOrder and SshFlowSafety.ReadsAreAPrefix say what does.
- SshObjects.Channel.HandlePacket: the object is used by one goroutine at a time; interleavings are the state machine's.
- SshCertificate.CertificateRoundTripIff: certificates of fewer than 2^32 bytes, over keys of fewer; which byte strings are points of a curve is a parameter.
- SshCertificate.PlainKeyRoundTripIff: keys of fewer than 2^32 bytes; SshKeys.KeyBodyRoundTripIff has no such bound.
- SshRekey.NoDeadlock: a connection takes whatever is written to it; one that fills up would block writers.
- Lifecycle.Halter.RequestStop: acyclic graphs; on a cycle through this halter the source waits for its own lock.
- RingBuffer.FixedSizeRingBuf.Adopt: whole arrays; a part of one of the two buffers in use cannot be passed.
- RingBuffer.FixedSizeRingBuf.constructor: a capacity of at least one; with none, the source divides by zero.
- SshAuth.Challenge: the second, informative challenge after a success is ignored, as its answer is in the source; the prompts sent are not modelled.
- Cryptographic primitives and checksums are parameters: a keystream, a MAC, seal and open with open undoing seal, any checksum function.
- What passwords, codes, signatures, user records and key files say is part of each authentication request.
- Idle timers, deadlines and contexts: a blocking call may return early, at any point where it waits.
- Locks are not modelled inside the objects; steps of the state machines are the sections that hold them. Calls on halters are one at a time.
- The packet buffer that concurrent calls of WriteExtended on one stream share, which the source calls an error of the caller.
- Slices that share memory with what they were taken from (Bytes and Adopt of the ring, Encode's result) are values or ranges here.
- Runs in which a key exchange fails or the transport is stopped; first_kex_packet_follows; the algorithms agreed on (findAgreedAlgorithms).
- Ignore and debug messages, which the read loop drops, and the packet that reports the first exchange to the layer above.
- When the read loop asks for new keys is left open: it may at any packet.
- Channel requests, global requests and out-of-band replies on the connection; a refused channel keeps its slot on the refusing side, as in the source, and its methods are not called.
- CBC packet ciphers; the amd64 assembly of snappy; SnappyFile and its panics.
- Known hosts, configuration, key generation, tunnels, listeners, terminals and mail: input and output around the parts modelled.
