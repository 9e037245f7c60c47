# A verified model of the Snapcast client's wire path

The client receives Snapcast frames over TCP, plays the audio chunks they carry and answers with
TIME messages once a second. This project models that path as one stack and proves it correct from
the bytes that arrive to the bytes that are played and sent.

| file | content |
|---|---|
| `words.dfy` | little-endian words of fixed width |
| `cursors.dfy` | the bounded read and write cursors, as values and as classes |
| `messages.dfy` | the messages as values: printers, parsers and their laws |
| `codecs.dfy` | the message structs and the functions that fill them field by field |
| `machine.dfy` | the framing state machine as a function of stream, transport, clock, allocator and output buffer |
| `history.dfy` | what the state says about the bodies handled so far, in every environment |
| `framing.dfy` | budgets, stalls, fragmentation and call boundaries over whole runs |
| `edits.dfy` | reads that fail or end inside a piece, as edits of the stream |
| `frames.dfy` | every stream is a sequence of frames, and where the parser stands in it |
| `playback.dfy` | end-to-end refinement: bytes output, gate and latency in terms of the frames |
| `wire.dfy` | the same for streams of printed messages |
| `session.dfy` | the process loop and the timer callback interleaved, down to the words of the latency; what the server reads |
| `duplex.dfy` | both directions together |
| `clock.dfy` | the clock arithmetic of TIME replies |
| `stream.dfy` | the client object: read callback, process callback, timer callback, open |

The classes in `cursors.dfy`, `codecs.dfy` and `stream.dfy` update their fields in place as the C
structs do. Every method is proved against a function on values, and the theorems are about those
functions: `Stream.SnapclientStream.Process` computes `Machine.Call`, a sequence of calls is a
sequence of loop turns (`Machine.CallsAreTurns`), and the theorems from `History` on speak about every
sequence of turns.

What the client does not control is a parameter: the stream of the server (`nat -> byte`), how many
bytes each transport call moves, whether `gettimeofday` and `malloc` succeed and what they return,
and what the output ring buffer accepts. The assumptions that a theorem makes about them are these:

- `Framing.Positive`: every transport read returns at least one byte. Only what a call is sure to take depends on it.
- `Framing.Clean`, of a run: for every piece that is asked for, the first read fails, or every read made for
  it is positive. Exactly these runs keep their place in the stream (`Framing.TurnKeepsPlaceIff`); a read of 0 between
  pieces does not (`Framing.EmptyReadRepeatsBuffer`). Every other run is a clean one over an edited stream (`edits.dfy`).
- `Frames.Receives`: the stream begins with the frames at hand. A frame is a header and its body, which may hold
  anything; a header that the client drops, because the clock fails or its type is 0, counts as a frame of its own.
  Every session receives such frames (`Frames.EverySessionReceives`), so `Playback.EverySession` and
  `Duplex.EveryWireToWire` need no assumption on stream, transport, clock, allocator and output buffer.
- `Frames.Confined`: the position does not lie behind the frames at hand, or no further body is read behind them.
- `Wire.Serving`: the allocator serves every request. Only the statements about printed messages need it.

History laws and send safety need none of these.

Three inputs make the C program touch memory outside its objects: a server-settings body under four bytes, a played
chunk that claims bytes beyond the end of the buffer, and a known codec whose payload is shorter than a sample format. What
it does from then on is not defined. The machine stops there (`State.halted`, a field of the class too), so every theorem
speaks of the program up to that point. A chunk that claims more than its frame but ends in the buffer is no such
input: the bytes behind the frame are handed out, and counted as such.

Where the code and its comments disagree, the code is modelled:

- The comment above the server-settings shift speaks of making room for a terminator. The terminator is
  stored one past the end of the text, so one byte of the old body is left between text and NUL.
  `Messages.ShiftedStringIff` gives the exact condition under which the string is the text, and
  `Messages.ShiftedStringDiffers` a text for which it is not.
- A TIME body of four to seven bytes is refused after its first word was stored, so the latency that is
  sent back is that of no reply. `History.LatencyIsReplyIff` gives the exact condition, and
  `Playback.ShortReplyIsKept` a session in which it happens.
- The read callback reports the full length after an early end of stream: exactly when
  (`Framing.ClaimedLength`), and from a first read of 0 on (`Framing.EmptyReadClaimsAll`). So the branch for
  a short piece in the process callback cannot be taken and has no counterpart.

## Model

| member | source | states |
|---|---|---|
| `Words.DecodeEncode` | components/libbuffer/buffer.c:43-165 | a value of any of the six word types, negative ones included, survives its writer followed by its reader |
| `Words.EncodeDecode` | components/libbuffer/buffer.c:43-165 | every byte string of the right width is what the writer makes of the value the reader returns, so no two values share bytes |
| `Words.LeNatSpelled` | components/libbuffer/buffer.c:48-51 | the shift-and-or statements of the readers compute the little-endian number |
| `Words.LeBytesSpelled` | components/libbuffer/buffer.c:60-63 | the mask-and-shift statements of the writers, on operands of either sign, put down its low bytes |
| `Cursors.ReadBuffer.constructor` | components/libbuffer/buffer.c:3-7 | a read cursor starts at index 0 over the given size |
| `Cursors.WriteBuffer.constructor` | components/libbuffer/buffer.c:9-13 | a write cursor starts at index 0 over the given size |
| `Cursors.ReadBuffer.ReadBlock` | components/libbuffer/buffer.c:15-27 | copies exactly the next block and advances past it, or refuses and changes neither index nor destination |
| `Cursors.WriteBuffer.WriteBlock` | components/libbuffer/buffer.c:29-41 | writes the whole block at the index or refuses and changes nothing |
| `Cursors.ReadBuffer.ReadUint32` | components/libbuffer/buffer.c:43-53 | status 1 exactly when fewer than four bytes are left, then index and destination are unchanged; otherwise the unsigned word at the index |
| `Cursors.WriteBuffer.WriteUint32` | components/libbuffer/buffer.c:55-65 | the four bytes of the word at the index, everything else unchanged; refused, nothing changes |
| `Cursors.ReadBuffer.ReadUint16` | components/libbuffer/buffer.c:67-75 | as ReadUint32, for two bytes |
| `Cursors.WriteBuffer.WriteUint16` | components/libbuffer/buffer.c:77-85 | as WriteUint32, for two bytes |
| `Cursors.ReadBuffer.ReadUint8` | components/libbuffer/buffer.c:87-94 | as ReadUint32, for one byte |
| `Cursors.WriteBuffer.WriteUint8` | components/libbuffer/buffer.c:96-103 | as WriteUint32, for one byte |
| `Cursors.ReadBuffer.ReadInt32` | components/libbuffer/buffer.c:105-115 | as ReadUint32, the word taken as two's complement |
| `Cursors.WriteBuffer.WriteInt32` | components/libbuffer/buffer.c:117-127 | the two's-complement bytes of a signed word |
| `Cursors.ReadBuffer.ReadInt16` | components/libbuffer/buffer.c:129-137 | as ReadInt32, for two bytes |
| `Cursors.WriteBuffer.WriteInt16` | components/libbuffer/buffer.c:139-147 | as WriteInt32, for two bytes |
| `Cursors.ReadBuffer.ReadInt8` | components/libbuffer/buffer.c:149-156 | as ReadInt32, for one byte |
| `Cursors.WriteBuffer.WriteInt8` | components/libbuffer/buffer.c:158-165 | as WriteInt32, for one byte |
| `Cursors.WriteAllFrame` | components/libbuffer/buffer.c:29-165 | no sequence of writes touches what lies before the cursor or beyond its size |
| `Cursors.Replay` | components/libbuffer/buffer.c:15-165 | for any sequence of typed and block writes, refused ones included, reading back with the same types refuses exactly the same operations, returns every other value and ends at the same index |
| `Cursors.LongestPrefixIff` | components/libbuffer/buffer.c:43-85 | attempting every field after a failure yields the longest whole-field prefix for every amount of room if and only if the field widths never decrease |
| `Messages.BaseParsesBack` | components/lightsnapcast/snapcast.c:19-53 | the print of a base message, whatever follows it, parses back to the message |
| `Messages.BasePrintsBack` | components/lightsnapcast/snapcast.c:19-53 | every 26-byte string is the print of the message it parses to |
| `Messages.BaseInjective` | components/lightsnapcast/snapcast.c:19-35 | two base messages have the same encoding exactly when they are equal |
| `Messages.WholeFieldsLongest` | components/lightsnapcast/snapcast.c:25-32 | for every size the fields of the base message that go through are the longest prefix of whole fields |
| `Messages.CodecParsesBack` | components/lightsnapcast/snapcast.c:210-245 | every printed pair of name and payload, whatever follows it, parses back to itself |
| `Messages.CodecPrintsBack` | components/lightsnapcast/snapcast.c:210-245 | a body that parses starts with the print of the result |
| `Messages.CodecAcceptedIff` | components/lightsnapcast/snapcast.c:210-245 | with memory to spare the status is 0 exactly when the body starts with the print of some pair, which is then the only one; and exactly when both lengths fit |
| `Messages.CStringIs` | components/snapclient_stream/snapclient_stream.c:400-409 | the C string at a place is the text before the first NUL |
| `Messages.ChunkParsesBack` | components/lightsnapcast/snapcast.c:247-263 | a printed wire chunk parses to its stamp, its size and the payload at offset 12 |
| `Messages.TimeParsesBack` | components/lightsnapcast/snapcast.c:291-313 | a printed time message parses back to its latency |
| `Messages.PrefixedTextParsesBack` | components/lightsnapcast/snapcast.c:151-162 | the hand-written length prefix is what the 32-bit reader decodes to the text length |
| `Messages.ShiftMovesText` | components/snapclient_stream/snapclient_stream.c:482-486 | the overlapping shift puts the text of a length-prefixed body at offset 0 and a NUL at `message_size - 3`, and changes nothing at or beyond `message_size` |
| `Messages.ShiftedStringIff` | components/snapclient_stream/snapclient_stream.c:482-488 | the C string given to the JSON parser is the text if and only if the text is shorter than four bytes; else it is the text with its fourth byte from the end once more |
| `Messages.SupportedIff` | components/snapclient_stream/snapclient_stream.c:400-416 | a name is known if and only if it is, up to its first NUL, one of the words opus, flac, pcm and ogg |
| `Messages.ShiftedStringDiffers` | components/snapclient_stream/snapclient_stream.c:482-488 | a text for which it is not: the settings body with abcd gives the JSON parser abcda |
| `Codecs.BaseMessage.Serialize` | components/lightsnapcast/snapcast.c:19-35 | returns 0 iff the size is at least 26; writes exactly the longest whole-field prefix of the encoding and leaves the rest of the data alone |
| `Codecs.BaseMessage.Deserialize` | components/lightsnapcast/snapcast.c:37-53 | returns 0 iff the size is at least 26; each field is set exactly when its own last byte lies inside the data |
| `Codecs.TimeMessage.Serialize` | components/lightsnapcast/snapcast.c:291-301 | returns 0 iff the size is at least 8; writes the longest whole-field prefix |
| `Codecs.TimeMessage.Deserialize` | components/lightsnapcast/snapcast.c:303-313 | returns 0 iff the size is at least 8; each word is set exactly when it fits, also when the result is 1 |
| `Codecs.CodecHeaderMessage.Deserialize` | components/lightsnapcast/snapcast.c:210-245 | the status for every size and every answer of the allocator, spelled out and as that of the codec-header parser; on success the terminated name, the size and the payload are its result; after each refusal name block, size and payload block hold exactly what the steps before it stored |
| `Codecs.WireChunkMessage.Deserialize` | components/lightsnapcast/snapcast.c:247-263 | returns 0 iff twelve bytes are there; each of stamp words, size and payload offset is set exactly when its own last byte lies inside the data, also when the result is 1 |
| `Codecs.HelloMessageSerialize` | components/lightsnapcast/snapcast.c:151-166 | returns the text after its 32-bit length, or nothing when the allocation fails |
| `Codecs.ShiftSettings` | components/snapclient_stream/snapclient_stream.c:485-486 | the in-place shift and the store of the terminator |
| `Stream.SnapclientStream.ReadCallback` | components/snapclient_stream/snapclient_stream.c:278-309 | for every behaviour of the transport: buffer, stream position, byte position and return value of the read callback |
| `Stream.SnapclientStream.HandleBase` | components/snapclient_stream/snapclient_stream.c:360-378 | effect of a header piece |
| `Stream.SnapclientStream.HandleCodecHeader` | components/snapclient_stream/snapclient_stream.c:380-428 | effect of a codec header: the codec format is set exactly for a header that parses and names a known codec; the gate opens when it has a sample format too, else the machine stops |
| `Stream.SnapclientStream.HandleWireChunk` | components/snapclient_stream/snapclient_stream.c:440-476 | effect of a wire chunk: ignored while the gate is closed; else one output call with the bytes of the buffer that its size word claims, those behind its frame included, and its credit to the byte position; the machine stops when they end outside the buffer |
| `Stream.SnapclientStream.HandleServerSettings` | components/snapclient_stream/snapclient_stream.c:478-491 | effect of server settings: the type is reset, the buffer shifted and the string at its start given to the JSON parser; the machine stops for a body under four bytes |
| `Stream.SnapclientStream.HandleTime` | components/snapclient_stream/snapclient_stream.c:516-571 | effect of a TIME body: the latency words that fit, and the computed server-to-client latency |
| `Stream.SnapclientStream.IgnoreBody` | components/snapclient_stream/snapclient_stream.c:584-593 | effect of stream tags and unknown types |
| `Stream.SnapclientStream.Process` | components/snapclient_stream/snapclient_stream.c:311-600 | a call with any budget on any stream and transport ends in the state that the call function gives, up to where the C program has no defined behaviour |
| `Stream.SnapclientStream.SendTimeTimerCb` | components/snapclient_stream/snapclient_stream.c:43-96 | nothing while the gate is closed; else id and clock are updated and header and latency are written; uninterrupted and with complete writes it is the three timer steps in a row |
| `Stream.SnapclientStream.Open` | components/snapclient_stream/snapclient_stream.c:129-253 | succeeds exactly when every step does; resets the state field by field; the socket gets the bytes of HELLO header and body that the two writes take, the second write being made after every first one that does not fail, and nothing when a step before them fails; with complete writes exactly the HELLO frame |
| `Machine.HaltedStays` | components/snapclient_stream/snapclient_stream.c:328-596 | where the C program goes on in a way that is not defined, the machine stops: nothing changes any more |
| `History.TurnsKeepFaithful` | components/snapclient_stream/snapclient_stream.c:328-596 | in every run on every stream and environment, gate, output calls, latencies, computed latencies and whether the machine has stopped are functions of the bodies handled, and none is forgotten |
| `History.OutputGate` | components/snapclient_stream/snapclient_stream.c:380-466 | from open on, the gate is closed until a supported codec header has been handled, stays open whatever follows, and nothing is output while it is closed |
| `History.LatencyWords` | components/lightsnapcast/snapcast.c:303-313 | the microseconds of the latency are those of the last TIME reply, the seconds those of the last TIME body of at least four bytes |
| `History.LatencyIsReplyIff` | components/snapclient_stream/snapclient_stream.c:544-550 | the latency is the one of the last TIME reply if and only if no shorter TIME body with other seconds came after it |
| `History.RunOutputsAreClaimed` | components/snapclient_stream/snapclient_stream.c:461-466 | in every run every output call is given as many bytes as it claims, and none for a negative length |
| `Framing.ReassembledIff` | components/snapclient_stream/snapclient_stream.c:285-301 | all bytes of a piece are delivered exactly when no read that was made failed or came back empty |
| `Framing.ClaimedLength` | components/snapclient_stream/snapclient_stream.c:287-308 | the callback claims the full length unless the transport failed; it claims more than it delivered exactly when the last read made returned 0; nothing beyond the delivered bytes changes |
| `Framing.EmptyReadClaimsAll` | components/snapclient_stream/snapclient_stream.c:294-308 | a read of 0 before the first byte: the whole length is claimed, nothing is delivered |
| `Framing.ReadsWholePiece` | components/snapclient_stream/snapclient_stream.c:278-309 | with positive reads the buffer gets exactly the next bytes of the stream, for every fragmentation |
| `Framing.TurnTakesPiece` | components/snapclient_stream/snapclient_stream.c:328-354 | a loop turn handles the pending piece when it has a positive length and fits, else it leaves the framing state alone |
| `Framing.TurnKeepsPlaceIff` | components/snapclient_stream/snapclient_stream.c:278-354 | on any transport a turn that asks for a piece ends behind the whole piece or where it was if and only if its first read failed or every read made for it was positive; otherwise it ends short of the end of the piece |
| `Framing.EmptyReadRepeatsBuffer` | components/snapclient_stream/snapclient_stream.c:294-354 | a read of 0 before the first byte of a piece is not clean: the turn takes no byte, handles the stale bytes of the buffer as the piece, and goes on |
| `Framing.CleanTurnsAreOnTrack` | components/snapclient_stream/snapclient_stream.c:328-596 | every loop head of every run in which, for each piece asked for, the first read failed or all reads made were positive, is a state of the piece-by-piece parser |
| `Framing.TurnsAreOnTrack` | components/snapclient_stream/snapclient_stream.c:328-596 | with positive reads that holds for every run |
| `Framing.CallExhausts` | components/snapclient_stream/snapclient_stream.c:328-348 | a call never consumes more than its budget and stops only in front of a piece that has no positive length or does not fit, or where the machine stopped |
| `Framing.CallIsGreedy` | components/snapclient_stream/snapclient_stream.c:328-348 | a call takes the longest run of whole pieces that fits in its budget |
| `Framing.CallStallsIff` | components/snapclient_stream/snapclient_stream.c:330-346 | a call consumes no byte if and only if the pending size, as a signed integer, is not positive or exceeds the budget, or the machine has stopped, and then the framing state is unchanged |
| `Framing.CallBoundaryIndependence` | components/snapclient_stream/snapclient_stream.c:326-354 | two clean runs over one stream that consumed the same number of bytes agree on pending header (up to the clock stamp), gate, latency and output calls, however the bytes were split, when clock and allocator refused the same pieces and the buffers have one size; with the same buffer at the start they agree down to the bytes handed out from behind a frame |
| `Edits.EveryRunIsParsed` | components/snapclient_stream/snapclient_stream.c:278-354 | on every transport: a run has the state of the parser on a stream that is edited at the reads that give out inside a piece, the bytes delivered before a failing read left out and the stale bytes of the buffer put in after a read of 0 |
| `Edits.PrefixIsParsed` | components/snapclient_stream/snapclient_stream.c:278-354 | at every loop head of a run the parser on the stream of the whole run has that state |
| `Edits.NoEditsIff` | components/snapclient_stream/snapclient_stream.c:278-354 | the runs that need no edit are exactly the clean ones |
| `Edits.OnlyLosses` | components/snapclient_stream/snapclient_stream.c:285-296 | while no read returns 0, bytes are only left out |
| `Edits.EveryRunHasCleanTwin` | components/snapclient_stream/snapclient_stream.c:278-354 | every run has the state, and so the history, of a clean run over the edited stream |
| `Edits.CallStops` | components/snapclient_stream/snapclient_stream.c:328-348 | on every transport: a call makes no read after a failed one, uses no more than its budget, and stops exactly where it must: its last read failed if and only if the pending piece has a positive length and fits in what is left of the budget |
| `Edits.EveryRunAccounts` | components/snapclient_stream/snapclient_stream.c:278-309 | on every transport: the byte position grows by what the parser has read, bytes claimed at an end of stream included and bytes lost at a failing read not, plus the claimed sizes of the output calls that returned a positive count, plus every negative length asked for |
| `Edits.HugeSizeRewinds` | components/snapclient_stream/snapclient_stream.c:278-309 | for a pending size of 2^31 or more, read as a signed integer, every call makes no read and moves the byte position back by the difference to 2^32 |
| `Frames.ReceivesIff` | components/snapclient_stream/snapclient_stream.c:330-382 | a session receives given frames if and only if they are what reading its stream frame by frame finds, up to where the machine stops |
| `Frames.EverySessionReceives` | components/snapclient_stream/snapclient_stream.c:330-382 | on any stream and with any clock a session receives the frames that reading the stream finds, and they end only where the machine stops or at a header whose size is not positive as a signed integer |
| `Frames.FrameSync` | components/snapclient_stream/snapclient_stream.c:330-382 | with any bodies and any clock: after the pieces of i frames the parser is at the start of frame i with no header pending, and one piece later, if the header is not dropped, 26 bytes further with exactly that header pending; its history and its buffer are those of the first i frames |
| `Frames.HistoryOfRun` | components/snapclient_stream/snapclient_stream.c:328-596 | at any loop head of a clean run the history is that of the frames consumed whole, whatever their bodies, the clock, the allocator and the output buffer |
| `Frames.SameCount` | components/snapclient_stream/snapclient_stream.c:330-382 | the stream position determines how many frames are consumed |
| `Frames.FramesAreConsumed` | components/snapclient_stream/snapclient_stream.c:328-346 | calls whose budgets hold a header and every body consume the first n frames within 2n calls |
| `Frames.BlockedForGood` | components/snapclient_stream/snapclient_stream.c:333-338 | a halt, or a header whose size is not positive as a signed integer, ends the session: no run gets further than behind that header |
| `Frames.CallTakesFrame` | components/snapclient_stream/snapclient_stream.c:328-596 | a call with the budget of one frame takes exactly that frame |
| `Playback.BodyMeans` | components/snapclient_stream/snapclient_stream.c:380-593 | what the client makes of any body, in terms of the frame and the buffer: it opens the gate iff it starts with the print of a codec header for a known codec with a sample format and the allocator serves it; which bytes a chunk hands out; when the machine stops |
| `Playback.HandedLength` | components/snapclient_stream/snapclient_stream.c:461-466 | the bytes handed out are as many as the audio bytes, and then equal to them, if and only if no played chunk has a size word, as a signed integer, above what its frame holds |
| `Playback.GreedyChunkIsPlayed` | components/snapclient_stream/snapclient_stream.c:461-470 | a session in which a chunk of twelve bytes with the size word 100 has a hundred bytes of the buffer handed out, none of them audio |
| `Playback.EndToEnd` | components/snapclient_stream/snapclient_stream.c:328-596 | at any loop head of any clean run on a stream that begins with given frames of any content, the output calls are, one by one, those for the chunks among the frames consumed that follow the frame that opened the gate: the audio, what the buffer holds behind a chunk that overruns its frame, and the size word; all the bytes are the audio of these chunks if and only if none overruns; gate, latency words, the strings given to the JSON parser and halt are those of the same frames |
| `Playback.OutputFollowsPosition` | components/snapclient_stream/snapclient_stream.c:328-596 | whenever the stream position lies in frame n, the state is what the frames before it say |
| `Playback.EndToEndCalls` | components/snapclient_stream/snapclient_stream.c:311-600 | the same at the end of any sequence of calls over positive reads, the number of frames being the one the stream position determines |
| `Playback.EverySession` | components/snapclient_stream/snapclient_stream.c:278-596 | the same for every run on every stream, transport, clock, allocator and output buffer, with the frames found in the stream as the transport lets the parser see it |
| `Playback.PositionOnFrames` | components/snapclient_stream/snapclient_stream.c:307-472 | in every session the byte position grows by what the parser has read and by the size words, as signed integers, of the played chunks whose output call returned a positive count; only a header of negative length makes a difference |
| `Playback.EffectByNumber` | components/snapclient_stream/snapclient_stream.c:356-593 | a frame whose first bytes are 1, 0 opens the gate when it names opus, flac, pcm or ogg and has a sample format; 2, 0 hands out its audio; 3, 0 gives its text to the JSON parser; 4, 0 sets the latency and computes the other one; any other kind changes nothing |
| `Playback.ShortReplyIsKept` | components/snapclient_stream/snapclient_stream.c:516-550 | a session in which one call takes a TIME frame of four bytes and keeps a latency that no reply carried |
| `Wire.MessageMeans` | components/snapclient_stream/snapclient_stream.c:380-593 | what the client makes of the print of each kind of message |
| `Wire.MessagesEndToEnd` | components/snapclient_stream/snapclient_stream.c:328-596 | for printed messages and an allocator that serves: the bytes output are the payloads of the chunks after the first supported codec header, the latency is that of the last TIME message, the JSON parser is given the settings texts (with one byte too many from four bytes on), and the machine never stops |
| `Session.TimerDoesNotDisturb` | components/snapclient_stream/snapclient_stream.c:43-96 | in every interleaving the receiving side is a run of the loop alone |
| `Session.RunStaysSafe` | components/snapclient_stream/snapclient_stream.c:43-96 | every interleaving keeps the sent bytes equal to HELLO, whole TIME frames and at most one pending header |
| `Session.SendSafety` | components/snapclient_stream/snapclient_stream.c:43-96 | in every interleaving after open, the stores and the loads of the two latency words apart, a reader of frames gets one HELLO, then exactly as many whole TIME messages as callbacks started with the gate open and an answering clock and ran to their end, with consecutive ids modulo 65536, then at most the header of the next; every header, a lone one included, was printed at an event at which a supported codec header had been handled; each word of a body was loaded at a later event and is the one last stored until then |
| `Session.EveryCallbackSends` | components/snapclient_stream/snapclient_stream.c:43-96 | in every interleaving every callback that starts is carried out: the messages sent and the phase of the callback are those that the events and the receiving side determine |
| `Session.EventSends` | components/snapclient_stream/snapclient_stream.c:64-95 | at every event of every interleaving: a firing that starts a callback adds the 26 bytes of a TIME header with the next id, its end adds 8 bytes, every other event nothing |
| `Session.MessageOfOneReplyIff` | components/snapclient_stream/snapclient_stream.c:43-96 | for every message of every interleaving: its two words come from one TIME body if and only if the last body announced at the first load is a whole reply, its turn has ended at the second load, and no other reply was completed in between; then the latency sent is that of the last reply handled |
| `Session.MessageOfTwoReplies` | components/snapclient_stream/snapclient_stream.c:43-96 | a callback that goes on while a reply is being handled sends the seconds of the new reply with the microseconds of the old one |
| `Session.ParsesFrame` | components/lightsnapcast/snapcast.c:19-53 | a printed frame is read back as one frame |
| `Session.TypesOnWire` | components/lightsnapcast/include/snapcast.h:9-16 | HELLO and TIME frames begin with their type numbers 5 and 4 |
| `Duplex.WireToWire` | components/snapclient_stream/snapclient_stream.c:43-600 | in every interleaving on every transport, when the stream as the parser sees it begins with given frames of any content: the receiving side is what the frames consumed say; there are as many TIME messages as callbacks started with the gate open and an answering clock and ran to their end; each was printed after a frame that opened the gate was consumed and carries the words announced by the frames consumed at its two loads |
| `Duplex.EveryWireToWire` | components/snapclient_stream/snapclient_stream.c:43-600 | the same for every stream, with the frames found in it |
| `Clock.TimerSubIsExactIff` | components/snapclient_stream/snapclient_stream.c:563-569 | for normalised stamps the 32-bit difference is normalised, and exact if and only if its whole seconds fit in 32 bits |
| `Clock.TimerSubOfAny` | components/snapclient_stream/snapclient_stream.c:563-569 | for other stamps, too: one second is borrowed exactly for a negative difference of microseconds, and the result is exact if and only if its seconds fit in 32 bits |
| `Clock.LatencyOfFrame` | components/snapclient_stream/snapclient_stream.c:564-569 | the latency computed for a TIME reply comes from the two stamps of that frame's own header, whatever the other frames hold |
| `Clock.ReplyGivesOffset` | components/snapclient_stream/snapclient_stream.c:516-571 | over a whole clean run on frames of any content, the computed latency is the local stamp taken at the frame's header minus the sent stamp, and the two latencies differ by twice the clock offset plus the difference of the delays |

## Left out

- The JSON library: the HELLO text is an arbitrary string, and the parser of server settings is not modelled beyond the string it is given.
- Stream.SnapclientStream.HandleServerSettings: says nothing of the settings fields, which come out of the JSON library and are only logged.
- Clock.TimerSubIsExactIff: its "only if" half is about seconds of 32 bits; the width of the platform's `time_t` is not modelled, and with wider seconds the difference is always exact.
- Audio pipeline, transport set-up, socket errors and logging: replaced by an input stream, output calls and an interleaving of steps.
- Close, reopen and destroy: one session after one open.
- Allocation lifetime: `malloc` may fail; a name request that wraps to zero bytes counts as failed; a payload request of zero bytes may fail or succeed.
- The values of the sample format in a codec payload: they only feed a log line.
- Stream.SnapclientStream.HandleWireChunk: for a size word of 2^31 and more, says that the output call is made with a negative length, not what the audio framework does with it.
- The return value 2 of the wire-chunk parser: the parser never returns it, so the branch that gives up on it has no counterpart.
- Step size of the interleaving: the stores and loads of the two latency words are separate steps, those of the bytes of one word are not; all else in a loop turn or a part of the callback is one step.
- Wrap-around of the C `int` behind `id_counter` after 2^31 messages, of loop counters in the block copies, and of the byte position: these are unbounded integers.
- Session.SendSafety: assumes that every write after open is complete; the effect of shorter writes is in the contract of `Stream.SnapclientStream.SendTimeTimerCb`.
- Board support, Wi-Fi and the main program: start-up code and pin tables.
