/** The C objects of components/snapclient_stream/snapclient_stream.c and the functions
    that update them, each proved against the values in Machine and Session. */
module Stream {
  import opened Words
  import opened Cursors
  import opened Messages
  import opened Codecs
  import opened Machine
  import opened Session

  /** How many of `n` bytes a transport call that would like to move `wish` bytes moves;
      negative for a failure. */
  function Moved(wish: int, n: nat): (r: int)
    ensures -1 <= r <= n
  {
    if wish < 0 then -1 else if wish < n then wish else n
  }

  function Count(r: int): nat {
    if r < 0 then 0 else r
  }

  /** The TCP transport.  What the server sends and how much every read and write moves
      are not under the client's control. */
  class Transport {
    const stream: nat -> byte
    const script: nat -> int
    const capacity: nat -> int
    var pos: nat
    var fetches: nat
    var writes: nat
    var sent: seq<byte>

    constructor (stream: nat -> byte, script: nat -> int, capacity: nat -> int)
      ensures this.stream == stream && this.script == script && this.capacity == capacity
      ensures pos == 0 && fetches == 0 && writes == 0 && sent == []
    {
      this.stream, this.script, this.capacity := stream, script, capacity;
      pos, fetches, writes, sent := 0, 0, 0, [];
    }

    method Read(buffer: array<byte>, at: nat, n: nat) returns (r: int)
      requires at + n <= buffer.Length
      modifies `pos, `fetches, buffer
      ensures r == Moved(script(old(fetches)), n) && fetches == old(fetches) + 1
      ensures pos == old(pos) + Count(r)
      ensures buffer[..] == PutAt(old(buffer[..]), at, Slice(stream, old(pos), Count(r)))
    {
      hide PutAt, Slice;
      r := Moved(script(fetches), n);
      fetches := fetches + 1;
      ghost var mem := buffer[..];
      NothingPut(mem, at, stream, pos);
      var i := 0;
      while i < r
        invariant 0 <= i <= Count(r) && pos == old(pos) + i && fetches == old(fetches) + 1
        invariant buffer[..] == PutAt(mem, at, Slice(stream, old(pos), i))
      {
        OneMorePut(mem, at, stream, old(pos), i);
        ghost var mem1 := buffer[..];
        buffer[at + i] := stream(pos);
        assert buffer[..] == mem1[at + i := stream(pos)];
        pos := pos + 1;
        i := i + 1;
      }
    }

    method Write(data: array<byte>, n: nat) returns (r: int)
      requires n <= data.Length
      modifies `sent, `writes
      ensures r == Moved(capacity(old(writes)), n) && writes == old(writes) + 1
      ensures sent == old(sent) + data[..Count(r)]
    {
      r := Moved(capacity(writes), n);
      writes := writes + 1;
      sent := sent + data[..Count(r)];
    }
  }

  /** The audio element that the stream belongs to: its byte position, its codec format,
      and the output calls of the session. */
  class AudioElement {
    const inputs: nat -> Inputs
    var ticks: nat
    var bytePos: int
    var codecFormat: Option<seq<byte>>
    var outputs: seq<Output>

    constructor (inputs: nat -> Inputs)
      ensures this.inputs == inputs && ticks == 0 && bytePos == 0 && outputs == []
    {
      this.inputs := inputs;
      ticks, bytePos, codecFormat, outputs := 0, 0, None, [];
    }
  }

  class SnapclientStream {
    const t: Transport
    const baseMessage: BaseMessage
    const codecHeaderMessage: CodecHeaderMessage
    const wireChunkMessage: WireChunkMessage
    const timeMessage: TimeMessage
    var isOpen: bool
    var receivedHeader: bool
    var lastSync: Tv
    var idCounter: nat
    /** Set where the C program goes on in a way that is not defined: the model stops. */
    var halted: bool

    // The history of the session.
    ghost var s2c: seq<Tv>
    ghost var texts: seq<seq<byte>>
    ghost var log: seq<Handled>
    ghost var notes: seq<Note>

    constructor (t: Transport)
      ensures this.t == t && !isOpen
    {
      this.t := t;
      baseMessage := new BaseMessage(Base(0, 0, 0, ZERO, ZERO, 0));
      codecHeaderMessage := new CodecHeaderMessage();
      wireChunkMessage := new WireChunkMessage();
      timeMessage := new TimeMessage();
      isOpen, receivedHeader, lastSync, idCounter, halted := false, false, ZERO, 0, false;
      s2c, texts, log, notes := [], [], [], [];
    }

    ghost function EnvOf(self: AudioElement): Env {
      Env(t.stream, t.script, self.inputs)
    }

    ghost function StateOf(self: AudioElement): State
      reads this, baseMessage, timeMessage, self
    {
      State(baseMessage.Value(), receivedHeader, timeMessage.latency, self.outputs, s2c, texts, halted, log)
    }

    ghost function ConnOf(self: AudioElement, buffer: array<byte>): (c: Conn)
      reads this, baseMessage, timeMessage, t, self, buffer
      ensures |c.buf| == buffer.Length
    {
      Conn(StateOf(self), buffer[..], t.pos, t.fetches, self.ticks, self.bytePos)
    }

    ghost function NetOf(self: AudioElement, buffer: array<byte>): Net
      reads this, baseMessage, timeMessage, t, self, buffer
    {
      Net(ConnOf(self, buffer), Between, t.sent, idCounter, lastSync, Idle, notes)
    }

    // ---- the read callback -----------------------------------------------------------

    method ReadCallback(self: AudioElement, buffer: array<byte>, len: int) returns (r: int)
      requires len <= buffer.Length
      modifies t`pos, t`fetches, buffer, self`bytePos
      ensures (ConnOf(self, buffer), r) == ReadPiece(EnvOf(self), old(ConnOf(self, buffer)), len)
    {
      hide PutAt, Slice, Reassemble;
      StartsWith(buffer[..], Slice(t.stream, t.pos, Reassemble(t.script, t.fetches, len).got));
      var failed := ReadLoop(buffer, len);
      if failed {
        return -1;
      }
      self.bytePos := self.bytePos + len;
      r := len;
    }

    /** The reassembly loop. */
    method ReadLoop(buffer: array<byte>, len: int) returns (failed: bool)
      requires len <= buffer.Length
      modifies t`pos, t`fetches, buffer
      ensures var f := Reassemble(t.script, old(t.fetches), len);
              && failed == f.failed && t.fetches == f.next && t.pos == old(t.pos) + f.got
              && buffer[..] == PutAt(old(buffer[..]), 0, Slice(t.stream, old(t.pos), f.got))
    {
      hide PutAt, Slice, Reassemble;
      ghost var mem, pos := buffer[..], t.pos;
      ghost var f := Reassemble(t.script, t.fetches, len);
      NothingPut(mem, 0, t.stream, pos);
      var buff: nat := 0;
      var rem := len;
      while rem > 0
        invariant rem > 0 ==> buff + rem == len
        invariant t.pos == pos + buff && buff <= buffer.Length
        invariant buffer[..] == PutAt(mem, 0, Slice(t.stream, pos, buff))
        invariant f == var g := Reassemble(t.script, t.fetches, rem); g.(got := buff + g.got)
        decreases rem
      {
        ReassembleStep(t.script, t.fetches, rem);
        var rlen := t.Read(buffer, buff, rem);
        Joined(mem, t.stream, pos, buff, Count(rlen));
        if rlen < 0 {
          return true;
        } else if rlen == 0 {
          return false;
        }
        buff := buff + rlen;
        rem := rem - rlen;
      }
      ReassembleStep(t.script, t.fetches, rem);
      failed := false;
    }

    // ---- one piece -------------------------------------------------------------------

    /** The state after the header of the next message was read. */
    method HandleBase(self: AudioElement, buffer: array<byte>)
      requires baseMessage.typ == TYPE_BASE && BASE_MESSAGE_SIZE <= buffer.Length
      modifies baseMessage, self`ticks
      ensures ConnOf(self, buffer) == HandlePiece(EnvOf(self), old(ConnOf(self, buffer)))
    {
      hide HandleBody, At, Shifted;
      HeaderInPlace(buffer[..]);
      var inputs := self.inputs(self.ticks);
      self.ticks := self.ticks + 1;
      if inputs.clockOk {
        var result := baseMessage.Deserialize(buffer, BASE_MESSAGE_SIZE);
        baseMessage.received := inputs.now;
      }
    }

    method HandleCodecHeader(self: AudioElement, buffer: array<byte>, n: nat)
      requires baseMessage.typ == TYPE_CODEC_HEADER && 0 < n == PieceSize(baseMessage.Value()) <= buffer.Length
      requires !halted
      modifies baseMessage`typ, codecHeaderMessage, self`ticks, self`codecFormat, `receivedHeader, `halted, `log
      ensures ConnOf(self, buffer) == HandlePiece(EnvOf(self), old(ConnOf(self, buffer)))
      ensures self.codecFormat == if Names(log[|log| - 1])
                                  then Some(CString(ParseBody(log[|log| - 1]).name + [0])) else old(self.codecFormat)
    {
      hide HandlePiece, ParseCodec, CString, Faults, Supported;
      CodecPiece(EnvOf(self), ConnOf(self, buffer), n);
      var inputs := self.inputs(self.ticks);
      log := log + [Handled(baseMessage.Value(), buffer[..n], buffer[n..], inputs)];
      self.ticks := self.ticks + 1;
      baseMessage.typ := TYPE_BASE;
      var codec, size := KnownCodec(buffer, n, inputs.nameGranted, inputs.payloadGranted);
      if codec.None? {
        return;
      }
      self.codecFormat := codec;
      if size < 12 {
        // The sample format is copied from beyond the end of the payload.
        halted := true;
        return;
      }
      receivedHeader := true;
    }

    /** Deserialise the codec header and look its name up. */
    method KnownCodec(buffer: array<byte>, n: nat, nameGranted: bool, payloadGranted: bool)
      returns (codec: Option<seq<byte>>, size: nat)
      requires n <= buffer.Length
      modifies codecHeaderMessage
      ensures var r := ParseCodec(buffer[..n], nameGranted, payloadGranted);
              && codec == (if r.Codec? && Supported(r.name) then Some(CString(r.name + [0])) else None)
              && (codec.Some? ==> size == |r.payload|)
    {
      hide ParseCodec, CString;
      size := 0;
      var result := codecHeaderMessage.Deserialize(buffer, n, nameGranted, payloadGranted);
      if result != 0 {
        return None, size;
      }
      var name := CString(codecHeaderMessage.codec[..]);
      if name != OPUS && name != FLAC && name != PCM && name != OGG {
        return None, size;
      }
      codec := Some(name);
      size := codecHeaderMessage.size;
    }

    method HandleWireChunk(self: AudioElement, buffer: array<byte>, n: nat)
      requires baseMessage.typ == TYPE_WIRE_CHUNK && 0 < n == PieceSize(baseMessage.Value()) <= buffer.Length
      requires !halted
      modifies baseMessage`typ, wireChunkMessage, self`ticks, self`outputs, self`bytePos, `halted, `log
      ensures ConnOf(self, buffer) == HandlePiece(EnvOf(self), old(ConnOf(self, buffer)))
    {
      hide HandlePiece, ChunkOutput, Beyond;
      ChunkPiece(EnvOf(self), ConnOf(self, buffer), n);
      var inputs := self.inputs(self.ticks);
      ghost var h := Handled(baseMessage.Value(), buffer[..n], buffer[n..], inputs);
      log := log + [h];
      self.ticks := self.ticks + 1;
      baseMessage.typ := TYPE_BASE;
      if !receivedHeader {
        return;
      }
      var status, output := ReadChunk(buffer, n, inputs.accepted, h);
      if status == 1 {
        return;
      }
      if status == 2 {
        halted := true;
        return;
      }
      self.outputs := self.outputs + [output];
      if inputs.accepted > 0 {
        self.bytePos := self.bytePos + output.claimed;
      }
    }

    /** Deserialise the wire chunk and call the output ring buffer with what it claims.  The
        status is 1 when the chunk is refused, and 2 when what it claims ends outside the
        buffer: what the call then does is not defined. */
    method ReadChunk(buffer: array<byte>, n: nat, accepted: int, ghost h: Handled) returns (status: int, output: Output)
      requires n <= buffer.Length
      requires h.header.typ == TYPE_WIRE_CHUNK && h.body == buffer[..n] && h.behind == buffer[n..]
      requires h.inputs.accepted == accepted
      modifies wireChunkMessage
      ensures status == if !IsChunk(h) then 1 else if Beyond(h) then 2 else 0
      ensures status == 0 ==> output == ChunkOutput(h) && output.accepted == accepted
    {
      hide At, DecodeTv;
      output := Output([], [], 0, accepted);
      var result := wireChunkMessage.Deserialize(buffer, n);
      if result != 0 {
        return 1, output;
      }
      assert buffer[..] == buffer[..n] + buffer[n..];
      AtPrefix(U32, buffer[..n], buffer[n..], 8);
      var size := ToInt32(wireChunkMessage.size);
      var start := wireChunkMessage.payload;
      status := 0;
      if size < 0 {
        output := Output([], [], size, accepted);
      } else if start + size > buffer.Length {
        status := 2;
      } else if start + size <= n {
        assert buffer[start..start + size] == h.body[12..12 + size];
        output := Output(buffer[start..start + size], [], size, accepted);
      } else {
        assert buffer[start..n] == h.body[12..];
        assert buffer[n..start + size] == h.behind[..size - (n - 12)];
        output := Output(buffer[start..n], buffer[n..start + size], size, accepted);
      }
    }

    method HandleServerSettings(self: AudioElement, buffer: array<byte>, n: nat)
      requires baseMessage.typ == TYPE_SERVER_SETTINGS && 0 < n == PieceSize(baseMessage.Value()) <= buffer.Length
      requires !halted
      modifies baseMessage`typ, self`ticks, buffer, `halted, `texts, `log
      ensures ConnOf(self, buffer) == HandlePiece(EnvOf(self), old(ConnOf(self, buffer)))
      ensures if n < 4 then halted && texts == old(texts)
              else buffer[..] == Shifted(old(buffer[..]), n) && texts == old(texts) + [CString(buffer[..])]
    {
      hide At, ParseCodec, CString, Shifted;
      assert buffer[..] == buffer[..n] + buffer[n..];
      log := log + [Handled(baseMessage.Value(), buffer[..n], buffer[n..], self.inputs(self.ticks))];
      self.ticks := self.ticks + 1;
      baseMessage.typ := TYPE_BASE;
      if n < 4 {
        // The length of the move wraps.
        halted := true;
        return;
      }
      ShiftSettings(buffer, n);
      // What the JSON parser is given.
      texts := texts + [CString(buffer[..])];
    }

    method HandleTime(self: AudioElement, buffer: array<byte>, n: nat)
      requires baseMessage.typ == TYPE_TIME && 0 < n == PieceSize(baseMessage.Value()) <= buffer.Length
      requires !halted
      modifies baseMessage`typ, timeMessage, self`ticks, `s2c, `log
      ensures ConnOf(self, buffer) == HandlePiece(EnvOf(self), old(ConnOf(self, buffer)))
    {
      hide At, ParseCodec;
      log := log + [Handled(baseMessage.Value(), buffer[..n], buffer[n..], self.inputs(self.ticks))];
      self.ticks := self.ticks + 1;
      baseMessage.typ := TYPE_BASE;
      assert buffer[..] == buffer[..n] + buffer[n..];
      if n >= 4 {
        AtPrefix(I32, buffer[..n], buffer[n..], 0);
      }
      if n >= 8 {
        AtPrefix(I32, buffer[..n], buffer[n..], 4);
      }
      var result := timeMessage.Deserialize(buffer, n);
      if result != 0 {
        return;
      }
      s2c := s2c + [TimerSub(baseMessage.received, baseMessage.sent)];
    }

    /** Stream tags and unknown types. */
    method IgnoreBody(self: AudioElement, buffer: array<byte>, n: nat)
      requires baseMessage.typ !in {TYPE_BASE, TYPE_CODEC_HEADER, TYPE_WIRE_CHUNK, TYPE_SERVER_SETTINGS, TYPE_TIME}
      requires 0 < n == PieceSize(baseMessage.Value()) <= buffer.Length && !halted
      modifies baseMessage`typ, self`ticks, `log
      ensures ConnOf(self, buffer) == HandlePiece(EnvOf(self), old(ConnOf(self, buffer)))
    {
      hide At, ParseCodec;
      log := log + [Handled(baseMessage.Value(), buffer[..n], buffer[n..], self.inputs(self.ticks))];
      self.ticks := self.ticks + 1;
      baseMessage.typ := TYPE_BASE;
    }

    method Dispatch(self: AudioElement, buffer: array<byte>, n: nat)
      requires 0 < n == PieceSize(baseMessage.Value()) <= buffer.Length && !halted
      modifies baseMessage, codecHeaderMessage, wireChunkMessage, timeMessage, self, buffer
      modifies `receivedHeader, `s2c, `texts, `halted, `log
      ensures ConnOf(self, buffer) == HandlePiece(EnvOf(self), old(ConnOf(self, buffer)))
    {
      hide HandlePiece;
      if baseMessage.typ == TYPE_BASE {
        HandleBase(self, buffer);
      } else if baseMessage.typ == TYPE_CODEC_HEADER {
        HandleCodecHeader(self, buffer, n);
      } else if baseMessage.typ == TYPE_WIRE_CHUNK {
        HandleWireChunk(self, buffer, n);
      } else if baseMessage.typ == TYPE_SERVER_SETTINGS {
        HandleServerSettings(self, buffer, n);
      } else if baseMessage.typ == TYPE_TIME {
        HandleTime(self, buffer, n);
      } else {
        IgnoreBody(self, buffer, n);
      }
    }

    // ---- the process callback --------------------------------------------------------

    /** One call with budget `inLen`.  The read callback delivers the whole piece or fails,
        so the C branch for a short piece has no counterpart.  The first branch is not in the C
        code: it ends the loop where the C program has no defined behaviour. */
    method Process(self: AudioElement, inBuffer: array<byte>, inLen: int) returns (r: int)
      requires inLen <= inBuffer.Length
      modifies baseMessage, codecHeaderMessage, wireChunkMessage, timeMessage, self, inBuffer
      modifies t`pos, t`fetches, `receivedHeader, `s2c, `texts, `halted, `log
      ensures r == 1
      ensures ConnOf(self, inBuffer) == Call(EnvOf(self), old(ConnOf(self, inBuffer)), inLen)
    {
      hide HandlePiece, ReadPiece;
      ghost var env := EnvOf(self);
      var left := inLen;
      while true
        invariant left <= inBuffer.Length
        invariant Call(env, ConnOf(self, inBuffer), left) == Call(env, old(ConnOf(self, inBuffer)), inLen)
        decreases if left > 0 then left else 0
      {
        if halted {
          StoppedCall(env, ConnOf(self, inBuffer), left);
          break;
        }
        var messageSize: i32 := BASE_MESSAGE_SIZE;
        if baseMessage.typ != TYPE_BASE {
          messageSize := ToInt32(baseMessage.size);
        }
        if left < messageSize {
          break;
        }
        var rSize := ReadCallback(self, inBuffer, messageSize);
        if rSize <= 0 {
          break;
        }
        left := left - rSize;
        Dispatch(self, inBuffer, rSize);
      }
      r := 1;
    }

    // ---- the timer callback ----------------------------------------------------------

    /** Run without interruption, and with both writes complete, the callback is the
        three steps of the timer one after the other. */
    method SendTimeTimerCb(self: AudioElement, ghost buffer: array<byte>, clockOk: bool, now: Tv)
      modifies `idCounter, `lastSync, `notes, t`sent, t`writes
      ensures old(receivedHeader) && clockOk ==>
                && idCounter == old(idCounter) + 1 && lastSync == now
                && t.sent == old(t.sent)
                   + EncodeBase(TimeHeader(old(idCounter), now))[..Count(Moved(t.capacity(old(t.writes)), 26))]
                   + TimeBody(timeMessage.latency)[..Count(Moved(t.capacity(old(t.writes) + 1), 8))]
      ensures (t.capacity(old(t.writes)) >= 26 && t.capacity(old(t.writes) + 1) >= 8)
              || !old(receivedHeader) || !clockOk ==>
                NetOf(self, buffer)
                == FinishStep(PeekStep(EnvOf(self), FireStep(old(NetOf(self, buffer)), clockOk, now)))
    {
      hide EncodeBase, TimeBody, FireStep, PeekStep, FinishStep, TimeHeader, Moved, Count;
      CallbackInOne(EnvOf(self), NetOf(self, buffer), clockOk, now);
      if !receivedHeader {
        return;
      }
      if !clockOk {
        return;
      }
      SendTime(now);
    }

    /** What the callback does once the gate is open and the clock has answered. */
    method SendTime(now: Tv)
      modifies `idCounter, `lastSync, `notes, t`sent, t`writes
      ensures idCounter == old(idCounter) + 1 && lastSync == now
      ensures notes == old(notes) + [Note(now, timeMessage.latency)]
      ensures t.sent == old(t.sent)
                + EncodeBase(TimeHeader(old(idCounter), now))[..Count(Moved(t.capacity(old(t.writes)), 26))]
                + TimeBody(timeMessage.latency)[..Count(Moved(t.capacity(old(t.writes) + 1), 8))]
      ensures t.capacity(old(t.writes)) >= 26 && t.capacity(old(t.writes) + 1) >= 8 ==>
                t.sent == old(t.sent) + EncodeBase(TimeHeader(old(idCounter), now)) + TimeBody(timeMessage.latency)
    {
      hide EncodeBase, TimeBody;
      lastSync := now;
      var serialized := new byte[BASE_MESSAGE_SIZE];
      var b := Base(TYPE_TIME, idCounter % 0x1_0000, 0, now, ZERO, TIME_MESSAGE_SIZE);
      idCounter := idCounter + 1;
      var written := SendBase(b, serialized);
      written := SendLatency(serialized);
      notes := notes + [Note(now, timeMessage.latency)];
    }

    /** Serialise a base message and write it. */
    method SendBase(b: Base, serialized: array<byte>) returns (written: int)
      requires serialized.Length == BASE_MESSAGE_SIZE
      modifies serialized, t`sent, t`writes
      ensures written == Moved(t.capacity(old(t.writes)), BASE_MESSAGE_SIZE) && t.writes == old(t.writes) + 1
      ensures t.sent == old(t.sent) + EncodeBase(b)[..Count(written)]
      ensures written == BASE_MESSAGE_SIZE ==> t.sent == old(t.sent) + EncodeBase(b)
    {
      hide EncodeBase;
      var message := new BaseMessage(b);
      var result := message.Serialize(serialized, BASE_MESSAGE_SIZE);
      assert serialized[..] == EncodeBase(b);
      written := t.Write(serialized, BASE_MESSAGE_SIZE);
    }

    /** Serialise the time message over it and write that. */
    method SendLatency(serialized: array<byte>) returns (written: int)
      requires serialized.Length == BASE_MESSAGE_SIZE
      modifies serialized, t`sent, t`writes
      ensures written == Moved(t.capacity(old(t.writes)), TIME_MESSAGE_SIZE) && t.writes == old(t.writes) + 1
      ensures t.sent == old(t.sent) + TimeBody(timeMessage.latency)[..Count(written)]
      ensures written == TIME_MESSAGE_SIZE ==> t.sent == old(t.sent) + TimeBody(timeMessage.latency)
    {
      hide TimeBody;
      var result := timeMessage.Serialize(serialized, TIME_MESSAGE_SIZE);
      assert serialized[..8] == TimeBody(timeMessage.latency);
      written := t.Write(serialized, TIME_MESSAGE_SIZE);
      assert serialized[..Count(written)] == serialized[..8][..Count(written)];
    }

    // ---- open ------------------------------------------------------------------------

    /** `text` is what the JSON printer makes of the HELLO message, if it does not fail. */
    method Open(self: AudioElement, ghost buffer: array<byte>, connected: bool, clockOk: bool, now: Tv,
        text: Option<seq<byte>>, granted: bool)
      returns (ok: bool)
      requires text.Some? ==> |text.value| < 0x8000_0000 - 4
      modifies this, baseMessage, timeMessage, t`sent, t`writes, self`outputs
      ensures ok <==> && !old(isOpen) && connected && clockOk && text.Some? && granted
                      && t.capacity(old(t.writes)) >= 0 && t.capacity(old(t.writes) + 1) >= 0
      ensures isOpen <==> old(isOpen) || connected
      ensures old(isOpen) || !connected ==> unchanged(this, baseMessage, timeMessage, self)
      ensures !old(isOpen) && connected ==>
                && StateOf(self) == Opened(old(baseMessage.Value()))
                && idCounter == 0 && lastSync == ZERO && notes == []
      ensures !old(isOpen) && connected ==>
                && baseMessage.typ == 0 && baseMessage.sent == Tv(0, 0) && baseMessage.received == Tv(0, 0)
                && !receivedHeader && !halted && timeMessage.latency == Tv(0, 0)
      ensures !(!old(isOpen) && connected && clockOk && text.Some? && granted) ==> t.sent == old(t.sent)
      ensures !old(isOpen) && connected && clockOk && text.Some? && granted ==>
                var first, second := t.capacity(old(t.writes)), t.capacity(old(t.writes) + 1);
                var header, body := EncodeBase(HelloHeader(now, text.value)), PrefixedText(text.value);
                t.sent == old(t.sent)
                          + header[..if first < 0 then 0 else if first < 26 then first else 26]
                          + if first < 0 then []
                            else body[..if second < 0 then 0 else if second < |body| then second else |body|]
      ensures ok && t.capacity(old(t.writes)) >= 26 && t.capacity(old(t.writes) + 1) >= 4 + |text.value| ==>
                && t.sent == old(t.sent) + HelloFrame(now, text.value)
                && (old(t.sent) == [] ==> AtOpen(NetOf(self, buffer), now, text.value))
    {
      hide HelloFrame, EncodeBase, PrefixedText;
      if isOpen {
        return false;
      }
      if !connected {
        return false;
      }
      Reset(self);
      if !clockOk {
        return false;
      }
      if text.None? {
        return false;
      }
      ok := SendHello(now, text.value, granted);
    }

    /** The state at the start of a session. */
    method Reset(self: AudioElement)
      modifies this, baseMessage, timeMessage, self`outputs
      ensures isOpen && StateOf(self) == Opened(old(baseMessage.Value()))
      ensures idCounter == 0 && lastSync == ZERO && notes == []
    {
      isOpen, receivedHeader, lastSync, idCounter, halted := true, false, ZERO, 0, false;
      ResetMessages();
      s2c, texts, log, notes := [], [], [], [];
      self.outputs := [];
    }

    method ResetMessages()
      modifies baseMessage, timeMessage
      ensures baseMessage.Value() == old(baseMessage.Value()).(typ := TYPE_BASE, sent := ZERO, received := ZERO)
      ensures timeMessage.latency == ZERO
    {
      baseMessage.typ := TYPE_BASE;
      baseMessage.sent := ZERO;
      baseMessage.received := ZERO;
      timeMessage.latency := ZERO;
    }

    method SendHello(now: Tv, text: seq<byte>, granted: bool) returns (ok: bool)
      requires |text| < 0x8000_0000 - 4
      modifies t`sent, t`writes
      ensures ok <==> granted && t.capacity(old(t.writes)) >= 0 && t.capacity(old(t.writes) + 1) >= 0
      ensures !granted ==> t.sent == old(t.sent)
      ensures granted ==>
                var first, second := t.capacity(old(t.writes)), t.capacity(old(t.writes) + 1);
                var header, body := EncodeBase(HelloHeader(now, text)), PrefixedText(text);
                t.sent == old(t.sent)
                          + header[..if first < 0 then 0 else if first < 26 then first else 26]
                          + if first < 0 then []
                            else body[..if second < 0 then 0 else if second < |body| then second else |body|]
      ensures ok && t.capacity(old(t.writes)) >= 26 && t.capacity(old(t.writes) + 1) >= 4 + |text| ==>
                t.sent == old(t.sent) + HelloFrame(now, text)
    {
      hide EncodeBase, PrefixedText;
      var hello := HelloMessageSerialize(text, granted);
      if hello.None? {
        return false;
      }
      var body := hello.value;
      var serialized := new byte[BASE_MESSAGE_SIZE];
      var written := SendBase(Base(TYPE_HELLO, 0, 0, now, ZERO, body.Length), serialized);
      if written < 0 {
        return false;
      }
      written := t.Write(body, body.Length);
      assert body[..body.Length] == PrefixedText(text);
      assert body[..Count(written)] == PrefixedText(text)[..Count(written)];
      ok := written >= 0;
    }
  }

  /** The three steps of the callback, one after the other. */
  lemma CallbackInOne(env: Env, s: Net, clockOk: bool, now: Tv)
    requires s.task == Between && s.timer == Idle
    ensures FinishStep(PeekStep(env, FireStep(s, clockOk, now)))
         == if !s.conn.st.receivedHeader || !clockOk then s
            else s.(lastSync := now, idCounter := s.idCounter + 1,
                    sent := s.sent + EncodeBase(TimeHeader(s.idCounter, now)) + TimeBody(s.conn.st.latency),
                    notes := s.notes + [Note(now, s.conn.st.latency)])
  {
    hide EncodeBase, TimeBody, TimeHeader, OneTurn;
  }

  /** One read of the reassembly loop. */
  lemma ReassembleStep(script: nat -> int, at: nat, rem: int)
    ensures rem <= 0 ==> Reassemble(script, at, rem) == Fetch(false, 0, at)
    ensures rem > 0 ==>
              var r := Moved(script(at), rem);
              Reassemble(script, at, rem)
              == if r <= 0 then Fetch(r < 0, 0, at + 1)
                 else var g := Reassemble(script, at + 1, rem - r); g.(got := r + g.got)
  {
  }

  lemma StoppedCall(env: Env, c: Conn, left: int)
    requires c.st.halted && left <= |c.buf|
    ensures Call(env, c, left) == c
  {
    assert Slice(env.stream, c.pos, 0) + c.buf[0..] == c.buf;
  }

  /** The effect of a codec header on a connection. */
  lemma CodecPiece(env: Env, c: Conn, n: nat)
    requires c.st.base.typ == TYPE_CODEC_HEADER && 0 < n == PieceSize(c.st.base) <= |c.buf|
    ensures var h := Handled(c.st.base, c.buf[..n], c.buf[n..], env.inputs(c.ticks));
            HandlePiece(env, c)
            == c.(st := c.st.(base := c.st.base.(typ := TYPE_BASE), log := c.st.log + [h],
                              halted := c.st.halted || (Names(h) && |ParseBody(h).payload| < 12),
                              receivedHeader := c.st.receivedHeader || Accepts(h)),
                  ticks := c.ticks + 1)
  {
    hide ParseCodec, Supported;
  }

  /** The effect of a wire chunk on a connection. */
  lemma ChunkPiece(env: Env, c: Conn, n: nat)
    requires c.st.base.typ == TYPE_WIRE_CHUNK && 0 < n == PieceSize(c.st.base) <= |c.buf|
    ensures var h := Handled(c.st.base, c.buf[..n], c.buf[n..], env.inputs(c.ticks));
            var played := if c.st.receivedHeader && IsChunk(h) && !Beyond(h) then [ChunkOutput(h)] else [];
            HandlePiece(env, c)
            == c.(st := c.st.(base := c.st.base.(typ := TYPE_BASE), log := c.st.log + [h],
                              halted := c.st.halted || (c.st.receivedHeader && IsChunk(h) && Beyond(h)),
                              outputs := c.st.outputs + played),
                  ticks := c.ticks + 1,
                  bytePos := c.bytePos + if played == [] then 0 else Credit(played[0]))
  {
    hide ParseCodec, Supported, At, ChunkOutput;
  }

  lemma NothingPut(mem: seq<byte>, at: nat, stream: nat -> byte, pos: nat)
    requires at <= |mem|
    ensures PutAt(mem, at, Slice(stream, pos, 0)) == mem
  {
  }

  lemma OneMorePut(mem: seq<byte>, at: nat, stream: nat -> byte, pos: nat, i: nat)
    requires at + i < |mem|
    ensures PutAt(mem, at, Slice(stream, pos, i))[at + i := stream(pos + i)]
         == PutAt(mem, at, Slice(stream, pos, i + 1))
  {
  }

  lemma StartsWith(mem: seq<byte>, bs: seq<byte>)
    requires |bs| <= |mem|
    ensures PutAt(mem, 0, bs) == bs + mem[|bs|..]
  {
  }

  lemma Joined(mem: seq<byte>, stream: nat -> byte, pos: nat, a: nat, b: nat)
    requires a + b <= |mem|
    ensures PutAt(PutAt(mem, 0, Slice(stream, pos, a)), a, Slice(stream, pos + a, b))
         == PutAt(mem, 0, Slice(stream, pos, a + b))
  {
    assert Slice(stream, pos, a) + Slice(stream, pos + a, b) == Slice(stream, pos, a + b);
  }

  /** Deserialising in place what lies in a longer buffer. */
  lemma HeaderInPlace(mem: seq<byte>)
    requires BASE_MESSAGE_SIZE <= |mem|
    ensures DecodeBase(mem[..BASE_MESSAGE_SIZE]) == DecodeBase(mem)
  {
    BasePrintsBack(mem);
    BasePrintsBack(mem[..BASE_MESSAGE_SIZE]);
    BaseInjective(DecodeBase(mem), DecodeBase(mem[..BASE_MESSAGE_SIZE]));
    assert mem[..BASE_MESSAGE_SIZE][..BASE_MESSAGE_SIZE] == mem[..BASE_MESSAGE_SIZE];
  }
}
