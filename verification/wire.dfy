/** Streams of printed messages: what a server that prints its messages as the protocol
    says them gets played. */
module Wire {
  import opened Words
  import opened Messages
  import opened Machine
  import opened Framing
  import opened Frames
  import opened Playback

  /** What a server can say. */
  datatype Message =
    | CodecHeader(name: seq<byte>, payload: seq<byte>)
    | WireChunk(stamp: Tv, payload: seq<byte>)
    | ServerSettings(text: seq<byte>)
    | Time(latency: Tv)
    | StreamTags(content: seq<byte>)
    | Other(kind: u16, content: seq<byte>)

  function TypeOf(m: Message): u16 {
    match m
    case CodecHeader(_, _) => TYPE_CODEC_HEADER
    case WireChunk(_, _) => TYPE_WIRE_CHUNK
    case ServerSettings(_) => TYPE_SERVER_SETTINGS
    case Time(_) => TYPE_TIME
    case StreamTags(_) => TYPE_STREAM_TAGS
    case Other(kind, _) => kind
  }

  function Body(m: Message): seq<byte> {
    match m
    case CodecHeader(name, payload) => CodecBody(name, payload)
    case WireChunk(stamp, payload) => ChunkBody(stamp, payload)
    case ServerSettings(text) => PrefixedText(text)
    case Time(latency) => TimeBody(latency)
    case StreamTags(content) => content
    case Other(_, content) => content
  }

  /** There is a body, of a size that fits in a positive signed word; an unknown kind is
      none of the known ones; a codec the client supports comes with a sample format; a
      settings text has no NUL. */
  predicate WellFormed(m: Message) {
    && 1 <= |Body(m)| < 0x8000_0000
    && (m.Other? ==> m.kind > TYPE_STREAM_TAGS || m.kind == TYPE_HELLO)
    && (m.CodecHeader? && Supported(m.name) ==> |m.payload| >= 12)
    && (m.ServerSettings? ==> 0 !in m.text)
  }

  /** The frame is a print of the message. */
  predicate Prints(f: Frame, m: Message) {
    WellFormed(m) && f.header.typ == TypeOf(m) && f.body == Body(m)
  }

  ghost predicate AllPrint(frames: seq<Frame>, messages: seq<Message>) {
    |frames| == |messages| && forall i :: 0 <= i < |frames| ==> Prints(frames[i], messages[i])
  }

  /** The allocator serves every request. */
  ghost predicate Serving(env: Env) {
    forall k: nat :: env.inputs(k).nameGranted && env.inputs(k).payloadGranted
  }

  // ---- what should be played -----------------------------------------------------------

  predicate IsCodec(m: Message) {
    m.CodecHeader? && Supported(m.name)
  }

  /** A supported codec header is among the first `n` messages. */
  ghost predicate CodecAmong(messages: seq<Message>, n: nat)
    requires n <= |messages|
  {
    exists i: nat :: i < n && IsCodec(messages[i])
  }

  /** The payloads of the chunks among the first `n` messages that follow the first
      supported codec header, joined in order. */
  ghost function Payloads(messages: seq<Message>, n: nat): seq<byte>
    requires n <= |messages|
  {
    if n == 0 then []
    else
      var m := messages[n - 1];
      Payloads(messages, n - 1) + if m.WireChunk? && CodecAmong(messages, n - 1) then m.payload else []
  }

  /** The latency in the last TIME message among the first `n`. */
  function LastLatency(messages: seq<Message>, n: nat): Tv
    requires n <= |messages|
  {
    if n == 0 then ZERO
    else if messages[n - 1].Time? then messages[n - 1].latency
    else LastLatency(messages, n - 1)
  }

  /** The strings that the JSON parser is given for the settings messages among the first `n`:
      the texts, those of four bytes and more with one byte too many. */
  function TextsSaid(messages: seq<Message>, n: nat): seq<seq<byte>>
    requires n <= |messages|
  {
    if n == 0 then []
    else
      var m := messages[n - 1];
      TextsSaid(messages, n - 1)
      + if !m.ServerSettings? then []
        else [if |m.text| < 4 then m.text else m.text + [m.text[|m.text| - 4]]]
  }

  // ---- from the frames to the messages -------------------------------------------------

  /** What a frame is to the client when it is the print of message `m`. */
  ghost predicate Means(f: Frame, m: Message) {
    && (forall i: Inputs :: i.nameGranted && i.payloadGranted ==> (Opens(f, i) <==> IsCodec(m)))
    && (forall i: Inputs, playing: bool, behind: nat :: !Stops(f, i, playing, behind))
    && (f.header.typ == TYPE_WIRE_CHUNK <==> m.WireChunk?)
    && (m.WireChunk? ==> |f.body| >= 12 && Audio(f.body) == m.payload && Excess(f.body) == 0)
    && (f.header.typ == TYPE_TIME <==> m.Time?)
    && (m.Time? ==> |f.body| == 8 && DecodeTv(f.body, 0) == m.latency)
  }

  lemma CodecMeans(f: Frame, name: seq<byte>, payload: seq<byte>)
    requires Prints(f, CodecHeader(name, payload))
    ensures Means(f, CodecHeader(name, payload))
  {
    hide CodecBody, Supported, ParseCodec;
    CodecAcceptedIff(f.body);
    forall other: seq<byte>, rest: seq<byte> | NamesCodec(f.body, other, rest)
      ensures other == name && rest == payload
    {
      assert |CodecBody(other, rest)| <= |f.body| && |CodecBody(name, payload)| <= |f.body|;
      assert ParseCodec(f.body, true, true) == Codec(other, rest) == Codec(name, payload);
    }
    assert Supported(name) ==> NamesCodec(f.body, name, payload);
  }

  lemma ChunkMeans(f: Frame, stamp: Tv, payload: seq<byte>)
    requires Prints(f, WireChunk(stamp, payload))
    ensures Means(f, WireChunk(stamp, payload))
  {
    hide ChunkBody, At, DecodeTv, NamesCodec;
    ChunkParsesBack(stamp, payload);
    assert f.body[12..12 + |payload|] == f.body[12..];
  }

  lemma TimeMeans(f: Frame, latency: Tv)
    requires Prints(f, Time(latency))
    ensures Means(f, Time(latency))
  {
    hide TimeBody, DecodeTv, NamesCodec;
    TimeParsesBack(latency);
  }

  lemma IdleMeans(f: Frame, m: Message)
    requires Prints(f, m) && (m.ServerSettings? || m.StreamTags? || m.Other?)
    ensures Means(f, m)
  {
    hide NamesCodec;
  }

  lemma MessageMeans(f: Frame, m: Message)
    requires Prints(f, m)
    ensures Means(f, m)
  {
    hide Means, Prints;
    match m {
      case CodecHeader(name, payload) => CodecMeans(f, name, payload);
      case WireChunk(stamp, payload) => ChunkMeans(f, stamp, payload);
      case Time(latency) => TimeMeans(f, latency);
      case ServerSettings(_) => IdleMeans(f, m);
      case StreamTags(_) => IdleMeans(f, m);
      case Other(_, _) => IdleMeans(f, m);
    }
  }

  lemma AllMean(frames: seq<Frame>, messages: seq<Message>, i: nat)
    requires AllPrint(frames, messages) && i < |frames|
    ensures Means(frames[i], messages[i])
  {
    hide Means;
    assert Prints(frames[i], messages[i]);
    MessageMeans(frames[i], messages[i]);
  }

  lemma OpeningIsCodec(env: Env, c: Conn, frames: seq<Frame>, messages: seq<Message>, i: nat)
    requires AllPrint(frames, messages) && Serving(env) && i < |frames|
    ensures OpensAt(env, c, frames, i) <==> IsCodec(messages[i])
    ensures !StopsAt(env, c, frames, i)
  {
    hide Opens, Stops, Playing, Prints, Behind;
    AllMean(frames, messages, i);
  }

  lemma PlayingIsCodec(env: Env, c: Conn, frames: seq<Frame>, messages: seq<Message>, n: nat)
    requires AllPrint(frames, messages) && Serving(env) && n <= |frames|
    ensures Playing(env, c, frames, n) <==> CodecAmong(messages, n)
    ensures !SomeStop(env, c, frames, n)
  {
    hide OpensAt, StopsAt, IsCodec, Prints;
    forall i: nat | i < |frames|
      ensures OpensAt(env, c, frames, i) <==> IsCodec(messages[i])
      ensures !StopsAt(env, c, frames, i)
    {
      OpeningIsCodec(env, c, frames, messages, i);
    }
  }

  lemma ChunksArePayloads(f: Frame, m: Message)
    requires Prints(f, m)
    ensures f.header.typ == TYPE_WIRE_CHUNK <==> m.WireChunk?
    ensures m.WireChunk? ==> |f.body| >= 12 && Audio(f.body) == m.payload && Excess(f.body) == 0
  {
    hide Prints, Opens, Stops;
    MessageMeans(f, m);
  }

  lemma {:induction false} PlayedIsPayloads(env: Env, c: Conn, frames: seq<Frame>, messages: seq<Message>, n: nat)
    requires AllPrint(frames, messages) && Serving(env) && n <= |frames|
    ensures Played(env, c, frames, n) == Payloads(messages, n)
    decreases n
  {
    hide Playing, CodecAmong, Audio, Excess, Prints, Behind;
    if n > 0 {
      PlayedIsPayloads(env, c, frames, messages, n - 1);
      PlayingIsCodec(env, c, frames, messages, n - 1);
      ChunksArePayloads(frames[n - 1], messages[n - 1]);
    }
  }

  lemma NothingOverruns(env: Env, c: Conn, frames: seq<Frame>, messages: seq<Message>, n: nat)
    requires AllPrint(frames, messages) && n <= |frames|
    ensures !SomeOverrun(env, c, frames, n)
  {
    hide Playing, Audio, Excess, Prints, Behind;
    forall i: nat | i < n
      ensures !OverrunsAt(env, c, frames, i)
    {
      ChunksArePayloads(frames[i], messages[i]);
    }
  }

  lemma TextMeans(f: Frame, m: Message)
    requires Prints(f, m)
    ensures f.header.typ == TYPE_SERVER_SETTINGS <==> m.ServerSettings?
    ensures m.ServerSettings? ==>
              && |f.body| >= 4
              && CString(Shifted(f.body, |f.body|))
                 == if |m.text| < 4 then m.text else m.text + [m.text[|m.text| - 4]]
  {
    hide CString, Shifted, CodecBody, ChunkBody, TimeBody, Supported;
    if m.ServerSettings? {
      ShiftedStringIff(f.body, m.text);
    }
  }

  lemma {:induction false} TextsAreSaid(frames: seq<Frame>, messages: seq<Message>, n: nat)
    requires AllPrint(frames, messages) && n <= |frames|
    ensures SettingsTexts(frames, n) == TextsSaid(messages, n)
    decreases n
  {
    hide CString, Shifted, Prints;
    if n > 0 {
      TextsAreSaid(frames, messages, n - 1);
      TextMeans(frames[n - 1], messages[n - 1]);
    }
  }

  lemma {:induction false} AnnouncedIsLast(frames: seq<Frame>, messages: seq<Message>, n: nat)
    requires AllPrint(frames, messages) && n <= |frames|
    ensures LastTime(frames, n, 4) == LastTime(frames, n, 8)
    ensures Announced(frames, n) == LastLatency(messages, n)
    decreases n
  {
    hide At, Prints, Opens, Stops, Audio, Excess;
    if n > 0 {
      AnnouncedIsLast(frames, messages, n - 1);
      AllMean(frames, messages, n - 1);
    }
  }

  /** The state after the first `n` messages. */
  ghost predicate Said(messages: seq<Message>, n: nat, st: State)
    requires n <= |messages|
  {
    && OutputBytes(st.outputs) == Payloads(messages, n)
    && (st.receivedHeader <==> CodecAmong(messages, n))
    && st.latency == LastLatency(messages, n)
    && st.texts == TextsSaid(messages, n)
    && !st.halted
  }

  /** End to end for printed messages and an allocator that serves: at any loop head of any
      clean run, `n` messages were taken, what was handed out are exactly the payloads of
      the chunks among them that follow the first supported codec header, the latency is
      that of the last TIME message, and no access left a frame. */
  lemma MessagesEndToEnd(env: Env, c: Conn, frames: seq<Frame>, messages: seq<Message>, lefts: seq<int>)
    returns (n: nat)
    requires Receives(env, c, frames) && AllPrint(frames, messages) && Serving(env)
    requires Fits(lefts, |c.buf|) && Clean(env, c, lefts)
    requires Confined(env, c, frames, Turns(env, c, lefts).pos)
    ensures Consumed(frames, Turns(env, c, lefts).pos - c.pos, n) && Said(messages, n, Turns(env, c, lefts).st)
  {
    hide Turns, Clean, OutputCalls, Played, Announced, SettingsTexts, TextsSaid, Playing, Start, SomeOverrun;
    hide SomeStop, OutputBytes, Prints;
    hide Payloads, CodecAmong, LastLatency, AllRead, Confined;
    n := EndToEnd(env, c, frames, lefts);
    PlayingIsCodec(env, c, frames, messages, n);
    PlayedIsPayloads(env, c, frames, messages, n);
    NothingOverruns(env, c, frames, messages, n);
    AnnouncedIsLast(frames, messages, n);
    TextsAreSaid(frames, messages, n);
  }
}
