/** What the frames consumed so far have made of the client: the bytes handed out, the gate,
    the latency and whether it has stopped, in terms of the frames. */
module Playback {
  import opened Words
  import opened Messages
  import opened Machine
  import opened History
  import opened Framing
  import opened Edits
  import opened Frames

  /** The body starts with the print of a codec header for a known codec. */
  ghost predicate NamesCodec(body: seq<byte>, name: seq<byte>, payload: seq<byte>) {
    CodecBody(name, payload) <= body && Supported(name)
  }

  /** The frame starts playback, if the allocator serves it: it names a known codec and has
      the twelve bytes of a sample format. */
  ghost predicate Opens(f: Frame, inputs: Inputs) {
    && f.header.typ == TYPE_CODEC_HEADER
    && inputs.nameGranted && inputs.payloadGranted
    && exists name, payload :: NamesCodec(f.body, name, payload) && |payload| >= 12
  }

  ghost predicate OpensAt(env: Env, c: Conn, frames: seq<Frame>, i: nat)
    requires i < |frames|
  {
    Opens(frames[i], BodyInputs(env, c, frames, i))
  }

  /** Playback was started by one of the first `n` frames. */
  ghost predicate Playing(env: Env, c: Conn, frames: seq<Frame>, n: nat)
    requires n <= |frames|
  {
    exists i: nat :: i < n && OpensAt(env, c, frames, i)
  }

  /** The audio bytes of a chunk: those that it announces behind its stamp and its size, as
      far as it holds them. */
  function Audio(body: seq<byte>): seq<byte> {
    if |body| < 12 || At(U32, body, 8) >= 0x8000_0000 then []
    else if At(U32, body, 8) <= |body| - 12 then body[12..12 + At(U32, body, 8)]
    else body[12..]
  }

  /** How many bytes it announces besides. */
  function Excess(body: seq<byte>): nat {
    if |body| < 12 || At(U32, body, 8) >= 0x8000_0000 || At(U32, body, 8) <= |body| - 12 then 0
    else At(U32, body, 8) - (|body| - 12)
  }

  /** Frame `i` is a chunk that comes after playback was started and ends in the buffer. */
  ghost predicate PlayedAt(env: Env, c: Conn, frames: seq<Frame>, i: nat)
    requires i < |frames|
  {
    var f := frames[i];
    && f.header.typ == TYPE_WIRE_CHUNK && |f.body| >= 12
    && Playing(env, c, frames, i)
    && Excess(f.body) <= |Behind(c, frames, i)|
  }

  /** The audio bytes of these chunks among the first `n` frames, joined in order. */
  ghost function Played(env: Env, c: Conn, frames: seq<Frame>, n: nat): seq<byte>
    requires n <= |frames|
  {
    if n == 0 then []
    else Played(env, c, frames, n - 1) + if PlayedAt(env, c, frames, n - 1) then Audio(frames[n - 1].body) else []
  }

  /** The size word of a chunk, as a signed integer. */
  function SizeWord(body: seq<byte>): i32
    requires |body| >= 12
  {
    var v := At(U32, body, 8);
    if v < 0x8000_0000 then v else v - 0x1_0000_0000
  }

  /** What the output calls for these chunks are given: the audio, the bytes that the buffer
      holds behind a chunk that announces more than its frame has, and the size word. */
  ghost function OutputCalls(env: Env, c: Conn, frames: seq<Frame>, n: nat): seq<Output>
    requires n <= |frames|
  {
    if n == 0 then []
    else
      var body := frames[n - 1].body;
      OutputCalls(env, c, frames, n - 1)
      + if !PlayedAt(env, c, frames, n - 1) then []
        else [Output(Audio(body), Behind(c, frames, n - 1)[..Excess(body)], SizeWord(body),
                     BodyInputs(env, c, frames, n - 1).accepted)]
  }

  /** The size words of those whose output call returned a positive count, added up. */
  ghost function SizesAccepted(env: Env, c: Conn, frames: seq<Frame>, n: nat): int
    requires n <= |frames|
  {
    if n == 0 then 0
    else
      SizesAccepted(env, c, frames, n - 1)
      + if PlayedAt(env, c, frames, n - 1) && BodyInputs(env, c, frames, n - 1).accepted > 0
        then SizeWord(frames[n - 1].body) else 0
  }

  /** The strings that the JSON parser is given, one for each settings frame with a length. */
  function SettingsTexts(frames: seq<Frame>, n: nat): seq<seq<byte>>
    requires n <= |frames|
  {
    if n == 0 then []
    else
      var f := frames[n - 1];
      SettingsTexts(frames, n - 1)
      + if f.header.typ == TYPE_SERVER_SETTINGS && |f.body| >= 4 then [CString(Shifted(f.body, |f.body|))] else []
  }

  ghost predicate OverrunsAt(env: Env, c: Conn, frames: seq<Frame>, i: nat)
    requires i < |frames|
  {
    PlayedAt(env, c, frames, i) && Excess(frames[i].body) > 0
  }

  /** Among the first `n` frames is a played chunk whose size word, as a signed integer, is
      larger than what its frame holds. */
  ghost predicate SomeOverrun(env: Env, c: Conn, frames: seq<Frame>, n: nat)
    requires n <= |frames|
  {
    exists i: nat :: i < n && OverrunsAt(env, c, frames, i)
  }

  /** The number of the last TIME frame among the first `n` with at least `size` bytes, or -1. */
  function LastTime(frames: seq<Frame>, n: nat, size: nat): (i: int)
    requires n <= |frames|
    ensures -1 <= i < n
    ensures 0 <= i ==> |frames[i].body| >= size
  {
    if n == 0 then -1
    else if frames[n - 1].header.typ == TYPE_TIME && |frames[n - 1].body| >= size then n - 1
    else LastTime(frames, n - 1, size)
  }

  /** The latency after the first `n` frames: each of its words comes from the last TIME
      frame that is long enough to hold it. */
  function Announced(frames: seq<Frame>, n: nat): Tv
    requires n <= |frames|
  {
    var i, j := LastTime(frames, n, 4), LastTime(frames, n, 8);
    Tv(if i < 0 then 0 else At(I32, frames[i].body, 0), if j < 0 then 0 else At(I32, frames[j].body, 4))
  }

  /** Handling the frame needs memory outside the objects at hand: a chunk to be played that
      ends outside the buffer, a known codec without a sample format, settings without
      their length. */
  ghost predicate Stops(f: Frame, inputs: Inputs, playing: bool, behind: nat) {
    || (f.header.typ == TYPE_WIRE_CHUNK && playing && Excess(f.body) > behind)
    || (f.header.typ == TYPE_CODEC_HEADER && inputs.nameGranted && inputs.payloadGranted
        && exists name, payload :: NamesCodec(f.body, name, payload) && |payload| < 12)
    || (f.header.typ == TYPE_SERVER_SETTINGS && 1 <= |f.body| < 4)
  }

  ghost predicate StopsAt(env: Env, c: Conn, frames: seq<Frame>, i: nat)
    requires i < |frames|
  {
    Stops(frames[i], BodyInputs(env, c, frames, i), Playing(env, c, frames, i), |Behind(c, frames, i)|)
  }

  ghost predicate SomeStop(env: Env, c: Conn, frames: seq<Frame>, n: nat)
    requires n <= |frames|
  {
    exists i: nat :: i < n && StopsAt(env, c, frames, i)
  }

  /** All the bytes handed to the output ring buffer. */
  function OutputBytes(os: seq<Output>): seq<byte>
    decreases os
  {
    if os == [] then [] else OutputBytes(os[..|os| - 1]) + os[|os| - 1].data + os[|os| - 1].stale
  }

  /** The state after the first `n` frames, in terms of the frames: the output calls are those
      for the played chunks; the bytes they are given are the audio of these chunks exactly
      when none announces more than it holds. */
  ghost predicate Tells(env: Env, c: Conn, frames: seq<Frame>, n: nat, st: State)
    requires n <= |frames|
  {
    && st.outputs == OutputCalls(env, c, frames, n)
    && (OutputBytes(st.outputs) == Played(env, c, frames, n) <==> !SomeOverrun(env, c, frames, n))
    && (st.receivedHeader <==> Playing(env, c, frames, n))
    && st.latency == Announced(frames, n)
    && st.texts == SettingsTexts(frames, n)
    && (st.halted <==> SomeStop(env, c, frames, n))
  }

  // ---- from the history to the frames --------------------------------------------------

  lemma NamesIsNaming(h: Handled, f: Frame)
    requires h.header.typ == f.header.typ && h.body == f.body && 1 <= |f.body| < 0x8000_0000
    ensures Names(h) <==> f.header.typ == TYPE_CODEC_HEADER && h.inputs.nameGranted && h.inputs.payloadGranted
                          && exists name, payload :: NamesCodec(f.body, name, payload)
    ensures forall name, payload :: Names(h) && NamesCodec(f.body, name, payload) ==> payload == ParseBody(h).payload
    ensures Names(h) ==> exists name :: NamesCodec(f.body, name, ParseBody(h).payload)
  {
    hide CodecBody, Supported;
    CodecAcceptedIff(h.body);
    var r := ParseCodec(h.body, true, true);
    if h.inputs.nameGranted && h.inputs.payloadGranted {
      if r.Codec? && Supported(r.name) {
        CodecPrintsBack(h.body);
        assert NamesCodec(f.body, r.name, r.payload);
      }
      forall name, payload | NamesCodec(f.body, name, payload)
        ensures r == Codec(name, payload)
      {
        assert |CodecBody(name, payload)| <= |f.body|;
      }
    }
  }

  lemma ChunkIsAudio(h: Handled)
    requires IsChunk(h) && |h.body| < 0x8000_0000
    ensures Beyond(h) <==> Excess(h.body) > |h.behind|
    ensures !Beyond(h) ==>
              ChunkOutput(h)
              == Output(Audio(h.body), h.behind[..Excess(h.body)], SizeWord(h.body), h.inputs.accepted)
  {
    hide At;
    assert h.behind[..0] == [];
  }

  lemma ShortNoExcess(body: seq<byte>)
    requires |body| < 12
    ensures Excess(body) == 0 && Audio(body) == []
  {
  }

  /** What one handled body is to the client, in terms of the frame and the buffer. */
  lemma BodyMeans(h: Handled, f: Frame)
    requires h.header.typ == f.header.typ && h.body == f.body && 1 <= |f.body| < 0x8000_0000
    ensures Accepts(h) <==> Opens(f, h.inputs)
    ensures Beyond(h) <==> f.header.typ == TYPE_WIRE_CHUNK && Excess(f.body) > |h.behind|
    ensures IsChunk(h) && !Beyond(h) ==>
              ChunkOutput(h)
              == Output(Audio(f.body), h.behind[..Excess(f.body)], SizeWord(f.body), h.inputs.accepted)
    ensures IsSettings(h) ==> SettingsText(h) == CString(Shifted(f.body, |f.body|))
    ensures forall gate :: Faults(h, gate) <==> Stops(f, h.inputs, gate, |h.behind|)
  {
    hide Names, Beyond, ChunkOutput, NamesCodec, Audio, Excess, SizeWord, CString, Shifted;
    if IsSettings(h) {
      TextInBody(h.body, h.behind);
    }
    NamesIsNaming(h, f);
    if IsChunk(h) {
      ChunkIsAudio(h);
    } else {
      NoChunkNotBeyond(h);
      if f.header.typ == TYPE_WIRE_CHUNK {
        ShortNoExcess(f.body);
      }
    }
  }

  lemma NoChunkNotBeyond(h: Handled)
    requires !IsChunk(h)
    ensures !Beyond(h)
  {
  }

  lemma PlayingGrows(env: Env, c: Conn, frames: seq<Frame>, n: nat)
    requires n < |frames|
    ensures Playing(env, c, frames, n + 1) <==> Playing(env, c, frames, n) || OpensAt(env, c, frames, n)
  {
    hide OpensAt;
    if Playing(env, c, frames, n + 1) && !OpensAt(env, c, frames, n) {
      var i: nat :| i < n + 1 && OpensAt(env, c, frames, i);
      assert i < n;
    }
  }

  lemma StopGrows(env: Env, c: Conn, frames: seq<Frame>, n: nat)
    requires n < |frames|
    ensures SomeStop(env, c, frames, n + 1) <==> SomeStop(env, c, frames, n) || StopsAt(env, c, frames, n)
  {
    hide StopsAt;
    if SomeStop(env, c, frames, n + 1) && !StopsAt(env, c, frames, n) {
      var i: nat :| i < n + 1 && StopsAt(env, c, frames, i);
      assert i < n;
    }
  }

  lemma OverrunGrows(env: Env, c: Conn, frames: seq<Frame>, n: nat)
    requires n < |frames|
    ensures SomeOverrun(env, c, frames, n + 1) <==> SomeOverrun(env, c, frames, n) || OverrunsAt(env, c, frames, n)
  {
    hide OverrunsAt;
    if SomeOverrun(env, c, frames, n + 1) && !OverrunsAt(env, c, frames, n) {
      var i: nat :| i < n + 1 && OverrunsAt(env, c, frames, i);
      assert i < n;
    }
  }

  lemma HistoriesGrow(before: seq<Handled>, h: Handled)
    ensures OutputsOf(before + [h])
         == OutputsOf(before) + if IsChunk(h) && Gate(before) && !Beyond(h) then [ChunkOutput(h)] else []
    ensures TextsOf(before + [h]) == TextsOf(before) + if IsSettings(h) then [SettingsText(h)] else []
  {
    hide IsChunk, Beyond, ChunkOutput, Gate, IsSettings, SettingsText;
    assert (before + [h])[..|before|] == before;
  }

  lemma DroppedMeans(f: Frame, inputs: Inputs)
    requires !f.Heard()
    ensures !Opens(f, inputs)
    ensures forall gate, behind :: !Stops(f, inputs, gate, behind)
  {
    hide CodecBody, Supported, At;
  }

  /** One more frame. */
  lemma FrameStep(env: Env, c: Conn, frames: seq<Frame>, n: nat, before: seq<Handled>)
    requires n < |frames| && |frames[n].body| < 0x8000_0000
    requires Gate(before) <==> Playing(env, c, frames, n)
    requires OutputsOf(before) == OutputCalls(env, c, frames, n) && TextsOf(before) == SettingsTexts(frames, n)
    ensures var log := before + if frames[n].Heard() then [Entry(env, c, frames, n)] else [];
            && (Gate(log) <==> Playing(env, c, frames, n + 1))
            && OutputsOf(log) == OutputCalls(env, c, frames, n + 1)
            && TextsOf(log) == SettingsTexts(frames, n + 1)
            && (FaultIn(log) <==> FaultIn(before) || StopsAt(env, c, frames, n))
  {
    hide Accepts, Beyond, ChunkOutput, Faults, Gate, FaultIn, OutputsOf, TextsOf, SettingsText, CString, Shifted;
    hide Playing, Audio, Excess, SizeWord, Opens, Stops, Pieces, Behind, HeaderInputs;
    PlayingGrows(env, c, frames, n);
    if frames[n].Heard() {
      var h := Entry(env, c, frames, n);
      BodyMeans(h, frames[n]);
      GateGrows(before, h);
      FaultGrows(before, h);
      HistoriesGrow(before, h);
    } else {
      DroppedMeans(frames[n], BodyInputs(env, c, frames, n));
      assert before + [] == before;
    }
  }

  lemma NothingYet(env: Env, c: Conn, frames: seq<Frame>)
    ensures Gate([]) <==> Playing(env, c, frames, 0)
    ensures OutputsOf([]) == [] && TextsOf([]) == []
    ensures FaultIn([]) <==> SomeStop(env, c, frames, 0)
  {
  }

  /** Gate, output calls, texts and halt of a history of whole frames are what the frames say. */
  lemma {:induction false} HistoryMeaning(env: Env, c: Conn, frames: seq<Frame>, n: nat)
    requires BodiesWithin(frames, 0x7FFF_FFFF) && n <= |frames|
    ensures var log := LogOf(env, c, frames, n);
            && (Gate(log) <==> Playing(env, c, frames, n))
            && OutputsOf(log) == OutputCalls(env, c, frames, n)
            && TextsOf(log) == SettingsTexts(frames, n)
            && (FaultIn(log) <==> SomeStop(env, c, frames, n))
    decreases n
  {
    hide Gate, FaultIn, OutputsOf, TextsOf, Playing, PlayedAt, StopsAt, SomeStop, Entry, Audio, Excess, Behind;
    hide SizeWord, CString, Shifted;
    if n == 0 {
      NothingYet(env, c, frames);
    } else {
      HistoryMeaning(env, c, frames, n - 1);
      FrameStep(env, c, frames, n - 1, LogOf(env, c, frames, n - 1));
      StopGrows(env, c, frames, n - 1);
    }
  }

  lemma OneMoreOutput(calls: seq<Output>, o: Output)
    ensures OutputBytes(calls + [o]) == OutputBytes(calls) + o.data + o.stale
    ensures AcceptedSizes(calls + [o]) == AcceptedSizes(calls) + if o.accepted > 0 then o.claimed else 0
  {
    assert (calls + [o])[..|calls|] == calls;
  }

  /** What is handed out is as long as the audio exactly when no chunk overruns its frame, and
      then it is the audio. */
  lemma {:induction false} HandedLength(env: Env, c: Conn, frames: seq<Frame>, n: nat)
    requires n <= |frames|
    ensures var handed := OutputBytes(OutputCalls(env, c, frames, n));
            && |handed| >= |Played(env, c, frames, n)|
            && (|handed| == |Played(env, c, frames, n)| <==> !SomeOverrun(env, c, frames, n))
            && (!SomeOverrun(env, c, frames, n) ==> handed == Played(env, c, frames, n))
    decreases n
  {
    hide Playing, Audio, Excess, SizeWord, Behind, SomeOverrun, OutputBytes;
    if n == 0 {
      NoOverrunYet(env, c, frames);
      NothingAccepted();
    } else {
      HandedLength(env, c, frames, n - 1);
      OverrunGrows(env, c, frames, n - 1);
      var calls := OutputCalls(env, c, frames, n - 1);
      if PlayedAt(env, c, frames, n - 1) {
        var body := frames[n - 1].body;
        OneMoreOutput(calls, Output(Audio(body), Behind(c, frames, n - 1)[..Excess(body)], SizeWord(body),
                                    BodyInputs(env, c, frames, n - 1).accepted));
      } else {
        assert calls + [] == calls;
      }
    }
  }

  lemma {:induction false} AcceptedOnFrames(env: Env, c: Conn, frames: seq<Frame>, n: nat)
    requires n <= |frames|
    ensures AcceptedSizes(OutputCalls(env, c, frames, n)) == SizesAccepted(env, c, frames, n)
    decreases n
  {
    hide PlayedAt, Audio, Excess, SizeWord, Behind, AcceptedSizes, HeaderInputs;
    if n == 0 {
      NothingAccepted();
    } else {
      AcceptedOnFrames(env, c, frames, n - 1);
      var calls := OutputCalls(env, c, frames, n - 1);
      if PlayedAt(env, c, frames, n - 1) {
        PlayedIsLong(env, c, frames, n - 1);
        var body := frames[n - 1].body;
        OneMoreOutput(calls, Output(Audio(body), Behind(c, frames, n - 1)[..Excess(body)], SizeWord(body),
                                    BodyInputs(env, c, frames, n - 1).accepted));
      } else {
        assert calls + [] == calls;
      }
    }
  }

  lemma NothingAccepted()
    ensures AcceptedSizes([]) == 0 && OutputBytes([]) == []
  {
  }

  lemma PlayedIsLong(env: Env, c: Conn, frames: seq<Frame>, i: nat)
    requires i < |frames| && PlayedAt(env, c, frames, i)
    ensures |frames[i].body| >= 12 && Excess(frames[i].body) <= |Behind(c, frames, i)|
  {
  }

  lemma NoOverrunYet(env: Env, c: Conn, frames: seq<Frame>)
    ensures !SomeOverrun(env, c, frames, 0)
  {
  }

  lemma LatencyGrows(before: seq<Handled>, h: Handled)
    ensures LatencyOf(before + [h]) == NextLatency(LatencyOf(before), h)
  {
    hide NextLatency;
    assert (before + [h])[..|before|] == before;
  }

  lemma NoLatencyYet()
    ensures LatencyOf([]) == ZERO
  {
  }

  /** The latency of a history of whole frames is the one the frames announce. */
  lemma {:induction false} LatencyMeaning(env: Env, c: Conn, frames: seq<Frame>, n: nat)
    requires n <= |frames|
    ensures LatencyOf(LogOf(env, c, frames, n)) == Announced(frames, n)
    decreases n
  {
    hide LatencyOf, At, Pieces;
    if n == 0 {
      NoLatencyYet();
    } else {
      LatencyMeaning(env, c, frames, n - 1);
      var before := LogOf(env, c, frames, n - 1);
      LatencyGrows(before, Entry(env, c, frames, n - 1));
      assert before + [] == before;
    }
  }

  // ---- end to end ----------------------------------------------------------------------

  /** A parser state is what the frames before its position say. */
  lemma StateMeaning(env: Env, c: Conn, frames: seq<Frame>, d: Conn, at: nat) returns (n: nat)
    requires Receives(env, c, frames) && StandsAt(env, c, d, at) && Confined(env, c, frames, at) && Faithful(d.st)
    ensures Consumed(frames, at - c.pos, n)
    ensures d.st.base.typ == TYPE_BASE <==> at == c.pos + Start(frames, n)
    ensures n < |frames| && d.st.base.typ != TYPE_BASE ==> d.st.base == HeaderAt(env, c, frames, n)
    ensures Tells(env, c, frames, n, d.st)
  {
    hide LogOf, OutputCalls, Played, Announced, SettingsTexts, Start, Receives, Confined, StandsAt;
    hide Gate, LatencyOf, OutputsOf, S2cOf, TextsOf, FaultIn, Playing, SomeOverrun, SomeStop, OutputBytes;
    n := WhereOnFrames(env, c, frames, d, at);
    BodiesAreWords(env, c, frames);
    HistoryMeaning(env, c, frames, n);
    HandedLength(env, c, frames, n);
    LatencyMeaning(env, c, frames, n);
  }

  /** End-to-end refinement, at any loop head of any clean run on any stream: as long as
      the position tells what was read, `n` frames are consumed whole, the header of the next
      one perhaps too, and the bytes handed out so far, the gate, the latency and whether the
      machine has stopped are what those `n` frames say. */
  lemma EndToEnd(env: Env, c: Conn, frames: seq<Frame>, lefts: seq<int>) returns (n: nat)
    requires Receives(env, c, frames) && Fits(lefts, |c.buf|) && Clean(env, c, lefts)
    requires Confined(env, c, frames, Turns(env, c, lefts).pos)
    ensures var d := Turns(env, c, lefts);
            && Consumed(frames, d.pos - c.pos, n)
            && (d.st.base.typ == TYPE_BASE <==> d.pos == c.pos + Start(frames, n))
            && (n < |frames| && d.st.base.typ != TYPE_BASE ==> d.st.base == HeaderAt(env, c, frames, n))
            && Tells(env, c, frames, n, d.st)
  {
    hide Turns, Clean, Start, AllRead, Confined, Canon, Flowing, Faithful, Tells;
    CleanTurnsAreOnTrack(env, c, lefts);
    OpenedIsFaithful(c.st.base);
    TurnsKeepFaithful(env, c, lefts);
    n := StateMeaning(env, c, frames, Turns(env, c, lefts), Turns(env, c, lefts).pos);
  }

  /** The same in terms of the stream position alone: when it is at the start of frame `n` or
      behind its header, the state is what the frames before `n` say. */
  lemma OutputFollowsPosition(env: Env, c: Conn, frames: seq<Frame>, lefts: seq<int>, n: nat)
    requires Receives(env, c, frames) && Fits(lefts, |c.buf|) && Clean(env, c, lefts)
    requires n <= |frames| && Confined(env, c, frames, Turns(env, c, lefts).pos)
    requires Start(frames, n) <= Turns(env, c, lefts).pos - c.pos
    requires n < |frames| ==> Turns(env, c, lefts).pos - c.pos < Start(frames, n + 1)
    ensures Tells(env, c, frames, n, Turns(env, c, lefts).st)
  {
    hide Turns, Clean, Tells, Start, Receives, Confined;
    var m := EndToEnd(env, c, frames, lefts);
    if m < n {
      StartGrows(frames, m, n);
    } else if n + 1 < m {
      StartGrows(frames, n + 1, m);
    }
  }

  /** The same at the end of any sequence of calls over positive reads. */
  lemma EndToEndCalls(env: Env, c: Conn, frames: seq<Frame>, budgets: seq<int>) returns (n: nat)
    requires Receives(env, c, frames) && Positive(env) && Fits(budgets, |c.buf|)
    requires Confined(env, c, frames, Calls(env, c, budgets).pos)
    ensures var d := Calls(env, c, budgets);
            Consumed(frames, d.pos - c.pos, n) && Tells(env, c, frames, n, d.st)
  {
    hide Turns, Calls, Clean, Tells, Start, Receives, Confined, Consumed;
    var lefts := CallsAreTurns(env, c, budgets);
    PositiveIsClean(env, c, lefts);
    n := EndToEnd(env, c, frames, lefts);
  }

  lemma {:induction false} OnePieceATurn(env: Env, c: Conn, lefts: seq<int>)
    requires Fits(lefts, |c.buf|)
    ensures Turns(env, c, lefts).ticks <= c.ticks + |lefts|
    decreases lefts
  {
    hide Handle, Settle, Reassemble;
    if lefts != [] {
      OnePieceATurn(env, c, lefts[..|lefts| - 1]);
    }
  }

  /** The first `k` frames of a session hold every parser state after at most `k` pieces. */
  lemma StateIsConfined(env: Env, c: Conn, d: Conn, at: nat, k: nat)
    requires c.st == Opened(c.st.base) && StandsAt(env, c, d, at) && d.ticks - c.ticks <= k
    ensures Confined(env, c, FramesOf(env, c, k), at)
  {
    hide Receives, FramesOf, Blocked, Start, Pieces, Canon, LogOf, Opened, MemoryAt, Faithful;
    var frames := FramesOf(env, c, k);
    EverySessionReceives(env, c, k);
    if |frames| == k {
      FrameSync(env, c, frames, |frames|);
      CanonAdvances(env, c, d.ticks - c.ticks, Pieces(frames, |frames|));
    }
  }

  /** The frames that are found in the stream as the parser sees it. */
  ghost function FramesSeen(env: Env, c: Conn, lefts: seq<int>): seq<Frame>
    requires Fits(lefts, |c.buf|)
  {
    FramesOf(Seen(env, c, lefts), c, |lefts|)
  }

  /** Every session: for every stream, transport, clock, allocator and output buffer, at any
      loop head of any run, the state is what the frames say that are found in the stream as
      the parser sees it, as far as they are consumed. */
  lemma EverySession(env: Env, c: Conn, lefts: seq<int>) returns (n: nat)
    requires c.st == Opened(c.st.base) && Fits(lefts, |c.buf|)
    ensures var frames := FramesSeen(env, c, lefts);
            && Consumed(frames, Effective(env, c, lefts).1 - c.pos, n)
            && Tells(Seen(env, c, lefts), c, frames, n, Turns(env, c, lefts).st)
  {
    hide Turns, Seen, Effective, StandsAt, Receives, Confined, FramesOf, Start, Tells, Opened, Faithful, Consumed;
    var e, at := Seen(env, c, lefts), Effective(env, c, lefts).1;
    EveryRunIsParsed(env, c, lefts);
    OnePieceATurn(env, c, lefts);
    StateIsConfined(e, c, Turns(env, c, lefts), at, |lefts|);
    EverySessionReceives(e, c, |lefts|);
    OpenedIsFaithful(c.st.base);
    TurnsKeepFaithful(env, c, lefts);
    n := StateMeaning(e, c, FramesOf(e, c, |lefts|), Turns(env, c, lefts), at);
  }

  /** The element's byte position in every session: it grows by what the parser has read and
      by the size words, as signed integers, of the played chunks whose output call returned
      a positive count.  Only a header that announces a negative length makes a
      difference: the length is added at every turn that asks for its body. */
  lemma PositionOnFrames(env: Env, c: Conn, lefts: seq<int>) returns (n: nat)
    requires c.st == Opened(c.st.base) && Fits(lefts, |c.buf|)
    ensures Consumed(FramesSeen(env, c, lefts), Used(env, c, lefts), n)
    ensures Turns(env, c, lefts).bytePos - c.bytePos
         == Used(env, c, lefts) + SizesAccepted(Seen(env, c, lefts), c, FramesSeen(env, c, lefts), n)
            + Rewinds(env, c, lefts)
    ensures Asks(Turns(env, c, lefts).st) >= 0 ==> Rewinds(env, c, lefts) == 0
  {
    hide Turns, Seen, Effective, FramesSeen, Tells, Opened, Rewinds, AcceptedSizes, SizesAccepted, Start, Asks;
    n := EverySession(env, c, lefts);
    EveryRunAccounts(env, c, lefts);
    if Asks(Turns(env, c, lefts).st) >= 0 {
      NoRewinds(env, c, lefts);
    }
    var e := Seen(env, c, lefts);
    var frames := FramesSeen(env, c, lefts);
    TellsOutputs(e, c, frames, n, Turns(env, c, lefts).st);
    AcceptedOnFrames(e, c, frames, n);
    NothingAccepted();
    NothingOutput(c);
  }

  lemma TellsOutputs(env: Env, c: Conn, frames: seq<Frame>, n: nat, st: State)
    requires n <= |frames| && Tells(env, c, frames, n, st)
    ensures st.outputs == OutputCalls(env, c, frames, n)
  {
  }

  lemma NothingOutput(c: Conn)
    requires c.st == Opened(c.st.base)
    ensures c.st.outputs == []
  {
  }

  // ---- the kinds of frames, by number --------------------------------------------------

  /** What the body of a frame does whose first two bytes are the given ones. */
  lemma EffectByNumber(st: State, f: Frame, behind: seq<byte>, inputs: Inputs)
    requires st.base.(received := f.header.received) == f.header && f.Heard() && ReadWith(f, true)
    ensures var st' := HandleBody(st, f.body, behind, inputs);
            var kind, body := EncodeBase(f.header)[..2], f.body;
            && (kind == [1, 0] && inputs.nameGranted && inputs.payloadGranted ==>
                  forall name, payload :: CodecBody(name, payload) <= body && |payload| >= 12
                    && (Begins(name, "opus") || Begins(name, "flac") || Begins(name, "pcm") || Begins(name, "ogg"))
                    ==> st'.receivedHeader && (st'.halted == st.halted))
            && (kind == [2, 0] && st.receivedHeader && |body| >= 12 && At(U32, body, 8) <= |body| - 12 ==>
                  st'.outputs
                  == st.outputs + [Output(body[12..12 + At(U32, body, 8)], [], At(U32, body, 8), inputs.accepted)])
            && (kind == [3, 0] && |body| >= 4 ==> st'.texts == st.texts + [CString(Shifted(body, |body|))])
            && (kind == [4, 0] && |body| >= 8 ==>
                  st'.latency == DecodeTv(body, 0) && st'.s2c == st.s2c + [TimerSub(st.base.received, st.base.sent)])
            && (kind !in {[1, 0], [2, 0], [3, 0], [4, 0]} ==>
                  st' == st.(base := st.base.(typ := 0), log := st'.log))
  {
    hide EncodeBase, HandleBody, At, CodecBody, Supported, ParseCodec, CString, Shifted, TimerSub, ChunkOutput, Beyond;
    var h := Handled(st.base, f.body, behind, inputs);
    TypeIsFirst(f.header);
    BodyEffects(st, f.body, behind, inputs);
    BodyMeans(h, f);
    assert EncodeBase(f.header)[..2] == [f.header.typ % 256, f.header.typ / 256];
    if f.header.typ == TYPE_CODEC_HEADER && inputs.nameGranted && inputs.payloadGranted {
      NamedOpens(f, inputs);
    } else if IsChunk(h) {
      assert h.behind[..0] == [];
    }
  }

  lemma NamedOpens(f: Frame, inputs: Inputs)
    requires f.header.typ == TYPE_CODEC_HEADER && inputs.nameGranted && inputs.payloadGranted
    ensures forall name, payload :: CodecBody(name, payload) <= f.body && |payload| >= 12
              && (Begins(name, "opus") || Begins(name, "flac") || Begins(name, "pcm") || Begins(name, "ogg"))
              ==> Opens(f, inputs)
  {
    hide CodecBody, Supported;
    forall name, payload | CodecBody(name, payload) <= f.body && |payload| >= 12
              && (Begins(name, "opus") || Begins(name, "flac") || Begins(name, "pcm") || Begins(name, "ogg"))
      ensures Opens(f, inputs)
    {
      SupportedIff(name);
      assert NamesCodec(f.body, name, payload);
    }
  }

  // ---- a reply cut short ---------------------------------------------------------------

  const SHORT_REPLY := Frame(Base(TYPE_TIME, 0, 0, ZERO, ZERO, 4), [1, 0, 0, 0])

  /** A session in which one call takes a TIME frame with a body of four bytes: the latency
      is one second, which no reply has carried. */
  lemma ShortReplyIsKept() returns (env: Env, c: Conn)
    ensures c.st == Opened(c.st.base) && |c.buf| == 30
    ensures Positive(env) && LiesAt(env.stream, c.pos, SHORT_REPLY)
    ensures var d := Call(env, c, 30);
            && |d.st.log| == 1
            && d.st.latency == Tv(1, 0) && ReplyLatency(d.st.log) == ZERO
  {
    hide Call, Slice, EncodeBase, Decode, Written, Load;
    var bytes := FrameBytes(SHORT_REPLY);
    env := Env((p: nat) => if p < 30 then bytes[p] else 0, k => 1, k => Inputs(true, ZERO, true, true, 0));
    c := Conn(Opened(Base(0, 0, 0, ZERO, ZERO, 0)), seq(30, i => 0), 0, 0, 0, 0);
    assert Slice(env.stream, 0, 30) == bytes;
    CallTakesFrame(env, c, SHORT_REPLY);
    assert At(I32, SHORT_REPLY.body, 0) == 1 by {
      assert SHORT_REPLY.body[0..4] == SHORT_REPLY.body;
      OneSecond();
    }
  }

  lemma OneSecond()
    ensures Decode(I32, [1, 0, 0, 0]) == 1
  {
    SpanValues();
    LeNatSpelled([1, 0, 0, 0]);
  }

  // ---- a chunk that overruns its frame -------------------------------------------------

  const PCM_HEADER := Frame(Base(TYPE_CODEC_HEADER, 0, 0, ZERO, ZERO, 23), CodecBody(PCM, seq(12, i => 0)))
  const GREEDY_CHUNK := Frame(Base(TYPE_WIRE_CHUNK, 0, 0, ZERO, ZERO, 12), EncodeTv(ZERO) + Encode(U32, 100))

  lemma PcmOpens(h: Handled)
    requires h.header.typ == TYPE_CODEC_HEADER && h.body == PCM_HEADER.body
    requires h.inputs.nameGranted && h.inputs.payloadGranted
    ensures Accepts(h)
  {
    hide CodecBody, ParseCodec;
    CodecParsesBack(PCM, seq(12, i => 0), []);
    assert h.body + [] == h.body;
    CStringIs(PCM + [0], PCM);
  }

  lemma GreedyChunkTakes(h: Handled)
    requires h.header.typ == TYPE_WIRE_CHUNK && h.body == GREEDY_CHUNK.body && |h.behind| >= 100
    ensures IsChunk(h) && !Beyond(h) && ChunkOutput(h) == Output([], h.behind[..100], 100, h.inputs.accepted)
  {
    hide Encode, EncodeTv;
    AtEncoded(U32, 100, EncodeTv(ZERO), []);
    assert EncodeTv(ZERO) + Encode(U32, 100) + [] == GREEDY_CHUNK.body;
  }

  /** A session of two calls: the gate is opened, and a chunk of twelve bytes announces a
      hundred.  A hundred bytes are handed out, none of them audio: they are what the buffer
      of 4096 bytes holds behind the chunk. */
  lemma GreedyChunkIsPlayed() returns (env: Env, c: Conn)
    ensures c.st == Opened(c.st.base) && |c.buf| == 4096 && Positive(env)
    ensures LiesAt(env.stream, c.pos, PCM_HEADER) && LiesAt(env.stream, c.pos + 49, GREEDY_CHUNK)
    ensures var d := Call(env, Call(env, c, 49), 38);
            && d.pos == c.pos + 87 && |d.buf| == 4096 && !d.st.halted
            && d.st.outputs == [Output([], d.buf[12..112], 100, 100)]
  {
    hide Call, Slice, EncodeBase, Load, HandleBody, CodecBody;
    var bytes := FrameBytes(PCM_HEADER) + FrameBytes(GREEDY_CHUNK);
    env := Env((p: nat) => if p < 87 then bytes[p] else 0, k => 1, k => Inputs(true, ZERO, true, true, 100));
    c := Conn(Opened(Base(0, 0, 0, ZERO, ZERO, 0)), seq(4096, i => 0), 0, 0, 0, 0);
    assert Slice(env.stream, 0, 49) == FrameBytes(PCM_HEADER);
    assert Slice(env.stream, 49, 38) == FrameBytes(GREEDY_CHUNK);
    CallTakesFrame(env, c, PCM_HEADER);
    var c1 := Call(env, c, 49);
    AfterHeader(env, c, c1);
    CallTakesFrame(env, c1, GREEDY_CHUNK);
    AfterChunk(env, c1, Call(env, c1, 38));
  }

  lemma AfterHeader(env: Env, c: Conn, c1: Conn)
    requires c.st == Opened(c.st.base) && |c.buf| == 4096
    requires env.inputs(c.ticks + 1).nameGranted && env.inputs(c.ticks + 1).payloadGranted
    requires var base := PCM_HEADER.header.(received := env.inputs(c.ticks).now);
             c1.st == HandleBody(c.st.(base := base), PCM_HEADER.body,
                                 Load(Load(c.buf, EncodeBase(PCM_HEADER.header)), PCM_HEADER.body)[23..],
                                 env.inputs(c.ticks + 1))
    ensures c1.st.receivedHeader && !c1.st.halted && c1.st.outputs == [] && c1.st.base.typ == TYPE_BASE
  {
    hide CodecBody, EncodeBase, Load, ParseCodec, Supported, HandleBody, Accepts;
    var base := PCM_HEADER.header.(received := env.inputs(c.ticks).now);
    var behind := Load(Load(c.buf, EncodeBase(PCM_HEADER.header)), PCM_HEADER.body)[23..];
    BodyEffects(c.st.(base := base), PCM_HEADER.body, behind, env.inputs(c.ticks + 1));
    PcmOpens(Handled(base, PCM_HEADER.body, behind, env.inputs(c.ticks + 1)));
    AcceptsNoFault(Handled(base, PCM_HEADER.body, behind, env.inputs(c.ticks + 1)), false);
  }

  lemma AcceptsNoFault(h: Handled, gate: bool)
    requires Accepts(h)
    ensures !Faults(h, gate) && !IsChunk(h)
  {
    hide ParseCodec, Supported;
  }

  lemma AfterChunk(env: Env, c: Conn, d: Conn)
    requires c.st.receivedHeader && !c.st.halted && c.st.outputs == [] && |c.buf| == 4096
    requires env.inputs(c.ticks + 1).accepted == 100
    requires var base := GREEDY_CHUNK.header.(received := env.inputs(c.ticks).now);
             d.st == HandleBody(c.st.(base := base), GREEDY_CHUNK.body,
                                Load(Load(c.buf, EncodeBase(GREEDY_CHUNK.header)), GREEDY_CHUNK.body)[12..],
                                env.inputs(c.ticks + 1))
    requires d.buf == Written(c.buf, GREEDY_CHUNK)
    ensures |d.buf| == 4096 && !d.st.halted && d.st.outputs == [Output([], d.buf[12..112], 100, 100)]
  {
    hide Encode, EncodeTv, EncodeBase, HandleBody, ChunkOutput, Beyond;
    var base := GREEDY_CHUNK.header.(received := env.inputs(c.ticks).now);
    var inputs := env.inputs(c.ticks + 1);
    var behind := Load(Load(c.buf, EncodeBase(GREEDY_CHUNK.header)), GREEDY_CHUNK.body)[12..];
    BodyEffects(c.st.(base := base), GREEDY_CHUNK.body, behind, inputs);
    GreedyChunkTakes(Handled(base, GREEDY_CHUNK.body, behind, inputs));
    assert behind[..100] == d.buf[12..112];
  }
}
