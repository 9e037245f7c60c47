/** Both directions together: what the server says decides what the client sends back. */
module Duplex {
  import opened Words
  import opened Messages
  import opened Machine
  import opened History
  import opened Edits
  import opened Frames
  import opened Playback
  import opened Session

  /** The turns of an interleaving, with the one that it leaves at hand. */
  function AllTurns(es: seq<Event>): seq<int> {
    LoopTurns(es) + if TaskOf(es).Inside? then [TaskOf(es).left] else []
  }

  lemma AllTurnsFit(es: seq<Event>, room: int)
    requires EventsFit(es, room)
    ensures Fits(AllTurns(es), room)
  {
    TurnsFit(es, room);
  }

  /** The turns of what came before are the first of them, the one then at hand included. */
  lemma {:induction false} EarlierTurns(es: seq<Event>, j: nat)
    requires j <= |es|
    ensures AllTurns(es[..j]) <= AllTurns(es) && LoopTurns(es[..j]) <= AllTurns(es)
    decreases es
  {
    if j == |es| {
      assert es[..j] == es;
    } else {
      var n := |es| - 1;
      EarlierTurns(es[..n], j);
      assert es[..n][..j] == es[..j];
      assert AllTurns(es[..n]) <= AllTurns(es);
    }
  }

  /** The environment as the parser sees it in the whole interleaving. */
  function SeenIn(env: Env, s: Net, es: seq<Event>): Env
    requires EventsFit(es, |s.conn.buf|)
  {
    AllTurnsFit(es, |s.conn.buf|);
    Seen(env, s.conn, AllTurns(es))
  }

  /** How far the parser has read after the first `m` turns of the interleaving. */
  function ReadIn(env: Env, s: Net, es: seq<Event>, m: nat): nat
    requires EventsFit(es, |s.conn.buf|) && m <= |AllTurns(es)|
  {
    AllTurnsFit(es, |s.conn.buf|);
    Effective(env, s.conn, AllTurns(es)[..m]).1
  }

  /** The state after the first `m` turns is what the frames say that are consumed by then. */
  ghost predicate TellsAt(env: Env, s: Net, frames: seq<Frame>, es: seq<Event>, m: nat, n: nat, st: State)
    requires EventsFit(es, |s.conn.buf|) && m <= |AllTurns(es)|
  {
    Consumed(frames, ReadIn(env, s, es, m) - s.conn.pos, n) && Tells(SeenIn(env, s, es), s.conn, frames, n, st)
  }

  lemma TurnsTell(env: Env, s: Net, frames: seq<Frame>, es: seq<Event>, m: nat) returns (n: nat)
    requires EventsFit(es, |s.conn.buf|) && Receives(SeenIn(env, s, es), s.conn, frames) && m <= |AllTurns(es)|
    requires Confined(SeenIn(env, s, es), s.conn, frames, ReadIn(env, s, es, |AllTurns(es)|))
    ensures Fits(AllTurns(es)[..m], |s.conn.buf|)
    ensures TellsAt(env, s, frames, es, m, n, Turns(env, s.conn, AllTurns(es)[..m]).st)
  {
    hide Turns, Seen, Effective, StandsAt, Tells, Faithful, Blocked, Start, AllRead, AllTurns, Consumed;
    AllTurnsFit(es, |s.conn.buf|);
    var lefts := AllTurns(es);
    assert lefts[..|lefts|] == lefts;
    PrefixIsParsed(env, s.conn, lefts, m);
    OpenedIsFaithful(s.conn.st.base);
    TurnsKeepFaithful(env, s.conn, lefts[..m]);
    n := StateMeaning(SeenIn(env, s, es), s.conn, frames, Turns(env, s.conn, lefts[..m]), ReadIn(env, s, es, m));
  }

  /** The turns completed before event `j`. */
  function Completed(es: seq<Event>, j: nat): (m: nat)
    requires j <= |es|
    ensures m <= |AllTurns(es)|
  {
    EarlierTurns(es, j);
    |LoopTurns(es[..j])|
  }

  /** The turns completed or at hand then. */
  function Started(es: seq<Event>, j: nat): (m: nat)
    requires j <= |es|
    ensures m <= |AllTurns(es)|
  {
    EarlierTurns(es, j);
    |AllTurns(es[..j])|
  }

  lemma StatesOfTurns(env: Env, s: Net, es: seq<Event>, j: nat)
    requires s.task == Between && EventsFit(es, |s.conn.buf|) && j <= |es|
    ensures Fits(AllTurns(es), |s.conn.buf|)
    ensures Run(env, s, es[..j]).conn == Turns(env, s.conn, AllTurns(es)[..Completed(es, j)])
    ensures !Run(env, s, es[..j]).conn.st.halted ==>
              Ahead(env, Run(env, s, es[..j])) == Turns(env, s.conn, AllTurns(es)[..Started(es, j)]).st
  {
    hide Run, Turns, OneTurn, TaskOf, LoopTurns;
    AllTurnsFit(es, |s.conn.buf|);
    EarlierTurns(es, j);
    TurnsFit(es[..j], |s.conn.buf|);
    TimerDoesNotDisturb(env, s, es[..j]);
    var lefts := LoopTurns(es[..j]);
    assert AllTurns(es)[..|lefts|] == lefts;
    assert AllTurns(es)[..|AllTurns(es[..j])|] == AllTurns(es[..j]);
    if TaskOf(es[..j]).Inside? {
      OneMoreTurn(env, s.conn, lefts, TaskOf(es[..j]).left);
    } else {
      assert AllTurns(es[..j]) == lefts;
    }
  }

  /** Message `k` on a stream of frames: its header is printed at event `i`, after the first
      `a` frames, which have started playback; its first word is loaded at event `j` and is
      the one that the first `b` frames announce, that of a turn at hand included; its second
      word is loaded at event `l` and is the one that the first `d` frames announce. */
  ghost predicate SentOnFrames(env: Env, s: Net, frames: seq<Frame>, es: seq<Event>, k: nat, note: Note,
      i: nat, j: nat, l: nat, a: nat, b: nat, d: nat)
    requires s.task == Between && EventsFit(es, |s.conn.buf|)
  {
    && i < j < l < |es|
    && PrintsHeader(env, s, es, i, k, note.now)
    && Consumed(frames, ReadIn(env, s, es, Completed(es, i)) - s.conn.pos, a)
    && Playing(SeenIn(env, s, es), s.conn, frames, a)
    && LoadsFirst(env, s, es, j, k, note.latency.sec)
    && Consumed(frames, ReadIn(env, s, es, Started(es, j)) - s.conn.pos, b)
    && note.latency.sec == Announced(frames, b).sec
    && PrintsBody(env, s, es, l, k, note.latency.usec)
    && Consumed(frames, ReadIn(env, s, es, Completed(es, l)) - s.conn.pos, d)
    && note.latency.usec == Announced(frames, d).usec
  }

  ghost predicate SentAfterFrames(env: Env, s: Net, frames: seq<Frame>, es: seq<Event>, k: nat, note: Note)
    requires s.task == Between && EventsFit(es, |s.conn.buf|)
  {
    exists i: nat, j: nat, l: nat, a: nat, b: nat, d: nat ::
      SentOnFrames(env, s, frames, es, k, note, i, j, l, a, b, d)
  }

  /** The frames consumed at event `j`, and what the state then is. */
  lemma FramesThen(env: Env, s: Net, frames: seq<Frame>, es: seq<Event>, j: nat) returns (n: nat)
    requires s.task == Between && EventsFit(es, |s.conn.buf|) && j <= |es|
    requires Receives(SeenIn(env, s, es), s.conn, frames)
    requires Confined(SeenIn(env, s, es), s.conn, frames, ReadIn(env, s, es, |AllTurns(es)|))
    ensures TellsAt(env, s, frames, es, Completed(es, j), n, Run(env, s, es[..j]).conn.st)
  {
    hide Run, Turns, SeenIn, ReadIn, TellsAt, Receives, Confined, AllTurns;
    StatesOfTurns(env, s, es, j);
    n := TurnsTell(env, s, frames, es, Completed(es, j));
  }

  lemma FramesAhead(env: Env, s: Net, frames: seq<Frame>, es: seq<Event>, j: nat) returns (n: nat)
    requires s.task == Between && EventsFit(es, |s.conn.buf|)
    requires Receives(SeenIn(env, s, es), s.conn, frames) && j <= |es| && !Run(env, s, es[..j]).conn.st.halted
    requires Confined(SeenIn(env, s, es), s.conn, frames, ReadIn(env, s, es, |AllTurns(es)|))
    ensures TellsAt(env, s, frames, es, Started(es, j), n, Ahead(env, Run(env, s, es[..j])))
  {
    hide Run, Turns, SeenIn, ReadIn, TellsAt, Receives, Confined, AllTurns, Ahead;
    StatesOfTurns(env, s, es, j);
    n := TurnsTell(env, s, frames, es, Started(es, j));
  }

  lemma MessageOnFrames(env: Env, s: Net, frames: seq<Frame>, es: seq<Event>, k: nat)
    requires s.task == Between && EventsFit(es, |s.conn.buf|) && Receives(SeenIn(env, s, es), s.conn, frames)
    requires Confined(SeenIn(env, s, es), s.conn, frames, ReadIn(env, s, es, |AllTurns(es)|))
    requires s.timer == Idle && s.notes == [] && k < |Run(env, s, es).notes|
    ensures SentAfterFrames(env, s, frames, es, k, Run(env, s, es).notes[k])
  {
    hide Run, SeenIn, ReadIn, AllTurns, Completed, Started, Consumed, Playing, Announced, OutputCalls, Played;
    hide Confined, SettingsTexts, SomeOverrun, SomeStop, OutputBytes, LastSec, LastUsec, Ahead, AllRead;
    hide Gate, LatencyOf, OutputsOf, S2cOf, TextsOf, FaultIn;
    OpenedIsFaithful(s.conn.st.base);
    var i, j, l := MessageWitness(env, s, es, k);
    RunIsFaithful(env, s, es[..i]);
    RunIsFaithful(env, s, es[..j]);
    RunIsFaithful(env, s, es[..l]);
    var a := FramesThen(env, s, frames, es, i);
    var b := FramesAhead(env, s, frames, es, j);
    var d := FramesThen(env, s, frames, es, l);
    WordsOfLatency(Ahead(env, Run(env, s, es[..j])).log);
    WordsOfLatency(Run(env, s, es[..l]).conn.st.log);
    assert SentOnFrames(env, s, frames, es, k, Run(env, s, es).notes[k], i, j, l, a, b, d);
  }

  /** From wire to wire: in every interleaving, on every transport, on any stream that as the
      parser sees it begins with these frames, the state of the receiving side is what the
      frames consumed say; the server reads one HELLO and whole TIME messages, as many as
      callbacks that started with the gate open and an answering clock and ran to their end;
      the gate is that of the frames consumed (`FramesThen`).  Each is sent only after a frame
      that started playback was consumed, and carries the words that the frames consumed at
      its two loads announce. */
  lemma WireToWire(env: Env, s: Net, frames: seq<Frame>, es: seq<Event>, now: Tv, text: seq<byte>)
    returns (n: nat)
    requires |text| < 0x8000_0000 - 4 && AtOpen(s, now, text) && EventsFit(es, |s.conn.buf|)
    requires Receives(SeenIn(env, s, es), s.conn, frames)
    requires Confined(SeenIn(env, s, es), s.conn, frames, ReadIn(env, s, es, |AllTurns(es)|))
    ensures var d := Run(env, s, es);
            && TellsAt(env, s, frames, es, Completed(es, |es|), n, d.conn.st)
            && ServerReads(d, now, text)
            && |d.notes| == CallbackOf(env, s, es).done && InPhase(d.timer, CallbackOf(env, s, es).phase)
            && forall k :: 0 <= k < |d.notes| ==> SentAfterFrames(env, s, frames, es, k, d.notes[k])
  {
    hide Run, SeenIn, ReadIn, AllTurns, TellsAt, ServerReads, Receives, Confined, SentAfterFrames;
    hide HelloFrame, Safe, Opened, Completed, CallbackOf, InPhase;
    EveryCallbackSends(env, s, es);
    assert es[..|es|] == es;
    n := FramesThen(env, s, frames, es, |es|);
    SafeAtOpen(s, now, text);
    RunStaysSafe(env, s, es, HelloFrame(now, text));
    var d := Run(env, s, es);
    SafeIsRead(d, now, text);
    forall k | 0 <= k < |d.notes|
      ensures SentAfterFrames(env, s, frames, es, k, d.notes[k])
    {
      MessageOnFrames(env, s, frames, es, k);
    }
  }

  lemma AllConfined(env: Env, s: Net, es: seq<Event>)
    requires s.conn.st == Opened(s.conn.st.base) && EventsFit(es, |s.conn.buf|)
    ensures var e := SeenIn(env, s, es);
            var frames := FramesOf(e, s.conn, |AllTurns(es)|);
            && Receives(e, s.conn, frames)
            && Confined(e, s.conn, frames, ReadIn(env, s, es, |AllTurns(es)|))
  {
    hide Turns, Seen, Effective, StandsAt, FramesOf, Receives, Confined, AllTurns, Opened;
    AllTurnsFit(es, |s.conn.buf|);
    var lefts := AllTurns(es);
    assert lefts[..|lefts|] == lefts;
    EveryRunIsParsed(env, s.conn, lefts);
    OnePieceATurn(env, s.conn, lefts);
    EverySessionReceives(SeenIn(env, s, es), s.conn, |lefts|);
    StateIsConfined(SeenIn(env, s, es), s.conn, Turns(env, s.conn, lefts), ReadIn(env, s, es, |lefts|), |lefts|);
  }

  /** The same without any assumption on the stream, for the frames that are found in it. */
  lemma EveryWireToWire(env: Env, s: Net, es: seq<Event>, now: Tv, text: seq<byte>)
    returns (n: nat)
    requires |text| < 0x8000_0000 - 4 && AtOpen(s, now, text) && EventsFit(es, |s.conn.buf|)
    ensures var frames := FramesOf(SeenIn(env, s, es), s.conn, |AllTurns(es)|);
            var d := Run(env, s, es);
            && TellsAt(env, s, frames, es, Completed(es, |es|), n, d.conn.st)
            && ServerReads(d, now, text)
            && |d.notes| == CallbackOf(env, s, es).done && InPhase(d.timer, CallbackOf(env, s, es).phase)
            && forall k :: 0 <= k < |d.notes| ==> SentAfterFrames(env, s, frames, es, k, d.notes[k])
  {
    hide CallbackOf, InPhase;
    hide Run, SeenIn, ReadIn, AllTurns, FramesOf, Receives, Confined, TellsAt, ServerReads, SentAfterFrames;
    hide HelloFrame, Opened, Completed;
    AllConfined(env, s, es);
    n := WireToWire(env, s, FramesOf(SeenIn(env, s, es), s.conn, |AllTurns(es)|), es, now, text);
  }
}
