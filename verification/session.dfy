/** Two actors on one connection: the process loop, and the timer callback that is the
    only writer to the socket after open.  A turn of the loop is two steps: up to the store
    of the first word of a latency, if it stores one, and the rest.  The callback is three:
    up to its first write, the load of the first word of the latency, and the rest.  The
    steps of the two come in any order. */
module Session {
  import opened Words
  import opened Messages
  import opened Machine
  import opened History

  /** One TIME frame in the past: the clock in its header, and the latency in its body. */
  datatype Note = Note(now: Tv, latency: Tv)

  datatype Timer = Idle | HeaderSent(now: Tv) | HalfRead(now: Tv, sec: i32)

  datatype Task = Between | Inside(left: int)

  datatype Net = Net(
    conn: Conn, task: Task, sent: seq<byte>, idCounter: nat, lastSync: Tv, timer: Timer, notes: seq<Note>)

  datatype Event = Begin(left: int) | End | Fire(clockOk: bool, now: Tv) | Peek | Finish

  /** The header of the callback's message: `id_counter++` is stored in 16 bits. */
  function TimeHeader(id: nat, now: Tv): Base {
    Base(TYPE_TIME, id % 0x1_0000, 0, now, ZERO, TIME_MESSAGE_SIZE)
  }

  function TimeFrame(id: nat, note: Note): (bs: seq<byte>)
    ensures |bs| == 34
  {
    EncodeBase(TimeHeader(id, note.now)) + TimeBody(note.latency)
  }

  function HelloHeader(now: Tv, text: seq<byte>): Base
    requires |text| < 0x8000_0000 - 4
  {
    Base(TYPE_HELLO, 0, 0, now, ZERO, 4 + |text|)
  }

  function HelloFrame(now: Tv, text: seq<byte>): (bs: seq<byte>)
    requires |text| < 0x8000_0000 - 4
  {
    EncodeBase(HelloHeader(now, text)) + PrefixedText(text)
  }

  /** The state that the turn at hand will have reached, or that of the last one. */
  function Ahead(env: Env, s: Net): State
    requires s.task.Inside? ==> s.task.left <= |s.conn.buf|
  {
    if s.task.Inside? then OneTurn(env, s.conn, s.task.left).c.st else s.conn.st
  }

  /** HELLO and TIME are the types 5 and 4 on the wire. */
  lemma TypesOnWire(now: Tv, text: seq<byte>, id: nat, note: Note)
    requires |text| < 0x8000_0000 - 4
    ensures HelloFrame(now, text)[..2] == [5, 0]
    ensures TimeFrame(id, note)[..2] == [4, 0]
  {
    hide EncodeBase, PrefixedText, TimeBody;
    TypeIsFirst(HelloHeader(now, text));
    TypeIsFirst(TimeHeader(id, note.now));
    assert HelloFrame(now, text)[..2] == EncodeBase(HelloHeader(now, text))[..2];
    assert TimeFrame(id, note)[..2] == EncodeBase(TimeHeader(id, note.now))[..2];
  }

  /** The callback up to its first write. */
  function FireStep(s: Net, clockOk: bool, now: Tv): Net {
    if s.timer != Idle || !s.conn.st.receivedHeader || !clockOk then s
    else s.(lastSync := now, idCounter := s.idCounter + 1,
            sent := s.sent + EncodeBase(TimeHeader(s.idCounter, now)),
            timer := HeaderSent(now))
  }

  /** The first word of the latency: a turn at hand has stored it already. */
  function PeekStep(env: Env, s: Net): Net
    requires s.task.Inside? ==> s.task.left <= |s.conn.buf|
  {
    if s.timer.HeaderSent? then s.(timer := HalfRead(s.timer.now, Ahead(env, s).latency.sec)) else s
  }

  /** The rest of the callback; the second word is not stored before the turn ends. */
  function FinishStep(s: Net): Net {
    if !s.timer.HalfRead? then s
    else
      var latency := Tv(s.timer.sec, s.conn.st.latency.usec);
      s.(sent := s.sent + TimeBody(latency), timer := Idle, notes := s.notes + [Note(s.timer.now, latency)])
  }

  predicate TaskFits(s: Net) {
    s.task.Inside? ==> s.task.left <= |s.conn.buf|
  }

  /** Once the machine has stopped there are no more steps. */
  function Step(env: Env, s: Net, e: Event): (s': Net)
    requires TaskFits(s) && (e.Begin? ==> e.left <= |s.conn.buf|)
    ensures TaskFits(s') && |s'.conn.buf| == |s.conn.buf|
  {
    if s.conn.st.halted then s
    else match e
      case Begin(left) => if s.task == Between then s.(task := Inside(left)) else s
      case End => if s.task == Between then s else s.(conn := OneTurn(env, s.conn, s.task.left).c, task := Between)
      case Fire(clockOk, now) => FireStep(s, clockOk, now)
      case Peek => PeekStep(env, s)
      case Finish => FinishStep(s)
  }

  predicate EventsFit(es: seq<Event>, room: int) {
    forall i :: 0 <= i < |es| ==> es[i].Begin? ==> es[i].left <= room
  }

  /** Any interleaving. */
  function Run(env: Env, s: Net, es: seq<Event>): (s': Net)
    requires TaskFits(s) && EventsFit(es, |s.conn.buf|)
    ensures TaskFits(s') && |s'.conn.buf| == |s.conn.buf|
    decreases es
  {
    if es == [] then s else Step(env, Run(env, s, es[..|es| - 1]), es[|es| - 1])
  }

  /** Right after open. */
  predicate AtOpen(s: Net, now: Tv, text: seq<byte>)
    requires |text| < 0x8000_0000 - 4
  {
    && s.conn.st == Opened(s.conn.st.base)
    && s.sent == HelloFrame(now, text)
    && s.task == Between && s.idCounter == 0 && s.timer == Idle && s.notes == []
  }

  // ---- the loop is not disturbed -------------------------------------------------------

  /** Whether the events leave a turn at hand. */
  function TaskOf(es: seq<Event>): Task
    decreases es
  {
    if es == [] then Between
    else match es[|es| - 1]
      case Begin(left) => if TaskOf(es[..|es| - 1]) == Between then Inside(left) else TaskOf(es[..|es| - 1])
      case End => Between
      case _ => TaskOf(es[..|es| - 1])
  }

  /** The turns that they complete. */
  function LoopTurns(es: seq<Event>): seq<int>
    decreases es
  {
    if es == [] then []
    else
      var before := es[..|es| - 1];
      LoopTurns(before) + if es[|es| - 1].End? && TaskOf(before).Inside? then [TaskOf(before).left] else []
  }

  lemma {:induction false} TurnsFit(es: seq<Event>, room: int)
    requires EventsFit(es, room)
    ensures Fits(LoopTurns(es), room)
    ensures TaskOf(es).Inside? ==> TaskOf(es).left <= room
    decreases es
  {
    if es != [] {
      TurnsFit(es[..|es| - 1], room);
    }
  }

  /** What a step does to the receiving side. */
  lemma StepOnConn(env: Env, s: Net, e: Event)
    requires TaskFits(s) && (e.Begin? ==> e.left <= |s.conn.buf|)
    ensures var s' := Step(env, s, e);
            if s.conn.st.halted then s' == s
            else
              && s'.conn == (if e.End? && s.task.Inside? then OneTurn(env, s.conn, s.task.left).c else s.conn)
              && s'.task == (if e.Begin? && s.task == Between then Inside(e.left)
                             else if e.End? then Between else s.task)
  {
    hide OneTurn, EncodeBase, TimeBody;
  }

  lemma OneMoreTurn(env: Env, c: Conn, lefts: seq<int>, left: int)
    requires Fits(lefts, |c.buf|) && left <= |c.buf|
    ensures Fits(lefts + [left], |c.buf|)
    ensures Turns(env, c, lefts + [left]) == OneTurn(env, Turns(env, c, lefts), left).c
    ensures Turns(env, c, lefts).st.halted ==> Turns(env, c, lefts + [left]) == Turns(env, c, lefts)
  {
    hide OneTurn;
    assert (lefts + [left])[..|lefts|] == lefts;
    if Turns(env, c, lefts).st.halted {
      HaltedStays(env, Turns(env, c, lefts), [left]);
      assert [left][..0] == [];
    }
  }

  /** In every interleaving the receiving side is exactly a run of the loop alone, so all
      that is proved of such runs holds here. */
  lemma {:induction false} TimerDoesNotDisturb(env: Env, s: Net, es: seq<Event>)
    requires s.task == Between && EventsFit(es, |s.conn.buf|)
    ensures Fits(LoopTurns(es), |s.conn.buf|)
    ensures Run(env, s, es).conn == Turns(env, s.conn, LoopTurns(es))
    ensures !Run(env, s, es).conn.st.halted ==> Run(env, s, es).task == TaskOf(es)
    decreases es
  {
    hide OneTurn, Step, Turns;
    TurnsFit(es, |s.conn.buf|);
    if es == [] {
      assert Turns(env, s.conn, []) == s.conn by {
        NoTurns(env, s.conn);
      }
    } else {
      var n := |es| - 1;
      TimerDoesNotDisturb(env, s, es[..n]);
      StepOnConn(env, Run(env, s, es[..n]), es[n]);
      var lefts := LoopTurns(es[..n]);
      if es[n].End? && TaskOf(es[..n]).Inside? {
        TurnsFit(es[..n], |s.conn.buf|);
        OneMoreTurn(env, s.conn, lefts, TaskOf(es[..n]).left);
      } else {
        assert lefts + [] == lefts;
      }
    }
  }

  lemma NoTurns(env: Env, c: Conn)
    ensures Turns(env, c, []) == c
  {
  }

  // ---- what is sent --------------------------------------------------------------------

  /** The TIME frames of the notes from number `k` on, with the number as id. */
  function TimeFrames(notes: seq<Note>, k: nat): seq<byte>
    requires k <= |notes|
    decreases |notes| - k
  {
    if k == |notes| then [] else TimeFrame(k, notes[k]) + TimeFrames(notes, k + 1)
  }

  /** The header of the frame that the timer is in the middle of. */
  function Pending(s: Net): seq<byte> {
    if s.timer == Idle then [] else EncodeBase(TimeHeader(|s.notes|, s.timer.now))
  }

  /** The socket is in step with the notes. */
  ghost predicate Safe(s: Net, hello: seq<byte>) {
    && s.sent == hello + TimeFrames(s.notes, 0) + Pending(s)
    && s.idCounter == |s.notes| + (if s.timer == Idle then 0 else 1)
  }

  lemma {:induction false} TimeFramesGrow(notes: seq<Note>, note: Note, k: nat)
    requires k <= |notes|
    ensures TimeFrames(notes + [note], k) == TimeFrames(notes, k) + TimeFrame(|notes|, note)
    decreases |notes| - k
  {
    hide TimeFrame;
    if k == |notes| {
      assert TimeFrames(notes + [note], k + 1) == [];
    } else {
      TimeFramesGrow(notes, note, k + 1);
    }
  }

  lemma FireStaysSafe(s: Net, clockOk: bool, now: Tv, hello: seq<byte>)
    requires Safe(s, hello)
    ensures Safe(FireStep(s, clockOk, now), hello)
  {
    hide EncodeBase, TimeFrames;
    assert s.timer == Idle ==> s.sent + [] == s.sent;
  }

  lemma FinishStaysSafe(s: Net, hello: seq<byte>)
    requires Safe(s, hello)
    ensures Safe(FinishStep(s), hello)
  {
    hide EncodeBase, TimeFrames, TimeBody;
    if s.timer.HalfRead? {
      var latency := Tv(s.timer.sec, s.conn.st.latency.usec);
      TimeFramesGrow(s.notes, Note(s.timer.now, latency), 0);
      var times := TimeFrames(s.notes, 0);
      var p, q := EncodeBase(TimeHeader(|s.notes|, s.timer.now)), TimeBody(latency);
      assert hello + times + p + q == hello + (times + (p + q)) + [];
    }
  }

  lemma StepStaysSafe(env: Env, s: Net, e: Event, hello: seq<byte>)
    requires TaskFits(s) && (e.Begin? ==> e.left <= |s.conn.buf|) && Safe(s, hello)
    ensures Safe(Step(env, s, e), hello)
  {
    hide OneTurn, FireStep, FinishStep, EncodeBase, TimeFrames;
    match e {
      case Begin(left) =>
      case End =>
      case Fire(clockOk, now) => FireStaysSafe(s, clockOk, now, hello);
      case Peek =>
      case Finish => FinishStaysSafe(s, hello);
    }
  }

  /** Every interleaving keeps the socket in step. */
  lemma {:induction false} RunStaysSafe(env: Env, s: Net, es: seq<Event>, hello: seq<byte>)
    requires TaskFits(s) && EventsFit(es, |s.conn.buf|) && Safe(s, hello)
    ensures Safe(Run(env, s, es), hello)
    decreases es
  {
    if es != [] {
      hide Safe, Step;
      var n := |es| - 1;
      RunStaysSafe(env, s, es[..n], hello);
      StepStaysSafe(env, Run(env, s, es[..n]), es[n], hello);
    }
  }

  // ---- how the server reads it ---------------------------------------------------------

  /** Whole frames from the front, and what is left of an incomplete one. */
  function ParseFrames(bs: seq<byte>): (r: (seq<(Base, seq<byte>)>, seq<byte>))
    decreases |bs|
  {
    if |bs| < BASE_MESSAGE_SIZE then ([], bs)
    else
      var h := DecodeBase(bs);
      if |bs| - BASE_MESSAGE_SIZE < h.size then ([], bs)
      else
        var (fs, rest) := ParseFrames(bs[BASE_MESSAGE_SIZE + h.size..]);
        ([(h, bs[BASE_MESSAGE_SIZE..BASE_MESSAGE_SIZE + h.size])] + fs, rest)
  }

  lemma ParsesFrame(h: Base, body: seq<byte>, rest: seq<byte>)
    requires |body| == h.size
    ensures ParseFrames(EncodeBase(h) + body + rest)
         == ([(h, body)] + ParseFrames(rest).0, ParseFrames(rest).1)
  {
    hide EncodeBase, DecodeBase;
    var bs := EncodeBase(h) + body + rest;
    assert bs == EncodeBase(h) + (body + rest);
    BaseParsesBack(h, body + rest);
    assert bs[BASE_MESSAGE_SIZE..BASE_MESSAGE_SIZE + h.size] == body;
    assert bs[BASE_MESSAGE_SIZE + h.size..] == rest;
  }

  lemma ParsesLoneHeader(h: Base)
    requires h.size > 0
    ensures ParseFrames(EncodeBase(h)) == ([], EncodeBase(h))
  {
    hide EncodeBase, DecodeBase;
    BaseParsesBack(h, []);
    assert EncodeBase(h) + [] == EncodeBase(h);
  }

  /** The TIME messages that the notes stand for, from number `k` on. */
  function TimeMessages(notes: seq<Note>, k: nat): (ms: seq<(Base, seq<byte>)>)
    requires k <= |notes|
    ensures |ms| == |notes| - k
    ensures forall i :: 0 <= i < |ms| ==> ms[i] == (TimeHeader(k + i, notes[k + i].now), TimeBody(notes[k + i].latency))
    decreases |notes| - k
  {
    if k == |notes| then []
    else [(TimeHeader(k, notes[k].now), TimeBody(notes[k].latency))] + TimeMessages(notes, k + 1)
  }

  lemma {:induction false} ParsesTimes(notes: seq<Note>, k: nat, rest: seq<byte>)
    requires k <= |notes|
    ensures ParseFrames(TimeFrames(notes, k) + rest)
         == (TimeMessages(notes, k) + ParseFrames(rest).0, ParseFrames(rest).1)
    decreases |notes| - k
  {
    hide ParseFrames, EncodeBase, TimeBody;
    if k == |notes| {
      assert TimeFrames(notes, k) + rest == rest;
      assert TimeMessages(notes, k) + ParseFrames(rest).0 == ParseFrames(rest).0;
    } else {
      var h, body := TimeHeader(k, notes[k].now), TimeBody(notes[k].latency);
      ParsesTimes(notes, k + 1, rest);
      ParsesFrame(h, body, TimeFrames(notes, k + 1) + rest);
      assert TimeFrames(notes, k) + rest == EncodeBase(h) + body + (TimeFrames(notes, k + 1) + rest);
      assert TimeMessages(notes, k) + ParseFrames(rest).0
          == [(h, body)] + (TimeMessages(notes, k + 1) + ParseFrames(rest).0);
    }
  }

  /** Message `m` is the TIME message number `k`, as note `note` tells it. */
  ghost predicate TimeMessageIs(m: (Base, seq<byte>), k: nat, note: Note) {
    && m.0 == Base(TYPE_TIME, k % 0x1_0000, 0, note.now, ZERO, 8)
    && |m.1| == 8 && DecodeTv(m.1, 0) == note.latency
  }

  /** What the server reads when the socket is in step: HELLO, the TIME messages of the
      notes, and nothing more than the header of the next one. */
  ghost predicate ServerReads(d: Net, now: Tv, text: seq<byte>)
    requires |text| < 0x8000_0000 - 4
  {
    var (ms, rest) := ParseFrames(d.sent);
    && |ms| == 1 + |d.notes|
    && ms[0] == (Base(TYPE_HELLO, 0, 0, now, ZERO, 4 + |text|), PrefixedText(text))
    && (forall k :: 0 <= k < |d.notes| ==> TimeMessageIs(ms[1 + k], k, d.notes[k]))
    && rest == if d.timer == Idle then []
               else EncodeBase(Base(TYPE_TIME, |d.notes| % 0x1_0000, 0, d.timer.now, ZERO, 8))
  }

  lemma SafeIsRead(d: Net, now: Tv, text: seq<byte>)
    requires |text| < 0x8000_0000 - 4 && Safe(d, HelloFrame(now, text))
    ensures ServerReads(d, now, text)
  {
    hide ParseFrames, EncodeBase, TimeFrames, TimeMessages, PrefixedText, TimeBody, HelloFrame, TimeMessageIs;
    ParsesSent(d, now, text);
    var ms := ParseFrames(d.sent).0;
    forall k | 0 <= k < |d.notes|
      ensures TimeMessageIs(ms[1 + k], k, d.notes[k])
    {
      TimeMessageMeans(d.notes, k);
      assert ms[1 + k] == TimeMessages(d.notes, 0)[k];
    }
  }

  lemma TimeMessageMeans(notes: seq<Note>, k: nat)
    requires k < |notes|
    ensures TimeMessageIs(TimeMessages(notes, 0)[k], k, notes[k])
  {
    TimeParsesBack(notes[k].latency);
  }

  lemma SafeAtOpen(s: Net, now: Tv, text: seq<byte>)
    requires |text| < 0x8000_0000 - 4 && AtOpen(s, now, text)
    ensures Safe(s, HelloFrame(now, text))
  {
    var hello := HelloFrame(now, text);
    assert hello + [] + [] == hello;
  }

  lemma ParsesSent(d: Net, now: Tv, text: seq<byte>)
    requires |text| < 0x8000_0000 - 4
    requires d.sent == HelloFrame(now, text) + TimeFrames(d.notes, 0) + Pending(d)
    ensures ParseFrames(d.sent)
         == ([(HelloHeader(now, text), PrefixedText(text))] + TimeMessages(d.notes, 0), Pending(d))
  {
    hide ParseFrames, EncodeBase, TimeFrames, TimeMessages, PrefixedText;
    var h, body := HelloHeader(now, text), PrefixedText(text);
    var times, rest := TimeFrames(d.notes, 0), Pending(d);
    assert ParseFrames(rest) == ([], rest) by {
      if d.timer == Idle {
        ParsesNothing();
      } else {
        ParsesLoneHeader(TimeHeader(|d.notes|, d.timer.now));
      }
    }
    ParsesTimes(d.notes, 0, rest);
    assert TimeMessages(d.notes, 0) + [] == TimeMessages(d.notes, 0);
    assert d.sent == EncodeBase(h) + body + (times + rest);
    ParsesFrame(h, body, times + rest);
  }

  lemma ParsesNothing()
    ensures ParseFrames([]) == ([], [])
  {
  }

  // ---- when it is sent -----------------------------------------------------------------

  /** The first word of the last TIME body that holds one. */
  ghost function LastSec(log: seq<Handled>): i32 {
    if LastWord(log) < 0 then 0 else At(I32, log[LastWord(log)].body, 0)
  }

  /** The second word of the last TIME reply. */
  ghost function LastUsec(log: seq<Handled>): i32 {
    if LastReply(log) < 0 then 0 else At(I32, log[LastReply(log)].body, 4)
  }

  lemma WordsOfLatency(log: seq<Handled>)
    ensures LatencyOf(log) == Tv(LastSec(log), LastUsec(log))
  {
    hide LatencyOf, At, LastWord, LastReply;
    LatencyWords(log);
  }

  /** At event `i` the callback, with `k` TIME messages behind it, finds the gate open and
      prints the header of the next one with the clock's answer `now`. */
  ghost predicate PrintsHeader(env: Env, s: Net, es: seq<Event>, i: nat, k: nat, now: Tv)
    requires TaskFits(s) && EventsFit(es, |s.conn.buf|) && i < |es|
  {
    var d := Run(env, s, es[..i]);
    && es[i] == Fire(true, now)
    && !d.conn.st.halted && d.timer == Idle && |d.notes| == k
    && Gate(d.conn.st.log)
  }

  /** At event `j` it loads the first word of message `k`: that of the last TIME body whose
      first word is stored, which a turn at hand may have done. */
  ghost predicate LoadsFirst(env: Env, s: Net, es: seq<Event>, j: nat, k: nat, sec: i32)
    requires TaskFits(s) && EventsFit(es, |s.conn.buf|) && j < |es|
  {
    var d := Run(env, s, es[..j]);
    && es[j] == Peek
    && !d.conn.st.halted && d.timer.HeaderSent? && |d.notes| == k
    && sec == LastSec(Ahead(env, d).log)
  }

  /** At event `l` it loads the second word, that of the last TIME reply handled, and prints
      the body. */
  ghost predicate PrintsBody(env: Env, s: Net, es: seq<Event>, l: nat, k: nat, usec: i32)
    requires TaskFits(s) && EventsFit(es, |s.conn.buf|) && l < |es|
  {
    var d := Run(env, s, es[..l]);
    && es[l] == Finish
    && !d.conn.st.halted && d.timer.HalfRead? && |d.notes| == k
    && usec == LastUsec(d.conn.st.log)
  }

  lemma RunIsFaithful(env: Env, s: Net, es: seq<Event>)
    requires s.task == Between && EventsFit(es, |s.conn.buf|) && Faithful(s.conn.st)
    ensures Faithful(Run(env, s, es).conn.st)
    ensures Faithful(Ahead(env, Run(env, s, es)))
  {
    hide Run, Turns, Faithful, OneTurn;
    TimerDoesNotDisturb(env, s, es);
    TurnsKeepFaithful(env, s.conn, LoopTurns(es));
    var d := Run(env, s, es);
    if d.task.Inside? {
      TurnKeepsFaithful(env, d.conn, d.task.left);
    }
  }

  /** Every header on its own was printed at some event. */
  lemma {:induction false} HeaderWitness(env: Env, s: Net, es: seq<Event>) returns (i: nat)
    requires s.task == Between && EventsFit(es, |s.conn.buf|) && Faithful(s.conn.st)
    requires s.timer == Idle && Run(env, s, es).timer != Idle
    ensures i < |es|
    ensures PrintsHeader(env, s, es, i, |Run(env, s, es).notes|, Run(env, s, es).timer.now)
    decreases es
  {
    hide OneTurn, Gate, EncodeBase, TimeBody, LatencyOf, OutputsOf, S2cOf, TextsOf, FaultIn;
    var n := |es| - 1;
    if Run(env, s, es[..n]).timer == Idle {
      RunIsFaithful(env, s, es[..n]);
      i := n;
    } else {
      i := HeaderWitness(env, s, es[..n]);
      assert es[..n][..i] == es[..i];
    }
  }

  /** Every first word on its own was loaded at some event after the header was printed. */
  lemma {:induction false} FirstWitness(env: Env, s: Net, es: seq<Event>) returns (i: nat, j: nat)
    requires s.task == Between && EventsFit(es, |s.conn.buf|) && Faithful(s.conn.st)
    requires s.timer == Idle && Run(env, s, es).timer.HalfRead?
    ensures i < j < |es|
    ensures PrintsHeader(env, s, es, i, |Run(env, s, es).notes|, Run(env, s, es).timer.now)
    ensures LoadsFirst(env, s, es, j, |Run(env, s, es).notes|, Run(env, s, es).timer.sec)
    decreases es
  {
    hide OneTurn, Gate, EncodeBase, TimeBody, LatencyOf, OutputsOf, S2cOf, TextsOf, FaultIn, LastSec, LastUsec;
    var n := |es| - 1;
    var d := Run(env, s, es[..n]);
    if d.timer.HalfRead? {
      i, j := FirstWitness(env, s, es[..n]);
      assert es[..n][..i] == es[..i] && es[..n][..j] == es[..j];
    } else {
      i := HeaderWitness(env, s, es[..n]);
      j := n;
      assert es[..n][..i] == es[..i];
      RunIsFaithful(env, s, es[..n]);
      WordsOfLatency(Ahead(env, d).log);
    }
  }

  /** Every TIME message was made at three events. */
  lemma {:induction false} MessageWitness(env: Env, s: Net, es: seq<Event>, k: nat) returns (i: nat, j: nat, l: nat)
    requires s.task == Between && EventsFit(es, |s.conn.buf|) && Faithful(s.conn.st)
    requires s.timer == Idle && s.notes == [] && k < |Run(env, s, es).notes|
    ensures i < j < l < |es|
    ensures var note := Run(env, s, es).notes[k];
            && PrintsHeader(env, s, es, i, k, note.now)
            && LoadsFirst(env, s, es, j, k, note.latency.sec)
            && PrintsBody(env, s, es, l, k, note.latency.usec)
    decreases es
  {
    hide OneTurn, EncodeBase, TimeBody, Gate, LatencyOf, OutputsOf, S2cOf, TextsOf, FaultIn, LastSec, LastUsec;
    var n := |es| - 1;
    var d := Run(env, s, es[..n]);
    if k < |d.notes| {
      i, j, l := MessageWitness(env, s, es[..n], k);
      assert es[..n][..i] == es[..i] && es[..n][..j] == es[..j] && es[..n][..l] == es[..l];
    } else {
      i, j := FirstWitness(env, s, es[..n]);
      l := n;
      assert es[..n][..i] == es[..i] && es[..n][..j] == es[..j];
      RunIsFaithful(env, s, es[..n]);
      WordsOfLatency(d.conn.st.log);
    }
  }

  /** Message `k` was made at three events in this order. */
  ghost predicate SentInTime(env: Env, s: Net, es: seq<Event>, k: nat, note: Note)
    requires TaskFits(s) && EventsFit(es, |s.conn.buf|)
  {
    exists i: nat, j: nat, l: nat :: i < j < l < |es| && PrintsHeader(env, s, es, i, k, note.now)
                                     && LoadsFirst(env, s, es, j, k, note.latency.sec)
                                     && PrintsBody(env, s, es, l, k, note.latency.usec)
  }

  // ---- how much is sent ----------------------------------------------------------------

  /** Where the callback stands, and how often it has run to its end. */
  datatype Phase = Resting | HeaderOut | WordLoaded

  datatype Progress = Progress(phase: Phase, done: nat)

  /** The same from the events and the receiving side alone: a callback starts when the clock
      answers while none is running and the gate is open, and then runs to its end. */
  function CallbackOf(env: Env, s: Net, es: seq<Event>): Progress
    requires EventsFit(es, |s.conn.buf|)
    decreases es
  {
    if es == [] then Progress(Resting, 0)
    else
      var before := es[..|es| - 1];
      TurnsFit(before, |s.conn.buf|);
      var p, st := CallbackOf(env, s, before), Turns(env, s.conn, LoopTurns(before)).st;
      match es[|es| - 1]
      case Fire(clockOk, _) =>
        if p.phase == Resting && clockOk && st.receivedHeader && !st.halted then p.(phase := HeaderOut) else p
      case Peek => if p.phase == HeaderOut && !st.halted then p.(phase := WordLoaded) else p
      case Finish => if p.phase == WordLoaded && !st.halted then Progress(Resting, p.done + 1) else p
      case _ => p
  }

  predicate InPhase(timer: Timer, phase: Phase) {
    match phase
    case Resting => timer == Idle
    case HeaderOut => timer.HeaderSent?
    case WordLoaded => timer.HalfRead?
  }

  /** In every interleaving every callback that starts is carried out: there are as many TIME
      messages as callbacks that have run to their end. */
  lemma {:induction false} EveryCallbackSends(env: Env, s: Net, es: seq<Event>)
    requires s.task == Between && s.timer == Idle && s.notes == [] && EventsFit(es, |s.conn.buf|)
    ensures var d, p := Run(env, s, es), CallbackOf(env, s, es);
            |d.notes| == p.done && InPhase(d.timer, p.phase)
    decreases es
  {
    hide OneTurn, EncodeBase, TimeBody, Turns;
    if es != [] {
      var n := |es| - 1;
      EveryCallbackSends(env, s, es[..n]);
      TimerDoesNotDisturb(env, s, es[..n]);
    }
  }

  /** What one event adds to the socket: a firing that starts a callback the 26 bytes of a TIME
      header with the number of messages sent before as its id, an end of the callback its
      8 bytes, every other event nothing. */
  lemma EventSends(env: Env, s: Net, es: seq<Event>, i: nat, hello: seq<byte>)
    requires s.task == Between && s.timer == Idle && s.notes == [] && Safe(s, hello)
    requires EventsFit(es, |s.conn.buf|) && i < |es|
    ensures EventsFit(es[..i + 1], |s.conn.buf|)
    ensures var d, d' := Run(env, s, es[..i]), Run(env, s, es[..i + 1]);
            var p, p' := CallbackOf(env, s, es[..i]), CallbackOf(env, s, es[..i + 1]);
            if p.phase == Resting && p'.phase == HeaderOut then
              && es[i].Fire? && es[i].clockOk
              && d'.sent == d.sent + EncodeBase(Base(4, p.done % 0x1_0000, 0, es[i].now, Tv(0, 0), 8))
            else if p'.done == p.done + 1 then
              && es[i] == Finish && |d'.notes| == p'.done
              && d'.sent == d.sent + EncodeTv(d'.notes[p.done].latency)
            else d'.sent == d.sent
  {
    hide OneTurn, EncodeBase, EncodeTv, Turns, Safe;
    EveryCallbackSends(env, s, es[..i]);
    EveryCallbackSends(env, s, es[..i + 1]);
    TimerDoesNotDisturb(env, s, es[..i]);
    RunStaysSafe(env, s, es[..i], hello);
    IdIsCount(Run(env, s, es[..i]), hello);
    assert es[..i + 1][..i] == es[..i];
  }

  lemma IdIsCount(s: Net, hello: seq<byte>)
    requires Safe(s, hello)
    ensures s.timer == Idle ==> s.idCounter == |s.notes|
  {
  }

  /** Send safety: in every interleaving after open, for every stream and environment, the
      server reads one HELLO and then only whole TIME messages, numbered from 0 modulo
      65536, with at most the header of the next one left over while the callback is between
      its writes.  There are exactly as many as callbacks that started with the gate open and
      an answering clock and ran to their end.  Every header, a lone one included, was
      printed at a moment when a supported codec header had been handled, with the clock's
      answer at that moment.  The words of every body were loaded at two later moments, and
      are those that the TIME bodies stored until then leave behind. */
  lemma SendSafety(env: Env, s: Net, es: seq<Event>, now: Tv, text: seq<byte>)
    requires |text| < 0x8000_0000 - 4 && AtOpen(s, now, text)
    requires EventsFit(es, |s.conn.buf|)
    ensures var d := Run(env, s, es);
            && ServerReads(d, now, text)
            && |d.notes| == CallbackOf(env, s, es).done && InPhase(d.timer, CallbackOf(env, s, es).phase)
            && (forall k :: 0 <= k < |d.notes| ==> SentInTime(env, s, es, k, d.notes[k]))
            && (d.timer != Idle ==>
                  exists i: nat :: i < |es| && PrintsHeader(env, s, es, i, |d.notes|, d.timer.now))
  {
    hide ServerReads, Run, HelloFrame, Safe, Faithful, PrintsHeader, LoadsFirst, PrintsBody, CallbackOf, InPhase;
    EveryCallbackSends(env, s, es);
    var hello := HelloFrame(now, text);
    SafeAtOpen(s, now, text);
    RunStaysSafe(env, s, es, hello);
    OpenedIsFaithful(s.conn.st.base);
    var d := Run(env, s, es);
    SafeIsRead(d, now, text);
    forall k | 0 <= k < |d.notes|
      ensures SentInTime(env, s, es, k, d.notes[k])
    {
      var i, j, l := MessageWitness(env, s, es, k);
      assert PrintsHeader(env, s, es, i, k, d.notes[k].now);
      assert LoadsFirst(env, s, es, j, k, d.notes[k].latency.sec);
      assert PrintsBody(env, s, es, l, k, d.notes[k].latency.usec);
    }
    if d.timer != Idle {
      var i := HeaderWitness(env, s, es);
    }
  }

  // ---- one reply or two ----------------------------------------------------------------

  /** The last TIME body whose first word is stored is a whole reply. */
  ghost predicate LastIsWhole(log: seq<Handled>) {
    LastWord(log) == LastReply(log)
  }

  lemma {:induction false} LastsInPrefix(log: seq<Handled>, n: nat)
    requires n <= |log|
    ensures LastReply(log) < n ==> LastReply(log[..n]) == LastReply(log)
    ensures LastWord(log) < n ==> LastWord(log[..n]) == LastWord(log)
    ensures LastReply(log[..n]) <= LastReply(log) && LastReply(log) <= LastWord(log)
    decreases log
  {
    LatencyWords(log);
    if n == |log| {
      assert log[..n] == log;
    } else {
      LastsInPrefix(log[..|log| - 1], n);
      assert log[..|log| - 1][..n] == log[..n];
    }
  }

  /** `first` is the history with the turn at hand when the first word was loaded, `last` the
      history when the second was; one continues the other.  The two words come from one
      body exactly when the last body announced at the first load is a whole reply, the turn
      that handles it has ended at the second, and no other reply was completed in
      between. */
  lemma OneReplyIff(first: seq<Handled>, last: seq<Handled>)
    requires first <= last || last <= first
    ensures LastWord(first) == LastReply(last) <==> Undisturbed(first, last)
  {
    var n := if |first| <= |last| then |first| else |last|;
    assert first[..n] == last[..n];
    LastsInPrefix(first, n);
    LastsInPrefix(last, n);
  }

  ghost predicate Undisturbed(first: seq<Handled>, last: seq<Handled>) {
    LastIsWhole(first) && LastReply(first) < |last| && LastReply(last) < |first|
  }

  /** Then the message carries the latency of the last reply handled before its body was
      printed; otherwise it does so only when the seconds happen to agree. */
  lemma LatencyOfOneReply(first: seq<Handled>, last: seq<Handled>)
    requires first <= last || last <= first
    ensures Undisturbed(first, last) ==> Tv(LastSec(first), LastUsec(last)) == ReplyLatency(last)
    ensures Tv(LastSec(first), LastUsec(last)) == ReplyLatency(last) <==> LastSec(first) == ReplyLatency(last).sec
  {
    hide At;
    OneReplyIff(first, last);
    if LastWord(first) >= 0 && LastWord(first) == LastReply(last) {
      var i := LastWord(first);
      assert first[i] == last[i];
    }
  }

  /** The histories at two events continue one another: a turn at hand at the first is either
      still at hand at the second, or has ended. */
  lemma {:induction false} HistoriesContinue(env: Env, s: Net, es: seq<Event>, j: nat)
    requires s.task == Between && EventsFit(es, |s.conn.buf|) && Faithful(s.conn.st) && j <= |es|
    ensures var d, d' := Run(env, s, es[..j]), Run(env, s, es);
            || (d.task.Inside? && d'.conn == d.conn && d'.task == d.task)
            || Ahead(env, d).log <= d'.conn.st.log
    decreases es
  {
    hide OneTurn, Step, Faithful;
    if j == |es| {
      assert es[..j] == es;
    } else {
      var n := |es| - 1;
      HistoriesContinue(env, s, es[..n], j);
      assert es[..n][..j] == es[..j];
      var d := Run(env, s, es[..n]);
      StepOnConn(env, d, es[n]);
      RunIsFaithful(env, s, es[..n]);
      if d.task.Inside? {
        TurnKeepsFaithful(env, d.conn, d.task.left);
      }
    }
  }

  lemma AheadContinues(env: Env, d: Net)
    requires TaskFits(d) && Faithful(d.conn.st)
    ensures d.conn.st.log <= Ahead(env, d).log
  {
    hide OneTurn, Faithful;
    if d.task.Inside? {
      TurnKeepsFaithful(env, d.conn, d.task.left);
    }
  }

  /** Message `k` of any interleaving, with the histories at its two loads: its words come
      from one reply exactly when the loads are undisturbed, and then its latency is the
      one of the last reply handled. */
  lemma MessageOfOneReplyIff(env: Env, s: Net, es: seq<Event>, k: nat)
    returns (j: nat, l: nat, first: seq<Handled>, last: seq<Handled>)
    requires s.task == Between && EventsFit(es, |s.conn.buf|) && Faithful(s.conn.st)
    requires s.timer == Idle && s.notes == [] && k < |Run(env, s, es).notes|
    ensures j < l < |es| && es[j] == Peek && es[l] == Finish
    ensures first == Ahead(env, Run(env, s, es[..j])).log && last == Run(env, s, es[..l]).conn.st.log
    ensures var latency := Run(env, s, es).notes[k].latency;
            && latency == Tv(LastSec(first), LastUsec(last))
            && (LastWord(first) == LastReply(last) <==> Undisturbed(first, last))
            && (Undisturbed(first, last) ==> latency == ReplyLatency(last))
  {
    hide Run, Faithful, LastSec, LastUsec, Undisturbed, ReplyLatency, Ahead;
    var i;
    i, j, l := MessageWitness(env, s, es, k);
    first := Ahead(env, Run(env, s, es[..j])).log;
    last := Run(env, s, es[..l]).conn.st.log;
    assert es[..l][..j] == es[..j];
    HistoriesContinue(env, s, es[..l], j);
    RunIsFaithful(env, s, es[..j]);
    AheadContinues(env, Run(env, s, es[..j]));
    OneReplyIff(first, last);
    LatencyOfOneReply(first, last);
  }

  /** A message of two replies: a reply is being handled when the callback, whose header is
      printed, goes on.  Its first word is the new one, its second the old one. */
  lemma MessageOfTwoReplies(env: Env, s: Net, left: int)
    requires s.task == Between && s.timer.HeaderSent? && !s.conn.st.halted && left <= |s.conn.buf|
    requires s.conn.st.base.typ == TYPE_TIME && s.conn.st.base.size == 8 && 8 <= left
    requires env.script(s.conn.fetches) >= 8 && Slice(env.stream, s.conn.pos, 8) == TimeBody(Tv(2, 2))
    requires s.conn.st.latency == Tv(1, 1)
    ensures EventsFit([Begin(left), Peek, Finish], |s.conn.buf|)
    ensures Run(env, s, [Begin(left), Peek, Finish]).notes == s.notes + [Note(s.timer.now, Tv(2, 1))]
  {
    hide EncodeBase, TimeBody, OneTurn;
    var es := [Begin(left), Peek, Finish];
    assert es[..2] == [Begin(left), Peek] && es[..2][..1] == [Begin(left)] && es[..1][..0] == [];
    assert [Begin(left), Peek][..1] == [Begin(left)] && [Begin(left)][..0] == [];
    TurnStoresReply(env, s.conn, left);
    assert Run(env, s, [Begin(left)]) == s.(task := Inside(left));
  }

  lemma TurnStoresReply(env: Env, c: Conn, left: int)
    requires !c.st.halted && c.st.base.typ == TYPE_TIME && c.st.base.size == 8 && 8 <= left <= |c.buf|
    requires env.script(c.fetches) >= 8 && Slice(env.stream, c.pos, 8) == TimeBody(Tv(2, 2))
    ensures OneTurn(env, c, left).c.st.latency == Tv(2, 2)
  {
    hide TimeBody, HandleBody, At, Settle;
    assert Reassemble(env.script, c.fetches + 1, 0) == Fetch(false, 0, c.fetches + 1);
    var buf := Slice(env.stream, c.pos, 8) + c.buf[8..];
    assert buf[..8] == TimeBody(Tv(2, 2));
    TimeParsesBack(Tv(2, 2));
    BodyEffects(c.st, buf[..8], buf[8..], env.inputs(c.ticks));
  }
}
