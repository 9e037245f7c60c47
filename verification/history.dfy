/** What the connection remembers, as functions of the bodies it has handled: for every
    stream, every behaviour of the environment and every sequence of turns. */
module History {
  import opened Words
  import opened Messages
  import opened Machine

  /** Some handled body was a codec header for a known codec. */
  ghost predicate Gate(log: seq<Handled>) {
    exists i :: 0 <= i < |log| && Accepts(log[i])
  }

  /** The output calls: the chunks that come after an accepted codec header and end in the
      buffer, in order. */
  ghost function OutputsOf(log: seq<Handled>): seq<Output>
    decreases log
  {
    if log == [] then []
    else
      var before, h := log[..|log| - 1], log[|log| - 1];
      OutputsOf(before) + if IsChunk(h) && Gate(before) && !Beyond(h) then [ChunkOutput(h)] else []
  }

  /** Each word of the latency comes from the last TIME body long enough to hold it. */
  ghost function LatencyOf(log: seq<Handled>): Tv
    decreases log
  {
    if log == [] then ZERO else NextLatency(LatencyOf(log[..|log| - 1]), log[|log| - 1])
  }

  predicate IsTimeReply(h: Handled) {
    h.header.typ == TYPE_TIME && |h.body| >= 8
  }

  ghost function S2cOf(log: seq<Handled>): seq<Tv>
    decreases log
  {
    if log == [] then []
    else
      var h := log[|log| - 1];
      S2cOf(log[..|log| - 1]) + if IsTimeReply(h) then [TimerSub(h.header.received, h.header.sent)] else []
  }

  predicate IsSettings(h: Handled) {
    h.header.typ == TYPE_SERVER_SETTINGS && |h.body| >= 4
  }

  ghost function TextsOf(log: seq<Handled>): seq<seq<byte>>
    decreases log
  {
    if log == [] then []
    else
      var h := log[|log| - 1];
      TextsOf(log[..|log| - 1]) + if IsSettings(h) then [SettingsText(h)] else []
  }

  ghost predicate FaultAt(log: seq<Handled>, i: nat)
    requires i < |log|
  {
    Faults(log[i], Gate(log[..i]))
  }

  ghost predicate FaultIn(log: seq<Handled>) {
    exists i :: 0 <= i < |log| && FaultAt(log, i)
  }

  /** The state is what its history says. */
  ghost predicate Faithful(st: State) {
    && (st.receivedHeader <==> Gate(st.log))
    && st.outputs == OutputsOf(st.log)
    && st.latency == LatencyOf(st.log)
    && st.s2c == S2cOf(st.log)
    && st.texts == TextsOf(st.log)
    && (st.halted <==> FaultIn(st.log))
  }

  lemma GateGrows(log: seq<Handled>, h: Handled)
    ensures Gate(log + [h]) <==> Gate(log) || Accepts(h)
  {
    var log' := log + [h];
    assert log'[|log|] == h;
    if Gate(log) {
      var i :| 0 <= i < |log| && Accepts(log[i]);
      assert log'[i] == log[i];
    }
  }

  lemma FaultGrows(log: seq<Handled>, h: Handled)
    ensures FaultIn(log + [h]) <==> FaultIn(log) || Faults(h, Gate(log))
  {
    var log' := log + [h];
    assert log'[|log|] == h && log'[..|log|] == log;
    forall i | 0 <= i < |log|
      ensures FaultAt(log', i) <==> FaultAt(log, i)
    {
      assert log'[i] == log[i] && log'[..i] == log[..i];
    }
    assert FaultAt(log', |log|) <==> Faults(h, Gate(log));
  }

  /** The effect of one body on each part of the state, kind by kind. */
  lemma BodyEffects(st: State, body: seq<byte>, behind: seq<byte>, inputs: Inputs)
    ensures var h := Handled(st.base, body, behind, inputs);
            var st' := HandleBody(st, body, behind, inputs);
            && st'.base == st.base.(typ := TYPE_BASE)
            && st'.log == st.log + [h]
            && st'.receivedHeader == (st.receivedHeader || Accepts(h))
            && st'.outputs == st.outputs
               + (if IsChunk(h) && st.receivedHeader && !Beyond(h) then [ChunkOutput(h)] else [])
            && st'.latency == NextLatency(st.latency, h)
            && st'.s2c == st.s2c + (if IsTimeReply(h) then [TimerSub(h.header.received, h.header.sent)] else [])
            && st'.texts == st.texts + (if IsSettings(h) then [SettingsText(h)] else [])
            && st'.halted == (st.halted || Faults(h, st.receivedHeader))
  {
    hide SettingsText, At, ParseCodec, Supported, ChunkOutput, TimerSub;
    var h := Handled(st.base, body, behind, inputs);
    assert IsTimeReply(h) ==> !IsChunk(h) && !Accepts(h);
    assert Accepts(h) ==> !IsChunk(h);
  }

  /** Handling any body keeps the state faithful to its history. */
  lemma BodyKeepsFaithful(st: State, body: seq<byte>, behind: seq<byte>, inputs: Inputs)
    requires Faithful(st)
    ensures Faithful(HandleBody(st, body, behind, inputs))
  {
    hide HandleBody, Accepts, IsChunk, Beyond, Faults, NextLatency, ChunkOutput, TimerSub, SettingsText;
    var h := Handled(st.base, body, behind, inputs);
    BodyEffects(st, body, behind, inputs);
    GateGrows(st.log, h);
    FaultGrows(st.log, h);
    assert (st.log + [h])[..|st.log|] == st.log;
  }

  /** Handling any piece keeps the state faithful, forgets nothing, and outputs nothing
      while the gate is closed. */
  lemma HandleKeepsFaithful(st: State, buf: seq<byte>, inputs: Inputs)
    requires 0 < PieceSize(st.base) <= |buf| && Faithful(st)
    ensures var st' := Handle(st, buf, inputs);
            && Faithful(st')
            && st.log <= st'.log && st.outputs <= st'.outputs
            && (st.receivedHeader ==> st'.receivedHeader)
            && (!st.receivedHeader ==> st'.outputs == st.outputs)
  {
    hide HandleBody;
    if st.base.typ != TYPE_BASE {
      var n := PieceSize(st.base);
      BodyKeepsFaithful(st, buf[..n], buf[n..], inputs);
      BodyEffects(st, buf[..n], buf[n..], inputs);
    }
  }

  lemma TurnKeepsFaithful(env: Env, c: Conn, left: int)
    requires left <= |c.buf| && Faithful(c.st)
    ensures var c' := OneTurn(env, c, left).c;
            && Faithful(c'.st)
            && c.st.log <= c'.st.log && c.st.outputs <= c'.st.outputs
            && (c.st.receivedHeader ==> c'.st.receivedHeader)
            && (!c.st.receivedHeader ==> c'.st.outputs == c.st.outputs)
  {
    hide Handle, Faithful;
    var n := Asks(c.st);
    if left >= n {
      var (c1, r) := ReadPiece(env, c, n);
      if r > 0 {
        HandleKeepsFaithful(c1.st, c1.buf, env.inputs(c1.ticks));
      }
    }
  }

  lemma OpenedIsFaithful(base: Base)
    ensures Faithful(Opened(base))
  {
  }

  /** From any faithful state, for every environment and every sequence of turns. */
  lemma {:induction false} TurnsKeepFaithful(env: Env, c: Conn, lefts: seq<int>)
    requires Fits(lefts, |c.buf|)
    requires Faithful(c.st)
    ensures var c' := Turns(env, c, lefts);
            && Faithful(c'.st)
            && c.st.log <= c'.st.log && c.st.outputs <= c'.st.outputs
            && (c.st.receivedHeader ==> c'.st.receivedHeader)
            && (!c'.st.receivedHeader ==> c'.st.outputs == c.st.outputs)
    decreases lefts
  {
    hide OneTurn, Faithful;
    if lefts != [] {
      var n := |lefts| - 1;
      TurnsKeepFaithful(env, c, lefts[..n]);
      TurnKeepsFaithful(env, Turns(env, c, lefts[..n]), lefts[n]);
    }
  }

  /** The output gate over a whole session: it is closed until a supported codec header
      has been handled, stays open whatever follows, and nothing is output before. */
  lemma OutputGate(env: Env, c: Conn, base: Base, early: seq<int>, late: seq<int>)
    requires c.st == Opened(base)
    requires Fits(early, |c.buf|) && Fits(late, |c.buf|)
    ensures Fits(early + late, |c.buf|)
    ensures var c1 := Turns(env, c, early);
            var c2 := Turns(env, c, early + late);
            && (c1.st.receivedHeader <==> exists i :: 0 <= i < |c1.st.log| && Accepts(c1.st.log[i]))
            && (c1.st.receivedHeader ==> c2.st.receivedHeader)
            && (!c1.st.receivedHeader ==> c1.st.outputs == [])
            && c1.st.outputs <= c2.st.outputs
  {
    OpenedIsFaithful(base);
    TurnsKeepFaithful(env, c, early);
    TurnsConcat(env, c, early, late);
    TurnsKeepFaithful(env, Turns(env, c, early), late);
  }

  /** The index of the last TIME reply, or -1. */
  ghost function LastReply(log: seq<Handled>): (i: int)
    ensures -1 <= i < |log|
    ensures 0 <= i ==> |log[i].body| >= 8
    decreases log
  {
    if log == [] then -1
    else if IsTimeReply(log[|log| - 1]) then |log| - 1
    else LastReply(log[..|log| - 1])
  }

  /** The index of the last TIME body that holds a first word, or -1. */
  ghost function LastWord(log: seq<Handled>): (i: int)
    ensures -1 <= i < |log|
    ensures 0 <= i ==> |log[i].body| >= 4
    decreases log
  {
    if log == [] then -1
    else if log[|log| - 1].header.typ == TYPE_TIME && |log[|log| - 1].body| >= 4 then |log| - 1
    else LastWord(log[..|log| - 1])
  }

  /** The latency that the last TIME reply carried, or zero before the first. */
  ghost function ReplyLatency(log: seq<Handled>): Tv {
    var i := LastReply(log);
    if i < 0 then ZERO else DecodeTv(log[i].body, 0)
  }

  /** The microseconds are always those of the last TIME reply.  The seconds come from the
      last TIME body of at least four bytes, because a body of four to seven bytes is
      refused only after its first word was stored. */
  lemma {:induction false} LatencyWords(log: seq<Handled>)
    ensures LatencyOf(log).usec == ReplyLatency(log).usec
    ensures LatencyOf(log).sec == if LastWord(log) < 0 then 0 else At(I32, log[LastWord(log)].body, 0)
    ensures LastReply(log) <= LastWord(log)
    decreases log
  {
    if log != [] {
      LatencyWords(log[..|log| - 1]);
    }
  }

  /** So the latency is the one in the last TIME reply exactly when no shorter TIME body
      with different seconds came after it. */
  lemma LatencyIsReplyIff(log: seq<Handled>)
    ensures LatencyOf(log) == ReplyLatency(log)
       <==> LastWord(log) < 0 || At(I32, log[LastWord(log)].body, 0) == ReplyLatency(log).sec
  {
    LatencyWords(log);
  }

  /** Every output call is given as many bytes as it claims, and none when it claims a length
      below zero. */
  ghost predicate AsClaimed(os: seq<Output>) {
    forall i :: 0 <= i < |os| ==> |os[i].data| + |os[i].stale| == if os[i].claimed < 0 then 0 else os[i].claimed
  }

  lemma {:induction false} OutputsAreClaimed(log: seq<Handled>)
    ensures AsClaimed(OutputsOf(log))
    decreases log
  {
    hide At, Gate;
    if log != [] {
      OutputsAreClaimed(log[..|log| - 1]);
    }
  }

  /** In every run from open on. */
  lemma RunOutputsAreClaimed(env: Env, c: Conn, lefts: seq<int>)
    requires c.st == Opened(c.st.base) && Fits(lefts, |c.buf|)
    ensures AsClaimed(Turns(env, c, lefts).st.outputs)
  {
    hide AsClaimed, Turns;
    OpenedIsFaithful(c.st.base);
    TurnsKeepFaithful(env, c, lefts);
    OutputsAreClaimed(Turns(env, c, lefts).st.log);
  }
}
