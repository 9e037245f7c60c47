/** The clock arithmetic of TIME replies, from the stamps on the wire to the offset of the
    server's clock. */
module Clock {
  import opened Words
  import opened Messages
  import opened Machine
  import opened History
  import opened Framing
  import opened Frames

  predicate Normal(t: Tv) {
    0 <= t.usec < 1000000
  }

  function Micros(t: Tv): int {
    1000000 * t.sec + t.usec
  }

  /** The whole seconds of a difference, rounded down. */
  function WholeSeconds(a: Tv, b: Tv): int {
    (Micros(a) - Micros(b)) / 1000000
  }

  function Borrow(a: Tv, b: Tv): int {
    if a.usec < b.usec then 1 else 0
  }

  lemma ToInt32Steps(v: int)
    ensures ToInt32(ToInt32(v) - 1) == ToInt32(v - 1)
  {
  }

  lemma TimerSubParts(a: Tv, b: Tv)
    requires Normal(a) && Normal(b)
    ensures TimerSub(a, b).usec == a.usec - b.usec + 1000000 * Borrow(a, b)
    ensures TimerSub(a, b).sec == ToInt32(a.sec - b.sec - Borrow(a, b))
  {
    assert ToInt32(a.usec - b.usec) == a.usec - b.usec;
    ToInt32Steps(a.sec - b.sec);
  }

  /** For normalised stamps the 32-bit `timersub` is normalised, and it is exact when, and
      only when, the whole seconds of the difference fit in 32 bits. */
  lemma TimerSubIsExactIff(a: Tv, b: Tv)
    requires Normal(a) && Normal(b)
    ensures Normal(TimerSub(a, b))
    ensures Micros(TimerSub(a, b)) == Micros(a) - Micros(b)
       <==> -0x8000_0000 <= WholeSeconds(a, b) < 0x8000_0000
  {
    hide TimerSub;
    TimerSubParts(a, b);
    var s := a.sec - b.sec - Borrow(a, b);
    assert Micros(a) - Micros(b) == 1000000 * s + TimerSub(a, b).usec;
    assert WholeSeconds(a, b) == s;
    assert ToInt32(s) == s <==> -0x8000_0000 <= s < 0x8000_0000;
  }

  /** For any stamps whose microseconds differ by no more than 32 bits hold: one second is
      borrowed exactly when the difference of the microseconds is negative, the result is
      not normalised any further, and it is exact exactly when its seconds fit in 32 bits. */
  lemma TimerSubOfAny(a: Tv, b: Tv)
    requires -0x8000_0000 <= a.usec - b.usec < 0x8000_0000
    ensures TimerSub(a, b).usec == a.usec - b.usec + if a.usec < b.usec then 1000000 else 0
    ensures Micros(TimerSub(a, b)) == Micros(a) - Micros(b)
       <==> -0x8000_0000 <= a.sec - b.sec - Borrow(a, b) < 0x8000_0000
  {
    ToInt32Steps(a.sec - b.sec);
    var s := a.sec - b.sec - Borrow(a, b);
    assert TimerSub(a, b).sec == ToInt32(s);
    assert ToInt32(s) == s <==> -0x8000_0000 <= s < 0x8000_0000;
  }

  /** A TIME frame whose body holds a whole latency. */
  predicate IsReply(f: Frame) {
    f.header.typ == TYPE_TIME && |f.body| >= 8
  }

  /** How many of the first `n` frames are TIME replies. */
  function RepliesBefore(frames: seq<Frame>, n: nat): nat
    requires n <= |frames|
  {
    if n == 0 then 0 else RepliesBefore(frames, n - 1) + if IsReply(frames[n - 1]) then 1 else 0
  }

  lemma S2cGrows(before: seq<Handled>, h: Handled)
    ensures S2cOf(before + [h])
         == S2cOf(before) + if IsTimeReply(h) then [TimerSub(h.header.received, h.header.sent)] else []
  {
    hide IsTimeReply, TimerSub;
    assert (before + [h])[..|before|] == before;
  }

  lemma LatencyStep(env: Env, c: Conn, frames: seq<Frame>, n: nat)
    requires n < |frames|
    ensures S2cOf(LogOf(env, c, frames, n + 1))
         == S2cOf(LogOf(env, c, frames, n))
            + if IsReply(frames[n]) then [TimerSub(HeaderAt(env, c, frames, n).received, frames[n].header.sent)] else []
  {
    hide TimerSub, S2cOf, Pieces, Behind;
    var before := LogOf(env, c, frames, n);
    S2cGrows(before, Entry(env, c, frames, n));
    assert before + [] == before;
    assert S2cOf(before) + [] == S2cOf(before);
  }

  lemma {:induction false} LatencyCount(env: Env, c: Conn, frames: seq<Frame>, n: nat)
    requires n <= |frames|
    ensures |S2cOf(LogOf(env, c, frames, n))| == RepliesBefore(frames, n)
    decreases n
  {
    hide TimerSub, HeaderAt, S2cOf, IsReply, Entry;
    if n == 0 {
      assert S2cOf([]) == [] by {
        NoLatencies();
      }
    } else {
      LatencyCount(env, c, frames, n - 1);
      LatencyStep(env, c, frames, n - 1);
    }
  }

  lemma NoLatencies()
    ensures S2cOf([]) == []
  {
  }

  /** The latency computed for reply `i` is the one at its rank among the replies, and
      comes from the stamps of that frame's own header. */
  lemma {:induction false} LatencyOfFrame(env: Env, c: Conn, frames: seq<Frame>, i: nat, n: nat)
    requires i < n <= |frames| && IsReply(frames[i])
    ensures var s2c := S2cOf(LogOf(env, c, frames, n));
            && RepliesBefore(frames, i) < |s2c|
            && s2c[RepliesBefore(frames, i)] == TimerSub(HeaderAt(env, c, frames, i).received, frames[i].header.sent)
    decreases n
  {
    hide TimerSub, HeaderAt, S2cOf, LogOf, RepliesBefore;
    LatencyStep(env, c, frames, n - 1);
    if i == n - 1 {
      LatencyCount(env, c, frames, i);
    } else {
      LatencyOfFrame(env, c, frames, i, n - 1);
    }
  }

  /** Clock offset over a whole run, whatever the other frames hold.  Take any loop head of
      a clean run after reply `i` was consumed.  The server's clock is `offset` ahead of the
      client's; the request took `there`, so the reply carries `offset + there`; the reply
      took `back`, measured to the stamp that the client takes when it reads that very
      frame's header.  Then the latency computed from the reply is `back - offset` exactly,
      and the two latencies differ by twice the offset plus the difference of the delays:
      half of it is the offset when the network is symmetric. */
  lemma ReplyGivesOffset(env: Env, c: Conn, frames: seq<Frame>, lefts: seq<int>, i: nat,
      offset: int, there: int, back: int)
    requires Receives(env, c, frames) && Fits(lefts, |c.buf|) && Clean(env, c, lefts)
    requires Confined(env, c, frames, Turns(env, c, lefts).pos)
    requires i < |frames| && Turns(env, c, lefts).pos >= c.pos + Start(frames, i + 1)
    requires IsReply(frames[i]) && Micros(DecodeTv(frames[i].body, 0)) == offset + there
    requires var local, sent := HeaderInputs(env, c, frames, i).now, frames[i].header.sent;
             && Normal(local) && Normal(sent)
             && Micros(local) + offset == Micros(sent) + back
             && -0x8000_0000 <= WholeSeconds(local, sent) < 0x8000_0000
    ensures var d := Turns(env, c, lefts);
            var at := RepliesBefore(frames, i);
            && at < |d.st.s2c|
            && Normal(d.st.s2c[at])
            && Micros(d.st.s2c[at]) == back - offset
            && Micros(DecodeTv(frames[i].body, 0)) - Micros(d.st.s2c[at]) == 2 * offset + (there - back)
  {
    hide Turns, Clean, TimerSub, Canon, Start, S2cOf, LogOf, AllRead, Normal, Micros, WholeSeconds, DecodeTv;
    hide Pieces, Blocked, Behind, Gate, OutputsOf, LatencyOf, FaultIn;
    var d := Turns(env, c, lefts);
    var n := HistoryOfRun(env, c, frames, lefts);
    assert i < n by {
      if n <= i {
        StartGrows(frames, n, i + 1);
        assert false;
      }
    }
    LatencyOfFrame(env, c, frames, i, n);
    TimerSubIsExactIff(HeaderInputs(env, c, frames, i).now, frames[i].header.sent);
  }
}
