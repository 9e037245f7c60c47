/** Streams as frames, whatever their bodies hold: where the parser stands in them. */
module Frames {
  import opened Words
  import opened Messages
  import opened Machine
  import opened History
  import opened Framing
  import opened Edits

  /** A header and its body.  A header that the client drops counts as a frame without
      body: what follows it is taken for the next header. */
  datatype Frame = Frame(header: Base, body: seq<byte>) {
    predicate Heard() {
      body != []
    }
  }

  function FrameBytes(f: Frame): (bs: seq<byte>)
    ensures |bs| == BASE_MESSAGE_SIZE + |f.body|
  {
    EncodeBase(f.header) + f.body
  }

  /** The length of the first `n` frames. */
  function Start(frames: seq<Frame>, n: nat): nat
    requires n <= |frames|
  {
    if n == 0 then 0 else Start(frames, n - 1) + BASE_MESSAGE_SIZE + |frames[n - 1].body|
  }

  /** The number of pieces of the first `n` frames. */
  function Pieces(frames: seq<Frame>, n: nat): (k: nat)
    requires n <= |frames|
    ensures n <= k <= 2 * n
  {
    if n == 0 then 0 else Pieces(frames, n - 1) + if frames[n - 1].Heard() then 2 else 1
  }

  /** What the environment answers while the header of frame `i` is handled. */
  function HeaderInputs(env: Env, c: Conn, frames: seq<Frame>, i: nat): Inputs
    requires i <= |frames|
  {
    env.inputs(c.ticks + Pieces(frames, i))
  }

  /** What it answers while the body of frame `i` is handled. */
  function BodyInputs(env: Env, c: Conn, frames: seq<Frame>, i: nat): Inputs
    requires i <= |frames|
  {
    env.inputs(c.ticks + Pieces(frames, i) + 1)
  }

  // ---- what a sequence of frames does ---------------------------------------------------

  /** The buffer after a frame, when `buf` was there before. */
  function Written(buf: seq<byte>, f: Frame): seq<byte> {
    var header := Load(buf, EncodeBase(f.header));
    if f.Heard() then Settle(Load(header, f.body), f.header.typ, |f.body|) else header
  }

  /** The buffer after the first `i` frames. */
  function MemoryAt(c: Conn, frames: seq<Frame>, i: nat): seq<byte>
    requires i <= |frames|
  {
    if i == 0 then c.buf else Written(MemoryAt(c, frames, i - 1), frames[i - 1])
  }

  /** What lies behind the body of frame `i` in the buffer. */
  function Behind(c: Conn, frames: seq<Frame>, i: nat): seq<byte>
    requires i < |frames|
  {
    Load(Load(MemoryAt(c, frames, i), EncodeBase(frames[i].header)), frames[i].body)[|frames[i].body|..]
  }

  /** The header of frame `i` once read: its `received` stamp is the local clock. */
  function HeaderAt(env: Env, c: Conn, frames: seq<Frame>, i: nat): Base
    requires i < |frames|
  {
    frames[i].header.(received := HeaderInputs(env, c, frames, i).now)
  }

  function Entry(env: Env, c: Conn, frames: seq<Frame>, i: nat): Handled
    requires i < |frames|
  {
    Handled(HeaderAt(env, c, frames, i), frames[i].body, Behind(c, frames, i), BodyInputs(env, c, frames, i))
  }

  /** The history after the first `n` frames: the bodies of those that were heard. */
  function LogOf(env: Env, c: Conn, frames: seq<Frame>, n: nat): (log: seq<Handled>)
    requires n <= |frames|
    ensures |log| <= n
  {
    if n == 0 then []
    else LogOf(env, c, frames, n - 1) + if frames[n - 1].Heard() then [Entry(env, c, frames, n - 1)] else []
  }

  /** The machine has stopped within the first `n` frames. */
  ghost predicate Faulted(env: Env, c: Conn, frames: seq<Frame>, n: nat)
    requires n <= |frames|
  {
    FaultIn(LogOf(env, c, frames, n))
  }

  // ---- frames on a stream ----------------------------------------------------------------

  /** The bytes of the frame are at this place of the stream. */
  ghost predicate LiesAt(stream: nat -> byte, at: nat, f: Frame) {
    Slice(stream, at, |FrameBytes(f)|) == FrameBytes(f)
  }

  /** The header is dropped when the clock does not answer, or when its type is that of
      the base message; otherwise the body is as long as the header says, which is
      positive as a signed integer. */
  predicate ReadWith(f: Frame, clockOk: bool) {
    if clockOk && f.header.typ != TYPE_BASE
    then 1 <= |f.body| == f.header.size < 0x8000_0000
    else f.body == []
  }

  /** Frame `i` lies where the frames before it end, the machine has not stopped before, and
      the frame is read as it is. */
  ghost predicate ReadAt(env: Env, c: Conn, frames: seq<Frame>, i: nat)
    requires i < |frames|
  {
    && LiesAt(env.stream, c.pos + Start(frames, i), frames[i])
    && !Faulted(env, c, frames, i)
    && ReadWith(frames[i], HeaderInputs(env, c, frames, i).clockOk)
  }

  ghost predicate AllRead(env: Env, c: Conn, frames: seq<Frame>) {
    forall i :: 0 <= i < |frames| ==> ReadAt(env, c, frames, i)
  }

  /** A session, seen from right after open, whose stream begins with these frames.  Nothing
      is said about the bodies, what follows the frames, the transport, the allocator or
      the output buffer. */
  ghost predicate Receives(env: Env, c: Conn, frames: seq<Frame>) {
    c.st == Opened(c.st.base) && AllRead(env, c, frames)
  }

  // ---- every stream is frames ----------------------------------------------------------

  /** The header at a place. */
  function HeaderOn(stream: nat -> byte, at: nat): Base {
    DecodeBase(Slice(stream, at, BASE_MESSAGE_SIZE))
  }

  /** What follows the frames, read as a frame. */
  function Next(env: Env, c: Conn, frames: seq<Frame>): Frame {
    var at := c.pos + Start(frames, |frames|);
    var h := HeaderOn(env.stream, at);
    var heard := HeaderInputs(env, c, frames, |frames|).clockOk && h.typ != TYPE_BASE;
    Frame(h, if heard then Slice(env.stream, at + BASE_MESSAGE_SIZE, h.size) else [])
  }

  /** The frames are followed by a header that is not dropped and has no positive length. */
  predicate BadHeader(env: Env, c: Conn, frames: seq<Frame>) {
    var h := HeaderOn(env.stream, c.pos + Start(frames, |frames|));
    HeaderInputs(env, c, frames, |frames|).clockOk && h.typ != TYPE_BASE && ToInt32(h.size) <= 0
  }

  /** No further body is read: the machine has stopped, or such a header follows. */
  ghost predicate Blocked(env: Env, c: Conn, frames: seq<Frame>) {
    Faulted(env, c, frames, |frames|) || BadHeader(env, c, frames)
  }

  /** The first `k` frames of any stream, fewer only when it is blocked. */
  ghost function FramesOf(env: Env, c: Conn, k: nat): (frames: seq<Frame>)
    ensures |frames| <= k
  {
    if k == 0 then []
    else
      var before := FramesOf(env, c, k - 1);
      if |before| == k - 1 && !Blocked(env, c, before) then before + [Next(env, c, before)] else before
  }

  lemma SliceSplit(stream: nat -> byte, pos: nat, m: nat, n: nat)
    ensures Slice(stream, pos, m + n) == Slice(stream, pos, m) + Slice(stream, pos + m, n)
  {
  }

  lemma {:induction false} StartOfPrefix(c: Conn, frames: seq<Frame>, more: seq<Frame>, n: nat)
    requires n <= |frames|
    ensures Start(frames + more, n) == Start(frames, n)
    ensures Pieces(frames + more, n) == Pieces(frames, n)
    ensures MemoryAt(c, frames + more, n) == MemoryAt(c, frames, n)
    decreases n
  {
    hide Written;
    if n > 0 {
      StartOfPrefix(c, frames, more, n - 1);
    }
  }

  lemma EntryOfPrefix(env: Env, c: Conn, frames: seq<Frame>, more: seq<Frame>, i: nat)
    requires i < |frames|
    ensures Entry(env, c, frames + more, i) == Entry(env, c, frames, i)
  {
    hide MemoryAt, Pieces, Load;
    StartOfPrefix(c, frames, more, i);
  }

  lemma {:induction false} LogOfPrefix(env: Env, c: Conn, frames: seq<Frame>, more: seq<Frame>, n: nat)
    requires n <= |frames|
    ensures LogOf(env, c, frames + more, n) == LogOf(env, c, frames, n)
    decreases n
  {
    hide Entry;
    if n > 0 {
      LogOfPrefix(env, c, frames, more, n - 1);
      EntryOfPrefix(env, c, frames, more, n - 1);
    }
  }

  /** A frame lies at a place exactly when its header and its body are what is read there. */
  lemma FrameReadsBack(stream: nat -> byte, at: nat, f: Frame)
    ensures LiesAt(stream, at, f)
       <==> f.header == HeaderOn(stream, at) && f.body == Slice(stream, at + BASE_MESSAGE_SIZE, |f.body|)
    ensures LiesAt(stream, at, f) ==> Slice(stream, at, BASE_MESSAGE_SIZE) == EncodeBase(f.header)
  {
    hide EncodeBase, DecodeBase;
    var bs := Slice(stream, at, BASE_MESSAGE_SIZE);
    SliceSplit(stream, at, BASE_MESSAGE_SIZE, |f.body|);
    if LiesAt(stream, at, f) {
      assert FrameBytes(f)[..BASE_MESSAGE_SIZE] == EncodeBase(f.header) == EncodeBase(f.header) + [];
      assert FrameBytes(f)[BASE_MESSAGE_SIZE..] == f.body;
      BaseParsesBack(f.header, []);
    } else {
      BasePrintsBack(bs);
      assert bs[..BASE_MESSAGE_SIZE] == bs;
    }
  }

  /** What a frame is, from the stream. */
  lemma FrameOnStream(env: Env, c: Conn, frames: seq<Frame>, i: nat)
    requires AllRead(env, c, frames) && i < |frames|
    ensures var at, f := c.pos + Start(frames, i), frames[i];
            && HeaderOn(env.stream, at) == f.header
            && Slice(env.stream, at, BASE_MESSAGE_SIZE) == EncodeBase(f.header)
            && Slice(env.stream, at + BASE_MESSAGE_SIZE, |f.body|) == f.body
            && ReadWith(f, HeaderInputs(env, c, frames, i).clockOk)
  {
    hide Start, Pieces, HeaderOn, Slice, LiesAt, Faulted, EncodeBase;
    assert ReadAt(env, c, frames, i);
    FrameReadsBack(env.stream, c.pos + Start(frames, i), frames[i]);
  }

  lemma ReadInPrefix(env: Env, c: Conn, frames: seq<Frame>, f: Frame, i: nat)
    requires i < |frames|
    ensures ReadAt(env, c, frames + [f], i) <==> ReadAt(env, c, frames, i)
  {
    hide Start, Pieces, LiesAt, ReadWith, LogOf, FaultIn;
    StartOfPrefix(c, frames, [f], i);
    LogOfPrefix(env, c, frames, [f], i);
  }

  /** The frame after the others is what follows them, unless that is blocked. */
  lemma LastIsNext(env: Env, c: Conn, frames: seq<Frame>, f: Frame)
    ensures ReadAt(env, c, frames + [f], |frames|) <==> f == Next(env, c, frames) && !Blocked(env, c, frames)
  {
    hide Start, Pieces, LiesAt, HeaderOn, Slice, LogOf, FaultIn, MemoryAt, EncodeBase;
    StartOfPrefix(c, frames, [f], |frames|);
    LogOfPrefix(env, c, frames, [f], |frames|);
    assert (frames + [f])[|frames|] == f;
    FrameReadsBack(env.stream, c.pos + Start(frames, |frames|), f);
    assert Slice(env.stream, c.pos + Start(frames, |frames|) + BASE_MESSAGE_SIZE, 0) == [];
  }

  /** Frames come one at a time. */
  lemma AllReadGrows(env: Env, c: Conn, frames: seq<Frame>, f: Frame)
    ensures AllRead(env, c, frames + [f])
       <==> AllRead(env, c, frames) && !Blocked(env, c, frames) && f == Next(env, c, frames)
  {
    hide ReadAt, Next, Blocked;
    forall i | 0 <= i < |frames|
      ensures ReadAt(env, c, frames + [f], i) <==> ReadAt(env, c, frames, i)
    {
      ReadInPrefix(env, c, frames, f, i);
    }
    LastIsNext(env, c, frames, f);
  }

  /** A session receives some frames exactly when they are what is found by reading its
      stream frame by frame: two readings agree. */
  lemma {:induction false} ReceivesIff(env: Env, c: Conn, frames: seq<Frame>)
    requires c.st == Opened(c.st.base)
    ensures Receives(env, c, frames) <==> frames == FramesOf(env, c, |frames|)
    decreases frames
  {
    hide AllRead, Next, Blocked, Opened;
    var k := |frames|;
    if k == 0 {
      NoFrames(env, c);
    } else {
      var before, f := frames[..k - 1], frames[k - 1];
      assert frames == before + [f];
      ReceivesIff(env, c, before);
      AllReadGrows(env, c, before, f);
    }
  }

  lemma NoFrames(env: Env, c: Conn)
    ensures AllRead(env, c, [])
  {
  }

  /** Every session receives frames, on any stream and with any clock: they end only at a
      header that blocks. */
  lemma {:induction false} EverySessionReceives(env: Env, c: Conn, k: nat)
    requires c.st == Opened(c.st.base)
    ensures var frames := FramesOf(env, c, k);
            Receives(env, c, frames) && (|frames| < k ==> Blocked(env, c, frames))
    decreases k
  {
    hide AllRead, Next, Blocked, Opened;
    if k == 0 {
      NoFrames(env, c);
    } else {
      EverySessionReceives(env, c, k - 1);
      var before := FramesOf(env, c, k - 1);
      AllReadGrows(env, c, before, Next(env, c, before));
    }
  }

  // ---- positions -----------------------------------------------------------------------

  /** At position `at` the frames tell what was read: it does not lie behind them, or what
      follows them is blocked. */
  ghost predicate Confined(env: Env, c: Conn, frames: seq<Frame>, at: nat) {
    at <= c.pos + Start(frames, |frames|) || Blocked(env, c, frames)
  }

  /** Exactly `n` frames are consumed whole, and nothing or the header of what follows. */
  predicate Consumed(frames: seq<Frame>, read: int, n: nat) {
    && n <= |frames|
    && (read == Start(frames, n)
        || (read == Start(frames, n) + BASE_MESSAGE_SIZE && (n < |frames| ==> frames[n].Heard())))
  }

  lemma {:induction false} StartGrows(frames: seq<Frame>, m: nat, n: nat)
    requires m < n <= |frames|
    ensures Start(frames, m) + BASE_MESSAGE_SIZE + |frames[m].body| <= Start(frames, n)
    decreases n
  {
    if m < n - 1 {
      StartGrows(frames, m, n - 1);
    }
  }

  /** The position determines the number of frames consumed. */
  lemma SameCount(frames: seq<Frame>, read: int, m: nat, n: nat)
    requires Consumed(frames, read, m) && Consumed(frames, read, n)
    ensures m == n
  {
    hide Start;
    if m < n {
      StartGrows(frames, m, n);
    } else if n < m {
      StartGrows(frames, n, m);
    }
  }

  /** Every number of pieces is some whole frames, and perhaps a header. */
  lemma {:induction false} WholeFrames(frames: seq<Frame>, m: nat, k: nat) returns (n: nat)
    requires m <= |frames| && k <= Pieces(frames, m)
    ensures n <= m && (k == Pieces(frames, n) || (k == Pieces(frames, n) + 1 && n < m && frames[n].Heard()))
    decreases m
  {
    if m == 0 || k == Pieces(frames, m) {
      n := m;
    } else if k >= Pieces(frames, m - 1) {
      n := m - 1;
    } else {
      n := WholeFrames(frames, m - 1, k);
    }
  }

  // ---- frame synchronisation -----------------------------------------------------------

  /** A piece that is taken for a header, on any stream.  A header is pending afterwards
      exactly when the clock answered and the type is not that of the base message;
      otherwise whatever follows is taken for the next header. */
  lemma HeaderPiece(env: Env, c: Conn, k: nat)
    requires var st := Canon(env, c, k).st; st.base.typ == TYPE_BASE && !st.halted
    ensures var p, q := Canon(env, c, k), Canon(env, c, k + 1);
            var h, inputs := HeaderOn(env.stream, p.pos), env.inputs(c.ticks + k);
            && q == Core(if inputs.clockOk then p.st.(base := h.(received := inputs.now)) else p.st,
                         Load(p.buf, Slice(env.stream, p.pos, BASE_MESSAGE_SIZE)), p.pos + BASE_MESSAGE_SIZE)
            && (q.st.base.typ != TYPE_BASE <==> inputs.clockOk && h.typ != TYPE_BASE)
  {
    hide Take, HeaderOn, Slice, Load;
    TakesHeader(env, Canon(env, c, k), c.ticks + k);
  }

  /** A piece that is taken for a body, on any stream. */
  lemma BodyPiece(env: Env, c: Conn, k: nat)
    requires var st := Canon(env, c, k).st; st.base.typ != TYPE_BASE && Asks(st) > 0
    ensures var p := Canon(env, c, k);
            var n := Asks(p.st);
            var body, buf := Slice(env.stream, p.pos, n), Load(p.buf, Slice(env.stream, p.pos, n));
            Canon(env, c, k + 1)
            == Core(HandleBody(p.st, body, buf[n..], env.inputs(c.ticks + k)), Settle(buf, p.st.base.typ, n), p.pos + n)
  {
    hide Take, HandleBody, Slice, Settle, Load;
    TakesBody(env, Canon(env, c, k), c.ticks + k);
  }

  /** The header of a frame that is heard asks for its body. */
  lemma HeaderAsksForBody(env: Env, c: Conn, frames: seq<Frame>, i: nat)
    requires AllRead(env, c, frames) && i < |frames| && frames[i].Heard()
    ensures HeaderAt(env, c, frames, i).typ != TYPE_BASE
    ensures PieceSize(HeaderAt(env, c, frames, i)) == |frames[i].body| > 0
  {
    hide LiesAt, Pieces, Faulted;
    assert ReadAt(env, c, frames, i);
  }

  lemma OneMoreFrame(frames: seq<Frame>, i: nat)
    requires i < |frames|
    ensures Start(frames, i + 1) == Start(frames, i) + BASE_MESSAGE_SIZE + |frames[i].body|
    ensures Pieces(frames, i + 1) == Pieces(frames, i) + if frames[i].Heard() then 2 else 1
  {
  }

  /** The parser stands at the start of frame `i` with no header pending. */
  ghost predicate AtFrame(env: Env, c: Conn, frames: seq<Frame>, i: nat)
    requires i <= |frames|
  {
    var p := Canon(env, c, Pieces(frames, i));
    && p.pos == c.pos + Start(frames, i) && p.st.base.typ == TYPE_BASE
    && p.st.log == LogOf(env, c, frames, i) && p.buf == MemoryAt(c, frames, i)
    && Faithful(p.st)
  }

  /** It stands 26 bytes further, with exactly the header of frame `i` pending. */
  ghost predicate AtBody(env: Env, c: Conn, frames: seq<Frame>, i: nat)
    requires i < |frames|
  {
    var q := Canon(env, c, Pieces(frames, i) + 1);
    && q.pos == c.pos + Start(frames, i) + BASE_MESSAGE_SIZE && q.st.base == HeaderAt(env, c, frames, i)
    && q.st.log == LogOf(env, c, frames, i)
    && q.buf == Load(MemoryAt(c, frames, i), EncodeBase(frames[i].header))
    && Faithful(q.st) && !q.st.halted
  }

  lemma Rebased(st: State, base: Base)
    requires Faithful(st)
    ensures Faithful(st.(base := base))
  {
    hide Gate, OutputsOf, LatencyOf, S2cOf, TextsOf, FaultIn;
  }

  lemma FrameGoesOn(env: Env, c: Conn, frames: seq<Frame>, i: nat)
    requires AllRead(env, c, frames) && i < |frames| && AtFrame(env, c, frames, i)
    ensures !Canon(env, c, Pieces(frames, i)).st.halted
  {
    hide Canon, LiesAt, ReadWith, Start, Pieces, MemoryAt, LogOf;
    hide Gate, OutputsOf, LatencyOf, S2cOf, TextsOf, FaultIn;
    assert ReadAt(env, c, frames, i);
  }

  /** A frame that is dropped moves on by its header alone. */
  lemma DroppedFrame(env: Env, c: Conn, frames: seq<Frame>, i: nat)
    requires i < |frames| && !frames[i].Heard()
    ensures Start(frames, i + 1) == Start(frames, i) + BASE_MESSAGE_SIZE
    ensures Pieces(frames, i + 1) == Pieces(frames, i) + 1
    ensures MemoryAt(c, frames, i + 1) == Load(MemoryAt(c, frames, i), EncodeBase(frames[i].header))
    ensures LogOf(env, c, frames, i + 1) == LogOf(env, c, frames, i)
  {
    hide Load, EncodeBase, Entry;
  }

  lemma HeaderStep(env: Env, c: Conn, frames: seq<Frame>, i: nat)
    requires AllRead(env, c, frames) && i < |frames| && AtFrame(env, c, frames, i)
    ensures if frames[i].Heard() then AtBody(env, c, frames, i) else AtFrame(env, c, frames, i + 1)
  {
    hide Canon, AllRead, HeaderOn, Slice, Faithful, Load, EncodeBase, Start, Pieces, MemoryAt, LogOf;
    FrameOnStream(env, c, frames, i);
    FrameGoesOn(env, c, frames, i);
    HeaderPiece(env, c, Pieces(frames, i));
    Rebased(Canon(env, c, Pieces(frames, i)).st, Canon(env, c, Pieces(frames, i) + 1).st.base);
    if !frames[i].Heard() {
      DroppedFrame(env, c, frames, i);
    }
  }

  lemma MemoryAfter(c: Conn, frames: seq<Frame>, i: nat)
    requires i < |frames| && frames[i].Heard()
    ensures var buf := Load(Load(MemoryAt(c, frames, i), EncodeBase(frames[i].header)), frames[i].body);
            && MemoryAt(c, frames, i + 1) == Settle(buf, frames[i].header.typ, |frames[i].body|)
            && Behind(c, frames, i) == buf[|frames[i].body|..]
  {
    hide Load, Settle, EncodeBase;
  }

  /** After the header of a frame the next piece is its body. */
  lemma BodyStep(env: Env, c: Conn, frames: seq<Frame>, i: nat)
    requires AllRead(env, c, frames) && i < |frames| && frames[i].Heard() && AtBody(env, c, frames, i)
    ensures var q := Canon(env, c, Pieces(frames, i) + 1);
            Canon(env, c, Pieces(frames, i + 1))
            == Core(HandleBody(q.st, frames[i].body, Behind(c, frames, i), BodyInputs(env, c, frames, i)),
                    MemoryAt(c, frames, i + 1), c.pos + Start(frames, i + 1))
  {
    hide Canon, HandleBody, PieceSize, Slice, AllRead, Start, Pieces, ReadWith, Faithful, LogOf, Load, EncodeBase;
    hide MemoryAt, Behind, Settle, HeaderInputs;
    OneMoreFrame(frames, i);
    HeaderAsksForBody(env, c, frames, i);
    FrameOnStream(env, c, frames, i);
    MemoryAfter(c, frames, i);
    BodyPiece(env, c, Pieces(frames, i) + 1);
  }

  lemma FrameStep(env: Env, c: Conn, frames: seq<Frame>, i: nat)
    requires AllRead(env, c, frames) && i < |frames| && frames[i].Heard() && AtBody(env, c, frames, i)
    ensures AtFrame(env, c, frames, i + 1)
  {
    hide Canon, AllRead, HandleBody, Start, Pieces, MemoryAt, Behind, Faithful;
    BodyStep(env, c, frames, i);
    var st := Canon(env, c, Pieces(frames, i) + 1).st;
    BodyEffects(st, frames[i].body, Behind(c, frames, i), BodyInputs(env, c, frames, i));
    BodyKeepsFaithful(st, frames[i].body, Behind(c, frames, i), BodyInputs(env, c, frames, i));
  }

  lemma SyncAtOpen(env: Env, c: Conn, frames: seq<Frame>)
    requires Receives(env, c, frames)
    ensures AtFrame(env, c, frames, 0)
  {
    OpenedIsFaithful(c.st.base);
  }

  /** After the pieces of `i` frames the parser stands at the start of frame `i` with no header
      pending; one piece later, if it hears the frame, it lies 26 bytes further with exactly
      the header of frame `i` pending.  Its history and its buffer are those of the first `i`
      frames. */
  lemma {:induction false} FrameSync(env: Env, c: Conn, frames: seq<Frame>, i: nat)
    requires Receives(env, c, frames) && i <= |frames|
    ensures AtFrame(env, c, frames, i)
    ensures i < |frames| && frames[i].Heard() ==> AtBody(env, c, frames, i)
    decreases i
  {
    hide AllRead, AtFrame, AtBody, Opened;
    if i == 0 {
      SyncAtOpen(env, c, frames);
    } else {
      FrameSync(env, c, frames, i - 1);
      HeaderStep(env, c, frames, i - 1);
      if frames[i - 1].Heard() {
        FrameStep(env, c, frames, i - 1);
      }
    }
    if i < |frames| {
      HeaderStep(env, c, frames, i);
    }
  }

  ghost predicate BodiesWithin(frames: seq<Frame>, limit: int) {
    forall i :: 0 <= i < |frames| ==> |frames[i].body| <= limit
  }

  /** Every piece of the frames has a positive length, at most `limit` when all bodies and
      the header are; so has the header behind them, unless the machine has stopped. */
  lemma PiecesFlow(env: Env, c: Conn, frames: seq<Frame>, k: nat, limit: int)
    requires Receives(env, c, frames) && k <= Pieces(frames, |frames|)
    requires BodiesWithin(frames, limit) && BASE_MESSAGE_SIZE <= limit
    ensures 0 <= Asks(Canon(env, c, k).st) <= limit
    ensures k < Pieces(frames, |frames|) ==> Asks(Canon(env, c, k).st) > 0
  {
    hide Canon, Start, Pieces, Opened, AllRead, LogOf, HeaderAt, MemoryAt, Faithful;
    var i := WholeFrames(frames, |frames|, k);
    FrameSync(env, c, frames, i);
    if k != Pieces(frames, i) {
      HeaderAsksForBody(env, c, frames, i);
    } else if i < |frames| {
      FrameGoesOn(env, c, frames, i);
    }
  }

  lemma BodiesAreWords(env: Env, c: Conn, frames: seq<Frame>)
    requires Receives(env, c, frames)
    ensures BodiesWithin(frames, 0x7FFF_FFFF)
  {
    hide LiesAt, Faulted;
    forall i | 0 <= i < |frames|
      ensures |frames[i].body| <= 0x7FFF_FFFF
    {
      assert ReadAt(env, c, frames, i);
    }
  }

  /** What blocks: after the frames, or after the header that follows, no piece is taken. */
  lemma BlockedAfter(env: Env, c: Conn, frames: seq<Frame>)
    requires Receives(env, c, frames) && Blocked(env, c, frames)
    ensures var n := |frames|;
            var k := Pieces(frames, n);
            if Faulted(env, c, frames, n) then !Flows(env, c, k)
            else
              var q := Canon(env, c, k + 1);
              && q.pos == c.pos + Start(frames, n) + BASE_MESSAGE_SIZE
              && q.st.base.typ != TYPE_BASE && q.st.log == LogOf(env, c, frames, n)
              && !Flows(env, c, k + 1)
  {
    hide Canon, Start, Pieces, Receives, LogOf, HeaderOn, MemoryAt, Gate, OutputsOf, LatencyOf, S2cOf, TextsOf, FaultIn;
    FrameSync(env, c, frames, |frames|);
    if !Faulted(env, c, frames, |frames|) {
      HeaderPiece(env, c, Pieces(frames, |frames|));
    }
  }

  /** Within the frames no more pieces are taken than they have. */
  lemma PiecesOfFrames(env: Env, c: Conn, frames: seq<Frame>, k: nat)
    requires Receives(env, c, frames) && Flowing(env, c, k)
    requires Canon(env, c, k).pos <= c.pos + Start(frames, |frames|)
    ensures k <= Pieces(frames, |frames|)
  {
    hide Canon, Start, Pieces, Receives, LogOf, MemoryAt, Faithful;
    if k > Pieces(frames, |frames|) {
      FrameSync(env, c, frames, |frames|);
      CanonAdvances(env, c, Pieces(frames, |frames|), k);
    }
  }

  /** When they are blocked, at most the header that follows is taken besides. */
  lemma PiecesBlocked(env: Env, c: Conn, frames: seq<Frame>, k: nat)
    requires Receives(env, c, frames) && Flowing(env, c, k) && Blocked(env, c, frames)
    ensures k <= Pieces(frames, |frames|) + if Faulted(env, c, frames, |frames|) then 0 else 1
  {
    hide Canon, Start, Pieces, Receives, LogOf, Blocked, Faulted, Flows;
    BlockedAfter(env, c, frames);
  }

  /** Where a parser state lies in the frames: its history is that of whole frames, and its
      position the start of the next one or right after its header. */
  lemma WhereOnFrames(env: Env, c: Conn, frames: seq<Frame>, d: Conn, at: nat) returns (n: nat)
    requires Receives(env, c, frames) && StandsAt(env, c, d, at) && Confined(env, c, frames, at)
    ensures Consumed(frames, at - c.pos, n)
    ensures d.st.log == LogOf(env, c, frames, n)
    ensures d.st.base.typ == TYPE_BASE <==> at == c.pos + Start(frames, n)
    ensures n < |frames| && d.st.base.typ != TYPE_BASE ==> d.st.base == HeaderAt(env, c, frames, n)
  {
    hide Canon, LogOf, Start, Pieces, AllRead, Opened, Blocked, HeaderInputs, Flowing, Faulted, Faithful, MemoryAt;
    var k := d.ticks - c.ticks;
    if Blocked(env, c, frames) {
      PiecesBlocked(env, c, frames, k);
    } else {
      PiecesOfFrames(env, c, frames, k);
    }
    if k > Pieces(frames, |frames|) {
      n := |frames|;
      BlockedAfter(env, c, frames);
    } else {
      n := WholeFrames(frames, |frames|, k);
      FrameSync(env, c, frames, n);
      if k != Pieces(frames, n) {
        HeaderAsksForBody(env, c, frames, n);
      }
    }
  }

  /** At any loop head of any clean run the history is that of whole frames, and the position is
      the start of the next one or right after its header. */
  lemma HistoryOfRun(env: Env, c: Conn, frames: seq<Frame>, lefts: seq<int>) returns (n: nat)
    requires Receives(env, c, frames) && Fits(lefts, |c.buf|) && Clean(env, c, lefts)
    requires Confined(env, c, frames, Turns(env, c, lefts).pos)
    ensures var d := Turns(env, c, lefts);
            && Consumed(frames, d.pos - c.pos, n)
            && d.st.log == LogOf(env, c, frames, n)
            && Faithful(d.st)
            && (d.st.base.typ == TYPE_BASE <==> d.pos == c.pos + Start(frames, n))
            && (n < |frames| && d.st.base.typ != TYPE_BASE ==> d.st.base == HeaderAt(env, c, frames, n))
  {
    hide Turns, LogOf, Start, Pieces, AllRead, Blocked, Faithful, Clean, HeaderAt, Canon, Flowing;
    var d := Turns(env, c, lefts);
    CleanTurnsAreOnTrack(env, c, lefts);
    OpenedIsFaithful(c.st.base);
    TurnsKeepFaithful(env, c, lefts);
    n := WhereOnFrames(env, c, frames, d, d.pos);
  }

  // ---- liveness ------------------------------------------------------------------------

  /** Every budget holds a header and every body. */
  ghost predicate Ample(frames: seq<Frame>, budgets: seq<int>, limit: int) {
    && BASE_MESSAGE_SIZE <= limit && BodiesWithin(frames, limit)
    && forall i :: 0 <= i < |budgets| ==> limit <= budgets[i]
  }

  /** Such calls take at least one piece each until all frames are consumed. */
  lemma {:induction false} EachCallTakesAPiece(env: Env, c: Conn, frames: seq<Frame>, budgets: seq<int>, limit: int)
    requires Receives(env, c, frames) && Positive(env) && Fits(budgets, |c.buf|)
    requires Ample(frames, budgets, limit)
    ensures var d := Calls(env, c, budgets);
            OnTrack(env, c, d) && (d.ticks >= c.ticks + |budgets| || d.ticks >= c.ticks + Pieces(frames, |frames|))
    decreases budgets
  {
    hide Call, Turns, Canon, Receives, BodiesWithin, Pieces;
    var lefts := CallsAreTurns(env, c, budgets);
    TurnsAreOnTrack(env, c, lefts);
    if budgets != [] {
      var n := |budgets| - 1;
      EachCallTakesAPiece(env, c, frames, budgets[..n], limit);
      var d := Calls(env, c, budgets[..n]);
      if d.ticks < c.ticks + Pieces(frames, |frames|) {
        PiecesFlow(env, c, frames, d.ticks - c.ticks, limit);
      }
      CallProgresses(env, d, budgets[n]);
    }
  }

  /** A parser that has taken the pieces of `n` frames stands behind them. */
  lemma TrackPassesFrames(env: Env, c: Conn, frames: seq<Frame>, d: Conn, n: nat)
    requires Receives(env, c, frames) && n <= |frames|
    requires OnTrack(env, c, d) && d.ticks >= c.ticks + Pieces(frames, n)
    ensures d.pos >= c.pos + Start(frames, n)
  {
    hide Canon, Start, Pieces, LogOf, Receives, Flowing, MemoryAt, Faithful;
    FrameSync(env, c, frames, n);
    CanonAdvances(env, c, Pieces(frames, n), d.ticks - c.ticks);
  }

  lemma {:induction false} PiecesGrow(frames: seq<Frame>, m: nat, n: nat)
    requires m <= n <= |frames|
    ensures Pieces(frames, m) <= Pieces(frames, n)
    decreases n
  {
    if m < n {
      PiecesGrow(frames, m, n - 1);
    }
  }

  /** Liveness: `2 n` such calls consume at least the first `n` frames. */
  lemma FramesAreConsumed(env: Env, c: Conn, frames: seq<Frame>, budgets: seq<int>, limit: int, n: nat)
    requires Receives(env, c, frames) && Positive(env) && Fits(budgets, |c.buf|)
    requires Ample(frames, budgets, limit) && 2 * n <= |budgets| && n <= |frames|
    ensures Calls(env, c, budgets).pos >= c.pos + Start(frames, n)
  {
    hide Calls, Start, Pieces, Receives, Positive, Ample, OnTrack;
    PiecesGrow(frames, n, |frames|);
    EachCallTakesAPiece(env, c, frames, budgets, limit);
    TrackPassesFrames(env, c, frames, Calls(env, c, budgets), n);
  }

  /** What blocks ends the session for good: no run, however long, gets further than behind
      the header that follows the frames, and what was handled are at most the frames. */
  lemma BlockedForGood(env: Env, c: Conn, frames: seq<Frame>, lefts: seq<int>)
    requires Receives(env, c, frames) && Blocked(env, c, frames)
    requires Fits(lefts, |c.buf|) && Clean(env, c, lefts)
    ensures var d := Turns(env, c, lefts);
            && d.pos <= c.pos + Start(frames, |frames|) + BASE_MESSAGE_SIZE
            && |d.st.log| <= |frames|
  {
    hide Turns, Receives, Blocked, Faithful, Clean, LogOf, Start;
    var n := HistoryOfRun(env, c, frames, lefts);
    if n < |frames| {
      StartGrows(frames, n, |frames|);
    }
  }

  // ---- one frame in one call -----------------------------------------------------------

  /** A call with the budget of one frame takes just that frame. */
  lemma CallTakesFrame(env: Env, c: Conn, f: Frame)
    requires Positive(env) && |FrameBytes(f)| <= |c.buf| && !c.st.halted
    requires c.st.base.typ == TYPE_BASE && env.inputs(c.ticks).clockOk
    requires f.Heard() && ReadWith(f, true)
    requires LiesAt(env.stream, c.pos, f)
    ensures var base := f.header.(received := env.inputs(c.ticks).now);
            var d := Call(env, c, |FrameBytes(f)|);
            && CoreOf(d)
               == Core(HandleBody(c.st.(base := base), f.body,
                                  Load(Load(c.buf, EncodeBase(f.header)), f.body)[|f.body|..], env.inputs(c.ticks + 1)),
                       Written(c.buf, f), c.pos + |FrameBytes(f)|)
            && d.ticks == c.ticks + 2
  {
    hide EncodeBase, HandleBody, OneTurn, Slice, Load, Settle, LiesAt, HeaderOn, Asks;
    FirstTurn(env, c, f);
    var t1 := OneTurn(env, c, |FrameBytes(f)|);
    SecondTurn(env, t1.c, f);
    var t2 := OneTurn(env, t1.c, t1.left);
    assert Call(env, t1.c, t1.left) == Call(env, t2.c, 0);
    NoBudget(env, t2.c);
  }

  lemma FirstTurn(env: Env, c: Conn, f: Frame)
    requires Positive(env) && |FrameBytes(f)| <= |c.buf| && !c.st.halted
    requires c.st.base.typ == TYPE_BASE && env.inputs(c.ticks).clockOk && LiesAt(env.stream, c.pos, f)
    ensures var t := OneTurn(env, c, |FrameBytes(f)|);
            && t.Again? && t.left == |f.body| && t.c.ticks == c.ticks + 1
            && CoreOf(t.c)
               == Core(c.st.(base := f.header.(received := env.inputs(c.ticks).now)),
                       Load(c.buf, EncodeBase(f.header)), c.pos + BASE_MESSAGE_SIZE)
    ensures Slice(env.stream, c.pos + BASE_MESSAGE_SIZE, |f.body|) == f.body
  {
    hide EncodeBase, OneTurn, Slice, Load, LiesAt, HeaderOn, Take;
    FrameReadsBack(env.stream, c.pos, f);
    TurnTakesPiece(env, c, |FrameBytes(f)|);
    TakesHeader(env, CoreOf(c), c.ticks);
  }

  lemma SecondTurn(env: Env, c: Conn, f: Frame)
    requires Positive(env) && |f.body| <= |c.buf| && !c.st.halted && f.Heard() && ReadWith(f, true)
    requires c.st.base.typ == f.header.typ && c.st.base.size == f.header.size
    requires Slice(env.stream, c.pos, |f.body|) == f.body
    ensures var t := OneTurn(env, c, |f.body|);
            && t.Again? && t.left == 0 && t.c.ticks == c.ticks + 1
            && CoreOf(t.c)
               == Core(HandleBody(c.st, f.body, Load(c.buf, f.body)[|f.body|..], env.inputs(c.ticks)),
                       Settle(Load(c.buf, f.body), f.header.typ, |f.body|), c.pos + |f.body|)
            && Asks(t.c.st) >= 0
  {
    hide OneTurn, Slice, Load, Take, HandleBody, Settle;
    TurnTakesPiece(env, c, |f.body|);
    TakesBody(env, CoreOf(c), c.ticks);
    BodyEffects(c.st, f.body, Load(c.buf, f.body)[|f.body|..], env.inputs(c.ticks));
  }

  lemma NoBudget(env: Env, c: Conn)
    requires Asks(c.st) >= 0
    ensures CoreOf(Call(env, c, 0)) == CoreOf(c) && Call(env, c, 0).ticks == c.ticks
  {
    hide OneTurn;
    IdleTurn(env, c, 0);
  }

  lemma TakesHeader(env: Env, p: Core, tick: nat)
    requires p.st.base.typ == TYPE_BASE && !p.st.halted
    ensures var h, inputs := HeaderOn(env.stream, p.pos), env.inputs(tick);
            Take(env, p, tick)
            == Core(if inputs.clockOk then p.st.(base := h.(received := inputs.now)) else p.st,
                    Load(p.buf, Slice(env.stream, p.pos, BASE_MESSAGE_SIZE)), p.pos + BASE_MESSAGE_SIZE)
  {
    hide DecodeBase, HandleBody, Slice;
  }

  lemma TakesBody(env: Env, p: Core, tick: nat)
    requires p.st.base.typ != TYPE_BASE && Asks(p.st) > 0
    ensures var n := Asks(p.st);
            var body, buf := Slice(env.stream, p.pos, n), Load(p.buf, Slice(env.stream, p.pos, n));
            Take(env, p, tick)
            == Core(HandleBody(p.st, body, buf[n..], env.inputs(tick)), Settle(buf, p.st.base.typ, n), p.pos + n)
  {
    hide HandleBody, HandleHeader, Slice, Settle;
    var n := Asks(p.st);
    assert Load(p.buf, Slice(env.stream, p.pos, n))[..n] == Slice(env.stream, p.pos, n);
  }
}
