/** Framing over whole runs: a connection whose transport never gives out inside a piece is
    the same as a parser that takes the stream piece by piece, however the bytes were cut
    into reads, calls and budgets. */
module Framing {
  import opened Words
  import opened Messages
  import opened Machine
  import opened History

  /** Every transport read returns at least one byte. */
  ghost predicate Positive(env: Env) {
    forall k: nat :: env.script(k) > 0
  }

  // ---- the read loop -----------------------------------------------------------------

  /** All the bytes asked for are delivered exactly when no read that was made came back
      empty or failed; then the number of reads does not matter. */
  lemma {:induction false} ReassembledIff(script: nat -> int, at: nat, rem: int)
    requires rem > 0
    ensures var f := Reassemble(script, at, rem);
            && at < f.next
            && (f.got == rem <==> forall i :: at <= i < f.next ==> script(i) > 0)
            && (f.got == rem ==> !f.failed)
    decreases rem
  {
    if script(at) > 0 && script(at) < rem {
      ReassembledIff(script, at + 1, rem - script(at));
      var f := Reassemble(script, at, rem);
      if f.got == rem {
        forall i | at <= i < f.next
          ensures script(i) > 0
        {
          assert i == at || at + 1 <= i;
        }
      }
    }
  }

  /** The callback claims the full length unless the transport failed: only an end of
      stream makes it claim more than it delivered. */
  lemma ClaimedLength(env: Env, c: Conn, n: nat)
    requires 0 < n <= |c.buf|
    ensures Reassemble(env.script, c.fetches, n).next > 0
    ensures var f := Reassemble(env.script, c.fetches, n);
            var (c', r) := ReadPiece(env, c, n);
            && (r == n <==> !f.failed)
            && (r == n && f.got < n <==> env.script(f.next - 1) == 0)
            && c'.buf[f.got..] == c.buf[f.got..]
  {
    LastRead(env.script, c.fetches, n);
  }

  /** The end of the stream before the first byte of a piece: the callback claims the whole
      length, delivers nothing and leaves the buffer as it was. */
  lemma EmptyReadClaimsAll(env: Env, c: Conn, n: nat)
    requires 0 < n <= |c.buf| && env.script(c.fetches) == 0
    ensures ReadPiece(env, c, n) == (c.(fetches := c.fetches + 1, bytePos := c.bytePos + n), n)
  {
    assert Slice(env.stream, c.pos, 0) + c.buf[0..] == c.buf;
  }

  lemma {:induction false} LastRead(script: nat -> int, at: nat, rem: int)
    requires rem > 0
    ensures var f := Reassemble(script, at, rem);
            && at < f.next
            && (f.failed <==> script(f.next - 1) < 0)
            && (!f.failed && f.got < rem <==> script(f.next - 1) == 0)
    decreases rem
  {
    if script(at) > 0 && script(at) < rem {
      LastRead(script, at + 1, rem - script(at));
    }
  }

  /** The buffer gets exactly the next `n` stream bytes, nothing beyond them changes, and
      the stream advances by `n`, for every fragmentation. */
  lemma ReadsWholePiece(env: Env, c: Conn, n: int)
    requires Positive(env) && n <= |c.buf|
    ensures var (c', r) := ReadPiece(env, c, n);
            && r == n
            && c'.st == c.st && c'.ticks == c.ticks && c'.bytePos == c.bytePos + n
            && (n <= 0 ==> c'.buf == c.buf && c'.pos == c.pos)
            && (n > 0 ==> c'.buf == Slice(env.stream, c.pos, n) + c.buf[n..] && c'.pos == c.pos + n)
  {
    if n > 0 {
      ReassembledIff(env.script, c.fetches, n);
    } else {
      assert Slice(env.stream, c.pos, 0) + c.buf[0..] == c.buf;
    }
  }

  // ---- the piece-by-piece parser -----------------------------------------------------

  /** State, buffer and stream position of a parser that takes one piece at a time. */
  datatype Core = Core(st: State, buf: seq<byte>, pos: nat)

  function CoreOf(c: Conn): Core {
    Core(c.st, c.buf, c.pos)
  }

  /** A buffer with a piece at its start. */
  function Load(buf: seq<byte>, piece: seq<byte>): (buf': seq<byte>)
    ensures |piece| <= |buf'|
    ensures |piece| <= |buf| ==> |buf'| == |buf|
  {
    piece + if |piece| <= |buf| then buf[|piece|..] else []
  }

  function Take(env: Env, p: Core, tick: nat): Core
    requires Asks(p.st) > 0
  {
    var n := Asks(p.st);
    var buf := Load(p.buf, Slice(env.stream, p.pos, n));
    Core(Handle(p.st, buf, env.inputs(tick)), Settle(buf, p.st.base.typ, n), p.pos + n)
  }

  /** The parser after `k` more pieces; a piece without a positive length is never taken. */
  function Canon(env: Env, c: Conn, k: nat): Core {
    if k == 0 then CoreOf(c)
    else
      var p := Canon(env, c, k - 1);
      if Asks(p.st) <= 0 then p else Take(env, p, c.ticks + k - 1)
  }

  /** The piece after the first `k` has a positive length. */
  predicate Flows(env: Env, c: Conn, k: nat) {
    Asks(Canon(env, c, k).st) > 0
  }

  /** The first `k` pieces all have a positive length. */
  ghost predicate Flowing(env: Env, c: Conn, k: nat) {
    forall j: nat :: j < k ==> Flows(env, c, j)
  }

  lemma {:induction false} CanonAdvances(env: Env, c: Conn, j: nat, k: nat)
    requires j <= k
    ensures Canon(env, c, j).pos <= Canon(env, c, k).pos
    ensures j < k && Flowing(env, c, k) ==> Canon(env, c, j).pos < Canon(env, c, k).pos
    decreases k
  {
    hide Handle, Settle;
    if j < k {
      CanonAdvances(env, c, j, k - 1);
      if Flowing(env, c, k) {
        assert Flows(env, c, k - 1) && Flowing(env, c, k - 1);
      }
    }
  }

  lemma FlowingGrows(env: Env, c: Conn, k: nat)
    requires Flowing(env, c, k) && Flows(env, c, k)
    ensures Flowing(env, c, k + 1)
  {
    hide Flows;
    forall j: nat | j < k + 1
      ensures Flows(env, c, j)
    {
      assert j < k || j == k;
    }
  }

  /** The transport does not give out inside the piece that a turn asks for: the first read
      fails, or every read made for it returns at least one byte. */
  ghost predicate CleanTurn(env: Env, c: Conn, left: int) {
    var n := Asks(c.st);
    0 < n <= left ==>
      || env.script(c.fetches) < 0
      || forall i: nat :: c.fetches <= i < Reassemble(env.script, c.fetches, n).next ==> env.script(i) > 0
  }

  lemma CleanDelivers(env: Env, c: Conn, left: int)
    requires 0 < Asks(c.st) <= left
    ensures var n := Asks(c.st);
            var f := Reassemble(env.script, c.fetches, n);
            CleanTurn(env, c, left) <==> f.got == n || (f.failed && f.got == 0)
  {
    var n := Asks(c.st);
    ReassembledIff(env.script, c.fetches, n);
    if env.script(c.fetches) >= 0 {
      assert Reassemble(env.script, c.fetches, n).got > 0 || !Reassemble(env.script, c.fetches, n).failed;
    }
  }

  /** Without any assumption on the transport: a turn that asks for a piece goes on behind
      the whole piece, or stops where it was, exactly when its first read failed or all its
      reads returned something.  Otherwise it goes on or stops short of the end of the piece. */
  lemma TurnKeepsPlaceIff(env: Env, c: Conn, left: int)
    requires left <= |c.buf| && 0 < Asks(c.st) <= left
    ensures var n := Asks(c.st);
            var t := OneTurn(env, c, left);
            && (CleanTurn(env, c, left) <==> t.c.pos - c.pos == if t.Again? then n else 0)
            && (!CleanTurn(env, c, left) ==> if t.Again? then t.c.pos < c.pos + n else c.pos < t.c.pos < c.pos + n)
  {
    hide Handle, Settle, CleanTurn;
    CleanDelivers(env, c, left);
    var n := Asks(c.st);
    if Reassemble(env.script, c.fetches, n).got == n {
      ReassembledIff(env.script, c.fetches, n);
    }
  }

  /** The end of the stream, even between two pieces, is not clean: the turn takes no byte,
      handles what an earlier piece left in the buffer as if it were the next piece, and
      goes on. */
  lemma EmptyReadRepeatsBuffer(env: Env, c: Conn, left: int)
    requires left <= |c.buf| && 0 < Asks(c.st) <= left
    requires env.script(c.fetches) == 0
    ensures !CleanTurn(env, c, left)
    ensures var t := OneTurn(env, c, left);
            && t.Again? && t.left == left - Asks(c.st)
            && t.c.pos == c.pos && t.c.ticks == c.ticks + 1
            && t.c.st == Handle(c.st, c.buf, env.inputs(c.ticks))
  {
    hide Handle, Settle;
    EmptyReadClaimsAll(env, c, Asks(c.st));
  }

  /** What a turn makes of a piece that is delivered whole. */
  lemma DeliveredTurn(env: Env, c: Conn, left: int)
    requires left <= |c.buf| && 0 < Asks(c.st) <= left
    requires Reassemble(env.script, c.fetches, Asks(c.st)).got == Asks(c.st)
    ensures var t := OneTurn(env, c, left);
            && t.Again? && t.left == left - Asks(c.st)
            && CoreOf(t.c) == Take(env, CoreOf(c), c.ticks) && t.c.ticks == c.ticks + 1
  {
    hide Handle, Settle;
    var n := Asks(c.st);
    ReassembledIff(env.script, c.fetches, n);
    assert Slice(env.stream, c.pos, n) + c.buf[n..] == Load(c.buf, Slice(env.stream, c.pos, n));
  }

  /** A turn that asks for nothing, or for more than is left, does nothing. */
  lemma IdleTurn(env: Env, c: Conn, left: int)
    requires left <= |c.buf| && !(0 < Asks(c.st) <= left)
    ensures var t := OneTurn(env, c, left);
            t.Stop? && CoreOf(t.c) == CoreOf(c) && t.c.ticks == c.ticks
  {
    assert Slice(env.stream, c.pos, 0) + c.buf[0..] == c.buf;
  }

  /** A clean turn takes the pending piece when it has a positive length, fits and is
      delivered, and leaves the parser state alone otherwise. */
  lemma CleanTurnTakesPiece(env: Env, c: Conn, left: int)
    requires left <= |c.buf| && CleanTurn(env, c, left)
    ensures var n := Asks(c.st);
            var t := OneTurn(env, c, left);
            if t.Again? then
              && 0 < n <= left && t.left == left - n
              && CoreOf(t.c) == Take(env, CoreOf(c), c.ticks) && t.c.ticks == c.ticks + 1
            else
              CoreOf(t.c) == CoreOf(c) && t.c.ticks == c.ticks
  {
    hide Take, CleanTurn, HandlePiece;
    if 0 < Asks(c.st) <= left {
      CleanDelivers(env, c, left);
      if Reassemble(env.script, c.fetches, Asks(c.st)).got == Asks(c.st) {
        DeliveredTurn(env, c, left);
      } else {
        assert Slice(env.stream, c.pos, 0) + c.buf[0..] == c.buf;
      }
    } else {
      IdleTurn(env, c, left);
    }
  }

  /** With positive reads every turn is clean and every piece that fits is delivered. */
  lemma TurnTakesPiece(env: Env, c: Conn, left: int)
    requires Positive(env) && left <= |c.buf|
    ensures CleanTurn(env, c, left)
    ensures var n := Asks(c.st);
            var t := OneTurn(env, c, left);
            if 0 < n <= left then
              && t.Again? && t.left == left - n
              && CoreOf(t.c) == Take(env, CoreOf(c), c.ticks) && t.c.ticks == c.ticks + 1
            else
              t.Stop? && CoreOf(t.c) == CoreOf(c) && t.c.ticks == c.ticks
  {
    hide Take, OneTurn;
    if 0 < Asks(c.st) <= left {
      ReassembledIff(env.script, c.fetches, Asks(c.st));
      DeliveredTurn(env, c, left);
    } else {
      IdleTurn(env, c, left);
    }
  }

  /** Every turn of the run is clean. */
  ghost predicate Clean(env: Env, c: Conn, lefts: seq<int>)
    requires Fits(lefts, |c.buf|)
    decreases lefts
  {
    lefts != [] ==>
      var n := |lefts| - 1;
      Clean(env, c, lefts[..n]) && CleanTurn(env, Turns(env, c, lefts[..n]), lefts[n])
  }

  lemma {:induction false} PositiveIsClean(env: Env, c: Conn, lefts: seq<int>)
    requires Positive(env) && Fits(lefts, |c.buf|)
    ensures Clean(env, c, lefts)
    decreases lefts
  {
    hide OneTurn, CleanTurn, Take;
    if lefts != [] {
      var n := |lefts| - 1;
      PositiveIsClean(env, c, lefts[..n]);
      TurnTakesPiece(env, Turns(env, c, lefts[..n]), lefts[n]);
    }
  }

  /** `d` is where the parser started at `c` stands after some number of pieces. */
  ghost predicate OnTrack(env: Env, c: Conn, d: Conn) {
    && c.ticks <= d.ticks
    && CoreOf(d) == Canon(env, c, d.ticks - c.ticks)
    && Flowing(env, c, d.ticks - c.ticks)
    && |d.buf| == |c.buf|
  }

  lemma TurnStaysOnTrack(env: Env, c: Conn, d: Conn, left: int)
    requires OnTrack(env, c, d) && left <= |d.buf| && CleanTurn(env, d, left)
    ensures OnTrack(env, c, OneTurn(env, d, left).c)
  {
    hide Take, OneTurn, CleanTurn, Flowing;
    CleanTurnTakesPiece(env, d, left);
    var k := d.ticks - c.ticks;
    var d' := OneTurn(env, d, left).c;
    if d'.ticks == d.ticks + 1 {
      assert CoreOf(d') == Canon(env, c, k + 1);
      FlowingGrows(env, c, k);
    }
  }

  /** Every loop head of every clean run is a state of the piece-by-piece parser. */
  lemma {:induction false} CleanTurnsAreOnTrack(env: Env, c: Conn, lefts: seq<int>)
    requires Fits(lefts, |c.buf|) && Clean(env, c, lefts)
    ensures OnTrack(env, c, Turns(env, c, lefts))
    decreases lefts
  {
    hide OneTurn, CleanTurn, Take;
    if lefts != [] {
      var n := |lefts| - 1;
      CleanTurnsAreOnTrack(env, c, lefts[..n]);
      TurnStaysOnTrack(env, c, Turns(env, c, lefts[..n]), lefts[n]);
    }
  }

  lemma TurnsAreOnTrack(env: Env, c: Conn, lefts: seq<int>)
    requires Positive(env) && Fits(lefts, |c.buf|)
    ensures OnTrack(env, c, Turns(env, c, lefts))
  {
    hide OnTrack, Turns, Clean;
    PositiveIsClean(env, c, lefts);
    CleanTurnsAreOnTrack(env, c, lefts);
  }

  lemma CallStaysOnTrack(env: Env, c: Conn, left: int)
    requires Positive(env) && left <= |c.buf|
    ensures OnTrack(env, c, Call(env, c, left))
  {
    var lefts := CallIsTurns(env, c, left);
    TurnsAreOnTrack(env, c, lefts);
  }

  // ---- one call: budget, greed, stalls -----------------------------------------------

  /** A call never takes more than its budget, and it stops only in front of a piece that
      has no positive length or exceeds what is left of the budget. */
  lemma {:induction false} CallExhausts(env: Env, c: Conn, left: int)
    requires Positive(env) && left <= |c.buf|
    ensures var d := Call(env, c, left);
            && 0 <= d.pos - c.pos <= (if left > 0 then left else 0)
            && (var n := Asks(d.st); n <= 0 || n > left - (d.pos - c.pos))
    decreases if left > 0 then left else 0
  {
    TurnTakesPiece(env, c, left);
    var t := OneTurn(env, c, left);
    if t.Again? {
      CallExhausts(env, t.c, t.left);
    }
  }

  /** Positions order the pieces: at most `taken` pieces end within `limit` when the
      piece after them does not. */
  lemma PiecesWithin(env: Env, c: Conn, taken: nat, k: nat, limit: int)
    requires Flowing(env, c, taken) && Flowing(env, c, k)
    requires Canon(env, c, taken).pos <= limit
    requires var d := Canon(env, c, taken);
             var n := Asks(d.st); n <= 0 || d.pos + n > limit
    ensures k <= taken <==> Canon(env, c, k).pos <= limit
  {
    hide Handle, Settle;
    if k <= taken {
      CanonAdvances(env, c, k, taken);
    } else {
      assert Flows(env, c, taken);
      CanonAdvances(env, c, taken + 1, k);
    }
  }

  /** A call takes the longest run of whole pieces that fits in its budget. */
  lemma CallIsGreedy(env: Env, c: Conn, left: int)
    requires Positive(env) && 0 <= left <= |c.buf|
    ensures var d := Call(env, c, left);
            && OnTrack(env, c, d)
            && forall k: nat :: Flowing(env, c, k) ==>
                 (k <= d.ticks - c.ticks <==> Canon(env, c, k).pos - c.pos <= left)
  {
    hide Take, Call;
    CallStaysOnTrack(env, c, left);
    CallExhausts(env, c, left);
    var taken := Call(env, c, left).ticks - c.ticks;
    forall k: nat | Flowing(env, c, k)
      ensures k <= taken <==> Canon(env, c, k).pos - c.pos <= left
    {
      PiecesWithin(env, c, taken, k, c.pos + left);
    }
  }

  /** A call takes no byte exactly when the pending piece has no positive length as a
      signed integer or exceeds the budget, and then the framing state is unchanged. */
  lemma CallStallsIff(env: Env, c: Conn, left: int)
    requires Positive(env) && left <= |c.buf|
    ensures var d := Call(env, c, left);
            var n := Asks(c.st);
            && (d.pos == c.pos <==> n <= 0 || n > left)
            && (d.pos == c.pos ==> d.st == c.st && d.ticks == c.ticks)
  {
    TurnTakesPiece(env, c, left);
    var t := OneTurn(env, c, left);
    if t.Again? {
      CallExhausts(env, t.c, t.left);
    }
  }

  /** A call in front of a piece that fits takes at least that piece. */
  lemma CallProgresses(env: Env, c: Conn, left: int)
    requires Positive(env) && left <= |c.buf|
    ensures Call(env, c, left).ticks >= c.ticks
    ensures 0 < Asks(c.st) <= left ==> Call(env, c, left).ticks > c.ticks
  {
    TurnTakesPiece(env, c, left);
    var t := OneTurn(env, c, left);
    CallStaysOnTrack(env, c, left);
    if t.Again? {
      CallStaysOnTrack(env, t.c, t.left);
    }
  }

  // ---- call boundaries ---------------------------------------------------------------

  /** The same output calls with the same bytes of the chunk's frame, and as many bytes from
      behind it, whatever they returned. */
  ghost predicate SameOutputs(a: seq<Output>, b: seq<Output>) {
    && |a| == |b|
    && forall i :: 0 <= i < |a| ==>
         a[i].data == b[i].data && |a[i].stale| == |b[i].stale| && a[i].claimed == b[i].claimed
  }

  /** The same bytes from behind the frames, too. */
  ghost predicate SameStale(a: seq<Output>, b: seq<Output>) {
    |a| == |b| && forall i :: 0 <= i < |a| ==> a[i].stale == b[i].stale
  }

  /** Equal up to the stamp that the local clock put into the pending header. */
  ghost predicate Alike(a: State, b: State) {
    && a.base.(received := ZERO) == b.base.(received := ZERO)
    && a.receivedHeader == b.receivedHeader
    && a.latency == b.latency
    && a.texts == b.texts && a.halted == b.halted
    && SameOutputs(a.outputs, b.outputs)
  }

  /** The clock and the allocator answer the `k`-th piece of both runs alike, whatever the
      clock shows. */
  predicate AgreeAt(e: Env, c: Conn, f: Env, d: Conn, k: nat) {
    var i, j := e.inputs(c.ticks + k), f.inputs(d.ticks + k);
    i.clockOk == j.clockOk && i.nameGranted == j.nameGranted && i.payloadGranted == j.payloadGranted
  }

  /** Two runs from alike states at the same place of the same stream, with buffers of one
      size. */
  ghost predicate Twins(e: Env, c: Conn, f: Env, d: Conn) {
    && e.stream == f.stream && c.pos == d.pos && |c.buf| == |d.buf|
    && Alike(c.st, d.st)
    && forall k: nat :: AgreeAt(e, c, f, d, k)
  }

  lemma HandleKeepsAlike(a: State, b: State, p: seq<byte>, q: seq<byte>, i: Inputs, j: Inputs)
    requires Alike(a, b) && 0 < PieceSize(a.base) <= |p| == |q| && p[..PieceSize(a.base)] == q[..PieceSize(a.base)]
    requires i.clockOk == j.clockOk && i.nameGranted == j.nameGranted && i.payloadGranted == j.payloadGranted
    ensures Alike(Handle(a, p, i), Handle(b, q, j))
    ensures p == q && SameStale(a.outputs, b.outputs) ==> SameStale(Handle(a, p, i).outputs, Handle(b, q, j).outputs)
  {
    hide At, ParseCodec, Supported, DecodeBase;
    var n := PieceSize(a.base);
    assert a.base.typ == b.base.typ && a.base.size == b.base.size;
    if a.base.typ != TYPE_BASE {
      BodyKeepsAlike(a, b, p[..n], p[n..], q[n..], i, j);
    }
  }

  lemma BodyKeepsAlike(a: State, b: State, body: seq<byte>, p: seq<byte>, q: seq<byte>, i: Inputs, j: Inputs)
    requires Alike(a, b) && |p| == |q|
    requires i.nameGranted == j.nameGranted && i.payloadGranted == j.payloadGranted
    ensures Alike(HandleBody(a, body, p, i), HandleBody(b, body, q, j))
    ensures p == q && SameStale(a.outputs, b.outputs) ==>
              SameStale(HandleBody(a, body, p, i).outputs, HandleBody(b, body, q, j).outputs)
  {
    hide At, ParseCodec, Supported, HandleBody, CString, Shifted;
    if |body| >= 4 {
      TextInBody(body, p);
      TextInBody(body, q);
    }
    BodyEffects(a, body, p, i);
    BodyEffects(b, body, q, j);
  }

  /** Parser states of twin runs. */
  ghost predicate AlikeCores(p: Core, q: Core, exact: bool) {
    && Alike(p.st, q.st) && p.pos == q.pos && |p.buf| == |q.buf|
    && (exact ==> p.buf == q.buf && SameStale(p.st.outputs, q.st.outputs))
  }

  lemma TakeKeepsAlike(e: Env, f: Env, p: Core, q: Core, i: nat, j: nat, exact: bool)
    requires e.stream == f.stream && AlikeCores(p, q, exact) && Asks(p.st) > 0
    requires var a, b := e.inputs(i), f.inputs(j);
             a.clockOk == b.clockOk && a.nameGranted == b.nameGranted && a.payloadGranted == b.payloadGranted
    ensures AlikeCores(Take(e, p, i), Take(f, q, j), exact)
  {
    hide Handle, SameStale, SameOutputs;
    var n := Asks(p.st);
    var piece := Slice(e.stream, p.pos, n);
    assert Load(p.buf, piece)[..n] == piece == Load(q.buf, piece)[..n];
    HandleKeepsAlike(p.st, q.st, Load(p.buf, piece), Load(q.buf, piece), e.inputs(i), f.inputs(j));
  }

  lemma {:induction false} CanonKeepsAlike(e: Env, f: Env, c: Conn, d: Conn, k: nat)
    requires Twins(e, c, f, d)
    ensures AlikeCores(Canon(e, c, k), Canon(f, d, k), c.buf == d.buf && SameStale(c.st.outputs, d.st.outputs))
  {
    hide Take, SameOutputs, SameStale;
    if k > 0 {
      CanonKeepsAlike(e, f, c, d, k - 1);
      var p, q := Canon(e, c, k - 1), Canon(f, d, k - 1);
      if Asks(p.st) > 0 {
        assert AgreeAt(e, c, f, d, k - 1);
        TakeKeepsAlike(e, f, p, q, c.ticks + k - 1, d.ticks + k - 1,
                       c.buf == d.buf && SameStale(c.st.outputs, d.st.outputs));
      }
    }
  }

  lemma SamePositionSamePieces(e: Env, f: Env, c: Conn, d: Conn, k: nat, l: nat)
    requires Twins(e, c, f, d)
    requires Flowing(e, c, k) && Flowing(f, d, l) && Canon(e, c, k).pos == Canon(f, d, l).pos
    ensures k == l
  {
    hide Canon, Alike;
    if k < l {
      CanonKeepsAlike(e, f, c, d, k);
      CanonAdvances(f, d, k, l);
    } else if l < k {
      CanonKeepsAlike(e, f, c, d, l);
      CanonAdvances(e, c, l, k);
    }
  }

  /** Two clean runs over the same stream that have consumed the same number of bytes are in
      the same state, however the bytes were split into reads, calls and budgets; with the
      same buffer at the start, down to the bytes from behind the frames. */
  lemma CallBoundaryIndependence(e: Env, f: Env, c: Conn, d: Conn, a: seq<int>, b: seq<int>)
    requires Twins(e, c, f, d)
    requires Fits(a, |c.buf|) && Clean(e, c, a)
    requires Fits(b, |d.buf|) && Clean(f, d, b)
    requires Turns(e, c, a).pos == Turns(f, d, b).pos
    ensures var c', d' := Turns(e, c, a), Turns(f, d, b);
            && Alike(c'.st, d'.st) && c'.ticks - c.ticks == d'.ticks - d.ticks
            && (c.buf == d.buf && SameStale(c.st.outputs, d.st.outputs) ==>
                  c'.buf == d'.buf && SameStale(c'.st.outputs, d'.st.outputs))
  {
    hide Turns, Clean, Canon, Alike, SameStale;
    CleanTurnsAreOnTrack(e, c, a);
    CleanTurnsAreOnTrack(f, d, b);
    var k, l := Turns(e, c, a).ticks - c.ticks, Turns(f, d, b).ticks - d.ticks;
    SamePositionSamePieces(e, f, c, d, k, l);
    CanonKeepsAlike(e, f, c, d, k);
  }
}
