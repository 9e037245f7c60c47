/** The framing state machine of components/snapclient_stream/snapclient_stream.c as a
    function of what the C code cannot control: the bytes of the stream, how the transport
    cuts them up, the clock, the allocator and the output ring buffer. */
module Machine {
  import opened Words
  import opened Messages

  /** What the environment answers while one piece is handled: `gettimeofday`, the two
      `malloc`s of a codec header, and the return value of `audio_element_output`. */
  datatype Inputs = Inputs(clockOk: bool, now: Tv, nameGranted: bool, payloadGranted: bool, accepted: int)

  /** `stream` is what the server sends, `script(k)` is what the k-th transport read would
      like to return, `inputs(k)` are the answers for the k-th piece. */
  datatype Env = Env(stream: nat -> byte, script: nat -> int, inputs: nat -> Inputs)

  /** One call of `audio_element_output`: the bytes it is given that belong to the chunk's
      frame, the bytes of the buffer behind the frame that it is given as well, the length
      as claimed, and what the call returned.  Nothing is said to be given for a length
      below zero. */
  datatype Output = Output(data: seq<byte>, stale: seq<byte>, claimed: i32, accepted: int)

  /** One handled body, with the header it belongs to, what lay behind it in the buffer, and
      the answers it was given. */
  datatype Handled = Handled(header: Base, body: seq<byte>, behind: seq<byte>, inputs: Inputs)

  /** The part of the C struct that lives from one call to the next, and what can be
      observed of its past: output calls, computed server-to-client latencies, the strings
      given to the JSON parser, and the bodies handled so far.  `halted` says that handling
      a body needed memory outside the objects at hand: what the C program does from then
      on is not defined, and the machine stops. */
  datatype State = State(
    base: Base, receivedHeader: bool, latency: Tv,
    outputs: seq<Output>, s2c: seq<Tv>, texts: seq<seq<byte>>, halted: bool, log: seq<Handled>)

  const ZERO: Tv := Tv(0, 0)

  /** After open. */
  function Opened(base: Base): State {
    State(base.(typ := TYPE_BASE, sent := ZERO, received := ZERO), false, ZERO, [], [], [], false, [])
  }

  /** `timersub`, in 32-bit words. */
  function TimerSub(a: Tv, b: Tv): Tv {
    var sec := ToInt32(a.sec - b.sec);
    var usec := ToInt32(a.usec - b.usec);
    if usec < 0 then Tv(ToInt32(sec - 1), ToInt32(usec + 1000000)) else Tv(sec, usec)
  }

  /** The length of the piece that a header announces, as the signed `message_size`. */
  function PieceSize(b: Base): i32 {
    if b.typ == TYPE_BASE then BASE_MESSAGE_SIZE else ToInt32(b.size)
  }

  /** The length of the piece that the state waits for: none once the machine stopped. */
  function Asks(st: State): i32 {
    if st.halted then 0 else PieceSize(st.base)
  }

  // ---- one body ----------------------------------------------------------------------

  function ParseBody(h: Handled): Parsed {
    ParseCodec(h.body, h.inputs.nameGranted, h.inputs.payloadGranted)
  }

  /** A codec header that parses and names a known codec. */
  predicate Names(h: Handled) {
    && h.header.typ == TYPE_CODEC_HEADER
    && ParseBody(h).Codec?
    && Supported(ParseBody(h).name)
  }

  /** One that comes with the twelve bytes of a sample format, too. */
  predicate Accepts(h: Handled) {
    Names(h) && |ParseBody(h).payload| >= 12
  }

  predicate IsChunk(h: Handled) {
    h.header.typ == TYPE_WIRE_CHUNK && |h.body| >= 12
  }

  /** The inner size of a chunk, as the signed `size`. */
  function ChunkSize(h: Handled): i32
    requires IsChunk(h)
  {
    ToInt32(At(U32, h.body, 8))
  }

  /** A chunk whose announced bytes end outside the buffer. */
  predicate Beyond(h: Handled) {
    IsChunk(h) && ChunkSize(h) > |h.body| + |h.behind| - 12
  }

  /** The inner size is not compared with that of the frame: the bytes are taken from the
      buffer, as far as they are announced. */
  function ChunkOutput(h: Handled): Output
    requires IsChunk(h) && !Beyond(h)
  {
    var size, room := ChunkSize(h), |h.body| - 12;
    if size < 0 then Output([], [], size, h.inputs.accepted)
    else if size <= room then Output(h.body[12..12 + size], [], size, h.inputs.accepted)
    else Output(h.body[12..], h.behind[..size - room], size, h.inputs.accepted)
  }

  /** Whether handling the body needs memory outside the objects at hand: a chunk to be
      played that ends outside the buffer, a known codec without the twelve bytes of a sample
      format, or server settings without their length prefix. */
  predicate Faults(h: Handled, gate: bool) {
    || (gate && Beyond(h))
    || (Names(h) && |ParseBody(h).payload| < 12)
    || (h.header.typ == TYPE_SERVER_SETTINGS && |h.body| < 4)
  }

  /** The string that the JSON parser finds at the start of the buffer after the shift. */
  function SettingsText(h: Handled): seq<byte>
    requires |h.body| >= 4
  {
    CString(Shifted(h.body + h.behind, |h.body|))
  }

  function NextLatency(latency: Tv, h: Handled): Tv {
    if h.header.typ != TYPE_TIME || |h.body| < 4 then latency
    else if |h.body| < 8 then latency.(sec := At(I32, h.body, 0))
    else DecodeTv(h.body, 0)
  }

  function HandleBody(st: State, body: seq<byte>, behind: seq<byte>, inputs: Inputs): State {
    var h := Handled(st.base, body, behind, inputs);
    var idle := st.(base := st.base.(typ := TYPE_BASE), log := st.log + [h]);
    if Faults(h, st.receivedHeader) then idle.(halted := true)
    else if Accepts(h) then idle.(receivedHeader := true)
    else if IsChunk(h) && st.receivedHeader then idle.(outputs := st.outputs + [ChunkOutput(h)])
    else if st.base.typ == TYPE_SERVER_SETTINGS then idle.(texts := st.texts + [SettingsText(h)])
    else if st.base.typ == TYPE_TIME && |body| >= 8 then
      idle.(latency := NextLatency(st.latency, h), s2c := st.s2c + [TimerSub(st.base.received, st.base.sent)])
    else idle.(latency := NextLatency(st.latency, h))
  }

  function HandleHeader(st: State, piece: seq<byte>, inputs: Inputs): State
    requires |piece| == BASE_MESSAGE_SIZE
  {
    if inputs.clockOk then st.(base := DecodeBase(piece).(received := inputs.now)) else st
  }

  /** Handling the piece that lies at the start of the buffer. */
  function Handle(st: State, buf: seq<byte>, inputs: Inputs): State
    requires 0 < PieceSize(st.base) <= |buf|
  {
    var n := PieceSize(st.base);
    if st.base.typ == TYPE_BASE then HandleHeader(st, buf[..n], inputs)
    else HandleBody(st, buf[..n], buf[n..], inputs)
  }

  /** What handling it leaves in the buffer. */
  function Settle(buf: seq<byte>, typ: u16, n: int): (buf': seq<byte>)
    requires n <= |buf|
    ensures |buf'| == |buf|
  {
    if typ == TYPE_SERVER_SETTINGS && n >= 4 then Shifted(buf, n) else buf
  }

  /** What an accepted output call adds to the element's byte position. */
  function Credit(o: Output): int {
    if o.accepted > 0 then o.claimed else 0
  }

  // ---- reassembly --------------------------------------------------------------------

  /** How a sequence of transport reads for `rem` bytes ends: whether the last one
      failed, how many bytes were delivered, and the number of the next read. */
  datatype Fetch = Fetch(failed: bool, got: nat, next: nat)

  function Reassemble(script: nat -> int, at: nat, rem: int): (f: Fetch)
    ensures f.got <= if rem > 0 then rem else 0
    decreases if rem > 0 then rem else 0
  {
    if rem <= 0 then Fetch(false, 0, at)
    else if script(at) < 0 then Fetch(true, 0, at + 1)
    else if script(at) == 0 then Fetch(false, 0, at + 1)
    else
      var take := if script(at) < rem then script(at) else rem;
      var f := Reassemble(script, at + 1, rem - take);
      f.(got := take + f.got)
  }

  /** The `n` stream bytes from `pos` on. */
  function Slice(stream: nat -> byte, pos: nat, n: nat): (bs: seq<byte>)
    ensures |bs| == n
    ensures forall i :: 0 <= i < n ==> bs[i] == stream(pos + i)
  {
    seq(n, i requires 0 <= i < n => stream(pos + i))
  }

  // ---- calls -------------------------------------------------------------------------

  /** A connection: the state machine, the input buffer, how many stream bytes and how
      many transport reads have been used, how many pieces were handled, and the
      element's byte position. */
  datatype Conn = Conn(st: State, buf: seq<byte>, pos: nat, fetches: nat, ticks: nat, bytePos: int)

  /** `_snapclient_read` of `n` bytes into the start of the buffer, and its return value. */
  function ReadPiece(env: Env, c: Conn, n: int): (r: (Conn, int))
    requires n <= |c.buf|
    ensures |r.0.buf| == |c.buf|
    ensures r.1 == n || r.1 == -1
  {
    var f := Reassemble(env.script, c.fetches, n);
    var c' := c.(buf := Slice(env.stream, c.pos, f.got) + c.buf[f.got..], pos := c.pos + f.got, fetches := f.next);
    if f.failed then (c', -1) else (c'.(bytePos := c.bytePos + n), n)
  }

  /** Handling the piece at the start of the buffer. */
  function HandlePiece(env: Env, c: Conn): (r: Conn)
    requires 0 < PieceSize(c.st.base) <= |c.buf|
    ensures |r.buf| == |c.buf|
  {
    var st := Handle(c.st, c.buf, env.inputs(c.ticks));
    Conn(st, Settle(c.buf, c.st.base.typ, PieceSize(c.st.base)), c.pos, c.fetches, c.ticks + 1,
         c.bytePos + if |st.outputs| > |c.st.outputs| then Credit(st.outputs[|st.outputs| - 1]) else 0)
  }

  /** One trip through the loop of `_snapclient_process` with `left` bytes of budget:
      whether it goes round again, and with how much. */
  datatype Turn = Stop(c: Conn) | Again(c: Conn, left: int)

  function OneTurn(env: Env, c: Conn, left: int): (t: Turn)
    requires left <= |c.buf|
    ensures |t.c.buf| == |c.buf|
    ensures t.Again? ==> 0 <= t.left < left
  {
    var n := Asks(c.st);
    if left < n then Stop(c)
    else
      var (c1, r) := ReadPiece(env, c, n);
      if r <= 0 then Stop(c1) else Again(HandlePiece(env, c1), left - n)
  }

  /** One call of `_snapclient_process` with budget `left`. */
  function Call(env: Env, c: Conn, left: int): (c': Conn)
    requires left <= |c.buf|
    ensures |c'.buf| == |c.buf|
    decreases if left > 0 then left else 0
  {
    match OneTurn(env, c, left)
    case Stop(c1) => c1
    case Again(c1, left1) => Call(env, c1, left1)
  }

  /** No budget exceeds the buffer. */
  predicate Fits(budgets: seq<int>, room: int) {
    forall i :: 0 <= i < |budgets| ==> budgets[i] <= room
  }

  /** A sequence of calls, each with its own budget. */
  function Calls(env: Env, c: Conn, budgets: seq<int>): (c': Conn)
    requires Fits(budgets, |c.buf|)
    ensures |c'.buf| == |c.buf|
    decreases budgets
  {
    if budgets == [] then c else Call(env, Calls(env, c, budgets[..|budgets| - 1]), budgets[|budgets| - 1])
  }

  /** A sequence of single turns, with any budget at each: every loop head of every call
      of every sequence of calls is the end of such a sequence. */
  function Turns(env: Env, c: Conn, lefts: seq<int>): (c': Conn)
    requires Fits(lefts, |c.buf|)
    ensures |c'.buf| == |c.buf|
    decreases lefts
  {
    if lefts == [] then c else OneTurn(env, Turns(env, c, lefts[..|lefts| - 1]), lefts[|lefts| - 1]).c
  }

  lemma {:induction false} TurnsConcat(env: Env, c: Conn, a: seq<int>, b: seq<int>)
    requires Fits(a, |c.buf|)
    requires Fits(b, |c.buf|)
    ensures Fits(a + b, |c.buf|)
    ensures Turns(env, c, a + b) == Turns(env, Turns(env, c, a), b)
    decreases b
  {
    hide OneTurn;
    if b == [] {
      assert a + b == a;
    } else {
      var n := |b| - 1;
      TurnsConcat(env, c, a, b[..n]);
      assert (a + b)[..|a + b| - 1] == a + b[..n];
    }
  }

  /** A call is a sequence of turns. */
  lemma {:induction false} CallIsTurns(env: Env, c: Conn, left: int) returns (lefts: seq<int>)
    requires left <= |c.buf|
    ensures Fits(lefts, |c.buf|)
    ensures Call(env, c, left) == Turns(env, c, lefts)
    decreases if left > 0 then left else 0
  {
    var t := OneTurn(env, c, left);
    assert [left][..0] == [];
    assert Turns(env, c, [left]) == t.c;
    if t.Stop? {
      lefts := [left];
    } else {
      var rest := CallIsTurns(env, t.c, t.left);
      TurnsConcat(env, c, [left], rest);
      lefts := [left] + rest;
    }
  }

  /** So is a sequence of calls. */
  lemma {:induction false} CallsAreTurns(env: Env, c: Conn, budgets: seq<int>) returns (lefts: seq<int>)
    requires Fits(budgets, |c.buf|)
    ensures Fits(lefts, |c.buf|)
    ensures Calls(env, c, budgets) == Turns(env, c, lefts)
    decreases budgets
  {
    if budgets == [] {
      lefts := [];
    } else {
      var n := |budgets| - 1;
      var first := CallsAreTurns(env, c, budgets[..n]);
      var last := CallIsTurns(env, Turns(env, c, first), budgets[n]);
      TurnsConcat(env, c, first, last);
      lefts := first + last;
    }
  }

  /** Once the machine has stopped, no turn changes anything. */
  lemma {:induction false} HaltedStays(env: Env, c: Conn, lefts: seq<int>)
    requires c.st.halted && Fits(lefts, |c.buf|)
    ensures Turns(env, c, lefts) == c
    decreases lefts
  {
    if lefts != [] {
      HaltedStays(env, c, lefts[..|lefts| - 1]);
      assert Slice(env.stream, c.pos, 0) + c.buf[0..] == c.buf;
    }
  }
}
