/** Any transport: a run whose reads fail or end inside a piece is a run of the parser on a
    stream from which the bytes so lost are left out, and into which the stale bytes so
    handled are put. */
module Edits {
  import opened Words
  import opened Messages
  import opened Machine
  import opened History
  import opened Framing

  /** At a place of the stream some bytes are left out, or some are put in. */
  datatype Edit = Loss(at: nat, count: nat) | Stale(at: nat, bytes: seq<byte>)

  function ByteAt(stream: nat -> byte, e: Edit, p: nat): byte {
    if p < e.at then stream(p)
    else match e
      case Loss(_, count) => stream(p + count)
      case Stale(at, bytes) => if p < at + |bytes| then bytes[p - at] else stream(p - |bytes|)
  }

  function Edited(stream: nat -> byte, e: Edit): nat -> byte {
    (p: nat) => ByteAt(stream, e, p)
  }

  function Patched(stream: nat -> byte, edits: seq<Edit>): nat -> byte
    decreases edits
  {
    if edits == [] then stream else Edited(Patched(stream, edits[..|edits| - 1]), edits[|edits| - 1])
  }

  /** What a turn does to the stream as the parser sees it, which it has read up to `at`: the
      bytes delivered before a read that fails inside a piece are lost, and those missing
      after a read of 0 are taken from the buffer. */
  function TurnEdits(env: Env, d: Conn, left: int, at: nat): (r: (seq<Edit>, nat))
    requires left <= |d.buf|
  {
    var n := Asks(d.st);
    if !(0 < n <= left) then ([], at)
    else
      var f := Reassemble(env.script, d.fetches, n);
      if f.got == n then ([], at + n)
      else if f.failed then (if f.got == 0 then [] else [Loss(at, f.got)], at)
      else ([Stale(at + f.got, d.buf[f.got..n])], at + n)
  }

  /** The edits of a run, and how far the parser has read. */
  function Effective(env: Env, c: Conn, lefts: seq<int>): (r: (seq<Edit>, nat))
    requires Fits(lefts, |c.buf|)
    decreases lefts
  {
    if lefts == [] then ([], c.pos)
    else
      var n := |lefts| - 1;
      var (edits, at) := Effective(env, c, lefts[..n]);
      var (more, at') := TurnEdits(env, Turns(env, c, lefts[..n]), lefts[n], at);
      (edits + more, at')
  }

  /** The environment as the parser sees it. */
  function Seen(env: Env, c: Conn, lefts: seq<int>): Env
    requires Fits(lefts, |c.buf|)
  {
    env.(stream := Patched(env.stream, Effective(env, c, lefts).0))
  }

  /** The state of `d` is that of the parser after some number of pieces, at position `at`. */
  ghost predicate StandsAt(env: Env, c: Conn, d: Conn, at: nat) {
    && c.ticks <= d.ticks
    && Canon(env, c, d.ticks - c.ticks).st == d.st
    && Canon(env, c, d.ticks - c.ticks).pos == at
    && Flowing(env, c, d.ticks - c.ticks)
  }

  /** The buffers agree behind the pending piece. */
  predicate SameBehind(a: seq<byte>, b: seq<byte>, n: int) {
    |a| == |b| && (0 <= n <= |a| ==> a[n..] == b[n..])
  }

  /** From there on the streams are the same. */
  ghost predicate SameRest(a: nat -> byte, at: nat, b: nat -> byte, pos: nat) {
    forall p: nat :: at <= p ==> a(p) == b(p - at + pos)
  }

  ghost predicate Follows(env: Env, e: Env, c: Conn, d: Conn, at: nat) {
    && e.inputs == env.inputs
    && StandsAt(e, c, d, at)
    && SameBehind(Canon(e, c, d.ticks - c.ticks).buf, d.buf, Asks(d.st))
    && SameRest(e.stream, at, env.stream, d.pos)
  }

  ghost predicate SameBelow(a: nat -> byte, b: nat -> byte, limit: nat) {
    forall p: nat :: p < limit ==> a(p) == b(p)
  }

  lemma TakeLocal(e: Env, f: Env, p: Core, tick: nat)
    requires Asks(p.st) > 0 && e.inputs == f.inputs && SameBelow(e.stream, f.stream, p.pos + Asks(p.st))
    ensures Take(f, p, tick) == Take(e, p, tick)
  {
    hide Handle, Settle;
    assert Slice(e.stream, p.pos, Asks(p.st)) == Slice(f.stream, p.pos, Asks(p.st));
  }

  lemma TakeAdvances(e: Env, p: Core, tick: nat)
    requires Asks(p.st) > 0
    ensures Take(e, p, tick).pos == p.pos + Asks(p.st)
  {
    hide Handle, Settle;
  }

  /** The parser depends on nothing behind its position. */
  lemma {:induction false} CanonLocal(e: Env, f: Env, c: Conn, k: nat)
    requires e.inputs == f.inputs && SameBelow(e.stream, f.stream, Canon(e, c, k).pos)
    ensures Canon(f, c, k) == Canon(e, c, k)
    ensures Flowing(e, c, k) ==> Flowing(f, c, k)
    decreases k
  {
    hide Take;
    if k > 0 {
      CanonAdvances(e, c, k - 1, k);
      CanonLocal(e, f, c, k - 1);
      var p := Canon(e, c, k - 1);
      if Asks(p.st) > 0 {
        TakeAdvances(e, p, c.ticks + k - 1);
        TakeLocal(e, f, p, c.ticks + k - 1);
      }
      if Flowing(e, c, k) {
        assert Flowing(e, c, k - 1) && Flows(e, c, k - 1);
        FlowingGrows(f, c, k - 1);
      }
    }
  }

  /** A parser on an edited stream, when the edit is not before its position. */
  lemma EditBehind(e: Env, c: Conn, d: Conn, at: nat, edit: Edit)
    requires StandsAt(e, c, d, at) && at <= edit.at
    ensures var f := e.(stream := Edited(e.stream, edit));
            StandsAt(f, c, d, at) && Canon(f, c, d.ticks - c.ticks) == Canon(e, c, d.ticks - c.ticks)
  {
    hide Canon, Flowing;
    CanonLocal(e, e.(stream := Edited(e.stream, edit)), c, d.ticks - c.ticks);
  }

  /** A turn that handles the next piece of the stream that the parser sees. */
  lemma PieceFollows(env: Env, e: Env, c: Conn, d: Conn, d': Conn, at: nat)
    requires e.inputs == env.inputs && StandsAt(e, c, d, at) && 0 < Asks(d.st) <= |d.buf|
    requires SameBehind(Canon(e, c, d.ticks - c.ticks).buf, d.buf, Asks(d.st))
    requires d'.ticks == d.ticks + 1 && Core(d'.st, d'.buf, at + Asks(d.st)) == Take(e, Core(d.st, d.buf, at), d.ticks)
    requires SameRest(e.stream, at + Asks(d.st), env.stream, d'.pos)
    ensures Follows(env, e, c, d', at + Asks(d.st))
  {
    hide Take, Flowing, SameRest;
    var k := d.ticks - c.ticks;
    var q := Canon(e, c, k);
    TakeIgnoresFront(e, q, Core(d.st, d.buf, at), d.ticks);
    assert Canon(e, c, k + 1) == Take(e, q, c.ticks + k);
    FlowingGrows(e, c, k);
  }

  lemma TakeIgnoresFront(e: Env, p: Core, q: Core, tick: nat)
    requires p.st == q.st && p.pos == q.pos && 0 < Asks(p.st) <= |p.buf| && SameBehind(p.buf, q.buf, Asks(p.st))
    ensures Take(e, p, tick) == Take(e, q, tick)
  {
    hide Handle, Settle;
    var piece := Slice(e.stream, p.pos, Asks(p.st));
    assert Load(p.buf, piece) == Load(q.buf, piece);
  }

  lemma SliceOfRest(a: nat -> byte, at: nat, b: nat -> byte, pos: nat, n: nat)
    requires SameRest(a, at, b, pos)
    ensures Slice(a, at, n) == Slice(b, pos, n)
    ensures SameRest(a, at + n, b, pos + n)
  {
  }

  lemma DeliveredFollows(env: Env, e: Env, c: Conn, d: Conn, left: int, at: nat)
    requires Follows(env, e, c, d, at) && left <= |d.buf| && 0 < Asks(d.st) <= left
    requires Reassemble(env.script, d.fetches, Asks(d.st)).got == Asks(d.st)
    ensures Follows(env, e, c, OneTurn(env, d, left).c, at + Asks(d.st))
  {
    hide Handle, Settle, Canon, Flowing, OneTurn, SameRest, Slice;
    DeliveredTurn(env, d, left);
    SliceOfRest(e.stream, at, env.stream, d.pos, Asks(d.st));
    PieceFollows(env, e, c, d, OneTurn(env, d, left).c, at);
  }

  lemma IdleFollows(env: Env, e: Env, c: Conn, d: Conn, left: int, at: nat)
    requires Follows(env, e, c, d, at) && left <= |d.buf| && !(0 < Asks(d.st) <= left)
    ensures Follows(env, e, c, OneTurn(env, d, left).c, at)
  {
    hide Canon, Flowing, OneTurn, SameRest;
    IdleTurn(env, d, left);
  }

  lemma LostTurn(env: Env, d: Conn, left: int)
    requires left <= |d.buf| && 0 < Asks(d.st) <= left
    requires var f := Reassemble(env.script, d.fetches, Asks(d.st)); f.failed && f.got < Asks(d.st)
    ensures var f := Reassemble(env.script, d.fetches, Asks(d.st));
            var d' := OneTurn(env, d, left).c;
            && d'.st == d.st && d'.ticks == d.ticks && d'.pos == d.pos + f.got
            && SameBehind(d'.buf, d.buf, f.got)
  {
  }

  lemma SameFurtherBehind(a: seq<byte>, b: seq<byte>, c: seq<byte>, m: nat, n: nat)
    requires SameBehind(a, b, n) && SameBehind(c, b, m) && m <= n
    ensures SameBehind(a, c, n)
  {
    if n <= |a| {
      assert c[n..] == c[m..][n - m..] && b[n..] == b[m..][n - m..];
    }
  }

  lemma EditedRest(a: nat -> byte, at: nat, b: nat -> byte, pos: nat, got: nat)
    requires SameRest(a, at, b, pos)
    ensures SameRest(Edited(a, Loss(at, got)), at, b, pos + got)
  {
  }

  /** A read that fails inside a piece: what was delivered is lost. */
  lemma LossFollows(env: Env, e: Env, c: Conn, d: Conn, left: int, at: nat)
    requires Follows(env, e, c, d, at) && left <= |d.buf| && 0 < Asks(d.st) <= left
    requires var f := Reassemble(env.script, d.fetches, Asks(d.st)); f.failed && f.got < Asks(d.st)
    ensures var f := Reassemble(env.script, d.fetches, Asks(d.st));
            Follows(env, e.(stream := Edited(e.stream, Loss(at, f.got))), c, OneTurn(env, d, left).c, at)
  {
    hide Canon, Flowing, Reassemble, OneTurn, SameBehind, SameRest, Edited;
    var f := Reassemble(env.script, d.fetches, Asks(d.st));
    LostTurn(env, d, left);
    EditBehind(e, c, d, at, Loss(at, f.got));
    EditedRest(e.stream, at, env.stream, d.pos, f.got);
    SameFurtherBehind(Canon(e, c, d.ticks - c.ticks).buf, d.buf, OneTurn(env, d, left).c.buf, f.got, Asks(d.st));
  }

  /** A read that fails before a piece: nothing is lost. */
  lemma FailureFollows(env: Env, e: Env, c: Conn, d: Conn, left: int, at: nat)
    requires Follows(env, e, c, d, at) && left <= |d.buf| && 0 < Asks(d.st) <= left
    requires var f := Reassemble(env.script, d.fetches, Asks(d.st)); f.failed && f.got == 0
    ensures Follows(env, e, c, OneTurn(env, d, left).c, at)
  {
    hide Canon, Flowing, Reassemble, OneTurn, SameBehind, SameRest;
    LostTurn(env, d, left);
    SameFurtherBehind(Canon(e, c, d.ticks - c.ticks).buf, d.buf, OneTurn(env, d, left).c.buf, 0, Asks(d.st));
  }

  /** A read of 0 inside a piece: what is missing is what the buffer held. */
  lemma EndFollows(env: Env, e: Env, c: Conn, d: Conn, left: int, at: nat)
    requires Follows(env, e, c, d, at) && left <= |d.buf| && 0 < Asks(d.st) <= left
    requires var f := Reassemble(env.script, d.fetches, Asks(d.st)); !f.failed && f.got < Asks(d.st)
    ensures var n := Asks(d.st);
            var f := Reassemble(env.script, d.fetches, n);
            Follows(env, e.(stream := Edited(e.stream, Stale(at + f.got, d.buf[f.got..n]))), c,
                    OneTurn(env, d, left).c, at + n)
  {
    hide Canon, Flowing, Reassemble, Take;
    var n := Asks(d.st);
    var f := Reassemble(env.script, d.fetches, n);
    var edit := Stale(at + f.got, d.buf[f.got..n]);
    var e' := e.(stream := Edited(e.stream, edit));
    EditBehind(e, c, d, at, edit);
    EndedTurn(env, d, left);
    EditedPiece(e.stream, at, env.stream, d.pos, d.buf, f.got, n);
    TakeEnded(e', d, at, f.got, Slice(env.stream, d.pos, f.got));
    PieceFollows(env, e', c, d, OneTurn(env, d, left).c, at);
  }

  lemma EndedTurn(env: Env, d: Conn, left: int)
    requires left <= |d.buf| && 0 < Asks(d.st) <= left
    requires var f := Reassemble(env.script, d.fetches, Asks(d.st)); !f.failed && f.got < Asks(d.st)
    ensures var f := Reassemble(env.script, d.fetches, Asks(d.st));
            var d' := OneTurn(env, d, left).c;
            var buf := Slice(env.stream, d.pos, f.got) + d.buf[f.got..];
            && d'.st == Handle(d.st, buf, env.inputs(d.ticks)) && d'.buf == Settle(buf, d.st.base.typ, Asks(d.st))
            && d'.ticks == d.ticks + 1 && d'.pos == d.pos + f.got
  {
    hide Handle, Settle, Reassemble;
  }

  lemma EditedPiece(a: nat -> byte, at: nat, b: nat -> byte, pos: nat, buf: seq<byte>, got: nat, n: nat)
    requires SameRest(a, at, b, pos) && got <= n <= |buf|
    ensures var a' := Edited(a, Stale(at + got, buf[got..n]));
            Slice(a', at, n) == Slice(b, pos, got) + buf[got..n] && SameRest(a', at + n, b, pos + got)
  {
  }

  lemma TakeEnded(e: Env, d: Conn, at: nat, got: nat, front: seq<byte>)
    requires 0 < Asks(d.st) <= |d.buf| && got == |front| < Asks(d.st)
    requires Slice(e.stream, at, Asks(d.st)) == front + d.buf[got..Asks(d.st)]
    ensures var buf := front + d.buf[got..];
            Take(e, Core(d.st, d.buf, at), d.ticks)
            == Core(Handle(d.st, buf, e.inputs(d.ticks)), Settle(buf, d.st.base.typ, Asks(d.st)), at + Asks(d.st))
  {
    hide Handle, Settle, Slice;
    var n := Asks(d.st);
    assert front + d.buf[got..] == (front + d.buf[got..n]) + d.buf[n..];
  }

  /** One turn, whatever the transport does. */
  lemma TurnFollows(env: Env, e: Env, c: Conn, d: Conn, left: int, at: nat)
    requires Follows(env, e, c, d, at) && left <= |d.buf|
    ensures var (more, at') := TurnEdits(env, d, left, at);
            Follows(env, e.(stream := Patched(e.stream, more)), c, OneTurn(env, d, left).c, at')
  {
    hide Follows, OneTurn, Edited, Reassemble;
    var n := Asks(d.st);
    if !(0 < n <= left) {
      IdleFollows(env, e, c, d, left, at);
    } else {
      var f := Reassemble(env.script, d.fetches, n);
      if f.got == n {
        DeliveredFollows(env, e, c, d, left, at);
      } else if f.failed {
        if f.got == 0 {
          FailureFollows(env, e, c, d, left, at);
        } else {
          LossFollows(env, e, c, d, left, at);
          assert [Loss(at, f.got)][..0] == [];
        }
      } else {
        EndFollows(env, e, c, d, left, at);
        assert [Stale(at + f.got, d.buf[f.got..n])][..0] == [];
      }
    }
  }

  lemma {:induction false} PatchedConcat(stream: nat -> byte, a: seq<Edit>, b: seq<Edit>)
    ensures Patched(stream, a + b) == Patched(Patched(stream, a), b)
    decreases b
  {
    if b == [] {
      assert a + b == a;
    } else {
      var n := |b| - 1;
      PatchedConcat(stream, a, b[..n]);
      assert (a + b)[..|a + b| - 1] == a + b[..n];
    }
  }

  /** Every run on every transport is a run of the parser on the stream with these edits: the
      state is the one that the parser has at the effective position. */
  lemma {:induction false} EveryRunIsParsed(env: Env, c: Conn, lefts: seq<int>)
    requires Fits(lefts, |c.buf|)
    ensures Follows(env, Seen(env, c, lefts), c, Turns(env, c, lefts), Effective(env, c, lefts).1)
    decreases lefts
  {
    hide Follows, OneTurn, TurnEdits;
    if lefts == [] {
      NothingRead(env, c);
    } else {
      var n := |lefts| - 1;
      EveryRunIsParsed(env, c, lefts[..n]);
      var (edits, at) := Effective(env, c, lefts[..n]);
      var d := Turns(env, c, lefts[..n]);
      TurnFollows(env, Seen(env, c, lefts[..n]), c, d, lefts[n], at);
      PatchedConcat(env.stream, edits, TurnEdits(env, d, lefts[n], at).0);
    }
  }

  lemma NothingRead(env: Env, c: Conn)
    ensures Follows(env, env, c, c, c.pos)
  {
  }

  /** A turn edits the stream nowhere before the position. */
  lemma TurnEditsAhead(env: Env, d: Conn, left: int, at: nat)
    requires left <= |d.buf|
    ensures var (more, at') := TurnEdits(env, d, left, at);
            |more| <= 1 && at <= at' && (more != [] ==> at <= more[0].at)
  {
    hide Reassemble, Asks;
  }

  lemma LaterEdits(e: Env, c: Conn, d: Conn, at: nat, more: seq<Edit>)
    requires StandsAt(e, c, d, at) && |more| <= 1 && (more != [] ==> at <= more[0].at)
    ensures StandsAt(e.(stream := Patched(e.stream, more)), c, d, at)
  {
    hide StandsAt, Edited;
    if more != [] {
      assert more[..0] == [] && more == [more[0]];
      EditBehind(e, c, d, at, more[0]);
    }
  }

  /** The last turn of a run adds its edits. */
  lemma LastTurnSeen(env: Env, c: Conn, lefts: seq<int>) returns (more: seq<Edit>)
    requires Fits(lefts, |c.buf|) && lefts != []
    ensures var before := lefts[..|lefts| - 1];
            var at := Effective(env, c, before).1;
            && Seen(env, c, lefts).stream == Patched(Seen(env, c, before).stream, more)
            && at <= Effective(env, c, lefts).1
            && |more| <= 1 && (more != [] ==> at <= more[0].at)
  {
    hide Turns, TurnEdits, Patched;
    var n := |lefts| - 1;
    var (edits, at) := Effective(env, c, lefts[..n]);
    var d := Turns(env, c, lefts[..n]);
    TurnEditsAhead(env, d, lefts[n], at);
    more := TurnEdits(env, d, lefts[n], at).0;
    PatchedConcat(env.stream, edits, more);
  }

  /** At every loop head of the run the parser on the stream of the whole run has that state:
      later edits do not touch what was read before. */
  lemma {:induction false} PrefixIsParsed(env: Env, c: Conn, lefts: seq<int>, i: nat)
    requires Fits(lefts, |c.buf|) && i <= |lefts|
    ensures StandsAt(Seen(env, c, lefts), c, Turns(env, c, lefts[..i]), Effective(env, c, lefts[..i]).1)
    ensures Effective(env, c, lefts[..i]).1 <= Effective(env, c, lefts).1
    decreases lefts
  {
    if i == |lefts| {
      hide StandsAt, Turns, Effective, SameRest, SameBehind;
      assert lefts[..i] == lefts;
      EveryRunIsParsed(env, c, lefts);
    } else {
      hide StandsAt, Turns, Effective, Patched;
      var n := |lefts| - 1;
      PrefixIsParsed(env, c, lefts[..n], i);
      assert lefts[..n][..i] == lefts[..i];
      var more := LastTurnSeen(env, c, lefts);
      LaterEdits(Seen(env, c, lefts[..n]), c, Turns(env, c, lefts[..i]), Effective(env, c, lefts[..i]).1, more);
    }
  }

  /** Exactly the clean runs need no edit, and then the effective position is that of the
      transport. */
  lemma {:induction false} NoEditsIff(env: Env, c: Conn, lefts: seq<int>)
    requires Fits(lefts, |c.buf|)
    ensures Effective(env, c, lefts).0 == [] <==> Clean(env, c, lefts)
    ensures Clean(env, c, lefts) ==> Effective(env, c, lefts).1 == Turns(env, c, lefts).pos
    decreases lefts
  {
    hide OneTurn, CleanTurn;
    if lefts != [] {
      var n := |lefts| - 1;
      NoEditsIff(env, c, lefts[..n]);
      TurnEditsIff(env, Turns(env, c, lefts[..n]), lefts[n], Effective(env, c, lefts[..n]).1);
    }
  }

  lemma TurnEditsIff(env: Env, d: Conn, left: int, at: nat)
    requires left <= |d.buf|
    ensures TurnEdits(env, d, left, at).0 == [] <==> CleanTurn(env, d, left)
    ensures CleanTurn(env, d, left) ==> TurnEdits(env, d, left, at).1 - at == OneTurn(env, d, left).c.pos - d.pos
  {
    hide CleanTurn, Take, OneTurn, Reassemble;
    if 0 < Asks(d.st) <= left {
      CleanDelivers(env, d, left);
      var f := Reassemble(env.script, d.fetches, Asks(d.st));
      if f.got == Asks(d.st) {
        DeliveredTurn(env, d, left);
        TakeAdvances(env, CoreOf(d), d.ticks);
      } else if f.failed {
        LostTurn(env, d, left);
      }
    } else {
      CleanIdle(env, d, left);
      IdleTurn(env, d, left);
    }
  }

  lemma CleanIdle(env: Env, d: Conn, left: int)
    requires !(0 < Asks(d.st) <= left)
    ensures CleanTurn(env, d, left)
  {
  }

  /** No read comes back empty. */
  ghost predicate NeverEmpty(env: Env) {
    forall k: nat :: env.script(k) != 0
  }

  /** While no read comes back empty, the parser sees the stream with some bytes left out,
      and none put in. */
  lemma {:induction false} OnlyLosses(env: Env, c: Conn, lefts: seq<int>)
    requires NeverEmpty(env) && Fits(lefts, |c.buf|)
    ensures forall i :: 0 <= i < |Effective(env, c, lefts).0| ==> Effective(env, c, lefts).0[i].Loss?
    decreases lefts
  {
    hide Turns;
    if lefts != [] {
      var n := |lefts| - 1;
      OnlyLosses(env, c, lefts[..n]);
      var d := Turns(env, c, lefts[..n]);
      if 0 < Asks(d.st) <= lefts[n] {
        LastRead(env.script, d.fetches, Asks(d.st));
      }
    }
  }

  // ---- the clean twin of a run ---------------------------------------------------------

  /** The same environment with a transport that delivers. */
  function Smooth(env: Env): Env {
    env.(script := k => 1)
  }

  lemma ScriptIgnored(e: Env, f: Env, c: Conn, k: nat)
    requires e.stream == f.stream && e.inputs == f.inputs
    ensures Canon(e, c, k) == Canon(f, c, k)
  {
    CanonLocal(e, f, c, k);
  }

  /** The turns that took a piece. */
  function TakingTurns(env: Env, c: Conn, lefts: seq<int>): (taking: seq<int>)
    requires Fits(lefts, |c.buf|)
    ensures Fits(taking, |c.buf|)
    decreases lefts
  {
    if lefts == [] then []
    else
      var n := |lefts| - 1;
      TakingTurns(env, c, lefts[..n])
      + if OneTurn(env, Turns(env, c, lefts[..n]), lefts[n]).Again? then [lefts[n]] else []
  }

  lemma AgainTakes(env: Env, d: Conn, left: int)
    requires left <= |d.buf|
    ensures var t := OneTurn(env, d, left);
            if t.Again? then 0 < Asks(d.st) <= left && t.c.ticks == d.ticks + 1 else t.c.ticks == d.ticks
  {
    hide Reassemble, Handle, Settle;
  }

  lemma {:induction false} TakesAsMany(env: Env, e: Env, c: Conn, lefts: seq<int>, i: nat)
    requires Fits(lefts, |c.buf|) && e == Seen(env, c, lefts) && i <= |lefts|
    ensures Turns(Smooth(e), c, TakingTurns(env, c, lefts[..i])).ticks == Turns(env, c, lefts[..i]).ticks
    decreases i
  {
    hide Turns, OneTurn, Seen, Canon, Flowing, Effective;
    if i == 0 {
      assert lefts[..0] == [];
      assert Turns(Smooth(e), c, []) == c && Turns(env, c, []) == c by {
        NoTurnsYet(env, c);
        NoTurnsYet(Smooth(e), c);
      }
    } else {
      TakesAsMany(env, e, c, lefts, i - 1);
      var before, left := lefts[..i - 1], lefts[i - 1];
      assert lefts[..i] == before + [left] && lefts[..i][..i - 1] == before;
      var d, f := Turns(env, c, before), Turns(Smooth(e), c, TakingTurns(env, c, before));
      TurnsStep(env, c, before, left);
      AgainTakes(env, d, left);
      if OneTurn(env, d, left).Again? {
        TurnsStep(Smooth(e), c, TakingTurns(env, c, before), left);
        PrefixIsParsed(env, c, lefts, i - 1);
        TurnsAreOnTrack(Smooth(e), c, TakingTurns(env, c, before));
        ScriptIgnored(Smooth(e), e, c, f.ticks - c.ticks);
        TurnTakesPiece(Smooth(e), f, left);
      } else {
        assert TakingTurns(env, c, before) + [] == TakingTurns(env, c, before);
      }
    }
  }

  lemma NoTurnsYet(env: Env, c: Conn)
    ensures Turns(env, c, []) == c
  {
  }

  lemma TurnsStep(env: Env, c: Conn, lefts: seq<int>, left: int)
    requires Fits(lefts, |c.buf|) && left <= |c.buf|
    ensures Fits(lefts + [left], |c.buf|)
    ensures Turns(env, c, lefts + [left]) == OneTurn(env, Turns(env, c, lefts), left).c
  {
    hide OneTurn;
    assert (lefts + [left])[..|lefts|] == lefts;
  }

  /** Every run on every transport has the state, and so the history, of a clean run over the
      edited stream: the one that makes its taking turns on a transport that delivers. */
  lemma EveryRunHasCleanTwin(env: Env, c: Conn, lefts: seq<int>)
    requires Fits(lefts, |c.buf|)
    ensures var e := Smooth(Seen(env, c, lefts));
            var taking := TakingTurns(env, c, lefts);
            && Clean(e, c, taking)
            && Turns(e, c, taking).st == Turns(env, c, lefts).st
            && Turns(e, c, taking).pos == Effective(env, c, lefts).1
  {
    hide Turns, Seen, Canon, Flowing, Effective, Clean, SameRest, SameBehind;
    var e := Seen(env, c, lefts);
    var taking := TakingTurns(env, c, lefts);
    assert lefts[..|lefts|] == lefts;
    TakesAsMany(env, e, c, lefts, |lefts|);
    EveryRunIsParsed(env, c, lefts);
    PositiveIsClean(Smooth(e), c, taking);
    TurnsAreOnTrack(Smooth(e), c, taking);
    ScriptIgnored(Smooth(e), e, c, Turns(env, c, lefts).ticks - c.ticks);
  }

  // ---- the element's byte position -----------------------------------------------------

  /** The claimed sizes of the output calls that returned a positive count. */
  function AcceptedSizes(os: seq<Output>): int
    decreases os
  {
    if os == [] then 0
    else AcceptedSizes(os[..|os| - 1]) + if os[|os| - 1].accepted > 0 then os[|os| - 1].claimed else 0
  }

  /** A turn that asks for a piece of negative length adds that length. */
  function TurnRewinds(d: Conn, left: int): int {
    if Asks(d.st) < 0 && Asks(d.st) <= left then Asks(d.st) else 0
  }

  function Rewinds(env: Env, c: Conn, lefts: seq<int>): int
    requires Fits(lefts, |c.buf|)
    decreases lefts
  {
    if lefts == [] then 0
    else
      var n := |lefts| - 1;
      Rewinds(env, c, lefts[..n]) + TurnRewinds(Turns(env, c, lefts[..n]), lefts[n])
  }

  lemma HandleAddsOneOutput(st: State, buf: seq<byte>, inputs: Inputs)
    requires 0 < PieceSize(st.base) <= |buf|
    ensures var st' := Handle(st, buf, inputs);
            st'.outputs == st.outputs || (st'.outputs != [] && st'.outputs[..|st'.outputs| - 1] == st.outputs)
  {
    hide HandleBody;
    if st.base.typ != TYPE_BASE {
      BodyEffects(st, buf[..PieceSize(st.base)], buf[PieceSize(st.base)..], inputs);
    }
  }

  lemma TurnAccounts(env: Env, d: Conn, left: int, at: nat)
    requires left <= |d.buf|
    ensures var d' := OneTurn(env, d, left).c;
            d'.bytePos - d.bytePos
            == (TurnEdits(env, d, left, at).1 - at) + TurnRewinds(d, left)
               + AcceptedSizes(d'.st.outputs) - AcceptedSizes(d.st.outputs)
  {
    hide Handle, Settle, Reassemble;
    var n := Asks(d.st);
    if 0 < n <= left {
      LastRead(env.script, d.fetches, n);
      ReassembledIff(env.script, d.fetches, n);
      var (d1, r) := ReadPiece(env, d, n);
      if r > 0 {
        HandleAddsOneOutput(d1.st, d1.buf, env.inputs(d1.ticks));
      }
    } else if n <= left {
      assert Reassemble(env.script, d.fetches, n) == Fetch(false, 0, d.fetches) by {
        NothingToRead(env.script, d.fetches, n);
      }
    }
  }

  lemma NothingToRead(script: nat -> int, at: nat, rem: int)
    requires rem <= 0
    ensures Reassemble(script, at, rem) == Fetch(false, 0, at)
  {
  }

  /** On every transport the byte position grows by what the parser has read, the bytes
      claimed but not delivered at the end of the stream included and those lost at a
      failing read not, plus the claimed sizes of the output calls that returned a positive
      count; a pending piece of negative length is added once a turn. */
  lemma {:induction false} EveryRunAccounts(env: Env, c: Conn, lefts: seq<int>)
    requires Fits(lefts, |c.buf|)
    ensures var d := Turns(env, c, lefts);
            d.bytePos - c.bytePos
            == (Effective(env, c, lefts).1 - c.pos) + Rewinds(env, c, lefts)
               + AcceptedSizes(d.st.outputs) - AcceptedSizes(c.st.outputs)
    decreases lefts
  {
    hide OneTurn, TurnEdits, TurnRewinds, AcceptedSizes;
    if lefts != [] {
      var n := |lefts| - 1;
      EveryRunAccounts(env, c, lefts[..n]);
      TurnAccounts(env, Turns(env, c, lefts[..n]), lefts[n], Effective(env, c, lefts[..n]).1);
    }
  }

  /** A pending piece of negative length stays pending, so there was none before when there
      is none at the end. */
  lemma {:induction false} NoRewinds(env: Env, c: Conn, lefts: seq<int>)
    requires Fits(lefts, |c.buf|) && Asks(Turns(env, c, lefts).st) >= 0
    ensures Rewinds(env, c, lefts) == 0
    decreases lefts
  {
    hide OneTurn;
    if lefts != [] {
      var n := |lefts| - 1;
      var d := Turns(env, c, lefts[..n]);
      if Asks(d.st) < 0 {
        IdleTurn(env, d, lefts[n]);
      }
      NoRewinds(env, c, lefts[..n]);
    }
  }

  /** A pending header whose size is 2^31 or more: every call with a budget makes no read, and
      takes the difference to 2^32 from the byte position. */
  lemma HugeSizeRewinds(env: Env, c: Conn, left: int)
    requires !c.st.halted && c.st.base.typ != TYPE_BASE && c.st.base.size >= 0x8000_0000
    requires 0 <= left <= |c.buf|
    ensures Call(env, c, left) == c.(bytePos := c.bytePos - (0x1_0000_0000 - c.st.base.size))
    ensures TurnRewinds(c, left) == -(0x1_0000_0000 - c.st.base.size)
  {
    assert Asks(c.st) == c.st.base.size - 0x1_0000_0000;
    NothingToRead(env.script, c.fetches, Asks(c.st));
    assert Slice(env.stream, c.pos, 0) + c.buf[0..] == c.buf;
  }

  // ---- one call, on any transport ------------------------------------------------------

  /** How much of the budget a run has used: the lengths of the pieces it has handled. */
  function Used(env: Env, c: Conn, lefts: seq<int>): int
    requires Fits(lefts, |c.buf|)
  {
    Effective(env, c, lefts).1 - c.pos
  }

  lemma {:induction false} UsedFromFront(env: Env, c: Conn, left: int, rest: seq<int>)
    requires left <= |c.buf| && Fits(rest, |c.buf|)
    ensures Fits([left] + rest, |c.buf|)
    ensures Used(env, c, [left] + rest)
         == (TurnEdits(env, c, left, c.pos).1 - c.pos) + Used(env, OneTurn(env, c, left).c, rest)
    decreases rest
  {
    hide OneTurn, TurnEdits;
    var t := OneTurn(env, c, left);
    if rest == [] {
      assert [left] + rest == [left] && [left][..0] == [];
      assert Turns(env, c, []) == c && Effective(env, c, []) == ([], c.pos);
    } else {
      var n := |rest| - 1;
      UsedFromFront(env, c, left, rest[..n]);
      assert ([left] + rest)[..|rest|] == [left] + rest[..n];
      TurnsConcat(env, c, [left], rest[..n]);
      assert [left][..0] == [] && Turns(env, c, [left]) == t.c;
      var d := Turns(env, t.c, rest[..n]);
      StepIgnoresAt(env, d, rest[n], Effective(env, c, [left] + rest[..n]).1, Effective(env, t.c, rest[..n]).1);
    }
  }

  lemma StepIgnoresAt(env: Env, d: Conn, left: int, a: nat, b: nat)
    requires left <= |d.buf|
    ensures TurnEdits(env, d, left, a).1 - a == TurnEdits(env, d, left, b).1 - b
  {
    hide Reassemble, Asks;
  }

  /** What one turn reads, and when it is the last of its call. */
  lemma TurnReads(env: Env, c: Conn, left: int)
    requires left <= |c.buf|
    ensures var t := OneTurn(env, c, left);
            && c.fetches <= t.c.fetches
            && (forall i :: c.fetches <= i < t.c.fetches - 1 ==> env.script(i) > 0)
            && (t.Again? ==> c.fetches < t.c.fetches && env.script(t.c.fetches - 1) >= 0
                             && 0 < Asks(c.st) <= left && t.left == left - Asks(c.st)
                             && TurnEdits(env, c, left, c.pos).1 == c.pos + Asks(c.st))
            && (t.Stop? ==> t.c.st == c.st && TurnEdits(env, c, left, c.pos).1 == c.pos
                            && if 0 < Asks(c.st) <= left then c.fetches < t.c.fetches && env.script(t.c.fetches - 1) < 0
                               else t.c.fetches == c.fetches)
  {
    hide Handle, Settle;
    var n := Asks(c.st);
    if 0 < n <= left {
      hide Reassemble;
      LastRead(env.script, c.fetches, n);
      ReassembledIff(env.script, c.fetches, n);
      EarlierReads(env.script, c.fetches, n);
    }
  }

  lemma {:induction false} EarlierReads(script: nat -> int, at: nat, rem: int)
    requires rem > 0
    ensures forall i :: at <= i < Reassemble(script, at, rem).next - 1 ==> script(i) > 0
    decreases rem
  {
    if script(at) > 0 && script(at) < rem {
      EarlierReads(script, at + 1, rem - script(at));
    }
  }

  /** A call, on every transport.  It makes no read after a failed one.  It never uses more
      than its budget.  And it stops exactly where it must: its last read failed if and only
      if the pending piece has a positive length and fits in what is left of the budget. */
  lemma {:induction false} CallStops(env: Env, c: Conn, left: int) returns (lefts: seq<int>)
    requires left <= |c.buf|
    ensures Fits(lefts, |c.buf|) && Call(env, c, left) == Turns(env, c, lefts)
    ensures var d := Call(env, c, left);
            && c.fetches <= d.fetches
            && (forall i :: c.fetches <= i < d.fetches - 1 ==> env.script(i) >= 0)
            && 0 <= Used(env, c, lefts) <= (if left > 0 then left else 0)
            && (c.fetches < d.fetches && env.script(d.fetches - 1) < 0
                <==> 0 < Asks(d.st) <= left - Used(env, c, lefts))
    decreases if left > 0 then left else 0
  {
    hide OneTurn, TurnEdits, Asks, Turns;
    var t := OneTurn(env, c, left);
    TurnReads(env, c, left);
    TurnsStep(env, c, [], left);
    NoTurnsYet(env, c);
    assert [] + [left] == [left];
    if t.Stop? {
      lefts := [left];
      UsedFromFront(env, c, left, []);
      assert [left] + [] == [left];
    } else {
      var rest := CallStops(env, t.c, t.left);
      TurnsConcat(env, c, [left], rest);
      UsedFromFront(env, c, left, rest);
      lefts := [left] + rest;
    }
  }
}
