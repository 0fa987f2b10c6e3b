/**
 What src/agent/pipeline.c promises of encrypted connections: the flag stays, and the
 ciphertext on the socket cannot influence what is framed.
 */
module TlsTheorems {
  import opened Framing
  import opened Options
  import opened FramingTheorems
  import opened ChunkLayer
  import opened Sequences
  import opened Connections
  import opened Pipeline

  /** A socket event of `x`. */
  predicate RawOf(i: Input, x: nat) { i.Chunk? && i.cookie == x && !i.ev.decrypted }

  /** Once a connection is flagged it stays flagged for as long as it is in the table. */
  lemma TlsStays(env: Env, s: Pipe, i: Input, x: nat)
    requires EnvOk(env) && PipeOk(s) && IsTls(s.t, x) && x in Route(env, s, i).t.conns
    ensures IsTls(Route(env, s, i).t, x)
  {
    hide TableOk, ConnsOk, Sweep, FeedDecrypted, FeedRaw;
    if !About(i, x) {
      Elsewhere(env, s, i, x);
    } else if i.Chunk? && i.ev.decrypted {
      FeedDecryptedOk(env, s, x, i.seqNo, i.dir, i.ev);
    }
  }

  // ---- ciphertext cannot be observed ----------------------------------------

  /** The same connection, but for the socket's own sequence number and the clock. */
  ghost predicate Alike(c: Conn, d: Conn)
  {
    && c.ops == d.ops && c.ctx == d.ctx && c.recv == d.recv && c.send == d.send && c.dropped == d.dropped
    && c.tlsSeen == d.tlsSeen && c.tlsLastSeq == d.tlsLastSeq && c.tlsDropped == d.tlsDropped
  }

  /** Tables that differ at most in what the ciphertext of `x` can reach, and that only
      while `x` is flagged. */
  ghost predicate TablesAgree(a: Table, b: Table, x: nat)
  {
    && a.max == b.max && a.st.active == b.st.active && a.conns.Keys == b.conns.Keys
    && (forall c :: c in a.conns && c != x ==> a.conns[c] == b.conns[c])
    && (x in a.conns ==> Same(a.conns[x], b.conns[x]))
  }

  /** The same connection, or one that is flagged and alike. */
  ghost predicate Same(c: Conn, d: Conn) { c == d || (Alike(c, d) && c.ctx.tls) }

  ghost predicate Agree(a: Pipe, b: Pipe, x: nat)
  {
    TablesAgree(a.t, b.t, x) && a.log == b.log && a.st == b.st
  }

  /** The input evicts nobody, and a repeated OPEN of `x` while it is flagged reports no
      loss. */
  predicate Calm(s: Pipe, i: Input, x: nat)
  {
    && !i.Sweeping?
    && (i.Opened? && i.cookie == x && IsTls(s.t, x) ==> Gap(i.seqNo, s.t.conns[x].lastSeq) == 0)
    && (!i.Closed? && i.cookie !in s.t.conns ==> s.t.st.active < s.t.max)
  }

  lemma PutAgrees(a: Table, b: Table, x: nat, y: nat, c: Conn, d: Conn)
    requires TablesAgree(a, b, x) && (if y == x then Same(c, d) else c == d)
    ensures TablesAgree(a.(conns := a.conns[y := c]), b.(conns := b.conns[y := d]), x)
  {
  }

  /** Room enough: the table only gains the entry. */
  lemma CreateAgrees(a: Table, b: Table, x: nat, y: nat, c: Conn)
    requires TablesAgree(a, b, x) && a.st.active < a.max
    ensures TablesAgree(Create(a, y, c), Create(b, y, c), x)
  {
    hide Alike;
  }

  lemma OpenAgrees(a: Table, b: Table, x: nat, i: Input, ops: Ops)
    requires TablesAgree(a, b, x) && i.Opened? && Calm(Pipe(a, [], ZERO_STATS), i, x) &&
             Calm(Pipe(b, [], ZERO_STATS), i, x)
    ensures TablesAgree(Open(a, i.cookie, i.seqNo, i.ts, ops, i.synthetic),
                        Open(b, i.cookie, i.seqNo, i.ts, ops, i.synthetic), x)
  {
    hide Create, RemoveFrom;
    var y := i.cookie;
    if y in a.conns {
      PutAgrees(a, b, x, y, Seen(a.conns[y], i.seqNo, i.ts), Seen(b.conns[y], i.seqNo, i.ts));
    } else {
      var c := Born(ops, i.seqNo, i.ts);
      CreateAgrees(a, b, x, y, if i.synthetic then MarkDirty(c) else c);
    }
  }

  lemma CloseAgrees(a: Table, b: Table, x: nat, y: nat, seqNo: nat, ts: nat)
    requires TablesAgree(a, b, x)
    ensures TablesAgree(Close(a, y, seqNo, ts), Close(b, y, seqNo, ts), x)
  {
    hide Alike, RemoveFrom;
  }

  lemma DataAgrees(a: Table, b: Table, x: nat, y: nat, seqNo: nat, ts: nat, ops: Ops)
    requires TablesAgree(a, b, x) && !IsTls(a, y) && (y !in a.conns ==> a.st.active < a.max)
    ensures TablesAgree(Data(a, y, seqNo, ts, ops), Data(b, y, seqNo, ts, ops), x)
  {
    hide Create, Alike, RemoveFrom;
    if y in a.conns {
      PutAgrees(a, b, x, y, Seen(a.conns[y], seqNo, ts), Seen(b.conns[y], seqNo, ts));
    } else {
      CreateAgrees(a, b, x, y, MarkDirty(Born(ops, seqNo, ts)));
    }
  }

  lemma DecryptedAgrees(a: Table, b: Table, x: nat, y: nat, seqNo: nat, ts: nat, ops: Ops)
    requires TablesAgree(a, b, x) && (y !in a.conns ==> a.st.active < a.max)
    ensures TablesAgree(DataDecrypted(a, y, seqNo, ts, ops), DataDecrypted(b, y, seqNo, ts, ops), x)
  {
    hide Create, RemoveFrom;
    if y in a.conns {
      PutAgrees(a, b, x, y, SeenTls(a.conns[y], seqNo, ts), SeenTls(b.conns[y], seqNo, ts));
    } else {
      CreateAgrees(a, b, x, y, MarkDirty(Born(ops, seqNo, ts).(tlsSeen := true, tlsLastSeq := seqNo)));
    }
  }

  lemma FeedAgrees(a: Pipe, b: Pipe, x: nat, y: nat, dir: Dir, ev: DataEvent)
    requires Agree(a, b, x) && y in a.t.conns && ConnOk(a.t.conns[y])
    ensures Agree(FeedConn(a, y, dir, ev), FeedConn(b, y, dir, ev), x)
    ensures IsTls(FeedConn(a, y, dir, ev).t, y) == IsTls(FeedConn(b, y, dir, ev).t, y)
  {
    hide ReasmData, ReasmCall, ConnOk;
    var c, d := a.t.conns[y], b.t.conns[y];
    TakenOk(c, dir, ev, a.st);
    PutAgrees(a.t, b.t, x, y, Taken(c, dir, ev, a.st), Taken(d, dir, ev, b.st));
  }

  lemma GoTlsAgrees(a: Table, b: Table, x: nat, y: nat, midstream: bool)
    requires TablesAgree(a, b, x) && y in a.conns && (y == x ==> a.conns[x] == b.conns[x])
    ensures TablesAgree(GoTls(a, y, midstream), GoTls(b, y, midstream), x)
  {
    hide Alike;
  }

  lemma FeedDecryptedAgrees(env: Env, a: Pipe, b: Pipe, x: nat, y: nat, seqNo: nat, dir: Dir, ev: DataEvent)
    requires EnvOk(env) && PipeOk(a) && Agree(a, b, x) && (y !in a.t.conns ==> a.t.st.active < a.t.max)
    ensures Agree(FeedDecrypted(env, a, y, seqNo, dir, ev), FeedDecrypted(env, b, y, seqNo, dir, ev), x)
  {
    hide TableOk, ConnsOk, ConnOk, DataDecrypted, GoTls, FeedConn, Alike;
    DecryptedAgrees(a.t, b.t, x, y, seqNo, ev.ts, env.dflt);
    EventConns(a.t, y, seqNo, ev.ts, env.dflt, false);
    OpenOk(a.t, y, seqNo, ev.ts, env.dflt, false);
    var t, u := DataDecrypted(a.t, y, seqNo, ev.ts, env.dflt), DataDecrypted(b.t, y, seqNo, ev.ts, env.dflt);
    TlsAgrees(t, u, x, y);
    var t1, u1 := if IsTls(t, y) then t else GoTls(t, y, true), if IsTls(u, y) then u else GoTls(u, y, true);
    if !IsTls(t, y) {
      GoTlsAgrees(t, u, x, y, true);
      GoTlsOk(t, y, true);
    }
    ConnsAt(t1.conns, y);
    FeedAgrees(a.(t := t1), b.(t := u1), x, y, dir, ev);
  }

  lemma TlsAgrees(a: Table, b: Table, x: nat, y: nat)
    requires TablesAgree(a, b, x)
    ensures IsTls(a, y) == IsTls(b, y) && (y in a.conns && !IsTls(a, y) ==> y in b.conns && a.conns[y] == b.conns[y])
  {
  }

  lemma FeedRawAgrees(env: Env, a: Pipe, b: Pipe, x: nat, y: nat, seqNo: nat, dir: Dir, ev: DataEvent)
    requires EnvOk(env) && PipeOk(a) && Agree(a, b, x) && !IsTls(a.t, y) &&
             (y !in a.t.conns ==> a.t.st.active < a.t.max)
    ensures Agree(FeedRaw(env, a, y, seqNo, dir, ev), FeedRaw(env, b, y, seqNo, dir, ev), x)
  {
    hide TableOk, ConnsOk, ConnOk, Data, GoTls, FeedConn, Alike;
    DataAgrees(a.t, b.t, x, y, seqNo, ev.ts, env.dflt);
    EventConns(a.t, y, seqNo, ev.ts, env.dflt, false);
    var t, u := Data(a.t, y, seqNo, ev.ts, env.dflt), Data(b.t, y, seqNo, ev.ts, env.dflt);
    ConnsAt(t.conns, y);
    TlsAgrees(t, u, x, y);
    FeedAgrees(a.(t := t), b.(t := u), x, y, dir, ev);
    RawStaysPlain(a.t, y, seqNo, ev.ts, env.dflt);
    FedAlike(a.(t := t), b.(t := u), y, dir, ev);
    GoTlsAgrees(FeedConn(a.(t := t), y, dir, ev).t, FeedConn(b.(t := u), y, dir, ev).t, x, y, false);
  }

  lemma RawStaysPlain(t: Table, y: nat, seqNo: nat, ts: nat, ops: Ops)
    requires !IsTls(t, y)
    ensures !IsTls(Data(t, y, seqNo, ts, ops), y)
  {
    hide MakeRoom, RemoveFrom;
  }

  lemma FedAlike(a: Pipe, b: Pipe, y: nat, dir: Dir, ev: DataEvent)
    requires y in a.t.conns && y in b.t.conns && a.t.conns[y] == b.t.conns[y] && a.st == b.st
    ensures FeedConn(a, y, dir, ev).t.conns[y] == FeedConn(b, y, dir, ev).t.conns[y]
  {
    hide Taken, Fed;
  }

  /** A socket event of `x` while it is flagged. */
  predicate Hidden(s: Pipe, i: Input, x: nat) { RawOf(i, x) && IsTls(s.t, x) }

  /** An input both runs see keeps them in agreement. */
  lemma RouteAgrees(env: Env, a: Pipe, b: Pipe, i: Input, x: nat)
    requires EnvOk(env) && PipeOk(a) && Agree(a, b, x) && Calm(a, i, x) && Calm(b, i, x) && !Hidden(a, i, x)
    ensures Agree(Route(env, a, i), Route(env, b, i), x)
  {
    hide TableOk, ConnsOk, Open, Close, FeedDecrypted, FeedRaw, Alike;
    match i
    case Opened(y, seqNo, ts, port, synthetic) => OpenAgrees(a.t, b.t, x, i, ProtoOf(env, port));
    case Closed(y, seqNo, ts) => CloseAgrees(a.t, b.t, x, y, seqNo, ts);
    case Chunk(y, seqNo, dir, ev) =>
      TlsAgrees(a.t, b.t, x, y);
      if ev.decrypted {
        FeedDecryptedAgrees(env, a, b, x, y, seqNo, dir, ev);
      } else if IsTls(a.t, y) {
        DropAgrees(a.t, b.t, x, y, seqNo, ev.ts);
      } else {
        FeedRawAgrees(env, a, b, x, y, seqNo, dir, ev);
      }
  }

  lemma DropAgrees(a: Table, b: Table, x: nat, y: nat, seqNo: nat, ts: nat)
    requires TablesAgree(a, b, x) && IsTls(a, y)
    ensures TablesAgree(NoteTlsDrop(a, y, seqNo, ts), NoteTlsDrop(b, y, seqNo, ts), x)
    ensures y == x ==>
              TablesAgree(NoteTlsDrop(a, y, seqNo, ts), b, x) && TablesAgree(a, NoteTlsDrop(b, y, seqNo, ts), x)
  {
    hide NoteTlsDrop;
    var c, d := a.conns[y], b.conns[y];
    var c1, d1 := c.(lastSeq := Later(seqNo, c.lastSeq), activity := ts),
                  d.(lastSeq := Later(seqNo, d.lastSeq), activity := ts);
    DropIsPut(a, y, seqNo, ts);
    DropIsPut(b, y, seqNo, ts);
    PutAgrees(a, b, x, y, c1, d1);
    if y == x {
      assert a.conns == a.conns[x := c] && b.conns == b.conns[x := d];
      PutAgrees(a, b, x, x, c1, d);
      PutAgrees(a, b, x, x, c, d1);
    }
  }

  lemma DropIsPut(t: Table, y: nat, seqNo: nat, ts: nat)
    requires y in t.conns
    ensures var u, c := NoteTlsDrop(t, y, seqNo, ts), t.conns[y];
            && u.max == t.max && u.st.active == t.st.active
            && u.conns == t.conns[y := c.(lastSeq := Later(seqNo, c.lastSeq), activity := ts)]
  {
    hide RemoveFrom;
  }

  /** A hidden event that only one run sees keeps them in agreement. */
  lemma RawIsUnseen(env: Env, a: Pipe, b: Pipe, i: Input, x: nat)
    requires Agree(a, b, x) && Hidden(a, i, x)
    ensures Agree(Route(env, a, i), b, x) && Agree(a, Route(env, b, i), x)
  {
    hide Alike, NoteTlsDrop;
    TlsAgrees(a.t, b.t, x, x);
    DropAgrees(a.t, b.t, x, x, i.seqNo, i.ev.ts);
  }

  /** The inputs of a run without the socket events of `x` while it is flagged. */
  function Visible(env: Env, s: Pipe, run: seq<Input>, x: nat): seq<Input>
  {
    if run == [] then []
    else
      var init, i := run[..|run| - 1], run[|run| - 1];
      Visible(env, s, init, x) + if Hidden(Run(env, s, init), i, x) then [] else [i]
  }

  predicate CalmRun(env: Env, s: Pipe, run: seq<Input>, x: nat)
  {
    run == [] || (CalmRun(env, s, run[..|run| - 1], x) && Calm(Run(env, s, run[..|run| - 1]), run[|run| - 1], x))
  }

  lemma {:induction false} RunsAgree(env: Env, s: Pipe, ra: seq<Input>, rb: seq<Input>, x: nat)
    requires EnvOk(env) && PipeOk(s) && Visible(env, s, ra, x) == Visible(env, s, rb, x)
    requires CalmRun(env, s, ra, x) && CalmRun(env, s, rb, x)
    ensures Agree(Run(env, s, ra), Run(env, s, rb), x)
    decreases |ra| + |rb|
  {
    hide PipeOk, Agree, Route, Calm, Hidden;
    if ra == [] && rb == [] {
      AgreesItself(s, x);
    } else if ra != [] && Hidden(Run(env, s, ra[..|ra| - 1]), ra[|ra| - 1], x) {
      var pa := ra[..|ra| - 1];
      RunsAgree(env, s, pa, rb, x);
      RawIsUnseen(env, Run(env, s, pa), Run(env, s, rb), ra[|ra| - 1], x);
    } else if rb != [] && Hidden(Run(env, s, rb[..|rb| - 1]), rb[|rb| - 1], x) {
      var pb := rb[..|rb| - 1];
      RunsAgree(env, s, ra, pb, x);
      HiddenBoth(Run(env, s, ra), Run(env, s, pb), rb[|rb| - 1], x);
      RawIsUnseen(env, Run(env, s, ra), Run(env, s, pb), rb[|rb| - 1], x);
    } else if ra != [] && rb != [] {
      var pa, pb, i := ra[..|ra| - 1], rb[..|rb| - 1], ra[|ra| - 1];
      SameLast(Visible(env, s, pa, x), i, Visible(env, s, pb, x), rb[|rb| - 1]);
      RunsAgree(env, s, pa, pb, x);
      RunOk(env, s, pa);
      RouteAgrees(env, Run(env, s, pa), Run(env, s, pb), i, x);
    }
  }

  lemma AgreesItself(s: Pipe, x: nat)
    ensures Agree(s, s, x)
  {
  }

  lemma HiddenBoth(a: Pipe, b: Pipe, i: Input, x: nat)
    requires Agree(a, b, x)
    ensures Hidden(a, i, x) == Hidden(b, i, x)
  {
    TlsAgrees(a.t, b.t, x, x);
  }

  lemma SameLast<T>(xs: seq<T>, x: T, ys: seq<T>, y: T)
    requires xs + [x] == ys + [y]
    ensures xs == ys && x == y
  {
    var all := xs + [x];
    assert |xs| == |ys| && all[|xs|] == x && all[|ys|] == y;
    assert xs == all[..|xs|] && ys == all[..|ys|];
  }

  /** Non-interference: two runs that differ only in socket events that arrive while the
      connection is flagged emit the same messages, for it and for everyone else, whatever
      else happens to it: it may turn to TLS, be closed, and come back. */
  lemma CiphertextIsInvisible(env: Env, s: Pipe, ra: seq<Input>, rb: seq<Input>, x: nat)
    requires EnvOk(env) && PipeOk(s) && Visible(env, s, ra, x) == Visible(env, s, rb, x)
    requires CalmRun(env, s, ra, x) && CalmRun(env, s, rb, x)
    ensures Run(env, s, ra).log == Run(env, s, rb).log && Run(env, s, ra).st == Run(env, s, rb).st
  {
    hide PipeOk, EnvOk, CalmRun, Visible, Run;
    RunsAgree(env, s, ra, rb, x);
  }

  // ---- the one way around it ------------------------------------------------

  /** A repeated OPEN of a live connection leaves its framers alone if and only if it
      reports no loss or they are waiting for a boundary anyway. */
  lemma OpenSparesTheFramersIff(t: Table, x: nat, seqNo: nat, ts: nat, ops: Ops, synthetic: bool)
    requires x in t.conns
    ensures var c, d := t.conns[x], Open(t, x, seqNo, ts, ops, synthetic).conns[x];
            d.recv == c.recv && d.send == c.send <==> Gap(seqNo, c.lastSeq) == 0 || c == MarkDirty(c)
  {
    hide RemoveFrom;
  }

  /** A protocol with one-byte headers and empty bodies, in which a 2 announces TLS. */
  function FlipOps(): Ops
  {
    Ops((p, d) => 1,
        (c, d, h: Header, b) => Some(h.(typ := if b == [2] then 2 else 0, len := 1)),
        (c: Ctx, d, h: Header, b) => Pre(c.(tls := c.tls || h.typ == 2), 0, 0),
        (p, d) => p,
        (c, d, m, b) => (0, false),
        (c, d, off, b) => false,
        p => p)
  }

  const OPENING := Opened(7, 1, 0, 0, false)
  const FLIPPING := Chunk(7, 2, Recv, DataEvent(1, 0, [2], 0, false))
  const CIPHERTEXT := Chunk(7, 3, Recv, DataEvent(1, 0, [1], 0, false))
  const OPEN_AGAIN := Opened(7, 4, 0, 0, false)
  const PLAINTEXT := Chunk(7, 1, Recv, DataEvent(1, 0, [1], 0, true))

  function FlipEnv(): Env { Env([], FlipOps()) }

  /** The agent after a connection was opened and announced TLS. */
  function Encrypted(): Pipe { Run(FlipEnv(), Start(1, 0), [OPENING, FLIPPING]) }

  lemma FlipOpsValid()
    ensures EnvOk(FlipEnv()) && PipeOk(Encrypted())
  {
    hide PipeOk, Run;
    assert FlipOps().Valid();
    StartOk(1, 0);
    RunOk(FlipEnv(), Start(1, 0), [OPENING, FLIPPING]);
  }

  /** One header byte, and its message. */
  lemma OneByte(f: Framer, b: Byte, eb: bool)
    requires f.f == ZERO_FRAME && eb == f.ctx.Blind() && !f.ctx.ignore && !f.ctx.cancel
    ensures var ev := DataEvent(1, 0, [b], 0, f.ctx.tls);
            var r := ReasmData(FlipOps(), Recv, f, Call(0, 0), ev);
            && |r.out| == |f.out| + 1 && r.ctx == f.ctx.(tls := f.ctx.tls || b == 2)
            && ReasmCall(f, Call(0, 0), ev) == Call(0, 0)
  {
    var ops, p, ev := FlipOps(), [b], DataEvent(1, 0, [b], 0, f.ctx.tls);
    assert BeforeBytes(ops, Recv, f, Call(0, 0), ev) == f;
    assert p[1..] == [] && [] + p == p;
    var h := NO_HEADER.(typ := if p == [2] then 2 else 0, len := 1);
    assert ops.parseHdr(f.ctx, Recv, NO_HEADER, p) == Some(h);
    assert p == [2] <==> b == 2;
    var r := Framing.Step(ops, Recv, f, b, 0, eb);
    assert r.s.ctx == f.ctx.(tls := f.ctx.tls || b == 2) && |r.s.out| == |f.out| + 1;
    assert Feed(ops, Recv, f, p, 0) == if r.cut then r else FeedFrom(ops, Recv, r.s, [], 0, eb);
  }

  /** What the flip leaves behind: fresh framers that wait for decrypted events. */
  ghost predicate Waiting(c: Conn, last: nat)
  {
    && c.ops == FlipOps() && c.ctx == Ctx(0, true, false, false) && c.recv == FRESH_FLOW
    && c.lastSeq == last && !c.tlsSeen
  }

  lemma EncryptedWaits()
    ensures 7 in Encrypted().t.conns && Waiting(Encrypted().t.conns[7], 2)
  {
    hide RemoveFrom, ReasmData;
    var env, s := FlipEnv(), Start(1, 0);
    assert [OPENING, FLIPPING][..1] == [OPENING] && [OPENING][..0] == [];
    var s1 := Route(env, s, OPENING);
    assert s1.t.conns[7] == Born(FlipOps(), 1, 0);
    assert Run(env, s, [OPENING]) == s1 by { assert Run(env, s, []) == s; }
    var t := Data(s1.t, 7, 2, 0, env.dflt);
    var c := t.conns[7];
    assert c == Born(FlipOps(), 1, 0).(lastSeq := 2);
    OneByte(FramerOf(c, Recv, s1.st), 2, false);
    assert Taken(c, Recv, FLIPPING.ev, s1.st).ctx == Ctx(0, true, false, false);
  }

  /** Plaintext that starts a message is emitted at a boundary and lost without one. */
  lemma PlaintextOnce(s: Pipe)
    requires 7 in s.t.conns && s.t.conns[7].ops == FlipOps() && s.t.conns[7].ctx == Ctx(0, true, false, false)
    requires !s.t.conns[7].tlsSeen && s.t.conns[7].recv.call == Call(0, 0)
    ensures s.t.conns[7].recv == FRESH_FLOW ==> |Route(FlipEnv(), s, PLAINTEXT).log| == |s.log| + 1
    ensures s.t.conns[7].recv.f.st.DIRTY? ==> |Route(FlipEnv(), s, PLAINTEXT).log| == |s.log|
  {
    hide RemoveFrom, ReasmData;
    var t := DataDecrypted(s.t, 7, 1, 0, FlipOps());
    var c := t.conns[7];
    assert c.ctx == Ctx(0, true, false, false) && c.recv == s.t.conns[7].recv;
    var f := FramerOf(c, Recv, s.st);
    LabelledSize(7, Fed(c, Recv, PLAINTEXT.ev, s.st).out);
    if c.recv == FRESH_FLOW { OneByte(f, 1, true); }
    if c.recv.f.st.DIRTY? { DirtyByte(f); }
  }

  lemma DirtyByte(f: Framer)
    requires f.f.st.DIRTY? && f.ctx == Ctx(0, true, false, false)
    ensures ReasmData(FlipOps(), Recv, f, Call(0, 0), PLAINTEXT.ev).out == f.out
  {
    var ops, p := FlipOps(), [1];
    assert BeforeBytes(ops, Recv, f, Call(0, 0), PLAINTEXT.ev) == f;
    assert p[1..] == [];
    var r := Framing.Step(ops, Recv, f, 1, 0, true);
    assert Feed(ops, Recv, f, p, 0) == if r.cut then r else FeedFrom(ops, Recv, r.s, [], 0, true);
  }

  lemma {:induction false} LabelledSize(cookie: nat, out: seq<Event>)
    ensures |Labelled(cookie, out)| == |out|
  {
    if out != [] { LabelledSize(cookie, out[..|out| - 1]); }
  }

  /** The run in which the ciphertext is seen, step by step. */
  lemma WithCiphertext(env: Env, s: Pipe)
    ensures Run(env, s, [CIPHERTEXT, OPEN_AGAIN, PLAINTEXT]) ==
            Route(env, Route(env, Route(env, s, CIPHERTEXT), OPEN_AGAIN), PLAINTEXT)
    ensures Run(env, s, [OPEN_AGAIN, PLAINTEXT]) == Route(env, Route(env, s, OPEN_AGAIN), PLAINTEXT)
    ensures Visible(env, s, [OPEN_AGAIN, PLAINTEXT], 7) == [OPEN_AGAIN, PLAINTEXT]
    ensures IsTls(s.t, 7) ==> Visible(env, s, [CIPHERTEXT, OPEN_AGAIN, PLAINTEXT], 7) == [OPEN_AGAIN, PLAINTEXT]
  {
    hide Route;
    assert [OPEN_AGAIN, PLAINTEXT][..1] == [OPEN_AGAIN] && [OPEN_AGAIN][..0] == [];
    assert [CIPHERTEXT, OPEN_AGAIN, PLAINTEXT][..2] == [CIPHERTEXT, OPEN_AGAIN];
    assert [CIPHERTEXT, OPEN_AGAIN][..1] == [CIPHERTEXT] && [CIPHERTEXT][..0] == [];
    assert Run(env, s, []) == s && Visible(env, s, [], 7) == [];
    assert Run(env, s, [CIPHERTEXT]) == Route(env, s, CIPHERTEXT) &&
           Run(env, s, [OPEN_AGAIN]) == Route(env, s, OPEN_AGAIN);
    assert Run(env, s, [CIPHERTEXT, OPEN_AGAIN]) == Route(env, Route(env, s, CIPHERTEXT), OPEN_AGAIN);
    assert Visible(env, s, [OPEN_AGAIN], 7) == [OPEN_AGAIN];
    if IsTls(s.t, 7) {
      assert Visible(env, s, [CIPHERTEXT], 7) == [];
      assert Visible(env, s, [CIPHERTEXT, OPEN_AGAIN], 7) == [OPEN_AGAIN];
    }
  }

  /** A repeated OPEN compares the socket's sequence numbers, which the ciphertext moves:
      from a state that the agent reaches, two runs that differ only in the ciphertext
      before it need not emit the same. */
  lemma RepeatedOpenSeesCiphertext()
    ensures var env, s := FlipEnv(), Encrypted();
            var ra, rb := [OPEN_AGAIN, PLAINTEXT], [CIPHERTEXT, OPEN_AGAIN, PLAINTEXT];
            && EnvOk(env) && PipeOk(s) && IsTls(s.t, 7) && Visible(env, s, ra, 7) == Visible(env, s, rb, 7)
            && Run(env, s, ra).log != Run(env, s, rb).log
  {
    hide RemoveFrom, FeedDecrypted, EnvOk, PipeOk, Visible, Run, Encrypted;
    var env, s := FlipEnv(), Encrypted();
    FlipOpsValid();
    EncryptedWaits();
    WithCiphertext(env, s);
    var a := Route(env, s, OPEN_AGAIN);
    assert a.t.conns[7] == Seen(s.t.conns[7], 4, 0) && Gap(4, 2) == 1 && a.log == s.log;
    PlaintextOnce(a);
    var b := Route(env, s, CIPHERTEXT);
    assert b.t.conns[7].lastSeq == 3 && b.log == s.log;
    var b1 := Route(env, b, OPEN_AGAIN);
    assert b1.t.conns[7] == Seen(b.t.conns[7], 4, 0) && Gap(4, 3) == 0 && b1.log == s.log;
    PlaintextOnce(b1);
  }
}
