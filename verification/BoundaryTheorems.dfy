/**
 What the dirty state promises (src/agent/conn_table.c, src/agent/reassembly.c,
 src/agent/pipeline.c): after a gap, after a lazy creation and after the adoption of an
 encrypted connection, nothing is emitted before a boundary has been found.
 */
module BoundaryTheorems {
  import opened Framing
  import opened Options
  import opened FramingTheorems
  import opened ChunkLayer
  import EndToEnd
  import Wire
  import opened Sequences
  import opened Connections
  import opened Pipeline
  import opened SequenceTheorems

  /** Nothing was added, or a resynchronisation was added first. */
  predicate FromBoundary(was: seq<Event>, now: seq<Event>, dir: Dir)
  {
    now == was || was + [Resynced(dir)] <= now
  }

  lemma {:induction false} DirtyFeed(ops: Ops, dir: Dir, s: Framer, p: seq<Byte>, ts: nat, eb: bool)
    requires ops.Valid() && Ok(ops, dir, s) && s.f.st.DIRTY?
    ensures var t := FeedFrom(ops, dir, s, p, ts, eb).s;
            FromBoundary(s.out, t.out, dir) && (t.out == s.out ==> t.f.st.DIRTY?)
    decreases |p|
  {
    hide Ops.Valid;
    if p != [] {
      var r := Framing.Step(ops, dir, s, p[0], ts, eb);
      StepKeeps(ops, dir, s, p[0], ts, eb);
      if r.s.f.st.DIRTY? {
        DirtyFeed(ops, dir, r.s, p[1..], ts, eb);
      } else {
        FeedKeeps(ops, dir, r.s, p[1..], ts, eb);
      }
    }
  }

  lemma DirtyBefore(ops: Ops, dir: Dir, s: Framer, call: Call, ev: DataEvent)
    requires s.f.st.DIRTY?
    ensures var t := BeforeBytes(ops, dir, s, call, ev);
            (t.out == s.out && t.f.st.DIRTY?) || t.out == s.out + [Resynced(dir)]
  {
  }

  /** A data event of a dirty direction emits nothing, and leaves it dirty, or resynchronises
      before anything else. */
  lemma DirtyData(ops: Ops, dir: Dir, s: Framer, call: Call, ev: DataEvent)
    requires ops.Valid() && Ok(ops, dir, s) && s.f.st.DIRTY?
    ensures var t := ReasmData(ops, dir, s, call, ev);
            FromBoundary(s.out, t.out, dir) && (t.out == s.out ==> t.f.st.DIRTY?)
  {
    hide BeforeBytes, FeedFrom, Ops.Valid, FrameOk;
    DirtyBefore(ops, dir, s, call, ev);
    BeforeBytesKeeps(ops, dir, s, call, ev);
    var m := BeforeBytes(ops, dir, s, call, ev);
    FeedKeeps(ops, dir, m, ev.payload, ev.ts, m.ctx.Blind());
    if m.f.st.DIRTY? { DirtyFeed(ops, dir, m, ev.payload, ev.ts, m.ctx.Blind()); }
  }

  // ---- one routing step -----------------------------------------------------

  /** The emissions of a connection in one direction. */
  function Of(log: seq<Emission>, x: nat, dir: Dir): seq<Event>
  {
    if log == [] then []
    else
      var e := log[|log| - 1];
      Of(log[..|log| - 1], x, dir) + if e.cookie == x && e.ev.dir == dir then [e.ev] else []
  }

  lemma {:induction false} OfAppend(a: seq<Emission>, b: seq<Emission>, x: nat, dir: Dir)
    ensures Of(a + b, x, dir) == Of(a, x, dir) + Of(b, x, dir)
  {
    if b == [] {
      assert a + b == a;
    } else {
      OfAppend(a, b[..|b| - 1], x, dir);
      assert (a + b)[..|a + b| - 1] == a + b[..|b| - 1];
    }
  }

  /** All events of a framer's log are of its direction. */
  predicate AllOf(out: seq<Event>, dir: Dir) { forall i :: 0 <= i < |out| ==> out[i].dir == dir }

  lemma {:induction false} OfLabelled(y: nat, out: seq<Event>, d: Dir, x: nat, dir: Dir)
    requires AllOf(out, d)
    ensures Of(Labelled(y, out), x, dir) == if x == y && d == dir then out else []
  {
    if out != [] {
      var init, e := out[..|out| - 1], out[|out| - 1];
      OfLabelled(y, init, d, x, dir);
      OfSnoc(Labelled(y, init), Emission(y, e), x, dir);
      assert out == init + [e];
    }
  }

  lemma OfSnoc(log: seq<Emission>, e: Emission, x: nat, dir: Dir)
    ensures Of(log + [e], x, dir) == Of(log, x, dir) + if e.cookie == x && e.ev.dir == dir then [e.ev] else []
  {
    assert (log + [e])[..|log + [e]| - 1] == log;
  }

  lemma CloseDir(ops: Ops, dir: Dir, s: Framer, body: seq<Byte>, skip: nat, eb: bool)
    requires AllOf(s.out, dir)
    ensures AllOf(CloseBody(ops, dir, s, body, skip, eb).s.out, dir)
  {
  }

  lemma StepDir(ops: Ops, dir: Dir, s: Framer, b: Byte, ts: nat, eb: bool)
    requires AllOf(s.out, dir)
    ensures AllOf(Framing.Step(ops, dir, s, b, ts, eb).s.out, dir)
  {
    hide CloseBody;
    if s.f.st.BODY? {
      if s.f.prefixClosed {
        CloseDir(ops, dir, s, s.f.buf, s.f.h.bodyLen, eb);
      } else {
        var body := s.f.buf + [b];
        CloseDir(ops, dir, s, body, if |body| < s.f.h.bodyLen then s.f.h.bodyLen - |body| else 0, eb);
      }
    }
  }

  lemma {:induction false} FeedDir(ops: Ops, dir: Dir, s: Framer, p: seq<Byte>, ts: nat, eb: bool)
    requires AllOf(s.out, dir)
    ensures AllOf(FeedFrom(ops, dir, s, p, ts, eb).s.out, dir)
    decreases |p|
  {
    hide Framing.Step;
    if p != [] {
      var r := Framing.Step(ops, dir, s, p[0], ts, eb);
      StepDir(ops, dir, s, p[0], ts, eb);
      if !r.cut { FeedDir(ops, dir, r.s, p[1..], ts, eb); }
    }
  }

  lemma {:induction false} HoleDir(ops: Ops, dir: Dir, s: Framer, n: nat, eb: bool)
    requires AllOf(s.out, dir)
    ensures AllOf(HoleFrom(ops, dir, s, n, eb).out, dir)
    decreases n
  {
    if n > 0 {
      var t := HoleTurn(ops, dir, s, n, eb);
      assert AllOf(t.s.out, dir);
      if !(t.stop || t.take == 0 || t.take > n) { HoleDir(ops, dir, t.s, n - t.take, eb); }
    }
  }

  lemma HolesDir(ops: Ops, dir: Dir, s: Framer, n: nat)
    requires AllOf(s.out, dir)
    ensures AllOf(Hole(ops, dir, s, n).out, dir)
  {
    hide HoleFrom;
    if n > 0 && !s.f.st.DIRTY? {
      HoleDir(ops, dir, s.(st := s.st.(holes := s.st.holes + 1, holeBytes := s.st.holeBytes + n)), n, s.ctx.Blind());
    }
  }

  lemma DataDir(ops: Ops, dir: Dir, s: Framer, call: Call, ev: DataEvent)
    requires AllOf(s.out, dir)
    ensures AllOf(ReasmData(ops, dir, s, call, ev).out, dir)
  {
    hide Hole, FeedFrom;
    var plan := PlanOf(call, ev);
    HolesDir(ops, dir, s, plan.tail);
    var s1 := Hole(ops, dir, s, plan.tail);
    HolesDir(ops, dir, s1, plan.gap);
    var b := BeforeBytes(ops, dir, s, call, ev);
    FeedDir(ops, dir, b, ev.payload, ev.ts, b.ctx.Blind());
  }

  /** Framing a chunk adds to the log of its own connection and direction only. */
  lemma FeedConnLog(s: Pipe, y: nat, d: Dir, ev: DataEvent, x: nat, dir: Dir)
    requires y in s.t.conns
    ensures Of(FeedConn(s, y, d, ev).log, x, dir) ==
            Of(s.log, x, dir) + if x == y && d == dir then Fed(s.t.conns[y], d, ev, s.st).out else []
  {
    hide ReasmData, Labelled, Of;
    var c := s.t.conns[y];
    DataDir(c.ops, d, FramerOf(c, d, s.st), c.In(d).call, ev);
    var out := Fed(c, d, ev, s.st).out;
    OfAppend(s.log, Labelled(y, out), x, dir);
    OfLabelled(y, out, d, x, dir);
  }

  predicate DirtyIn(t: Table, x: nat, dir: Dir) { x in t.conns && t.conns[x].In(dir).f.st.DIRTY? }

  /** A chunk fed to a dirty direction starts with a boundary or leaves it dirty. */
  lemma FeedConnDirty(s: Pipe, x: nat, dir: Dir, ev: DataEvent)
    requires ConnsOk(s.t.conns) && DirtyIn(s.t, x, dir)
    ensures var r := FeedConn(s, x, dir, ev);
            && FromBoundary(Of(s.log, x, dir), Of(r.log, x, dir), dir)
            && (Of(r.log, x, dir) == Of(s.log, x, dir) ==> DirtyIn(r.t, x, dir))
  {
    hide ReasmData, ReasmCall, Of, FrameOk, Ops.Valid;
    FeedConnLog(s, x, dir, ev, x, dir);
    var c := s.t.conns[x];
    DirtyData(c.ops, dir, FramerOf(c, dir, s.st), c.In(dir).call, ev);
  }

  /** The events after which a direction waits for a boundary: a reported gap, a lazy
      creation, and the adoption of an encrypted connection. */
  predicate Interrupts(t: Table, i: Input)
  {
    i.Chunk? && (i.cookie !in t.conns || LostOf(t, i) > 0 || (i.ev.decrypted && !IsTls(t, i.cookie)))
  }

  lemma TouchedDirty(t: Table, x: nat, n: nat, ts: nat, dir: Dir)
    requires x in t.conns
    ensures Gap(n, t.conns[x].lastSeq) > 0 ==> DirtyIn(Touch(t, x, n, ts), x, dir)
    ensures GapTls(t.conns[x], n) > 0 ==> DirtyIn(TouchTls(t, x, n, ts), x, dir)
  {
    hide RemoveFrom;
  }

  /** What an interrupting event itself carries is emitted only from a boundary on. */
  lemma NothingBeforeABoundary(env: Env, s: Pipe, i: Input)
    requires EnvOk(env) && PipeOk(s) && Interrupts(s.t, i)
    ensures FromBoundary(Of(s.log, i.cookie, i.dir), Of(Route(env, s, i).log, i.cookie, i.dir), i.dir)
  {
    hide TableOk, ConnsOk, Of, FeedConn, Touch, TouchTls, Create;
    var x, n, ev := i.cookie, i.seqNo, i.ev;
    EventConns(s.t, x, n, ev.ts, env.dflt, false);
    OpenOk(s.t, x, n, ev.ts, env.dflt, false);
    if x in s.t.conns { TouchedDirty(s.t, x, n, ev.ts, i.dir); } else { BornDirty(s.t, x, n, ev.ts, env.dflt, i.dir); }
    if ev.decrypted {
      var t := DataDecrypted(s.t, x, n, ev.ts, env.dflt);
      if !IsTls(t, x) { GoTlsOk(t, x, true); }
      var u := if IsTls(t, x) then t else GoTls(t, x, true);
      assert DirtyIn(u, x, i.dir) by { KnownTls(s.t, x, n, ev.ts, env.dflt); }
      FeedConnDirty(s.(t := u), x, i.dir, ev);
    } else if !IsTls(s.t, x) {
      var t := Data(s.t, x, n, ev.ts, env.dflt);
      FeedConnDirty(s.(t := t), x, i.dir, ev);
    }
  }

  lemma BornDirty(t: Table, x: nat, n: nat, ts: nat, ops: Ops, dir: Dir)
    requires x !in t.conns
    ensures DirtyIn(Data(t, x, n, ts, ops), x, dir) && DirtyIn(DataDecrypted(t, x, n, ts, ops), x, dir)
  {
    hide MakeRoom;
  }

  lemma KnownTls(t: Table, x: nat, n: nat, ts: nat, ops: Ops)
    ensures IsTls(DataDecrypted(t, x, n, ts, ops), x) == IsTls(t, x)
  {
    hide MakeRoom, RemoveFrom;
  }

  // ---- runs -----------------------------------------------------------------

  /** An input of another connection, or the other direction, adds nothing to this log. */
  lemma ElsewhereLog(env: Env, s: Pipe, i: Input, x: nat, dir: Dir)
    requires !(i.Chunk? && i.cookie == x && i.dir == dir)
    ensures Of(Route(env, s, i).log, x, dir) == Of(s.log, x, dir)
  {
    hide Of, FeedConn, Data, DataDecrypted, GoTls, NoteTlsDrop, Open, Close, Sweep;
    if i.Chunk? {
      var t := DataDecrypted(s.t, i.cookie, i.seqNo, i.ev.ts, env.dflt);
      FeedConnLog(s.(t := if IsTls(t, i.cookie) then t else GoTls(t, i.cookie, true)), i.cookie, i.dir, i.ev, x, dir);
      FeedConnLog(s.(t := Data(s.t, i.cookie, i.seqNo, i.ev.ts, env.dflt)), i.cookie, i.dir, i.ev, x, dir);
    }
  }

  /** A direction that is dirty stays dirty under every input, or its log goes on with a
      resynchronisation; unless the entry leaves or the connection turns to TLS. */
  lemma RouteDirty(env: Env, s: Pipe, i: Input, x: nat, dir: Dir)
    requires EnvOk(env) && PipeOk(s) && DirtyIn(s.t, x, dir)
    requires x in Route(env, s, i).t.conns && IsTls(Route(env, s, i).t, x) == IsTls(s.t, x)
    ensures var r := Route(env, s, i);
            && FromBoundary(Of(s.log, x, dir), Of(r.log, x, dir), dir)
            && (Of(r.log, x, dir) == Of(s.log, x, dir) ==> DirtyIn(r.t, x, dir))
  {
    hide TableOk, ConnsOk, Of, FeedConn, Sweep, MakeRoom, RemoveFrom;
    if !About(i, x) {
      ElsewhereLog(env, s, i, x, dir);
      Elsewhere(env, s, i, x);
    } else if i.Chunk? {
      ChunkDirty(env, s, i, x, dir);
    }
  }

  lemma ChunkDirty(env: Env, s: Pipe, i: Input, x: nat, dir: Dir)
    requires EnvOk(env) && PipeOk(s) && DirtyIn(s.t, x, dir) && i.Chunk? && i.cookie == x
    requires IsTls(Route(env, s, i).t, x) == IsTls(s.t, x)
    ensures var r := Route(env, s, i);
            && FromBoundary(Of(s.log, x, dir), Of(r.log, x, dir), dir)
            && (Of(r.log, x, dir) == Of(s.log, x, dir) ==> DirtyIn(r.t, x, dir))
  {
    hide TableOk, ConnsOk, Of, FeedConn, RemoveFrom, Create;
    EventConns(s.t, x, i.seqNo, i.ev.ts, env.dflt, false);
    if i.dir != dir { ElsewhereLog(env, s, i, x, dir); }
    if i.ev.decrypted {
      FeedDecryptedOk(env, s, x, i.seqNo, i.dir, i.ev);
      var u := DataDecrypted(s.t, x, i.seqNo, i.ev.ts, env.dflt);
      FeedKeepsDirty(s.(t := u), x, i.dir, i.ev, dir);
    } else if !IsTls(s.t, x) {
      var u := Data(s.t, x, i.seqNo, i.ev.ts, env.dflt);
      FeedKeepsDirty(s.(t := u), x, i.dir, i.ev, dir);
    }
  }

  lemma FeedKeepsDirty(s: Pipe, x: nat, d: Dir, ev: DataEvent, dir: Dir)
    requires ConnsOk(s.t.conns) && DirtyIn(s.t, x, dir)
    ensures var r := FeedConn(s, x, d, ev);
            && FromBoundary(Of(s.log, x, dir), Of(r.log, x, dir), dir)
            && (Of(r.log, x, dir) == Of(s.log, x, dir) ==> DirtyIn(r.t, x, dir))
  {
    hide ConnsOk, Of, Fed, ReasmCall;
    if d == dir { FeedConnDirty(s, x, dir, ev); } else { FeedConnLog(s, x, d, ev, x, dir); }
  }

  /** The entry stays, and does not turn to TLS, at every moment of a run. */
  predicate Stays(env: Env, s: Pipe, run: seq<Input>, x: nat)
  {
    && x in Run(env, s, run).t.conns && IsTls(Run(env, s, run).t, x) == IsTls(s.t, x)
    && (run == [] || Stays(env, s, run[..|run| - 1], x))
  }

  /** From a dirty direction on, over every run in which its connection stays, the first
      thing the sink hears of it is a resynchronisation. */
  lemma {:induction false} FirstIsABoundary(env: Env, s: Pipe, run: seq<Input>, x: nat, dir: Dir)
    requires EnvOk(env) && PipeOk(s) && DirtyIn(s.t, x, dir) && Stays(env, s, run, x)
    ensures var r := Run(env, s, run);
            && FromBoundary(Of(s.log, x, dir), Of(r.log, x, dir), dir)
            && (Of(r.log, x, dir) == Of(s.log, x, dir) ==> DirtyIn(r.t, x, dir))
  {
    hide EnvOk, PipeOk, Of, Route, DirtyIn;
    if run != [] {
      var p := run[..|run| - 1];
      var m := Run(env, s, p);
      FirstIsABoundary(env, s, p, x, dir);
      RunOk(env, s, p);
      if Of(m.log, x, dir) == Of(s.log, x, dir) {
        RouteDirty(env, m, run[|run| - 1], x, dir);
      } else {
        LogGrows(env, m, run[|run| - 1], x, dir);
      }
    }
  }

  /** The log only grows. */
  lemma LogGrows(env: Env, s: Pipe, i: Input, x: nat, dir: Dir)
    ensures Of(s.log, x, dir) <= Of(Route(env, s, i).log, x, dir)
  {
    hide Of, FeedConn, Data, DataDecrypted, GoTls, NoteTlsDrop, Open, Close, Sweep;
    if i.Chunk? {
      var t := DataDecrypted(s.t, i.cookie, i.seqNo, i.ev.ts, env.dflt);
      FeedConnLog(s.(t := if IsTls(t, i.cookie) then t else GoTls(t, i.cookie, true)), i.cookie, i.dir, i.ev, x, dir);
      FeedConnLog(s.(t := Data(s.t, i.cookie, i.seqNo, i.ev.ts, env.dflt)), i.cookie, i.dir, i.ev, x, dir);
    }
  }

  // ---- the decrypted stream starts afresh -----------------------------------

  /** After the flip that a plaintext reply announces, the decrypted calls are framed like
      those of a new connection, whatever was captured of them: the messages are those the
      recursive parser finds on the decrypted wire, and what the plaintext stream had left
      behind plays no part. */
  lemma DecryptedStartsAfresh(c: Conn, dir: Dir, st: Stats, calls: seq<EndToEnd.Reported>, clock: nat -> nat)
    requires c.ops.Valid() && !c.ctx.cancel && !c.ctx.ignore && EndToEnd.AllSound(calls)
    requires var d := Restarted(c.(ctx := c.ctx.(tls := true)), false);
             Wire.WireAccepted(c.ops, dir, d.ctx, NO_HEADER, None, EndToEnd.Settled(calls, clock), true)
    ensures var d := Restarted(c.(ctx := c.ctx.(tls := true)), false);
            var t := EndToEnd.Stream(FramerOf(d, dir, st), d.In(dir).call);
            EndToEnd.ReceiveAll(c.ops, dir, t, EndToEnd.Ring(calls), clock, true).s.out
            == Log(dir, Wire.ParseWire(c.ops, dir, d.ctx, NO_HEADER, None, 0, false, EndToEnd.Settled(calls, clock),
                                       true))
  {
    hide Wire.WireAccepted, Wire.ParseWire, EndToEnd.Settled, EndToEnd.ReceiveAll, Ops.Valid;
    var d := Restarted(c.(ctx := c.ctx.(tls := true)), false);
    EndToEnd.CallsAreParsed(c.ops, dir, d.ctx, st, calls, clock, true);
  }
}
