/**
 The counters of src/agent/reassembly.c: messages and resynchronisations are counted as the
 sink hears of them, and trouble exactly where it happens.
 */
module CounterTheorems {
  import opened Framing
  import opened ChunkLayer
  import opened Connections
  import opened Options
  import opened Pipeline
  import opened Assembly

  // ---- the framer's counters ------------------------------------------------

  /** How many messages, truncated messages and resynchronisations the sink heard of. */
  function Messages(out: seq<Event>): nat
  {
    if out == [] then 0 else Messages(out[..|out| - 1]) + if out[|out| - 1].Emitted? then 1 else 0
  }

  function Truncated(out: seq<Event>): nat
  {
    if out == [] then 0
    else Truncated(out[..|out| - 1]) + if out[|out| - 1].Emitted? && out[|out| - 1].msg.trunc then 1 else 0
  }

  function Resyncs(out: seq<Event>): nat
  {
    if out == [] then 0 else Resyncs(out[..|out| - 1]) + if out[|out| - 1].Resynced? then 1 else 0
  }

  /** The counters went up by what was added to the log. */
  ghost predicate InStep(base: Stats, s: Framer)
  {
    && s.st.msgs == base.msgs + Messages(s.out) && s.st.msgsTrunc == base.msgsTrunc + Truncated(s.out)
    && s.st.resyncs == base.resyncs + Resyncs(s.out)
  }

  lemma OneMoreEvent(out: seq<Event>, e: Event)
    ensures Messages(out + [e]) == Messages(out) + if e.Emitted? then 1 else 0
    ensures Truncated(out + [e]) == Truncated(out) + if e.Emitted? && e.msg.trunc then 1 else 0
    ensures Resyncs(out + [e]) == Resyncs(out) + if e.Resynced? then 1 else 0
  {
    assert (out + [e])[..|out|] == out;
  }

  lemma EmitInStep(ops: Ops, dir: Dir, s: Framer, body: seq<Byte>, base: Stats)
    requires InStep(base, s)
    ensures InStep(base, Emit(ops, dir, s, body))
  {
    OneMoreEvent(s.out, Emitted(dir, MessageOf(ops, dir, s, body)));
  }

  lemma CloseBodyInStep(ops: Ops, dir: Dir, s: Framer, body: seq<Byte>, skip: nat, eb: bool, base: Stats)
    requires InStep(base, s)
    ensures InStep(base, CloseBody(ops, dir, s, body, skip, eb).s)
  {
    hide Emit, Messages, Truncated, Resyncs;
    EmitInStep(ops, dir, s, body, base);
  }

  lemma EndHeaderInStep(ops: Ops, dir: Dir, s: Framer, hdr: seq<Byte>, eb: bool, base: Stats)
    requires InStep(base, s)
    ensures InStep(base, EndHeader(ops, dir, s, hdr, eb).s)
  {
    hide Emit, Messages, Truncated, Resyncs;
    match ops.parseHdr(s.ctx, dir, s.f.h, hdr)
    case None =>
    case Some(h) => EmitInStep(ops, dir, s.(f := s.f.(h := h, hdr := hdr)), s.f.buf, base);
  }

  lemma ResyncInStep(ops: Ops, dir: Dir, s: Framer, base: Stats)
    requires InStep(base, s)
    ensures InStep(base, DoResync(ops, dir, s))
  {
    OneMoreEvent(s.out, Resynced(dir));
  }

  lemma StepInStep(ops: Ops, dir: Dir, s: Framer, b: Byte, ts: nat, eb: bool, base: Stats)
    requires InStep(base, s)
    ensures InStep(base, Step(ops, dir, s, b, ts, eb).s)
  {
    hide CloseBody, EndHeader, DoResync, Messages, Truncated, Resyncs;
    match s.f.st
    case HEADER => EndHeaderInStep(ops, dir, s.(f := Stamp(s.f, ts)), s.f.hdr + [b], eb, base);
    case SKIP =>
    case DIRTY => ResyncInStep(ops, dir, s.(f := s.f.(matched := ops.scan(s.ctx, dir, s.f.matched, b).0)), base);
    case BODY =>
      CloseBodyInStep(ops, dir, s, s.f.buf, s.f.h.bodyLen, eb, base);
      var body := s.f.buf + [b];
      CloseBodyInStep(ops, dir, s, body, if |body| < s.f.h.bodyLen then s.f.h.bodyLen - |body| else 0, eb, base);
  }

  lemma {:induction false} FeedInStep(ops: Ops, dir: Dir, s: Framer, p: seq<Byte>, ts: nat, eb: bool, base: Stats)
    requires InStep(base, s)
    ensures InStep(base, FeedFrom(ops, dir, s, p, ts, eb).s)
    decreases |p|
  {
    hide Step, InStep;
    if p != [] {
      StepInStep(ops, dir, s, p[0], ts, eb, base);
      var r := Step(ops, dir, s, p[0], ts, eb);
      if !r.cut { FeedInStep(ops, dir, r.s, p[1..], ts, eb, base); }
    }
  }

  lemma TurnInStep(ops: Ops, dir: Dir, s: Framer, n: nat, eb: bool, base: Stats)
    requires InStep(base, s)
    ensures InStep(base, HoleTurn(ops, dir, s, n, eb).s)
  {
    hide CloseBody, Messages, Truncated, Resyncs;
    CloseBodyInStep(ops, dir, s, s.f.buf, ToBodyEnd(s.f) - Min(ToBodyEnd(s.f), n), eb, base);
  }

  lemma {:induction false} HoleInStep(ops: Ops, dir: Dir, s: Framer, n: nat, eb: bool, base: Stats)
    requires InStep(base, s)
    ensures InStep(base, HoleFrom(ops, dir, s, n, eb))
    decreases n
  {
    hide HoleTurn, InStep;
    if n > 0 {
      TurnInStep(ops, dir, s, n, eb, base);
      var t := HoleTurn(ops, dir, s, n, eb);
      if !(t.stop || t.take == 0 || t.take > n) { HoleInStep(ops, dir, t.s, n - t.take, eb, base); }
    }
  }

  lemma WholeHoleInStep(ops: Ops, dir: Dir, s: Framer, n: nat, base: Stats)
    requires InStep(base, s)
    ensures InStep(base, Hole(ops, dir, s, n))
  {
    hide HoleFrom, Messages, Truncated, Resyncs;
    HoleInStep(ops, dir, s.(st := s.st.(holes := s.st.holes + 1, holeBytes := s.st.holeBytes + n)), n, s.ctx.Blind(),
               base);
  }

  lemma DataInStep(ops: Ops, dir: Dir, s: Framer, call: Call, ev: DataEvent, base: Stats)
    requires InStep(base, s)
    ensures InStep(base, ReasmData(ops, dir, s, call, ev))
  {
    hide Hole, FeedFrom, DoResync, Messages, Truncated, Resyncs;
    var plan := PlanOf(call, ev);
    WholeHoleInStep(ops, dir, s, plan.tail, base);
    var s1 := Hole(ops, dir, s, plan.tail);
    WholeHoleInStep(ops, dir, s1, plan.gap, base);
    var s2 := if plan.anomaly then Anomaly(s1) else Hole(ops, dir, s1, plan.gap);
    ResyncInStep(ops, dir, s2, base);
    var s3 := BeforeBytes(ops, dir, s, call, ev);
    FeedInStep(ops, dir, s3, ev.payload, ev.ts, s3.ctx.Blind(), base);
  }

  lemma {:induction false} CountsAdd(a: seq<Event>, b: seq<Event>)
    ensures Messages(a + b) == Messages(a) + Messages(b) && Truncated(a + b) == Truncated(a) + Truncated(b)
    ensures Resyncs(a + b) == Resyncs(a) + Resyncs(b)
    decreases |b|
  {
    if b == [] {
      assert a + b == a;
    } else {
      var init, e := b[..|b| - 1], b[|b| - 1];
      CountsAdd(a, init);
      OneMoreEvent(a + init, e);
      assert a + b == a + init + [e];
    }
  }

  /** The counters are the numbers of what the sink heard. */
  ghost predicate PipeCounts(s: Pipe)
  {
    && s.st.msgs == Messages(Events(s.log)) && s.st.msgsTrunc == Truncated(Events(s.log))
    && s.st.resyncs == Resyncs(Events(s.log))
  }

  lemma FeedConnCounts(s: Pipe, x: nat, dir: Dir, ev: DataEvent)
    requires x in s.t.conns && PipeCounts(s)
    ensures PipeCounts(FeedConn(s, x, dir, ev))
  {
    hide ReasmData, Messages, Truncated, Resyncs, ReasmCall;
    var c := s.t.conns[x];
    NothingCounted();
    DataInStep(c.ops, dir, FramerOf(c, dir, s.st), c.In(dir).call, ev, s.st);
    EventsLabelled(s.log, x, Fed(c, dir, ev, s.st).out);
    CountsAdd(Events(s.log), Fed(c, dir, ev, s.st).out);
  }

  lemma NothingCounted()
    ensures Messages([]) == Truncated([]) == Resyncs([]) == 0
  {
  }

  lemma SameCounts(s: Pipe, u: Pipe)
    requires PipeCounts(s) && u.log == s.log && u.st == s.st
    ensures PipeCounts(u)
  {
  }

  lemma RouteCounts(env: Env, s: Pipe, i: Input)
    requires PipeCounts(s)
    ensures PipeCounts(Route(env, s, i))
  {
    hide PipeCounts, FeedConn, GoTls, Open, Close, Sweep, Data, DataDecrypted, NoteTlsDrop;
    if i.Chunk? && i.ev.decrypted {
      var t := DataDecrypted(s.t, i.cookie, i.seqNo, i.ev.ts, env.dflt);
      var u := s.(t := if IsTls(t, i.cookie) then t else GoTls(t, i.cookie, true));
      SameCounts(s, u);
      FeedConnCounts(u, i.cookie, i.dir, i.ev);
    } else if i.Chunk? && !IsTls(s.t, i.cookie) {
      var u := s.(t := Data(s.t, i.cookie, i.seqNo, i.ev.ts, env.dflt));
      SameCounts(s, u);
      FeedConnCounts(u, i.cookie, i.dir, i.ev);
      SameCounts(FeedConn(u, i.cookie, i.dir, i.ev), Route(env, s, i));
    } else {
      SameCounts(s, Route(env, s, i));
    }
  }

  /** Over every run, the counters of messages, truncated messages and resynchronisations
      are the numbers of those the sink heard of. */
  lemma {:induction false} CountersAreHeard(env: Env, max: nat, idle: nat, run: seq<Input>)
    ensures PipeCounts(Run(env, Start(max, idle), run))
    decreases |run|
  {
    hide Route;
    if run != [] {
      CountersAreHeard(env, max, idle, run[..|run| - 1]);
      RouteCounts(env, Run(env, Start(max, idle), run[..|run| - 1]), run[|run| - 1]);
    }
  }

  // ---- trouble --------------------------------------------------------------

  function One(b: bool): nat { if b then 1 else 0 }

  /** The counters that bytes do not move. */
  predicate SameHoles(a: Stats, b: Stats)
  {
    b.holes == a.holes && b.holeBytes == a.holeBytes && b.hdrHoles == a.hdrHoles && b.offAnomalies == a.offAnomalies
  }

  /** Of a chunk that began with framing on, or off as `eb` says: a cut that leaves the
      direction DIRTY counts as a rejected header, one that leaves a connection encrypted as
      a TLS connection, and nothing else counts. */
  predicate TroubleOf(s: Framer, r: Stepped, eb: bool)
  {
    && SameHoles(s.st, r.s.st)
    && r.s.st.badLen == s.st.badLen + One(r.cut && r.s.f.st.DIRTY?)
    && r.s.st.tlsConns == s.st.tlsConns + One(r.cut && !r.s.f.st.DIRTY? && r.s.ctx.tls)
    && (r.cut && !r.s.f.st.DIRTY? ==> !eb && r.s.ctx.Blind())
    && (!r.cut && !eb && !s.ctx.Blind() ==> !r.s.ctx.Blind())
  }

  lemma CloseBodyTrouble(ops: Ops, dir: Dir, s: Framer, body: seq<Byte>, skip: nat, eb: bool)
    ensures var r := CloseBody(ops, dir, s, body, skip, eb); TroubleOf(s, r, eb) && !r.s.f.st.DIRTY?
  {
  }

  lemma EndHeaderTrouble(ops: Ops, dir: Dir, s: Framer, hdr: seq<Byte>, eb: bool)
    ensures TroubleOf(s, EndHeader(ops, dir, s, hdr, eb), eb)
  {
  }

  lemma StepTrouble(ops: Ops, dir: Dir, s: Framer, b: Byte, ts: nat, eb: bool)
    ensures TroubleOf(s, Step(ops, dir, s, b, ts, eb), eb)
  {
    hide CloseBody, EndHeader;
    match s.f.st
    case HEADER => EndHeaderTrouble(ops, dir, s.(f := Stamp(s.f, ts)), s.f.hdr + [b], eb);
    case SKIP =>
    case DIRTY =>
    case BODY =>
      CloseBodyTrouble(ops, dir, s, s.f.buf, s.f.h.bodyLen, eb);
      var body := s.f.buf + [b];
      CloseBodyTrouble(ops, dir, s, body, if |body| < s.f.h.bodyLen then s.f.h.bodyLen - |body| else 0, eb);
  }

  /** A chunk: every counter of trouble, whatever its bytes. */
  lemma {:induction false} FeedTrouble(ops: Ops, dir: Dir, s: Framer, p: seq<Byte>, ts: nat, eb: bool)
    ensures TroubleOf(s, FeedFrom(ops, dir, s, p, ts, eb), eb)
    decreases |p|
  {
    hide Step;
    if p != [] {
      StepTrouble(ops, dir, s, p[0], ts, eb);
      var r := Step(ops, dir, s, p[0], ts, eb);
      if !r.cut { FeedTrouble(ops, dir, r.s, p[1..], ts, eb); }
    }
  }

  /** A hole: counted once with its size, unless the direction was DIRTY already; and once
      more as a header hole if it leaves the direction DIRTY. */
  predicate HoleCounted(s: Framer, r: Framer, n: nat)
  {
    var seen := n > 0 && !s.f.st.DIRTY?;
    && r.st.holes == s.st.holes + One(seen) && r.st.holeBytes == s.st.holeBytes + (if seen then n else 0)
    && r.st.hdrHoles == s.st.hdrHoles + One(seen && r.f.st.DIRTY?)
    && r.st.badLen == s.st.badLen && r.st.offAnomalies == s.st.offAnomalies
  }

  lemma TurnTrouble(ops: Ops, dir: Dir, s: Framer, n: nat, eb: bool)
    requires !s.f.st.DIRTY?
    ensures var t := HoleTurn(ops, dir, s, n, eb);
            && t.s.st.holes == s.st.holes && t.s.st.holeBytes == s.st.holeBytes
            && t.s.st.hdrHoles == s.st.hdrHoles + One(t.s.f.st.DIRTY?) && (t.s.f.st.DIRTY? ==> t.stop)
            && t.s.st.badLen == s.st.badLen && t.s.st.offAnomalies == s.st.offAnomalies
  {
    hide CloseBody;
    CloseBodyTrouble(ops, dir, s, s.f.buf, ToBodyEnd(s.f) - Min(ToBodyEnd(s.f), n), eb);
  }

  lemma {:induction false} HoleFromTrouble(ops: Ops, dir: Dir, s: Framer, n: nat, eb: bool)
    requires !s.f.st.DIRTY?
    ensures var r := HoleFrom(ops, dir, s, n, eb);
            && r.st.holes == s.st.holes && r.st.holeBytes == s.st.holeBytes
            && r.st.hdrHoles == s.st.hdrHoles + One(r.f.st.DIRTY?)
            && r.st.badLen == s.st.badLen && r.st.offAnomalies == s.st.offAnomalies
    decreases n
  {
    hide HoleTurn;
    if n > 0 {
      TurnTrouble(ops, dir, s, n, eb);
      var t := HoleTurn(ops, dir, s, n, eb);
      if !(t.stop || t.take == 0 || t.take > n) { HoleFromTrouble(ops, dir, t.s, n - t.take, eb); }
    }
  }

  lemma HoleTrouble(ops: Ops, dir: Dir, s: Framer, n: nat)
    ensures HoleCounted(s, Hole(ops, dir, s, n), n)
  {
    hide HoleFrom;
    if n > 0 && !s.f.st.DIRTY? {
      HoleFromTrouble(ops, dir, s.(st := s.st.(holes := s.st.holes + 1, holeBytes := s.st.holeBytes + n)), n,
                      s.ctx.Blind());
    }
  }

  /** An event that does not fit what is known of its call: it reaches beyond its total, or it
      goes on with a call of another total or at a position that was passed. */
  predicate Contradicts(call: Call, ev: DataEvent)
  {
    || ev.off + |ev.payload| > ev.total
    || (ev.off > 0 && call.total > 0 && (ev.total != call.total || ev.off < call.pos))
  }

  /** off_anomalies counts an event exactly if it is framed at all, contradicts its call, and
      finds its direction not waiting for a boundary once the tail of the call before it is
      accounted for. */
  lemma AnomalyIff(ops: Ops, dir: Dir, s: Framer, call: Call, ev: DataEvent)
    ensures var before := Hole(ops, dir, s, if ev.off == 0 then call.Pending() else 0);
            ReasmData(ops, dir, s, call, ev).st.offAnomalies ==
            s.st.offAnomalies + One(!Discards(s.ctx, ev) && Contradicts(call, ev) && !before.f.st.DIRTY?)
  {
    hide Hole, FeedFrom;
    var plan := PlanOf(call, ev);
    HoleTrouble(ops, dir, s, plan.tail);
    var before := Hole(ops, dir, s, plan.tail);
    HoleTrouble(ops, dir, before, plan.gap);
    var s3 := BeforeBytes(ops, dir, s, call, ev);
    FeedTrouble(ops, dir, s3, ev.payload, ev.ts, s3.ctx.Blind());
  }

  /** And then its bytes meet a direction that waits for a boundary, or one that a boundary
      at this very event has just resynchronised. */
  lemma AnomalyWaits(ops: Ops, dir: Dir, s: Framer, call: Call, ev: DataEvent)
    requires Contradicts(call, ev)
    ensures var b := BeforeBytes(ops, dir, s, call, ev);
            b.f.st.DIRTY? || (b.out != [] && b.out[|b.out| - 1] == Resynced(dir) && b.f.st.HEADER?)
  {
    hide Hole;
  }
}
