/**
 What src/agent/pipeline.c hands on: the sink hears of a connection exactly what its own
 events make of it, whatever else is on the ring.
 */
module RouterTheorems {
  import opened Framing
  import opened ChunkLayer
  import opened Connections
  import opened Options
  import opened Pipeline
  import opened Sequences
  import opened Assembly
  import opened BoundaryTheorems
  import opened EndToEnd
  import Wire
  import KernelEmitter

  // ---- the counters do not matter -------------------------------------------

  lemma {:induction false} PlayTwins(ops: Ops, dir: Dir, a: Framer, b: Framer, xs: seq<Primitive>)
    requires Wire.Twins(a, b)
    ensures Wire.Twins(Play(ops, dir, a, xs), Play(ops, dir, b, xs))
    decreases |xs|
  {
    hide Do, Wire.Twins;
    if xs != [] {
      var init := xs[..|xs| - 1];
      PlayTwins(ops, dir, a, b, init);
      Wire.DoTwins(ops, dir, Play(ops, dir, a, init), Play(ops, dir, b, init), xs[|xs| - 1]);
    }
  }

  /** lk_reasm_data counts and does not look at the counters. */
  lemma ReasmDataTwins(ops: Ops, dir: Dir, a: Framer, b: Framer, call: Call, ev: DataEvent)
    requires Wire.Twins(a, b)
    ensures Wire.Twins(ReasmData(ops, dir, a, call, ev), ReasmData(ops, dir, b, call, ev))
  {
    if !Discards(a.ctx, ev) {
      hide Play, ReasmData, InputsOf;
      ReasmDataIsPlay(ops, dir, a, call, ev);
      ReasmDataIsPlay(ops, dir, b, call, ev);
      PlayTwins(ops, dir, a, b, InputsOf(call, ev));
    }
  }

  // ---- a connection by itself -----------------------------------------------

  /** A connection seen by itself: its two directions, the highest number of its socket's
      events, and the highest number of its decrypted ones once there was one. */
  datatype Alone = Alone(d: Duplex, last: nat, dec: Option<nat>)

  /** Both directions wait for a boundary. */
  function Unsure(d: Duplex): Duplex { d.(send := Dirtying(d.send), recv := Dirtying(d.recv)) }

  function Received(ops: Ops, d: Duplex, i: Input): Duplex
    requires i.Chunk?
  {
    d.With(i.dir, Receive(ops, i.dir, d.Side(i.dir), i.ev))
  }

  /** The number of an event: a jump makes both directions wait for a boundary. Decrypted
      events are numbered by themselves, and the first has nothing to be compared with. */
  function Noticing(a: Alone, i: Input): Alone
    requires !i.Sweeping?
  {
    if i.Chunk? && i.ev.decrypted then
      a.(d := if a.dec.Some? && i.seqNo > a.dec.value + 1 then Unsure(a.d) else a.d,
         dec := Some(if a.dec.Some? && a.dec.value > i.seqNo then a.dec.value else i.seqNo))
    else
      a.(d := if i.seqNo > a.last + 1 then Unsure(a.d) else a.d, last := if i.seqNo > a.last then i.seqNo else a.last)
  }

  /** One of its own events: its number, and its data for the framer of its direction. The
      socket's data of an encrypted connection only moves the number, and no jump counts. */
  function Hear(ops: Ops, a: Alone, i: Input): Alone
    requires !i.Sweeping?
  {
    if i.Chunk? && a.d.ctx.tls && !i.ev.decrypted then a.(last := if i.seqNo > a.last then i.seqNo else a.last)
    else if i.Chunk? then
      var b := Noticing(a, i);
      b.(d := Received(ops, b.d, i))
    else Noticing(a, i)
  }

  function HearAll(ops: Ops, a: Alone, run: seq<Input>, x: nat): Alone
  {
    if run == [] then a
    else
      var b, i := HearAll(ops, a, run[..|run| - 1], x), run[|run| - 1];
      if About(i, x) then Hear(ops, b, i) else b
  }

  /** What the sink heard of a connection, in order. */
  function Heard(log: seq<Emission>, x: nat): seq<Event>
  {
    if log == [] then []
    else Heard(log[..|log| - 1], x) + if log[|log| - 1].cookie == x then [log[|log| - 1].ev] else []
  }

  lemma {:induction false} HeardMore(log: seq<Emission>, y: nat, out: seq<Event>, x: nat)
    ensures Heard(log + Labelled(y, out), x) == Heard(log, x) + if x == y then out else []
    decreases |out|
  {
    var more := Labelled(y, out);
    if out == [] {
      assert log + more == log;
    } else {
      var init := out[..|out| - 1];
      HeardMore(log, y, init, x);
      assert out == init + [out[|out| - 1]];
      assert (log + more)[..|log + more| - 1] == log + Labelled(y, init);
    }
  }

  /** The entry of the table and the connection by itself agree. */
  ghost predicate Matches(c: Conn, ops: Ops, a: Alone)
  {
    && c.ops == ops && c.ctx == a.d.ctx && c.send == a.d.send && c.recv == a.d.recv && c.lastSeq == a.last
    && c.tlsSeen == a.dec.Some? && (a.dec.Some? ==> c.tlsLastSeq == a.dec.value)
  }

  lemma SeenMatches(c: Conn, ops: Ops, a: Alone, i: Input, ts: nat)
    requires Matches(c, ops, a) && !i.Sweeping?
    ensures Matches(if i.Chunk? && i.ev.decrypted then SeenTls(c, i.seqNo, ts) else Seen(c, i.seqNo, ts), ops,
                    Noticing(a, i))
  {
  }

  /** Data in the table is data by itself, with other counters and behind another log. */
  lemma FedMatches(c: Conn, ops: Ops, a: Alone, i: Input, st: Stats)
    requires Matches(c, ops, a) && i.Chunk?
    ensures var d := Received(ops, a.d, i);
            Matches(Taken(c, i.dir, i.ev, st), ops, a.(d := d)) && d.out == a.d.out + Fed(c, i.dir, i.ev, st).out
  {
    hide ReasmData, PlanOf;
    var f := FramerOf(c, i.dir, st);
    assert Behind(f, a.d.out).out == a.d.out;
    ReasmDataBehind(ops, i.dir, f, c.In(i.dir).call, i.ev, a.d.out);
    ReasmDataTwins(ops, i.dir, Behind(f, a.d.out), a.d.Side(i.dir).s, c.In(i.dir).call, i.ev);
  }

  /** Data of a known connection that is framed and does not turn it into an encrypted one. */
  lemma ChunkOfKnown(env: Env, s: Pipe, i: Input)
    requires i.Chunk? && i.cookie in s.t.conns && IsTls(s.t, i.cookie) == i.ev.decrypted
    requires IsTls(Route(env, s, i).t, i.cookie) == IsTls(s.t, i.cookie)
    ensures var (c, n, ts) := (s.t.conns[i.cookie], i.seqNo, i.ev.ts);
            var seen := if i.ev.decrypted then SeenTls(c, n, ts) else Seen(c, n, ts);
            && i.cookie in Route(env, s, i).t.conns
            && Route(env, s, i).t.conns[i.cookie] == Taken(seen, i.dir, i.ev, s.st)
            && Route(env, s, i).log == s.log + Labelled(i.cookie, Fed(seen, i.dir, i.ev, s.st).out)
  {
    hide Taken, Fed, RemoveFrom, Dirtying;
  }

  /** One of its own events, which leaves the connection in the table and as encrypted as it
      was. */
  lemma RouteHears(env: Env, s: Pipe, i: Input, x: nat, ops: Ops, a: Alone, base: seq<Event>)
    requires x in s.t.conns && Matches(s.t.conns[x], ops, a) && Heard(s.log, x) == base + a.d.out && About(i, x)
    requires EnvOk(env) && PipeOk(s) && x in Route(env, s, i).t.conns && IsTls(Route(env, s, i).t, x) == IsTls(s.t, x)
    ensures Matches(Route(env, s, i).t.conns[x], ops, Hear(ops, a, i))
    ensures Heard(Route(env, s, i).log, x) == base + Hear(ops, a, i).d.out
  {
    hide EnvOk, PipeOk, Heard, Taken, Fed, FeedRaw, FeedDecrypted, Seen, SeenTls, RemoveFrom, Received;
    if i.Chunk? && IsTls(s.t, x) == i.ev.decrypted {
      ChunkHears(env, s, i, ops, a, base);
    } else if i.Chunk? && i.ev.decrypted {
      FeedDecryptedOk(env, s, x, i.seqNo, i.dir, i.ev);
    } else if i.Opened? {
      SeenMatches(s.t.conns[x], ops, a, i, i.ts);
    }
  }

  lemma ChunkHears(env: Env, s: Pipe, i: Input, ops: Ops, a: Alone, base: seq<Event>)
    requires i.Chunk? && i.cookie in s.t.conns && IsTls(s.t, i.cookie) == i.ev.decrypted
    requires Matches(s.t.conns[i.cookie], ops, a) && Heard(s.log, i.cookie) == base + a.d.out
    requires IsTls(Route(env, s, i).t, i.cookie) == IsTls(s.t, i.cookie)
    ensures i.cookie in Route(env, s, i).t.conns
    ensures Matches(Route(env, s, i).t.conns[i.cookie], ops, Hear(ops, a, i))
    ensures Heard(Route(env, s, i).log, i.cookie) == base + Hear(ops, a, i).d.out
  {
    assert a.d.ctx.tls == i.ev.decrypted;
    hide Heard, Taken, Fed, Route, Matches, Seen, SeenTls, Received;
    var (x, c) := (i.cookie, s.t.conns[i.cookie]);
    ChunkOfKnown(env, s, i);
    var seen := if i.ev.decrypted then SeenTls(c, i.seqNo, i.ev.ts) else Seen(c, i.seqNo, i.ev.ts);
    SeenMatches(c, ops, a, i, i.ev.ts);
    FedMatches(seen, ops, Noticing(a, i), i, s.st);
    HeardMore(s.log, x, Fed(seen, i.dir, i.ev, s.st).out, x);
    Regroup(base, a.d.out, Fed(seen, i.dir, i.ev, s.st).out);
  }

  /** An event about another connection is not heard here. */
  lemma RouteSilent(env: Env, s: Pipe, i: Input, x: nat)
    requires !About(i, x)
    ensures Heard(Route(env, s, i).log, x) == Heard(s.log, x)
  {
    hide Heard, Fed, Taken, Open, Close, Sweep, Data, DataDecrypted, GoTls, NoteTlsDrop;
    if i.Chunk? {
      forall out: seq<Event>
        ensures Heard(s.log + Labelled(i.cookie, out), x) == Heard(s.log, x)
      {
        HeardMore(s.log, i.cookie, out, x);
      }
    }
  }

  /** The sink hears of a connection exactly what its own events make of it by itself, and
      its entry is left as they leave it, for as long as it stays in the table and as
      encrypted as it is. The events of other connections, sweeps and evictions between
      them have no influence. */
  lemma {:induction false} OnlyItsOwnEvents(env: Env, s: Pipe, run: seq<Input>, x: nat, ops: Ops, a: Alone,
                                            base: seq<Event>)
    requires EnvOk(env) && PipeOk(s) && Stays(env, s, run, x)
    requires x in s.t.conns && Matches(s.t.conns[x], ops, a) && Heard(s.log, x) == base + a.d.out
    ensures Matches(Run(env, s, run).t.conns[x], ops, HearAll(ops, a, run, x))
    ensures Heard(Run(env, s, run).log, x) == base + HearAll(ops, a, run, x).d.out
    decreases |run|
  {
    hide EnvOk, PipeOk, Route, Heard, Hear, Matches;
    if run != [] {
      var p, i := run[..|run| - 1], run[|run| - 1];
      var m := Run(env, s, p);
      OnlyItsOwnEvents(env, s, p, x, ops, a, base);
      RunOk(env, s, p);
      assert x in m.t.conns && IsTls(m.t, x) == IsTls(s.t, x) by { StaysThere(env, s, p, x); }
      if About(i, x) {
        RouteHears(env, m, i, x, ops, HearAll(ops, a, p, x), base);
      } else {
        RouteSilent(env, m, i, x);
        Elsewhere(env, m, i, x);
      }
    }
  }

  lemma StaysThere(env: Env, s: Pipe, run: seq<Input>, x: nat)
    requires Stays(env, s, run, x)
    ensures x in Run(env, s, run).t.conns && IsTls(Run(env, s, run).t, x) == IsTls(s.t, x)
  {
  }

  // ---- from OPEN on ---------------------------------------------------------

  /** From a connection's OPEN on: the sink hears what its own events make of two clean
      directions of the protocol of its port. */
  lemma FromOpenOn(env: Env, s: Pipe, open: Input, run: seq<Input>)
    requires EnvOk(env) && PipeOk(s) && open.Opened? && open.cookie !in s.t.conns && !open.synthetic
    requires Stays(env, Route(env, s, open), run, open.cookie)
    ensures var clean := Alone(Quietly(Ctx(0, false, false, false), ZERO_STATS), open.seqNo, None);
            var own := HearAll(ProtoOf(env, open.port), clean, run, open.cookie);
            Heard(Run(env, Route(env, s, open), run).log, open.cookie) == Heard(s.log, open.cookie) + own.d.out
  {
    var (x, ops) := (open.cookie, ProtoOf(env, open.port));
    var a := Alone(Quietly(Ctx(0, false, false, false), ZERO_STATS), open.seqNo, None);
    OpenBinds(env, s, open);
    RouteOk(env, s, open);
    var c := Route(env, s, open).t.conns[x];
    assert c.send == c.In(Send) && c.recv == c.In(Recv);
    assert Route(env, s, open).log == s.log;
    hide EnvOk, PipeOk, Route, Heard, HearAll, Stays;
    assert Heard(s.log, x) == Heard(s.log, x) + a.d.out;
    OnlyItsOwnEvents(env, Route(env, s, open), run, x, ops, a, Heard(s.log, x));
  }

  /** A connection that announces TLS starts over, both directions at a header. What its
      events make of it from there on, OnlyItsOwnEvents says. */
  lemma EncryptedStartsOver(env: Env, s: Pipe, i: Input)
    requires i.Chunk? && !i.ev.decrypted && i.cookie in s.t.conns && !IsTls(s.t, i.cookie)
    requires IsTls(Route(env, s, i).t, i.cookie)
    ensures var c := Route(env, s, i).t.conns[i.cookie];
            c.send == c.recv == FRESH_FLOW && c.ctx.tls && c.ops == s.t.conns[i.cookie].ops
  {
    hide Taken, Fed, RemoveFrom;
    TakenOps(Data(s.t, i.cookie, i.seqNo, i.ev.ts, env.dflt).conns[i.cookie], i.dir, i.ev, s.st);
  }

  lemma TakenOps(c: Conn, dir: Dir, ev: DataEvent, st: Stats)
    ensures Taken(c, dir, ev, st).ops == c.ops
  {
    hide Fed, ReasmCall;
  }

  /** The inputs of a run about a connection. */
  function Own(run: seq<Input>, x: nat): seq<Input>
  {
    if run == [] then []
    else Own(run[..|run| - 1], x) + if About(run[|run| - 1], x) then [run[|run| - 1]] else []
  }

  /** The records of a ring as the router's inputs. */
  function Decoded(x: nat, ring: seq<KernelEmitter.Record>, clock: nat -> nat): seq<Input>
  {
    if ring == [] then []
    else
      var e := ring[|ring| - 1];
      Decoded(x, ring[..|ring| - 1], clock) + [Chunk(x, e.seqNo, e.dir, EventOf(e, clock, false))]
  }

  /** The records are numbered on from `first` without a jump. */
  predicate Numbered(ring: seq<KernelEmitter.Record>, first: nat)
  {
    forall i :: 0 <= i < |ring| ==> ring[i].seqNo == first + 1 + i
  }

  lemma {:induction false} HearOwn(ops: Ops, a: Alone, run: seq<Input>, x: nat)
    ensures HearAll(ops, a, run, x) == HearAll(ops, a, Own(run, x), x)
    decreases |run|
  {
    hide Hear;
    if run != [] {
      HearOwn(ops, a, run[..|run| - 1], x);
      var own, i := Own(run[..|run| - 1], x), run[|run| - 1];
      if About(i, x) {
        assert (own + [i])[..|own|] == own;
      } else {
        assert own + [] == own;
      }
    }
  }

  lemma UnheardIsUnchanged(ops: Ops, d: Duplex, i: Input)
    requires i.Chunk? && d.ctx.tls && !i.ev.decrypted
    ensures Received(ops, d, i) == d
  {
  }

  /** Records without a jump are served as lk_reasm_data serves the ring. */
  lemma {:induction false} NumberedIsServed(ops: Ops, t: Duplex, first: nat, x: nat, ring: seq<KernelEmitter.Record>,
                                            clock: nat -> nat)
    requires Numbered(ring, first)
    ensures HearAll(ops, Alone(t, first, None), Decoded(x, ring, clock), x) ==
            Alone(ServeAll(ops, t, ring, clock, false), first + |ring|, None)
    decreases |ring|
  {
    hide Receive;
    if ring != [] {
      var init, e := ring[..|ring| - 1], ring[|ring| - 1];
      NumberedIsServed(ops, t, first, x, init, clock);
      var i := Chunk(x, e.seqNo, e.dir, EventOf(e, clock, false));
      if ServeAll(ops, t, init, clock, false).ctx.tls {
        UnheardIsUnchanged(ops, ServeAll(ops, t, init, clock, false), i);
      }
      assert Decoded(x, ring, clock) == Decoded(x, init, clock) + [i];
      assert (Decoded(x, init, clock) + [i])[..|Decoded(x, init, clock)|] == Decoded(x, init, clock);
    }
  }

  /** The router at the end of the ring: if the inputs about a connection behind its OPEN are
      the records of an emitter that lost none, the sink hears exactly what lk_reasm_data
      makes of these records on two clean directions, whatever else the ring carried. */
  lemma RouterServesTheRing(env: Env, s: Pipe, open: Input, run: seq<Input>, ring: seq<KernelEmitter.Record>,
                            clock: nat -> nat)
    requires EnvOk(env) && PipeOk(s) && open.Opened? && open.cookie !in s.t.conns && !open.synthetic
    requires Stays(env, Route(env, s, open), run, open.cookie)
    requires Own(run, open.cookie) == Decoded(open.cookie, ring, clock) && Numbered(ring, open.seqNo)
    ensures Heard(Run(env, Route(env, s, open), run).log, open.cookie) ==
            Heard(s.log, open.cookie) +
            ServeAll(ProtoOf(env, open.port), Quietly(Ctx(0, false, false, false), ZERO_STATS), ring, clock, false).out
  {
    hide EnvOk, PipeOk, Route, Heard, HearAll, Stays, ServeAll;
    var (x, ops, t) := (open.cookie, ProtoOf(env, open.port), Quietly(Ctx(0, false, false, false), ZERO_STATS));
    FromOpenOn(env, s, open, run);
    HearOwn(ops, Alone(t, open.seqNo, None), run, x);
    NumberedIsServed(ops, t, open.seqNo, x, ring, clock);
  }
}
