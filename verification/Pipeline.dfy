/**
 The router of src/agent/pipeline.c over the connection table and the framer: every
 decoded event is one step, and the statements below hold for every run.
 */
module Pipeline {
  import opened Framing
  import opened ChunkLayer
  import opened Sequences
  import opened Connections

  datatype PortProto = PortProto(port: nat, ops: Ops)

  /** The port map and the protocol of connections without a tuple. */
  datatype Env = Env(ports: seq<PortProto>, dflt: Ops)

  /** resolve_proto for a connection with a tuple: the first entry of the port. */
  function ProtoOf(env: Env, port: nat): Ops
    decreases |env.ports|
  {
    if env.ports == [] then env.dflt
    else if env.ports[0].port == port then env.ports[0].ops
    else ProtoOf(Env(env.ports[1..], env.dflt), port)
  }

  /** The decoded events that reach the table, and the periodic sweep. */
  datatype Input =
    | Opened(cookie: nat, seqNo: nat, ts: nat, port: nat, synthetic: bool)
    | Closed(cookie: nat, seqNo: nat, ts: nat)
    | Chunk(cookie: nat, seqNo: nat, dir: Dir, ev: DataEvent)
    | Sweeping(now: nat)

  datatype Emission = Emission(cookie: nat, ev: Event)

  /** The table, everything handed to the sink, and the framer's counters. */
  datatype Pipe = Pipe(t: Table, log: seq<Emission>, st: Stats)

  function Labelled(cookie: nat, out: seq<Event>): seq<Emission>
  {
    if out == [] then [] else Labelled(cookie, out[..|out| - 1]) + [Emission(cookie, out[|out| - 1])]
  }

  /** The framer of one direction, with an empty log. */
  function FramerOf(c: Conn, dir: Dir, st: Stats): Framer { Framer(c.ctx, c.In(dir).f, [], st) }

  function Fed(c: Conn, dir: Dir, ev: DataEvent, st: Stats): Framer
  {
    ReasmData(c.ops, dir, FramerOf(c, dir, st), c.In(dir).call, ev)
  }

  function Taken(c: Conn, dir: Dir, ev: DataEvent, st: Stats): Conn
  {
    var r := Fed(c, dir, ev, st);
    c.(ctx := r.ctx).With(dir, Flow(r.f, ReasmCall(FramerOf(c, dir, st), c.In(dir).call, ev)))
  }

  /** lk_reasm_data on a connection of the table. */
  function FeedConn(s: Pipe, cookie: nat, dir: Dir, ev: DataEvent): (r: Pipe)
    requires cookie in s.t.conns
    ensures cookie in r.t.conns
  {
    var c := s.t.conns[cookie];
    Pipe(s.t.(conns := s.t.conns[cookie := Taken(c, dir, ev, s.st)]),
         s.log + Labelled(cookie, Fed(c, dir, ev, s.st).out), Fed(c, dir, ev, s.st).st)
  }

  /** A connection turned out to be encrypted: flag it, restart its framing, count it. */
  function GoTls(t: Table, cookie: nat, midstream: bool): (r: Table)
    requires cookie in t.conns
    ensures cookie in r.conns
  {
    var c := t.conns[cookie];
    NoteTlsOpen(t.(conns := t.conns[cookie := Restarted(c.(ctx := c.ctx.(tls := true)), midstream)]))
  }

  predicate IsTls(t: Table, cookie: nat) { cookie in t.conns && t.conns[cookie].ctx.tls }

  /** A decrypted event: adopt the connection if it was not known to be encrypted. */
  function FeedDecrypted(env: Env, s: Pipe, cookie: nat, seqNo: nat, dir: Dir, ev: DataEvent): Pipe
  {
    var t := DataDecrypted(s.t, cookie, seqNo, ev.ts, env.dflt);
    FeedConn(s.(t := if IsTls(t, cookie) then t else GoTls(t, cookie, true)), cookie, dir, ev)
  }

  /** A socket event of a connection that is not encrypted, unless it says so. */
  function FeedRaw(env: Env, s: Pipe, cookie: nat, seqNo: nat, dir: Dir, ev: DataEvent): Pipe
  {
    var t := Data(s.t, cookie, seqNo, ev.ts, env.dflt);
    var r := FeedConn(s.(t := t), cookie, dir, ev);
    if !IsTls(t, cookie) && IsTls(r.t, cookie) then r.(t := GoTls(r.t, cookie, false)) else r
  }

  /** lk_pipeline_feed, and the sweep. */
  function Route(env: Env, s: Pipe, i: Input): Pipe
  {
    match i
    case Opened(cookie, seqNo, ts, port, synthetic) =>
      s.(t := Open(s.t, cookie, seqNo, ts, ProtoOf(env, port), synthetic))
    case Closed(cookie, seqNo, ts) => s.(t := Close(s.t, cookie, seqNo, ts))
    case Sweeping(now) => s.(t := Sweep(s.t, now))
    case Chunk(cookie, seqNo, dir, ev) =>
      if IsTls(s.t, cookie) && !ev.decrypted then s.(t := NoteTlsDrop(s.t, cookie, seqNo, ev.ts))
      else if ev.decrypted then FeedDecrypted(env, s, cookie, seqNo, dir, ev)
      else FeedRaw(env, s, cookie, seqNo, dir, ev)
  }

  function Run(env: Env, s: Pipe, run: seq<Input>): Pipe
  {
    if run == [] then s else Route(env, Run(env, s, run[..|run| - 1]), run[|run| - 1])
  }

  function Start(max: nat, idle: nat): Pipe { Pipe(Empty(max, idle), [], ZERO_STATS) }

  // ---- what every run keeps -------------------------------------------------

  ghost predicate EnvOk(env: Env)
  {
    env.dflt.Valid() && forall i :: 0 <= i < |env.ports| ==> env.ports[i].ops.Valid()
  }

  /** Both directions satisfy the framer's invariant. */
  ghost predicate ConnOk(c: Conn)
  {
    c.ops.Valid() && FrameOk(c.recv.f, c.ops.hdrSize(c.ctx.p, Recv)) && FrameOk(c.send.f, c.ops.hdrSize(c.ctx.p, Send))
  }

  ghost predicate ConnsOk(conns: map<nat, Conn>) { forall c :: c in conns ==> ConnOk(conns[c]) }

  ghost predicate PipeOk(s: Pipe) { TableOk(s.t) && ConnsOk(s.t.conns) }

  lemma {:induction false} ProtoValid(env: Env, port: nat)
    requires EnvOk(env)
    ensures ProtoOf(env, port).Valid()
    decreases |env.ports|
  {
    if env.ports != [] && env.ports[0].port != port {
      ProtoValid(Env(env.ports[1..], env.dflt), port);
    }
  }

  /** None of the first `n` entries is for the port. */
  predicate Unmapped(ports: seq<PortProto>, n: nat, port: nat)
    requires n <= |ports|
  {
    forall j :: 0 <= j < n ==> ports[j].port != port
  }

  /** The first entry of a mapped port decides, and the default for a port without one. */
  lemma {:induction false} ProtoIsFirstEntry(env: Env, port: nat)
    ensures Unmapped(env.ports, |env.ports|, port) ==> ProtoOf(env, port) == env.dflt
    ensures forall i :: 0 <= i < |env.ports| && env.ports[i].port == port && Unmapped(env.ports, i, port) ==>
                          ProtoOf(env, port) == env.ports[i].ops
    decreases |env.ports|
  {
    if env.ports != [] && env.ports[0].port != port {
      var rest := Env(env.ports[1..], env.dflt);
      ProtoIsFirstEntry(rest, port);
      assert forall i :: 0 < i < |env.ports| ==> env.ports[i] == rest.ports[i - 1];
    }
  }

  /** An OPEN of a new cookie binds the protocol of its port and starts both directions at
      a header, or waiting for a boundary if it is synthetic. */
  lemma OpenBinds(env: Env, s: Pipe, i: Input)
    requires i.Opened? && i.cookie !in s.t.conns
    ensures var u := Route(env, s, i).t.conns;
            && i.cookie in u && u[i.cookie].ops == ProtoOf(env, i.port)
            && u[i.cookie].ctx == Ctx(0, false, false, false) && u[i.cookie].lastSeq == i.seqNo
            && forall d :: u[i.cookie].In(d) ==
                           FRESH_FLOW.(f := ZERO_FRAME.(st := if i.synthetic then DIRTY else HEADER))
  {
    hide MakeRoom;
  }

  lemma BornOk(ops: Ops, seqNo: nat, ts: nat)
    requires ops.Valid()
    ensures ConnOk(Born(ops, seqNo, ts)) && ConnOk(MarkDirty(Born(ops, seqNo, ts)))
    ensures ConnOk(MarkDirty(Born(ops, seqNo, ts).(tlsSeen := true, tlsLastSeq := seqNo)))
  {
  }

  lemma SeenOk(c: Conn, seqNo: nat, ts: nat)
    requires ConnOk(c)
    ensures ConnOk(Seen(c, seqNo, ts)) && ConnOk(SeenTls(c, seqNo, ts))
  {
    assert ConnOk(MarkDirty(c));
  }

  lemma RestartedOk(c: Conn, midstream: bool)
    requires ConnOk(c)
    ensures ConnOk(Restarted(c.(ctx := c.ctx.(tls := true)), midstream))
  {
  }

  lemma TakenOk(c: Conn, dir: Dir, ev: DataEvent, st: Stats)
    requires ConnOk(c)
    ensures ConnOk(Taken(c, dir, ev, st)) && Grows(c.ctx, Taken(c, dir, ev, st).ctx)
  {
    hide ReasmData, ReasmCall, FrameOk;
    ReasmDataKeeps(c.ops, dir, FramerOf(c, dir, st), c.In(dir).call, ev);
  }

  lemma ConnsPut(conns: map<nat, Conn>, cookie: nat, c: Conn)
    requires ConnsOk(conns) && ConnOk(c)
    ensures ConnsOk(conns[cookie := c])
  {
    hide ConnOk;
  }

  lemma CreateConns(t: Table, cookie: nat, c: Conn)
    requires TableOk(t) && ConnsOk(t.conns) && ConnOk(c)
    ensures ConnsOk(Create(t, cookie, c).conns)
  {
    hide TableOk, ConnOk, MakeRoom;
    MakeRoomOk(t);
    ConnsPut(MakeRoom(t).conns, cookie, c);
  }

  lemma TouchConns(t: Table, cookie: nat, seqNo: nat, ts: nat)
    requires ConnsOk(t.conns) && cookie in t.conns
    ensures ConnsOk(Touch(t, cookie, seqNo, ts).conns) && ConnsOk(TouchTls(t, cookie, seqNo, ts).conns)
    ensures ConnsOk(NoteTlsDrop(t, cookie, seqNo, ts).conns)
  {
    hide ConnsOk, ConnOk, RemoveFrom, Seen, SeenTls;
    var c := t.conns[cookie];
    ConnsAt(t.conns, cookie);
    SeenOk(c, seqNo, ts);
    ConnsPut(t.conns, cookie, Seen(c, seqNo, ts));
    ConnsPut(t.conns, cookie, SeenTls(c, seqNo, ts));
    SameFrames(c, c.(lastSeq := Later(seqNo, c.lastSeq), activity := ts));
    ConnsPut(t.conns, cookie, c.(lastSeq := Later(seqNo, c.lastSeq), activity := ts));
  }

  lemma ConnsAt(conns: map<nat, Conn>, cookie: nat)
    requires ConnsOk(conns) && cookie in conns
    ensures ConnOk(conns[cookie])
  {
  }

  lemma SameFrames(c: Conn, d: Conn)
    requires ConnOk(c) && d.ops == c.ops && d.ctx == c.ctx && d.recv == c.recv && d.send == c.send
    ensures ConnOk(d)
  {
  }

  lemma EventConns(t: Table, cookie: nat, seqNo: nat, ts: nat, ops: Ops, synthetic: bool)
    requires TableOk(t) && ConnsOk(t.conns) && ops.Valid()
    ensures ConnsOk(Open(t, cookie, seqNo, ts, ops, synthetic).conns)
    ensures ConnsOk(Data(t, cookie, seqNo, ts, ops).conns)
    ensures ConnsOk(DataDecrypted(t, cookie, seqNo, ts, ops).conns)
  {
    hide TableOk, ConnsOk, ConnOk, Create, Touch, TouchTls;
    if cookie in t.conns {
      TouchConns(t, cookie, seqNo, ts);
    } else {
      var c := Born(ops, seqNo, ts);
      BornOk(ops, seqNo, ts);
      CreateConns(t, cookie, c);
      CreateConns(t, cookie, MarkDirty(c));
      CreateConns(t, cookie, MarkDirty(c.(tlsSeen := true, tlsLastSeq := seqNo)));
    }
  }

  lemma FlipOk(t: Table, cookie: nat, c: Conn)
    requires TableOk(t) && cookie in t.conns && !t.conns[cookie].ctx.tls && c.ctx.tls
    ensures TableOk(NoteTlsOpen(t.(conns := t.conns[cookie := c])))
  {
    hide NoDup;
    assert t.conns[cookie := c].Keys == t.conns.Keys;
    assert Tls(t.conns[cookie := c]) == Tls(t.conns) + {cookie};
  }

  lemma GoTlsOk(t: Table, cookie: nat, midstream: bool)
    requires TableOk(t) && ConnsOk(t.conns) && cookie in t.conns && !t.conns[cookie].ctx.tls
    ensures TableOk(GoTls(t, cookie, midstream)) && ConnsOk(GoTls(t, cookie, midstream).conns)
    ensures IsTls(GoTls(t, cookie, midstream), cookie)
  {
    hide TableOk, ConnsOk, ConnOk;
    var c := t.conns[cookie];
    var d := Restarted(c.(ctx := c.ctx.(tls := true)), midstream);
    ConnsAt(t.conns, cookie);
    RestartedOk(c, midstream);
    ConnsPut(t.conns, cookie, d);
    FlipOk(t, cookie, d);
  }

  /** Framing a chunk of a connection that stays as encrypted as it was. */
  lemma FeedConnOk(s: Pipe, cookie: nat, dir: Dir, ev: DataEvent)
    requires PipeOk(s) && cookie in s.t.conns
    ensures ConnsOk(FeedConn(s, cookie, dir, ev).t.conns)
    ensures Grows(s.t.conns[cookie].ctx, FeedConn(s, cookie, dir, ev).t.conns[cookie].ctx)
    ensures IsTls(s.t, cookie) == IsTls(FeedConn(s, cookie, dir, ev).t, cookie) ==> PipeOk(FeedConn(s, cookie, dir, ev))
  {
    hide TableOk, ConnsOk, ConnOk, Taken;
    var c := s.t.conns[cookie];
    ConnsAt(s.t.conns, cookie);
    TakenOk(c, dir, ev, s.st);
    ConnsPut(s.t.conns, cookie, Taken(c, dir, ev, s.st));
    if Taken(c, dir, ev, s.st).ctx.tls == c.ctx.tls { PutOk(s.t, cookie, Taken(c, dir, ev, s.st)); }
  }

  lemma FeedDecryptedOk(env: Env, s: Pipe, cookie: nat, seqNo: nat, dir: Dir, ev: DataEvent)
    requires EnvOk(env) && PipeOk(s)
    ensures PipeOk(FeedDecrypted(env, s, cookie, seqNo, dir, ev)) &&
            IsTls(FeedDecrypted(env, s, cookie, seqNo, dir, ev).t, cookie)
  {
    hide TableOk, ConnsOk, DataDecrypted, GoTls, FeedConn;
    OpenOk(s.t, cookie, seqNo, ev.ts, env.dflt, false);
    EventConns(s.t, cookie, seqNo, ev.ts, env.dflt, false);
    var t := DataDecrypted(s.t, cookie, seqNo, ev.ts, env.dflt);
    if !IsTls(t, cookie) { GoTlsOk(t, cookie, true); }
    FeedConnOk(s.(t := if IsTls(t, cookie) then t else GoTls(t, cookie, true)), cookie, dir, ev);
  }

  /** The flip that a chunk announces is counted once. */
  lemma FeedRawFlip(s: Pipe, cookie: nat, dir: Dir, ev: DataEvent)
    requires PipeOk(s) && cookie in s.t.conns && !IsTls(s.t, cookie)
    requires IsTls(FeedConn(s, cookie, dir, ev).t, cookie)
    ensures TableOk(GoTls(FeedConn(s, cookie, dir, ev).t, cookie, false))
    ensures ConnsOk(GoTls(FeedConn(s, cookie, dir, ev).t, cookie, false).conns)
  {
    hide TableOk, ConnsOk, ConnOk, Taken;
    FeedConnOk(s, cookie, dir, ev);
    var r := FeedConn(s, cookie, dir, ev).t;
    var c := r.conns[cookie];
    var d := Restarted(c.(ctx := c.ctx.(tls := true)), false);
    ConnsAt(r.conns, cookie);
    RestartedOk(c, false);
    ConnsPut(r.conns, cookie, d);
    FlipOk(s.t, cookie, d);
    assert r.conns[cookie := d] == s.t.conns[cookie := d];
  }

  lemma FeedRawOk(env: Env, s: Pipe, cookie: nat, seqNo: nat, dir: Dir, ev: DataEvent)
    requires EnvOk(env) && PipeOk(s)
    ensures PipeOk(FeedRaw(env, s, cookie, seqNo, dir, ev))
  {
    hide TableOk, ConnsOk, Data, GoTls, FeedConn;
    OpenOk(s.t, cookie, seqNo, ev.ts, env.dflt, false);
    EventConns(s.t, cookie, seqNo, ev.ts, env.dflt, false);
    var s1 := s.(t := Data(s.t, cookie, seqNo, ev.ts, env.dflt));
    FeedConnOk(s1, cookie, dir, ev);
    if !IsTls(s1.t, cookie) && IsTls(FeedConn(s1, cookie, dir, ev).t, cookie) { FeedRawFlip(s1, cookie, dir, ev); }
  }

  lemma CloseConns(t: Table, cookie: nat, seqNo: nat, ts: nat)
    requires ConnsOk(t.conns)
    ensures ConnsOk(Close(t, cookie, seqNo, ts).conns)
  {
    hide ConnOk, RemoveFrom, Touch;
    if cookie in t.conns {
      TouchConns(t, cookie, seqNo, ts);
      TouchKeys(t, cookie, seqNo, ts);
    }
  }

  /** One event keeps the table, its gauges, and every framer's invariant. */
  lemma RouteOk(env: Env, s: Pipe, i: Input)
    requires EnvOk(env) && PipeOk(s)
    ensures PipeOk(Route(env, s, i))
  {
    hide TableOk, ConnsOk, Open, Close, Sweep, NoteTlsDrop, FeedRaw, FeedDecrypted;
    match i
    case Opened(cookie, seqNo, ts, port, synthetic) =>
      ProtoValid(env, port);
      OpenOk(s.t, cookie, seqNo, ts, ProtoOf(env, port), synthetic);
      EventConns(s.t, cookie, seqNo, ts, ProtoOf(env, port), synthetic);
    case Closed(cookie, seqNo, ts) =>
      CloseOk(s.t, cookie, seqNo, ts);
      CloseConns(s.t, cookie, seqNo, ts);
    case Sweeping(now) =>
      SweepIsExactIff(s.t, now);
      SubsetConns(s.t.conns, Sweep(s.t, now).conns);
    case Chunk(cookie, seqNo, dir, ev) =>
      if IsTls(s.t, cookie) && !ev.decrypted {
        TouchOk(s.t, cookie, seqNo, ev.ts);
        TouchConns(s.t, cookie, seqNo, ev.ts);
      } else if ev.decrypted {
        FeedDecryptedOk(env, s, cookie, seqNo, dir, ev);
      } else {
        FeedRawOk(env, s, cookie, seqNo, dir, ev);
      }
  }

  lemma SubsetConns(a: map<nat, Conn>, b: map<nat, Conn>)
    requires ConnsOk(a) && forall c :: c in b ==> c in a && b[c] == a[c]
    ensures ConnsOk(b)
  {
    hide ConnOk;
  }

  /** In every reachable state the list and the map hold the same connections once each,
      no more than the ceiling allows; `active` and `tls_active` count them exactly. */
  lemma {:induction false} RunOk(env: Env, s: Pipe, run: seq<Input>)
    requires EnvOk(env) && PipeOk(s)
    ensures PipeOk(Run(env, s, run))
  {
    if run != [] {
      RunOk(env, s, run[..|run| - 1]);
      RouteOk(env, Run(env, s, run[..|run| - 1]), run[|run| - 1]);
    }
  }

  lemma StartOk(max: nat, idle: nat)
    ensures PipeOk(Start(max, idle))
  {
    EmptyOk(max, idle);
  }

  /** The connection an input is about. */
  predicate About(i: Input, x: nat) { !i.Sweeping? && i.cookie == x }

  lemma CreateElsewhere(t: Table, cookie: nat, c: Conn, x: nat)
    requires TableOk(t) && x != cookie && x in Create(t, cookie, c).conns
    ensures x in t.conns && Create(t, cookie, c).conns[x] == t.conns[x]
  {
    hide TableOk, MakeRoom;
    MakeRoomOk(t);
  }

  /** An event of one connection changes no other, except that it may evict it. */
  lemma Elsewhere(env: Env, s: Pipe, i: Input, x: nat)
    requires PipeOk(s) && !About(i, x) && x in Route(env, s, i).t.conns
    ensures x in s.t.conns && Route(env, s, i).t.conns[x] == s.t.conns[x]
  {
    hide TableOk, ConnsOk, Create, Sweep, Taken, Fed;
    if i.Sweeping? {
      SweepIsExactIff(s.t, i.now);
    } else if i.cookie !in s.t.conns && !i.Closed? {
      forall d: Conn | x in Create(s.t, i.cookie, d).conns
        ensures x in s.t.conns && Create(s.t, i.cookie, d).conns[x] == s.t.conns[x]
      {
        CreateElsewhere(s.t, i.cookie, d, x);
      }
    }
  }
}
