/**
 The sequence-gap accounting and the clock of src/agent/conn_table.c over whole runs:
 what `last_seq`, `dropped` and `lost_events` mean, and when the idle sweep is exact.
 */
module SequenceTheorems {
  import opened Framing
  import opened Options
  import opened ChunkLayer
  import opened Sequences
  import opened Connections
  import opened Pipeline

  // ---- gap accounting -------------------------------------------------------

  /** One sequence space since the entry was created: the first and the highest number
      seen, how many counted events went beyond the highest so far, and by how much
      uncounted ones did. */
  datatype Span = Span(first: nat, top: nat, forward: nat, skipped: nat)

  function Counting(s: Span, n: nat): Span
  {
    s.(top := Later(n, s.top), forward := s.forward + if n > s.top then 1 else 0)
  }

  function Skipping(s: Span, n: nat): Span
  {
    s.(top := Later(n, s.top), skipped := s.skipped + if n > s.top then n - s.top else 0)
  }

  /** What an observer of the events knows of one entry. */
  datatype Tally = Tally(raw: Span, dec: Option<Span>, lost: nat)

  /** What an observer of the events knows of the table. */
  datatype Audit = Audit(live: map<nat, Tally>, lost: nat)

  /** The loss an input reports (out->lost). */
  function LostOf(t: Table, i: Input): nat
  {
    if i.Sweeping? || i.cookie !in t.conns then 0
    else if i.Chunk? && i.ev.decrypted then GapTls(t.conns[i.cookie], i.seqNo)
    else if i.Chunk? && IsTls(t, i.cookie) then 0
    else Gap(i.seqNo, t.conns[i.cookie].lastSeq)
  }

  /** The tally of an entry that an input creates. */
  function FirstTally(i: Input): Tally
    requires !i.Sweeping?
  {
    Tally(Span(i.seqNo, i.seqNo, 0, 0),
          if i.Chunk? && i.ev.decrypted then Some(Span(i.seqNo, i.seqNo, 0, 0)) else None, 0)
  }

  /** The tally of an entry after another input of its own. */
  function NextTally(y: Tally, i: Input, tls: bool, lost: nat): Tally
    requires !i.Sweeping?
  {
    if i.Chunk? && i.ev.decrypted then
      y.(dec := Some(if y.dec.Some? then Counting(y.dec.value, i.seqNo) else Span(i.seqNo, i.seqNo, 0, 0)),
         lost := y.lost + lost)
    else if i.Chunk? && tls then y.(raw := Skipping(y.raw, i.seqNo))
    else y.(raw := Counting(y.raw, i.seqNo), lost := y.lost + lost)
  }

  function Audited(a: Audit, t: Table, i: Input): Audit
  {
    if i.Sweeping? || (i.Closed? && i.cookie !in t.conns) then a
    else
      var y := if i.cookie in t.conns && i.cookie in a.live
               then NextTally(a.live[i.cookie], i, IsTls(t, i.cookie), LostOf(t, i))
               else FirstTally(i);
      Audit(a.live[i.cookie := y], a.lost + LostOf(t, i))
  }

  function AuditOf(env: Env, s: Pipe, a: Audit, run: seq<Input>): Audit
  {
    if run == [] then a
    else
      var p := run[..|run| - 1];
      Audited(AuditOf(env, s, a, p), Run(env, s, p).t, run[|run| - 1])
  }

  /** A span is made of its first number, what was counted, what was skipped and what
      is missing. */
  predicate Adds(s: Span, missing: nat) { s.top == s.first + s.forward + s.skipped + missing }

  /** The fields of an entry say what the observer knows. */
  predicate Tracks(c: Conn, y: Tally)
  {
    && c.lastSeq == y.raw.top && Adds(y.raw, c.dropped)
    && (c.tlsSeen <==> y.dec.Some?)
    && (y.dec.Some? ==> c.tlsLastSeq == y.dec.value.top && Adds(y.dec.value, c.tlsDropped))
    && (y.dec.None? ==> c.tlsDropped == 0)
    && c.Lost() == y.lost
  }

  ghost predicate AuditOk(t: Table, a: Audit)
  {
    && t.st.lostEvents == a.lost
    && (forall c :: c in t.conns ==> c in a.live && Tracks(t.conns[c], a.live[c]))
  }

  predicate SameSpaces(c: Conn, d: Conn)
  {
    && c.lastSeq == d.lastSeq && c.dropped == d.dropped && c.tlsSeen == d.tlsSeen
    && c.tlsLastSeq == d.tlsLastSeq && c.tlsDropped == d.tlsDropped
  }

  /** A gap is counted and dirties both directions; without one an event at most moves
      `last_seq` forward, and a straggler not even that. */
  lemma TouchVerdict(c: Conn, n: nat, ts: nat)
    ensures var d := Seen(c, n, ts);
            && (n > c.lastSeq + 1 ==> d.Dirty() && d.dropped == c.dropped + (n - c.lastSeq - 1) && d.lastSeq == n)
            && (n == c.lastSeq + 1 ==> d == c.(lastSeq := n, activity := ts))
            && (n <= c.lastSeq ==> d == c.(activity := ts))
    ensures var d := SeenTls(c, n, ts);
            && (c.tlsSeen && n > c.tlsLastSeq + 1 ==>
                  d.Dirty() && d.tlsDropped == c.tlsDropped + (n - c.tlsLastSeq - 1))
            && (!c.tlsSeen || n <= c.tlsLastSeq + 1 ==>
                SameSpaces(d, c.(tlsSeen := true, tlsLastSeq := d.tlsLastSeq)) && d.recv == c.recv && d.send == c.send)
  {
  }

  /** Where an input leaves an entry it creates, as far as the two spaces go. */
  lemma EntryBorn(env: Env, s: Pipe, i: Input)
    requires !i.Sweeping? && i.cookie !in s.t.conns && i.cookie in Route(env, s, i).t.conns
    ensures var d := Route(env, s, i).t.conns[i.cookie];
            && d.lastSeq == i.seqNo && d.dropped == 0 && d.tlsDropped == 0
            && d.tlsSeen == (i.Chunk? && i.ev.decrypted) && (d.tlsSeen ==> d.tlsLastSeq == i.seqNo)
  {
    hide RemoveFrom, MakeRoom, ReasmData, ReasmCall;
  }

  /** Where an input leaves a known entry. */
  ghost predicate Follows(c: Conn, i: Input, d: Conn)
    requires !i.Sweeping?
  {
    if i.Chunk? && i.ev.decrypted then SameSpaces(d, SeenTls(c, i.seqNo, 0))
    else if i.Chunk? && c.ctx.tls then SameSpaces(d, c.(lastSeq := Later(i.seqNo, c.lastSeq)))
    else SameSpaces(d, Seen(c, i.seqNo, 0))
  }

  lemma EntryAfter(env: Env, s: Pipe, i: Input)
    requires !i.Sweeping? && i.cookie in s.t.conns && i.cookie in Route(env, s, i).t.conns
    ensures Follows(s.t.conns[i.cookie], i, Route(env, s, i).t.conns[i.cookie])
  {
    hide RemoveFrom, Fed, ReasmCall, Counted, Create;
  }

  lemma LostEventsAfter(env: Env, s: Pipe, i: Input)
    requires PipeOk(s)
    ensures Route(env, s, i).t.st.lostEvents == s.t.st.lostEvents + LostOf(s.t, i)
  {
    hide TableOk, ConnsOk, RemoveFrom, ReasmData, ReasmCall, Sweep;
    if i.Sweeping? { SweepLoss(s.t, i.now); }
  }

  lemma {:induction false} SweepLoss(t: Table, now: nat)
    ensures Sweep(t, now).st.lostEvents == t.st.lostEvents
    decreases |t.order|
  {
    hide RemoveFrom;
    if t.order != [] && Idle(t, Last(t.order), now) {
      if |Swept(t).order| < |t.order| { SweepLoss(Swept(t), now); }
    }
  }

  lemma TracksNext(c: Conn, y: Tally, i: Input, d: Conn)
    requires !i.Sweeping? && Tracks(c, y) && Follows(c, i, d)
    ensures var lost := if i.Chunk? && i.ev.decrypted then GapTls(c, i.seqNo)
                        else if i.Chunk? && c.ctx.tls then 0 else Gap(i.seqNo, c.lastSeq);
            Tracks(d, NextTally(y, i, c.ctx.tls, lost))
  {
  }

  lemma AuditStep(env: Env, s: Pipe, a: Audit, i: Input)
    requires PipeOk(s) && AuditOk(s.t, a)
    ensures AuditOk(Route(env, s, i).t, Audited(a, s.t, i))
  {
    hide PipeOk, Route, Tracks, NextTally;
    LostEventsAfter(env, s, i);
    var t, b := Route(env, s, i).t, Audited(a, s.t, i);
    forall x | x in t.conns
      ensures x in b.live && Tracks(t.conns[x], b.live[x])
    {
      if !About(i, x) {
        Elsewhere(env, s, i, x);
      } else {
        EntryAudit(env, s, a, i);
      }
    }
  }

  lemma EntryAudit(env: Env, s: Pipe, a: Audit, i: Input)
    requires AuditOk(s.t, a) && !i.Sweeping? && i.cookie in Route(env, s, i).t.conns
    ensures var b := Audited(a, s.t, i);
            i.cookie in b.live && Tracks(Route(env, s, i).t.conns[i.cookie], b.live[i.cookie])
  {
    hide NextTally, Follows, Sweep, FeedRaw, FeedDecrypted, Open, NoteTlsDrop;
    if i.cookie !in s.t.conns {
      EntryBorn(env, s, i);
    } else {
      EntryAfter(env, s, i);
      TracksNext(s.t.conns[i.cookie], a.live[i.cookie], i, Route(env, s, i).t.conns[i.cookie]);
    }
  }

  /** In every run `last_seq` is the highest number seen, and it is made of the first
      number, the counted steps forward, the ciphertext skipped, and `dropped`; likewise
      in the decrypted space; and `lost_events` is the sum of all losses reported. */
  lemma {:induction false} RunAudit(env: Env, s: Pipe, a: Audit, run: seq<Input>)
    requires EnvOk(env) && PipeOk(s) && AuditOk(s.t, a)
    ensures AuditOk(Run(env, s, run).t, AuditOf(env, s, a, run))
  {
    hide PipeOk, EnvOk, AuditOk, Route, Audited;
    if run != [] {
      var p := run[..|run| - 1];
      RunAudit(env, s, a, p);
      RunOk(env, s, p);
      AuditStep(env, Run(env, s, p), AuditOf(env, s, a, p), run[|run| - 1]);
    }
  }

  /** An entry that a decrypted event creates has that event's number for its socket
      baseline too, so what a CLOSE reports next compares the two spaces: it is a loss if
      and only if the socket's number is ahead of the decrypted one by more than one. */
  lemma DecryptedBirthMixesSpaces(env: Env, s: Pipe, born: Input, close: Input)
    requires born.Chunk? && born.ev.decrypted && born.cookie !in s.t.conns
    requires close.Closed? && close.cookie == born.cookie
    ensures LostOf(Route(env, s, born).t, close) == Gap(close.seqNo, born.seqNo)
    ensures LostOf(Route(env, s, born).t, close) > 0 <==> close.seqNo > born.seqNo + 1
  {
    hide Route;
    DecryptedIsKnown(env, s, born);
    EntryBorn(env, s, born);
  }

  lemma DecryptedIsKnown(env: Env, s: Pipe, born: Input)
    requires born.Chunk? && born.ev.decrypted
    ensures born.cookie in Route(env, s, born).t.conns
  {
    hide DataDecrypted, ReasmData, ReasmCall;
  }

  // ---- the clock ------------------------------------------------------------

  function Act(conns: map<nat, Conn>, c: nat): nat { if c in conns then conns[c].activity else 0 }

  /** The list is in order of the last activity, latest first, none of it after `now`. */
  ghost predicate RecentFirst(order: seq<nat>, conns: map<nat, Conn>, now: nat)
  {
    && (forall i :: 0 <= i < |order| ==> Act(conns, order[i]) <= now)
    && (forall i, j :: 0 <= i < j < |order| ==> Act(conns, order[i]) >= Act(conns, order[j]))
  }

  function TimeOf(i: Input, clock: nat): nat
  {
    match i
    case Sweeping(_) => clock
    case Chunk(_, _, _, ev) => ev.ts
    case Opened(_, _, ts, _, _) => ts
    case Closed(_, _, ts) => ts
  }

  lemma RecentWithout(order: seq<nat>, conns: map<nat, Conn>, now: nat, x: nat)
    requires RecentFirst(order, conns, now)
    ensures RecentFirst(RemoveFrom(order, x), conns, now)
  {
    var at, ys := Find(order, x), RemoveFrom(order, x);
    if at < |order| {
      assert forall i :: 0 <= i < |ys| ==> ys[i] == order[if i < at then i else i + 1];
    }
  }

  lemma RecentFront(rest: seq<nat>, conns: map<nat, Conn>, now: nat, x: nat, c: Conn)
    requires RecentFirst(rest, conns, now) && now <= c.activity && x !in rest
    ensures RecentFirst([x] + rest, conns[x := c], c.activity)
  {
    var ys := [x] + rest;
    assert forall i :: 0 < i < |ys| ==> ys[i] == rest[i - 1] && ys[i] != x;
  }

  lemma RecentBump(t: Table, now: nat, x: nat, c: Conn)
    requires TableOk(t) && x in t.conns && RecentFirst(t.order, t.conns, now) && now <= c.activity
    ensures RecentFirst(Bump(t, x, c).order, Bump(t, x, c).conns, c.activity)
  {
    hide CountsOk, NoDup, RecentFirst, RemoveFrom;
    RemovedOnce(t.order, x);
    RecentWithout(t.order, t.conns, now, x);
    RecentFront(RemoveFrom(t.order, x), t.conns, now, x, c);
  }

  lemma RecentSame(order: seq<nat>, a: map<nat, Conn>, b: map<nat, Conn>, now: nat)
    requires RecentFirst(order, a, now) && forall i :: 0 <= i < |order| ==> Act(a, order[i]) == Act(b, order[i])
    ensures RecentFirst(order, b, now)
  {
  }

  lemma RecentDestroy(t: Table, now: nat, x: nat)
    requires TableOk(t) && x in t.conns && RecentFirst(t.order, t.conns, now)
    ensures RecentFirst(Destroy(t, x).order, Destroy(t, x).conns, now)
  {
    hide CountsOk, NoDup, RecentFirst, RemoveFrom;
    RemovedOnce(t.order, x);
    RecentWithout(t.order, t.conns, now, x);
    RecentSame(RemoveFrom(t.order, x), t.conns, Destroy(t, x).conns, now);
  }

  lemma RecentCreate(t: Table, now: nat, x: nat, c: Conn)
    requires TableOk(t) && x !in t.conns && RecentFirst(t.order, t.conns, now) && now <= c.activity
    ensures RecentFirst(Create(t, x, c).order, Create(t, x, c).conns, c.activity)
  {
    hide CountsOk, NoDup, RecentFirst, Destroy;
    MakeRoomOk(t);
    if t.st.active >= t.max && t.order != [] { RecentDestroy(t, now, Last(t.order)); }
    RecentFront(MakeRoom(t).order, MakeRoom(t).conns, now, x, c);
  }

  ghost predicate Clocked(s: Pipe, now: nat) { RecentFirst(s.t.order, s.t.conns, now) }

  lemma RecentTouch(t: Table, now: nat, x: nat, n: nat, ts: nat)
    requires TableOk(t) && x in t.conns && RecentFirst(t.order, t.conns, now) && now <= ts
    ensures RecentFirst(Touch(t, x, n, ts).order, Touch(t, x, n, ts).conns, ts)
    ensures RecentFirst(TouchTls(t, x, n, ts).order, TouchTls(t, x, n, ts).conns, ts)
    ensures RecentFirst(NoteTlsDrop(t, x, n, ts).order, NoteTlsDrop(t, x, n, ts).conns, ts)
  {
    hide TableOk, RecentFirst, RemoveFrom;
    var c := t.conns[x];
    RecentBump(t, now, x, Seen(c, n, ts));
    RecentBump(t, now, x, SeenTls(c, n, ts));
    RecentBump(t, now, x, c.(lastSeq := Later(n, c.lastSeq), activity := ts));
  }

  lemma RecentEvent(t: Table, now: nat, x: nat, n: nat, ts: nat, ops: Ops, synthetic: bool)
    requires TableOk(t) && RecentFirst(t.order, t.conns, now) && now <= ts
    ensures var u := Open(t, x, n, ts, ops, synthetic); RecentFirst(u.order, u.conns, ts)
    ensures var u := Data(t, x, n, ts, ops); RecentFirst(u.order, u.conns, ts)
    ensures var u := DataDecrypted(t, x, n, ts, ops); RecentFirst(u.order, u.conns, ts)
  {
    hide TableOk, RecentFirst, Touch, TouchTls, Create;
    if x in t.conns {
      RecentTouch(t, now, x, n, ts);
    } else {
      var c := Born(ops, n, ts);
      RecentCreate(t, now, x, c);
      RecentCreate(t, now, x, MarkDirty(c));
      RecentCreate(t, now, x, MarkDirty(c.(tlsSeen := true, tlsLastSeq := n)));
    }
  }

  lemma RecentClose(t: Table, now: nat, x: nat, n: nat, ts: nat)
    requires TableOk(t) && RecentFirst(t.order, t.conns, now) && now <= ts
    ensures var u := Close(t, x, n, ts); RecentFirst(u.order, u.conns, ts)
  {
    hide TableOk, RecentFirst, Touch;
    if x in t.conns {
      RecentTouch(t, now, x, n, ts);
      TouchOk(t, x, n, ts);
      TouchKeys(t, x, n, ts);
      RecentDestroy(Touch(t, x, n, ts), ts, x);
    } else {
      RecentLater(t.order, t.conns, now, ts);
    }
  }

  lemma RecentLater(order: seq<nat>, conns: map<nat, Conn>, now: nat, ts: nat)
    requires RecentFirst(order, conns, now) && now <= ts
    ensures RecentFirst(order, conns, ts)
  {
  }

  /** Framing a chunk does not touch the list or the clock. */
  lemma RecentFeed(s: Pipe, now: nat, x: nat, dir: Dir, ev: DataEvent)
    requires x in s.t.conns && Clocked(s, now)
    ensures Clocked(FeedConn(s, x, dir, ev), now)
  {
    hide RecentFirst, ReasmData, ReasmCall;
    RecentSame(s.t.order, s.t.conns, FeedConn(s, x, dir, ev).t.conns, now);
  }

  lemma RecentGoTls(t: Table, now: nat, x: nat, midstream: bool)
    requires x in t.conns && RecentFirst(t.order, t.conns, now)
    ensures RecentFirst(GoTls(t, x, midstream).order, GoTls(t, x, midstream).conns, now)
  {
    hide RecentFirst;
    RecentSame(t.order, t.conns, GoTls(t, x, midstream).conns, now);
  }

  lemma RecentSweep(t: Table, clock: nat, now: nat)
    requires TableOk(t) && RecentFirst(t.order, t.conns, clock)
    ensures RecentFirst(Sweep(t, now).order, Sweep(t, now).conns, clock)
  {
    hide TableOk, Sweep;
    var m := SweepEvictsTheTail(t, now);
    ListedOf(Sweep(t, now));
    var u := Sweep(t, now);
    assert forall i :: 0 <= i < |u.order| ==> u.order[i] == t.order[i] && u.order[i] in u.conns;
  }

  /** An event that is not earlier than the last one keeps the list in order of time. */
  lemma RouteClocked(env: Env, s: Pipe, i: Input, now: nat)
    requires PipeOk(s) && Clocked(s, now) && now <= TimeOf(i, now)
    ensures Clocked(Route(env, s, i), TimeOf(i, now))
  {
    hide TableOk, ConnsOk, RecentFirst, Open, Close, Sweep, NoteTlsDrop, Data, DataDecrypted, FeedConn, GoTls;
    match i
    case Opened(x, n, ts, port, synthetic) => RecentEvent(s.t, now, x, n, ts, ProtoOf(env, port), synthetic);
    case Closed(x, n, ts) => RecentClose(s.t, now, x, n, ts);
    case Sweeping(at) => RecentSweep(s.t, now, at);
    case Chunk(x, n, dir, ev) =>
      RecentEvent(s.t, now, x, n, ev.ts, env.dflt, false);
      if IsTls(s.t, x) && !ev.decrypted {
        RecentTouch(s.t, now, x, n, ev.ts);
      } else if ev.decrypted {
        var t := DataDecrypted(s.t, x, n, ev.ts, env.dflt);
        RecentGoTls(t, ev.ts, x, true);
        RecentFeed(s.(t := if IsTls(t, x) then t else GoTls(t, x, true)), ev.ts, x, dir, ev);
      } else {
        var t := Data(s.t, x, n, ev.ts, env.dflt);
        RecentFeed(s.(t := t), ev.ts, x, dir, ev);
        RecentGoTls(FeedConn(s.(t := t), x, dir, ev).t, ev.ts, x, false);
      }
  }

  /** The time of the last event of a run. */
  function ClockOf(run: seq<Input>): nat
  {
    if run == [] then 0 else TimeOf(run[|run| - 1], ClockOf(run[..|run| - 1]))
  }

  /** No event of the run is earlier than the one before. */
  predicate Chronological(run: seq<Input>)
  {
    run == [] || (Chronological(run[..|run| - 1]) && ClockOf(run[..|run| - 1]) <= ClockOf(run))
  }

  lemma {:induction false} RunClocked(env: Env, s: Pipe, run: seq<Input>)
    requires EnvOk(env) && PipeOk(s) && Clocked(s, 0) && Chronological(run)
    ensures Clocked(Run(env, s, run), ClockOf(run))
  {
    hide EnvOk, PipeOk, Clocked, Route;
    if run != [] {
      var p := run[..|run| - 1];
      RunClocked(env, s, p);
      RunOk(env, s, p);
      RouteClocked(env, Run(env, s, p), run[|run| - 1], ClockOf(p));
    }
  }

  /** If event times never decrease, a sweep at any moment of any run evicts exactly the
      idle entries. */
  lemma SweepIsExactInOrder(env: Env, max: nat, idle: nat, run: seq<Input>, now: nat)
    requires EnvOk(env) && Chronological(run)
    ensures var t := Run(env, Start(max, idle), run).t;
            forall c :: c in t.conns ==> (c in Sweep(t, now).conns <==> !Idle(t, c, now))
  {
    hide EnvOk, PipeOk, Run, Sweep, Start;
    StartOk(max, idle);
    StartClocked(max, idle);
    RunOk(env, Start(max, idle), run);
    RunClocked(env, Start(max, idle), run);
    SweepWhenClocked(Run(env, Start(max, idle), run), ClockOf(run), now);
  }

  lemma StartClocked(max: nat, idle: nat)
    ensures Clocked(Start(max, idle), 0)
  {
  }

  lemma SweepWhenClocked(s: Pipe, clock: nat, now: nat)
    requires PipeOk(s) && Clocked(s, clock)
    ensures forall c :: c in s.t.conns ==> (c in Sweep(s.t, now).conns <==> !Idle(s.t, c, now))
  {
    hide TableOk, ConnsOk, Sweep;
    SweepIsExactIff(s.t, now);
    ListedOf(s.t);
    forall i, j | 0 <= i < j < |s.t.order| && Idle(s.t, s.t.order[i], now)
      ensures Idle(s.t, s.t.order[j], now)
    {
      assert s.t.order[j] in s.t.conns && Act(s.t.conns, s.t.order[i]) >= Act(s.t.conns, s.t.order[j]);
    }
  }

  /** With times out of order an idle entry survives behind a busy one. */
  lemma SweepMissesOutOfOrder(env: Env, idle: nat)
    ensures var run := [Opened(1, 0, idle + 1, 0, false), Opened(2, 0, 0, 0, false)];
            var t := Run(env, Start(2, idle), run).t;
            && !Chronological(run)
            && 2 in t.conns && Idle(t, 2, idle) && 2 in Sweep(t, idle).conns
  {
    var i, j := Opened(1, 0, idle + 1, 0, false), Opened(2, 0, 0, 0, false);
    assert [i, j][..1] == [i] && [i][..0] == [];
    var s := Start(2, idle);
    var s1 := Route(env, s, i);
    var s2 := Route(env, s1, j);
    assert Run(env, s, []) == s && Run(env, s, [i]) == s1 && Run(env, s, [i, j]) == s2;
    assert s1.t.order == [1] && s2.t.order == [2, 1];
    assert Last(s2.t.order) == 1 && !Idle(s2.t, 1, idle);
  }
}
