/**
 Who leaves the connection table of src/agent/conn_table.c: what every event does to
 the set of entries and to the counters, and that the ceiling evicts the entry whose
 last event lies furthest back.
 */
module EvictionTheorems {
  import opened Framing
  import opened ChunkLayer
  import opened Sequences
  import opened Connections
  import opened Pipeline
  import opened SequenceTheorems

  // ---- the list -------------------------------------------------------------

  /** Events that create the entry of a cookie the table does not have. */
  predicate Creates(t: Table, i: Input) { (i.Opened? || i.Chunk?) && i.cookie !in t.conns }

  /** The list without its last entry, if the table is full. */
  function Spared(t: Table): seq<nat> { if |t.conns| < t.max || t.order == [] then t.order else Init(t.order) }

  lemma CreateOrder(t: Table, x: nat, c: Conn)
    requires TableOk(t) && x !in t.conns
    ensures Create(t, x, c).order == [x] + Spared(t)
  {
    hide NoDup, RemoveFrom;
    if t.st.active >= t.max {
      assert t.conns.Keys != {};
      assert t.order != [];
      RemoveLast(t.order);
    }
  }

  lemma CloseOrder(t: Table, x: nat, n: nat, ts: nat)
    requires TableOk(t)
    ensures Close(t, x, n, ts).order == RemoveFrom(t.order, x)
  {
    hide CountsOk, NoDup;
    if x in t.conns {
      RemovedOnce(t.order, x);
    } else {
      FindFirst(t.order, x);
    }
  }

  /** What an event does to the LRU list. */
  lemma RouteOrder(env: Env, s: Pipe, i: Input)
    requires PipeOk(s)
    ensures var (o, u) := (s.t.order, Route(env, s, i).t.order);
            match i
            case Sweeping(_) => u <= o
            case Closed(x, _, _) => u == RemoveFrom(o, x)
            case _ => u == [i.cookie] + if Creates(s.t, i) then Spared(s.t) else RemoveFrom(o, i.cookie)
  {
    hide TableOk, ConnsOk, Create, Taken, Fed, RemoveFrom, Close, Sweep, Spared;
    match i
    case Sweeping(now) => var m := SweepEvictsTheTail(s.t, now);
    case Closed(x, n, ts) => CloseOrder(s.t, x, n, ts);
    case _ =>
      if Creates(s.t, i) {
        forall c: Conn
          ensures Create(s.t, i.cookie, c).order == [i.cookie] + Spared(s.t)
        {
          CreateOrder(s.t, i.cookie, c);
        }
      }
  }

  // ---- the list by last events ----------------------------------------------

  /** The position of the last event of a connection in a run, from 1 on; 0 for none. */
  function LastAt(run: seq<Input>, x: nat): nat
  {
    if run == [] then 0 else if About(run[|run| - 1], x) then |run| else LastAt(run[..|run| - 1], x)
  }

  lemma {:induction false} LastAtEvent(run: seq<Input>, x: nat)
    ensures LastAt(run, x) <= |run|
    ensures LastAt(run, x) > 0 ==> About(run[LastAt(run, x) - 1], x)
    ensures forall j :: LastAt(run, x) <= j < |run| ==> !About(run[j], x)
    decreases |run|
  {
    if run != [] && !About(run[|run| - 1], x) { LastAtEvent(run[..|run| - 1], x); }
  }

  /** The list goes from the latest last event to the earliest. */
  ghost predicate ByLast(order: seq<nat>, run: seq<Input>)
  {
    && (forall x :: x in order ==> LastAt(run, x) > 0)
    && (forall i, j :: 0 <= i < j < |order| ==> LastAt(run, order[i]) > LastAt(run, order[j]))
  }

  lemma LastAtElsewhere(run: seq<Input>, i: Input, x: nat)
    requires !About(i, x)
    ensures LastAt(run + [i], x) == LastAt(run, x)
  {
    assert (run + [i])[..|run|] == run;
  }

  lemma ByLastOnward(part: seq<nat>, run: seq<Input>, i: Input)
    requires ByLast(part, run) && forall x :: x in part ==> !About(i, x)
    ensures ByLast(part, run + [i])
  {
    hide LastAt, About;
    forall x | x in part
      ensures LastAt(run + [i], x) == LastAt(run, x)
    {
      LastAtElsewhere(run, i, x);
    }
    assert forall a :: 0 <= a < |part| ==> LastAt(run + [i], part[a]) == LastAt(run, part[a]);
  }

  lemma ByLastCut(order: seq<nat>, part: seq<nat>, run: seq<Input>, at: nat)
    requires ByLast(order, run) && at < |order| && part == order[..at] + order[at + 1..]
    ensures ByLast(part, run)
  {
    hide LastAt;
    assert forall a :: 0 <= a < |part| ==> part[a] == order[if a < at then a else a + 1];
  }

  lemma ByLastFirst(order: seq<nat>, part: seq<nat>, run: seq<Input>)
    requires ByLast(order, run) && part <= order
    ensures ByLast(part, run)
  {
    hide LastAt;
    assert forall a :: 0 <= a < |part| ==> part[a] == order[a];
  }

  /** Part of a list in the same order, with nothing that the next event is about. */
  lemma ByLastPart(order: seq<nat>, part: seq<nat>, run: seq<Input>, i: Input, at: nat)
    requires ByLast(order, run) && (part <= order || (at < |order| && part == order[..at] + order[at + 1..]))
    requires forall x :: x in part ==> !About(i, x)
    ensures ByLast(part, run + [i])
  {
    hide ByLast, About;
    if part <= order {
      ByLastFirst(order, part, run);
    } else {
      ByLastCut(order, part, run, at);
    }
    ByLastOnward(part, run, i);
  }

  lemma ByLastFront(rest: seq<nat>, run: seq<Input>, i: Input)
    requires !i.Sweeping? && ByLast(rest, run + [i]) && i.cookie !in rest
    ensures ByLast([i.cookie] + rest, run + [i])
  {
    var u, now := [i.cookie] + rest, run + [i];
    forall a, b | 0 <= a < b < |u|
      ensures LastAt(now, u[a]) > LastAt(now, u[b])
    {
      if a == 0 {
        assert now[..|now| - 1] == run && u[b] in rest;
        LastAtEvent(run, u[b]);
      }
    }
  }

  lemma RemovedPart(order: seq<nat>, x: nat)
    requires NoDup(order)
    ensures var (part, at) := (RemoveFrom(order, x), Find(order, x));
            x !in part && (part <= order || (at < |order| && part == order[..at] + order[at + 1..]))
  {
    FindFirst(order, x);
    if x in order { RemovedOnce(order, x); }
  }

  /** One event keeps the list in order of last events. */
  lemma RouteByLast(env: Env, s: Pipe, run: seq<Input>, i: Input)
    requires EnvOk(env) && PipeOk(s) && ByLast(s.t.order, run)
    ensures ByLast(Route(env, s, i).t.order, run + [i])
  {
    hide EnvOk, TableOk, ConnsOk, Route, RemoveFrom, ByLast, NoDup, Find;
    RouteOrder(env, s, i);
    ListedOf(s.t);
    var o := s.t.order;
    match i
    case Sweeping(_) => ByLastPart(o, Route(env, s, i).t.order, run, i, 0);
    case Closed(x, _, _) =>
      RemovedPart(o, x);
      ByLastPart(o, RemoveFrom(o, x), run, i, Find(o, x));
    case _ =>
      if Creates(s.t, i) {
        ByLastPart(o, Spared(s.t), run, i, 0);
        ByLastFront(Spared(s.t), run, i);
      } else {
        RemovedPart(o, i.cookie);
        ByLastPart(o, RemoveFrom(o, i.cookie), run, i, Find(o, i.cookie));
        ByLastFront(RemoveFrom(o, i.cookie), run, i);
      }
  }

  lemma {:induction false} RunByLast(env: Env, max: nat, idle: nat, run: seq<Input>)
    requires EnvOk(env)
    ensures PipeOk(Run(env, Start(max, idle), run)) && ByLast(Run(env, Start(max, idle), run).t.order, run)
    decreases |run|
  {
    hide EnvOk, PipeOk, Route, ByLast, Start;
    StartOk(max, idle);
    RunOk(env, Start(max, idle), run);
    if run == [] {
      NoneByLast(max, idle);
    } else {
      var p := run[..|run| - 1];
      RunByLast(env, max, idle, p);
      RouteByLast(env, Run(env, Start(max, idle), p), p, run[|run| - 1]);
      assert run == p + [run[|run| - 1]];
    }
  }

  lemma NoneByLast(max: nat, idle: nat)
    ensures ByLast(Start(max, idle).t.order, [])
  {
  }

  // ---- the ceiling ----------------------------------------------------------

  lemma RouteMax(env: Env, s: Pipe, i: Input)
    requires PipeOk(s)
    ensures Route(env, s, i).t.max == s.t.max
  {
    hide TableOk, ConnsOk, Taken, Fed, RemoveFrom, Sweep;
    if i.Sweeping? {
      var m := SweepEvictsTheTail(s.t, i.now);
    }
  }

  lemma {:induction false} RunMax(env: Env, max: nat, idle: nat, run: seq<Input>)
    requires EnvOk(env)
    ensures Run(env, Start(max, idle), run).t.max == if max == 0 then 1 else max
    decreases |run|
  {
    hide EnvOk, PipeOk, Route;
    if run != [] {
      var p := run[..|run| - 1];
      RunMax(env, max, idle, p);
      StartOk(max, idle);
      RunOk(env, Start(max, idle), p);
      RouteMax(env, Run(env, Start(max, idle), p), run[|run| - 1]);
    }
  }

  lemma LastOnce(o: seq<nat>)
    requires NoDup(o) && o != []
    ensures forall x :: x in Init(o) <==> x in o && x != Last(o)
  {
    NoDupSplit(Init(o), [Last(o)]);
  }

  lemma LastIsEarliest(o: seq<nat>, run: seq<Input>, x: nat)
    requires ByLast(o, run) && x in o && x != Last(o)
    ensures LastAt(run, Last(o)) < LastAt(run, x)
  {
    var a :| 0 <= a < |o| && o[a] == x;
  }

  lemma FullIsListed(t: Table)
    requires TableOk(t)
    ensures 0 < t.max && |t.conns| <= t.max
    ensures |t.conns| == t.max ==> t.order != []
  {
    if |t.conns| == t.max {
      var x :| x in t.conns;
      assert x in t.order;
    }
  }

  /** The entries behind a list with one more in front, and one less behind if full. */
  lemma KeysCreated(t: Table, u: Table, x: nat)
    requires Listed(t.order, t.conns) && Listed(u.order, u.conns) && u.order == [x] + Spared(t) && x !in t.conns
    ensures u.conns.Keys == {x} +
            if |t.conns| < t.max || t.order == [] then t.conns.Keys else t.conns.Keys - {Last(t.order)}
  {
    hide NoDup;
    assert forall y :: y in u.conns <==> y == x || y in Spared(t);
    if t.order != [] { LastOnce(t.order); }
  }

  /** What an event about a new cookie does to the entries of a table in order. */
  lemma CreateEvicts(env: Env, s: Pipe, run: seq<Input>, i: Input) returns (v: nat)
    requires EnvOk(env) && PipeOk(s) && ByLast(s.t.order, run) && Creates(s.t, i)
    ensures |s.t.conns| <= s.t.max
    ensures var u := Route(env, s, i).t;
            if |s.t.conns| < s.t.max then u.conns.Keys == s.t.conns.Keys + {i.cookie}
            else
              && v in s.t.conns && u.conns.Keys == s.t.conns.Keys - {v} + {i.cookie}
              && forall x :: x in s.t.conns && x != v ==> LastAt(run, v) < LastAt(run, x)
  {
    hide EnvOk, TableOk, ConnsOk, Route, RemoveFrom, NoDup, LastAt, ByLast, Spared;
    RouteOrder(env, s, i);
    RouteOk(env, s, i);
    ListedOf(s.t);
    ListedOf(Route(env, s, i).t);
    FullIsListed(s.t);
    KeysCreated(s.t, Route(env, s, i).t, i.cookie);
    if |s.t.conns| < s.t.max {
      v := 0;
    } else {
      v := Last(s.t.order);
      forall x | x in s.t.conns && x != v
        ensures LastAt(run, v) < LastAt(run, x)
      {
        LastIsEarliest(s.t.order, run, x);
      }
    }
  }

  /** In every run, an event about a new cookie evicts nobody below the ceiling. At the
      ceiling it evicts exactly one entry: the one whose last event lies furthest back. */
  lemma CeilingEvictsTheColdest(env: Env, max: nat, idle: nat, run: seq<Input>, i: Input) returns (v: nat)
    requires EnvOk(env) && Creates(Run(env, Start(max, idle), run).t, i)
    ensures var (t, u) := (Run(env, Start(max, idle), run).t, Run(env, Start(max, idle), run + [i]).t);
            var most := if max == 0 then 1 else max;
            && |t.conns| <= most
            && (|t.conns| < most ==> u.conns.Keys == t.conns.Keys + {i.cookie})
            && (|t.conns| == most ==>
                 && v in t.conns && u.conns.Keys == t.conns.Keys - {v} + {i.cookie}
                 && forall x :: x in t.conns && x != v ==> LastAt(run, v) < LastAt(run, x))
  {
    hide EnvOk, PipeOk, Route, ByLast, Start, Creates, LastAt;
    assert (run + [i])[..|run|] == run;
    RunByLast(env, max, idle, run);
    RunMax(env, max, idle, run);
    v := CreateEvicts(env, Run(env, Start(max, idle), run), run, i);
  }

  // ---- the ceiling by the clock ---------------------------------------------

  /** The time of an event; a sweep has none. */
  function Stamp(i: Input): nat { TimeOf(i, 0) }

  lemma RouteActivity(env: Env, s: Pipe, i: Input)
    requires PipeOk(s) && !i.Sweeping? && i.cookie in Route(env, s, i).t.conns
    ensures Route(env, s, i).t.conns[i.cookie].activity == Stamp(i)
  {
    hide TableOk, ConnsOk, RemoveFrom, MakeRoom, ReasmData, ReasmCall, Counted;
  }

  /** The activity time of an entry is the time of its last event. */
  lemma {:induction false} ActivityIsLast(env: Env, max: nat, idle: nat, run: seq<Input>, x: nat)
    requires EnvOk(env) && x in Run(env, Start(max, idle), run).t.conns
    ensures 0 < LastAt(run, x) <= |run|
    ensures Run(env, Start(max, idle), run).t.conns[x].activity == Stamp(run[LastAt(run, x) - 1])
    decreases |run|
  {
    hide EnvOk, PipeOk, Route;
    if run != [] {
      var p, i := run[..|run| - 1], run[|run| - 1];
      StartOk(max, idle);
      RunOk(env, Start(max, idle), p);
      var s := Run(env, Start(max, idle), p);
      if About(i, x) {
        RouteActivity(env, s, i);
      } else {
        Elsewhere(env, s, i, x);
        ActivityIsLast(env, max, idle, p, x);
      }
    }
  }

  lemma {:induction false} ClockAt(run: seq<Input>, a: nat)
    requires Chronological(run) && a < |run| && !run[a].Sweeping?
    ensures Stamp(run[a]) <= ClockOf(run)
    decreases |run|
  {
    if a < |run| - 1 { ClockAt(run[..|run| - 1], a); }
  }

  lemma {:induction false} ClockRises(run: seq<Input>, a: nat, b: nat)
    requires Chronological(run) && a <= b < |run| && !run[a].Sweeping? && !run[b].Sweeping?
    ensures Stamp(run[a]) <= Stamp(run[b])
    decreases |run|
  {
    if b == |run| - 1 {
      ClockAt(run, a);
    } else {
      ClockRises(run[..|run| - 1], a, b);
    }
  }

  /** If event times never decrease, no surviving entry has been active less recently than
      the evicted one. */
  lemma CeilingEvictsTheOldest(env: Env, max: nat, idle: nat, run: seq<Input>, i: Input, v: nat)
    requires EnvOk(env) && Chronological(run) && Creates(Run(env, Start(max, idle), run).t, i)
    requires v in Run(env, Start(max, idle), run).t.conns && v !in Run(env, Start(max, idle), run + [i]).t.conns
    ensures var t := Run(env, Start(max, idle), run).t;
            forall x :: x in t.conns ==> t.conns[v].activity <= t.conns[x].activity
  {
    hide EnvOk, Run, Start, Creates, LastAt;
    var w := CeilingEvictsTheColdest(env, max, idle, run, i);
    var t := Run(env, Start(max, idle), run).t;
    ActivityIsLast(env, max, idle, run, v);
    LastAtEvent(run, v);
    forall x | x in t.conns
      ensures t.conns[v].activity <= t.conns[x].activity
    {
      ActivityIsLast(env, max, idle, run, x);
      LastAtEvent(run, x);
      ClockRises(run, LastAt(run, v) - 1, LastAt(run, x) - 1);
    }
  }

  // ---- the other events and the counters ------------------------------------

  /** Entries leave by CLOSE, by the ceiling and by the sweep, and in no other way. */
  lemma OthersKeepTheEntries(env: Env, s: Pipe, i: Input)
    requires EnvOk(env) && PipeOk(s) && !Creates(s.t, i) && !i.Sweeping?
    ensures Route(env, s, i).t.conns.Keys == if i.Closed? then s.t.conns.Keys - {i.cookie} else s.t.conns.Keys
  {
    hide EnvOk, TableOk, ConnsOk, Route, RemoveFrom, NoDup;
    RouteOrder(env, s, i);
    RouteOk(env, s, i);
    ListedOf(s.t);
    ListedOf(Route(env, s, i).t);
    if i.cookie in s.t.conns {
      RemovedOnce(s.t.order, i.cookie);
    } else {
      assert i.Closed? && i.cookie !in s.t.order;
      NotRemoved(s.t.order, i.cookie);
    }
  }

  lemma NotRemoved(o: seq<nat>, x: nat)
    requires x !in o
    ensures RemoveFrom(o, x) == o
  {
    FindFirst(o, x);
  }

  function One(b: bool): nat { if b then 1 else 0 }

  /** The event is encrypted socket data, which is dropped. */
  predicate Dropped(t: Table, i: Input) { i.Chunk? && !i.ev.decrypted && IsTls(t, i.cookie) }

  /** The event turns its connection, new or not, into an encrypted one. */
  predicate Encrypts(t: Table, u: Table, i: Input) { i.Chunk? && !IsTls(t, i.cookie) && IsTls(u, i.cookie) }

  /** The counters behind an event that created, evicted or closed an entry, or found so
      many events lost, and concerns TLS no further. */
  predicate Moved(a: Counters, b: Counters, made: bool, evicted: bool, closed: bool, lost: nat)
  {
    && b.created == a.created + One(made) && b.evictedLru == a.evictedLru + One(evicted)
    && b.closed == a.closed + One(closed) && b.evictedIdle == a.evictedIdle
    && b.seqGaps == a.seqGaps + One(lost > 0) && b.lostEvents == a.lostEvents + lost
    && b.tlsSocketDropped == a.tlsSocketDropped && b.tlsOpened == a.tlsOpened
  }

  lemma CreateCounts(t: Table, x: nat, c: Conn)
    requires TableOk(t)
    ensures Moved(t.st, Create(t, x, c).st, true, |t.conns| == t.max, false, 0)
  {
    hide NoDup, RemoveFrom, Tls;
    FullIsListed(t);
  }

  lemma EventCounts(t: Table, x: nat, n: nat, ts: nat, ops: Ops, synthetic: bool)
    requires TableOk(t)
    ensures var (made, lost) := (x !in t.conns, if x in t.conns then Gap(n, t.conns[x].lastSeq) else 0);
            && Moved(t.st, Open(t, x, n, ts, ops, synthetic).st, made, made && |t.conns| == t.max, false, lost)
            && Moved(t.st, Data(t, x, n, ts, ops).st, made, made && |t.conns| == t.max, false, lost)
            && Moved(t.st, Close(t, x, n, ts).st, false, false, !made, lost)
    ensures var (made, lost) := (x !in t.conns, if x in t.conns then GapTls(t.conns[x], n) else 0);
            Moved(t.st, DataDecrypted(t, x, n, ts, ops).st, made, made && |t.conns| == t.max, false, lost)
  {
    hide TableOk, Create, RemoveFrom, Gap, GapTls, Seen, SeenTls;
    var c := Born(ops, n, ts);
    CreateCounts(t, x, c);
    CreateCounts(t, x, MarkDirty(c));
    CreateCounts(t, x, MarkDirty(c.(tlsSeen := true, tlsLastSeq := n)));
  }

  /** Framing and the flip to TLS leave the other counters alone. */
  lemma FeedCounts(s: Pipe, x: nat, dir: Dir, ev: DataEvent)
    requires x in s.t.conns
    ensures FeedConn(s, x, dir, ev).t.st == s.t.st
  {
    hide Taken, Fed;
  }

  lemma FlipCounts(t: Table, x: nat, midstream: bool)
    requires x in t.conns
    ensures GoTls(t, x, midstream).st == t.st.(tlsOpened := t.st.tlsOpened + 1, tlsActive := t.st.tlsActive + 1)
    ensures IsTls(GoTls(t, x, midstream), x)
  {
  }

  lemma DecryptedCounts(env: Env, s: Pipe, x: nat, n: nat, dir: Dir, ev: DataEvent)
    requires EnvOk(env) && PipeOk(s)
    ensures var (a, u) := (DataDecrypted(s.t, x, n, ev.ts, env.dflt), FeedDecrypted(env, s, x, n, dir, ev).t);
            && IsTls(u, x) && (IsTls(a, x) <==> IsTls(s.t, x))
            && u.st == if IsTls(a, x) then a.st
                       else a.st.(tlsOpened := a.st.tlsOpened + 1, tlsActive := a.st.tlsActive + 1)
  {
    hide EnvOk, PipeOk, FeedConn, GoTls, Taken, Fed, MakeRoom, RemoveFrom;
    var a := DataDecrypted(s.t, x, n, ev.ts, env.dflt);
    if !IsTls(a, x) { FlipCounts(a, x, true); }
    FeedCounts(s.(t := if IsTls(a, x) then a else GoTls(a, x, true)), x, dir, ev);
    FeedDecryptedOk(env, s, x, n, dir, ev);
  }

  lemma RawCounts(env: Env, s: Pipe, x: nat, n: nat, dir: Dir, ev: DataEvent)
    requires !IsTls(s.t, x)
    ensures var (a, u) := (Data(s.t, x, n, ev.ts, env.dflt), FeedRaw(env, s, x, n, dir, ev).t);
            && !IsTls(a, x)
            && u.st == if !IsTls(u, x) then a.st
                       else a.st.(tlsOpened := a.st.tlsOpened + 1, tlsActive := a.st.tlsActive + 1)
  {
    hide FeedConn, GoTls, Taken, Fed, MakeRoom, RemoveFrom;
    var a := Data(s.t, x, n, ev.ts, env.dflt);
    FeedCounts(s.(t := a), x, dir, ev);
    FlipCounts(FeedConn(s.(t := a), x, dir, ev).t, x, false);
  }

  /** Every counter of the table moves by exactly what the event did. */
  lemma CountersAfter(env: Env, s: Pipe, i: Input)
    requires EnvOk(env) && PipeOk(s) && !i.Sweeping?
    ensures var (t, u) := (s.t, Route(env, s, i).t);
            && u.st.created == t.st.created + One(Creates(t, i))
            && u.st.evictedLru == t.st.evictedLru + One(Creates(t, i) && |t.conns| == t.max)
            && u.st.evictedIdle == t.st.evictedIdle
            && u.st.closed == t.st.closed + One(i.Closed? && i.cookie in t.conns)
            && u.st.seqGaps == t.st.seqGaps + One(LostOf(t, i) > 0)
            && u.st.lostEvents == t.st.lostEvents + LostOf(t, i)
            && u.st.tlsSocketDropped == t.st.tlsSocketDropped + One(Dropped(t, i))
            && u.st.tlsOpened == t.st.tlsOpened + One(Encrypts(t, u, i))
  {
    hide EnvOk, TableOk, ConnsOk, Open, Data, DataDecrypted, Close, FeedDecrypted, FeedRaw, Gap, GapTls, RemoveFrom;
    match i
    case Opened(x, n, ts, port, synthetic) => EventCounts(s.t, x, n, ts, ProtoOf(env, port), synthetic);
    case Closed(x, n, ts) => EventCounts(s.t, x, n, ts, env.dflt, false);
    case Chunk(x, n, dir, ev) =>
      EventCounts(s.t, x, n, ev.ts, env.dflt, false);
      if ev.decrypted {
        DecryptedCounts(env, s, x, n, dir, ev);
      } else if !IsTls(s.t, x) {
        RawCounts(env, s, x, n, dir, ev);
      }
  }

  /** The sweep moves one counter of departures, by the number of entries it evicts. */
  lemma CountersAfterSweep(env: Env, s: Pipe, now: nat)
    requires PipeOk(s)
    ensures var (t, u) := (s.t, Route(env, s, Sweeping(now)).t);
            && u.conns.Keys <= t.conns.Keys
            && u.st.evictedIdle == t.st.evictedIdle + (|t.conns| - |u.conns|)
            && u.st.created == t.st.created && u.st.closed == t.st.closed && u.st.evictedLru == t.st.evictedLru
            && u.st.seqGaps == t.st.seqGaps && u.st.lostEvents == t.st.lostEvents
            && u.st.tlsSocketDropped == t.st.tlsSocketDropped && u.st.tlsOpened == t.st.tlsOpened
  {
    hide TableOk, ConnsOk, Sweep, NoDup;
    var m := SweepEvictsTheTail(s.t, now);
    ListSize(s.t);
    ListSize(Sweep(s.t, now));
    SweepCounters(s.t, now);
  }

  lemma ListSize(t: Table)
    requires TableOk(t)
    ensures |t.order| == |t.conns|
  {
    hide CountsOk, NoDup;
    MembersSize(t.order);
    assert Members(t.order) == t.conns.Keys;
  }

  function Members(o: seq<nat>): set<nat> { set x | x in o }

  lemma {:induction false} MembersSize(o: seq<nat>)
    requires NoDup(o)
    ensures |Members(o)| == |o|
    decreases |o|
  {
    hide NoDup;
    if o == [] {
      assert Members(o) == {};
    } else {
      LastOnce(o);
      NoDupSplit(Init(o), [Last(o)]);
      MembersSize(Init(o));
      assert Members(o) == Members(Init(o)) + {Last(o)};
    }
  }

  lemma {:induction false} SweepCounters(t: Table, now: nat)
    ensures var (a, b) := (t.st, Sweep(t, now).st);
            b == a.(evictedIdle := b.evictedIdle, active := b.active, tlsActive := b.tlsActive)
    decreases |t.order|
  {
    hide RemoveFrom;
    if t.order != [] && Idle(t, Last(t.order), now) && |Swept(t).order| < |t.order| { SweepCounters(Swept(t), now); }
  }
}
