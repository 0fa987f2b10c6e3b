/**
 The connection table of src/agent/conn_table.c as values: connections by cookie, the
 LRU list, the two sequence spaces of every connection, and the counters.
 */
module Connections {
  import opened Framing
  import opened ChunkLayer
  import opened Sequences

  /** lk_conn. `lastSeq` and `dropped` belong to the socket's events, `tlsLastSeq` and
      `tlsDropped` to the decrypted ones. */
  datatype Conn = Conn(ops: Ops, ctx: Ctx, recv: Flow, send: Flow, lastSeq: nat, dropped: nat,
                       tlsSeen: bool, tlsLastSeq: nat, tlsDropped: nat, activity: nat)
  {
    function In(d: Dir): Flow { if d.Send? then send else recv }

    function With(d: Dir, f: Flow): Conn { if d.Send? then this.(send := f) else this.(recv := f) }

    predicate Dirty() { recv.f.st.DIRTY? && send.f.st.DIRTY? }

    function Lost(): nat { dropped + tlsDropped }
  }

  datatype Counters = Counters(created: nat, closed: nat, evictedLru: nat, evictedIdle: nat, seqGaps: nat,
                               lostEvents: nat, tlsSocketDropped: nat, tlsOpened: nat, tlsActive: int, active: int)

  const NO_COUNTS := Counters(0, 0, 0, 0, 0, 0, 0, 0, 0, 0)

  /** The table; `order` is the LRU list, most recently touched first. */
  datatype Table = Table(max: nat, idle: nat, conns: map<nat, Conn>, order: seq<nat>, st: Counters)

  function Empty(max: nat, idle: nat): Table
  {
    Table(if max == 0 then 1 else max, idle, map[], [], NO_COUNTS)
  }

  // ---- one connection -------------------------------------------------------

  /** mark_dirty. */
  function MarkDirty(c: Conn): Conn { c.(recv := Dirtying(c.recv), send := Dirtying(c.send)) }

  /** How many events are missing between `last` and `seq`. */
  function Gap(seqNo: nat, last: nat): nat { if seqNo > last + 1 then seqNo - (last + 1) else 0 }

  function Later(a: nat, b: nat): nat { if a > b then a else b }

  /** touch, on the connection. */
  function Seen(c: Conn, seqNo: nat, ts: nat): Conn
  {
    var lost := Gap(seqNo, c.lastSeq);
    var d := if lost > 0 then MarkDirty(c).(dropped := c.dropped + lost) else c;
    d.(lastSeq := Later(seqNo, c.lastSeq), activity := ts)
  }

  /** How many decrypted events are missing; the first one has nothing to compare with. */
  function GapTls(c: Conn, seqNo: nat): nat { if c.tlsSeen then Gap(seqNo, c.tlsLastSeq) else 0 }

  /** touch_tls, on the connection. */
  function SeenTls(c: Conn, seqNo: nat, ts: nat): Conn
  {
    var lost := GapTls(c, seqNo);
    var d := if lost > 0 then MarkDirty(c).(tlsDropped := c.tlsDropped + lost) else c;
    d.(tlsSeen := true, tlsLastSeq := if c.tlsSeen then Later(seqNo, c.tlsLastSeq) else seqNo, activity := ts)
  }

  /** What calloc and create fill in. */
  function Born(ops: Ops, seqNo: nat, ts: nat): Conn
  {
    Conn(ops, Ctx(0, false, false, false), FRESH_FLOW, FRESH_FLOW, seqNo, 0, false, 0, 0, ts)
  }

  /** lk_conn_tls_reset_framing. */
  function Restarted(c: Conn, midstream: bool): Conn
  {
    var d := c.(recv := FRESH_FLOW, send := FRESH_FLOW, ctx := c.ctx.(p := c.ops.restarted(c.ctx.p)));
    if midstream then MarkDirty(d) else d
  }

  // ---- the table ------------------------------------------------------------

  /** Give a connection of the table a new value, and the front of the list. */
  function Bump(t: Table, cookie: nat, c: Conn): Table
  {
    t.(conns := t.conns[cookie := c], order := [cookie] + RemoveFrom(t.order, cookie))
  }

  function Counted(t: Table, lost: nat): Table
  {
    if lost == 0 then t else t.(st := t.st.(seqGaps := t.st.seqGaps + 1, lostEvents := t.st.lostEvents + lost))
  }

  function Touch(t: Table, cookie: nat, seqNo: nat, ts: nat): Table
    requires cookie in t.conns
  {
    var c := t.conns[cookie];
    Bump(Counted(t, Gap(seqNo, c.lastSeq)), cookie, Seen(c, seqNo, ts))
  }

  function TouchTls(t: Table, cookie: nat, seqNo: nat, ts: nat): Table
    requires cookie in t.conns
  {
    var c := t.conns[cookie];
    Bump(Counted(t, GapTls(c, seqNo)), cookie, SeenTls(c, seqNo, ts))
  }

  /** destroy. */
  function Destroy(t: Table, cookie: nat): Table
    requires cookie in t.conns
  {
    t.(conns := t.conns - {cookie}, order := RemoveFrom(t.order, cookie),
       st := t.st.(active := t.st.active - 1, tlsActive := t.st.tlsActive - if t.conns[cookie].ctx.tls then 1 else 0))
  }

  /** The ceiling in create: the coldest entry makes room. */
  function MakeRoom(t: Table): Table
  {
    if t.st.active >= t.max && t.order != [] && Last(t.order) in t.conns then
      var d := Destroy(t, Last(t.order));
      d.(st := d.st.(evictedLru := d.st.evictedLru + 1))
    else t
  }

  /** A new entry at the front. */
  function Joined(t: Table, cookie: nat, c: Conn): Table
  {
    t.(conns := t.conns[cookie := c], order := [cookie] + t.order,
       st := t.st.(created := t.st.created + 1, active := t.st.active + 1))
  }

  /** create. */
  function Create(t: Table, cookie: nat, c: Conn): Table { Joined(MakeRoom(t), cookie, c) }

  /** lk_conn_table_open. */
  function Open(t: Table, cookie: nat, seqNo: nat, ts: nat, ops: Ops, synthetic: bool): Table
  {
    if cookie in t.conns then Touch(t, cookie, seqNo, ts)
    else Create(t, cookie, if synthetic then MarkDirty(Born(ops, seqNo, ts)) else Born(ops, seqNo, ts))
  }

  /** lk_conn_table_data. */
  function Data(t: Table, cookie: nat, seqNo: nat, ts: nat, dflt: Ops): (r: Table)
    ensures cookie in r.conns
  {
    if cookie in t.conns then Touch(t, cookie, seqNo, ts)
    else Create(t, cookie, MarkDirty(Born(dflt, seqNo, ts)))
  }

  /** lk_conn_table_data_decrypted. */
  function DataDecrypted(t: Table, cookie: nat, seqNo: nat, ts: nat, dflt: Ops): (r: Table)
    ensures cookie in r.conns
  {
    if cookie in t.conns then TouchTls(t, cookie, seqNo, ts)
    else Create(t, cookie, MarkDirty(Born(dflt, seqNo, ts).(tlsSeen := true, tlsLastSeq := seqNo)))
  }

  /** lk_conn_table_note_tls_drop. */
  function NoteTlsDrop(t: Table, cookie: nat, seqNo: nat, ts: nat): Table
    requires cookie in t.conns
  {
    var c := t.conns[cookie];
    Bump(t, cookie, c.(lastSeq := Later(seqNo, c.lastSeq), activity := ts))
      .(st := t.st.(tlsSocketDropped := t.st.tlsSocketDropped + 1))
  }

  function NoteTlsOpen(t: Table): Table
  {
    t.(st := t.st.(tlsOpened := t.st.tlsOpened + 1, tlsActive := t.st.tlsActive + 1))
  }

  /** lk_conn_table_close. */
  function Close(t: Table, cookie: nat, seqNo: nat, ts: nat): Table
  {
    if cookie !in t.conns then t
    else
      var d := Destroy(Touch(t, cookie, seqNo, ts), cookie);
      d.(st := d.st.(closed := d.st.closed + 1))
  }

  /** An entry that has been silent for the timeout; a cookie without entry is not. */
  predicate Idle(t: Table, cookie: nat, now: nat)
  {
    cookie in t.conns && t.conns[cookie].activity + t.idle <= now
  }

  /** One turn of the loop of lk_conn_table_sweep. */
  function Swept(t: Table): Table
    requires t.order != [] && Last(t.order) in t.conns
  {
    var d := Destroy(t, Last(t.order));
    d.(st := d.st.(evictedIdle := d.st.evictedIdle + 1))
  }

  /** lk_conn_table_sweep. */
  function Sweep(t: Table, now: nat): Table
    decreases |t.order|
  {
    if t.order == [] || !Idle(t, Last(t.order), now) then t
    else if |Swept(t).order| < |t.order| then Sweep(Swept(t), now)
    else Swept(t)
  }

  // ---- invariants -----------------------------------------------------------

  /** The list and the map hold the same connections, each once. */
  ghost predicate Listed(order: seq<nat>, conns: map<nat, Conn>)
  {
    NoDup(order) && forall c :: c in order <==> c in conns
  }

  ghost function Tls(conns: map<nat, Conn>): set<nat> { set c | c in conns && conns[c].ctx.tls }

  /** Every entry created is still there, or was closed or evicted; the gauges count
      the table's entries, of which there are never more than the ceiling. */
  ghost predicate CountsOk(t: Table)
  {
    && t.max > 0
    && t.st.active == |t.conns| <= t.max
    && t.st.active == t.st.created - t.st.closed - t.st.evictedLru - t.st.evictedIdle
    && t.st.tlsActive == |Tls(t.conns)|
  }

  ghost predicate TableOk(t: Table) { Listed(t.order, t.conns) && CountsOk(t) }

  lemma EmptyOk(max: nat, idle: nat)
    ensures TableOk(Empty(max, idle))
  {
    assert Tls(map[]) == {};
  }

  /** A new value for a connection that keeps its TLS flag. */
  lemma PutOk(t: Table, cookie: nat, c: Conn)
    requires TableOk(t) && cookie in t.conns && c.ctx.tls == t.conns[cookie].ctx.tls
    ensures TableOk(t.(conns := t.conns[cookie := c]))
  {
    assert t.conns[cookie := c].Keys == t.conns.Keys;
    assert Tls(t.conns[cookie := c]) == Tls(t.conns);
  }

  lemma BumpOk(t: Table, cookie: nat, c: Conn)
    requires TableOk(t) && cookie in t.conns && c.ctx.tls == t.conns[cookie].ctx.tls
    ensures TableOk(Bump(t, cookie, c))
  {
    hide NoDup, RemoveFrom;
    PutOk(t, cookie, c);
    MovedToFront(t.order, cookie);
  }

  /** What destroy leaves: everything but the entry, with the gauges adjusted. */
  lemma DestroyOk(t: Table, cookie: nat)
    requires TableOk(t) && cookie in t.conns
    ensures Listed(Destroy(t, cookie).order, Destroy(t, cookie).conns) && |Destroy(t, cookie).conns| == |t.conns| - 1
    ensures Destroy(t, cookie).st.tlsActive == |Tls(Destroy(t, cookie).conns)|
  {
    hide NoDup, RemoveFrom;
    RemovedOnce(t.order, cookie);
    assert (t.conns - {cookie}).Keys == t.conns.Keys - {cookie};
    assert Tls(t.conns - {cookie}) == Tls(t.conns) - {cookie};
  }

  /** Below the ceiling nobody leaves; at it exactly the last entry of the list does. */
  lemma MakeRoomOk(t: Table)
    requires TableOk(t)
    ensures TableOk(MakeRoom(t)) && MakeRoom(t).st.active < MakeRoom(t).max == t.max
    ensures |t.conns| < t.max ==> MakeRoom(t) == t
    ensures |t.conns| >= t.max ==> t.order != [] && MakeRoom(t).conns == t.conns - {Last(t.order)}
    ensures forall c :: c in MakeRoom(t).conns ==> c in t.conns && MakeRoom(t).conns[c] == t.conns[c]
  {
    hide NoDup, Tls;
    if t.st.active >= t.max {
      assert t.conns.Keys != {};
      assert t.order != [];
      DestroyOk(t, Last(t.order));
    }
  }

  lemma AddedOk(r: Table, cookie: nat, c: Conn)
    requires TableOk(r) && cookie !in r.conns && !c.ctx.tls
    ensures Listed([cookie] + r.order, r.conns[cookie := c])
    ensures |r.conns[cookie := c]| == |r.conns| + 1 && |Tls(r.conns[cookie := c])| == |Tls(r.conns)|
  {
    hide NoDup;
    NoDupJoin([cookie], r.order);
    assert r.conns[cookie := c].Keys == r.conns.Keys + {cookie};
    assert Tls(r.conns[cookie := c]) == Tls(r.conns);
  }

  lemma CreateOk(t: Table, cookie: nat, c: Conn)
    requires TableOk(t) && cookie !in t.conns && !c.ctx.tls
    ensures TableOk(Create(t, cookie, c))
  {
    hide NoDup, MakeRoom;
    MakeRoomOk(t);
    var r := MakeRoom(t);
    AddedOk(r, cookie, c);
  }

  lemma TouchOk(t: Table, cookie: nat, seqNo: nat, ts: nat)
    requires TableOk(t) && cookie in t.conns
    ensures TableOk(Touch(t, cookie, seqNo, ts)) && TableOk(TouchTls(t, cookie, seqNo, ts))
    ensures TableOk(NoteTlsDrop(t, cookie, seqNo, ts))
  {
    hide NoDup, RemoveFrom, Tls;
    var c := t.conns[cookie];
    BumpOk(Counted(t, Gap(seqNo, c.lastSeq)), cookie, Seen(c, seqNo, ts));
    BumpOk(Counted(t, GapTls(c, seqNo)), cookie, SeenTls(c, seqNo, ts));
    BumpOk(t, cookie, c.(lastSeq := Later(seqNo, c.lastSeq), activity := ts));
  }

  lemma TouchKeys(t: Table, cookie: nat, seqNo: nat, ts: nat)
    requires cookie in t.conns
    ensures var u := Touch(t, cookie, seqNo, ts);
            cookie in u.conns && u.conns[cookie] == Seen(t.conns[cookie], seqNo, ts) && u.max == t.max &&
              u.idle == t.idle
  {
  }

  /** Every table operation keeps the table. */
  lemma OpenOk(t: Table, cookie: nat, seqNo: nat, ts: nat, ops: Ops, synthetic: bool)
    requires TableOk(t)
    ensures TableOk(Open(t, cookie, seqNo, ts, ops, synthetic))
    ensures TableOk(Data(t, cookie, seqNo, ts, ops))
    ensures TableOk(DataDecrypted(t, cookie, seqNo, ts, ops))
  {
    hide TableOk, Touch, TouchTls, Create;
    if cookie in t.conns {
      TouchOk(t, cookie, seqNo, ts);
    } else {
      var c := Born(ops, seqNo, ts);
      CreateOk(t, cookie, c);
      CreateOk(t, cookie, MarkDirty(c));
      CreateOk(t, cookie, MarkDirty(c.(tlsSeen := true, tlsLastSeq := seqNo)));
    }
  }

  lemma CloseOk(t: Table, cookie: nat, seqNo: nat, ts: nat)
    requires TableOk(t)
    ensures TableOk(Close(t, cookie, seqNo, ts))
  {
    hide NoDup, RemoveFrom, Tls, Touch, Listed;
    if cookie in t.conns {
      TouchOk(t, cookie, seqNo, ts);
      TouchKeys(t, cookie, seqNo, ts);
      DestroyOk(Touch(t, cookie, seqNo, ts), cookie);
    }
  }

  // ---- the idle sweep -------------------------------------------------------

  /** What a sweep keeps: the first `m` of the list. */
  ghost predicate Keeps(t: Table, u: Table, m: nat)
  {
    && m <= |t.order| && u.order == t.order[..m] && u.idle == t.idle && u.max == t.max
    && (forall c :: c in u.conns ==> c in t.conns && u.conns[c] == t.conns[c])
    && u.st.evictedIdle == t.st.evictedIdle + (|t.order| - m)
  }

  /** The entries from position `m` of the list on are idle, and the one before is not. */
  ghost predicate IdleFrom(t: Table, now: nat, m: nat)
  {
    && (forall i :: m <= i < |t.order| ==> Idle(t, t.order[i], now))
    && (0 < m <= |t.order| ==> !Idle(t, t.order[m - 1], now))
  }

  lemma ListedOf(t: Table)
    requires TableOk(t)
    ensures Listed(t.order, t.conns)
  {
  }

  lemma SweptOk(t: Table)
    requires TableOk(t) && t.order != []
    ensures Last(t.order) in t.conns && TableOk(Swept(t)) && Swept(t).order == Init(t.order)
    ensures Keeps(t, Swept(t), |t.order| - 1)
  {
    hide NoDup, Tls, RemoveFrom;
    DestroyOk(t, Last(t.order));
    RemoveLast(t.order);
  }

  lemma KeepsOn(t: Table, e: Table, u: Table, now: nat, m: nat)
    requires t.order != [] && Keeps(t, e, |t.order| - 1) && Keeps(e, u, m)
    requires Listed(e.order, e.conns) && IdleFrom(e, now, m) && Idle(t, Last(t.order), now)
    ensures Keeps(t, u, m) && IdleFrom(t, now, m)
  {
    hide NoDup;
    assert forall i :: 0 <= i < |e.order| ==> e.order[i] == t.order[i] && e.order[i] in e.conns;
    assert forall i :: 0 <= i < |e.order| ==> Idle(e, e.order[i], now) == Idle(t, t.order[i], now);
  }

  /** A sweep evicts the longest idle tail of the list, and nothing else. */
  lemma {:induction false} SweepEvictsTheTail(t: Table, now: nat) returns (m: nat)
    requires TableOk(t)
    ensures IdleFrom(t, now, m)
    ensures TableOk(Sweep(t, now)) && Keeps(t, Sweep(t, now), m)
    decreases |t.order|
  {
    hide TableOk, Listed, Destroy;
    if t.order == [] || !Idle(t, Last(t.order), now) {
      m := |t.order|;
    } else {
      SweptOk(t);
      ListedOf(Swept(t));
      assert Sweep(t, now) == Sweep(Swept(t), now);
      m := SweepEvictsTheTail(Swept(t), now);
      KeepsOn(t, Swept(t), Sweep(Swept(t), now), now, m);
    }
  }

  /** No idle entry is more recent in the list than one that is not idle. */
  ghost predicate IdleLast(t: Table, now: nat)
  {
    forall i, j :: 0 <= i < j < |t.order| && Idle(t, t.order[i], now) ==> Idle(t, t.order[j], now)
  }

  lemma IdleLastIff(t: Table, now: nat, m: nat)
    requires m <= |t.order| && IdleFrom(t, now, m)
    ensures IdleLast(t, now) <==> forall i :: 0 <= i < m ==> !Idle(t, t.order[i], now)
  {
    if IdleLast(t, now) && m > 0 {
      var last := t.order[m - 1];
      assert forall i :: 0 <= i < m - 1 && Idle(t, t.order[i], now) ==> Idle(t, last, now);
    }
  }

  /** Sweep only evicts idle entries; and it evicts every idle entry if and only if the
      idle ones are at the end of the list. */
  lemma SweepIsExactIff(t: Table, now: nat)
    requires TableOk(t)
    ensures var u := Sweep(t, now);
            && TableOk(u)
            && (forall c :: c in u.conns ==> c in t.conns && u.conns[c] == t.conns[c])
            && (forall c :: c in t.conns && c !in u.conns ==> Idle(t, c, now))
            && ((forall c :: c in u.conns ==> !Idle(t, c, now)) <==> IdleLast(t, now))
  {
    hide NoDup, Sweep, TableOk, IdleLast, Idle, IdleFrom;
    var u := Sweep(t, now);
    var m := SweepEvictsTheTail(t, now);
    ListedOf(t);
    ListedOf(u);
    IdleLastIff(t, now, m);
    assert forall i :: 0 <= i < m ==> t.order[i] == u.order[i] && u.order[i] in u.conns;
    forall c | c in t.conns && c !in u.conns ensures Idle(t, c, now) {
      var i :| 0 <= i < |t.order| && t.order[i] == c;
      IdleBehind(t, now, m, i);
    }
  }

  lemma IdleBehind(t: Table, now: nat, m: nat, i: nat)
    requires IdleFrom(t, now, m) && i < |t.order|
    ensures m <= i ==> Idle(t, t.order[i], now)
  {
  }
}
