/**
 The router and the slabs put together: every run of the router is a run of acts of the
 slab agent, and the frames that agent updates in place are the framers of the router's
 connections.
 */
module Assembly {
  import opened ChunkLayer
  import opened Connections
  import opened Framing
  import opened Pipeline
  import opened Sequences
  import SlabTheorems

  // ---- what was logged before does not matter -------------------------------

  function Behind(s: Framer, pre: seq<Event>): Framer { s.(out := pre + s.out) }

  function BehindStep(r: Stepped, pre: seq<Event>): Stepped { Stepped(Behind(r.s, pre), r.cut) }

  lemma CloseBodyBehind(ops: Ops, dir: Dir, s: Framer, body: seq<Byte>, skip: nat, eb: bool, pre: seq<Event>)
    ensures CloseBody(ops, dir, Behind(s, pre), body, skip, eb) ==
            BehindStep(CloseBody(ops, dir, s, body, skip, eb), pre)
  {
    assert pre + s.out + [Emitted(dir, MessageOf(ops, dir, s, body))] ==
           pre + (s.out + [Emitted(dir, MessageOf(ops, dir, s, body))]);
  }

  lemma EndHeaderBehind(ops: Ops, dir: Dir, s: Framer, hdr: seq<Byte>, eb: bool, pre: seq<Event>)
    ensures EndHeader(ops, dir, Behind(s, pre), hdr, eb) == BehindStep(EndHeader(ops, dir, s, hdr, eb), pre)
  {
    match ops.parseHdr(s.ctx, dir, s.f.h, hdr)
    case None =>
    case Some(h) =>
      var m := Emitted(dir, MessageOf(ops, dir, s.(f := s.f.(h := h, hdr := hdr)), s.f.buf));
      assert pre + s.out + [m] == pre + (s.out + [m]);
  }

  lemma ResyncBehind(ops: Ops, dir: Dir, s: Framer, pre: seq<Event>)
    ensures DoResync(ops, dir, Behind(s, pre)) == Behind(DoResync(ops, dir, s), pre)
  {
    assert pre + s.out + [Resynced(dir)] == pre + (s.out + [Resynced(dir)]);
  }

  lemma StepBehind(ops: Ops, dir: Dir, s: Framer, b: Byte, ts: nat, eb: bool, pre: seq<Event>)
    ensures Step(ops, dir, Behind(s, pre), b, ts, eb) == BehindStep(Step(ops, dir, s, b, ts, eb), pre)
  {
    hide CloseBody, EndHeader, DoResync;
    match s.f.st
    case HEADER => EndHeaderBehind(ops, dir, s.(f := Stamp(s.f, ts)), s.f.hdr + [b], eb, pre);
    case SKIP =>
    case DIRTY => ResyncBehind(ops, dir, s.(f := s.f.(matched := ops.scan(s.ctx, dir, s.f.matched, b).0)), pre);
    case BODY =>
      CloseBodyBehind(ops, dir, s, s.f.buf, s.f.h.bodyLen, eb, pre);
      var body := s.f.buf + [b];
      CloseBodyBehind(ops, dir, s, body, if |body| < s.f.h.bodyLen then s.f.h.bodyLen - |body| else 0, eb, pre);
  }

  lemma {:induction false} FeedBehind(ops: Ops, dir: Dir, s: Framer, p: seq<Byte>, ts: nat, eb: bool, pre: seq<Event>)
    ensures FeedFrom(ops, dir, Behind(s, pre), p, ts, eb) == BehindStep(FeedFrom(ops, dir, s, p, ts, eb), pre)
    decreases |p|
  {
    hide Step;
    if p != [] {
      StepBehind(ops, dir, s, p[0], ts, eb, pre);
      var r := Step(ops, dir, s, p[0], ts, eb);
      if !r.cut { FeedBehind(ops, dir, r.s, p[1..], ts, eb, pre); }
    }
  }

  lemma TurnBehind(ops: Ops, dir: Dir, s: Framer, n: nat, eb: bool, pre: seq<Event>)
    ensures var t := HoleTurn(ops, dir, s, n, eb);
            HoleTurn(ops, dir, Behind(s, pre), n, eb) == Turned(Behind(t.s, pre), t.take, t.stop)
  {
    hide CloseBody;
    CloseBodyBehind(ops, dir, s, s.f.buf, ToBodyEnd(s.f) - Min(ToBodyEnd(s.f), n), eb, pre);
  }

  lemma {:induction false} HoleBehind(ops: Ops, dir: Dir, s: Framer, n: nat, eb: bool, pre: seq<Event>)
    ensures HoleFrom(ops, dir, Behind(s, pre), n, eb) == Behind(HoleFrom(ops, dir, s, n, eb), pre)
    decreases n
  {
    hide HoleTurn;
    if n > 0 {
      TurnBehind(ops, dir, s, n, eb, pre);
      var t := HoleTurn(ops, dir, s, n, eb);
      if !(t.stop || t.take == 0 || t.take > n) { HoleBehind(ops, dir, t.s, n - t.take, eb, pre); }
    }
  }

  lemma WholeHoleBehind(ops: Ops, dir: Dir, s: Framer, n: nat, pre: seq<Event>)
    ensures Hole(ops, dir, Behind(s, pre), n) == Behind(Hole(ops, dir, s, n), pre)
  {
    hide HoleFrom;
    HoleBehind(ops, dir, s.(st := s.st.(holes := s.st.holes + 1, holeBytes := s.st.holeBytes + n)), n, s.ctx.Blind(),
               pre);
  }

  /** lk_reasm_data adds to the log and does not look at it. */
  lemma ReasmDataBehind(ops: Ops, dir: Dir, s: Framer, call: Call, ev: DataEvent, pre: seq<Event>)
    ensures ReasmData(ops, dir, Behind(s, pre), call, ev) == Behind(ReasmData(ops, dir, s, call, ev), pre)
  {
    hide Hole, FeedFrom, DoResync;
    var plan := PlanOf(call, ev);
    WholeHoleBehind(ops, dir, s, plan.tail, pre);
    var s1 := Hole(ops, dir, s, plan.tail);
    WholeHoleBehind(ops, dir, s1, plan.gap, pre);
    var s2 := if plan.anomaly then Anomaly(s1) else Hole(ops, dir, s1, plan.gap);
    ResyncBehind(ops, dir, s2, pre);
    var s3 := BeforeBytes(ops, dir, s, call, ev);
    FeedBehind(ops, dir, s3, ev.payload, ev.ts, s3.ctx.Blind(), pre);
  }

  // ---- the connections of the table and those of the slab agent -------------

  function LinkOf(c: Conn): SlabTheorems.Link { SlabTheorems.Link(c.ops, c.ctx, c.send, c.recv) }

  /** The slab agent holds the table's connections, in the order of `ids`. */
  ghost predicate Mirrored(ids: seq<nat>, conns: map<nat, Conn>, links: seq<SlabTheorems.Link>)
  {
    && NoDup(ids) && |links| == |ids| && (forall k :: k in ids <==> k in conns)
    && (forall i :: 0 <= i < |ids| ==> links[i] == LinkOf(conns[ids[i]]))
  }

  lemma Found(ids: seq<nat>, conns: map<nat, Conn>, links: seq<SlabTheorems.Link>, k: nat)
    requires Mirrored(ids, conns, links) && k in conns
    ensures Find(ids, k) < |links| && links[Find(ids, k)] == LinkOf(conns[k])
  {
    FindFirst(ids, k);
  }

  lemma PutMirrored(ids: seq<nat>, conns: map<nat, Conn>, links: seq<SlabTheorems.Link>, k: nat, c: Conn)
    requires Mirrored(ids, conns, links) && k in conns
    ensures Find(ids, k) < |links| && Mirrored(ids, conns[k := c], links[Find(ids, k) := LinkOf(c)])
  {
    FindFirst(ids, k);
    var at := Find(ids, k);
    assert forall i :: 0 <= i < |ids| && i != at ==> ids[i] != k;
  }

  lemma SameMirrored(ids: seq<nat>, conns: map<nat, Conn>, links: seq<SlabTheorems.Link>, k: nat, c: Conn)
    requires Mirrored(ids, conns, links) && k in conns && LinkOf(c) == LinkOf(conns[k])
    ensures Mirrored(ids, conns[k := c], links)
  {
  }

  lemma LeaveMirrored(ids: seq<nat>, conns: map<nat, Conn>, links: seq<SlabTheorems.Link>, k: nat)
    requires Mirrored(ids, conns, links) && k in conns
    ensures var at := Find(ids, k);
            at < |links| && Mirrored(RemoveFrom(ids, k), conns - {k}, links[..at] + links[at + 1..])
  {
    FindFirst(ids, k);
    RemovedOnce(ids, k);
    hide NoDup;
    var at, rest := Find(ids, k), RemoveFrom(ids, k);
    forall i | 0 <= i < |rest|
      ensures (links[..at] + links[at + 1..])[i] == LinkOf(conns[rest[i]])
    {
      var j := if i < at then i else i + 1;
      assert rest[i] == ids[j];
    }
  }

  lemma JoinMirrored(ids: seq<nat>, conns: map<nat, Conn>, links: seq<SlabTheorems.Link>, k: nat, c: Conn)
    requires Mirrored(ids, conns, links) && k !in conns
    ensures Mirrored(ids + [k], conns[k := c], links + [LinkOf(c)])
  {
    NoDupJoin(ids, [k]);
  }

  /** The cookies of the slab agent's connections, and the acts that led to them. */
  datatype Story = Story(ids: seq<nat>, acts: seq<SlabTheorems.Act>)
  {
    function Then(a: SlabTheorems.Act): Story { this.(acts := acts + [a]) }

    /** Where the slab agent keeps a connection. */
    function At(k: nat): nat { Find(ids, k) }
  }

  const NOBODY := SlabTheorems.World([], [], ZERO_STATS)

  function Lived(y: Story): SlabTheorems.World { SlabTheorems.Run(NOBODY, y.acts) }

  lemma LivedThen(y: Story, a: SlabTheorems.Act)
    ensures Lived(y.Then(a)) == SlabTheorems.Applied(Lived(y), a)
  {
    assert (y.acts + [a])[..|y.acts|] == y.acts;
  }

  ghost predicate Tells(y: Story, conns: map<nat, Conn>, out: seq<Event>, st: Stats)
  {
    Mirrored(y.ids, conns, Lived(y).links) && Lived(y).out == out && Lived(y).st == st
  }

  // ---- the table's operations as acts ---------------------------------------

  /** mark_dirty where events were lost. */
  function Gapped(y: Story, k: nat, lost: nat): Story { if lost > 0 then y.Then(SlabTheorems.Dirty(y.At(k))) else y }

  function Gone(y: Story, k: nat): Story { Story(RemoveFrom(y.ids, k), y.acts + [SlabTheorems.Leave(y.At(k))]) }

  /** create: the coldest entry makes room, and the new one waits for a boundary or not. */
  function Made(y: Story, t: Table, k: nat, ops: Ops, dirty: bool): Story
  {
    var r := if t.st.active >= t.max && t.order != [] && Last(t.order) in t.conns then Gone(y, Last(t.order)) else y;
    var j := Story(r.ids + [k], r.acts + [SlabTheorems.Join(ops, Ctx(0, false, false, false))]);
    if dirty then j.Then(SlabTheorems.Dirty(|r.ids|)) else j
  }

  lemma GappedTells(y: Story, conns: map<nat, Conn>, out: seq<Event>, st: Stats, k: nat, lost: nat, c: Conn)
    requires Tells(y, conns, out, st) && k in conns
    requires LinkOf(c) == LinkOf(if lost > 0 then MarkDirty(conns[k]) else conns[k])
    ensures Tells(Gapped(y, k, lost), conns[k := c], out, st) && Gapped(y, k, lost).ids == y.ids
  {
    hide Mirrored, Lived;
    if lost > 0 {
      LivedThen(y, SlabTheorems.Dirty(y.At(k)));
      Found(y.ids, conns, Lived(y).links, k);
      PutMirrored(y.ids, conns, Lived(y).links, k, c);
    } else {
      SameMirrored(y.ids, conns, Lived(y).links, k, c);
    }
  }

  lemma GoneTells(y: Story, conns: map<nat, Conn>, out: seq<Event>, st: Stats, k: nat)
    requires Tells(y, conns, out, st) && k in conns
    ensures Tells(Gone(y, k), conns - {k}, out, st)
  {
    hide Mirrored, Lived;
    LivedThen(y, SlabTheorems.Leave(y.At(k)));
    LeaveMirrored(y.ids, conns, Lived(y).links, k);
    SameActs(Gone(y, k), y.Then(SlabTheorems.Leave(y.At(k))));
  }

  lemma SameActs(x: Story, y: Story)
    requires x.acts == y.acts
    ensures Lived(x) == Lived(y)
  {
  }

  /** A new connection. */
  lemma JoinTells(y: Story, conns: map<nat, Conn>, out: seq<Event>, st: Stats, k: nat, c: Conn)
    requires Tells(y, conns, out, st) && k !in conns
    requires LinkOf(c) == SlabTheorems.Link(c.ops, Ctx(0, false, false, false), FRESH_FLOW, FRESH_FLOW)
    ensures Tells(Story(y.ids + [k], y.acts + [SlabTheorems.Join(c.ops, Ctx(0, false, false, false))]), conns[k := c],
                  out, st)
  {
    hide Mirrored, Lived;
    var a := SlabTheorems.Join(c.ops, Ctx(0, false, false, false));
    LivedThen(y, a);
    JoinMirrored(y.ids, conns, Lived(y).links, k, c);
    SameActs(Story(y.ids + [k], y.acts + [a]), y.Then(a));
  }

  lemma FindNew(ids: seq<nat>, k: nat)
    requires k !in ids
    ensures Find(ids + [k], k) == |ids|
  {
    FindFirst(ids + [k], k);
  }

  lemma MadeTells(y: Story, t: Table, out: seq<Event>, st: Stats, k: nat, c: Conn, dirty: bool)
    requires Tells(y, t.conns, out, st) && k !in t.conns
    requires LinkOf(c) == SlabTheorems.Link(c.ops, Ctx(0, false, false, false), FRESH_FLOW, FRESH_FLOW)
    ensures Tells(Made(y, t, k, c.ops, dirty), Create(t, k, if dirty then MarkDirty(c) else c).conns, out, st)
  {
    hide Mirrored, Lived, Tells;
    var room := t.st.active >= t.max && t.order != [] && Last(t.order) in t.conns;
    var r := if room then Gone(y, Last(t.order)) else y;
    if room { GoneTells(y, t.conns, out, st, Last(t.order)); }
    var conns: map<nat, Conn> := MakeRoom(t).conns;
    JoinTells(r, conns, out, st, k, c);
    var j := Story(r.ids + [k], r.acts + [SlabTheorems.Join(c.ops, Ctx(0, false, false, false))]);
    if dirty {
      NotYet(r, conns, out, st, k);
      FindNew(r.ids, k);
      GappedTells(j, conns[k := c], out, st, k, 1, MarkDirty(c));
      PutTwice(conns, k, c, MarkDirty(c));
    }
  }

  lemma PutTwice(conns: map<nat, Conn>, k: nat, c: Conn, d: Conn)
    ensures conns[k := c][k := d] == conns[k := d]
  {
  }

  lemma NotYet(y: Story, conns: map<nat, Conn>, out: seq<Event>, st: Stats, k: nat)
    requires Tells(y, conns, out, st) && k !in conns
    ensures k !in y.ids
  {
  }

  // ---- the router's steps as acts -------------------------------------------

  /** What the sink heard, without the cookies. */
  function Events(log: seq<Emission>): seq<Event>
  {
    if log == [] then [] else Events(log[..|log| - 1]) + [log[|log| - 1].ev]
  }

  lemma EventsSnoc(log: seq<Emission>, e: Emission)
    ensures Events(log + [e]) == Events(log) + [e.ev]
  {
    assert (log + [e])[..|log|] == log;
  }

  lemma Regroup<T>(a: seq<T>, b: seq<T>, c: seq<T>)
    ensures a + (b + c) == (a + b) + c
  {
  }

  lemma {:induction false} EventsLabelled(log: seq<Emission>, k: nat, out: seq<Event>)
    ensures Events(log + Labelled(k, out)) == Events(log) + out
    decreases |out|
  {
    hide Events;
    if out == [] {
      assert log + Labelled(k, out) == log;
    } else {
      var init, e := out[..|out| - 1], out[|out| - 1];
      EventsLabelled(log, k, init);
      Regroup(log, Labelled(k, init), [Emission(k, e)]);
      EventsSnoc(log + Labelled(k, init), Emission(k, e));
      Regroup(Events(log), init, [e]);
      assert out == init + [e];
    }
  }

  ghost predicate Follows(y: Story, s: Pipe) { Tells(y, s.t.conns, Events(s.log), s.st) }

  /** An event reaches a connection's framer. */
  function Arrived(y: Story, k: nat, dir: Dir, ev: DataEvent): Story { y.Then(SlabTheorems.Arrive(y.At(k), dir, ev)) }

  /** The framer behind everything logged so far does what the one with an empty log does. */
  lemma FedInPlace(c: Conn, dir: Dir, ev: DataEvent, out: seq<Event>, st: Stats)
    ensures var l := LinkOf(c);
            var s := Framer(l.ctx, l.In(dir).f, out, st);
            var t := ReasmData(l.ops, dir, s, l.In(dir).call, ev);
            var r := Fed(c, dir, ev, st);
            && t.out == out + r.out && t.st == r.st
            && l.With(dir, Flow(t.f, ReasmCall(s, l.In(dir).call, ev))).(ctx := t.ctx) == LinkOf(Taken(c, dir, ev, st))
  {
    hide ReasmData;
    ReasmDataBehind(c.ops, dir, FramerOf(c, dir, st), c.In(dir).call, ev, out);
    assert out + [] == out;
  }

  lemma FedTells(y: Story, s: Pipe, k: nat, dir: Dir, ev: DataEvent)
    requires Follows(y, s) && k in s.t.conns
    ensures Follows(Arrived(y, k, dir, ev), FeedConn(s, k, dir, ev))
  {
    hide Mirrored, Lived, ReasmData, Taken, Fed, Events, LinkOf;
    var c, w := s.t.conns[k], Lived(y);
    LivedThen(y, SlabTheorems.Arrive(y.At(k), dir, ev));
    Found(y.ids, s.t.conns, w.links, k);
    FedInPlace(c, dir, ev, w.out, w.st);
    PutMirrored(y.ids, s.t.conns, w.links, k, Taken(c, dir, ev, s.st));
    EventsLabelled(s.log, k, Fed(c, dir, ev, s.st).out);
  }

  /** lk_conn_tls_reset_framing behind the flag. */
  function Flipped(y: Story, k: nat, midstream: bool): Story
  {
    var r := y.Then(SlabTheorems.Encrypt(y.At(k))).Then(SlabTheorems.Restart(y.At(k)));
    if midstream then r.Then(SlabTheorems.Dirty(y.At(k))) else r
  }

  /** An act that gives one connection a new value. */
  lemma ActTells(y: Story, conns: map<nat, Conn>, out: seq<Event>, st: Stats, k: nat, c: Conn, a: SlabTheorems.Act)
    requires Tells(y, conns, out, st) && k in conns
    requires var w := Lived(y);
             y.At(k) < |w.links| ==> SlabTheorems.Applied(w, a) == w.(links := w.links[y.At(k) := LinkOf(c)])
    ensures Tells(y.Then(a), conns[k := c], out, st)
  {
    hide Mirrored, Lived, SlabTheorems.Applied;
    LivedThen(y, a);
    PutMirrored(y.ids, conns, Lived(y).links, k, c);
  }

  lemma FlippedTells(y: Story, s: Pipe, k: nat, midstream: bool)
    requires Follows(y, s) && k in s.t.conns
    ensures Follows(Flipped(y, k, midstream), s.(t := GoTls(s.t, k, midstream)))
  {
    hide Mirrored, Lived, Events;
    var conns, c := s.t.conns, s.t.conns[k];
    var out, st := Events(s.log), s.st;
    var c1 := c.(ctx := c.ctx.(tls := true));
    var c2 := Restarted(c1, false);
    Found(y.ids, conns, Lived(y).links, k);
    ActTells(y, conns, out, st, k, c1, SlabTheorems.Encrypt(y.At(k)));
    var y1 := y.Then(SlabTheorems.Encrypt(y.At(k)));
    Found(y1.ids, conns[k := c1], Lived(y1).links, k);
    ActTells(y1, conns[k := c1], out, st, k, c2, SlabTheorems.Restart(y.At(k)));
    PutTwice(conns, k, c1, c2);
    var y2 := y1.Then(SlabTheorems.Restart(y.At(k)));
    if midstream {
      GappedTells(y2, conns[k := c2], out, st, k, 1, MarkDirty(c2));
      PutTwice(conns, k, c2, MarkDirty(c2));
    }
  }

  /** The acts of an OPEN or of the table's part of a data event. */
  function Noticed(y: Story, t: Table, k: nat, lost: nat, ops: Ops, dirty: bool): Story
  {
    if k in t.conns then Gapped(y, k, lost) else Made(y, t, k, ops, dirty)
  }

  function LostAt(t: Table, k: nat, seqNo: nat): nat { if k in t.conns then Gap(seqNo, t.conns[k].lastSeq) else 0 }

  function LostTlsAt(t: Table, k: nat, seqNo: nat): nat { if k in t.conns then GapTls(t.conns[k], seqNo) else 0 }

  lemma OpenTells(y: Story, s: Pipe, k: nat, seqNo: nat, ts: nat, ops: Ops, synthetic: bool)
    requires Follows(y, s)
    ensures Follows(Noticed(y, s.t, k, LostAt(s.t, k, seqNo), ops, synthetic),
                    s.(t := Open(s.t, k, seqNo, ts, ops, synthetic)))
    ensures Follows(Noticed(y, s.t, k, LostAt(s.t, k, seqNo), ops, true), s.(t := Data(s.t, k, seqNo, ts, ops)))
  {
    hide Mirrored, Lived, Events, Tells, Gapped, Made, Create;
    var out := Events(s.log);
    if k in s.t.conns {
      GappedTells(y, s.t.conns, out, s.st, k, LostAt(s.t, k, seqNo), Seen(s.t.conns[k], seqNo, ts));
    } else {
      MadeTells(y, s.t, out, s.st, k, Born(ops, seqNo, ts), synthetic);
      MadeTells(y, s.t, out, s.st, k, Born(ops, seqNo, ts), true);
    }
  }

  lemma DecryptedTells(y: Story, s: Pipe, k: nat, seqNo: nat, ts: nat, ops: Ops)
    requires Follows(y, s)
    ensures Follows(Noticed(y, s.t, k, LostTlsAt(s.t, k, seqNo), ops, true),
                    s.(t := DataDecrypted(s.t, k, seqNo, ts, ops)))
  {
    hide Mirrored, Lived, Events, Tells, Gapped, Made, Create;
    var out := Events(s.log);
    if k in s.t.conns {
      GappedTells(y, s.t.conns, out, s.st, k, LostTlsAt(s.t, k, seqNo), SeenTls(s.t.conns[k], seqNo, ts));
    } else {
      MadeTells(y, s.t, out, s.st, k, Born(ops, seqNo, ts).(tlsSeen := true, tlsLastSeq := seqNo), true);
    }
  }

  function Parted(y: Story, t: Table, k: nat, seqNo: nat): Story
  {
    if k in t.conns then Gone(Gapped(y, k, LostAt(t, k, seqNo)), k) else y
  }

  lemma CloseTells(y: Story, s: Pipe, k: nat, seqNo: nat, ts: nat)
    requires Follows(y, s)
    ensures Follows(Parted(y, s.t, k, seqNo), s.(t := Close(s.t, k, seqNo, ts)))
  {
    hide Mirrored, Lived, Events, Tells, Gapped, Gone;
    if k in s.t.conns {
      var c, out := Seen(s.t.conns[k], seqNo, ts), Events(s.log);
      GappedTells(y, s.t.conns, out, s.st, k, LostAt(s.t, k, seqNo), c);
      GoneTells(Gapped(y, k, LostAt(s.t, k, seqNo)), s.t.conns[k := c], out, s.st, k);
    }
  }

  function SweptAway(y: Story, t: Table, now: nat): Story
    decreases |t.order|
  {
    if t.order == [] || !Idle(t, Last(t.order), now) then y
    else if |Swept(t).order| < |t.order| then SweptAway(Gone(y, Last(t.order)), Swept(t), now)
    else Gone(y, Last(t.order))
  }

  lemma {:induction false} SweepTells(y: Story, s: Pipe, now: nat)
    requires Follows(y, s)
    ensures Follows(SweptAway(y, s.t, now), s.(t := Sweep(s.t, now)))
    decreases |s.t.order|
  {
    hide Mirrored, Lived, Events, Tells, Gone;
    var t := s.t;
    if t.order != [] && Idle(t, Last(t.order), now) {
      GoneTells(y, t.conns, Events(s.log), s.st, Last(t.order));
      if |Swept(t).order| < |t.order| { SweepTells(Gone(y, Last(t.order)), s.(t := Swept(t)), now); }
    }
  }

  lemma DropTells(y: Story, s: Pipe, k: nat, seqNo: nat, ts: nat)
    requires Follows(y, s) && k in s.t.conns
    ensures Follows(y, s.(t := NoteTlsDrop(s.t, k, seqNo, ts)))
  {
    hide Mirrored, Lived, Events;
    var c := s.t.conns[k];
    SameMirrored(y.ids, s.t.conns, Lived(y).links, k, c.(lastSeq := Later(seqNo, c.lastSeq), activity := ts));
  }

  function ServedDecrypted(env: Env, s: Pipe, y: Story, k: nat, seqNo: nat, dir: Dir, ev: DataEvent): Story
  {
    var t := DataDecrypted(s.t, k, seqNo, ev.ts, env.dflt);
    var y1 := Noticed(y, s.t, k, LostTlsAt(s.t, k, seqNo), env.dflt, true);
    Arrived(if IsTls(t, k) then y1 else Flipped(y1, k, true), k, dir, ev)
  }

  function ServedRaw(env: Env, s: Pipe, y: Story, k: nat, seqNo: nat, dir: Dir, ev: DataEvent): Story
  {
    var t := Data(s.t, k, seqNo, ev.ts, env.dflt);
    var y1 := Arrived(Noticed(y, s.t, k, LostAt(s.t, k, seqNo), env.dflt, true), k, dir, ev);
    if !IsTls(t, k) && IsTls(FeedConn(s.(t := t), k, dir, ev).t, k) then Flipped(y1, k, false) else y1
  }

  /** One input of the router as acts of the slab agent. */
  function Routed(env: Env, s: Pipe, y: Story, i: Input): Story
  {
    match i
    case Opened(k, seqNo, ts, port, synthetic) =>
      Noticed(y, s.t, k, LostAt(s.t, k, seqNo), ProtoOf(env, port), synthetic)
    case Closed(k, seqNo, ts) => Parted(y, s.t, k, seqNo)
    case Sweeping(now) => SweptAway(y, s.t, now)
    case Chunk(k, seqNo, dir, ev) =>
      if IsTls(s.t, k) && !ev.decrypted then y
      else if ev.decrypted then ServedDecrypted(env, s, y, k, seqNo, dir, ev)
      else ServedRaw(env, s, y, k, seqNo, dir, ev)
  }

  /** What the router does to its connections, the slab agent does to its frames. */
  lemma RouteTells(env: Env, s: Pipe, y: Story, i: Input)
    requires Follows(y, s)
    ensures Follows(Routed(env, s, y, i), Route(env, s, i))
  {
    hide Follows, Noticed, Parted, SweptAway, Arrived, Flipped, Open, Data, DataDecrypted, Close, Sweep, NoteTlsDrop,
         FeedConn, GoTls, LostAt, LostTlsAt;
    match i
    case Opened(k, seqNo, ts, port, synthetic) => OpenTells(y, s, k, seqNo, ts, ProtoOf(env, port), synthetic);
    case Closed(k, seqNo, ts) => CloseTells(y, s, k, seqNo, ts);
    case Sweeping(now) => SweepTells(y, s, now);
    case Chunk(k, seqNo, dir, ev) =>
      if IsTls(s.t, k) && !ev.decrypted {
        DropTells(y, s, k, seqNo, ev.ts);
      } else if ev.decrypted {
        DecryptedTells(y, s, k, seqNo, ev.ts, env.dflt);
        var t := DataDecrypted(s.t, k, seqNo, ev.ts, env.dflt);
        var y1 := Noticed(y, s.t, k, LostTlsAt(s.t, k, seqNo), env.dflt, true);
        if !IsTls(t, k) { FlippedTells(y1, s.(t := t), k, true); }
        FedTells(if IsTls(t, k) then y1 else Flipped(y1, k, true),
                 s.(t := if IsTls(t, k) then t else GoTls(t, k, true)), k, dir, ev);
      } else {
        OpenTells(y, s, k, seqNo, ev.ts, env.dflt, true);
        var t := Data(s.t, k, seqNo, ev.ts, env.dflt);
        var y1 := Noticed(y, s.t, k, LostAt(s.t, k, seqNo), env.dflt, true);
        FedTells(y1, s.(t := t), k, dir, ev);
        var r := FeedConn(s.(t := t), k, dir, ev);
        if !IsTls(t, k) && IsTls(r.t, k) { FlippedTells(Arrived(y1, k, dir, ev), r, k, false); }
      }
  }

  // ---- whole runs -----------------------------------------------------------

  /** The acts of a run of the router. */
  function Told(env: Env, s: Pipe, run: seq<Input>): Story
  {
    if run == [] then Story([], [])
    else
      var init := run[..|run| - 1];
      Routed(env, Run(env, s, init), Told(env, s, init), run[|run| - 1])
  }

  /** Over every run: the framers of the router's connections, the log and the counters are
      those of the slab agent after the acts of the run. */
  lemma {:induction false} RunTells(env: Env, max: nat, idle: nat, run: seq<Input>)
    ensures Follows(Told(env, Start(max, idle), run), Run(env, Start(max, idle), run))
    decreases |run|
  {
    hide Follows, Routed, Route;
    if run == [] {
      NothingTold(max, idle);
    } else {
      var init := run[..|run| - 1];
      RunTells(env, max, idle, init);
      RouteTells(env, Run(env, Start(max, idle), init), Told(env, Start(max, idle), init), run[|run| - 1]);
    }
  }

  lemma NothingTold(max: nat, idle: nat)
    ensures Follows(Story([], []), Start(max, idle))
  {
  }

  /** Every protocol that joins is one of the environment. */
  ghost predicate JoinsOk(acts: seq<SlabTheorems.Act>)
  {
    forall i :: 0 <= i < |acts| && acts[i].Join? ==> acts[i].ops.Valid()
  }

  lemma SeenJoins(y: Story, t: Table, k: nat, lost: nat, ops: Ops, dirty: bool)
    requires JoinsOk(y.acts) && ops.Valid()
    ensures JoinsOk(Noticed(y, t, k, lost, ops, dirty).acts)
  {
    hide Ops.Valid, RemoveFrom, Find;
  }

  lemma {:induction false} SweptJoins(y: Story, t: Table, now: nat)
    requires JoinsOk(y.acts)
    ensures JoinsOk(SweptAway(y, t, now).acts)
    decreases |t.order|
  {
    hide Ops.Valid, RemoveFrom, Find, Swept;
    if t.order != [] && Idle(t, Last(t.order), now) && |Swept(t).order| < |t.order| {
      SweptJoins(Gone(y, Last(t.order)), Swept(t), now);
    }
  }

  lemma RoutedJoins(env: Env, s: Pipe, y: Story, i: Input)
    requires EnvOk(env) && JoinsOk(y.acts)
    ensures JoinsOk(Routed(env, s, y, i).acts)
  {
    hide Ops.Valid, Find, Noticed, SweptAway, Gapped, Data, DataDecrypted, FeedConn, ProtoOf;
    match i
    case Opened(k, seqNo, ts, port, synthetic) =>
      ProtoValid(env, port);
      SeenJoins(y, s.t, k, LostAt(s.t, k, seqNo), ProtoOf(env, port), synthetic);
    case Closed(k, seqNo, ts) => GappedJoins(y, k, LostAt(s.t, k, seqNo));
    case Sweeping(now) => SweptJoins(y, s.t, now);
    case Chunk(k, seqNo, dir, ev) =>
      SeenJoins(y, s.t, k, LostAt(s.t, k, seqNo), env.dflt, true);
      SeenJoins(y, s.t, k, LostTlsAt(s.t, k, seqNo), env.dflt, true);
  }

  lemma GappedJoins(y: Story, k: nat, lost: nat)
    requires JoinsOk(y.acts)
    ensures JoinsOk(Gapped(y, k, lost).acts)
  {
  }

  lemma {:induction false} ToldJoins(env: Env, s: Pipe, run: seq<Input>)
    requires EnvOk(env)
    ensures JoinsOk(Told(env, s, run).acts)
    decreases |run|
  {
    hide Routed, JoinsOk, EnvOk;
    if run == [] {
      NoJoins();
    } else {
      var init := run[..|run| - 1];
      ToldJoins(env, s, init);
      RoutedJoins(env, Run(env, s, init), Told(env, s, init), run[|run| - 1]);
    }
  }

  lemma NoJoins()
    ensures JoinsOk([])
  {
  }

  /** A run of the router on slabs: after any sequence of events, with connections that come,
      go, lose events and turn out to be encrypted, the frames updated in place are the
      framers of the router's table, what they emitted is what its sink heard, the pool is
      within its cap, and no slab is in two places. */
  method RunOnSlabs(env: Env, max: nat, idle: nat, run: seq<Input>) returns (a: SlabTheorems.Agent, ids: seq<nat>)
    requires EnvOk(env)
    ensures a.Valid() && |a.world.links| == |a.peers|
    ensures var s := Run(env, Start(max, idle), run);
            Mirrored(ids, s.t.conns, a.world.links) && a.world.out == Events(s.log) && a.world.st == s.st
    ensures |a.r.pool| <= 64 && forall f :: f in SlabTheorems.FramesOf(a.peers) ==> f.bufLen <= 16384
    ensures forall f, g :: f in SlabTheorems.FramesOf(a.peers) && g in SlabTheorems.FramesOf(a.peers) && f != g ==>
              f.buf != null ==> f.buf != g.buf && f.buf !in a.r.pool
  {
    hide SlabTheorems.FramesOf, SlabTheorems.Agent.Valid, SlabTheorems.Run, Run, Told, EnvOk, Mirrored, Events,
         Ops.Valid;
    var y := Told(env, Start(max, idle), run);
    a := new SlabTheorems.Agent();
    ids := y.ids;
    ToldJoins(env, Start(max, idle), run);
    a.Serve(y.acts);
    RunTells(env, max, idle, run);
    a.Sizes();
  }
}
