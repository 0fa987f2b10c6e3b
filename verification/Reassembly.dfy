/**
 The framer as src/agent/reassembly.c runs it: frames updated in place, body prefixes
 in fixed-size slabs drawn from a pool shared by all connections. Every method is
 proved against the byte-wise specification in `Framing`, and keeps each slab in
 exactly one place.
 */
module Reassembly {
  import opened Framing
  import opened Options
  import opened FramingTheorems
  import opened ChunkLayer
  import opened Memory

  lemma EndHeaderForgetsHdr(ops: Ops, dir: Dir, s: Framer, hdr: seq<Byte>, entryBlind: bool)
    ensures EndHeader(ops, dir, s.(f := s.f.(hdr := hdr)), hdr, entryBlind) == EndHeader(ops, dir, s, hdr, entryBlind)
  {
    var s' := s.(f := s.f.(hdr := hdr));
    match ops.parseHdr(s.ctx, dir, s.f.h, hdr)
    case None => assert Dirtied(s'.f) == Dirtied(s.f);
    case Some(h) => assert s'.(f := s'.f.(h := h, hdr := hdr)) == s.(f := s.f.(h := h, hdr := hdr));
  }

  /** The plan of an event, in the order the code works it out. */
  lemma PlanSplits(call: Call, ev: DataEvent)
    ensures var plan := PlanOf(call, ev);
            var c1 := if ev.off == 0 || call.total == 0 then Call(0, ev.total) else call;
            && plan.anomaly == (ev.total != c1.total || ev.off < c1.pos || ev.off + |ev.payload| > ev.total)
            && (!plan.anomaly ==> plan.gap == ev.off - c1.pos)
  {
  }

  lemma NoHole(ops: Ops, dir: Dir, s: Framer)
    ensures Hole(ops, dir, s, 0) == s
  {
  }

  lemma HoleEnds(ops: Ops, dir: Dir, s: Framer, entryBlind: bool)
    ensures HoleFrom(ops, dir, s, 0, entryBlind) == s
  {
  }

  /** lk_frame. */
  class Frame {
    var st: Phase
    var skipLeft: nat
    var msgTs: nat
    var h: Header
    var prefixClosed: bool
    var afterResync: bool
    var matched: nat
    const hdr: array<Byte>
    var hdrLen: nat
    var buf: array?<Byte>
    var bufLen: nat
    var call: Call

    constructor ()
      ensures Valid() && Value() == ZERO_FRAME && call == Call(0, 0) && fresh(hdr) && buf == null
    {
      st, skipLeft, msgTs, h := HEADER, 0, 0, NO_HEADER;
      prefixClosed, afterResync, matched := false, false, 0;
      hdr := new Byte[HDR_MAX](i => 0);
      hdrLen := 0;
      buf, bufLen := null, 0;
      call := Call(0, 0);
    }

    /** The header accumulator and the prefix fit their buffers; a slab is held exactly
        while there is a prefix to keep. */
    ghost predicate Valid()
      reads this
    {
      && hdr.Length == HDR_MAX && hdrLen <= HDR_MAX
      && (buf == null <==> bufLen == 0)
      && (buf != null ==> buf.Length == BODY_MAX && bufLen <= BODY_MAX)
    }

    /** memset. */
    method Zero()
      requires Valid()
      modifies this
      ensures Valid() && Value() == ZERO_FRAME && call == Call(0, 0) && buf == null
    {
      st, skipLeft, msgTs, h := HEADER, 0, 0, NO_HEADER;
      prefixClosed, afterResync, matched := false, false, 0;
      hdrLen, buf, bufLen := 0, null, 0;
      call := Call(0, 0);
    }

    ghost function Value(): Framing.Frame
      requires Valid()
      reads this, hdr, buf
    {
      Framing.Frame(st, skipLeft, msgTs, h, prefixClosed, afterResync, matched, hdr[..hdrLen],
                    if buf == null then [] else buf[..bufLen])
    }
  }

  /** The part of lk_conn the framer touches. */
  class Conn {
    var ctx: Ctx
    constructor (ctx: Ctx) ensures this.ctx == ctx { this.ctx := ctx; }
  }

  /** lk_reasm: the sink as a log, the counters, and the slab pool as a stack. */
  class Reasm {
    var out: seq<Event>
    var st: Stats
    var pool: seq<array<Byte>>

    constructor ()
      ensures out == [] && st == ZERO_STATS && pool == []
    {
      out, st, pool := [], ZERO_STATS, [];
    }

    ghost predicate PoolOk()
      reads this
    {
      && |pool| <= POOL_MAX
      && (forall i :: 0 <= i < |pool| ==> pool[i].Length == BODY_MAX)
      && (forall i, j :: 0 <= i < j < |pool| ==> pool[i] != pool[j])
    }

    /** The slabs one direction can touch: the pool's and its own. */
    ghost function Slabs(f: Frame): set<array<Byte>>
      reads this, f
    {
      (set b | b in pool) + if f.buf == null then {} else {f.buf}
    }

    ghost predicate Holds(f: Frame)
      reads this, f
      ensures Holds(f) ==> f.Valid()
    {
      PoolOk() && f.Valid() && (f.buf != null ==> f.buf !in pool)
    }

    ghost function State(c: Conn, f: Frame): Framer
      requires f.Valid()
      reads this, c, f, f.hdr, f.buf
    {
      Framer(c.ctx, f.Value(), out, st)
    }

    /** Every live slab is in one place: in the pool once, or in one frame. */
    ghost predicate Owned(frames: set<Frame>)
      reads this, frames
    {
      && PoolOk()
      && (forall f :: f in frames ==> Holds(f))
      && (forall f, g :: f in frames && g in frames && f != g ==> f.hdr != g.hdr && (f.buf != null ==> f.buf != g.buf))
    }

    /** buf_get: pop the pool or allocate. */
    method BufGet() returns (b: array<Byte>)
      requires PoolOk()
      modifies this`pool
      ensures PoolOk() && b.Length == BODY_MAX && b !in pool
      ensures old(pool) != [] ==> b == old(pool)[|old(pool)| - 1] && pool == old(pool)[..|old(pool)| - 1]
      ensures old(pool) == [] ==> fresh(b) && pool == []
    {
      if |pool| > 0 {
        b := pool[|pool| - 1];
        pool := pool[..|pool| - 1];
      } else {
        b := new Byte[BODY_MAX](i => 0);
      }
    }

    /** buf_put: recycle the slab, or give it back past the cap. */
    method BufPut(b: array?<Byte>)
      requires PoolOk() && (b != null ==> b.Length == BODY_MAX && b !in pool)
      modifies this`pool
      ensures PoolOk()
      ensures pool == if b != null && |old(pool)| < POOL_MAX then old(pool) + [b] else old(pool)
    {
      if b != null && |pool| < POOL_MAX {
        pool := pool + [b];
      }
    }

    method MsgReset(f: Frame, ghost c: Conn)
      requires Holds(f)
      modifies this`pool, f
      ensures Holds(f) && Slabs(f) <= old(Slabs(f)) && f.buf == null && f.call == old(f.call)
      ensures State(c, f) == old(State(c, f)).(f := Framing.MsgReset(old(f.Value())))
    {
      BufPut(f.buf);
      f.buf, f.bufLen, f.hdrLen := null, 0, 0;
      f.h := f.h.(bodyLen := 0, cont := false);
      f.prefixClosed := false;
      f.st := HEADER;
    }

    method Emit(ops: Ops, dir: Dir, c: Conn, f: Frame, body: seq<Byte>)
      requires Holds(f)
      modifies this`out, this`st, c, f`afterResync
      ensures State(c, f) == Framing.Emit(ops, dir, old(State(c, f)), body)
    {
      var pre := ops.preEmit(c.ctx, dir, f.h, body);
      var trunc := |body| < f.h.bodyTotal;
      var m := Message(f.msgTs, pre.typ, pre.flags, f.afterResync, trunc, f.h.len, body);
      c.ctx := pre.ctx;
      f.afterResync := false;
      if trunc {
        st := st.(msgsTrunc := st.msgsTrunc + 1);
      }
      st := st.(msgs := st.msgs + 1);
      out := out + [Emitted(dir, m)];
    }

    method GoDirty(f: Frame, ghost c: Conn)
      requires Holds(f)
      modifies this`pool, f
      ensures Holds(f) && Slabs(f) <= old(Slabs(f)) && f.call == old(f.call)
      ensures State(c, f) == old(State(c, f)).(f := Dirtied(old(f.Value())))
    {
      MsgReset(f, c);
      f.skipLeft, f.matched, f.st := 0, 0, DIRTY;
    }

    method Resync(ops: Ops, dir: Dir, c: Conn, f: Frame)
      requires Holds(f)
      modifies this, c, f
      ensures Holds(f) && Slabs(f) <= old(Slabs(f)) && f.call == old(f.call)
      ensures State(c, f) == DoResync(ops, dir, old(State(c, f)))
    {
      MsgReset(f, c);
      f.skipLeft, f.matched, f.afterResync := 0, 0, true;
      c.ctx := c.ctx.(p := ops.resynced(c.ctx.p, dir));
      st := st.(resyncs := st.resyncs + 1);
      out := out + [Resynced(dir)];
    }

    method WentBlind(c: Conn, f: Frame, entryBlind: bool) returns (cut: bool)
      requires Holds(f)
      modifies this`st
      ensures Stepped(State(c, f), cut) == BlindCheck(old(State(c, f)), entryBlind)
    {
      cut := !entryBlind && (c.ctx.tls || c.ctx.ignore);
      if cut && c.ctx.tls {
        st := st.(tlsConns := st.tlsConns + 1);
      }
    }

    /** Emit the message, recycle its slab and skip what is left of its body. */
    method Finish(ops: Ops, dir: Dir, c: Conn, f: Frame, body: seq<Byte>, skip: nat, entryBlind: bool)
      returns (cut: bool)
      requires Holds(f)
      modifies this, c, f
      ensures Holds(f) && Slabs(f) <= old(Slabs(f)) && f.call == old(f.call)
      ensures var e := Framing.Emit(ops, dir, old(State(c, f)), body);
              Stepped(State(c, f), cut) == BlindCheck(e.(f := SkipTo(Framing.MsgReset(e.f), skip)), entryBlind)
    {
      Emit(ops, dir, c, f, body);
      MsgReset(f, c);
      if skip > 0 {
        f.st, f.skipLeft := SKIP, skip;
      }
      cut := WentBlind(c, f, entryBlind);
    }

    /** LK_FR_HEADER: take header bytes, and act on a complete header. */
    method HeaderStep(ops: Ops, dir: Dir, c: Conn, f: Frame, p: seq<Byte>, ts: nat, entryBlind: bool)
      returns (used: nat, cut: bool)
      requires ops.Valid() && Holds(f) && Ok(ops, dir, State(c, f)) && f.st.HEADER? && p != []
      modifies this, c, f, f.hdr
      ensures Holds(f) && Slabs(f) <= old(Slabs(f)) && f.call == old(f.call)
      ensures 0 < used <= |p|
      ensures Stepped(State(c, f), cut) == FeedFrom(ops, dir, old(State(c, f)), p[..used], ts, entryBlind)
    {
      hide FeedFrom, EndHeader, Holds;
      var size := ops.hdrSize(c.ctx.p, dir);
      HeaderRoom(ops, dir, c, f);
      used := size - f.hdrLen;
      if used > |p| { used := |p|; }
      HeaderBulk(ops, dir, State(c, f), p[..used], ts, entryBlind);
      ghost var s1 := State(c, f).(f := Stamp(f.Value(), ts));
      Collect(f, p[..used], ts, c);
      cut := false;
      if f.hdrLen == size {
        EndHeaderForgetsHdr(ops, dir, s1, f.hdr[..f.hdrLen], entryBlind);
        cut := HeaderDone(ops, dir, c, f, entryBlind);
      }
    }

    lemma HeaderRoom(ops: Ops, dir: Dir, c: Conn, f: Frame)
      requires ops.Valid() && Holds(f) && Ok(ops, dir, State(c, f)) && f.st.HEADER?
      ensures f.hdrLen == |f.Value().hdr| < ops.hdrSize(c.ctx.p, dir) <= HDR_MAX && f.hdr.Length == HDR_MAX
    {
    }

    /** Header bytes join the accumulator, and the first of a message is its time. */
    method Collect(f: Frame, src: seq<Byte>, ts: nat, ghost c: Conn)
      requires Holds(f) && f.hdrLen + |src| <= HDR_MAX
      modifies f`msgTs, f`hdrLen, f.hdr
      ensures Holds(f) && f.hdrLen == old(f.hdrLen) + |src|
      ensures var g := Stamp(old(f.Value()), ts);
              State(c, f) == old(State(c, f)).(f := g.(hdr := g.hdr + src))
    {
      if f.hdrLen == 0 && !f.h.cont {
        f.msgTs := ts;
      }
      Copy(f.hdr, f.hdrLen, src);
      f.hdrLen := f.hdrLen + |src|;
      assert f.hdr[..f.hdrLen] == old(f.hdr[..f.hdrLen]) + src;
    }

    /** The message ends with its header; the slab holds what was glued before. */
    method EmptyBody(ops: Ops, dir: Dir, c: Conn, f: Frame, entryBlind: bool) returns (cut: bool)
      requires Holds(f)
      modifies this, c, f
      ensures Holds(f) && Slabs(f) <= old(Slabs(f)) && f.call == old(f.call)
      ensures var e := Framing.Emit(ops, dir, old(State(c, f)), old(f.Value()).buf);
              Stepped(State(c, f), cut) == BlindCheck(e.(f := Framing.MsgReset(e.f)), entryBlind)
    {
      var body := if f.buf == null then [] else f.buf[..f.bufLen];
      cut := Finish(ops, dir, c, f, body, 0, entryBlind);
    }

    /** The header is complete. */
    method HeaderDone(ops: Ops, dir: Dir, c: Conn, f: Frame, entryBlind: bool) returns (cut: bool)
      requires Holds(f)
      modifies this, c, f
      ensures Holds(f) && Slabs(f) <= old(Slabs(f)) && f.call == old(f.call)
      ensures Stepped(State(c, f), cut) == EndHeader(ops, dir, old(State(c, f)), old(f.hdr[..f.hdrLen]), entryBlind)
    {
      match ops.parseHdr(c.ctx, dir, f.h, f.hdr[..f.hdrLen])
      case None =>
        st := st.(badLen := st.badLen + 1);
        GoDirty(f, c);
        cut := true;
      case Some(h) =>
        cut := Accept(ops, dir, c, f, h, entryBlind);
    }

    /** parse_hdr accepted the header. */
    method Accept(ops: Ops, dir: Dir, c: Conn, f: Frame, h: Header, entryBlind: bool) returns (cut: bool)
      requires Holds(f)
      modifies this, c, f
      ensures Holds(f) && Slabs(f) <= old(Slabs(f)) && f.call == old(f.call)
      ensures var s := old(State(c, f)).(f := old(f.Value()).(h := h));
              Stepped(State(c, f), cut) ==
              if h.bodyLen == 0 then
                var e := Framing.Emit(ops, dir, s, s.f.buf);
                BlindCheck(e.(f := Framing.MsgReset(e.f)), entryBlind)
              else Stepped(s.(f := s.f.(st := BODY)), false)
    {
      hide Framing.Emit, BlindCheck, Framing.MsgReset;
      f.h := h;
      if h.bodyLen == 0 {
        cut := EmptyBody(ops, dir, c, f, entryBlind);
      } else {
        f.st := BODY;
        cut := false;
      }
    }

    /** Extend the kept prefix, drawing a slab for the first byte of it. */
    method Append(f: Frame, src: seq<Byte>, ghost c: Conn)
      requires Holds(f) && src != [] && f.bufLen + |src| <= BODY_MAX
      modifies this`pool, f`buf, f`bufLen, Slabs(f)
      ensures Holds(f) && fresh(Slabs(f) - old(Slabs(f)))
      ensures State(c, f) == old(State(c, f)).(f := old(f.Value()).(buf := old(f.Value()).buf + src))
    {
      if f.buf == null {
        f.buf := BufGet();
      }
      Copy(f.buf, f.bufLen, src);
      f.bufLen := f.bufLen + |src|;
      assert f.buf[..f.bufLen] == old(f.Value()).buf + src;
    }

    /** LK_FR_BODY with an open prefix. */
    method OpenBodyStep(ops: Ops, dir: Dir, c: Conn, f: Frame, p: seq<Byte>, ts: nat, entryBlind: bool)
      returns (used: nat, cut: bool)
      requires ops.Valid() && Holds(f) && Ok(ops, dir, State(c, f)) && f.st.BODY? && !f.prefixClosed && p != []
      modifies this, c, f, Slabs(f)
      ensures Holds(f) && fresh(Slabs(f) - old(Slabs(f))) && f.call == old(f.call)
      ensures 0 < used <= |p|
      ensures Stepped(State(c, f), cut) == FeedFrom(ops, dir, old(State(c, f)), p[..used], ts, entryBlind)
    {
      hide FeedFrom, CloseBody, Ops.Valid;
      var target := BodyTarget(f.h);
      var rem := target - f.bufLen;
      used := if |p| < rem then |p| else rem;
      BodyBulk(ops, dir, State(c, f), p[..used], ts, entryBlind);
      cut := false;
      if |p| < rem {
        assert p[..used] == p;
        Append(f, p, c);
      } else {
        cut := ClosePrefix(ops, dir, c, f, p[..used], f.h.bodyLen - target, entryBlind);
      }
    }

    /** The rest of the prefix is here: pin it when more fragments follow, otherwise
        emit it. */
    method ClosePrefix(ops: Ops, dir: Dir, c: Conn, f: Frame, rest: seq<Byte>, skip: nat, entryBlind: bool)
      returns (cut: bool)
      requires Holds(f) && f.st.BODY? && f.bufLen + |rest| <= BODY_MAX
      modifies this, c, f, Slabs(f)
      ensures Holds(f) && fresh(Slabs(f) - old(Slabs(f))) && f.call == old(f.call)
      ensures Stepped(State(c, f), cut) ==
              CloseBody(ops, dir, old(State(c, f)), old(f.Value()).buf + rest, skip, entryBlind)
    {
      if f.h.cont {
        Pin(c, f, rest, skip);
        cut := false;
      } else {
        cut := Deliver(ops, dir, c, f, rest, skip, entryBlind);
      }
    }

    /** No emission yet: the prefix must outlive the chunk. */
    method Pin(ghost c: Conn, f: Frame, rest: seq<Byte>, skip: nat)
      requires Holds(f) && f.bufLen + |rest| <= BODY_MAX
      modifies this`pool, f, Slabs(f)
      ensures Holds(f) && fresh(Slabs(f) - old(Slabs(f))) && f.call == old(f.call)
      ensures var g := old(f.Value());
              State(c, f) == old(State(c, f)).(f := SkipTo(g.(buf := g.buf + rest, prefixClosed := true, hdr := []),
                                                           skip))
    {
      if rest != [] {
        Append(f, rest, c);
      } else {
        assert f.Value().buf + rest == f.Value().buf;
      }
      f.prefixClosed, f.hdrLen, f.st := true, 0, HEADER;
      if skip > 0 {
        f.st, f.skipLeft := SKIP, skip;
      }
    }

    /** Emit from the slab when the prefix was spilled, otherwise straight from the chunk. */
    method Deliver(ops: Ops, dir: Dir, c: Conn, f: Frame, rest: seq<Byte>, skip: nat, entryBlind: bool)
      returns (cut: bool)
      requires Holds(f) && !f.h.cont && f.bufLen + |rest| <= BODY_MAX
      modifies this, c, f, Slabs(f)
      ensures Holds(f) && Slabs(f) <= old(Slabs(f)) && f.call == old(f.call)
      ensures Stepped(State(c, f), cut) ==
              CloseBody(ops, dir, old(State(c, f)), old(f.Value()).buf + rest, skip, entryBlind)
    {
      var body := rest;
      if f.buf != null {
        Copy(f.buf, f.bufLen, rest);
        body := f.buf[..f.bufLen + |rest|];
      }
      assert body == old(f.Value()).buf + rest;
      assert State(c, f) == old(State(c, f));
      cut := Finish(ops, dir, c, f, body, skip, entryBlind);
    }

    /** LK_FR_SKIP. */
    method SkipStep(ops: Ops, dir: Dir, ghost c: Conn, f: Frame, p: seq<Byte>, ghost ts: nat, ghost entryBlind: bool)
      returns (used: nat)
      requires Holds(f) && Ok(ops, dir, State(c, f)) && f.st.SKIP? && p != []
      modifies f`st, f`skipLeft
      ensures Holds(f) && 0 < used <= |p|
      ensures Stepped(State(c, f), false) == FeedFrom(ops, dir, old(State(c, f)), p[..used], ts, entryBlind)
    {
      used := if f.skipLeft < |p| then f.skipLeft else |p|;
      SkipBulk(ops, dir, State(c, f), p[..used], ts, entryBlind);
      f.skipLeft := f.skipLeft - used;
      if f.skipLeft == 0 {
        f.st := HEADER;
      }
    }

    /** LK_FR_DIRTY: look for an anchor, and resume framing behind it. */
    method DirtyStep(ops: Ops, dir: Dir, c: Conn, f: Frame, b: Byte)
      requires Holds(f)
      modifies this, c, f
      ensures Holds(f) && Slabs(f) <= old(Slabs(f)) && f.call == old(f.call)
      ensures Stepped(State(c, f), false) == StepDirty(ops, dir, old(State(c, f)), b)
    {
      var (m, found) := ops.scan(c.ctx, dir, f.matched, b);
      f.matched := m;
      if found {
        Resync(ops, dir, c, f);
      }
    }

    /** A turn that takes bytes. */
    method TakeBytes(ops: Ops, dir: Dir, c: Conn, f: Frame, p: seq<Byte>, ts: nat, entryBlind: bool)
      returns (used: nat, cut: bool)
      requires ops.Valid() && Holds(f) && Ok(ops, dir, State(c, f)) && p != [] && !(f.st.BODY? && f.prefixClosed)
      modifies this, c, f, f.hdr, Slabs(f)
      ensures Holds(f) && fresh(Slabs(f) - old(Slabs(f))) && f.call == old(f.call)
      ensures 0 < used <= |p|
      ensures Stepped(State(c, f), cut) == FeedFrom(ops, dir, old(State(c, f)), p[..used], ts, entryBlind)
    {
      match f.st {
        case HEADER => used, cut := HeaderStep(ops, dir, c, f, p, ts, entryBlind);
        case BODY => used, cut := OpenBodyStep(ops, dir, c, f, p, ts, entryBlind);
        case SKIP =>
          used := SkipStep(ops, dir, c, f, p, ts, entryBlind);
          cut := false;
        case DIRTY =>
          DirtyStep(ops, dir, c, f, p[0]);
          used, cut := 1, false;
          assert FeedFrom(ops, dir, State(c, f), p[..1][1..], ts, entryBlind) == Stepped(State(c, f), false);
      }
    }

    /** One turn of the loop of lk_frame_bytes over what is left of the chunk. */
    method Turn(ops: Ops, dir: Dir, c: Conn, f: Frame, p: seq<Byte>, ts: nat, entryBlind: bool)
      returns (used: nat, cut: bool)
      requires ops.Valid() && Holds(f) && Ok(ops, dir, State(c, f)) && p != []
      modifies this, c, f, f.hdr, Slabs(f)
      ensures Holds(f) && fresh(Slabs(f) - old(Slabs(f))) && f.call == old(f.call)
      ensures used <= |p| && Ok(ops, dir, State(c, f))
      ensures FeedFrom(ops, dir, old(State(c, f)), p, ts, entryBlind) ==
              if cut then Stepped(State(c, f), true) else FeedFrom(ops, dir, State(c, f), p[used..], ts, entryBlind)
      ensures !cut ==> used > 0 || (old(f.st).BODY? && f.st.SKIP?)
    {
      hide FeedFrom, CloseBody, Ops.Valid;
      ghost var s := State(c, f);
      if f.st.BODY? && f.prefixClosed {
        ClosedBodyFeeds(ops, dir, s, p, ts, entryBlind);
        CloseBodyKeeps(ops, dir, s, s.f.buf, s.f.h.bodyLen, entryBlind);
        assert s.f.buf + [] == s.f.buf;
        cut := ClosePrefix(ops, dir, c, f, [], f.h.bodyLen, entryBlind);
        used := 0;
        assert p[0..] == p;
      } else {
        used, cut := TakeBytes(ops, dir, c, f, p, ts, entryBlind);
        FeedConcat(ops, dir, s, p[..used], p[used..], ts, entryBlind);
        assert p == p[..used] + p[used..];
        FeedKeeps(ops, dir, s, p[..used], ts, entryBlind);
      }
    }

    /** lk_frame_bytes. */
    method FrameBytes(ops: Ops, dir: Dir, c: Conn, f: Frame, p: seq<Byte>, ts: nat)
      requires ops.Valid() && Holds(f) && Ok(ops, dir, State(c, f))
      modifies this, c, f, f.hdr, Slabs(f)
      ensures Holds(f) && fresh(Slabs(f) - old(Slabs(f))) && f.call == old(f.call)
      ensures State(c, f) == Feed(ops, dir, old(State(c, f)), p, ts).s
    {
      hide FeedFrom, FrameOk, Ops.Valid, Holds;
      var entryBlind := c.ctx.tls || c.ctx.ignore;
      ghost var goal := Feed(ops, dir, State(c, f), p, ts);
      var rest := p;
      while rest != []
        invariant Holds(f) && Ok(ops, dir, State(c, f)) && f.call == old(f.call)
        invariant fresh(Slabs(f) - old(Slabs(f)))
        invariant FeedFrom(ops, dir, State(c, f), rest, ts, entryBlind) == goal
        decreases |rest|, if f.st.BODY? then 1 else 0
      {
        var used, cut := Turn(ops, dir, c, f, rest, ts, entryBlind);
        if cut { return; }
        rest := rest[used..];
      }
      FeedNothing(ops, dir, State(c, f), ts, entryBlind);
    }

    /** A turn of lk_frame_hole inside a body: what has been captured is final. */
    method HoleInBody(ops: Ops, dir: Dir, c: Conn, f: Frame, left: nat, entryBlind: bool)
      returns (take: nat, stop: bool)
      requires Holds(f) && Ok(ops, dir, State(c, f)) && f.st.BODY?
      modifies this, c, f, Slabs(f)
      ensures Holds(f) && fresh(Slabs(f) - old(Slabs(f))) && f.call == old(f.call)
      ensures Turned(State(c, f), take, stop) == Framing.HoleTurn(ops, dir, old(State(c, f)), left, entryBlind)
    {
      hide CloseBody;
      var rem := f.h.bodyLen - if f.prefixClosed then 0 else f.bufLen;
      take := if rem < left then rem else left;
      assert f.Value().buf + [] == f.Value().buf;
      stop := ClosePrefix(ops, dir, c, f, [], rem - take, entryBlind);
    }

    /** One turn of the loop of lk_frame_hole over `left` unknown bytes. */
    method HoleTurn(ops: Ops, dir: Dir, c: Conn, f: Frame, left: nat, entryBlind: bool) returns (take: nat, stop: bool)
      requires Holds(f) && Ok(ops, dir, State(c, f))
      modifies this, c, f, Slabs(f)
      ensures Holds(f) && fresh(Slabs(f) - old(Slabs(f))) && f.call == old(f.call)
      ensures Turned(State(c, f), take, stop) == Framing.HoleTurn(ops, dir, old(State(c, f)), left, entryBlind)
    {
      hide CloseBody;
      match f.st {
        case HEADER =>
          st := st.(hdrHoles := st.hdrHoles + 1);
          GoDirty(f, c);
          take, stop := 0, true;
        case DIRTY =>
          take, stop := 0, true;
        case SKIP =>
          take := if f.skipLeft < left then f.skipLeft else left;
          f.skipLeft := f.skipLeft - take;
          if f.skipLeft == 0 {
            f.st := HEADER;
          }
          stop := false;
        case BODY =>
          take, stop := HoleInBody(ops, dir, c, f, left, entryBlind);
      }
    }

    /** One turn, in terms of what is left to account for. */
    method HoleStep(ops: Ops, dir: Dir, c: Conn, f: Frame, left: nat, entryBlind: bool) returns (take: nat, stop: bool)
      requires ops.Valid() && Holds(f) && Ok(ops, dir, State(c, f)) && left > 0
      modifies this, c, f, Slabs(f)
      ensures Holds(f) && fresh(Slabs(f) - old(Slabs(f))) && f.call == old(f.call) && Ok(ops, dir, State(c, f))
      ensures take <= left && (!stop ==> take > 0)
      ensures HoleFrom(ops, dir, old(State(c, f)), left, entryBlind) ==
              if stop then State(c, f) else HoleFrom(ops, dir, State(c, f), left - take, entryBlind)
    {
      hide Framing.HoleTurn, FrameOk, Ops.Valid, Holds;
      HoleTurnKeeps(ops, dir, State(c, f), left, entryBlind);
      take, stop := HoleTurn(ops, dir, c, f, left, entryBlind);
    }

    /** The loop of lk_frame_hole. */
    method HoleLoop(ops: Ops, dir: Dir, c: Conn, f: Frame, n: nat, entryBlind: bool)
      requires ops.Valid() && Holds(f) && Ok(ops, dir, State(c, f))
      modifies this, c, f, Slabs(f)
      ensures Holds(f) && fresh(Slabs(f) - old(Slabs(f))) && f.call == old(f.call)
      ensures State(c, f) == HoleFrom(ops, dir, old(State(c, f)), n, entryBlind)
    {
      hide HoleFrom, FrameOk, Ops.Valid, Holds, Frame.Value;
      ghost var goal := HoleFrom(ops, dir, State(c, f), n, entryBlind);
      var left := n;
      while left > 0
        invariant Holds(f) && Ok(ops, dir, State(c, f)) && f.call == old(f.call)
        invariant fresh(Slabs(f) - old(Slabs(f)))
        invariant HoleFrom(ops, dir, State(c, f), left, entryBlind) == goal
      {
        var take, stop := HoleStep(ops, dir, c, f, left, entryBlind);
        if stop { return; }
        left := left - take;
      }
      HoleEnds(ops, dir, State(c, f), entryBlind);
    }

    /** lk_frame_hole. */
    method FrameHole(ops: Ops, dir: Dir, c: Conn, f: Frame, n: nat)
      requires ops.Valid() && Holds(f) && Ok(ops, dir, State(c, f))
      modifies this, c, f, Slabs(f)
      ensures Holds(f) && fresh(Slabs(f) - old(Slabs(f))) && f.call == old(f.call)
      ensures State(c, f) == Hole(ops, dir, old(State(c, f)), n)
    {
      hide HoleFrom, FrameOk, Ops.Valid;
      if n == 0 {
        return;
      }
      if f.st.DIRTY? {
        f.matched := 0;
        return;
      }
      st := st.(holes := st.holes + 1, holeBytes := st.holeBytes + n);
      HoleLoop(ops, dir, c, f, n, c.ctx.tls || c.ctx.ignore);
    }

    /** Move the position inside the call. */
    method Position(ghost c: Conn, f: Frame, call: Call)
      requires Holds(f)
      modifies f`call
      ensures Holds(f) && f.call == call && Slabs(f) == old(Slabs(f)) && State(c, f) == old(State(c, f))
    {
      f.call := call;
    }

    /** The first half of lk_reasm_data: the tail of the call before, if this event opens
        a new one. */
    method OpenCall(ops: Ops, dir: Dir, c: Conn, f: Frame, ev: DataEvent)
      requires ops.Valid() && Holds(f) && Ok(ops, dir, State(c, f))
      modifies this, c, f, Slabs(f)
      ensures Holds(f) && fresh(Slabs(f) - old(Slabs(f)))
      ensures State(c, f) == Hole(ops, dir, old(State(c, f)), PlanOf(old(f.call), ev).tail)
      ensures f.call == if ev.off == 0 || old(f.call).total == 0 then Call(0, ev.total) else old(f.call)
    {
      hide Hole, FrameOk, Ops.Valid, Holds;
      NoHole(ops, dir, State(c, f));
      if ev.off == 0 {
        if f.call.total > f.call.pos {
          FrameHole(ops, dir, c, f, f.call.total - f.call.pos);
        }
        Position(c, f, Call(0, ev.total));
      } else if f.call.total == 0 {
        Position(c, f, Call(0, ev.total));
      }
    }

    /** Offsets that contradict the call dirty a clean direction. */
    method NoteAnomaly(ghost c: Conn, f: Frame)
      requires Holds(f)
      modifies this`st, this`pool, f
      ensures Holds(f) && Slabs(f) <= old(Slabs(f)) && f.call == old(f.call)
      ensures State(c, f) == Anomaly(old(State(c, f)))
    {
      if !f.st.DIRTY? {
        st := st.(offAnomalies := st.offAnomalies + 1);
        GoDirty(f, c);
      }
    }

    /** The gap before this chunk, or the contradiction it is. */
    method Advance(ops: Ops, dir: Dir, c: Conn, f: Frame, ev: DataEvent)
      requires ops.Valid() && Holds(f) && Ok(ops, dir, State(c, f))
      modifies this, c, f, Slabs(f)
      ensures Holds(f) && fresh(Slabs(f) - old(Slabs(f)))
      ensures var anomaly := ev.total != old(f.call).total || ev.off < old(f.call).pos ||
              ev.off + |ev.payload| > ev.total;
              State(c, f) == if anomaly then Anomaly(old(State(c, f)))
                             else Hole(ops, dir, old(State(c, f)), ev.off - old(f.call).pos)
      ensures f.call == Call(ev.off, ev.total)
    {
      hide Hole, Anomaly, FrameOk, Ops.Valid, Holds;
      NoHole(ops, dir, State(c, f));
      if ev.total != f.call.total || ev.off < f.call.pos || ev.off + |ev.payload| > ev.total {
        NoteAnomaly(c, f);
      } else if ev.off > f.call.pos {
        FrameHole(ops, dir, c, f, ev.off - f.call.pos);
      }
      Position(c, f, Call(ev.off, ev.total));
    }

    /** The position of this chunk in its call: the tail of the call before, then the gap
        or the contradiction. */
    method Align(ops: Ops, dir: Dir, c: Conn, f: Frame, ev: DataEvent)
      requires ops.Valid() && Holds(f) && Ok(ops, dir, State(c, f))
      modifies this, c, f, Slabs(f)
      ensures Holds(f) && fresh(Slabs(f) - old(Slabs(f))) && f.call == Call(ev.off, ev.total)
      ensures var plan := PlanOf(old(f.call), ev);
              var s1 := Hole(ops, dir, old(State(c, f)), plan.tail);
              State(c, f) == if plan.anomaly then Anomaly(s1) else Hole(ops, dir, s1, plan.gap)
    {
      hide Hole, Anomaly, FrameOk, Ops.Valid, Holds, PlanOf, Frame.Value;
      PlanSplits(f.call, ev);
      HoleKeeps(ops, dir, State(c, f), PlanOf(f.call, ev).tail);
      OpenCall(ops, dir, c, f, ev);
      Advance(ops, dir, c, f, ev);
    }

    /** Everything before the payload is fed. */
    method Prepare(ops: Ops, dir: Dir, c: Conn, f: Frame, ev: DataEvent)
      requires ops.Valid() && Holds(f) && Ok(ops, dir, State(c, f))
      modifies this, c, f, Slabs(f)
      ensures Holds(f) && fresh(Slabs(f) - old(Slabs(f))) && f.call == Call(ev.off, ev.total)
      ensures State(c, f) == BeforeBytes(ops, dir, old(State(c, f)), old(f.call), ev)
    {
      hide Hole, Anomaly, DoResync, FrameOk, Ops.Valid, Holds, PlanOf;
      Align(ops, dir, c, f, ev);
      if f.st.DIRTY? && ops.boundary(c.ctx, dir, ev.off, ev.payload) {
        Resync(ops, dir, c, f);
      }
    }

    /** lk_reasm_data. */
    method Data(ops: Ops, dir: Dir, c: Conn, f: Frame, ev: DataEvent)
      requires ops.Valid() && Holds(f) && Ok(ops, dir, State(c, f))
      modifies this, c, f, f.hdr, Slabs(f)
      ensures Holds(f) && fresh(Slabs(f) - old(Slabs(f)))
      ensures State(c, f) == ReasmData(ops, dir, old(State(c, f)), old(f.call), ev)
      ensures f.call == ReasmCall(old(State(c, f)), old(f.call), ev)
    {
      hide Feed, BeforeBytes, FrameOk, Ops.Valid, Holds, Frame.Value;
      if c.ctx.cancel || c.ctx.ignore || (c.ctx.tls && !ev.decrypted) {
        return;
      }
      BeforeBytesKeeps(ops, dir, State(c, f), f.call, ev);
      Prepare(ops, dir, c, f, ev);
      FeedNothing(ops, dir, State(c, f), ev.ts, false);
      if |ev.payload| > 0 {
        FrameBytes(ops, dir, c, f, ev.payload, ev.ts);
      }
      Position(c, f, if ev.off + |ev.payload| >= ev.total then Call(0, 0) else Call(ev.off + |ev.payload|, ev.total));
    }

    /** The same in the presence of all the frames that share the pool: no slab is ever
        in two places, and no other frame changes. */
    method Receive(ops: Ops, dir: Dir, c: Conn, f: Frame, ev: DataEvent, ghost frames: set<Frame>)
      requires ops.Valid() && Owned(frames) && f in frames && Ok(ops, dir, State(c, f))
      modifies this, c, f, f.hdr, Slabs(f)
      ensures Owned(frames) && fresh(Slabs(f) - old(Slabs(f)))
      ensures State(c, f) == ReasmData(ops, dir, old(State(c, f)), old(f.call), ev)
      ensures f.call == ReasmCall(old(State(c, f)), old(f.call), ev)
      ensures Extends(ops, dir, old(State(c, f)), State(c, f))
      ensures forall g :: g in frames && g != f ==> g.Value() == old(g.Value()) && g.call == old(g.call)
    {
      hide ReasmData, ReasmCall, Extends, FrameOk, Ops.Valid;
      ghost var others := set g | g in frames && g != f && g.buf != null :: g.buf;
      assert others !! Slabs(f);
      ReasmDataKeeps(ops, dir, State(c, f), f.call, ev);
      Data(ops, dir, c, f, ev);
      assert others !! Slabs(f);
    }

    /** The reset of one direction in lk_conn_tls_reset_framing: its slab is freed, not
        returned to the pool, and the frame is as new. */
    method Restart(f: Frame, ghost frames: set<Frame>)
      requires Owned(frames) && f in frames
      modifies f
      ensures Owned(frames) && f.Value() == ZERO_FRAME && f.call == Call(0, 0) && f.buf == null
      ensures forall g :: g in frames && g != f ==> g.Value() == old(g.Value()) && g.call == old(g.call)
    {
      f.Zero();
    }

    /** mark_dirty on one direction: what was collected stays until the next boundary. */
    method MarkDirty(f: Frame, ghost frames: set<Frame>)
      requires Owned(frames) && f in frames
      modifies f`st, f`matched
      ensures Owned(frames) && f.Value() == old(f.Value()).(st := DIRTY, matched := 0) && f.call == old(f.call)
      ensures forall g :: g in frames && g != f ==> g.Value() == old(g.Value()) && g.call == old(g.call)
    {
      f.st, f.matched := DIRTY, 0;
    }

    /** The frames of a new connection bring no slab along. */
    lemma OwnedWith(frames: set<Frame>, joining: set<Frame>)
      requires Owned(frames) && forall f :: f in joining ==> f.Valid() && f.buf == null
      requires forall f, g :: f in joining && g in frames + joining && f != g ==> f.hdr != g.hdr
      ensures Owned(frames + joining)
    {
    }

    /** The frames of a connection that leaves the table take their slabs with them. */
    lemma OwnedWithout(frames: set<Frame>, gone: set<Frame>)
      requires Owned(frames)
      ensures Owned(frames - gone)
    {
    }
  }
}
