/**
 The message framer of src/agent/reassembly.c, as values.

 A direction of a connection is a sequence of two primitives: captured bytes and
 holes of known size. `Feed` is what lk_frame_bytes does to one chunk, written one
 byte at a time; `Hole` is lk_frame_hole. The protocol vtable (proto.h) is a record
 of functions, so every statement holds for every protocol.
 */
module Framing {
  import opened Options

  type Byte = x: int | 0 <= x < 256

  const BODY_MAX: nat := 16 * 1024
  const POOL_MAX: nat := 64
  const HDR_MAX: nat := 8

  datatype Dir = Send | Recv

  function Other(d: Dir): Dir { if d.Send? then Recv else Send }

  /** The connection as the framer sees it: the three flags that switch framing off,
      and `p`, the protocol's own bits (startup_done of both directions, pending
      replies), which the framer stores and never reads. */
  datatype Ctx = Ctx(p: nat, tls: bool, ignore: bool, cancel: bool)
  {
    predicate Blind() { tls || ignore }
  }

  /** What parse_hdr fills in. `seqNo` and `seq0` are protocol scratch. */
  datatype Header = Header(typ: nat, len: nat, bodyLen: nat, bodyTotal: nat,
                           cont: bool, seqNo: nat, seq0: bool)

  const NO_HEADER := Header(0, 0, 0, 0, false, 0, false)

  /** The outcome of pre_emit: the new connection context, and the type and protocol
      flags of the message. */
  datatype Pre = Pre(ctx: Ctx, typ: nat, flags: nat)

  /** lk_proto_ops, message mode. */
  datatype Ops = Ops(
    hdrSize: (nat, Dir) -> nat,
    parseHdr: (Ctx, Dir, Header, seq<Byte>) -> Option<Header>,
    preEmit: (Ctx, Dir, Header, seq<Byte>) -> Pre,
    resynced: (nat, Dir) -> nat,
    scan: (Ctx, Dir, nat, Byte) -> (nat, bool),
    boundary: (Ctx, Dir, nat, seq<Byte>) -> bool,
    restarted: nat -> nat)
  {
    /** Header sizes fit lk_frame.hdr[8]; connection flags are only ever added; a
        hook of one direction does not resize the other direction's headers. */
    ghost predicate Valid()
    {
      && (forall p, d :: 1 <= hdrSize(p, d) <= HDR_MAX)
      && (forall c, d, h, b :: Grows(c, preEmit(c, d, h, b).ctx))
      && (forall c, d, h, b :: hdrSize(preEmit(c, d, h, b).ctx.p, Other(d)) == hdrSize(c.p, Other(d)))
      && (forall p, d :: hdrSize(resynced(p, d), Other(d)) == hdrSize(p, Other(d)))
    }
  }

  predicate Grows(a: Ctx, b: Ctx)
  {
    (a.tls ==> b.tls) && (a.ignore ==> b.ignore) && (a.cancel ==> b.cancel)
  }

  datatype Message = Message(ts: nat, typ: nat, flags: nat, afterResync: bool, trunc: bool,
                             len: nat, body: seq<Byte>)

  datatype Event = Emitted(dir: Dir, msg: Message) | Resynced(dir: Dir)

  datatype Phase = HEADER | BODY | SKIP | DIRTY

  /** lk_frame: `hdr` is hdr[..hdr_len] and `buf` is buf[..buf_len]. The position inside
      a call belongs to the chunk layer. */
  datatype Frame = Frame(st: Phase, skipLeft: nat, msgTs: nat, h: Header, prefixClosed: bool,
                         afterResync: bool, matched: nat, hdr: seq<Byte>, buf: seq<Byte>)

  const ZERO_FRAME := Frame(HEADER, 0, 0, NO_HEADER, false, false, 0, [], [])

  datatype Stats = Stats(msgs: nat, msgsTrunc: nat, holes: nat, holeBytes: nat, badLen: nat,
                         hdrHoles: nat, offAnomalies: nat, resyncs: nat, tlsConns: nat)

  const ZERO_STATS := Stats(0, 0, 0, 0, 0, 0, 0, 0, 0)

  /** Everything one call of the framer can see or change. */
  datatype Framer = Framer(ctx: Ctx, f: Frame, out: seq<Event>, st: Stats)

  /** A state, and whether the rest of the chunk is dropped. */
  datatype Stepped = Stepped(s: Framer, cut: bool)

  function Min(a: nat, b: nat): nat { if a < b then a else b }

  /** The concatenation of a sequence of pieces. */
  function Flat(pieces: seq<seq<Byte>>): seq<Byte>
  {
    if pieces == [] then [] else Flat(pieces[..|pieces| - 1]) + pieces[|pieces| - 1]
  }

  function BodyTarget(h: Header): nat { Min(h.bodyLen, BODY_MAX) }

  // ---- transitions ----------------------------------------------------------

  function MsgReset(f: Frame): Frame
  {
    f.(buf := [], hdr := [], h := f.h.(bodyLen := 0, cont := false), prefixClosed := false, st := HEADER)
  }

  function Dirtied(f: Frame): Frame
  {
    MsgReset(f).(skipLeft := 0, matched := 0, st := DIRTY)
  }

  function DoResync(ops: Ops, dir: Dir, s: Framer): Framer
  {
    s.(f := MsgReset(s.f).(skipLeft := 0, matched := 0, afterResync := true),
       ctx := s.ctx.(p := ops.resynced(s.ctx.p, dir)),
       st := s.st.(resyncs := s.st.resyncs + 1),
       out := s.out + [Resynced(dir)])
  }

  function MessageOf(ops: Ops, dir: Dir, s: Framer, body: seq<Byte>): Message
  {
    var pre := ops.preEmit(s.ctx, dir, s.f.h, body);
    Message(s.f.msgTs, pre.typ, pre.flags, s.f.afterResync, |body| < s.f.h.bodyTotal, s.f.h.len, body)
  }

  function Emit(ops: Ops, dir: Dir, s: Framer, body: seq<Byte>): Framer
  {
    var m := MessageOf(ops, dir, s, body);
    s.(ctx := ops.preEmit(s.ctx, dir, s.f.h, body).ctx,
       f := s.f.(afterResync := false),
       st := s.st.(msgs := s.st.msgs + 1, msgsTrunc := s.st.msgsTrunc + if m.trunc then 1 else 0),
       out := s.out + [Emitted(dir, m)])
  }

  /** went_blind: the emission switched framing off for a chunk that began with it on. */
  function BlindCheck(s: Framer, entryBlind: bool): Stepped
  {
    if entryBlind || !s.ctx.Blind() then Stepped(s, false)
    else Stepped(s.(st := s.st.(tlsConns := s.st.tlsConns + if s.ctx.tls then 1 else 0)), true)
  }

  /** Leave the body for the next header, past `skip` bytes that are not kept. */
  function SkipTo(f: Frame, skip: nat): Frame
  {
    if skip == 0 then f.(st := HEADER) else f.(st := SKIP, skipLeft := skip)
  }

  /** The prefix `body` of the current fragment is final and `skip` bytes of it follow. */
  function CloseBody(ops: Ops, dir: Dir, s: Framer, body: seq<Byte>, skip: nat, entryBlind: bool): Stepped
  {
    if s.f.h.cont then
      Stepped(s.(f := SkipTo(s.f.(buf := body, prefixClosed := true, hdr := []), skip)), false)
    else
      var e := Emit(ops, dir, s, body);
      BlindCheck(e.(f := SkipTo(MsgReset(e.f), skip)), entryBlind)
  }

  /** A complete header `hdr`. */
  function EndHeader(ops: Ops, dir: Dir, s: Framer, hdr: seq<Byte>, entryBlind: bool): Stepped
  {
    match ops.parseHdr(s.ctx, dir, s.f.h, hdr)
    case None => Stepped(s.(f := Dirtied(s.f), st := s.st.(badLen := s.st.badLen + 1)), true)
    case Some(h) =>
      var s1 := s.(f := s.f.(h := h, hdr := hdr));
      if h.bodyLen == 0 then
        var e := Emit(ops, dir, s1, s1.f.buf);
        BlindCheck(e.(f := MsgReset(e.f)), entryBlind)
      else
        Stepped(s1.(f := s1.f.(st := BODY)), false)
  }

  function Stamp(f: Frame, ts: nat): Frame
  {
    if f.hdr == [] && !f.h.cont then f.(msgTs := ts) else f
  }

  function StepHeader(ops: Ops, dir: Dir, s: Framer, b: Byte, ts: nat, entryBlind: bool): Stepped
  {
    var s1 := s.(f := Stamp(s.f, ts));
    var hdr := s.f.hdr + [b];
    if |hdr| < ops.hdrSize(s.ctx.p, dir) then Stepped(s1.(f := s1.f.(hdr := hdr)), false)
    else EndHeader(ops, dir, s1, hdr, entryBlind)
  }

  function StepSkip(s: Framer): Stepped
  {
    var left := if s.f.skipLeft == 0 then 0 else s.f.skipLeft - 1;
    Stepped(s.(f := s.f.(skipLeft := left, st := if left == 0 then HEADER else SKIP)), false)
  }

  function StepDirty(ops: Ops, dir: Dir, s: Framer, b: Byte): Stepped
  {
    var (m, found) := ops.scan(s.ctx, dir, s.f.matched, b);
    var s1 := s.(f := s.f.(matched := m));
    Stepped(if found then DoResync(ops, dir, s1) else s1, false)
  }

  /** What the framer does with one byte that belongs to a chunk stamped `ts`. A body
      whose prefix is already closed is left before the byte is looked at. */
  function Step(ops: Ops, dir: Dir, s: Framer, b: Byte, ts: nat, entryBlind: bool): Stepped
  {
    match s.f.st
    case HEADER => StepHeader(ops, dir, s, b, ts, entryBlind)
    case SKIP => StepSkip(s)
    case DIRTY => StepDirty(ops, dir, s, b)
    case BODY =>
      if s.f.prefixClosed then
        var c := CloseBody(ops, dir, s, s.f.buf, s.f.h.bodyLen, entryBlind);
        if c.cut then c else StepSkip(c.s)
      else
        var body := s.f.buf + [b];
        if |body| < BodyTarget(s.f.h) then Stepped(s.(f := s.f.(buf := body)), false)
        else CloseBody(ops, dir, s, body, if |body| < s.f.h.bodyLen then s.f.h.bodyLen - |body| else 0, entryBlind)
  }

  /** lk_frame_bytes on one chunk. */
  function FeedFrom(ops: Ops, dir: Dir, s: Framer, p: seq<Byte>, ts: nat, entryBlind: bool): Stepped
    decreases |p|
  {
    if p == [] then Stepped(s, false)
    else
      var r := Step(ops, dir, s, p[0], ts, entryBlind);
      if r.cut then r else FeedFrom(ops, dir, r.s, p[1..], ts, entryBlind)
  }

  function Feed(ops: Ops, dir: Dir, s: Framer, p: seq<Byte>, ts: nat): Stepped
  {
    FeedFrom(ops, dir, s, p, ts, s.ctx.Blind())
  }

  lemma FeedNothing(ops: Ops, dir: Dir, s: Framer, ts: nat, entryBlind: bool)
    ensures Feed(ops, dir, s, [], ts) == FeedFrom(ops, dir, s, [], ts, entryBlind) == Stepped(s, false)
  {
  }

  /** A state, how much of a hole was accounted for, and whether the rest is dropped. */
  datatype Turned = Turned(s: Framer, take: nat, stop: bool)

  /** One turn of the loop of lk_frame_hole over `n` unknown bytes. */
  function HoleTurn(ops: Ops, dir: Dir, s: Framer, n: nat, entryBlind: bool): Turned
  {
    match s.f.st
    case HEADER => Turned(s.(f := Dirtied(s.f), st := s.st.(hdrHoles := s.st.hdrHoles + 1)), 0, true)
    case DIRTY => Turned(s, 0, true)
    case SKIP =>
      var take := Min(s.f.skipLeft, n);
      Turned(s.(f := s.f.(skipLeft := s.f.skipLeft - take, st := if take == s.f.skipLeft then HEADER else SKIP)),
             take, false)
    case BODY =>
      var rem := ToBodyEnd(s.f);
      var c := CloseBody(ops, dir, s, s.f.buf, rem - Min(rem, n), entryBlind);
      Turned(c.s, Min(rem, n), c.cut)
  }

  function HoleFrom(ops: Ops, dir: Dir, s: Framer, n: nat, entryBlind: bool): Framer
    decreases n
  {
    if n == 0 then s
    else
      var t := HoleTurn(ops, dir, s, n, entryBlind);
      if t.stop || t.take == 0 || t.take > n then t.s else HoleFrom(ops, dir, t.s, n - t.take, entryBlind)
  }

  /** lk_frame_hole. */
  function Hole(ops: Ops, dir: Dir, s: Framer, n: nat): Framer
  {
    if n == 0 then s
    else if s.f.st.DIRTY? then s.(f := s.f.(matched := 0))
    else HoleFrom(ops, dir, s.(st := s.st.(holes := s.st.holes + 1, holeBytes := s.st.holeBytes + n)), n, s.ctx.Blind())
  }

  /** How many bytes of the current body have not been seen. */
  function ToBodyEnd(f: Frame): nat
  {
    match f.st
    case SKIP => f.skipLeft
    case BODY => if f.prefixClosed then f.h.bodyLen else if |f.buf| < f.h.bodyLen then f.h.bodyLen - |f.buf| else 0
    case _ => 0
  }

  // ---- the state invariant --------------------------------------------------

  /** What every reachable frame satisfies; `hs` is the direction's header size. */
  predicate FrameOk(f: Frame, hs: nat)
  {
    && |f.buf| <= BODY_MAX
    && |f.hdr| <= HDR_MAX
    && match f.st
       case HEADER => |f.hdr| < hs && f.h.cont == f.prefixClosed && (!f.h.cont ==> f.buf == []) && f.skipLeft == 0
       case BODY => f.h.bodyLen > 0 && (!f.prefixClosed ==> |f.buf| < BodyTarget(f.h)) && f.skipLeft == 0
       case SKIP => f.skipLeft > 0 && f.hdr == [] && f.h.cont == f.prefixClosed && (!f.h.cont ==> f.buf == [])
       case DIRTY => true
  }

  predicate Ok(ops: Ops, dir: Dir, s: Framer)
  {
    FrameOk(s.f, ops.hdrSize(s.ctx.p, dir))
  }

  /** What every transition from `s` to `t` keeps: the invariant, the connection flags
      already set, the log so far, and the other direction's header size. */
  predicate Extends(ops: Ops, dir: Dir, s: Framer, t: Framer)
  {
    && Ok(ops, dir, t)
    && Grows(s.ctx, t.ctx)
    && s.out <= t.out
    && ops.hdrSize(t.ctx.p, Other(dir)) == ops.hdrSize(s.ctx.p, Other(dir))
  }

  /** A chunk is cut only when the direction became dirty or framing was switched off. */
  predicate Kept(ops: Ops, dir: Dir, s: Framer, t: Stepped, entryBlind: bool)
  {
    && Extends(ops, dir, s, t.s)
    && (t.cut ==> t.s.f.st.DIRTY? || (!entryBlind && t.s.ctx.Blind()))
    && (!t.cut && !entryBlind && !s.ctx.Blind() ==> !t.s.ctx.Blind())
  }

  lemma EmitKeeps(ops: Ops, dir: Dir, s: Framer, body: seq<Byte>, skip: nat, entryBlind: bool)
    requires ops.Valid()
    requires |s.f.hdr| <= HDR_MAX && (skip == 0 ==> s.f.skipLeft == 0)
    ensures var e := Emit(ops, dir, s, body);
            Kept(ops, dir, s, BlindCheck(e.(f := SkipTo(MsgReset(e.f), skip)), entryBlind), entryBlind)
  {
  }

  lemma CloseBodyKeeps(ops: Ops, dir: Dir, s: Framer, body: seq<Byte>, skip: nat, entryBlind: bool)
    requires ops.Valid()
    requires |s.f.hdr| <= HDR_MAX && |body| <= BODY_MAX && s.f.skipLeft == 0
    ensures Kept(ops, dir, s, CloseBody(ops, dir, s, body, skip, entryBlind), entryBlind)
    ensures var c := CloseBody(ops, dir, s, body, skip, entryBlind).s;
            (c.f.st.SKIP? && skip > 0) || (c.f.st.HEADER? && skip == 0 && c.f.hdr == [])
  {
    if !s.f.h.cont { EmitKeeps(ops, dir, s, body, skip, entryBlind); }
  }

  lemma EndHeaderKeeps(ops: Ops, dir: Dir, s: Framer, hdr: seq<Byte>, entryBlind: bool)
    requires ops.Valid() && Ok(ops, dir, s) && s.f.st.HEADER? && |hdr| <= HDR_MAX
    ensures Kept(ops, dir, s, EndHeader(ops, dir, s, hdr, entryBlind), entryBlind)
  {
    hide Emit, BlindCheck;
    match ops.parseHdr(s.ctx, dir, s.f.h, hdr)
    case None =>
    case Some(h) =>
      if h.bodyLen == 0 {
        var s1 := s.(f := s.f.(h := h, hdr := hdr));
        EmitKeeps(ops, dir, s1, s1.f.buf, 0, entryBlind);
        assert SkipTo(MsgReset(Emit(ops, dir, s1, s1.f.buf).f), 0) == MsgReset(Emit(ops, dir, s1, s1.f.buf).f);
      }
  }

  lemma StepHeaderKeeps(ops: Ops, dir: Dir, s: Framer, b: Byte, ts: nat, entryBlind: bool)
    requires ops.Valid() && Ok(ops, dir, s) && s.f.st.HEADER?
    ensures Kept(ops, dir, s, StepHeader(ops, dir, s, b, ts, entryBlind), entryBlind)
  {
    var s1 := s.(f := Stamp(s.f, ts));
    var hdr := s.f.hdr + [b];
    if |hdr| >= ops.hdrSize(s.ctx.p, dir) {
      EndHeaderKeeps(ops, dir, s1, hdr, entryBlind);
    }
  }

  lemma StepSkipKeeps(ops: Ops, dir: Dir, s: Framer, entryBlind: bool)
    requires ops.Valid() && Ok(ops, dir, s) && s.f.st.SKIP?
    ensures Kept(ops, dir, s, StepSkip(s), entryBlind)
  {
  }

  lemma StepDirtyKeeps(ops: Ops, dir: Dir, s: Framer, b: Byte, entryBlind: bool)
    requires ops.Valid() && Ok(ops, dir, s) && s.f.st.DIRTY?
    ensures Kept(ops, dir, s, StepDirty(ops, dir, s, b), entryBlind)
  {
  }

  lemma KeptTransitive(ops: Ops, dir: Dir, s: Framer, m: Framer, t: Stepped, entryBlind: bool)
    requires Kept(ops, dir, s, Stepped(m, false), entryBlind) && Kept(ops, dir, m, t, entryBlind)
    ensures Kept(ops, dir, s, t, entryBlind)
  {
  }

  lemma StepBodyKeeps(ops: Ops, dir: Dir, s: Framer, b: Byte, ts: nat, entryBlind: bool)
    requires ops.Valid() && Ok(ops, dir, s) && s.f.st.BODY?
    ensures Kept(ops, dir, s, Step(ops, dir, s, b, ts, entryBlind), entryBlind)
  {
    if s.f.prefixClosed {
      CloseBodyKeeps(ops, dir, s, s.f.buf, s.f.h.bodyLen, entryBlind);
      var c := CloseBody(ops, dir, s, s.f.buf, s.f.h.bodyLen, entryBlind);
      if !c.cut {
        StepSkipKeeps(ops, dir, c.s, entryBlind);
        KeptTransitive(ops, dir, s, c.s, StepSkip(c.s), entryBlind);
      }
    } else {
      var body := s.f.buf + [b];
      if |body| >= BodyTarget(s.f.h) {
        CloseBodyKeeps(ops, dir, s, body, if |body| < s.f.h.bodyLen then s.f.h.bodyLen - |body| else 0, entryBlind);
      }
    }
  }

  /** Every byte keeps the invariant. */
  lemma StepKeeps(ops: Ops, dir: Dir, s: Framer, b: Byte, ts: nat, entryBlind: bool)
    requires ops.Valid() && Ok(ops, dir, s)
    ensures Kept(ops, dir, s, Step(ops, dir, s, b, ts, entryBlind), entryBlind)
  {
    match s.f.st
    case HEADER => StepHeaderKeeps(ops, dir, s, b, ts, entryBlind);
    case SKIP => StepSkipKeeps(ops, dir, s, entryBlind);
    case DIRTY => StepDirtyKeeps(ops, dir, s, b, entryBlind);
    case BODY => StepBodyKeeps(ops, dir, s, b, ts, entryBlind);
  }

  lemma {:induction false} FeedKeeps(ops: Ops, dir: Dir, s: Framer, p: seq<Byte>, ts: nat, entryBlind: bool)
    requires ops.Valid() && Ok(ops, dir, s)
    ensures Kept(ops, dir, s, FeedFrom(ops, dir, s, p, ts, entryBlind), entryBlind)
    decreases |p|
  {
    if p != [] {
      var r := Step(ops, dir, s, p[0], ts, entryBlind);
      StepKeeps(ops, dir, s, p[0], ts, entryBlind);
      if !r.cut {
        FeedKeeps(ops, dir, r.s, p[1..], ts, entryBlind);
        KeptTransitive(ops, dir, s, r.s, FeedFrom(ops, dir, r.s, p[1..], ts, entryBlind), entryBlind);
      }
    }
  }

  lemma ExtendsTransitive(ops: Ops, dir: Dir, s: Framer, m: Framer, t: Framer)
    requires Extends(ops, dir, s, m) && Extends(ops, dir, m, t)
    ensures Extends(ops, dir, s, t)
  {
  }

  lemma HoleTurnKeeps(ops: Ops, dir: Dir, s: Framer, n: nat, entryBlind: bool)
    requires ops.Valid() && Ok(ops, dir, s) && n > 0
    ensures var t := HoleTurn(ops, dir, s, n, entryBlind);
            Extends(ops, dir, s, t.s) && t.take <= n && (!t.stop ==> t.take > 0)
  {
    hide CloseBody;
    if s.f.st.BODY? {
      var rem := ToBodyEnd(s.f);
      CloseBodyKeeps(ops, dir, s, s.f.buf, rem - Min(rem, n), entryBlind);
    }
  }

  lemma {:induction false} HoleFromKeeps(ops: Ops, dir: Dir, s: Framer, n: nat, entryBlind: bool)
    requires ops.Valid() && Ok(ops, dir, s)
    ensures Extends(ops, dir, s, HoleFrom(ops, dir, s, n, entryBlind))
    decreases n
  {
    hide HoleTurn, FrameOk, Ops.Valid;
    if n > 0 {
      HoleTurnKeeps(ops, dir, s, n, entryBlind);
      var t := HoleTurn(ops, dir, s, n, entryBlind);
      if !t.stop {
        HoleFromKeeps(ops, dir, t.s, n - t.take, entryBlind);
        ExtendsTransitive(ops, dir, s, t.s, HoleFrom(ops, dir, t.s, n - t.take, entryBlind));
      }
    }
  }

  lemma HoleKeeps(ops: Ops, dir: Dir, s: Framer, n: nat)
    requires ops.Valid() && Ok(ops, dir, s)
    ensures Extends(ops, dir, s, Hole(ops, dir, s, n))
  {
    if n > 0 && !s.f.st.DIRTY? {
      HoleFromKeeps(ops, dir, s.(st := s.st.(holes := s.st.holes + 1, holeBytes := s.st.holeBytes + n)), n,
                    s.ctx.Blind());
    }
  }
}
