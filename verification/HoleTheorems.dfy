/**
 A hole over a message body does not desynchronise framing (reassembly.h): what was
 inside the hole is missing from one message and from nothing else.
 */
module HoleTheorems {
  import opened ChunkLayer
  import opened Framing
  import opened Options
  import opened FramingTheorems

  /** The same message with fewer body bytes; what pre_emit reads off the body, the type
      and the protocol flags, may differ too. */
  predicate Covers(full: Event, cut: Event)
  {
    && full.Emitted? && cut.Emitted?
    && cut.msg.body <= full.msg.body
    && (full.msg.trunc ==> cut.msg.trunc)
    && cut == Emitted(full.dir, full.msg.(body := cut.msg.body, trunc := cut.msg.trunc,
                                          typ := cut.msg.typ, flags := cut.msg.flags))
  }

  /** Two logs that differ at most in entry `k`, where one message covers the other. */
  ghost predicate LogsAlike(x: seq<Event>, y: seq<Event>, k: nat)
  {
    && |x| == |y|
    && (forall i :: 0 <= i < |x| && i != k ==> x[i] == y[i])
    && (k < |x| ==> x[k] == y[k] || Covers(x[k], y[k]))
  }

  /** The bytes `z` are the later fragments of a message being glued behind the header `g`,
      up to and with the header `h` that ends it. */
  ghost predicate Ends(ops: Ops, dir: Dir, ctx: Ctx, g: Header, z: seq<Byte>, h: Header)
    requires ops.Valid()
    decreases |z|
  {
    var n := ops.hdrSize(ctx.p, dir);
    |z| >= n &&
    match ops.parseHdr(ctx, dir, g, z[..n])
    case None => false
    case Some(h1) =>
      if h1.cont && h1.bodyLen > 0 then |z| >= n + h1.bodyLen && Ends(ops, dir, ctx, h1, z[n + h1.bodyLen..], h)
      else h == h1 && |z| == n
  }

  /** pre_emit makes the same connection of both bodies under the header `h`. */
  predicate SameUnder(ops: Ops, dir: Dir, ctx: Ctx, h: Header, x: seq<Byte>, y: seq<Byte>)
  {
    ops.preEmit(ctx, dir, h, x).ctx == ops.preEmit(ctx, dir, h, y).ctx
  }

  /** ... under every header that can end the message. */
  ghost predicate SameHook(ops: Ops, dir: Dir, ctx: Ctx, g: Header, x: seq<Byte>, y: seq<Byte>)
    requires ops.Valid()
  {
    forall z, h :: Ends(ops, dir, ctx, g, z, h) ==> SameUnder(ops, dir, ctx, h, x, y)
  }

  /** The same for a frame that is gluing, by what it waits for. */
  ghost predicate SameAhead(ops: Ops, dir: Dir, ctx: Ctx, f: Frame, x: seq<Byte>, y: seq<Byte>)
    requires ops.Valid()
  {
    if f.st.DIRTY? then true
    else if f.st.BODY? && !f.h.cont then SameUnder(ops, dir, ctx, f.h, x, y)
    else SameHook(ops, dir, ctx, f.h, x, y)
  }

  /** Two states that differ at most in message number `k` and in what is kept of it. */
  ghost predicate Near(a: Framer, b: Framer, k: nat)
  {
    a.ctx == b.ctx && LogsAlike(a.out, b.out, k) && b.f == a.f.(buf := b.f.buf)
  }

  /** ... and will go on so: the message has been emitted, or both are still gluing it, have
      closed its prefix, and pre_emit will not tell them apart. */
  ghost predicate Alike(ops: Ops, dir: Dir, a: Framer, b: Framer, k: nat)
    requires ops.Valid()
  {
    && Near(a, b, k)
    && (a.f.buf == b.f.buf ||
        (a.f.prefixClosed && b.f.buf <= a.f.buf && |a.out| == k && SameAhead(ops, dir, a.ctx, a.f, a.f.buf, b.f.buf)))
  }

  /** An emission of two covered bodies brings the frames together. */
  lemma EmitAlike(ops: Ops, dir: Dir, a: Framer, b: Framer, x: seq<Byte>, y: seq<Byte>, k: nat)
    requires Near(a, b, k) && y <= x && (x == y || (|a.out| == k && SameUnder(ops, dir, a.ctx, a.f.h, x, y)))
    ensures var c, d := Emit(ops, dir, a, x), Emit(ops, dir, b, y);
            && c.ctx == d.ctx
            && LogsAlike(c.out, d.out, k)
            && MsgReset(c.f) == MsgReset(d.f)
  {
    var e, e' := Emitted(dir, MessageOf(ops, dir, a, x)), Emitted(dir, MessageOf(ops, dir, b, y));
    assert e == e' || (Covers(e, e') && |a.out| == k);
  }

  lemma CloseBodyAlike(ops: Ops, dir: Dir, a: Framer, b: Framer, skip: nat, k: nat, eb: bool)
    requires ops.Valid() && Alike(ops, dir, a, b, k) && a.f.st.BODY?
    ensures var c, d := CloseBody(ops, dir, a, a.f.buf, skip, eb), CloseBody(ops, dir, b, b.f.buf, skip, eb);
            c.cut == d.cut && Alike(ops, dir, c.s, d.s, k)
  {
    hide Ops.Valid, SameHook, SameUnder, LogsAlike, Emit;
    if !a.f.h.cont { EmitAlike(ops, dir, a, b, a.f.buf, b.f.buf, k); }
  }

  /** One fragment on, there are no other headers that can end the message. */
  lemma FragmentAhead(ops: Ops, dir: Dir, ctx: Ctx, g: Header, hdr: seq<Byte>, h: Header, x: seq<Byte>, y: seq<Byte>)
    requires ops.Valid() && SameHook(ops, dir, ctx, g, x, y) && |hdr| == ops.hdrSize(ctx.p, dir)
    requires ops.parseHdr(ctx, dir, g, hdr) == Some(h)
    ensures if h.cont && h.bodyLen > 0 then SameHook(ops, dir, ctx, h, x, y) else SameUnder(ops, dir, ctx, h, x, y)
  {
    hide SameUnder;
    var n := |hdr|;
    if h.cont && h.bodyLen > 0 {
      forall z, e | Ends(ops, dir, ctx, h, z, e) ensures SameUnder(ops, dir, ctx, e, x, y) {
        var pad := seq(h.bodyLen, i => 0 as Byte);
        var all := hdr + pad + z;
        assert all[..n] == hdr && all[n + h.bodyLen..] == z;
        assert Ends(ops, dir, ctx, g, all, e);
      }
    } else {
      assert hdr[..n] == hdr;
      assert Ends(ops, dir, ctx, g, hdr, h);
    }
  }

  lemma EndHeaderAlike(ops: Ops, dir: Dir, a: Framer, b: Framer, hdr: seq<Byte>, k: nat, eb: bool)
    requires ops.Valid() && Alike(ops, dir, a, b, k) && a.f.st.HEADER? && |hdr| == ops.hdrSize(a.ctx.p, dir)
    ensures var c, d := EndHeader(ops, dir, a, hdr, eb), EndHeader(ops, dir, b, hdr, eb);
            c.cut == d.cut && Alike(ops, dir, c.s, d.s, k)
  {
    hide Emit, LogsAlike, SameHook, SameUnder, Ops.Valid;
    match ops.parseHdr(a.ctx, dir, a.f.h, hdr)
    case None =>
    case Some(h) =>
      var a1, b1 := a.(f := a.f.(h := h, hdr := hdr)), b.(f := b.f.(h := h, hdr := hdr));
      if a.f.buf != b.f.buf { FragmentAhead(ops, dir, a.ctx, a.f.h, hdr, h, a.f.buf, b.f.buf); }
      if h.bodyLen == 0 { EmitAlike(ops, dir, a1, b1, a1.f.buf, b1.f.buf, k); }
  }

  lemma StepHeaderAlike(ops: Ops, dir: Dir, a: Framer, b: Framer, z: Byte, ts: nat, k: nat, eb: bool)
    requires ops.Valid() && Ok(ops, dir, a) && Alike(ops, dir, a, b, k) && a.f.st.HEADER?
    ensures var c, d := StepHeader(ops, dir, a, z, ts, eb), StepHeader(ops, dir, b, z, ts, eb);
            c.cut == d.cut && Alike(ops, dir, c.s, d.s, k)
  {
    hide EndHeader, LogsAlike, SameHook, Ops.Valid;
    var a1, b1, hdr := a.(f := Stamp(a.f, ts)), b.(f := Stamp(b.f, ts)), a.f.hdr + [z];
    if |hdr| >= ops.hdrSize(a.ctx.p, dir) { EndHeaderAlike(ops, dir, a1, b1, hdr, k, eb); }
  }

  lemma StepDirtyAlike(ops: Ops, dir: Dir, a: Framer, b: Framer, z: Byte, k: nat)
    requires ops.Valid() && Alike(ops, dir, a, b, k) && a.f.st.DIRTY?
    ensures Alike(ops, dir, StepDirty(ops, dir, a, z).s, StepDirty(ops, dir, b, z).s, k)
  {
  }

  lemma StepSkipAlike(ops: Ops, dir: Dir, a: Framer, b: Framer, k: nat)
    requires ops.Valid() && Alike(ops, dir, a, b, k) && a.f.st.SKIP?
    ensures Alike(ops, dir, StepSkip(a).s, StepSkip(b).s, k)
  {
  }

  lemma ClosedBodyAlike(ops: Ops, dir: Dir, a: Framer, b: Framer, z: Byte, ts: nat, k: nat, eb: bool)
    requires ops.Valid() && Ok(ops, dir, a) && Alike(ops, dir, a, b, k) && a.f.st.BODY? && a.f.prefixClosed
    ensures var c, d := Step(ops, dir, a, z, ts, eb), Step(ops, dir, b, z, ts, eb);
            c.cut == d.cut && Alike(ops, dir, c.s, d.s, k)
  {
    CloseBodyAlike(ops, dir, a, b, a.f.h.bodyLen, k, eb);
    var c := CloseBody(ops, dir, a, a.f.buf, a.f.h.bodyLen, eb);
    var d := CloseBody(ops, dir, b, b.f.buf, b.f.h.bodyLen, eb);
    if !c.cut { StepSkipAlike(ops, dir, c.s, d.s, k); }
  }

  lemma OpenBodyAlike(ops: Ops, dir: Dir, a: Framer, b: Framer, z: Byte, ts: nat, k: nat, eb: bool)
    requires ops.Valid() && Alike(ops, dir, a, b, k) && a.f.st.BODY? && !a.f.prefixClosed
    ensures var c, d := Step(ops, dir, a, z, ts, eb), Step(ops, dir, b, z, ts, eb);
            c.cut == d.cut && Alike(ops, dir, c.s, d.s, k)
  {
    hide CloseBody, SameHook;
    var body := a.f.buf + [z];
    if |body| >= BodyTarget(a.f.h) {
      var skip := if |body| < a.f.h.bodyLen then a.f.h.bodyLen - |body| else 0;
      var a1, b1 := a.(f := a.f.(buf := body)), b.(f := b.f.(buf := body));
      CloseBodyAlike(ops, dir, a1, b1, skip, k, eb);
      CloseBodyForgetsBuf(ops, dir, a, body, body, skip, eb);
      CloseBodyForgetsBuf(ops, dir, b, body, body, skip, eb);
    }
  }

  lemma StepAlike(ops: Ops, dir: Dir, a: Framer, b: Framer, z: Byte, ts: nat, k: nat, eb: bool)
    requires ops.Valid() && Ok(ops, dir, a) && Alike(ops, dir, a, b, k)
    ensures var c, d := Step(ops, dir, a, z, ts, eb), Step(ops, dir, b, z, ts, eb);
            c.cut == d.cut && Alike(ops, dir, c.s, d.s, k)
  {
    match a.f.st
    case HEADER => StepHeaderAlike(ops, dir, a, b, z, ts, k, eb);
    case SKIP => StepSkipAlike(ops, dir, a, b, k);
    case DIRTY => StepDirtyAlike(ops, dir, a, b, z, k);
    case BODY =>
      if a.f.prefixClosed { ClosedBodyAlike(ops, dir, a, b, z, ts, k, eb); }
      else { OpenBodyAlike(ops, dir, a, b, z, ts, k, eb); }
  }

  /** Alike states stay alike over every further chunk. */
  lemma {:induction false} FeedAlike(ops: Ops, dir: Dir, a: Framer, b: Framer, z: seq<Byte>, ts: nat, k: nat, eb: bool)
    requires ops.Valid() && Ok(ops, dir, a) && Alike(ops, dir, a, b, k)
    ensures var c, d := FeedFrom(ops, dir, a, z, ts, eb), FeedFrom(ops, dir, b, z, ts, eb);
            c.cut == d.cut && Alike(ops, dir, c.s, d.s, k)
    decreases |z|
  {
    hide Step, Alike, FrameOk, Ops.Valid;
    if z != [] {
      StepKeeps(ops, dir, a, z[0], ts, eb);
      StepAlike(ops, dir, a, b, z[0], ts, k, eb);
      var c, d := Step(ops, dir, a, z[0], ts, eb), Step(ops, dir, b, z[0], ts, eb);
      if !c.cut { FeedAlike(ops, dir, c.s, d.s, z[1..], ts, k, eb); }
    }
  }

  lemma HoleTurnAlike(ops: Ops, dir: Dir, a: Framer, b: Framer, n: nat, k: nat, eb: bool)
    requires ops.Valid() && Alike(ops, dir, a, b, k)
    ensures var c, d := HoleTurn(ops, dir, a, n, eb), HoleTurn(ops, dir, b, n, eb);
            c.take == d.take && c.stop == d.stop && Alike(ops, dir, c.s, d.s, k)
  {
    hide CloseBody, SameHook;
    if a.f.st.BODY? {
      var rem := ToBodyEnd(a.f);
      assert ToBodyEnd(b.f) == rem;
      CloseBodyAlike(ops, dir, a, b, rem - Min(rem, n), k, eb);
    }
  }

  lemma {:induction false} HoleFromAlike(ops: Ops, dir: Dir, a: Framer, b: Framer, n: nat, k: nat, eb: bool)
    requires ops.Valid() && Ok(ops, dir, a) && Alike(ops, dir, a, b, k)
    ensures Alike(ops, dir, HoleFrom(ops, dir, a, n, eb), HoleFrom(ops, dir, b, n, eb), k)
    decreases n
  {
    hide HoleTurn, Alike, FrameOk, Ops.Valid;
    if n > 0 {
      HoleTurnKeeps(ops, dir, a, n, eb);
      HoleTurnAlike(ops, dir, a, b, n, k, eb);
      var c, d := HoleTurn(ops, dir, a, n, eb), HoleTurn(ops, dir, b, n, eb);
      if !(c.stop || c.take == 0 || c.take > n) { HoleFromAlike(ops, dir, c.s, d.s, n - c.take, k, eb); }
    }
  }

  /** ... and over every further hole. */
  lemma HoleAlike(ops: Ops, dir: Dir, a: Framer, b: Framer, n: nat, k: nat)
    requires ops.Valid() && Ok(ops, dir, a) && Alike(ops, dir, a, b, k)
    ensures Alike(ops, dir, Hole(ops, dir, a, n), Hole(ops, dir, b, n), k)
  {
    hide HoleFrom, SameHook, LogsAlike;
    if n > 0 && !a.f.st.DIRTY? {
      var a1 := a.(st := a.st.(holes := a.st.holes + 1, holeBytes := a.st.holeBytes + n));
      var b1 := b.(st := b.st.(holes := b.st.holes + 1, holeBytes := b.st.holeBytes + n));
      HoleFromAlike(ops, dir, a1, b1, n, k, a.ctx.Blind());
    }
  }

  lemma DoAlike(ops: Ops, dir: Dir, a: Framer, b: Framer, x: Primitive, k: nat)
    requires ops.Valid() && Ok(ops, dir, a) && Alike(ops, dir, a, b, k)
    ensures Alike(ops, dir, Do(ops, dir, a, x), Do(ops, dir, b, x), k)
  {
    hide FeedFrom, Hole, SameHook;
    match x
    case Bytes(p, ts) => FeedAlike(ops, dir, a, b, p, ts, k, a.ctx.Blind());
    case Missing(n) => HoleAlike(ops, dir, a, b, n, k);
    case Hint(off, p) =>
    case Odd =>
  }

  /** ... and whatever else the chunk layer does. */
  lemma {:induction false} PlayAlike(ops: Ops, dir: Dir, a: Framer, b: Framer, xs: seq<Primitive>, k: nat)
    requires ops.Valid() && Ok(ops, dir, a) && Alike(ops, dir, a, b, k)
    ensures Alike(ops, dir, Play(ops, dir, a, xs), Play(ops, dir, b, xs), k)
    decreases |xs|
  {
    hide Do, Alike, FrameOk, Ops.Valid;
    if xs != [] {
      var init := xs[..|xs| - 1];
      PlayAlike(ops, dir, a, b, init, k);
      PlayKeeps(ops, dir, a, init);
      DoAlike(ops, dir, Play(ops, dir, a, init), Play(ops, dir, b, init), xs[|xs| - 1], k);
    }
  }

  // ---- the current body -----------------------------------------------------

  /** What is kept of the current body when its remaining bytes are `w`. */
  function KeptOf(f: Frame, w: seq<Byte>): seq<Byte>
  {
    if f.prefixClosed || |f.buf| >= BodyTarget(f.h) then f.buf
    else if |w| < BodyTarget(f.h) - |f.buf| then f.buf + w
    else f.buf + w[..BodyTarget(f.h) - |f.buf|]
  }

  /** The state behind the current body, of which `kept` is kept. */
  function BehindBody(ops: Ops, dir: Dir, s: Framer, kept: seq<Byte>): Framer
  {
    if s.f.st.SKIP? then s.(f := s.f.(skipLeft := 0, st := HEADER))
    else CloseBody(ops, dir, s, kept, 0, true).s
  }

  /** Emitting `body` now would not switch framing off. */
  predicate Steady(ops: Ops, dir: Dir, s: Framer, body: seq<Byte>)
  {
    s.f.st.BODY? && !s.f.h.cont ==> ops.preEmit(s.ctx, dir, s.f.h, body).ctx.Blind() == s.ctx.Blind()
  }

  /** The rest of the body closes the prefix, and what is left of it is skipped. */
  lemma BodyCloses(ops: Ops, dir: Dir, s: Framer, w: seq<Byte>, ts: nat, eb: bool)
    requires Ok(ops, dir, s) && s.f.st.BODY? && |w| == ToBodyEnd(s.f)
    ensures var used := if s.f.prefixClosed then 0 else BodyTarget(s.f.h) - |s.f.buf|;
            var c := CloseBody(ops, dir, s, KeptOf(s.f, w), |w| - used, eb);
            used <= |w| && FeedFrom(ops, dir, s, w, ts, eb) ==
              if c.cut then c else FeedFrom(ops, dir, c.s, w[used..], ts, eb)
  {
    if s.f.prefixClosed {
      ClosedBodyFeeds(ops, dir, s, w, ts, eb);
      assert w[0..] == w;
    } else {
      var n := BodyTarget(s.f.h) - |s.f.buf|;
      assert w == w[..n] + w[n..];
      FeedConcat(ops, dir, s, w[..n], w[n..], ts, eb);
      BodyBulk(ops, dir, s, w[..n], ts, eb);
      assert KeptOf(s.f, w) == s.f.buf + w[..n];
    }
  }

  /** Feeding the rest of the body. */
  lemma FeedsBehindBody(ops: Ops, dir: Dir, s: Framer, w: seq<Byte>, ts: nat, eb: bool)
    requires Ok(ops, dir, s) && (s.f.st.BODY? || s.f.st.SKIP?) && |w| == ToBodyEnd(s.f)
    requires Steady(ops, dir, s, KeptOf(s.f, w)) && (eb || !s.ctx.Blind())
    ensures FeedFrom(ops, dir, s, w, ts, eb) == Stepped(BehindBody(ops, dir, s, KeptOf(s.f, w)), false)
  {
    if s.f.st.SKIP? {
      SkipBulk(ops, dir, s, w, ts, eb);
    } else {
      BodyCloses(ops, dir, s, w, ts, eb);
      var used := if s.f.prefixClosed then 0 else BodyTarget(s.f.h) - |s.f.buf|;
      ClosedFeeds(ops, dir, s, KeptOf(s.f, w), w[used..], |w| - used, ts, eb);
    }
  }

  /** Behind a closed prefix only `skip` bytes are left. */
  lemma ClosedFeeds(ops: Ops, dir: Dir, s: Framer, kept: seq<Byte>, r: seq<Byte>, skip: nat, ts: nat, eb: bool)
    requires s.f.st.BODY? && s.f.skipLeft == 0 && |r| == skip && Steady(ops, dir, s, kept) && (eb || !s.ctx.Blind())
    ensures var c := CloseBody(ops, dir, s, kept, skip, eb);
            && !c.cut
            && FeedFrom(ops, dir, c.s, r, ts, eb) == Stepped(CloseBody(ops, dir, s, kept, 0, true).s, false)
  {
    if skip > 0 { SkipBulk(ops, dir, CloseBody(ops, dir, s, kept, skip, eb).s, r, ts, eb); }
  }

  /** A hole inside the body takes one turn. */
  lemma HoleOneTurn(ops: Ops, dir: Dir, s: Framer, n: nat, eb: bool)
    requires (s.f.st.BODY? || s.f.st.SKIP?) && 0 < n <= ToBodyEnd(s.f)
    ensures HoleFrom(ops, dir, s, n, eb) == HoleTurn(ops, dir, s, n, eb).s
  {
    var t := HoleTurn(ops, dir, s, n, eb);
    assert t.take == n && HoleFrom(ops, dir, t.s, 0, eb) == t.s;
  }

  /** The state as a hole of `n` bytes counts it. */
  function Counted(s: Framer, n: nat): Framer
  {
    s.(st := s.st.(holes := s.st.holes + 1, holeBytes := s.st.holeBytes + n))
  }

  /** A hole inside the body, and the rest of the body behind it. */
  lemma HoleBehindBody(ops: Ops, dir: Dir, s: Framer, n: nat, r: seq<Byte>, ts: nat)
    requires Ok(ops, dir, s) && (s.f.st.BODY? || s.f.st.SKIP?) && Steady(ops, dir, s, s.f.buf)
    requires 0 < n && n + |r| == ToBodyEnd(s.f)
    ensures Hole(ops, dir, s, n).ctx.Blind() == s.ctx.Blind()
    ensures Feed(ops, dir, Hole(ops, dir, s, n), r, ts) == Stepped(BehindBody(ops, dir, Counted(s, n), s.f.buf), false)
  {
    hide FeedFrom, HoleFrom;
    HoleOneTurn(ops, dir, Counted(s, n), n, s.ctx.Blind());
    if r == [] { FeedNothing(ops, dir, Hole(ops, dir, s, n), ts, s.ctx.Blind()); }
    if s.f.st.BODY? {
      ClosedFeeds(ops, dir, Counted(s, n), s.f.buf, r, |r|, ts, s.ctx.Blind());
    } else if r != [] {
      SkipBulk(ops, dir, Hole(ops, dir, s, n), r, ts, s.ctx.Blind());
    }
  }

  lemma KeptOfExtends(f: Frame, w: seq<Byte>)
    ensures f.buf <= KeptOf(f, w)
  {
  }

  /** What pre_emit has to make of the body with and without the hole, `w` being what is
      left of it: the same connection, on which framing is still on if it was. A message
      still being glued is emitted later, under one of the headers that can end it; a
      message that is already out asks for nothing. */
  ghost predicate HookAgrees(ops: Ops, dir: Dir, s: Framer, w: seq<Byte>)
    requires ops.Valid()
  {
    s.f.st.BODY? ==>
      var x, y := KeptOf(s.f, w), s.f.buf;
      if s.f.h.cont then SameHook(ops, dir, s.ctx, s.f.h, x, y)
      else SameUnder(ops, dir, s.ctx, s.f.h, x, y) && Steady(ops, dir, s, y)
  }

  /** Both ways of reaching the end of the body are alike; they are equal but for the
      one message, and when the message is complete the frames agree entirely. */
  lemma BehindBodyAlike(ops: Ops, dir: Dir, s: Framer, n: nat, w: seq<Byte>)
    requires ops.Valid() && Ok(ops, dir, s) && (s.f.st.BODY? || s.f.st.SKIP?) && HookAgrees(ops, dir, s, w)
    ensures var a := BehindBody(ops, dir, s, KeptOf(s.f, w));
            var b := BehindBody(ops, dir, Counted(s, n), s.f.buf);
            && Alike(ops, dir, a, b, |s.out|)
            && (!s.f.h.cont ==> a.f == b.f)
            && |a.out| == |s.out| + if s.f.st.BODY? && !s.f.h.cont then 1 else 0
  {
    hide KeptOf, SameHook, Ops.Valid;
    KeptOfExtends(s.f, w);
    var x, y := KeptOf(s.f, w), s.f.buf;
    if s.f.st.BODY? && !s.f.h.cont {
      assert x == y || Covers(Emitted(dir, MessageOf(ops, dir, s, x)), Emitted(dir, MessageOf(ops, dir, s, y)));
    }
  }

  /** Both runs go through the state behind the body. */
  lemma HoleRuns(ops: Ops, dir: Dir, s: Framer, n: nat, w: seq<Byte>, z: seq<Byte>, ts: nat)
    requires ops.Valid() && Ok(ops, dir, s) && (s.f.st.BODY? || s.f.st.SKIP?)
    requires Steady(ops, dir, s, KeptOf(s.f, w)) && Steady(ops, dir, s, s.f.buf)
    requires 0 < n <= |w| == ToBodyEnd(s.f)
    ensures var a := BehindBody(ops, dir, s, KeptOf(s.f, w));
            var b := BehindBody(ops, dir, Counted(s, n), s.f.buf);
            && Ok(ops, dir, a) && Ok(ops, dir, b)
            && Feed(ops, dir, s, w + z, ts) == FeedFrom(ops, dir, a, z, ts, s.ctx.Blind())
            && Feed(ops, dir, Hole(ops, dir, s, n), w[n..] + z, ts) == FeedFrom(ops, dir, b, z, ts, s.ctx.Blind())
  {
    hide BehindBody, Hole, FeedFrom, FrameOk, Steady, Ops.Valid;
    var eb := s.ctx.Blind();
    HoleBehindBody(ops, dir, s, n, w[n..], ts);
    FeedsBehindBody(ops, dir, s, w, ts, eb);
    FeedConcat(ops, dir, s, w, z, ts, eb);
    FeedConcat(ops, dir, Hole(ops, dir, s, n), w[n..], z, ts, eb);
    FeedKeeps(ops, dir, s, w, ts, eb);
    HoleKeeps(ops, dir, s, n);
    FeedKeeps(ops, dir, Hole(ops, dir, s, n), w[n..], ts, eb);
  }

  /** Hole transparency. Replace the next `n` bytes of a body by a hole, let `w` be the
      rest of the body as it was on the wire, `z` the rest of the chunk, and `later` any
      inputs behind it. Then the logs agree but for one message, whose body is
      a prefix of what it was, and the two states are alike for ever; once the message
      is out they have the same frame. */
  lemma HoleTransparency(ops: Ops, dir: Dir, s: Framer, n: nat, w: seq<Byte>, z: seq<Byte>, ts: nat,
                         later: seq<Primitive>)
    requires ops.Valid() && Ok(ops, dir, s) && (s.f.st.BODY? || s.f.st.SKIP?) && HookAgrees(ops, dir, s, w)
    requires 0 < n <= |w| == ToBodyEnd(s.f)
    ensures var whole := Feed(ops, dir, s, w + z, ts);
            var holed := Feed(ops, dir, Hole(ops, dir, s, n), w[n..] + z, ts);
            && whole.cut == holed.cut
            && Alike(ops, dir, whole.s, holed.s, |s.out|)
            && Alike(ops, dir, Play(ops, dir, whole.s, later), Play(ops, dir, holed.s, later), |s.out|)
  {
    hide BehindBody, Hole, FeedFrom, Play, Alike, Counted, Ops.Valid;
    HoleRuns(ops, dir, s, n, w, z, ts);
    BehindBodyAlike(ops, dir, s, n, w);
    var a := BehindBody(ops, dir, s, KeptOf(s.f, w));
    var b := BehindBody(ops, dir, Counted(s, n), s.f.buf);
    FeedAlike(ops, dir, a, b, z, ts, |s.out|, s.ctx.Blind());
    FeedKeeps(ops, dir, s, w + z, ts, s.ctx.Blind());
    PlayAlike(ops, dir, Feed(ops, dir, s, w + z, ts).s, Feed(ops, dir, Hole(ops, dir, s, n), w[n..] + z, ts).s, later,
              |s.out|);
  }

  /** A message hit by a hole in its only fragment is emitted once all the same, with
      the bytes that arrived before the hole, and everything behind it is as it was. */
  lemma HoleEmitsOnce(ops: Ops, dir: Dir, s: Framer, n: nat, w: seq<Byte>, z: seq<Byte>, ts: nat)
    requires ops.Valid() && Ok(ops, dir, s) && s.f.st.BODY? && !s.f.h.cont && HookAgrees(ops, dir, s, w)
    requires 0 < n <= |w| == ToBodyEnd(s.f)
    ensures var whole := Feed(ops, dir, s, w + z, ts).s;
            var holed := Feed(ops, dir, Hole(ops, dir, s, n), w[n..] + z, ts).s;
            && s.out + [Emitted(dir, MessageOf(ops, dir, s, s.f.buf))] <= holed.out
            && s.out + [Emitted(dir, MessageOf(ops, dir, s, KeptOf(s.f, w)))] <= whole.out
            && whole.out[|s.out| + 1..] == holed.out[|s.out| + 1..]
            && whole.f == holed.f && whole.ctx == holed.ctx
  {
    hide FeedFrom, Hole, FrameOk, Ops.Valid, KeptOf;
    HoleRuns(ops, dir, s, n, w, z, ts);
    HoleTransparency(ops, dir, s, n, w, z, ts, []);
    FeedKeeps(ops, dir, BehindBody(ops, dir, s, KeptOf(s.f, w)), z, ts, s.ctx.Blind());
    FeedKeeps(ops, dir, BehindBody(ops, dir, Counted(s, n), s.f.buf), z, ts, s.ctx.Blind());
  }

  // ---- the condition is exact -----------------------------------------------

  /** The hole shows in nothing but the one message, as far as the chunk `w + z` goes. */
  ghost predicate Transparent(ops: Ops, dir: Dir, s: Framer, n: nat, w: seq<Byte>, z: seq<Byte>, ts: nat)
    requires n <= |w|
  {
    var whole := Feed(ops, dir, s, w + z, ts);
    var holed := Feed(ops, dir, Hole(ops, dir, s, n), w[n..] + z, ts);
    && whole.cut == holed.cut
    && Near(whole.s, holed.s, |s.out|)
    && (|whole.s.out| > |s.out| ==> whole.s.f == holed.s.f)
  }

  /** Where the body alone leads, hook and all. */
  lemma BodyAlone(ops: Ops, dir: Dir, s: Framer, w: seq<Byte>, ts: nat)
    requires Ok(ops, dir, s) && s.f.st.BODY? && !s.f.h.cont && |w| == ToBodyEnd(s.f)
    ensures var r, p := Feed(ops, dir, s, w, ts), ops.preEmit(s.ctx, dir, s.f.h, KeptOf(s.f, w));
            r.s.ctx == p.ctx && r.cut == (!s.ctx.Blind() && p.ctx.Blind())
  {
    var eb := s.ctx.Blind();
    BodyCloses(ops, dir, s, w, ts, eb);
    var used := if s.f.prefixClosed then 0 else BodyTarget(s.f.h) - |s.f.buf|;
    var c := CloseBody(ops, dir, s, KeptOf(s.f, w), |w| - used, eb);
    if !c.cut && used < |w| { SkipBulk(ops, dir, c.s, w[used..], ts, eb); }
  }

  lemma HoleAlone(ops: Ops, dir: Dir, s: Framer, n: nat, r: seq<Byte>, ts: nat)
    requires Ok(ops, dir, s) && s.f.st.BODY? && !s.f.h.cont && 0 < n && n + |r| == ToBodyEnd(s.f)
    ensures var t := Feed(ops, dir, Hole(ops, dir, s, n), r, ts);
            t.s.ctx == ops.preEmit(s.ctx, dir, s.f.h, s.f.buf).ctx && !t.cut
  {
    HoleOneTurn(ops, dir, Counted(s, n), n, s.ctx.Blind());
    var t := Hole(ops, dir, s, n);
    if r != [] { SkipBulk(ops, dir, t, r, ts, t.ctx.Blind()); }
  }

  /** Behind the last fragment but one: once the header `h` that ends the message, and a byte
      of its body if it has one, have arrived, the connection is what pre_emit makes of the
      glued prefix. */
  lemma {:induction false} GlueEnds(ops: Ops, dir: Dir, s: Framer, x: seq<Byte>, z: seq<Byte>, h: Header, ts: nat,
                                    eb: bool)
    requires ops.Valid() && AtHeader(s.f, Some(x)) && Ends(ops, dir, s.ctx, s.f.h, z, h)
    ensures FeedFrom(ops, dir, s, Ended(z, h), ts, eb).s.ctx == ops.preEmit(s.ctx, dir, h, x).ctx
    decreases |z|
  {
    hide FeedFrom, EndHeader, Emit, BlindCheck, MsgReset;
    var n := ops.hdrSize(s.ctx.p, dir);
    var all := Ended(z, h);
    EndedFrom(z, h, n);
    HeaderFeeds(ops, dir, s, all, ts, eb);
    var h1 := ops.parseHdr(s.ctx, dir, s.f.h, z[..n]).value;
    HeaderEnds(ops, dir, s.(f := Stamp(s.f, ts)), z[..n], eb);
    var s1 := s.(f := Stamp(s.f, ts).(h := h1, hdr := z[..n]));
    if h1.cont && h1.bodyLen > 0 {
      var rest := z[n + h1.bodyLen..];
      NextFragment(ops, dir, s1, all[n..], ts, eb);
      EndedFrom(z, h, n + h1.bodyLen);
      assert all[n..][h1.bodyLen..] == all[n + h1.bodyLen..];
      GlueEnds(ops, dir, s1.(f := s1.f.(hdr := [], st := HEADER)), x, rest, h, ts, eb);
    } else {
      assert z[n..] == [];
      LastFragment(ops, dir, s1, x, h, ts, eb);
    }
  }

  lemma EndedFrom(z: seq<Byte>, h: Header, n: nat)
    requires n <= |z|
    ensures Ended(z, h)[..n] == z[..n] && Ended(z, h)[n..] == Ended(z[n..], h)
  {
  }

  /** A header that is accepted ends the message or opens the next fragment. */
  lemma HeaderEnds(ops: Ops, dir: Dir, s: Framer, hdr: seq<Byte>, eb: bool)
    requires ops.parseHdr(s.ctx, dir, s.f.h, hdr).Some?
    ensures var h := ops.parseHdr(s.ctx, dir, s.f.h, hdr).value;
            var s1 := s.(f := s.f.(h := h, hdr := hdr));
            EndHeader(ops, dir, s, hdr, eb) ==
            if h.bodyLen == 0 then BlindCheck(AfterMessage(ops, dir, s1, s1.f.buf), eb)
            else Stepped(s1.(f := s1.f.(st := BODY)), false)
  {
    hide Emit, BlindCheck, MsgReset;
  }

  /** A later fragment adds nothing to the prefix and is passed over. */
  lemma NextFragment(ops: Ops, dir: Dir, s: Framer, q: seq<Byte>, ts: nat, eb: bool)
    requires s.f.h.cont && 0 < s.f.h.bodyLen <= |q| && s.f.prefixClosed && s.f.skipLeft == 0
    ensures FeedFrom(ops, dir, s.(f := s.f.(st := BODY)), q, ts, eb)
            == FeedFrom(ops, dir, s.(f := s.f.(hdr := [], st := HEADER)), q[s.f.h.bodyLen..], ts, eb)
  {
    hide FeedFrom;
    ClosedBodyFeeds(ops, dir, s.(f := s.f.(st := BODY)), q, ts, eb);
    SkipThenHeader(ops, dir, s.(f := s.f.(hdr := [])), s.f.h.bodyLen, q, ts, eb);
  }

  /** The bytes `z`, and the first byte of the body behind them if there is one. */
  function Ended(z: seq<Byte>, h: Header): seq<Byte> { if h.bodyLen > 0 then z + [0] else z }

  lemma LastFragment(ops: Ops, dir: Dir, s: Framer, x: seq<Byte>, h: Header, ts: nat, eb: bool)
    requires s.f.h == h && (h.bodyLen == 0 || !h.cont) && s.f.buf == x && s.f.prefixClosed && s.f.skipLeft == 0
    ensures h.bodyLen == 0 ==>
              var c := BlindCheck(AfterMessage(ops, dir, s, x), eb);
              (if c.cut then c else FeedFrom(ops, dir, c.s, [], ts, eb)).s.ctx == ops.preEmit(s.ctx, dir, h, x).ctx
    ensures h.bodyLen > 0 ==>
              FeedFrom(ops, dir, s.(f := s.f.(st := BODY)), [0], ts, eb).s.ctx == ops.preEmit(s.ctx, dir, h, x).ctx
  {
    if h.bodyLen > 0 {
      var b := s.(f := s.f.(st := BODY));
      ClosedBodyFeeds(ops, dir, b, [0], ts, eb);
      var c := CloseBody(ops, dir, b, x, h.bodyLen, eb);
      if !c.cut { SkipBulk(ops, dir, c.s, [0], ts, eb); }
    }
  }

  /** A message that is still being glued: two prefixes that some header tells apart lead to
      two connections on some stream. */
  lemma GlueTellsApart(ops: Ops, dir: Dir, s: Framer, n: nat, w: seq<Byte>, z: seq<Byte>, h: Header)
    requires ops.Valid() && Ok(ops, dir, s) && s.f.st.BODY? && s.f.h.cont && 0 < n <= |w| == ToBodyEnd(s.f)
    requires Ends(ops, dir, s.ctx, s.f.h, z, h) && !SameUnder(ops, dir, s.ctx, h, KeptOf(s.f, w), s.f.buf)
    ensures !Transparent(ops, dir, s, n, w, Ended(z, h), 0)
  {
    hide FeedFrom, Hole, Ends, KeptOf;
    var x, y, eb := KeptOf(s.f, w), s.f.buf, s.ctx.Blind();
    HoleRuns(ops, dir, s, n, w, Ended(z, h), 0);
    GlueEnds(ops, dir, BehindBody(ops, dir, s, x), x, z, h, 0, eb);
    GlueEnds(ops, dir, BehindBody(ops, dir, Counted(s, n), y), y, z, h, 0, eb);
  }

  /** A hole over a body is transparent to every later stream exactly when pre_emit makes the
      same connection of the message with and without what was lost, and does not switch
      framing off if the body ends its message; for a message being glued, under every
      header that can end it. */
  lemma TransparentIff(ops: Ops, dir: Dir, s: Framer, n: nat, w: seq<Byte>)
    requires ops.Valid() && Ok(ops, dir, s) && s.f.st.BODY? && 0 < n <= |w| == ToBodyEnd(s.f)
    ensures (forall z, ts :: Transparent(ops, dir, s, n, w, z, ts)) <==> HookAgrees(ops, dir, s, w)
  {
    hide FeedFrom, Hole, Ops.Valid, FrameOk, KeptOf;
    if HookAgrees(ops, dir, s, w) {
      forall z, ts ensures Transparent(ops, dir, s, n, w, z, ts) {
        HoleTransparency(ops, dir, s, n, w, z, ts, []);
      }
    } else if s.f.h.cont {
      var z, h :| Ends(ops, dir, s.ctx, s.f.h, z, h) && !SameUnder(ops, dir, s.ctx, h, KeptOf(s.f, w), s.f.buf);
      GlueTellsApart(ops, dir, s, n, w, z, h);
    } else if forall z, ts :: Transparent(ops, dir, s, n, w, z, ts) {
      assert Transparent(ops, dir, s, n, w, [], 0);
      assert w + [] == w && w[n..] + [] == w[n..];
      BodyAlone(ops, dir, s, w, 0);
      HoleAlone(ops, dir, s, n, w[n..], 0);
      HookGrows(ops, dir, s, s.f.buf);
    }
  }

  /** A protocol whose one-byte headers give the length of the body, and whose hook keeps the
      first byte of a body on the connection. */
  function NotingOps(): Ops
  {
    Ops((p, d) => 1,
        (c, d, h: Header, b: seq<Byte>) =>
          if |b| != 1 then None else Some(NO_HEADER.(len := (b[0] as int) + 1, bodyLen := b[0], bodyTotal := b[0])),
        (c: Ctx, d, h, b: seq<Byte>) => Pre(if b == [] then c else c.(p := b[0]), 0, 0),
        (p, d) => p,
        (c, d, m, b) => (0, false),
        (c, d, off, b) => false,
        p => p)
  }

  /** A message of one byte: seen, its byte is on the connection; lost to a hole, it is not. */
  lemma HoleIsNoticed()
    ensures var ops, start := NotingOps(), Framer(Ctx(0, false, false, false), ZERO_FRAME, [], ZERO_STATS);
            var s := Feed(ops, Recv, start, [1], 0).s;
            && ops.Valid() && Ok(ops, Recv, s) && s.f.st.BODY? && ToBodyEnd(s.f) == 1
            && Feed(ops, Recv, s, [65], 0).s.ctx.p == 65
            && Feed(ops, Recv, Hole(ops, Recv, s, 1), [], 0).s.ctx.p == 0
  {
    var ops, start := NotingOps(), Framer(Ctx(0, false, false, false), ZERO_FRAME, [], ZERO_STATS);
    assert [] + [1] == [1];
    var s := Step(ops, Recv, start, 1, 0, false).s;
    assert FeedFrom(ops, Recv, s, [1][1..], 0, false) == Stepped(s, false);
    assert Feed(ops, Recv, start, [1], 0) == Stepped(s, false);
    BodyAlone(ops, Recv, s, [65], 0);
    HoleAlone(ops, Recv, s, 1, [], 0);
  }

  lemma HookGrows(ops: Ops, dir: Dir, s: Framer, body: seq<Byte>)
    requires ops.Valid()
    ensures Grows(s.ctx, ops.preEmit(s.ctx, dir, s.f.h, body).ctx)
  {
  }

  /** A hole that passes the end of the body hides a header, and the direction is lost,
      exactly when the message it ends does not switch framing off first. */
  lemma HoleOverHeader(ops: Ops, dir: Dir, s: Framer, n: nat)
    requires ops.Valid() && Ok(ops, dir, s) && !s.f.st.DIRTY? && n > ToBodyEnd(s.f)
    ensures var t := Hole(ops, dir, s, n);
            if Steady(ops, dir, s, s.f.buf) then t.f.st.DIRTY? && t.f.buf == [] && t.st.hdrHoles == s.st.hdrHoles + 1
            else t.f.st.HEADER? && t.f.hdr == [] && t.ctx.Blind() && t.st.hdrHoles == s.st.hdrHoles
  {
    hide HoleFrom, CloseBody;
    var s1 := Counted(s, n);
    if s.f.st.BODY? {
      BodyTurn(ops, dir, s1, n);
    } else {
      WaitingTurn(ops, dir, s1, n);
    }
  }

  /** In a header nothing can be learned from a hole. */
  lemma HeaderTurn(ops: Ops, dir: Dir, s: Framer, n: nat, eb: bool)
    requires s.f.st.HEADER? && n > 0
    ensures var t := HoleFrom(ops, dir, s, n, eb);
            t.f.st.DIRTY? && t.f.buf == [] && t.st.hdrHoles == s.st.hdrHoles + 1
  {
  }

  lemma WaitingTurn(ops: Ops, dir: Dir, s: Framer, n: nat)
    requires s.f.st.HEADER? || (s.f.st.SKIP? && s.f.skipLeft > 0)
    requires n > ToBodyEnd(s.f)
    ensures var t := HoleFrom(ops, dir, s, n, s.ctx.Blind());
            t.f.st.DIRTY? && t.f.buf == [] && t.st.hdrHoles == s.st.hdrHoles + 1
  {
    if s.f.st.SKIP? {
      HeaderTurn(ops, dir, s.(f := s.f.(skipLeft := 0, st := HEADER)), n - s.f.skipLeft, s.ctx.Blind());
    } else {
      HeaderTurn(ops, dir, s, n, s.ctx.Blind());
    }
  }

  lemma BodyTurn(ops: Ops, dir: Dir, s: Framer, n: nat)
    requires ops.Valid() && Ok(ops, dir, s) && s.f.st.BODY? && n > ToBodyEnd(s.f)
    ensures var t := HoleFrom(ops, dir, s, n, s.ctx.Blind());
            if Steady(ops, dir, s, s.f.buf) then t.f.st.DIRTY? && t.f.buf == [] && t.st.hdrHoles == s.st.hdrHoles + 1
            else t.f.st.HEADER? && t.f.hdr == [] && t.ctx.Blind() && t.st.hdrHoles == s.st.hdrHoles
  {
    hide HoleFrom, CloseBody, Ops.Valid;
    var eb := s.ctx.Blind();
    var c := CloseBody(ops, dir, s, s.f.buf, 0, eb);
    ClosesSteadily(ops, dir, s);
    assert HoleTurn(ops, dir, s, n, eb) == Turned(c.s, ToBodyEnd(s.f), c.cut);
    FirstTurn(ops, dir, s, n, eb);
    if !c.cut { HeaderTurn(ops, dir, c.s, n - ToBodyEnd(s.f), eb); }
  }

  lemma FirstTurn(ops: Ops, dir: Dir, s: Framer, n: nat, eb: bool)
    requires n > 0
    ensures var t := HoleTurn(ops, dir, s, n, eb);
            HoleFrom(ops, dir, s, n, eb) ==
            if t.stop || t.take == 0 || t.take > n then t.s else HoleFrom(ops, dir, t.s, n - t.take, eb)
  {
  }

  /** Closing the body here is cut short exactly when the hook switches framing off. */
  lemma ClosesSteadily(ops: Ops, dir: Dir, s: Framer)
    requires ops.Valid() && s.f.st.BODY?
    ensures var c := CloseBody(ops, dir, s, s.f.buf, 0, s.ctx.Blind());
            && c.s.f.st.HEADER? && c.s.f.hdr == [] && c.s.st.hdrHoles == s.st.hdrHoles
            && (c.cut <==> !Steady(ops, dir, s, s.f.buf)) && (c.cut ==> c.s.ctx.Blind())
  {
    assert Grows(s.ctx, ops.preEmit(s.ctx, dir, s.f.h, s.f.buf).ctx);
  }
}
