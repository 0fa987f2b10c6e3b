/**
 What the framer promises over whole streams: it does not matter how a stream is cut
 into chunks, and one pass over a stream emits what a recursive parser of whole
 messages finds in it.
 */
module FramingTheorems {
  import opened Framing
  import opened Options

  // ---- feeding in bulk ------------------------------------------------------

  /** Feeding a concatenation: the second part is looked at exactly when the first was
      not cut. */
  lemma {:induction false} FeedConcat(ops: Ops, dir: Dir, s: Framer, a: seq<Byte>, b: seq<Byte>, ts: nat, eb: bool)
    ensures var r := FeedFrom(ops, dir, s, a, ts, eb);
            FeedFrom(ops, dir, s, a + b, ts, eb) ==
            if r.cut then r else FeedFrom(ops, dir, r.s, b, ts, eb)
    decreases |a|
  {
    if a == [] {
      assert a + b == b;
    } else {
      assert (a + b)[0] == a[0] && (a + b)[1..] == a[1..] + b;
      var r := Step(ops, dir, s, a[0], ts, eb);
      if !r.cut { FeedConcat(ops, dir, r.s, a[1..], b, ts, eb); }
    }
  }

  /** Header bytes accumulate until the header is complete. */
  lemma {:induction false} HeaderBulk(ops: Ops, dir: Dir, s: Framer, p: seq<Byte>, ts: nat, eb: bool)
    requires s.f.st.HEADER? && p != []
    requires |s.f.hdr| + |p| <= ops.hdrSize(s.ctx.p, dir)
    ensures var s1 := s.(f := Stamp(s.f, ts));
            FeedFrom(ops, dir, s, p, ts, eb) ==
            if |s.f.hdr| + |p| < ops.hdrSize(s.ctx.p, dir) then Stepped(s1.(f := s1.f.(hdr := s.f.hdr + p)), false)
            else EndHeader(ops, dir, s1, s.f.hdr + p, eb)
    decreases |p|
  {
    var r := Step(ops, dir, s, p[0], ts, eb);
    assert s.f.hdr + p == (s.f.hdr + [p[0]]) + p[1..];
    if |p| == 1 {
      assert p == [p[0]] && p[1..] == [];
      assert FeedFrom(ops, dir, r.s, p[1..], ts, eb) == Stepped(r.s, false);
    } else {
      HeaderBulk(ops, dir, r.s, p[1..], ts, eb);
    }
  }

  /** Body bytes accumulate until the kept prefix is complete. */
  lemma {:induction false} BodyBulk(ops: Ops, dir: Dir, s: Framer, p: seq<Byte>, ts: nat, eb: bool)
    requires s.f.st.BODY? && !s.f.prefixClosed && p != []
    requires |s.f.buf| + |p| <= BodyTarget(s.f.h)
    ensures FeedFrom(ops, dir, s, p, ts, eb) ==
            if |s.f.buf| + |p| < BodyTarget(s.f.h) then Stepped(s.(f := s.f.(buf := s.f.buf + p)), false)
            else CloseBody(ops, dir, s, s.f.buf + p, s.f.h.bodyLen - (|s.f.buf| + |p|), eb)
    decreases |p|
  {
    var r := Step(ops, dir, s, p[0], ts, eb);
    assert s.f.buf + p == (s.f.buf + [p[0]]) + p[1..];
    if |p| == 1 {
      assert p == [p[0]] && p[1..] == [];
      assert FeedFrom(ops, dir, r.s, p[1..], ts, eb) == Stepped(r.s, false);
    } else {
      BodyBulk(ops, dir, r.s, p[1..], ts, eb);
      assert (s.(f := s.f.(buf := r.s.f.buf))) == r.s;
      if |s.f.buf| + |p| >= BodyTarget(s.f.h) {
        CloseBodyForgetsBuf(ops, dir, s, r.s.f.buf, s.f.buf + p, s.f.h.bodyLen - (|s.f.buf| + |p|), eb);
      }
    }
  }

  /** Closing a body does not depend on what was buffered before. */
  lemma CloseBodyForgetsBuf(ops: Ops, dir: Dir, s: Framer, buf: seq<Byte>, body: seq<Byte>, skip: nat, eb: bool)
    ensures CloseBody(ops, dir, s.(f := s.f.(buf := buf)), body, skip, eb) == CloseBody(ops, dir, s, body, skip, eb)
  {
    var s' := s.(f := s.f.(buf := buf));
    if !s.f.h.cont {
      assert MsgReset(Emit(ops, dir, s', body).f) == MsgReset(Emit(ops, dir, s, body).f);
    }
  }

  /** Skipped bytes only count. */
  lemma {:induction false} SkipBulk(ops: Ops, dir: Dir, s: Framer, p: seq<Byte>, ts: nat, eb: bool)
    requires s.f.st.SKIP? && p != [] && |p| <= s.f.skipLeft
    ensures FeedFrom(ops, dir, s, p, ts, eb) ==
            Stepped(s.(f := s.f.(skipLeft := s.f.skipLeft - |p|,
                                 st := if |p| == s.f.skipLeft then HEADER else SKIP)), false)
    decreases |p|
  {
    if |p| == 1 {
      assert FeedFrom(ops, dir, StepSkip(s).s, p[1..], ts, eb) == StepSkip(s);
    } else {
      SkipBulk(ops, dir, StepSkip(s).s, p[1..], ts, eb);
    }
  }

  // ---- chunk independence ---------------------------------------------------

  /** Successive calls of lk_frame_bytes; the flag says that none of them was cut. */
  function FeedChunks(ops: Ops, dir: Dir, s: Framer, chunks: seq<seq<Byte>>, ts: nat): (Framer, bool)
  {
    if chunks == [] then (s, true)
    else
      var (t, clean) := FeedChunks(ops, dir, s, chunks[..|chunks| - 1], ts);
      var r := Feed(ops, dir, t, chunks[|chunks| - 1], ts);
      (r.s, clean && !r.cut)
  }

  /** Whether some tail is dropped does not depend on the cuts, and where none is, neither
      does the result. */
  lemma {:induction false} ChunksAgree(ops: Ops, dir: Dir, s: Framer, chunks: seq<seq<Byte>>, ts: nat)
    requires ops.Valid() && Ok(ops, dir, s)
    ensures var whole := Feed(ops, dir, s, Flat(chunks), ts);
            var (t, clean) := FeedChunks(ops, dir, s, chunks, ts);
            (clean <==> !whole.cut) && (clean ==> t == whole.s)
    decreases |chunks|
  {
    if chunks != [] {
      var init, last := chunks[..|chunks| - 1], chunks[|chunks| - 1];
      ChunksAgree(ops, dir, s, init, ts);
      FeedKeeps(ops, dir, s, Flat(init), ts, s.ctx.Blind());
      FeedConcat(ops, dir, s, Flat(init), last, ts, s.ctx.Blind());
    }
  }

  // ---- the reference parser -------------------------------------------------

  /** The messages of a stream that starts at a header. `prefix` is the body kept so
      far when the header continues a fragmented message, and `ts` the time stamp of
      that message; `now` stamps every message that begins here. */
  function Parse(ops: Ops, dir: Dir, ctx: Ctx, h: Header, prefix: Option<seq<Byte>>, ts: nat, after: bool,
                 s: seq<Byte>, now: nat, eb: bool): seq<Message>
    requires ops.Valid()
    decreases |s|, 0
  {
    var n := ops.hdrSize(ctx.p, dir);
    if |s| < n then []
    else
      match ops.parseHdr(ctx, dir, h, s[..n])
      case None => []
      case Some(h1) => ParseBody(ops, dir, ctx, h1, prefix, if prefix.Some? then ts else now, after, s[n..], now, eb)
  }

  /** The messages of a stream `q` that starts behind the header `h`. A message is
      emitted once its kept prefix, at most 16384 bytes, is complete (a later fragment adds
      nothing to the prefix, so its first byte is enough); parsing goes on only behind a
      whole body. */
  function ParseBody(ops: Ops, dir: Dir, ctx: Ctx, h: Header, prefix: Option<seq<Byte>>, ts: nat, after: bool,
                     q: seq<Byte>, now: nat, eb: bool): seq<Message>
    requires ops.Valid()
    decreases |q|, 1
  {
    var need := if prefix.Some? && h.bodyLen > 0 then 1 else if h.bodyLen < 16384 then h.bodyLen else 16384;
    if |q| < need then []
    else
      var kept := if prefix.Some? then prefix.value else q[..need];
      if h.cont && h.bodyLen > 0 then
        if |q| < h.bodyLen then []
        else Parse(ops, dir, ctx, h, Some(kept), ts, after, q[h.bodyLen..], now, eb)
      else
        var pre := ops.preEmit(ctx, dir, h, kept);
        var m := Message(ts, pre.typ, pre.flags, after, |kept| < h.bodyTotal, h.len, kept);
        if |q| < h.bodyLen || (!eb && pre.ctx.Blind()) then [m]
        else [m] + Parse(ops, dir, pre.ctx, h.(bodyLen := 0, cont := false), None, ts, false, q[h.bodyLen..], now, eb)
  }

  /** The parser reads the stream to its end: every complete header is accepted, and no
      message switches framing off. */
  predicate Accepted(ops: Ops, dir: Dir, ctx: Ctx, h: Header, prefix: Option<seq<Byte>>, s: seq<Byte>, eb: bool)
    requires ops.Valid()
    decreases |s|, 0
  {
    var n := ops.hdrSize(ctx.p, dir);
    |s| < n ||
    match ops.parseHdr(ctx, dir, h, s[..n])
    case None => false
    case Some(h1) => AcceptedBody(ops, dir, ctx, h1, prefix, s[n..], eb)
  }

  predicate AcceptedBody(ops: Ops, dir: Dir, ctx: Ctx, h: Header, prefix: Option<seq<Byte>>, q: seq<Byte>, eb: bool)
    requires ops.Valid()
    decreases |q|, 1
  {
    var need := if prefix.Some? && h.bodyLen > 0 then 1 else if h.bodyLen < 16384 then h.bodyLen else 16384;
    |q| < need ||
    var kept := if prefix.Some? then prefix.value else q[..need];
    if h.cont && h.bodyLen > 0 then
      |q| < h.bodyLen || Accepted(ops, dir, ctx, h, Some(kept), q[h.bodyLen..], eb)
    else
      var pre := ops.preEmit(ctx, dir, h, kept);
      && (eb || !pre.ctx.Blind())
      && (|q| < h.bodyLen || Accepted(ops, dir, pre.ctx, h.(bodyLen := 0, cont := false), None, q[h.bodyLen..], eb))
  }

  function Log(dir: Dir, ms: seq<Message>): seq<Event>
  {
    seq(|ms|, i requires 0 <= i < |ms| => Emitted(dir, ms[i]))
  }

  /** The frame waits for a header; mid-glue it holds `prefix`. */
  predicate AtHeader(f: Frame, prefix: Option<seq<Byte>>)
  {
    && f.st.HEADER? && f.hdr == [] && f.skipLeft == 0
    && f.h.cont == f.prefixClosed == prefix.Some?
    && f.buf == if prefix.Some? then prefix.value else []
  }

  /** Past the bytes that are not kept, the direction waits for a header. */
  lemma SkipThenHeader(ops: Ops, dir: Dir, s: Framer, skip: nat, r: seq<Byte>, ts: nat, eb: bool)
    requires s.f.skipLeft == 0
    ensures var t := FeedFrom(ops, dir, s.(f := SkipTo(s.f, skip)), r, ts, eb);
            if |r| < skip then t.s.out == s.out && !t.cut
            else t == FeedFrom(ops, dir, s.(f := s.f.(st := HEADER)), r[skip..], ts, eb)
  {
    var t := s.(f := SkipTo(s.f, skip));
    if skip == 0 {
      assert r[0..] == r;
    } else if |r| < skip {
      if r != [] { SkipBulk(ops, dir, t, r, ts, eb); }
    } else {
      assert r == r[..skip] + r[skip..];
      FeedConcat(ops, dir, t, r[..skip], r[skip..], ts, eb);
      SkipBulk(ops, dir, t, r[..skip], ts, eb);
    }
  }

  /** A body whose prefix is closed is left as soon as one more byte arrives. */
  lemma ClosedBodyFeeds(ops: Ops, dir: Dir, s: Framer, q: seq<Byte>, ts: nat, eb: bool)
    requires s.f.st.BODY? && s.f.prefixClosed && s.f.h.bodyLen > 0 && q != []
    ensures var c := CloseBody(ops, dir, s, s.f.buf, s.f.h.bodyLen, eb);
            FeedFrom(ops, dir, s, q, ts, eb) == if c.cut then c else FeedFrom(ops, dir, c.s, q, ts, eb)
  {
  }

  /** From the first body byte to the end of the kept prefix. */
  lemma BodyFeeds(ops: Ops, dir: Dir, s: Framer, q: seq<Byte>, ts: nat, eb: bool)
    requires s.f.st.BODY? && s.f.h.bodyLen > 0 && (!s.f.prefixClosed ==> s.f.buf == [])
    ensures var need := if s.f.prefixClosed then 1 else BodyTarget(s.f.h);
            var t := FeedFrom(ops, dir, s, q, ts, eb);
            if |q| < need then t.s.out == s.out && !t.cut
            else
              var used := if s.f.prefixClosed then 0 else need;
              var kept := if s.f.prefixClosed then s.f.buf else q[..need];
              var c := CloseBody(ops, dir, s, kept, s.f.h.bodyLen - used, eb);
              t == if c.cut then c else FeedFrom(ops, dir, c.s, q[used..], ts, eb)
  {
    if s.f.prefixClosed {
      if q != [] { ClosedBodyFeeds(ops, dir, s, q, ts, eb); assert q[0..] == q; }
    } else {
      var need := BodyTarget(s.f.h);
      if |q| < need {
        if q != [] { BodyBulk(ops, dir, s, q, ts, eb); }
      } else {
        assert q == q[..need] + q[need..];
        FeedConcat(ops, dir, s, q[..need], q[need..], ts, eb);
        BodyBulk(ops, dir, s, q[..need], ts, eb);
        assert [] + q[..need] == q[..need];
      }
    }
  }

  /** From a header to the end of the header. */
  lemma HeaderFeeds(ops: Ops, dir: Dir, s: Framer, p: seq<Byte>, ts: nat, eb: bool)
    requires ops.Valid() && s.f.st.HEADER? && s.f.hdr == []
    ensures var n := ops.hdrSize(s.ctx.p, dir);
            var t := FeedFrom(ops, dir, s, p, ts, eb);
            if |p| < n then t.s.out == s.out && !t.cut
            else
              var e := EndHeader(ops, dir, s.(f := Stamp(s.f, ts)), p[..n], eb);
              t == if e.cut then e else FeedFrom(ops, dir, e.s, p[n..], ts, eb)
  {
    var n := ops.hdrSize(s.ctx.p, dir);
    if |p| < n {
      if p != [] { HeaderBulk(ops, dir, s, p, ts, eb); }
    } else {
      assert p == p[..n] + p[n..];
      FeedConcat(ops, dir, s, p[..n], p[n..], ts, eb);
      HeaderBulk(ops, dir, s, p[..n], ts, eb);
      assert [] + p[..n] == p[..n];
    }
  }

  function ParseAt(ops: Ops, dir: Dir, s: Framer, prefix: Option<seq<Byte>>, p: seq<Byte>, now: nat,
                   eb: bool): seq<Message>
    requires ops.Valid()
  {
    Parse(ops, dir, s.ctx, s.f.h, prefix, s.f.msgTs, s.f.afterResync, p, now, eb)
  }

  function ParseBodyAt(ops: Ops, dir: Dir, s: Framer, prefix: Option<seq<Byte>>, q: seq<Byte>, now: nat,
                       eb: bool): seq<Message>
    requires ops.Valid()
  {
    ParseBody(ops, dir, s.ctx, s.f.h, prefix, s.f.msgTs, s.f.afterResync, q, now, eb)
  }

  predicate AcceptedAt(ops: Ops, dir: Dir, s: Framer, prefix: Option<seq<Byte>>, p: seq<Byte>, eb: bool)
    requires ops.Valid()
  {
    Accepted(ops, dir, s.ctx, s.f.h, prefix, p, eb)
  }

  predicate AcceptedBodyAt(ops: Ops, dir: Dir, s: Framer, prefix: Option<seq<Byte>>, q: seq<Byte>, eb: bool)
    requires ops.Valid()
  {
    AcceptedBody(ops, dir, s.ctx, s.f.h, prefix, q, eb)
  }

  lemma LogCons(out: seq<Event>, dir: Dir, m: Message, ms: seq<Message>)
    ensures (out + [Emitted(dir, m)]) + Log(dir, ms) == out + Log(dir, [m] + ms)
  {
    assert Log(dir, [m] + ms) == [Emitted(dir, m)] + Log(dir, ms);
  }

  /** The state right after the message with body `kept` was emitted. */
  function AfterMessage(ops: Ops, dir: Dir, s: Framer, kept: seq<Byte>): Framer
  {
    var e := Emit(ops, dir, s, kept);
    e.(f := MsgReset(e.f))
  }

  /** One pass over a stream emits exactly the messages the reference parser finds, and
      drops a tail exactly when the parser does not read to the end. */
  lemma {:induction false} FeedIsParse(ops: Ops, dir: Dir, s: Framer, prefix: Option<seq<Byte>>, p: seq<Byte>,
                                       now: nat, eb: bool)
    requires ops.Valid() && AtHeader(s.f, prefix)
    ensures FeedFrom(ops, dir, s, p, now, eb).s.out == s.out + Log(dir, ParseAt(ops, dir, s, prefix, p, now, eb))
    ensures FeedFrom(ops, dir, s, p, now, eb).cut <==> !AcceptedAt(ops, dir, s, prefix, p, eb)
    decreases |p|, 0
  {
    hide FeedFrom, ParseBody, AcceptedBody, EndHeader;
    var n := ops.hdrSize(s.ctx.p, dir);
    HeaderFeeds(ops, dir, s, p, now, eb);
    if |p| >= n { HeaderEndIsParse(ops, dir, s.(f := Stamp(s.f, now)), prefix, p[..n], p[n..], now, eb); }
  }

  /** A header has just been completed. */
  lemma {:induction false} HeaderEndIsParse(ops: Ops, dir: Dir, s: Framer, prefix: Option<seq<Byte>>, hdr: seq<Byte>,
                                            q: seq<Byte>, now: nat, eb: bool)
    requires ops.Valid() && s.f.st.HEADER? && s.f.skipLeft == 0
    requires s.f.prefixClosed == prefix.Some? && s.f.buf == if prefix.Some? then prefix.value else []
    ensures var e := EndHeader(ops, dir, s, hdr, eb);
            var t := if e.cut then e else FeedFrom(ops, dir, e.s, q, now, eb);
            var h := ops.parseHdr(s.ctx, dir, s.f.h, hdr);
            if h.None? then t.cut && t.s.out == s.out
            else
              var s1 := s.(f := s.f.(h := h.value));
              && t.s.out == s.out + Log(dir, ParseBodyAt(ops, dir, s1, prefix, q, now, eb))
              && (t.cut <==> !AcceptedBodyAt(ops, dir, s1, prefix, q, eb))
    decreases |q|, 3
  {
    hide FeedFrom, ParseBody, AcceptedBody, Emit, BlindCheck, MsgReset, Ops.Valid;
    match ops.parseHdr(s.ctx, dir, s.f.h, hdr)
    case None =>
    case Some(h) =>
      var s1 := s.(f := s.f.(h := h, hdr := hdr));
      if h.bodyLen == 0 {
        EmptyBodyIsParse(ops, dir, s1, prefix, q, now, eb);
      } else {
        BodyIsParse(ops, dir, s1.(f := s1.f.(st := BODY)), prefix, q, now, eb);
      }
  }

  lemma {:induction false} EmptyBodyIsParse(ops: Ops, dir: Dir, s: Framer, prefix: Option<seq<Byte>>, q: seq<Byte>,
                                            now: nat, eb: bool)
    requires ops.Valid() && s.f.h.bodyLen == 0 && s.f.skipLeft == 0
    requires s.f.buf == if prefix.Some? then prefix.value else []
    ensures var c := BlindCheck(AfterMessage(ops, dir, s, s.f.buf), eb);
            var t := if c.cut then c else FeedFrom(ops, dir, c.s, q, now, eb);
            && t.s.out == s.out + Log(dir, ParseBodyAt(ops, dir, s, prefix, q, now, eb))
            && (t.cut <==> !AcceptedBodyAt(ops, dir, s, prefix, q, eb))
    decreases |q|, 1
  {
    var t := AfterMessage(ops, dir, s, s.f.buf);
    var on := eb || !t.ctx.Blind();
    var tail := if on then ParseAt(ops, dir, t, None, q, now, eb) else [];
    assert ParseBodyAt(ops, dir, s, prefix, q, now, eb) == [MessageOf(ops, dir, s, s.f.buf)] + tail by {
      assert q[0..] == q && q[..0] == [];
    }
    LogCons(s.out, dir, MessageOf(ops, dir, s, s.f.buf), tail);
    if on { FeedIsParse(ops, dir, t, None, q, now, eb); }
  }

  lemma {:induction false} BodyIsParse(ops: Ops, dir: Dir, s: Framer, prefix: Option<seq<Byte>>, q: seq<Byte>,
                                       now: nat, eb: bool)
    requires ops.Valid() && s.f.st.BODY? && s.f.h.bodyLen > 0 && s.f.skipLeft == 0
    requires s.f.prefixClosed == prefix.Some? && s.f.buf == if prefix.Some? then prefix.value else []
    ensures FeedFrom(ops, dir, s, q, now, eb).s.out == s.out + Log(dir, ParseBodyAt(ops, dir, s, prefix, q, now, eb))
    ensures FeedFrom(ops, dir, s, q, now, eb).cut <==> !AcceptedBodyAt(ops, dir, s, prefix, q, eb)
    decreases |q|, 2
  {
    hide FeedFrom, Parse, Accepted, CloseBody, Ops.Valid;
    BodyFeeds(ops, dir, s, q, now, eb);
    var need := if prefix.Some? then 1 else BodyTarget(s.f.h);
    if |q| >= need {
      var used := if prefix.Some? then 0 else need;
      var kept := if prefix.Some? then prefix.value else q[..need];
      if s.f.h.cont {
        FragmentNotCut(ops, dir, s, kept, s.f.h.bodyLen - used, eb);
        FragmentIsParse(ops, dir, s, prefix, kept, used, q, now, eb);
      } else {
        MessageIsParse(ops, dir, s, prefix, kept, used, q, now, eb);
      }
    }
  }

  /** The prefix of a fragment that does not finish its message. */
  lemma {:induction false} FragmentIsParse(ops: Ops, dir: Dir, s: Framer, prefix: Option<seq<Byte>>, kept: seq<Byte>,
                                           used: nat, q: seq<Byte>, now: nat, eb: bool)
    requires ops.Valid() && s.f.h.bodyLen > 0 && s.f.skipLeft == 0 && s.f.h.cont && q != []
    requires used == (if prefix.Some? then 0 else BodyTarget(s.f.h)) <= |q|
    requires kept == if prefix.Some? then prefix.value else q[..used]
    ensures var t := FeedFrom(ops, dir, CloseBody(ops, dir, s, kept, s.f.h.bodyLen - used, eb).s, q[used..], now, eb);
            && t.s.out == s.out + Log(dir, ParseBodyAt(ops, dir, s, prefix, q, now, eb))
            && (t.cut <==> !AcceptedBodyAt(ops, dir, s, prefix, q, eb))
    decreases |q|, 1
  {
    hide FeedFrom, Parse, Accepted, Ops.Valid;
    var skip := s.f.h.bodyLen - used;
    var g := s.(f := s.f.(buf := kept, prefixClosed := true, hdr := []));
    SkipThenHeader(ops, dir, g, skip, q[used..], now, eb);
    if |q| >= s.f.h.bodyLen {
      assert q[used..][skip..] == q[s.f.h.bodyLen..];
      FeedIsParse(ops, dir, g.(f := g.f.(st := HEADER)), Some(kept), q[s.f.h.bodyLen..], now, eb);
    }
  }

  /** The prefix of a body that finishes its message. */
  lemma {:induction false} MessageIsParse(ops: Ops, dir: Dir, s: Framer, prefix: Option<seq<Byte>>, kept: seq<Byte>,
                                          used: nat, q: seq<Byte>, now: nat, eb: bool)
    requires ops.Valid() && s.f.h.bodyLen > 0 && s.f.skipLeft == 0 && !s.f.h.cont && q != []
    requires used == (if prefix.Some? then 0 else BodyTarget(s.f.h)) <= |q|
    requires kept == if prefix.Some? then prefix.value else q[..used]
    ensures var c := CloseBody(ops, dir, s, kept, s.f.h.bodyLen - used, eb);
            var t := if c.cut then c else FeedFrom(ops, dir, c.s, q[used..], now, eb);
            && t.s.out == s.out + Log(dir, ParseBodyAt(ops, dir, s, prefix, q, now, eb))
            && (t.cut <==> !AcceptedBodyAt(ops, dir, s, prefix, q, eb))
    decreases |q|, 1
  {
    hide FeedFrom, Parse, Accepted, Ops.Valid;
    var skip := s.f.h.bodyLen - used;
    var t := AfterMessage(ops, dir, s, kept);
    var rest := if |q| >= s.f.h.bodyLen then q[s.f.h.bodyLen..] else [];
    var on := |q| >= s.f.h.bodyLen && (eb || !t.ctx.Blind());
    var tail := if on then ParseAt(ops, dir, t, None, rest, now, eb) else [];
    assert ParseBodyAt(ops, dir, s, prefix, q, now, eb) == [MessageOf(ops, dir, s, kept)] + tail;
    LogCons(s.out, dir, MessageOf(ops, dir, s, kept), tail);
    SkipThenHeader(ops, dir, t, skip, q[used..], now, eb);
    if on {
      assert q[used..][skip..] == rest;
      FeedIsParse(ops, dir, t, None, rest, now, eb);
    }
  }

  // ---- reading a stream to its end, from any state ---------------------------

  /** The glued prefix a direction holds while it waits for a header. */
  function PrefixOf(f: Frame): Option<seq<Byte>> { if f.h.cont then Some(f.buf) else None }

  /** A dirty direction looks for an anchor; behind it the stream has to be accepted. */
  predicate ReadsDirty(ops: Ops, dir: Dir, ctx: Ctx, h: Header, matched: nat, p: seq<Byte>, eb: bool)
    requires ops.Valid()
    decreases |p|
  {
    p == [] ||
    var (m, found) := ops.scan(ctx, dir, matched, p[0]);
    if found then Accepted(ops, dir, ctx.(p := ops.resynced(ctx.p, dir)), h.(bodyLen := 0, cont := false), None,
                           p[1..], eb)
    else ReadsDirty(ops, dir, ctx, h, m, p[1..], eb)
  }

  /** The stream `p`, met in state `s`, is read to its end: behind what is left of the
      current header, body or scan, the reference parser accepts it. */
  predicate Reads(ops: Ops, dir: Dir, s: Framer, p: seq<Byte>, eb: bool)
    requires ops.Valid()
  {
    match s.f.st
    case HEADER => Accepted(ops, dir, s.ctx, s.f.h, PrefixOf(s.f), s.f.hdr + p, eb)
    case SKIP => |p| < s.f.skipLeft || Accepted(ops, dir, s.ctx, s.f.h, PrefixOf(s.f), p[s.f.skipLeft..], eb)
    case DIRTY => ReadsDirty(ops, dir, s.ctx, s.f.h, s.f.matched, p, eb)
    case BODY =>
      if s.f.prefixClosed then AcceptedBody(ops, dir, s.ctx, s.f.h, Some(s.f.buf), p, eb)
      else AcceptedBody(ops, dir, s.ctx, s.f.h, None, s.f.buf + p, eb)
  }

  lemma HeaderReads(ops: Ops, dir: Dir, s: Framer, p: seq<Byte>, ts: nat, eb: bool)
    requires ops.Valid() && Ok(ops, dir, s) && s.f.st.HEADER?
    ensures FeedFrom(ops, dir, s, p, ts, eb).cut <==> !Reads(ops, dir, s, p, eb)
  {
    hide FeedFrom, AcceptedBody, EndHeader;
    var n := ops.hdrSize(s.ctx.p, dir);
    var need := n - |s.f.hdr|;
    if |p| < need {
      if p == [] { FeedNothing(ops, dir, s, ts, eb); } else { HeaderBulk(ops, dir, s, p, ts, eb); }
    } else {
      assert p == p[..need] + p[need..];
      FeedConcat(ops, dir, s, p[..need], p[need..], ts, eb);
      HeaderBulk(ops, dir, s, p[..need], ts, eb);
      var hdr := s.f.hdr + p[..need];
      assert (s.f.hdr + p)[..n] == hdr && (s.f.hdr + p)[n..] == p[need..];
      HeaderEndReads(ops, dir, s.(f := Stamp(s.f, ts)), hdr, p[need..], ts, eb);
    }
  }

  /** A header has just been completed. */
  lemma HeaderEndReads(ops: Ops, dir: Dir, s: Framer, hdr: seq<Byte>, q: seq<Byte>, ts: nat, eb: bool)
    requires ops.Valid() && Ok(ops, dir, s) && s.f.st.HEADER?
    ensures var e := EndHeader(ops, dir, s, hdr, eb);
            var t := if e.cut then e else FeedFrom(ops, dir, e.s, q, ts, eb);
            var h := ops.parseHdr(s.ctx, dir, s.f.h, hdr);
            t.cut <==> !(h.Some? && AcceptedBody(ops, dir, s.ctx, h.value, PrefixOf(s.f), q, eb))
  {
    hide FeedFrom, ParseBody, AcceptedBody, EndHeader, Ops.Valid;
    HeaderEndIsParse(ops, dir, s, PrefixOf(s.f), hdr, q, ts, eb);
  }

  lemma BodyReads(ops: Ops, dir: Dir, s: Framer, p: seq<Byte>, ts: nat, eb: bool)
    requires ops.Valid() && Ok(ops, dir, s) && s.f.st.BODY?
    ensures FeedFrom(ops, dir, s, p, ts, eb).cut <==> !Reads(ops, dir, s, p, eb)
  {
    hide FeedFrom, CloseBody;
    if s.f.prefixClosed {
      BodyIsParse(ops, dir, s, Some(s.f.buf), p, ts, eb);
    } else {
      var target := BodyTarget(s.f.h);
      var need := target - |s.f.buf|;
      if |p| < need {
        if p == [] { FeedNothing(ops, dir, s, ts, eb); } else { BodyBulk(ops, dir, s, p, ts, eb); }
      } else {
        assert p == p[..need] + p[need..];
        FeedConcat(ops, dir, s, p[..need], p[need..], ts, eb);
        BodyBulk(ops, dir, s, p[..need], ts, eb);
        var q := s.f.buf + p;
        assert q[..target] == s.f.buf + p[..need] && q[target..] == p[need..];
        if s.f.h.cont {
          FragmentIsParse(ops, dir, s, None, q[..target], target, q, ts, eb);
          FragmentNotCut(ops, dir, s, q[..target], s.f.h.bodyLen - target, eb);
        } else {
          MessageIsParse(ops, dir, s, None, q[..target], target, q, ts, eb);
        }
      }
    }
  }

  lemma FragmentNotCut(ops: Ops, dir: Dir, s: Framer, body: seq<Byte>, skip: nat, eb: bool)
    requires s.f.h.cont
    ensures !CloseBody(ops, dir, s, body, skip, eb).cut
  {
  }

  lemma SkipReads(ops: Ops, dir: Dir, s: Framer, p: seq<Byte>, ts: nat, eb: bool)
    requires ops.Valid() && Ok(ops, dir, s) && s.f.st.SKIP?
    ensures FeedFrom(ops, dir, s, p, ts, eb).cut <==> !Reads(ops, dir, s, p, eb)
  {
    var g := s.(f := s.f.(skipLeft := 0));
    assert g.(f := SkipTo(g.f, s.f.skipLeft)) == s;
    SkipThenHeader(ops, dir, g, s.f.skipLeft, p, ts, eb);
    if |p| >= s.f.skipLeft {
      FeedIsParse(ops, dir, g.(f := g.f.(st := HEADER)), PrefixOf(s.f), p[s.f.skipLeft..], ts, eb);
    }
  }

  lemma {:induction false} DirtyReads(ops: Ops, dir: Dir, s: Framer, p: seq<Byte>, ts: nat, eb: bool)
    requires ops.Valid() && s.f.st.DIRTY?
    ensures FeedFrom(ops, dir, s, p, ts, eb).cut <==> !Reads(ops, dir, s, p, eb)
    decreases |p|
  {
    hide Accepted;
    if p != [] {
      var (m, found) := ops.scan(s.ctx, dir, s.f.matched, p[0]);
      var s1 := s.(f := s.f.(matched := m));
      if found {
        FeedIsParse(ops, dir, DoResync(ops, dir, s1), None, p[1..], ts, eb);
      } else {
        DirtyReads(ops, dir, s1, p[1..], ts, eb);
      }
    }
  }

  /** From any state, the framer drops a tail exactly when the parser does not read the
      stream to its end. */
  lemma CutIff(ops: Ops, dir: Dir, s: Framer, p: seq<Byte>, ts: nat, eb: bool)
    requires ops.Valid() && Ok(ops, dir, s)
    ensures FeedFrom(ops, dir, s, p, ts, eb).cut <==> !Reads(ops, dir, s, p, eb)
  {
    hide FeedFrom, Reads;
    match s.f.st
    case HEADER => HeaderReads(ops, dir, s, p, ts, eb);
    case BODY => BodyReads(ops, dir, s, p, ts, eb);
    case SKIP => SkipReads(ops, dir, s, p, ts, eb);
    case DIRTY => DirtyReads(ops, dir, s, p, ts, eb);
  }

  // ---- what does not depend on the chunks -----------------------------------

  /** A stream that is read to its end leads to the same state and the same messages
      however it is cut into chunks; one that is not loses a tail however it is cut. */
  lemma ChunkingIsInvisible(ops: Ops, dir: Dir, s: Framer, chunks: seq<seq<Byte>>, ts: nat)
    requires ops.Valid() && Ok(ops, dir, s)
    ensures var (t, clean) := FeedChunks(ops, dir, s, chunks, ts);
            && (clean <==> Reads(ops, dir, s, Flat(chunks), s.ctx.Blind()))
            && (clean ==> t == Feed(ops, dir, s, Flat(chunks), ts).s)
  {
    ChunksAgree(ops, dir, s, chunks, ts);
    CutIff(ops, dir, s, Flat(chunks), ts, s.ctx.Blind());
  }

  /** Any two ways to cut one stream agree. */
  lemma AnyTwoSplitsAgree(ops: Ops, dir: Dir, s: Framer, x: seq<seq<Byte>>, y: seq<seq<Byte>>, ts: nat)
    requires ops.Valid() && Ok(ops, dir, s) && Flat(x) == Flat(y) && Reads(ops, dir, s, Flat(x), s.ctx.Blind())
    ensures FeedChunks(ops, dir, s, x, ts) == FeedChunks(ops, dir, s, y, ts)
  {
    ChunkingIsInvisible(ops, dir, s, x, ts);
    ChunkingIsInvisible(ops, dir, s, y, ts);
  }

  /** The streaming framer refines the recursive parser: over every cut of a stream that
      the parser reads to its end, the log is what the parser finds in the whole. */
  lemma StreamingRefinesParsing(ops: Ops, dir: Dir, ctx: Ctx, st: Stats, chunks: seq<seq<Byte>>, now: nat)
    requires ops.Valid() && Accepted(ops, dir, ctx, NO_HEADER, None, Flat(chunks), ctx.Blind())
    ensures FeedChunks(ops, dir, Framer(ctx, ZERO_FRAME, [], st), chunks, now).0.out
            == Log(dir, Parse(ops, dir, ctx, NO_HEADER, None, 0, false, Flat(chunks), now, ctx.Blind()))
  {
    var s := Framer(ctx, ZERO_FRAME, [], st);
    ChunksAgree(ops, dir, s, chunks, now);
    FeedIsParse(ops, dir, s, None, Flat(chunks), now, ctx.Blind());
  }

  // ---- where it stops being true --------------------------------------------

  /** What the resync scan makes of captured bytes: how far it matched, and whether it
      found an anchor. */
  function ScanAll(ops: Ops, dir: Dir, ctx: Ctx, matched: nat, b: seq<Byte>): (nat, bool)
    decreases |b|
  {
    if b == [] then (matched, false)
    else
      var (m, found) := ops.scan(ctx, dir, matched, b[0]);
      if found then (m, true) else ScanAll(ops, dir, ctx, m, b[1..])
  }

  lemma {:induction false} ScanFeeds(ops: Ops, dir: Dir, s: Framer, b: seq<Byte>, ts: nat, eb: bool)
    requires ops.Valid() && Ok(ops, dir, s) && s.f.st.DIRTY?
    ensures var t := FeedFrom(ops, dir, s, b, ts, eb);
            var (m, found) := ScanAll(ops, dir, s.ctx, s.f.matched, b);
            if found then |t.s.out| > |s.out| else t == Stepped(s.(f := s.f.(matched := m)), false)
    decreases |b|
  {
    if b != [] {
      var (m, found) := ops.scan(s.ctx, dir, s.f.matched, b[0]);
      var s1 := s.(f := s.f.(matched := m));
      if found {
        StepDirtyKeeps(ops, dir, s, b[0], eb);
        FeedKeeps(ops, dir, DoResync(ops, dir, s1), b[1..], ts, eb);
      } else {
        ScanFeeds(ops, dir, s1, b[1..], ts, eb);
      }
    }
  }

  lemma StepRejects(ops: Ops, dir: Dir, s: Framer, b: Byte, ts: nat, eb: bool)
    ensures var r := Step(ops, dir, s, b, ts, eb);
            r.cut && r.s.f.st.DIRTY? ==> r.s.f.matched == 0
  {
  }

  lemma {:induction false} FeedRejects(ops: Ops, dir: Dir, s: Framer, p: seq<Byte>, ts: nat, eb: bool)
    ensures var r := FeedFrom(ops, dir, s, p, ts, eb);
            r.cut && r.s.f.st.DIRTY? ==> r.s.f.matched == 0
    decreases |p|
  {
    hide Step;
    if p != [] {
      StepRejects(ops, dir, s, p[0], ts, eb);
      var r := Step(ops, dir, s, p[0], ts, eb);
      if !r.cut { FeedRejects(ops, dir, r.s, p[1..], ts, eb); }
    }
  }

  /** Behind a rejected header the cut shows exactly when the scan for an anchor would
      have noticed something in the bytes that the whole chunk drops. */
  lemma RejectedTailIff(ops: Ops, dir: Dir, s: Framer, a: seq<Byte>, b: seq<Byte>, ts: nat)
    requires ops.Valid() && Ok(ops, dir, s)
    requires var r := Feed(ops, dir, s, a, ts); r.cut && r.s.f.st.DIRTY?
    ensures FeedChunks(ops, dir, s, [a, b], ts).0 == FeedChunks(ops, dir, s, [a + b], ts).0 <==>
            ScanAll(ops, dir, Feed(ops, dir, s, a, ts).s.ctx, 0, b) == (0, false)
  {
    hide FeedFrom, FrameOk, Ops.Valid;
    var r := Feed(ops, dir, s, a, ts);
    assert [a, b][..1] == [a] && [a][..0] == [] && [a + b][..0] == [];
    assert FeedChunks(ops, dir, s, [], ts).0 == s;
    assert FeedChunks(ops, dir, s, [a], ts).0 == r.s;
    FeedConcat(ops, dir, s, a, b, ts, s.ctx.Blind());
    FeedKeeps(ops, dir, s, a, ts, s.ctx.Blind());
    FeedRejects(ops, dir, s, a, ts, s.ctx.Blind());
    ScanFeeds(ops, dir, r.s, b, ts, r.s.ctx.Blind());
  }


  /** A protocol with one-byte headers, which rejects 0 and resynchronises on 90. */
  function ToyOps(): Ops
  {
    Ops((p, d) => 1,
        (c, d, h: Header, b) => if b == [0] then None else Some(h.(len := 1)),
        (c, d, h, b) => Pre(c, 0, 0),
        (p, d) => p,
        (c, d, m, b) => (0, b == 90),
        (c, d, off, b) => false,
        p => p)
  }

  /** A rejected header drops the rest of its chunk unscanned: the anchor behind it is
      found only when the stream happens to be cut between the two. */
  lemma RejectedTailIsLost()
    ensures var s := Framer(Ctx(0, false, false, false), ZERO_FRAME, [], ZERO_STATS);
            && Flat([[0, 90]]) == Flat([[0], [90]])
            && FeedChunks(ToyOps(), Recv, s, [[0, 90]], 0).0.f.st.DIRTY?
            && FeedChunks(ToyOps(), Recv, s, [[0], [90]], 0).0.f.st.HEADER?
  {
    var ops, s := ToyOps(), Framer(Ctx(0, false, false, false), ZERO_FRAME, [], ZERO_STATS);
    assert [[0], [90]][..1] == [[0]] && [[0]][..0] == [] && [[0, 90]][..0] == [];
    assert Flat([[0]]) == [0];
    var d := s.(f := Dirtied(s.f), st := s.st.(badLen := 1));
    assert Step(ops, Recv, s, 0, 0, false) == Stepped(d, true) by {
      assert [] + [0] == [0];
      assert ops.parseHdr(s.ctx, Recv, s.f.h, [0]) == None;
    }
    assert Feed(ops, Recv, s, [0, 90], 0) == Stepped(d, true);
    assert Feed(ops, Recv, s, [0], 0) == Stepped(d, true);
    var r := DoResync(ops, Recv, d);
    assert Step(ops, Recv, d, 90, 0, false) == Stepped(r, false);
    assert [90][1..] == [];
    assert FeedFrom(ops, Recv, r, [], 0, false) == Stepped(r, false);
    assert Feed(ops, Recv, d, [90], 0) == Stepped(r, false);
    assert FeedChunks(ops, Recv, s, [], 0) == (s, true);
    assert FeedChunks(ops, Recv, s, [[0]], 0) == (d, false);
  }
}
