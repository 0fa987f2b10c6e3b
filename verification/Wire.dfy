/**
 The wire as the agent can know it: a sequence of positions, each captured at some time
 or lost. A recursive parser of such a sequence is what the framer refines, wherever the
 chunks and the holes begin and end.
 */
module Wire {
  import opened ChunkLayer
  import opened Framing
  import opened Options
  import opened FramingTheorems

  datatype Cell = Seen(b: Byte, ts: nat) | Lost

  function Unknown(n: nat): seq<Cell> { seq(n, i => Lost) }

  function Known(p: seq<Byte>, ts: nat): seq<Cell> { seq(|p|, i requires 0 <= i < |p| => Seen(p[i], ts)) }

  // ---- the reference parser -------------------------------------------------

  /** The bytes up to the first lost position, at most `n`. */
  function Leading(v: seq<Cell>, n: nat): (p: seq<Byte>)
    ensures |p| <= n && |p| <= |v|
    ensures forall i :: 0 <= i < |p| ==> v[i].Seen? && v[i].b == p[i]
    ensures |p| < n && |p| < |v| ==> v[|p|].Lost?
    decreases n
  {
    if n == 0 || v == [] || v[0].Lost? then [] else [v[0].b] + Leading(v[1..], n - 1)
  }

  /** Events of the channel, the decrypted one or the socket's, still reach the framer. */
  predicate Open(ctx: Ctx, dec: bool) { !ctx.cancel && !ctx.ignore && (dec || !ctx.tls) }

  /** Is it decided what is kept of a body whose positions so far are `q`? */
  predicate Decided(h: Header, prefix: Option<seq<Byte>>, q: seq<Cell>)
  {
    || h.bodyLen == 0
    || if prefix.Some? then q != []
       else
         var most := if h.bodyLen < 16384 then h.bodyLen else 16384;
         |Leading(q, most)| == most || |Leading(q, most)| < |q|
  }

  /** What is kept of it: the bytes in front of the first hole. */
  function KeptFrom(h: Header, prefix: Option<seq<Byte>>, q: seq<Cell>): seq<Byte>
  {
    if prefix.Some? then prefix.value else Leading(q, if h.bodyLen < 16384 then h.bodyLen else 16384)
  }

  /** The messages of a wire that starts at a header; arguments as for `Parse`. */
  function ParseWire(ops: Ops, dir: Dir, ctx: Ctx, h: Header, prefix: Option<seq<Byte>>, ts: nat, after: bool,
                     v: seq<Cell>, dec: bool): seq<Message>
    requires ops.Valid()
    decreases |v|, 0
  {
    var n := ops.hdrSize(ctx.p, dir);
    var hdr := Leading(v, n);
    if |hdr| < n then []
    else
      match ops.parseHdr(ctx, dir, h, hdr)
      case None => []
      case Some(h1) =>
        ParseWireBody(ops, dir, ctx, h1, prefix, if prefix.Some? then ts else v[0].ts, after, v[n..], dec)
  }

  function ParseWireBody(ops: Ops, dir: Dir, ctx: Ctx, h: Header, prefix: Option<seq<Byte>>, ts: nat, after: bool,
                         q: seq<Cell>, dec: bool): seq<Message>
    requires ops.Valid()
    decreases |q|, 1
  {
    if !Decided(h, prefix, q) then []
    else
      var kept := KeptFrom(h, prefix, q);
      if h.cont && h.bodyLen > 0 then
        if |q| < h.bodyLen then []
        else ParseWire(ops, dir, ctx, h, Some(kept), ts, after, q[h.bodyLen..], dec)
      else
        var pre := ops.preEmit(ctx, dir, h, kept);
        var m := Message(ts, pre.typ, pre.flags, after, |kept| < h.bodyTotal, h.len, kept);
        if |q| < h.bodyLen || (!dec && pre.ctx.Blind()) then [m]
        else [m] + ParseWire(ops, dir, pre.ctx, h.(bodyLen := 0, cont := false), None, ts, false, q[h.bodyLen..], dec)
  }

  /** The parser reads the wire to its end: no header is hit by a hole, every header is
      accepted, and no message closes the channel. */
  predicate WireAccepted(ops: Ops, dir: Dir, ctx: Ctx, h: Header, prefix: Option<seq<Byte>>, v: seq<Cell>, dec: bool)
    requires ops.Valid()
    decreases |v|, 0
  {
    var n := ops.hdrSize(ctx.p, dir);
    var hdr := Leading(v, n);
    if |hdr| < n then |hdr| == |v|
    else
      match ops.parseHdr(ctx, dir, h, hdr)
      case None => false
      case Some(h1) => WireBodyAccepted(ops, dir, ctx, h1, prefix, v[n..], dec)
  }

  predicate WireBodyAccepted(ops: Ops, dir: Dir, ctx: Ctx, h: Header, prefix: Option<seq<Byte>>, q: seq<Cell>,
                             dec: bool)
    requires ops.Valid()
    decreases |q|, 1
  {
    !Decided(h, prefix, q) ||
    var kept := KeptFrom(h, prefix, q);
    if h.cont && h.bodyLen > 0 then
      |q| < h.bodyLen || WireAccepted(ops, dir, ctx, h, Some(kept), q[h.bodyLen..], dec)
    else
      var pre := ops.preEmit(ctx, dir, h, kept);
      && Open(pre.ctx, dec)
      && (|q| < h.bodyLen || WireAccepted(ops, dir, pre.ctx, h.(bodyLen := 0, cont := false), None, q[h.bodyLen..],
                                          dec))
  }

  // ---- what of a wire decides its acceptance --------------------------------

  /** The same positions are captured, with the same bytes; the times may differ. */
  ghost predicate SameShape(v: seq<Cell>, w: seq<Cell>)
  {
    |v| == |w| && forall i :: 0 <= i < |v| ==> v[i].Seen? == w[i].Seen? && (v[i].Seen? ==> v[i].b == w[i].b)
  }

  lemma {:induction false} LeadingSame(v: seq<Cell>, w: seq<Cell>, n: nat)
    requires SameShape(v, w)
    ensures Leading(v, n) == Leading(w, n)
    decreases n
  {
    if n > 0 && v != [] { LeadingSame(v[1..], w[1..], n - 1); }
  }

  /** Whether a wire is accepted does not depend on its times. */
  lemma {:induction false} AcceptedSame(ops: Ops, dir: Dir, ctx: Ctx, h: Header, prefix: Option<seq<Byte>>,
                                        v: seq<Cell>, w: seq<Cell>, dec: bool)
    requires ops.Valid() && SameShape(v, w)
    ensures WireAccepted(ops, dir, ctx, h, prefix, v, dec) == WireAccepted(ops, dir, ctx, h, prefix, w, dec)
    decreases |v|, 0
  {
    hide WireBodyAccepted, Leading;
    var n := ops.hdrSize(ctx.p, dir);
    LeadingSame(v, w, n);
    if |Leading(v, n)| == n {
      match ops.parseHdr(ctx, dir, h, Leading(v, n))
      case None =>
      case Some(h1) => BodyAcceptedSame(ops, dir, ctx, h1, prefix, v[n..], w[n..], dec);
    }
  }

  lemma {:induction false} BodyAcceptedSame(ops: Ops, dir: Dir, ctx: Ctx, h: Header, prefix: Option<seq<Byte>>,
                                            v: seq<Cell>, w: seq<Cell>, dec: bool)
    requires ops.Valid() && SameShape(v, w)
    ensures WireBodyAccepted(ops, dir, ctx, h, prefix, v, dec) == WireBodyAccepted(ops, dir, ctx, h, prefix, w, dec)
    decreases |v|, 1
  {
    hide WireAccepted, Leading;
    LeadingSame(v, w, BodyTarget(h));
    if Decided(h, prefix, v) && |v| >= h.bodyLen {
      var kept := KeptFrom(h, prefix, v);
      if h.cont && h.bodyLen > 0 {
        AcceptedSame(ops, dir, ctx, h, Some(kept), v[h.bodyLen..], w[h.bodyLen..], dec);
      } else {
        AcceptedSame(ops, dir, ops.preEmit(ctx, dir, h, kept).ctx, h.(bodyLen := 0, cont := false), None,
                     v[h.bodyLen..], w[h.bodyLen..], dec);
      }
    }
  }

  lemma SameShapeConcat(v: seq<Cell>, w: seq<Cell>, v': seq<Cell>, w': seq<Cell>)
    requires SameShape(v, w) && SameShape(v', w')
    ensures SameShape(v + v', w + w')
  {
  }

  // ---- the framer, position by position -------------------------------------

  function StepCell(ops: Ops, dir: Dir, s: Framer, c: Cell, eb: bool): Stepped
  {
    match c
    case Seen(b, ts) => Step(ops, dir, s, b, ts, eb)
    case Lost =>
      if s.f.st.DIRTY? then Stepped(s.(f := s.f.(matched := 0)), false)
      else
        var t := HoleTurn(ops, dir, s, 1, eb);
        Stepped(t.s, t.stop)
  }

  function FeedCells(ops: Ops, dir: Dir, s: Framer, v: seq<Cell>, eb: bool): Stepped
    decreases |v|
  {
    if v == [] then Stepped(s, false)
    else
      var r := StepCell(ops, dir, s, v[0], eb);
      if r.cut then r else FeedCells(ops, dir, r.s, v[1..], eb)
  }

  lemma LeadingCons(v: seq<Cell>, n: nat)
    ensures Leading(v, n) == if n == 0 || v == [] || v[0].Lost? then [] else [v[0].b] + Leading(v[1..], n - 1)
  {
  }

  lemma CellsCons(ops: Ops, dir: Dir, s: Framer, v: seq<Cell>, eb: bool)
    requires v != []
    ensures var r := StepCell(ops, dir, s, v[0], eb);
            FeedCells(ops, dir, s, v, eb) == if r.cut then r else FeedCells(ops, dir, r.s, v[1..], eb)
  {
  }

  lemma NoCells(ops: Ops, dir: Dir, s: Framer, eb: bool)
    ensures FeedCells(ops, dir, s, [], eb) == Stepped(s, false)
  {
  }

  lemma {:induction false} CellsConcat(ops: Ops, dir: Dir, s: Framer, a: seq<Cell>, b: seq<Cell>, eb: bool)
    ensures var r := FeedCells(ops, dir, s, a, eb);
            FeedCells(ops, dir, s, a + b, eb) == if r.cut then r else FeedCells(ops, dir, r.s, b, eb)
    decreases |a|
  {
    hide StepCell;
    if a == [] {
      assert a + b == b;
    } else {
      assert (a + b)[0] == a[0] && (a + b)[1..] == a[1..] + b;
      var r := StepCell(ops, dir, s, a[0], eb);
      if !r.cut { CellsConcat(ops, dir, r.s, a[1..], b, eb); }
    }
  }

  lemma CloseBodyGrows(ops: Ops, dir: Dir, s: Framer, body: seq<Byte>, skip: nat, eb: bool)
    requires ops.Valid()
    ensures Grows(s.ctx, CloseBody(ops, dir, s, body, skip, eb).s.ctx)
  {
  }

  lemma StepHeaderGrows(ops: Ops, dir: Dir, s: Framer, b: Byte, ts: nat, eb: bool)
    requires ops.Valid()
    ensures Grows(s.ctx, StepHeader(ops, dir, s, b, ts, eb).s.ctx)
  {
  }

  lemma StepCellGrows(ops: Ops, dir: Dir, s: Framer, c: Cell, eb: bool)
    requires ops.Valid()
    ensures Grows(s.ctx, StepCell(ops, dir, s, c, eb).s.ctx)
  {
    hide CloseBody, StepHeader, Ops.Valid;
    if s.f.st.BODY? {
      var n := ToBodyEnd(s.f);
      CloseBodyGrows(ops, dir, s, s.f.buf, n - Min(n, 1), eb);
      CloseBodyGrows(ops, dir, s, s.f.buf, s.f.h.bodyLen, eb);
      if c.Seen? {
        var body := s.f.buf + [c.b];
        CloseBodyGrows(ops, dir, s, body, if |body| < s.f.h.bodyLen then s.f.h.bodyLen - |body| else 0, eb);
      }
    } else if c.Seen? {
      StepHeaderGrows(ops, dir, s, c.b, c.ts, eb);
    }
  }

  lemma {:induction false} CellsGrow(ops: Ops, dir: Dir, s: Framer, v: seq<Cell>, eb: bool)
    requires ops.Valid()
    ensures Grows(s.ctx, FeedCells(ops, dir, s, v, eb).s.ctx)
    decreases |v|
  {
    hide StepCell, Ops.Valid;
    if v != [] {
      StepCellGrows(ops, dir, s, v[0], eb);
      var r := StepCell(ops, dir, s, v[0], eb);
      if !r.cut { CellsGrow(ops, dir, r.s, v[1..], eb); }
    }
  }

  /** Nothing but the frame has changed. */
  predicate Quiet(s: Framer, r: Stepped) { !r.cut && r.s.out == s.out && r.s.ctx == s.ctx }

  lemma HeaderCell(ops: Ops, dir: Dir, s: Framer, c: Cell, eb: bool)
    requires s.f.st.HEADER?
    ensures var r := StepCell(ops, dir, s, c, eb);
            if c.Lost? then r.cut && r.s.out == s.out && r.s.ctx == s.ctx
            else
              var t := s.(f := Stamp(s.f, c.ts));
              r == if |s.f.hdr| + 1 < ops.hdrSize(s.ctx.p, dir)
                then Stepped(t.(f := t.f.(hdr := s.f.hdr + [c.b])), false)
                   else EndHeader(ops, dir, t, s.f.hdr + [c.b], eb)
  {
  }

  lemma {:induction false} HeaderCells(ops: Ops, dir: Dir, s: Framer, v: seq<Cell>, eb: bool)
    requires s.f.st.HEADER? && |s.f.hdr| < ops.hdrSize(s.ctx.p, dir)
    ensures var m := ops.hdrSize(s.ctx.p, dir) - |s.f.hdr|;
            var p := Leading(v, m);
            var r := FeedCells(ops, dir, s, v, eb);
            if |p| == m then
              var e := EndHeader(ops, dir, s.(f := Stamp(s.f, v[0].ts)), s.f.hdr + p, eb);
              r == if e.cut then e else FeedCells(ops, dir, e.s, v[m..], eb)
            else if |p| == |v| then Quiet(s, r)
            else r.cut && r.s.out == s.out && r.s.ctx == s.ctx
    decreases |v|, 1
  {
    hide StepCell, EndHeader, FeedCells, Leading, Stamp;
    var m := ops.hdrSize(s.ctx.p, dir) - |s.f.hdr|;
    LeadingCons(v, m);
    if v == [] {
      NoCells(ops, dir, s, eb);
    } else {
      HeaderCell(ops, dir, s, v[0], eb);
      CellsCons(ops, dir, s, v, eb);
      if v[0].Seen? { HeaderCellsOn(ops, dir, s, v, m, eb); }
    }
  }

  lemma {:induction false} HeaderCellsOn(ops: Ops, dir: Dir, s: Framer, v: seq<Cell>, m: nat, eb: bool)
    requires s.f.st.HEADER? && m + |s.f.hdr| == ops.hdrSize(s.ctx.p, dir) && m > 0 && v != [] && v[0].Seen?
    ensures var p := Leading(v, m);
            var c := StepCell(ops, dir, s, v[0], eb);
            var r := if c.cut then c else FeedCells(ops, dir, c.s, v[1..], eb);
            if |p| == m then
              var e := EndHeader(ops, dir, s.(f := Stamp(s.f, v[0].ts)), s.f.hdr + p, eb);
              r == if e.cut then e else FeedCells(ops, dir, e.s, v[m..], eb)
            else if |p| == |v| then Quiet(s, r)
            else r.cut && r.s.out == s.out && r.s.ctx == s.ctx
    decreases |v|, 0
  {
    hide StepCell, EndHeader, FeedCells, Leading;
    HeaderCell(ops, dir, s, v[0], eb);
    LeadingCons(v, m);
    var q := Leading(v[1..], m - 1);
    if m == 1 {
      assert s.f.hdr + [v[0].b] == s.f.hdr + Leading(v, 1);
    } else {
      var t := s.(f := Stamp(s.f, v[0].ts).(hdr := s.f.hdr + [v[0].b]));
      HeaderCells(ops, dir, t, v[1..], eb);
      if |q| == m - 1 {
        Onwards(v, m - 1);
        Onward(s.f.hdr, v[0].b, q);
        EndHeaderForgets(ops, dir, t, s.f.hdr + Leading(v, m), v[1].ts, s.(f := Stamp(s.f, v[0].ts)), eb);
      }
    }
  }

  /** A complete header replaces what was collected of it. */
  lemma EndHeaderForgets(ops: Ops, dir: Dir, t: Framer, hdr: seq<Byte>, ts: nat, s: Framer, eb: bool)
    requires t.f.hdr != [] && t == s.(f := s.f.(hdr := t.f.hdr))
    ensures EndHeader(ops, dir, t.(f := Stamp(t.f, ts)), hdr, eb) == EndHeader(ops, dir, s, hdr, eb)
  {
  }

  /** The run `r` over `v` closes a body as `c` and goes on behind it; when the channel
      went blind, only the log and the connection matter. */
  predicate Closes(ops: Ops, dir: Dir, r: Stepped, c: Stepped, v: seq<Cell>, eb: bool)
  {
    if c.cut then r.cut && r.s.out == c.s.out && r.s.ctx == c.s.ctx
    else r == FeedCells(ops, dir, c.s, v, eb)
  }

  /** The first position behind a closed prefix. */
  lemma ClosedCells(ops: Ops, dir: Dir, s: Framer, v: seq<Cell>, eb: bool)
    requires s.f.st.BODY? && s.f.prefixClosed && s.f.h.bodyLen > 0 && s.f.skipLeft == 0 && v != []
    ensures Closes(ops, dir, FeedCells(ops, dir, s, v, eb), CloseBody(ops, dir, s, s.f.buf, s.f.h.bodyLen, eb), v, eb)
  {
    var c := CloseBody(ops, dir, s, s.f.buf, s.f.h.bodyLen, eb);
    if v[0].Lost? { LostCloses(ops, dir, s, v, s.f.h.bodyLen, eb); }
  }

  /** A hole closes the prefix. */
  lemma LostCloses(ops: Ops, dir: Dir, s: Framer, v: seq<Cell>, rem: nat, eb: bool)
    requires s.f.st.BODY? && v != [] && v[0].Lost? && s.f.skipLeft == 0 && rem == ToBodyEnd(s.f) > 0
    ensures Closes(ops, dir, FeedCells(ops, dir, s, v, eb), CloseBody(ops, dir, s, s.f.buf, rem, eb), v, eb)
  {
    hide CloseBody;
    var c, d := CloseBody(ops, dir, s, s.f.buf, rem, eb), CloseBody(ops, dir, s, s.f.buf, rem - 1, eb);
    assert StepCell(ops, dir, s, Lost, eb) == d;
    ClosesMore(ops, dir, s, s.f.buf, rem, 1, eb);
    if !c.cut { assert StepCell(ops, dir, c.s, Lost, eb) == d; }
  }

  /** Closing a body with `n` positions less to skip. */
  lemma ClosesMore(ops: Ops, dir: Dir, s: Framer, body: seq<Byte>, rem: nat, n: nat, eb: bool)
    requires s.f.skipLeft == 0 && 0 < n <= rem
    ensures var c, d := CloseBody(ops, dir, s, body, rem, eb), CloseBody(ops, dir, s, body, rem - n, eb);
            && c.cut == d.cut && c.s.f.st.SKIP? && c.s.f.skipLeft == rem
            && d.s == c.s.(f := c.s.f.(skipLeft := rem - n, st := if rem == n then HEADER else SKIP))
  {
  }

  lemma BodyCell(ops: Ops, dir: Dir, s: Framer, b: Byte, ts: nat, eb: bool)
    requires s.f.st.BODY? && !s.f.prefixClosed && |s.f.buf| < BodyTarget(s.f.h)
    ensures var body := s.f.buf + [b];
            StepCell(ops, dir, s, Seen(b, ts), eb) ==
            if |body| < BodyTarget(s.f.h) then Stepped(s.(f := s.f.(buf := body)), false)
            else CloseBody(ops, dir, s, body, s.f.h.bodyLen - |body|, eb)
  {
    hide CloseBody;
  }

  lemma {:induction false} BodyCells(ops: Ops, dir: Dir, s: Framer, v: seq<Cell>, eb: bool)
    requires s.f.st.BODY? && !s.f.prefixClosed && |s.f.buf| < BodyTarget(s.f.h) && s.f.skipLeft == 0
    ensures var m := BodyTarget(s.f.h) - |s.f.buf|;
            var p := Leading(v, m);
            var r := FeedCells(ops, dir, s, v, eb);
            if |p| < m && |p| == |v| then Quiet(s, r)
            else
              var kept := s.f.buf + p;
              Closes(ops, dir, r, CloseBody(ops, dir, s, kept, s.f.h.bodyLen - |kept|, eb), v[|p|..], eb)
    decreases |v|, 1
  {
    hide StepCell, CloseBody, FeedCells, Leading;
    var m := BodyTarget(s.f.h) - |s.f.buf|;
    LeadingCons(v, m);
    if v == [] {
      NoCells(ops, dir, s, eb);
    } else if v[0].Lost? {
      assert s.f.buf + [] == s.f.buf && v[0..] == v;
      LostCloses(ops, dir, s, v, s.f.h.bodyLen - |s.f.buf|, eb);
    } else {
      BodyCellsOn(ops, dir, s, v, m, eb);
    }
  }

  lemma {:induction false} BodyCellsOn(ops: Ops, dir: Dir, s: Framer, v: seq<Cell>, m: nat, eb: bool)
    requires s.f.st.BODY? && !s.f.prefixClosed && |s.f.buf| + m == BodyTarget(s.f.h) && m > 0 && s.f.skipLeft == 0
    requires v != [] && v[0].Seen?
    ensures var p := Leading(v, m);
            var r := FeedCells(ops, dir, s, v, eb);
            if |p| < m && |p| == |v| then Quiet(s, r)
            else
              var kept := s.f.buf + p;
              Closes(ops, dir, r, CloseBody(ops, dir, s, kept, s.f.h.bodyLen - |kept|, eb), v[|p|..], eb)
    decreases |v|, 0
  {
    hide StepCell, CloseBody, FeedCells, Leading;
    LeadingCons(v, m);
    CellsCons(ops, dir, s, v, eb);
    BodyCell(ops, dir, s, v[0].b, v[0].ts, eb);
    var body, q := s.f.buf + [v[0].b], Leading(v[1..], m - 1);
    Onward(s.f.buf, v[0].b, q);
    Onwards(v, |q|);
    if m == 1 {
      assert body + q == body;
    } else {
      BodyCells(ops, dir, s.(f := s.f.(buf := body)), v[1..], eb);
      CloseBodyForgetsBuf(ops, dir, s, body, body + q, s.f.h.bodyLen - |body + q|, eb);
    }
  }

  lemma Onward(a: seq<Byte>, b: Byte, c: seq<Byte>)
    ensures (a + [b]) + c == a + ([b] + c)
  {
  }

  lemma Onwards(v: seq<Cell>, n: nat)
    requires n + 1 <= |v|
    ensures v[1..][n..] == v[n + 1..]
  {
  }

  /** Past the positions that are not kept. */
  lemma {:induction false} SkipCells(ops: Ops, dir: Dir, s: Framer, skip: nat, v: seq<Cell>, eb: bool)
    requires s.f.skipLeft == 0
    ensures var r := FeedCells(ops, dir, s.(f := SkipTo(s.f, skip)), v, eb);
            if |v| < skip then Quiet(s, r)
            else r == FeedCells(ops, dir, s.(f := s.f.(st := HEADER)), v[skip..], eb)
    decreases |v|
  {
    if skip == 0 {
      assert v[0..] == v;
    } else if v != [] {
      var t := s.(f := SkipTo(s.f, skip));
      assert StepCell(ops, dir, t, v[0], eb) == Stepped(s.(f := SkipTo(s.f, skip - 1)), false);
      SkipCells(ops, dir, s, skip - 1, v[1..], eb);
      if |v| >= skip { assert v[1..][skip - 1..] == v[skip..]; }
    }
  }

  // ---- the framer refines the parser ----------------------------------------

  function WireAt(ops: Ops, dir: Dir, s: Framer, prefix: Option<seq<Byte>>, v: seq<Cell>, dec: bool): seq<Message>
    requires ops.Valid()
  {
    ParseWire(ops, dir, s.ctx, s.f.h, prefix, s.f.msgTs, s.f.afterResync, v, dec)
  }

  function WireBodyAt(ops: Ops, dir: Dir, s: Framer, prefix: Option<seq<Byte>>, q: seq<Cell>, dec: bool): seq<Message>
    requires ops.Valid()
  {
    ParseWireBody(ops, dir, s.ctx, s.f.h, prefix, s.f.msgTs, s.f.afterResync, q, dec)
  }

  /** The run was not cut, and the channel is still open. */
  predicate Through(r: Stepped, dec: bool) { !r.cut && Open(r.s.ctx, dec) }

  /** Position by position, the framer emits exactly the messages the reference parser
      finds, and gets through exactly when the parser reads to the end. */
  lemma {:induction false} CellsAreParsed(ops: Ops, dir: Dir, s: Framer, prefix: Option<seq<Byte>>, v: seq<Cell>,
                                          dec: bool)
    requires ops.Valid() && AtHeader(s.f, prefix)
    ensures var r := FeedCells(ops, dir, s, v, dec);
            && r.s.out == s.out + Log(dir, WireAt(ops, dir, s, prefix, v, dec))
            && (Open(s.ctx, dec) ==> (Through(r, dec) <==> WireAccepted(ops, dir, s.ctx, s.f.h, prefix, v, dec)))
    decreases |v|, 0
  {
    hide FeedCells, ParseWireBody, WireBodyAccepted, EndHeader, Leading;
    HeaderCells(ops, dir, s, v, dec);
    var n := ops.hdrSize(s.ctx.p, dir);
    var hdr := Leading(v, n);
    assert [] + hdr == hdr;
    if |hdr| == n { EndedHeaderCells(ops, dir, s.(f := Stamp(s.f, v[0].ts)), prefix, hdr, v[n..], dec); }
  }

  /** A header has just been completed. */
  lemma {:induction false} EndedHeaderCells(ops: Ops, dir: Dir, s: Framer, prefix: Option<seq<Byte>>, hdr: seq<Byte>,
                                            q: seq<Cell>, dec: bool)
    requires ops.Valid() && AtHeader(s.f, prefix)
    ensures var e := EndHeader(ops, dir, s, hdr, dec);
            var r := if e.cut then e else FeedCells(ops, dir, e.s, q, dec);
            var h := ops.parseHdr(s.ctx, dir, s.f.h, hdr);
            if h.None? then r.cut && r.s.out == s.out
            else BodyParsed(ops, dir, s.(f := s.f.(h := h.value)), prefix, q, dec, r)
    decreases |q|, 4
  {
    hide FeedCells, ParseWireBody, WireBodyAccepted, Emit, BlindCheck, MsgReset, Ops.Valid;
    match ops.parseHdr(s.ctx, dir, s.f.h, hdr)
    case None =>
    case Some(h) =>
      var s1 := s.(f := s.f.(h := h, hdr := hdr));
      if h.bodyLen == 0 {
        EmptyBodyCells(ops, dir, s1, prefix, q, dec);
      } else {
        AfterHeaderCells(ops, dir, s1.(f := s1.f.(st := BODY)), prefix, q, dec);
      }
  }

  /** What holds of a run `r` over a body of positions `q` in state `s`. */
  ghost predicate BodyParsed(ops: Ops, dir: Dir, s: Framer, prefix: Option<seq<Byte>>, q: seq<Cell>, dec: bool,
                             r: Stepped)
    requires ops.Valid()
  {
    && r.s.out == s.out + Log(dir, WireBodyAt(ops, dir, s, prefix, q, dec))
    && (Open(s.ctx, dec) ==> (Through(r, dec) <==> WireBodyAccepted(ops, dir, s.ctx, s.f.h, prefix, q, dec)))
  }

  lemma {:induction false} EmptyBodyCells(ops: Ops, dir: Dir, s: Framer, prefix: Option<seq<Byte>>, q: seq<Cell>,
                                          dec: bool)
    requires ops.Valid() && s.f.h.bodyLen == 0 && s.f.skipLeft == 0
    requires s.f.buf == if prefix.Some? then prefix.value else []
    ensures var c := BlindCheck(AfterMessage(ops, dir, s, s.f.buf), dec);
            BodyParsed(ops, dir, s, prefix, q, dec, if c.cut then c else FeedCells(ops, dir, c.s, q, dec))
    decreases |q|, 1
  {
    hide FeedCells;
    var t := AfterMessage(ops, dir, s, s.f.buf);
    assert q[0..] == q;
    MessageGoesOn(ops, dir, s, prefix, s.f.buf, q, dec);
    var on := dec || !t.ctx.Blind();
    if on {
      CellsAreParsed(ops, dir, t, None, q, dec);
      CellsGrow(ops, dir, t, q, dec);
    }
  }

  /** The parser on a body that ends its message. */
  lemma MessageGoesOn(ops: Ops, dir: Dir, s: Framer, prefix: Option<seq<Byte>>, kept: seq<Byte>, q: seq<Cell>,
                      dec: bool)
    requires ops.Valid() && Decided(s.f.h, prefix, q) && (s.f.h.bodyLen == 0 || !s.f.h.cont) &&
             kept == KeptFrom(s.f.h, prefix, q)
    ensures var t := AfterMessage(ops, dir, s, kept);
            var m := MessageOf(ops, dir, s, kept);
            var on := |q| >= s.f.h.bodyLen && (dec || !t.ctx.Blind());
            var tail := if on then WireAt(ops, dir, t, None, q[s.f.h.bodyLen..], dec) else [];
            && WireBodyAt(ops, dir, s, prefix, q, dec) == [m] + tail
            && s.out + Log(dir, [m] + tail) == t.out + Log(dir, tail)
            && (WireBodyAccepted(ops, dir, s.ctx, s.f.h, prefix, q, dec) <==>
                && Open(t.ctx, dec)
                && (|q| < s.f.h.bodyLen || WireAccepted(ops, dir, t.ctx, t.f.h, None, q[s.f.h.bodyLen..], dec)))
  {
    var t := AfterMessage(ops, dir, s, kept);
    var on := |q| >= s.f.h.bodyLen && (dec || !t.ctx.Blind());
    var tail := if on then WireAt(ops, dir, t, None, q[s.f.h.bodyLen..], dec) else [];
    LogCons(s.out, dir, MessageOf(ops, dir, s, kept), tail);
  }

  lemma {:induction false} AfterHeaderCells(ops: Ops, dir: Dir, s: Framer, prefix: Option<seq<Byte>>, q: seq<Cell>,
                                            dec: bool)
    requires ops.Valid() && s.f.st.BODY? && s.f.h.bodyLen > 0 && s.f.skipLeft == 0
    requires s.f.prefixClosed == prefix.Some? && s.f.buf == if prefix.Some? then prefix.value else []
    ensures BodyParsed(ops, dir, s, prefix, q, dec, FeedCells(ops, dir, s, q, dec))
    decreases |q|, 3
  {
    hide FeedCells, CloseBody, Leading, ParseWire, WireAccepted;
    var kept := KeptFrom(s.f.h, prefix, q);
    var used := if prefix.Some? then 0 else |kept|;
    if Decided(s.f.h, prefix, q) {
      if prefix.Some? {
        ClosedCells(ops, dir, s, q, dec);
        assert q[0..] == q;
      } else {
        BodyCells(ops, dir, s, q, dec);
        assert [] + kept == kept;
      }
      CloseCells(ops, dir, s, prefix, kept, used, q, FeedCells(ops, dir, s, q, dec), dec);
    } else if prefix.Some? {
      NoCells(ops, dir, s, dec);
    } else {
      BodyCells(ops, dir, s, q, dec);
    }
  }

  /** Behind the kept prefix. */
  lemma {:induction false} CloseCells(ops: Ops, dir: Dir, s: Framer, prefix: Option<seq<Byte>>, kept: seq<Byte>,
                                      used: nat, q: seq<Cell>, r: Stepped, dec: bool)
    requires ops.Valid() && s.f.h.bodyLen > 0 && s.f.skipLeft == 0 && Decided(s.f.h, prefix, q)
    requires kept == KeptFrom(s.f.h, prefix, q) && used == (if prefix.Some? then 0 else |kept|) <= |q| && q != []
    requires Closes(ops, dir, r, CloseBody(ops, dir, s, kept, s.f.h.bodyLen - used, dec), q[used..], dec)
    ensures BodyParsed(ops, dir, s, prefix, q, dec, r)
    decreases |q|, 2
  {
    hide FeedCells, Leading, ParseWire, WireAccepted;
    var skip := s.f.h.bodyLen - used;
    if |q| >= s.f.h.bodyLen { assert q[used..][skip..] == q[s.f.h.bodyLen..]; }
    if s.f.h.cont {
      var g := s.(f := s.f.(buf := kept, prefixClosed := true, hdr := []));
      SkipCells(ops, dir, g, skip, q[used..], dec);
      if |q| >= s.f.h.bodyLen {
        CellsAreParsed(ops, dir, g.(f := g.f.(st := HEADER)), Some(kept), q[s.f.h.bodyLen..], dec);
      }
    } else {
      MessageCells(ops, dir, s, prefix, kept, used, q, r, dec);
    }
  }

  lemma {:induction false} MessageCells(ops: Ops, dir: Dir, s: Framer, prefix: Option<seq<Byte>>, kept: seq<Byte>,
                                        used: nat, q: seq<Cell>, r: Stepped, dec: bool)
    requires ops.Valid() && s.f.h.bodyLen > 0 && s.f.skipLeft == 0 && !s.f.h.cont && Decided(s.f.h, prefix, q)
    requires kept == KeptFrom(s.f.h, prefix, q) && used == (if prefix.Some? then 0 else |kept|) <= |q| && q != []
    requires Closes(ops, dir, r, CloseBody(ops, dir, s, kept, s.f.h.bodyLen - used, dec), q[used..], dec)
    ensures BodyParsed(ops, dir, s, prefix, q, dec, r)
    decreases |q|, 1
  {
    hide FeedCells, Leading, ParseWire, WireAccepted, ParseWireBody, WireBodyAccepted, Decided, KeptFrom;
    var skip := s.f.h.bodyLen - used;
    var t := AfterMessage(ops, dir, s, kept);
    MessageGoesOn(ops, dir, s, prefix, kept, q, dec);
    SkipCells(ops, dir, t, skip, q[used..], dec);
    if |q| >= s.f.h.bodyLen && (dec || !t.ctx.Blind()) {
      assert q[used..][skip..] == q[s.f.h.bodyLen..];
      CellsAreParsed(ops, dir, t, None, q[s.f.h.bodyLen..], dec);
      CellsGrow(ops, dir, t, q[s.f.h.bodyLen..], dec);
    }
  }

  // ---- where the chunks and the holes begin and end -------------------------

  /** The positions an input covers. */
  function CellsOf(x: Primitive): seq<Cell>
  {
    match x
    case Bytes(p, ts) => Known(p, ts)
    case Missing(n) => Unknown(n)
    case _ => []
  }

  function AllCells(xs: seq<Primitive>): seq<Cell>
  {
    if xs == [] then [] else AllCells(xs[..|xs| - 1]) + CellsOf(xs[|xs| - 1])
  }

  lemma Regroup(a: seq<Cell>, b: seq<Cell>, c: seq<Cell>)
    ensures (a + b) + c == a + (b + c)
  {
  }

  lemma {:induction false} AllCellsConcat(xs: seq<Primitive>, ys: seq<Primitive>)
    ensures AllCells(xs + ys) == AllCells(xs) + AllCells(ys)
    decreases |ys|
  {
    hide CellsOf;
    if ys == [] {
      assert xs + ys == xs;
    } else {
      var init, y := ys[..|ys| - 1], ys[|ys| - 1];
      assert (xs + ys)[..|xs + ys| - 1] == xs + init;
      AllCellsConcat(xs, init);
      Regroup(AllCells(xs), AllCells(init), CellsOf(y));
    }
  }

  /** Equal but for the statistics. */
  predicate Twins(a: Framer, b: Framer) { b == a.(st := b.st) }

  lemma CloseBodyTwins(ops: Ops, dir: Dir, a: Framer, b: Framer, body: seq<Byte>, skip: nat, eb: bool)
    requires Twins(a, b)
    ensures var c, d := CloseBody(ops, dir, a, body, skip, eb), CloseBody(ops, dir, b, body, skip, eb);
            c.cut == d.cut && Twins(c.s, d.s)
  {
  }

  lemma EndHeaderTwins(ops: Ops, dir: Dir, a: Framer, b: Framer, hdr: seq<Byte>, eb: bool)
    requires Twins(a, b)
    ensures var c, d := EndHeader(ops, dir, a, hdr, eb), EndHeader(ops, dir, b, hdr, eb);
            c.cut == d.cut && Twins(c.s, d.s)
  {
  }

  lemma StepHeaderTwins(ops: Ops, dir: Dir, a: Framer, b: Framer, z: Byte, ts: nat, eb: bool)
    requires Twins(a, b)
    ensures var c, d := StepHeader(ops, dir, a, z, ts, eb), StepHeader(ops, dir, b, z, ts, eb);
            c.cut == d.cut && Twins(c.s, d.s)
  {
    hide EndHeader;
    EndHeaderTwins(ops, dir, a.(f := Stamp(a.f, ts)), b.(f := Stamp(b.f, ts)), a.f.hdr + [z], eb);
  }

  lemma StepTwins(ops: Ops, dir: Dir, a: Framer, b: Framer, z: Byte, ts: nat, eb: bool)
    requires Twins(a, b)
    ensures var c, d := Step(ops, dir, a, z, ts, eb), Step(ops, dir, b, z, ts, eb);
            c.cut == d.cut && Twins(c.s, d.s)
  {
    hide CloseBody, StepHeader;
    match a.f.st
    case HEADER => StepHeaderTwins(ops, dir, a, b, z, ts, eb);
    case SKIP =>
    case DIRTY =>
    case BODY =>
      CloseBodyTwins(ops, dir, a, b, a.f.buf, a.f.h.bodyLen, eb);
      var body := a.f.buf + [z];
      CloseBodyTwins(ops, dir, a, b, body, if |body| < a.f.h.bodyLen then a.f.h.bodyLen - |body| else 0, eb);
  }

  lemma {:induction false} FeedTwins(ops: Ops, dir: Dir, a: Framer, b: Framer, p: seq<Byte>, ts: nat, eb: bool)
    requires Twins(a, b)
    ensures var c, d := FeedFrom(ops, dir, a, p, ts, eb), FeedFrom(ops, dir, b, p, ts, eb);
            c.cut == d.cut && Twins(c.s, d.s)
    decreases |p|
  {
    hide Step;
    if p != [] {
      StepTwins(ops, dir, a, b, p[0], ts, eb);
      var c, d := Step(ops, dir, a, p[0], ts, eb), Step(ops, dir, b, p[0], ts, eb);
      if !c.cut { FeedTwins(ops, dir, c.s, d.s, p[1..], ts, eb); }
    }
  }

  lemma HoleTurnTwins(ops: Ops, dir: Dir, a: Framer, b: Framer, n: nat, eb: bool)
    requires Twins(a, b)
    ensures var c, d := HoleTurn(ops, dir, a, n, eb), HoleTurn(ops, dir, b, n, eb);
            c.take == d.take && c.stop == d.stop && Twins(c.s, d.s)
  {
    hide CloseBody;
    var rem := ToBodyEnd(a.f);
    CloseBodyTwins(ops, dir, a, b, a.f.buf, rem - Min(rem, n), eb);
  }

  lemma {:induction false} HoleFromTwins(ops: Ops, dir: Dir, a: Framer, b: Framer, n: nat, eb: bool)
    requires Twins(a, b)
    ensures Twins(HoleFrom(ops, dir, a, n, eb), HoleFrom(ops, dir, b, n, eb))
    decreases n
  {
    hide HoleTurn;
    if n > 0 {
      HoleTurnTwins(ops, dir, a, b, n, eb);
      var c, d := HoleTurn(ops, dir, a, n, eb), HoleTurn(ops, dir, b, n, eb);
      if !(c.stop || c.take == 0 || c.take > n) { HoleFromTwins(ops, dir, c.s, d.s, n - c.take, eb); }
    }
  }

  lemma DoTwins(ops: Ops, dir: Dir, a: Framer, b: Framer, x: Primitive)
    requires Twins(a, b)
    ensures Twins(Do(ops, dir, a, x), Do(ops, dir, b, x))
  {
    hide FeedFrom, HoleFrom;
    match x
    case Bytes(p, ts) => FeedTwins(ops, dir, a, b, p, ts, a.ctx.Blind());
    case Missing(n) =>
      HoleFromTwins(ops, dir, a.(st := a.st.(holes := a.st.holes + 1, holeBytes := a.st.holeBytes + n)),
                    b.(st := b.st.(holes := b.st.holes + 1, holeBytes := b.st.holeBytes + n)), n, a.ctx.Blind());
    case Hint(off, p) =>
    case Odd =>
  }

  /** A chunk is its positions. */
  lemma {:induction false} BytesAreCells(ops: Ops, dir: Dir, s: Framer, p: seq<Byte>, ts: nat, eb: bool)
    ensures FeedFrom(ops, dir, s, p, ts, eb) == FeedCells(ops, dir, s, Known(p, ts), eb)
    decreases |p|
  {
    hide Step;
    if p != [] {
      assert Known(p, ts)[0] == Seen(p[0], ts) && Known(p, ts)[1..] == Known(p[1..], ts);
      var r := Step(ops, dir, s, p[0], ts, eb);
      if !r.cut { BytesAreCells(ops, dir, r.s, p[1..], ts, eb); }
    }
  }

  lemma UnknownSplit(a: nat, b: nat)
    ensures Unknown(a + b) == Unknown(a) + Unknown(b)
  {
  }

  /** Lost positions that are skipped. */
  lemma LostSkips(ops: Ops, dir: Dir, s: Framer, n: nat, eb: bool)
    requires s.f.st.SKIP? && 0 < n <= s.f.skipLeft
    ensures FeedCells(ops, dir, s, Unknown(n), eb) ==
            Stepped(s.(f := s.f.(skipLeft := s.f.skipLeft - n, st := if n == s.f.skipLeft then HEADER else SKIP)),
                    false)
    decreases n
  {
    assert Unknown(n)[0] == Lost && Unknown(n)[1..] == Unknown(n - 1);
    var t := s.(f := s.f.(skipLeft := s.f.skipLeft - 1, st := if s.f.skipLeft == 1 then HEADER else SKIP));
    assert StepCell(ops, dir, s, Lost, eb) == Stepped(t, false);
    if n > 1 { LostSkips(ops, dir, t, n - 1, eb); }
  }

  /** One turn over a hole is that many lost positions. */
  lemma TurnIsCells(ops: Ops, dir: Dir, s: Framer, n: nat, eb: bool)
    requires Ok(ops, dir, s) && (s.f.st.BODY? || s.f.st.SKIP?) && n > 0
    requires !FeedCells(ops, dir, s, Unknown(n), eb).cut
    ensures var t := HoleTurn(ops, dir, s, n, eb);
            0 < t.take <= n && !t.stop && FeedCells(ops, dir, s, Unknown(t.take), eb) == Stepped(t.s, false)
  {
    hide CloseBody, FeedCells;
    var rem := ToBodyEnd(s.f);
    var take := Min(rem, n);
    UnknownSplit(take, n - take);
    CellsConcat(ops, dir, s, Unknown(take), Unknown(n - take), eb);
    if s.f.st.SKIP? {
      LostSkips(ops, dir, s, take, eb);
    } else {
      LostCloses(ops, dir, s, Unknown(take), rem, eb);
      var c := CloseBody(ops, dir, s, s.f.buf, rem, eb);
      ClosesMore(ops, dir, s, s.f.buf, rem, take, eb);
      LostSkips(ops, dir, c.s, take, eb);
    }
  }

  /** A hole is its lost positions, as long as no header is among them. */
  lemma {:induction false} HoleIsCells(ops: Ops, dir: Dir, s: Framer, n: nat, eb: bool)
    requires ops.Valid() && Ok(ops, dir, s) && !s.f.st.DIRTY? && !FeedCells(ops, dir, s, Unknown(n), eb).cut
    ensures HoleFrom(ops, dir, s, n, eb) == FeedCells(ops, dir, s, Unknown(n), eb).s
    decreases n
  {
    hide FeedCells, HoleTurn, FrameOk, Ops.Valid;
    if n == 0 {
      assert Unknown(0) == [];
      NoCells(ops, dir, s, eb);
    } else if s.f.st.HEADER? {
      LostHeader(ops, dir, s, n, eb);
      assert false;
    } else {
      TurnIsCells(ops, dir, s, n, eb);
      HoleTurnKeeps(ops, dir, s, n, eb);
      var t := HoleTurn(ops, dir, s, n, eb);
      TurnNotDirty(ops, dir, s, n, eb);
      UnknownSplit(t.take, n - t.take);
      CellsConcat(ops, dir, s, Unknown(t.take), Unknown(n - t.take), eb);
      HoleIsCells(ops, dir, t.s, n - t.take, eb);
    }
  }

  lemma LostHeader(ops: Ops, dir: Dir, s: Framer, n: nat, eb: bool)
    requires s.f.st.HEADER? && n > 0
    ensures FeedCells(ops, dir, s, Unknown(n), eb).cut
  {
    assert Unknown(n)[0] == Lost;
  }

  lemma TurnNotDirty(ops: Ops, dir: Dir, s: Framer, n: nat, eb: bool)
    requires s.f.st.BODY? || s.f.st.SKIP?
    ensures !HoleTurn(ops, dir, s, n, eb).s.f.st.DIRTY?
  {
  }

  lemma StepCellStays(ops: Ops, dir: Dir, s: Framer, c: Cell, eb: bool)
    requires ops.Valid() && Ok(ops, dir, s)
    ensures var r := StepCell(ops, dir, s, c, eb);
            && Extends(ops, dir, s, r.s)
            && (!r.cut && !s.f.st.DIRTY? ==> !r.s.f.st.DIRTY?)
            && (!r.cut && !eb && !s.ctx.Blind() ==> !r.s.ctx.Blind())
  {
    hide FrameOk, CloseBody, StepHeader;
    match c
    case Seen(b, ts) =>
      StepKeeps(ops, dir, s, b, ts, eb);
      StepNotDirty(ops, dir, s, b, ts, eb);
    case Lost =>
      if s.f.st.DIRTY? {
        MatchedKeeps(ops, dir, s);
      } else {
        HoleTurnKeeps(ops, dir, s, 1, eb);
        if s.f.st.BODY? {
          TurnNotDirty(ops, dir, s, 1, eb);
          CloseBodyBlind(ops, dir, s, s.f.buf, ToBodyEnd(s.f) - Min(ToBodyEnd(s.f), 1), eb);
        }
      }
  }

  lemma MatchedKeeps(ops: Ops, dir: Dir, s: Framer)
    requires Ok(ops, dir, s) && s.f.st.DIRTY?
    ensures Extends(ops, dir, s, s.(f := s.f.(matched := 0)))
  {
  }

  lemma CloseBodyBlind(ops: Ops, dir: Dir, s: Framer, body: seq<Byte>, skip: nat, eb: bool)
    ensures var c := CloseBody(ops, dir, s, body, skip, eb);
            !c.cut && !eb && !s.ctx.Blind() ==> !c.s.ctx.Blind()
  {
  }

  lemma StepNotDirty(ops: Ops, dir: Dir, s: Framer, b: Byte, ts: nat, eb: bool)
    ensures var r := Step(ops, dir, s, b, ts, eb);
            !r.cut && !s.f.st.DIRTY? ==> !r.s.f.st.DIRTY?
  {
  }

  /** A run that is not cut stays in order, in sync, and as blind as it was. */
  lemma {:induction false} CellsStay(ops: Ops, dir: Dir, s: Framer, v: seq<Cell>, eb: bool)
    requires ops.Valid() && Ok(ops, dir, s) && !s.f.st.DIRTY? && eb == s.ctx.Blind() &&
             !FeedCells(ops, dir, s, v, eb).cut
    ensures var r := FeedCells(ops, dir, s, v, eb).s;
            Ok(ops, dir, r) && !r.f.st.DIRTY? && r.ctx.Blind() == eb && Extends(ops, dir, s, r)
    decreases |v|
  {
    hide StepCell, FrameOk, Ops.Valid;
    if v != [] {
      StepCellStays(ops, dir, s, v[0], eb);
      var r := StepCell(ops, dir, s, v[0], eb);
      CellsStay(ops, dir, r.s, v[1..], eb);
      ExtendsTransitive(ops, dir, s, r.s, FeedCells(ops, dir, r.s, v[1..], eb).s);
    }
  }

  lemma DoIsCells(ops: Ops, dir: Dir, s: Framer, x: Primitive, eb: bool)
    requires ops.Valid() && Ok(ops, dir, s) && !s.f.st.DIRTY? && eb == s.ctx.Blind() && x != Odd
    requires !FeedCells(ops, dir, s, CellsOf(x), eb).cut
    ensures Twins(Do(ops, dir, s, x), FeedCells(ops, dir, s, CellsOf(x), eb).s)
  {
    hide FeedFrom, HoleFrom, FeedCells, FrameOk, Ops.Valid;
    match x
    case Bytes(p, ts) => BytesAreCells(ops, dir, s, p, ts, eb);
    case Missing(n) =>
      HoleIsCells(ops, dir, s, n, eb);
      HoleFromTwins(ops, dir, s, s.(st := s.st.(holes := s.st.holes + 1, holeBytes := s.st.holeBytes + n)), n, eb);
      if n == 0 {
        assert Unknown(0) == [];
        NoCells(ops, dir, s, eb);
      }
    case Hint(off, p) => NoCells(ops, dir, s, eb);
  }

  /** Whatever inputs cover the same positions lead to the same state, as long as the
      positions are framed to their end. */
  lemma {:induction false} PlayIsCells(ops: Ops, dir: Dir, s: Framer, xs: seq<Primitive>, eb: bool)
    requires ops.Valid() && Ok(ops, dir, s) && !s.f.st.DIRTY? && eb == s.ctx.Blind() && Odd !in xs
    requires !FeedCells(ops, dir, s, AllCells(xs), eb).cut
    ensures Twins(Play(ops, dir, s, xs), FeedCells(ops, dir, s, AllCells(xs), eb).s)
    decreases |xs|
  {
    hide Do, FeedCells, FrameOk, Ops.Valid;
    if xs == [] {
      NoCells(ops, dir, s, eb);
    } else {
      var init, x := xs[..|xs| - 1], xs[|xs| - 1];
      CellsConcat(ops, dir, s, AllCells(init), CellsOf(x), eb);
      PlayIsCells(ops, dir, s, init, eb);
      var t := FeedCells(ops, dir, s, AllCells(init), eb).s;
      CellsStay(ops, dir, s, AllCells(init), eb);
      DoIsCells(ops, dir, t, x, eb);
      DoTwins(ops, dir, Play(ops, dir, s, init), t, x);
    }
  }

  /** From a header on, the positions alone decide the log: it is what the recursive parser
      finds. */
  lemma ParsedFrom(ops: Ops, dir: Dir, s: Framer, xs: seq<Primitive>, dec: bool)
    requires ops.Valid() && Ok(ops, dir, s) && AtHeader(s.f, None) && Odd !in xs && Open(s.ctx, dec) &&
             (dec ==> s.ctx.tls)
    requires WireAccepted(ops, dir, s.ctx, s.f.h, None, AllCells(xs), dec)
    ensures Play(ops, dir, s, xs).out == s.out + Log(dir, WireAt(ops, dir, s, None, AllCells(xs), dec))
    ensures Open(Play(ops, dir, s, xs).ctx, dec)
  {
    CellsAreParsed(ops, dir, s, None, AllCells(xs), dec);
    PlayIsCells(ops, dir, s, xs, dec);
  }

  lemma InputsAreParsed(ops: Ops, dir: Dir, ctx: Ctx, st: Stats, xs: seq<Primitive>, dec: bool)
    requires ops.Valid() && Odd !in xs && Open(ctx, dec) && (dec ==> ctx.tls)
    requires WireAccepted(ops, dir, ctx, NO_HEADER, None, AllCells(xs), dec)
    ensures Play(ops, dir, Framer(ctx, ZERO_FRAME, [], st), xs).out
            == Log(dir, ParseWire(ops, dir, ctx, NO_HEADER, None, 0, false, AllCells(xs), dec))
    ensures Open(Play(ops, dir, Framer(ctx, ZERO_FRAME, [], st), xs).ctx, dec)
  {
    hide Play, ParseWire, WireAccepted, AllCells;
    ParsedFrom(ops, dir, Framer(ctx, ZERO_FRAME, [], st), xs, dec);
  }

  /** What is accepted is accepted as far as it has come. */
  lemma AcceptedPrefix(ops: Ops, dir: Dir, ctx: Ctx, u: seq<Cell>, v: seq<Cell>, dec: bool)
    requires ops.Valid() && Open(ctx, dec) && u <= v && WireAccepted(ops, dir, ctx, NO_HEADER, None, v, dec)
    ensures WireAccepted(ops, dir, ctx, NO_HEADER, None, u, dec)
  {
    hide WireAccepted, FeedCells, ParseWire, Ops.Valid;
    var s := Framer(ctx, ZERO_FRAME, [], ZERO_STATS);
    CellsAreParsed(ops, dir, s, None, u, dec);
    CellsAreParsed(ops, dir, s, None, v, dec);
    assert v == u + v[|u|..];
    CellsConcat(ops, dir, s, u, v[|u|..], dec);
    CellsGrow(ops, dir, FeedCells(ops, dir, s, u, dec).s, v[|u|..], dec);
  }

  lemma LogInjective(dir: Dir, x: seq<Message>, y: seq<Message>)
    requires Log(dir, x) == Log(dir, y)
    ensures x == y
  {
    assert |x| == |Log(dir, x)| == |y|;
    assert forall i :: 0 <= i < |x| ==> Log(dir, x)[i] == Emitted(dir, x[i]) && Log(dir, y)[i] == Emitted(dir, y[i]);
  }

  /** Where nothing is lost, it is the parser of the bytes. */
  lemma NothingLost(ops: Ops, dir: Dir, ctx: Ctx, p: seq<Byte>, now: nat, dec: bool)
    requires ops.Valid()
    ensures ParseWire(ops, dir, ctx, NO_HEADER, None, 0, false, Known(p, now), dec)
            == Parse(ops, dir, ctx, NO_HEADER, None, 0, false, p, now, dec)
  {
    hide ParseWire, Parse, FeedFrom, FeedCells;
    var s := Framer(ctx, ZERO_FRAME, [], ZERO_STATS);
    CellsAreParsed(ops, dir, s, None, Known(p, now), dec);
    BytesAreCells(ops, dir, s, p, now, dec);
    FeedIsParse(ops, dir, s, None, p, now, dec);
    assert forall x: seq<Message> :: [] + Log(dir, x) == Log(dir, x);
    LogInjective(dir, ParseWire(ops, dir, ctx, NO_HEADER, None, 0, false, Known(p, now), dec),
                 Parse(ops, dir, ctx, NO_HEADER, None, 0, false, p, now, dec));
  }
}
