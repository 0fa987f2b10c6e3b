/**
 Streams as their sender writes them: messages of one or more fragments, each a header and
 its whole body. What the framer makes of them is stated without the framer's own functions:
 one message each, of which the first 16 KiB of the first fragment are kept.
 */
module WrittenTheorems {
  import opened Framing
  import opened FramingTheorems
  import opened Options

  datatype Fragment = Fragment(hdr: seq<Byte>, body: seq<Byte>)

  function BytesOf(fs: seq<Fragment>): seq<Byte>
  {
    if fs == [] then [] else fs[0].hdr + (fs[0].body + BytesOf(fs[1..]))
  }

  /** The header is read as `h1`, and the body is as long as it says. */
  predicate Headed(ops: Ops, dir: Dir, ctx: Ctx, h: Header, f: Fragment, h1: Header)
  {
    |f.hdr| == ops.hdrSize(ctx.p, dir) && ops.parseHdr(ctx, dir, h, f.hdr) == Some(h1) && |f.body| == h1.bodyLen
  }

  /** More fragments follow exactly where the header says so; the header that ends the
      message, or none if the fragments are not a message. */
  function Ending(ops: Ops, dir: Dir, ctx: Ctx, h: Header, fs: seq<Fragment>): (last: Option<Header>)
    ensures last.Some? ==> fs != []
    decreases |fs|
  {
    if fs == [] then None
    else
      match ops.parseHdr(ctx, dir, h, fs[0].hdr)
      case None => None
      case Some(h1) =>
        if !Headed(ops, dir, ctx, h, fs[0], h1) then None
        else if h1.cont && fs[0].body != [] then Ending(ops, dir, ctx, h1, fs[1..])
        else if |fs| == 1 then Some(h1)
        else None
  }

  /** What is kept of a body. */
  function First16K(body: seq<Byte>): seq<Byte> { if |body| < 16384 then body else body[..16384] }

  /** The message that fragments with last header `last` stand for. */
  function Told(ops: Ops, dir: Dir, ctx: Ctx, last: Header, fs: seq<Fragment>, ts: nat, after: bool): Message
    requires fs != []
  {
    var body := First16K(fs[0].body);
    var pre := ops.preEmit(ctx, dir, last, body);
    Message(ts, pre.typ, pre.flags, after, |body| < last.bodyTotal, last.len, body)
  }

  /** The messages of a stream of written messages, or none if one of them is not written
      as its headers say or switches framing off. */
  function AllTold(ops: Ops, dir: Dir, ctx: Ctx, h: Header, after: bool, ms: seq<seq<Fragment>>, ts: nat,
                   eb: bool): Option<seq<Message>>
    decreases |ms|
  {
    if ms == [] then Some([])
    else
      match Ending(ops, dir, ctx, h, ms[0])
      case None => None
      case Some(last) =>
        var next := ops.preEmit(ctx, dir, last, First16K(ms[0][0].body)).ctx;
        if !eb && next.Blind() then None
        else
          match AllTold(ops, dir, next, last.(bodyLen := 0, cont := false), false, ms[1..], ts, eb)
          case None => None
          case Some(tail) => Some([Told(ops, dir, ctx, last, ms[0], ts, after)] + tail)
  }

  function AllBytes(ms: seq<seq<Fragment>>): seq<Byte>
  {
    if ms == [] then [] else BytesOf(ms[0]) + AllBytes(ms[1..])
  }

  // ---- the parser on written messages ---------------------------------------

  /** A header and what follows it. */
  lemma Behind(fs: seq<Fragment>, rest: seq<Byte>)
    requires fs != []
    ensures var p, n := BytesOf(fs) + rest, |fs[0].hdr|;
            && |p| >= n && p[..n] == fs[0].hdr
            && p[n..] == fs[0].body + (BytesOf(fs[1..]) + rest)
            && p[n..][..|fs[0].body|] == fs[0].body && p[n..][|fs[0].body|..] == BytesOf(fs[1..]) + rest
  {
    hide BytesOf;
    BytesFront(fs);
    Cut(fs[0].hdr, fs[0].body, BytesOf(fs[1..]), rest);
  }

  lemma BytesFront(fs: seq<Fragment>)
    requires fs != []
    ensures BytesOf(fs) == fs[0].hdr + (fs[0].body + BytesOf(fs[1..]))
  {
  }

  lemma Cut(a: seq<Byte>, b: seq<Byte>, c: seq<Byte>, d: seq<Byte>)
    ensures var p := (a + (b + c)) + d;
            p[..|a|] == a && p[|a|..] == b + (c + d) && p[|a|..][..|b|] == b && p[|a|..][|b|..] == c + d
  {
    assert (a + (b + c)) + d == a + (b + (c + d));
  }

  lemma NoBytes(rest: seq<Byte>)
    ensures BytesOf([]) + rest == rest
  {
  }

  /** What the parser finds behind a message with body `kept` and last header `last`. */
  function Rest(ops: Ops, dir: Dir, ctx: Ctx, last: Header, kept: seq<Byte>, ts: nat, rest: seq<Byte>, now: nat,
                eb: bool): seq<Message>
    requires ops.Valid()
  {
    var next := ops.preEmit(ctx, dir, last, kept).ctx;
    if !eb && next.Blind() then []
    else Parse(ops, dir, next, last.(bodyLen := 0, cont := false), None, ts, false, rest, now, eb)
  }

  predicate RestAccepted(ops: Ops, dir: Dir, ctx: Ctx, last: Header, kept: seq<Byte>, rest: seq<Byte>, eb: bool)
    requires ops.Valid()
  {
    var next := ops.preEmit(ctx, dir, last, kept).ctx;
    (eb || !next.Blind()) && Accepted(ops, dir, next, last.(bodyLen := 0, cont := false), None, rest, eb)
  }

  /** The fragments behind the first add nothing to the body and end the message. */
  lemma {:induction false} LaterFragments(ops: Ops, dir: Dir, ctx: Ctx, h: Header, fs: seq<Fragment>, last: Header,
                                          kept: seq<Byte>, ts: nat, after: bool, rest: seq<Byte>, now: nat, eb: bool)
    requires ops.Valid() && Ending(ops, dir, ctx, h, fs) == Some(last)
    ensures var p, pre := BytesOf(fs) + rest, ops.preEmit(ctx, dir, last, kept);
            var m := Message(ts, pre.typ, pre.flags, after, |kept| < last.bodyTotal, last.len, kept);
            && Parse(ops, dir, ctx, h, Some(kept), ts, after, p, now, eb)
               == [m] + Rest(ops, dir, ctx, last, kept, ts, rest, now, eb)
            && Accepted(ops, dir, ctx, h, Some(kept), p, eb) == RestAccepted(ops, dir, ctx, last, kept, rest, eb)
    decreases |fs|
  {
    hide Ops.Valid;
    Behind(fs, rest);
    var h1 := ops.parseHdr(ctx, dir, h, fs[0].hdr).value;
    if h1.cont && fs[0].body != [] {
      LaterFragments(ops, dir, ctx, h1, fs[1..], last, kept, ts, after, rest, now, eb);
    } else {
      assert fs[1..] == [];
      NoBytes(rest);
    }
  }

  /** A written message is parsed to the message it stands for. */
  lemma OneIsParsed(ops: Ops, dir: Dir, ctx: Ctx, h: Header, fs: seq<Fragment>, last: Header, ts: nat, after: bool,
                    rest: seq<Byte>, now: nat, eb: bool)
    requires ops.Valid() && Ending(ops, dir, ctx, h, fs) == Some(last)
    ensures var p, kept := BytesOf(fs) + rest, First16K(fs[0].body);
            && Parse(ops, dir, ctx, h, None, ts, after, p, now, eb)
               == [Told(ops, dir, ctx, last, fs, now, after)] + Rest(ops, dir, ctx, last, kept, now, rest, now, eb)
            && Accepted(ops, dir, ctx, h, None, p, eb) == RestAccepted(ops, dir, ctx, last, kept, rest, eb)
  {
    hide Ops.Valid;
    Behind(fs, rest);
    var h1 := ops.parseHdr(ctx, dir, h, fs[0].hdr).value;
    var q, kept := fs[0].body + (BytesOf(fs[1..]) + rest), First16K(fs[0].body);
    assert q[..|kept|] == kept;
    if h1.cont && fs[0].body != [] {
      LaterFragments(ops, dir, ctx, h1, fs[1..], last, kept, now, after, rest, now, eb);
    } else {
      assert fs[1..] == [];
      NoBytes(rest);
    }
  }

  /** A stream of written messages is parsed to exactly those messages, to its end. */
  lemma {:induction false} AllAreParsed(ops: Ops, dir: Dir, ctx: Ctx, h: Header, ts: nat, after: bool,
                                        ms: seq<seq<Fragment>>, now: nat, eb: bool)
    requires ops.Valid() && AllTold(ops, dir, ctx, h, after, ms, now, eb).Some?
    ensures Parse(ops, dir, ctx, h, None, ts, after, AllBytes(ms), now, eb)
            == AllTold(ops, dir, ctx, h, after, ms, now, eb).value
    ensures Accepted(ops, dir, ctx, h, None, AllBytes(ms), eb)
    decreases |ms|
  {
    hide Parse, Accepted, Ops.Valid, Ending, Told, First16K;
    if ms == [] {
      NothingParsed(ops, dir, ctx, h, ts, after, now, eb);
    } else {
      var last := Ending(ops, dir, ctx, h, ms[0]).value;
      var next := ops.preEmit(ctx, dir, last, First16K(ms[0][0].body)).ctx;
      OneIsParsed(ops, dir, ctx, h, ms[0], last, ts, after, AllBytes(ms[1..]), now, eb);
      AllAreParsed(ops, dir, next, last.(bodyLen := 0, cont := false), now, false, ms[1..], now, eb);
    }
  }

  lemma NothingParsed(ops: Ops, dir: Dir, ctx: Ctx, h: Header, ts: nat, after: bool, now: nat, eb: bool)
    requires ops.Valid()
    ensures Parse(ops, dir, ctx, h, None, ts, after, [], now, eb) == [] && Accepted(ops, dir, ctx, h, None, [], eb)
  {
  }

  // ---- the framer on written messages ---------------------------------------

  /** The round trip: whatever messages a sender writes, in however many fragments, and
      however the stream is cut into chunks, the framer emits exactly these messages, each
      with the first 16384 bytes of its first fragment. */
  lemma WrittenIsEmitted(ops: Ops, dir: Dir, ctx: Ctx, st: Stats, ms: seq<seq<Fragment>>, chunks: seq<seq<Byte>>,
                         now: nat)
    requires ops.Valid() && Flat(chunks) == AllBytes(ms)
    requires AllTold(ops, dir, ctx, NO_HEADER, false, ms, now, ctx.Blind()).Some?
    ensures FeedChunks(ops, dir, Framer(ctx, ZERO_FRAME, [], st), chunks, now).0.out
            == Log(dir, AllTold(ops, dir, ctx, NO_HEADER, false, ms, now, ctx.Blind()).value)
  {
    hide Parse, Accepted, AllTold, FeedChunks;
    AllAreParsed(ops, dir, ctx, NO_HEADER, 0, false, ms, now, ctx.Blind());
    StreamingRefinesParsing(ops, dir, ctx, st, chunks, now);
  }

  /** The next message of any stream, from any header on: what is kept of it, and when it is
      marked as truncated. */
  lemma NextMessage(ops: Ops, dir: Dir, s: Framer, fs: seq<Fragment>, last: Header, rest: seq<Byte>, now: nat)
    requires ops.Valid() && AtHeader(s.f, None) && Ending(ops, dir, s.ctx, s.f.h, fs) == Some(last)
    ensures var n, r := |fs[0].body|, Feed(ops, dir, s, BytesOf(fs) + rest, now).s;
            && s.out < r.out && r.out[|s.out|].Emitted? && r.out[|s.out|].dir == dir
            && var m := r.out[|s.out|].msg;
               && |m.body| == (if n < 16384 then n else 16384) && m.body == fs[0].body[..|m.body|]
               && (last.bodyTotal == n ==> (m.trunc <==> n > 16384))
               && m.len == last.len && m.ts == now && m.afterResync == s.f.afterResync
  {
    hide FeedFrom, Parse, Ops.Valid, Ending, BytesOf;
    OneIsParsed(ops, dir, s.ctx, s.f.h, fs, last, s.f.msgTs, s.f.afterResync, rest, now, s.ctx.Blind());
    FeedIsParse(ops, dir, s, None, BytesOf(fs) + rest, now, s.ctx.Blind());
  }
}
