/**
 What the framer emits after it lost its place: nothing up to an anchor or a boundary
 hint, a resynchronisation, and from there on the messages of the wire behind it.
 */
module ResyncTheorems {
  import opened ChunkLayer
  import opened Framing
  import opened FramingTheorems
  import opened Options
  import opened Wire

  /** The scan of some bytes for the anchor: where it ends, or how much of it has matched. */
  datatype Scanned = Anchored(at: nat) | Partial(matched: nat)

  function ScanFor(ops: Ops, dir: Dir, ctx: Ctx, matched: nat, p: seq<Byte>): (r: Scanned)
    ensures r.Anchored? ==> 0 < r.at <= |p|
    decreases |p|
  {
    if p == [] then Partial(matched)
    else
      var (m, found) := ops.scan(ctx, dir, matched, p[0]);
      if found then Anchored(1)
      else
        match ScanFor(ops, dir, ctx, m, p[1..])
        case Anchored(at) => Anchored(1 + at)
        case Partial(m') => Partial(m')
  }

  /** The positions behind the first anchor or boundary hint, if there is one. A hole breaks
      a partial match. */
  function Behind(ops: Ops, dir: Dir, ctx: Ctx, matched: nat, xs: seq<Primitive>): Option<seq<Cell>>
    decreases |xs|
  {
    if xs == [] then None
    else
      match xs[0]
      case Missing(n) => Behind(ops, dir, ctx, if n == 0 then matched else 0, xs[1..])
      case Hint(off, p) =>
        if ops.boundary(ctx, dir, off, p) then Some(AllCells(xs[1..])) else Behind(ops, dir, ctx, matched, xs[1..])
      case Odd => None
      case Bytes(p, ts) =>
        match ScanFor(ops, dir, ctx, matched, p)
        case Anchored(at) => Some(Known(p[at..], ts) + AllCells(xs[1..]))
        case Partial(m) => Behind(ops, dir, ctx, m, xs[1..])
  }

  /** A chunk that meets a dirty direction: only the scan moves, or framing starts behind the
      anchor. */
  lemma {:induction false} DirtyChunk(ops: Ops, dir: Dir, s: Framer, p: seq<Byte>, ts: nat, eb: bool)
    requires s.f.st.DIRTY?
    ensures var r := FeedFrom(ops, dir, s, p, ts, eb);
            match ScanFor(ops, dir, s.ctx, s.f.matched, p)
            case Anchored(at) => r == FeedFrom(ops, dir, DoResync(ops, dir, s), p[at..], ts, eb)
            case Partial(m) => r == Stepped(s.(f := s.f.(matched := m)), false)
    decreases |p|
  {
    if p != [] {
      var (m, found) := ops.scan(s.ctx, dir, s.f.matched, p[0]);
      var t := s.(f := s.f.(matched := m));
      assert DoResync(ops, dir, t) == DoResync(ops, dir, s);
      if !found {
        DirtyChunk(ops, dir, t, p[1..], ts, eb);
        var r := ScanFor(ops, dir, s.ctx, m, p[1..]);
        if r.Anchored? { assert p[1..][r.at..] == p[1 + r.at..]; }
      }
    }
  }

  lemma PlayFront(ops: Ops, dir: Dir, s: Framer, xs: seq<Primitive>)
    requires xs != []
    ensures Play(ops, dir, s, xs) == Play(ops, dir, Do(ops, dir, s, xs[0]), xs[1..])
  {
    hide Do;
    assert xs == [xs[0]] + xs[1..] && [xs[0]][..0] == [];
    assert Play(ops, dir, s, []) == s;
    assert Play(ops, dir, s, [xs[0]]) == Do(ops, dir, s, xs[0]);
    PlayConcat(ops, dir, s, [xs[0]], xs[1..]);
  }

  lemma ChunkCells(p: seq<Byte>, ts: nat, xs: seq<Primitive>)
    ensures AllCells([Bytes(p, ts)] + xs) == Known(p, ts) + AllCells(xs)
  {
    var one := [Bytes(p, ts)];
    assert one[..0] == [] && AllCells([]) == [];
    assert AllCells(one) == [] + Known(p, ts);
    AllCellsConcat(one, xs);
  }

  /** The connection and the header a resynchronisation leaves. */
  function Again(ops: Ops, dir: Dir, ctx: Ctx): Ctx { ctx.(p := ops.resynced(ctx.p, dir)) }

  function Cleared(h: Header): Header { h.(bodyLen := 0, cont := false) }

  /** What a direction that lost its place has emitted after some inputs. */
  ghost predicate FoundAgain(ops: Ops, dir: Dir, s: Framer, r: Framer, behind: Option<seq<Cell>>, dec: bool)
    requires ops.Valid()
  {
    match behind
    case None => r.f.st.DIRTY? && r.out == s.out && r.ctx == s.ctx
    case Some(v) =>
      var ctx, h := Again(ops, dir, s.ctx), Cleared(s.f.h);
      WireAccepted(ops, dir, ctx, h, None, v, dec) ==>
        r.out == s.out + [Resynced(dir)] + Log(dir, ParseWire(ops, dir, ctx, h, None, s.f.msgTs, true, v, dec))
  }

  /** Where framing starts again, the rest is parsed. */
  lemma StartsAgain(ops: Ops, dir: Dir, s: Framer, ys: seq<Primitive>, dec: bool)
    requires ops.Valid() && s.f.st.DIRTY? && Ok(ops, dir, s) && Odd !in ys && Open(s.ctx, dec) && (dec ==> s.ctx.tls)
    ensures FoundAgain(ops, dir, s, Play(ops, dir, DoResync(ops, dir, s), ys), Some(AllCells(ys)), dec)
  {
    hide Play, ParseWire, WireAccepted, AllCells;
    var t := DoResync(ops, dir, s);
    if WireAccepted(ops, dir, t.ctx, t.f.h, None, AllCells(ys), dec) { ParsedFrom(ops, dir, t, ys, dec); }
  }

  /** From a dirty direction on, whatever bytes, holes and boundary hints arrive: the log
      grows by nothing until an anchor or a boundary, and then by the resynchronisation
      and the messages of the wire behind it. */
  lemma {:induction false} ResyncIsParsed(ops: Ops, dir: Dir, s: Framer, xs: seq<Primitive>, dec: bool)
    requires ops.Valid() && s.f.st.DIRTY? && Ok(ops, dir, s) && Odd !in xs && Open(s.ctx, dec) && (dec ==> s.ctx.tls)
    ensures FoundAgain(ops, dir, s, Play(ops, dir, s, xs), Behind(ops, dir, s.ctx, s.f.matched, xs), dec)
    decreases |xs|
  {
    hide Play, FeedFrom, HoleFrom, ParseWire, WireAccepted, AllCells, ScanFor, Known;
    if xs == [] {
      NothingPlayed(ops, dir, s);
    } else {
      var x, ys := xs[0], xs[1..];
      PlayFront(ops, dir, s, xs);
      match x
      case Missing(n) =>
        ResyncIsParsed(ops, dir, s.(f := s.f.(matched := if n == 0 then s.f.matched else 0)), ys, dec);
      case Hint(off, p) =>
        if ops.boundary(s.ctx, dir, off, p) { StartsAgain(ops, dir, s, ys, dec); }
          else { ResyncIsParsed(ops, dir, s, ys, dec); }
      case Bytes(p, ts) =>
        DirtyChunk(ops, dir, s, p, ts, s.ctx.Blind());
        match ScanFor(ops, dir, s.ctx, s.f.matched, p)
        case Partial(m) => ResyncIsParsed(ops, dir, s.(f := s.f.(matched := m)), ys, dec);
        case Anchored(at) =>
          var zs := [Bytes(p[at..], ts)] + ys;
          ChunkCells(p[at..], ts, ys);
          PlayFront(ops, dir, DoResync(ops, dir, s), zs);
          StartsAgain(ops, dir, s, zs, dec);
    }
  }

  lemma NothingPlayed(ops: Ops, dir: Dir, s: Framer)
    ensures Play(ops, dir, s, []) == s
  {
  }
}
