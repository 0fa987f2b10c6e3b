/**
 The chunk layer of src/agent/reassembly.c: lk_reasm_data turns one data event
 (off, cap_len, total_len) of a send or receive call into holes and bytes.
 */
module ChunkLayer {
  import opened Framing

  /** A decoded data event; the payload is clamped to cap_len. */
  datatype DataEvent = DataEvent(total: nat, off: nat, payload: seq<Byte>, ts: nat, decrypted: bool)

  /** The position inside the current call; `total` 0 means that none is in progress. */
  datatype Call = Call(pos: nat, total: nat)
  {
    function Pending(): nat { if pos < total then total - pos else 0 }
  }

  /** What one event means: the uncaptured tail of the previous call, whether the
      offsets contradict the call, the gap before this chunk, and the new position. */
  datatype Plan = Plan(tail: nat, anomaly: bool, gap: nat, next: Call)

  function PlanOf(c: Call, ev: DataEvent): Plan
  {
    var tail := if ev.off == 0 then c.Pending() else 0;
    var c1 := if ev.off == 0 || c.total == 0 then Call(0, ev.total) else c;
    var anomaly := ev.total != c1.total || ev.off < c1.pos || ev.off + |ev.payload| > ev.total;
    var gap := if anomaly then 0 else ev.off - c1.pos;
    var end := ev.off + |ev.payload|;
    Plan(tail, anomaly, gap, if end >= ev.total then Call(0, 0) else Call(end, ev.total))
  }

  function Anomaly(s: Framer): Framer
  {
    if s.f.st.DIRTY? then s
    else s.(f := Dirtied(s.f), st := s.st.(offAnomalies := s.st.offAnomalies + 1))
  }

  /** Events of a connection whose stream is not framed are dropped whole. */
  predicate Discards(ctx: Ctx, ev: DataEvent)
  {
    ctx.cancel || ctx.ignore || (ctx.tls && !ev.decrypted)
  }

  /** Everything that happens before the payload is fed. */
  function BeforeBytes(ops: Ops, dir: Dir, s: Framer, call: Call, ev: DataEvent): Framer
  {
    var plan := PlanOf(call, ev);
    var s1 := Hole(ops, dir, s, plan.tail);
    var s2 := if plan.anomaly then Anomaly(s1) else Hole(ops, dir, s1, plan.gap);
    if s2.f.st.DIRTY? && ops.boundary(s2.ctx, dir, ev.off, ev.payload) then DoResync(ops, dir, s2) else s2
  }

  /** lk_reasm_data on the framer; the new call position is `PlanOf(call, ev).next`. */
  function ReasmData(ops: Ops, dir: Dir, s: Framer, call: Call, ev: DataEvent): Framer
  {
    if Discards(s.ctx, ev) then s
    else Feed(ops, dir, BeforeBytes(ops, dir, s, call, ev), ev.payload, ev.ts).s
  }

  function ReasmCall(s: Framer, call: Call, ev: DataEvent): Call
  {
    if Discards(s.ctx, ev) then call else PlanOf(call, ev).next
  }

  /** One direction of a connection: the framer and its position inside a call. */
  datatype Flow = Flow(f: Frame, call: Call)

  const FRESH_FLOW := Flow(ZERO_FRAME, Call(0, 0))

  /** A direction that waits for a boundary. */
  function Dirtying(f: Flow): Flow { f.(f := f.f.(st := DIRTY, matched := 0)) }

  // ---- the framer's inputs --------------------------------------------------

  /** What the chunk layer can do to a framer: feed bytes, report a hole, point out a
      possible boundary, or give the direction up. */
  datatype Primitive = Bytes(p: seq<Byte>, ts: nat) | Missing(n: nat) | Hint(off: nat, p: seq<Byte>) | Odd

  function Do(ops: Ops, dir: Dir, s: Framer, x: Primitive): Framer
  {
    match x
    case Bytes(p, ts) => Feed(ops, dir, s, p, ts).s
    case Missing(n) => Hole(ops, dir, s, n)
    case Hint(off, p) => if s.f.st.DIRTY? && ops.boundary(s.ctx, dir, off, p) then DoResync(ops, dir, s) else s
    case Odd => Anomaly(s)
  }

  function Play(ops: Ops, dir: Dir, s: Framer, xs: seq<Primitive>): Framer
  {
    if xs == [] then s else Do(ops, dir, Play(ops, dir, s, xs[..|xs| - 1]), xs[|xs| - 1])
  }

  /** The inputs one event stands for at a call position. */
  function InputsOf(call: Call, ev: DataEvent): seq<Primitive>
  {
    var plan := PlanOf(call, ev);
    [Missing(plan.tail), if plan.anomaly then Odd else Missing(plan.gap), Hint(ev.off, ev.payload),
     Bytes(ev.payload, ev.ts)]
  }

  lemma {:induction false} PlayConcat(ops: Ops, dir: Dir, s: Framer, xs: seq<Primitive>, ys: seq<Primitive>)
    ensures Play(ops, dir, s, xs + ys) == Play(ops, dir, Play(ops, dir, s, xs), ys)
    decreases |ys|
  {
    hide Do;
    if ys == [] {
      assert xs + ys == xs;
    } else {
      assert (xs + ys)[..|xs + ys| - 1] == xs + ys[..|ys| - 1];
      PlayConcat(ops, dir, s, xs, ys[..|ys| - 1]);
    }
  }

  /** lk_reasm_data hands the framer exactly these inputs, in this order. */
  lemma ReasmDataIsPlay(ops: Ops, dir: Dir, s: Framer, call: Call, ev: DataEvent)
    requires !Discards(s.ctx, ev)
    ensures ReasmData(ops, dir, s, call, ev) == Play(ops, dir, s, InputsOf(call, ev))
  {
    hide FeedFrom, Hole;
    var xs := InputsOf(call, ev);
    assert xs[..3][..2] == xs[..2] && xs[..2][..1] == xs[..1] && xs[..1][..0] == [];
    assert Play(ops, dir, s, []) == s;
    assert Play(ops, dir, s, xs[..1]) == Do(ops, dir, s, xs[0]);
    assert Play(ops, dir, s, xs[..2]) == Do(ops, dir, Play(ops, dir, s, xs[..1]), xs[1]);
    assert Play(ops, dir, s, xs[..3]) == Do(ops, dir, Play(ops, dir, s, xs[..2]), xs[2]);
  }

  // ---- invariants -----------------------------------------------------------

  lemma AnomalyKeeps(ops: Ops, dir: Dir, s: Framer)
    requires ops.Valid() && Ok(ops, dir, s)
    ensures Extends(ops, dir, s, Anomaly(s))
  {
  }

  lemma ResyncKeeps(ops: Ops, dir: Dir, s: Framer)
    requires ops.Valid() && Ok(ops, dir, s)
    ensures Extends(ops, dir, s, DoResync(ops, dir, s))
  {
  }

  lemma BeforeBytesKeeps(ops: Ops, dir: Dir, s: Framer, call: Call, ev: DataEvent)
    requires ops.Valid() && Ok(ops, dir, s)
    ensures Extends(ops, dir, s, BeforeBytes(ops, dir, s, call, ev))
  {
    var plan := PlanOf(call, ev);
    var s1 := Hole(ops, dir, s, plan.tail);
    HoleKeeps(ops, dir, s, plan.tail);
    var s2 := if plan.anomaly then Anomaly(s1) else Hole(ops, dir, s1, plan.gap);
    if plan.anomaly { AnomalyKeeps(ops, dir, s1); } else { HoleKeeps(ops, dir, s1, plan.gap); }
    ExtendsTransitive(ops, dir, s, s1, s2);
    ResyncKeeps(ops, dir, s2);
    ExtendsTransitive(ops, dir, s, s2, DoResync(ops, dir, s2));
  }

  /** Every event keeps the framer invariant, the log so far and the flags already set. */
  lemma ReasmDataKeeps(ops: Ops, dir: Dir, s: Framer, call: Call, ev: DataEvent)
    requires ops.Valid() && Ok(ops, dir, s)
    ensures Extends(ops, dir, s, ReasmData(ops, dir, s, call, ev))
  {
    BeforeBytesKeeps(ops, dir, s, call, ev);
    var s1 := BeforeBytes(ops, dir, s, call, ev);
    FeedKeeps(ops, dir, s1, ev.payload, ev.ts, s1.ctx.Blind());
    ExtendsTransitive(ops, dir, s, s1, Feed(ops, dir, s1, ev.payload, ev.ts).s);
  }

  lemma {:induction false} PlayKeeps(ops: Ops, dir: Dir, s: Framer, xs: seq<Primitive>)
    requires ops.Valid() && Ok(ops, dir, s)
    ensures Ok(ops, dir, Play(ops, dir, s, xs))
    decreases |xs|
  {
    hide FrameOk, Ops.Valid, FeedFrom, Hole, Anomaly, DoResync;
    if xs != [] {
      var t := Play(ops, dir, s, xs[..|xs| - 1]);
      PlayKeeps(ops, dir, s, xs[..|xs| - 1]);
      match xs[|xs| - 1]
      case Bytes(p, ts) => FeedKeeps(ops, dir, t, p, ts, t.ctx.Blind());
      case Missing(n) => HoleKeeps(ops, dir, t, n);
      case Hint(off, p) => ResyncKeeps(ops, dir, t);
      case Odd => AnomalyKeeps(ops, dir, t);
    }
  }
}
