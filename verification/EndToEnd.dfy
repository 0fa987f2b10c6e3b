/**
 Kernel emitter, chunk layer and framer together: the holes and bytes that reach the
 framer are the wire stream, position by position, nothing is counted twice or lost, and
 the messages are those of the recursive parser of that stream.
 */
module EndToEnd {
  import opened ChunkLayer
  import opened Framing
  import opened Options
  import opened FramingTheorems
  import opened KernelEmitter
  import opened Wire

  /** A record as an event of the socket's or the decrypted channel; `clock` says when the
      record of a number was taken. */
  function EventOf(e: Record, clock: nat -> nat, dec: bool): DataEvent
  {
    DataEvent(e.total, e.off, e.payload, clock(e.seqNo), dec)
  }

  /** The positions a chain of records captured. */
  function Captured(evs: seq<Record>, clock: nat -> nat): seq<Cell>
  {
    if evs == [] then []
    else Captured(evs[..|evs| - 1], clock) + Known(evs[|evs| - 1].payload, clock(evs[|evs| - 1].seqNo))
  }

  lemma {:induction false} CapturedData(evs: seq<Record>, clock: nat -> nat)
    ensures |Captured(evs, clock)| == |Data(evs)|
    ensures forall i :: 0 <= i < |Data(evs)| ==>
              Captured(evs, clock)[i].Seen? && Captured(evs, clock)[i].b == Data(evs)[i]
    decreases |evs|
  {
    if evs != [] { CapturedData(evs[..|evs| - 1], clock); }
  }

  /** One call as the kernel reported it: its honest size, its chain of records and the
      sequence number of the first. */
  datatype Reported = Reported(total: nat, chain: seq<Record>, first: nat)
  {
    predicate Sound()
    {
      chain != [] && |Data(chain)| <= total && Chain(chain, Way(), total, first)
    }

    function Way(): Dir { if chain == [] then Send else chain[0].dir }

    function Pending(): nat { if |Data(chain)| < total then total - |Data(chain)| else 0 }
  }

  predicate AllSound(calls: seq<Reported>) { forall i :: 0 <= i < |calls| ==> calls[i].Sound() }

  /** The calls on the wire: of each the captured prefix, and the rest unknown. */
  function WireOf(calls: seq<Reported>, clock: nat -> nat): seq<Cell>
  {
    if calls == [] then []
    else
      var c := calls[|calls| - 1];
      WireOf(calls[..|calls| - 1], clock) + Captured(c.chain, clock) + Unknown(c.Pending())
  }

  /** The wire without the tail that only the next call will reveal. */
  function Settled(calls: seq<Reported>, clock: nat -> nat): seq<Cell>
  {
    if calls == [] then [] else WireOf(calls[..|calls| - 1], clock) + Captured(calls[|calls| - 1].chain, clock)
  }

  /** The records of all calls, as they lie in the ring. */
  function Ring(calls: seq<Reported>): seq<Record>
  {
    if calls == [] then [] else Ring(calls[..|calls| - 1]) + calls[|calls| - 1].chain
  }

  /** The call position behind `n` bytes of a call of `total`. */
  function At(n: nat, total: nat): Call { if n >= total then Call(0, 0) else Call(n, total) }

  function CallAfter(calls: seq<Reported>): Call
  {
    if calls == [] then Call(0, 0) else At(|Data(calls[|calls| - 1].chain)|, calls[|calls| - 1].total)
  }

  // ---- the user side --------------------------------------------------------

  /** A framer and the position of the chunk layer in front of it. */
  datatype Stream = Stream(s: Framer, call: Call)

  function Receive(ops: Ops, dir: Dir, t: Stream, ev: DataEvent): Stream
  {
    Stream(ReasmData(ops, dir, t.s, t.call, ev), ReasmCall(t.s, t.call, ev))
  }

  /** lk_reasm_data over the records of the ring. */
  function ReceiveAll(ops: Ops, dir: Dir, t: Stream, evs: seq<Record>, clock: nat -> nat, dec: bool): Stream
  {
    if evs == [] then t
    else Receive(ops, dir, ReceiveAll(ops, dir, t, evs[..|evs| - 1], clock, dec), EventOf(evs[|evs| - 1], clock, dec))
  }

  /** What the framer is handed on the way. */
  function Handed(ops: Ops, dir: Dir, t: Stream, evs: seq<Record>, clock: nat -> nat, dec: bool): seq<Primitive>
  {
    if evs == [] then []
    else
      var init, ev := evs[..|evs| - 1], EventOf(evs[|evs| - 1], clock, dec);
      var u := ReceiveAll(ops, dir, t, init, clock, dec);
      Handed(ops, dir, t, init, clock, dec) + if Discards(u.s.ctx, ev) then [] else InputsOf(u.call, ev)
  }

  lemma {:induction false} ReceiveConcat(ops: Ops, dir: Dir, t: Stream, x: seq<Record>, y: seq<Record>,
                                         clock: nat -> nat, dec: bool)
    ensures var u := ReceiveAll(ops, dir, t, x, clock, dec);
            && ReceiveAll(ops, dir, t, x + y, clock, dec) == ReceiveAll(ops, dir, u, y, clock, dec)
            && Handed(ops, dir, t, x + y, clock, dec) ==
               Handed(ops, dir, t, x, clock, dec) + Handed(ops, dir, u, y, clock, dec)
    decreases |y|
  {
    hide Receive, InputsOf, EventOf, Discards;
    if y == [] {
      assert x + y == x;
    } else {
      var init, ev := y[..|y| - 1], EventOf(y[|y| - 1], clock, dec);
      assert (x + y)[..|x + y| - 1] == x + init;
      ReceiveConcat(ops, dir, t, x, init, clock, dec);
      var u := ReceiveAll(ops, dir, t, x, clock, dec);
      var w := ReceiveAll(ops, dir, u, init, clock, dec);
      var more := if Discards(w.s.ctx, ev) then [] else InputsOf(w.call, ev);
      assert (Handed(ops, dir, t, x, clock, dec) + Handed(ops, dir, u, init, clock, dec)) + more
          == Handed(ops, dir, t, x, clock, dec) + (Handed(ops, dir, u, init, clock, dec) + more);
    }
  }

  lemma DiscardsWhole(ops: Ops, dir: Dir, s: Framer, call: Call, ev: DataEvent)
    requires Discards(s.ctx, ev)
    ensures ReasmData(ops, dir, s, call, ev) == s && ReasmCall(s, call, ev) == call
  {
  }

  /** The framer's state is made of what it was handed, and of nothing else. */
  lemma {:induction false} ReceiveIsPlay(ops: Ops, dir: Dir, t: Stream, evs: seq<Record>, clock: nat -> nat, dec: bool)
    ensures ReceiveAll(ops, dir, t, evs, clock, dec).s == Play(ops, dir, t.s, Handed(ops, dir, t, evs, clock, dec))
    decreases |evs|
  {
    hide Do, PlanOf, InputsOf, ReasmData;
    if evs != [] {
      var init, ev := evs[..|evs| - 1], EventOf(evs[|evs| - 1], clock, dec);
      ReceiveIsPlay(ops, dir, t, init, clock, dec);
      var u := ReceiveAll(ops, dir, t, init, clock, dec);
      if !Discards(u.s.ctx, ev) {
        ReasmDataIsPlay(ops, dir, u.s, u.call, ev);
        PlayConcat(ops, dir, t.s, Handed(ops, dir, t, init, clock, dec), InputsOf(u.call, ev));
      } else {
        DiscardsWhole(ops, dir, u.s, u.call, ev);
        assert Handed(ops, dir, t, evs, clock, dec) == Handed(ops, dir, t, init, clock, dec);
      }
    }
  }

  lemma ReceiveKeeps(ops: Ops, dir: Dir, t: Stream, evs: seq<Record>, clock: nat -> nat, dec: bool)
    requires ops.Valid() && Ok(ops, dir, t.s)
    ensures Extends(ops, dir, t.s, ReceiveAll(ops, dir, t, evs, clock, dec).s)
    decreases |evs|
  {
    hide ReasmData, FrameOk, Ops.Valid;
    if evs != [] {
      var init, ev := evs[..|evs| - 1], EventOf(evs[|evs| - 1], clock, dec);
      ReceiveKeeps(ops, dir, t, init, clock, dec);
      var u := ReceiveAll(ops, dir, t, init, clock, dec);
      ReasmDataKeeps(ops, dir, u.s, u.call, ev);
      ExtendsTransitive(ops, dir, t.s, u.s, ReasmData(ops, dir, u.s, u.call, ev));
    } else {
      ExtendsItself(ops, dir, t.s);
    }
  }

  lemma ExtendsItself(ops: Ops, dir: Dir, s: Framer)
    requires Ok(ops, dir, s)
    ensures Extends(ops, dir, s, s)
  {
  }

  // ---- no anomaly -----------------------------------------------------------

  lemma StepIsRegular(ops: Ops, dir: Dir, s: Framer, b: Byte, ts: nat, eb: bool)
    ensures Step(ops, dir, s, b, ts, eb).s.st.offAnomalies == s.st.offAnomalies
  {
  }

  lemma {:induction false} FeedIsRegular(ops: Ops, dir: Dir, s: Framer, p: seq<Byte>, ts: nat, eb: bool)
    ensures FeedFrom(ops, dir, s, p, ts, eb).s.st.offAnomalies == s.st.offAnomalies
    decreases |p|
  {
    hide Step;
    if p != [] {
      StepIsRegular(ops, dir, s, p[0], ts, eb);
      var r := Step(ops, dir, s, p[0], ts, eb);
      if !r.cut { FeedIsRegular(ops, dir, r.s, p[1..], ts, eb); }
    }
  }

  lemma TurnIsRegular(ops: Ops, dir: Dir, s: Framer, n: nat, eb: bool)
    ensures HoleTurn(ops, dir, s, n, eb).s.st.offAnomalies == s.st.offAnomalies
  {
  }

  lemma {:induction false} HoleIsRegular(ops: Ops, dir: Dir, s: Framer, n: nat, eb: bool)
    ensures HoleFrom(ops, dir, s, n, eb).st.offAnomalies == s.st.offAnomalies
    decreases n
  {
    hide HoleTurn;
    if n > 0 {
      TurnIsRegular(ops, dir, s, n, eb);
      var t := HoleTurn(ops, dir, s, n, eb);
      if !(t.stop || t.take == 0 || t.take > n) { HoleIsRegular(ops, dir, t.s, n - t.take, eb); }
    }
  }

  /** Only an anomaly is counted as one. */
  lemma {:induction false} PlayIsRegular(ops: Ops, dir: Dir, s: Framer, xs: seq<Primitive>)
    requires Odd !in xs
    ensures Play(ops, dir, s, xs).st.offAnomalies == s.st.offAnomalies
    decreases |xs|
  {
    hide FeedFrom, HoleFrom;
    if xs != [] {
      var init := xs[..|xs| - 1];
      PlayIsRegular(ops, dir, s, init);
      var t := Play(ops, dir, s, init);
      match xs[|xs| - 1]
      case Bytes(p, ts) => FeedIsRegular(ops, dir, t, p, ts, t.ctx.Blind());
      case Missing(n) =>
        HoleIsRegular(ops, dir, t.(st := t.st.(holes := t.st.holes + 1, holeBytes := t.st.holeBytes + n)), n,
                      t.ctx.Blind());
      case Hint(off, p) =>
    }
  }

  // ---- accounting -----------------------------------------------------------

  /** The positions one regular event covers. */
  lemma EventCells(call: Call, ev: DataEvent)
    requires !PlanOf(call, ev).anomaly
    ensures var plan := PlanOf(call, ev);
            && AllCells(InputsOf(call, ev)) == Unknown(plan.tail + plan.gap) + Known(ev.payload, ev.ts)
            && Odd !in InputsOf(call, ev)
  {
    hide PlanOf;
    var xs := InputsOf(call, ev);
    assert xs[..3][..2] == xs[..2] && xs[..2][..1] == xs[..1] && xs[..1][..0] == [];
    assert AllCells(xs[..1]) == [] + CellsOf(xs[0]);
    assert AllCells(xs[..2]) == AllCells(xs[..1]) + CellsOf(xs[1]);
    assert AllCells(xs[..3]) == AllCells(xs[..2]) + CellsOf(xs[2]);
  }

  /** What holds of a stretch of records that starts at call position `from`: nothing odd,
      only the positions owed and captured, all of them while the channel is open. */
  ghost predicate Accounted(xs: seq<Primitive>, due: seq<Cell>, u: Stream, call: Call, dec: bool)
  {
    && Odd !in xs
    && AllCells(xs) <= due
    && (Open(u.s.ctx, dec) ==> AllCells(xs) == due && u.call == call)
  }

  /** Two stretches, of which the second is handed on only while the channel is open. */
  lemma AccountedJoin(x: seq<Primitive>, due: seq<Cell>, u: Stream, from: Call, y: seq<Primitive>, more: seq<Cell>,
                      w: Stream, call: Call, dec: bool)
    requires Accounted(x, due, u, from, dec) && (Open(w.s.ctx, dec) ==> Open(u.s.ctx, dec))
    requires if Open(u.s.ctx, dec) then Accounted(y, more, w, call, dec) else y == []
    ensures Accounted(x + y, due + more, w, call, dec)
  {
    hide AllCells;
    AllCellsConcat(x, y);
    if !Open(u.s.ctx, dec) { assert x + y == x; }
  }

  /** One record of a chain, behind the records `init` of the same chain. */
  lemma EventAccounted(ops: Ops, dir: Dir, u: Stream, init: seq<Record>, e: Record, total: nat, clock: nat -> nat,
                       dec: bool)
    requires Open(u.s.ctx, dec) && e.total == total && e.off == |Data(init)| && e.off + |e.payload| <= total
    requires init != [] ==> 0 < e.off < total && u.call == At(|Data(init)|, total)
    ensures var ev := EventOf(e, clock, dec);
            Accounted(InputsOf(u.call, ev),
                      Unknown(if init == [] then u.call.Pending() else 0) + Known(e.payload, ev.ts),
                      Receive(ops, dir, u, ev), At(|Data(init)| + |e.payload|, total), dec)
  {
    hide AllCells, InputsOf, ReasmData, Data;
    var ev := EventOf(e, clock, dec);
    ChainPlan(u.call, init, e, total, clock, dec);
    EventCells(u.call, ev);
  }

  /** One chain: the tail of the call before becomes a hole, the captured bytes follow. */
  lemma {:induction false} ChainAccounted(ops: Ops, dir: Dir, t: Stream, evs: seq<Record>, total: nat, first: nat,
                                          clock: nat -> nat, dec: bool)
    requires ops.Valid() && Ok(ops, dir, t.s)
    requires evs != [] && Chain(evs, evs[0].dir, total, first) && |Data(evs)| <= total
    ensures Accounted(Handed(ops, dir, t, evs, clock, dec), Unknown(t.call.Pending()) + Captured(evs, clock),
                      ReceiveAll(ops, dir, t, evs, clock, dec), At(|Data(evs)|, total), dec)
    decreases |evs|
  {
    hide ReasmData, ReasmCall, Extends, Ok, Ops.Valid, PlanOf, InputsOf, Accounted, AllCells, Known, Unknown, Captured;
    var n := |evs| - 1;
    var init, e := evs[..n], evs[n];
    var u, w := ReceiveAll(ops, dir, t, init, clock, dec), ReceiveAll(ops, dir, t, evs, clock, dec);
    var ev := EventOf(e, clock, dec);
    StepWasOpen(ops, dir, t, evs, clock, dec);
    var due := if n == 0 then [] else Unknown(t.call.Pending()) + Captured(init, clock);
    var more := Unknown(if n == 0 then t.call.Pending() else 0) + Known(e.payload, ev.ts);
    if n > 0 { ChainAccounted(ops, dir, t, init, total, first, clock, dec); } else { NothingAccounted(t, dec); }
    var from := if n == 0 then t.call else At(|Data(init)|, total);
    if Open(u.s.ctx, dec) {
      AccountedCall(Handed(ops, dir, t, init, clock, dec), due, u, from, dec);
      EventAccounted(ops, dir, u, init, e, total, clock, dec);
    }
    AccountedJoin(Handed(ops, dir, t, init, clock, dec), due, u, from,
                  if Open(u.s.ctx, dec) then InputsOf(u.call, ev) else [], more, w, At(|Data(evs)|, total), dec);
    DueOnward(evs, t.call.Pending(), clock);
  }

  /** The positions due after one more record. */
  lemma DueOnward(evs: seq<Record>, pending: nat, clock: nat -> nat)
    requires evs != []
    ensures var n := |evs| - 1;
            var due := if n == 0 then [] else Unknown(pending) + Captured(evs[..n], clock);
            due + (Unknown(if n == 0 then pending else 0) + Known(evs[n].payload, clock(evs[n].seqNo)))
            == Unknown(pending) + Captured(evs, clock)
  {
    hide Known, Unknown;
    var n := |evs| - 1;
    var k := Known(evs[n].payload, clock(evs[n].seqNo));
    NoneUnknown();
    assert [] + k == k && [] + (Unknown(pending) + k) == Unknown(pending) + k;
    Regroup(Unknown(pending), Captured(evs[..n], clock), k);
  }

  lemma NoneUnknown()
    ensures Unknown(0) == []
  {
  }

  lemma StepWasOpen(ops: Ops, dir: Dir, t: Stream, evs: seq<Record>, clock: nat -> nat, dec: bool)
    requires ops.Valid() && Ok(ops, dir, t.s) && evs != []
    ensures Open(ReceiveAll(ops, dir, t, evs, clock, dec).s.ctx, dec) ==>
            Open(ReceiveAll(ops, dir, t, evs[..|evs| - 1], clock, dec).s.ctx, dec)
  {
    hide ReasmData, FrameOk, Ops.Valid;
    ReceiveKeeps(ops, dir, t, evs[..|evs| - 1], clock, dec);
    var u, ev := ReceiveAll(ops, dir, t, evs[..|evs| - 1], clock, dec), EventOf(evs[|evs| - 1], clock, dec);
    ReasmDataKeeps(ops, dir, u.s, u.call, ev);
  }

  /** A channel that is open now was open before. */
  lemma WasOpen(ops: Ops, dir: Dir, u: Framer, w: Framer, dec: bool)
    requires Extends(ops, dir, u, w)
    ensures Open(w.ctx, dec) ==> Open(u.ctx, dec)
  {
  }

  lemma NothingAccounted(t: Stream, dec: bool)
    ensures Accounted([], [], t, t.call, dec)
  {
  }

  lemma AccountedCall(xs: seq<Primitive>, due: seq<Cell>, u: Stream, call: Call, dec: bool)
    requires Accounted(xs, due, u, call, dec) && Open(u.s.ctx, dec)
    ensures u.call == call
  {
  }

  /** A record of a chain at the position the chain has reached is regular. */
  lemma ChainPlan(call: Call, init: seq<Record>, e: Record, total: nat, clock: nat -> nat, dec: bool)
    requires e.total == total && e.off == |Data(init)| && e.off + |e.payload| <= total
    requires init != [] ==> 0 < e.off < total && call == At(|Data(init)|, total)
    ensures var plan := PlanOf(call, EventOf(e, clock, dec));
            && !plan.anomaly && plan.next == At(|Data(init)| + |e.payload|, total)
            && plan.tail + plan.gap == if init == [] then call.Pending() else 0
  {
  }

  lemma WireIsSettled(calls: seq<Reported>, clock: nat -> nat)
    requires AllSound(calls)
    ensures WireOf(calls, clock) == Settled(calls, clock) + Unknown(CallAfter(calls).Pending())
  {
    if calls == [] { assert Unknown(0) == []; }
  }

  /** What settles with one more call. */
  lemma SettledOnward(calls: seq<Reported>, clock: nat -> nat)
    requires calls != [] && AllSound(calls)
    ensures var init := calls[..|calls| - 1];
            Settled(init, clock) + (Unknown(CallAfter(init).Pending()) + Captured(calls[|calls| - 1].chain, clock)) ==
              Settled(calls, clock)
  {
    WireIsSettled(calls[..|calls| - 1], clock);
  }

  /** One call after the calls `init`. */
  lemma CallAccounted(ops: Ops, dir: Dir, u: Stream, init: seq<Reported>, x: seq<Primitive>, c: Reported,
                      clock: nat -> nat, dec: bool)
    requires ops.Valid() && Ok(ops, dir, u.s) && c.Sound()
    requires Accounted(x, Settled(init, clock), u, CallAfter(init), dec)
    ensures Accounted(x + Handed(ops, dir, u, c.chain, clock, dec),
                      Settled(init, clock) + (Unknown(CallAfter(init).Pending()) + Captured(c.chain, clock)),
                      ReceiveAll(ops, dir, u, c.chain, clock, dec), At(|Data(c.chain)|, c.total), dec)
  {
    hide ReceiveAll, Handed, Chain, Captured, Extends, Ok, Ops.Valid, Accounted, Settled, CallAfter;
    var w, y := ReceiveAll(ops, dir, u, c.chain, clock, dec), Handed(ops, dir, u, c.chain, clock, dec);
    ReceiveKeeps(ops, dir, u, c.chain, clock, dec);
    WasOpen(ops, dir, u.s, w.s, dec);
    if Open(u.s.ctx, dec) {
      AccountedCall(x, Settled(init, clock), u, CallAfter(init), dec);
      ChainAccounted(ops, dir, u, c.chain, c.total, c.first, clock, dec);
    } else {
      NothingHanded(ops, dir, u, c.chain, clock, dec);
    }
    AccountedJoin(x, Settled(init, clock), u, CallAfter(init), y,
                  Unknown(CallAfter(init).Pending()) + Captured(c.chain, clock),
                  w, At(|Data(c.chain)|, c.total), dec);
  }

  lemma {:induction false} RingAccounted(ops: Ops, dir: Dir, t: Stream, calls: seq<Reported>, clock: nat -> nat,
                                         dec: bool)
    requires ops.Valid() && Ok(ops, dir, t.s) && AllSound(calls) && t.call == Call(0, 0)
    ensures Accounted(Handed(ops, dir, t, Ring(calls), clock, dec), Settled(calls, clock),
                      ReceiveAll(ops, dir, t, Ring(calls), clock, dec), CallAfter(calls), dec)
    decreases |calls|
  {
    hide ReceiveAll, Handed, Reported.Sound, Captured, FrameOk, Ops.Valid, Accounted, Settled;
    if calls == [] {
      NothingReceived(ops, dir, t, clock, dec);
      NothingAccounted(t, dec);
      NothingSettled(clock);
    } else {
      var init, c := calls[..|calls| - 1], calls[|calls| - 1];
      RingAccounted(ops, dir, t, init, clock, dec);
      ReceiveKeeps(ops, dir, t, Ring(init), clock, dec);
      ReceiveConcat(ops, dir, t, Ring(init), c.chain, clock, dec);
      CallAccounted(ops, dir, ReceiveAll(ops, dir, t, Ring(init), clock, dec), init,
                    Handed(ops, dir, t, Ring(init), clock, dec), c, clock, dec);
      SettledOnward(calls, clock);
    }
  }

  lemma NothingSettled(clock: nat -> nat)
    ensures Settled([], clock) == []
  {
  }

  /** End-to-end accounting, for every protocol and every serial sequence of calls without
      lost records. The framer sees exactly the inputs that were handed to it; none of
      them is an anomaly and none is counted as one; the positions they cover are those of
      the wire, from the first on, without the tail that is still owed; and while the
      channel is open they are all of them. */
  lemma WireIsReconstructed(ops: Ops, dir: Dir, s: Framer, calls: seq<Reported>, clock: nat -> nat, dec: bool)
    requires ops.Valid() && Ok(ops, dir, s) && AllSound(calls)
    ensures var t := ReceiveAll(ops, dir, Stream(s, Call(0, 0)), Ring(calls), clock, dec);
            var xs := Handed(ops, dir, Stream(s, Call(0, 0)), Ring(calls), clock, dec);
            && t.s == Play(ops, dir, s, xs)
            && t.s.st.offAnomalies == s.st.offAnomalies
            && Accounted(xs, Settled(calls, clock), t, CallAfter(calls), dec)
            && WireOf(calls, clock) == Settled(calls, clock) + Unknown(CallAfter(calls).Pending())
  {
    hide ReceiveAll, Handed, Play, Ring, FrameOk, Ops.Valid, Accounted, Settled, WireOf;
    var t0 := Stream(s, Call(0, 0));
    var xs := Handed(ops, dir, t0, Ring(calls), clock, dec);
    ReceiveIsPlay(ops, dir, t0, Ring(calls), clock, dec);
    RingAccounted(ops, dir, t0, calls, clock, dec);
    WireIsSettled(calls, clock);
    AccountedRegular(xs, Settled(calls, clock), ReceiveAll(ops, dir, t0, Ring(calls), clock, dec), CallAfter(calls),
                     dec);
    PlayIsRegular(ops, dir, s, xs);
  }

  lemma AccountedRegular(xs: seq<Primitive>, due: seq<Cell>, u: Stream, call: Call, dec: bool)
    requires Accounted(xs, due, u, call, dec)
    ensures Odd !in xs
  {
  }

  lemma NothingReceived(ops: Ops, dir: Dir, t: Stream, clock: nat -> nat, dec: bool)
    ensures ReceiveAll(ops, dir, t, [], clock, dec) == t && Handed(ops, dir, t, [], clock, dec) == []
  {
  }

  /** A channel that is closed hands nothing on. */
  lemma {:induction false} NothingHanded(ops: Ops, dir: Dir, t: Stream, evs: seq<Record>, clock: nat -> nat, dec: bool)
    requires !Open(t.s.ctx, dec)
    ensures ReceiveAll(ops, dir, t, evs, clock, dec) == t && Handed(ops, dir, t, evs, clock, dec) == []
    decreases |evs|
  {
    if evs != [] { NothingHanded(ops, dir, t, evs[..|evs| - 1], clock, dec); }
  }

  /** From system calls to messages: whatever the kernel captured of each call, the framer
      emits exactly the messages that the recursive parser finds on the wire. */
  lemma CallsAreParsed(ops: Ops, dir: Dir, ctx: Ctx, st: Stats, calls: seq<Reported>, clock: nat -> nat, dec: bool)
    requires ops.Valid() && AllSound(calls) && Open(ctx, dec) && (dec ==> ctx.tls)
    requires WireAccepted(ops, dir, ctx, NO_HEADER, None, Settled(calls, clock), dec)
    ensures ReceiveAll(ops, dir, Stream(Framer(ctx, ZERO_FRAME, [], st), Call(0, 0)), Ring(calls), clock, dec).s.out
            == Log(dir, ParseWire(ops, dir, ctx, NO_HEADER, None, 0, false, Settled(calls, clock), dec))
  {
    hide ReceiveAll, Handed, Ring, Settled, Play, WireAccepted, ParseWire;
    var s := Framer(ctx, ZERO_FRAME, [], st);
    WireIsReconstructed(ops, dir, s, calls, clock, dec);
    var xs := Handed(ops, dir, Stream(s, Call(0, 0)), Ring(calls), clock, dec);
    AcceptedPrefix(ops, dir, ctx, AllCells(xs), Settled(calls, clock), dec);
    InputsAreParsed(ops, dir, ctx, st, xs, dec);
  }

  // ---- both directions ------------------------------------------------------

  /** A connection: two directions over one context, one log and one set of counters. */
  datatype Duplex = Duplex(ctx: Ctx, send: Flow, recv: Flow, out: seq<Event>, st: Stats)
  {
    function In(d: Dir): Flow { if d.Send? then send else recv }

    /** One direction with all that it shares. */
    function Side(d: Dir): Stream { Stream(Framer(ctx, In(d).f, out, st), In(d).call) }

    function With(d: Dir, t: Stream): Duplex
    {
      var flow := Flow(t.s.f, t.call);
      if d.Send? then Duplex(t.s.ctx, flow, recv, t.s.out, t.s.st) else Duplex(t.s.ctx, send, flow, t.s.out, t.s.st)
    }
  }

  /** lk_reasm_data over the records of the ring, each in its own direction. */
  function ServeAll(ops: Ops, t: Duplex, evs: seq<Record>, clock: nat -> nat, dec: bool): Duplex
  {
    if evs == [] then t
    else
      var u, e := ServeAll(ops, t, evs[..|evs| - 1], clock, dec), evs[|evs| - 1];
      u.With(e.dir, Receive(ops, e.dir, u.Side(e.dir), EventOf(e, clock, dec)))
  }

  /** What the framer of a direction is handed on the way. */
  function HandedTo(ops: Ops, t: Duplex, evs: seq<Record>, clock: nat -> nat, dec: bool, d: Dir): seq<Primitive>
  {
    if evs == [] then []
    else
      var init, e := evs[..|evs| - 1], evs[|evs| - 1];
      var u, ev := ServeAll(ops, t, init, clock, dec), EventOf(e, clock, dec);
      HandedTo(ops, t, init, clock, dec, d) +
      if e.dir != d || Discards(u.ctx, ev) then [] else InputsOf(u.In(d).call, ev)
  }

  lemma {:induction false} ServeConcat(ops: Ops, t: Duplex, x: seq<Record>, y: seq<Record>, clock: nat -> nat,
                                       dec: bool, d: Dir)
    ensures var u := ServeAll(ops, t, x, clock, dec);
            && ServeAll(ops, t, x + y, clock, dec) == ServeAll(ops, u, y, clock, dec)
            && HandedTo(ops, t, x + y, clock, dec, d) ==
               HandedTo(ops, t, x, clock, dec, d) + HandedTo(ops, u, y, clock, dec, d)
    decreases |y|
  {
    hide Receive, InputsOf, EventOf, Discards;
    if y == [] {
      assert x + y == x;
    } else {
      var init := y[..|y| - 1];
      assert (x + y)[..|x + y| - 1] == x + init;
      ServeConcat(ops, t, x, init, clock, dec, d);
    }
  }

  /** A chain is served in its own direction; the other one only shares what it changes. */
  lemma {:induction false} ChainServed(ops: Ops, t: Duplex, evs: seq<Record>, dir: Dir, clock: nat -> nat, dec: bool)
    requires forall i :: 0 <= i < |evs| ==> evs[i].dir == dir
    ensures ServeAll(ops, t, evs, clock, dec) == t.With(dir, ReceiveAll(ops, dir, t.Side(dir), evs, clock, dec))
    ensures HandedTo(ops, t, evs, clock, dec, dir) == Handed(ops, dir, t.Side(dir), evs, clock, dec)
    ensures HandedTo(ops, t, evs, clock, dec, Other(dir)) == []
    decreases |evs|
  {
    hide InputsOf, EventOf, Discards, ReasmData, ReasmCall;
    if evs != [] { ChainServed(ops, t, evs[..|evs| - 1], dir, clock, dec); }
  }

  lemma {:induction false} ChainHasOneWay(evs: seq<Record>, dir: Dir, total: nat, first: nat)
    requires Chain(evs, dir, total, first)
    ensures forall i :: 0 <= i < |evs| ==> evs[i].dir == dir
    decreases |evs|
  {
    if evs != [] { ChainHasOneWay(evs[..|evs| - 1], dir, total, first); }
  }

  /** The calls of one direction. */
  function CallsOf(calls: seq<Reported>, d: Dir): seq<Reported>
  {
    if calls == [] then []
    else CallsOf(calls[..|calls| - 1], d) + if calls[|calls| - 1].Way() == d then [calls[|calls| - 1]] else []
  }

  lemma {:induction false} CallsOfSound(calls: seq<Reported>, d: Dir)
    requires AllSound(calls)
    ensures AllSound(CallsOf(calls, d))
  {
    hide Reported.Sound;
    if calls != [] { CallsOfSound(calls[..|calls| - 1], d); }
  }

  /** Both directions are in order. */
  predicate DuplexOk(ops: Ops, t: Duplex) { Ok(ops, Send, t.Side(Send).s) && Ok(ops, Recv, t.Side(Recv).s) }

  /** What holds of a direction after some calls. */
  ghost predicate SideAccounted(ops: Ops, t: Duplex, calls: seq<Reported>, clock: nat -> nat, dec: bool, d: Dir)
  {
    Accounted(HandedTo(ops, t, Ring(calls), clock, dec, d), Settled(CallsOf(calls, d), clock),
              ServeAll(ops, t, Ring(calls), clock, dec).Side(d), CallAfter(CallsOf(calls, d)), dec)
  }

  /** A chain keeps both directions in order, and no channel opens again. */
  lemma ChainKeepsBoth(ops: Ops, u: Duplex, evs: seq<Record>, dir: Dir, clock: nat -> nat, dec: bool)
    requires ops.Valid() && DuplexOk(ops, u) && forall i :: 0 <= i < |evs| ==> evs[i].dir == dir
    ensures var w := ServeAll(ops, u, evs, clock, dec);
            && DuplexOk(ops, w) && (Open(w.ctx, dec) ==> Open(u.ctx, dec))
            && w.In(Other(dir)) == u.In(Other(dir))
  {
    hide ReceiveAll, ServeAll, HandedTo, Handed;
    ChainServed(ops, u, evs, dir, clock, dec);
    ReceiveKeeps(ops, dir, u.Side(dir), evs, clock, dec);
  }

  /** A direction to which nothing was handed is accounted for as before. */
  lemma AccountedStays(xs: seq<Primitive>, due: seq<Cell>, u: Stream, w: Stream, call: Call, dec: bool)
    requires Accounted(xs, due, u, call, dec) && w.call == u.call && (Open(w.s.ctx, dec) ==> Open(u.s.ctx, dec))
    ensures Accounted(xs, due, w, call, dec)
  {
  }

  /** One call more: its own direction is handed the tail owed and what was captured, and
      the other nothing. */
  lemma CallServed(ops: Ops, t: Duplex, calls: seq<Reported>, clock: nat -> nat, dec: bool, d: Dir)
    requires ops.Valid() && calls != [] && AllSound(calls)
    requires DuplexOk(ops, ServeAll(ops, t, Ring(calls[..|calls| - 1]), clock, dec))
    requires SideAccounted(ops, t, calls[..|calls| - 1], clock, dec, d)
    ensures SideAccounted(ops, t, calls, clock, dec, d)
    ensures DuplexOk(ops, ServeAll(ops, t, Ring(calls), clock, dec))
  {
    hide ServeAll, HandedTo, ReceiveAll, Handed, Accounted, Settled, CallAfter, Chain, Data, DuplexOk, Ops.Valid, Ok;
    var init, c := calls[..|calls| - 1], calls[|calls| - 1];
    var u := ServeAll(ops, t, Ring(init), clock, dec);
    ServeConcat(ops, t, Ring(init), c.chain, clock, dec, d);
    ChainHasOneWay(c.chain, c.Way(), c.total, c.first);
    ChainServed(ops, u, c.chain, c.Way(), clock, dec);
    ChainKeepsBoth(ops, u, c.chain, c.Way(), clock, dec);
    var xs := HandedTo(ops, t, Ring(init), clock, dec, d);
    CallsOfSound(init, d);
    if c.Way() == d {
      SideOk(ops, u, d);
      CallAccounted(ops, d, u.Side(d), CallsOf(init, d), xs, c, clock, dec);
      OneMore(CallsOf(init, d), c, clock);
    } else {
      OtherWay(c.Way(), d);
      assert xs + [] == xs && CallsOf(init, d) + [] == CallsOf(init, d);
      AccountedStays(xs, Settled(CallsOf(init, d), clock), u.Side(d), ServeAll(ops, u, c.chain, clock, dec).Side(d),
                     CallAfter(CallsOf(init, d)), dec);
    }
  }

  lemma SideOk(ops: Ops, u: Duplex, d: Dir)
    requires DuplexOk(ops, u)
    ensures Ok(ops, d, u.Side(d).s)
  {
  }

  lemma OtherWay(x: Dir, d: Dir)
    requires x != d
    ensures d == Other(x)
  {
  }

  /** What settles with one more call of a direction. */
  lemma OneMore(init: seq<Reported>, c: Reported, clock: nat -> nat)
    requires AllSound(init) && c.Sound()
    ensures var calls := init + [c];
            && Settled(init, clock) + (Unknown(CallAfter(init).Pending()) + Captured(c.chain, clock)) ==
               Settled(calls, clock)
            && CallAfter(calls) == At(|Data(c.chain)|, c.total)
  {
    hide Reported.Sound, Captured, Data;
    assert (init + [c])[..|init|] == init;
    SettledOnward(init + [c], clock);
  }

  /** No anomaly is counted on the way. */
  lemma ChainIsRegular(ops: Ops, u: Duplex, evs: seq<Record>, dir: Dir, clock: nat -> nat, dec: bool)
    requires (forall i :: 0 <= i < |evs| ==> evs[i].dir == dir) && Odd !in HandedTo(ops, u, evs, clock, dec, dir)
    ensures ServeAll(ops, u, evs, clock, dec).st.offAnomalies == u.st.offAnomalies
  {
    hide ServeAll, HandedTo, ReceiveAll, Handed, Play;
    ChainServed(ops, u, evs, dir, clock, dec);
    ReceiveIsPlay(ops, dir, u.Side(dir), evs, clock, dec);
    PlayIsRegular(ops, dir, u.Side(dir).s, Handed(ops, dir, u.Side(dir), evs, clock, dec));
  }

  /** End-to-end accounting for both directions over the flags they share: the calls may
      alternate in any way, and what was said of one direction holds of each. */
  lemma {:induction false} BothAreReconstructed(ops: Ops, t: Duplex, calls: seq<Reported>, clock: nat -> nat, dec: bool)
    requires ops.Valid() && DuplexOk(ops, t) && AllSound(calls) && t.send.call == t.recv.call == Call(0, 0)
    ensures SideAccounted(ops, t, calls, clock, dec, Send) && SideAccounted(ops, t, calls, clock, dec, Recv)
    ensures DuplexOk(ops, ServeAll(ops, t, Ring(calls), clock, dec))
    ensures ServeAll(ops, t, Ring(calls), clock, dec).st.offAnomalies == t.st.offAnomalies
    decreases |calls|
  {
    hide Accounted, Settled, DuplexOk, Ops.Valid, Reported.Sound, SideAccounted;
    if calls == [] {
      NobodyHeard(ops, t, clock, dec, Send);
      NobodyHeard(ops, t, clock, dec, Recv);
    } else {
      var init, c := calls[..|calls| - 1], calls[|calls| - 1];
      BothAreReconstructed(ops, t, init, clock, dec);
      CallServed(ops, t, calls, clock, dec, Send);
      CallServed(ops, t, calls, clock, dec, Recv);
      assert c.Way() == Send || c.Way() == Recv;
      CallIsRegular(ops, t, calls, clock, dec);
    }
  }

  lemma NobodyHeard(ops: Ops, t: Duplex, clock: nat -> nat, dec: bool, d: Dir)
    requires t.In(d).call == Call(0, 0)
    ensures SideAccounted(ops, t, [], clock, dec, d) && ServeAll(ops, t, Ring([]), clock, dec) == t
  {
    NothingAccounted(t.Side(d), dec);
  }

  lemma CallIsRegular(ops: Ops, t: Duplex, calls: seq<Reported>, clock: nat -> nat, dec: bool)
    requires calls != [] && AllSound(calls) && SideAccounted(ops, t, calls, clock, dec, calls[|calls| - 1].Way())
    ensures ServeAll(ops, t, Ring(calls), clock, dec).st.offAnomalies
            == ServeAll(ops, t, Ring(calls[..|calls| - 1]), clock, dec).st.offAnomalies
  {
    hide ServeAll, HandedTo, Settled, AllCells;
    var init, c := calls[..|calls| - 1], calls[|calls| - 1];
    ChainHasOneWay(c.chain, c.Way(), c.total, c.first);
    ServeConcat(ops, t, Ring(init), c.chain, clock, dec, c.Way());
    ChainIsRegular(ops, ServeAll(ops, t, Ring(init), clock, dec), c.chain, c.Way(), clock, dec);
  }

  // ---- the kernel side ------------------------------------------------------

  predicate Always(n: nat) { true }

  /** A call of the application: its direction and data, the user segments the kernel could
      look at, and what decides how much of them it captures. */
  datatype Sent = Sent(dir: Dir, data: seq<Byte>, segs: seq<seq<Byte>>, capBudget: nat, headersMode: bool,
                       cursorFree: bool, readOk: nat -> bool)
  {
    /** The segments show the data, as far as both go. */
    predicate Legal()
    {
      && |segs| <= MAX_SEGS
      && (forall i :: 0 <= i < |segs| ==> |segs[i]| < U32)
      && (Flat(segs) <= data || data <= Flat(segs))
    }

    /** How much of the data is captured. */
    function Shown(): (n: nat)
      ensures n <= |data|
    {
      Captures(|data|, segs, capBudget, headersMode, cursorFree, Always, readOk)
    }
  }

  /** The calls of one direction. */
  function SentIn(sent: seq<Sent>, d: Dir): seq<Sent>
  {
    if sent == [] then []
    else SentIn(sent[..|sent| - 1], d) + if sent[|sent| - 1].dir == d then [sent[|sent| - 1]] else []
  }

  /** What the application put on the wire. */
  function Truth(sent: seq<Sent>): seq<Byte>
  {
    if sent == [] then [] else Truth(sent[..|sent| - 1]) + sent[|sent| - 1].data
  }

  /** The wire these calls show: of each the captured prefix, and the rest unknown. */
  function WireSent(sent: seq<Sent>): seq<Cell>
  {
    if sent == [] then []
    else
      var c := sent[|sent| - 1];
      WireSent(sent[..|sent| - 1]) + Known(c.data[..c.Shown()], 0) + Unknown(|c.data| - c.Shown())
  }

  /** ... without the tail that only the next call will reveal. */
  function SettledSent(sent: seq<Sent>): seq<Cell>
  {
    if sent == [] then []
    else
      var c := sent[|sent| - 1];
      WireSent(sent[..|sent| - 1]) + Known(c.data[..c.Shown()], 0)
  }

  /** Every captured position shows the byte that was sent there. */
  lemma {:induction false} WireIsTrue(sent: seq<Sent>)
    ensures |WireSent(sent)| == |Truth(sent)| && SettledSent(sent) <= WireSent(sent)
    ensures forall i :: 0 <= i < |Truth(sent)| && WireSent(sent)[i].Seen? ==> WireSent(sent)[i].b == Truth(sent)[i]
    decreases |sent|
  {
    hide Captures;
    if sent != [] { WireIsTrue(sent[..|sent| - 1]); }
  }

  /** The report is about this call, and shows what can be shown of it. */
  predicate ReportOf(r: Reported, c: Sent)
  {
    r.Sound() && r.Way() == c.dir && r.total == |c.data| && Data(r.chain) == c.data[..c.Shown()]
  }

  predicate Reports(calls: seq<Reported>, sent: seq<Sent>)
  {
    |calls| == |sent| && forall i :: 0 <= i < |calls| ==> ReportOf(calls[i], sent[i])
  }

  lemma NothingReported(sent: seq<Sent>)
    ensures Reports([], sent[..0]) && Ring([]) == []
  {
  }

  lemma ReportOnward(calls: seq<Reported>, c: Reported, sent: seq<Sent>, i: nat)
    requires i < |sent| && sent[i].Legal() && Reports(calls, sent[..i])
    requires c.total == |sent[i].data| && Chain(c.chain, sent[i].dir, c.total, c.first) && c.chain != []
    requires Data(c.chain) <= Flat(sent[i].segs) && |Data(c.chain)| == sent[i].Shown()
    ensures Reports(calls + [c], sent[..i + 1]) && Ring(calls + [c]) == Ring(calls) + c.chain
  {
    hide Data, Flat, Captures, ReportOf;
    assert (calls + [c])[..|calls|] == calls;
    ChainHasOneWay(c.chain, sent[i].dir, c.total, c.first);
    Agree(Data(c.chain), Flat(sent[i].segs), sent[i].data);
    ReportIs(c, sent[i]);
  }

  lemma ReportIs(r: Reported, c: Sent)
    requires r.chain != [] && r.chain[0].dir == c.dir && r.total == |c.data| && Chain(r.chain, c.dir, r.total, r.first)
    requires Data(r.chain) <= c.data && |Data(r.chain)| == c.Shown()
    ensures ReportOf(r, c)
  {
    hide Data, Captures, Chain;
  }

  /** A prefix of one of two sequences that agree is a prefix of the other, if it fits. */
  lemma Agree(d: seq<Byte>, x: seq<Byte>, y: seq<Byte>)
    requires d <= x && (x <= y || y <= x) && |d| <= |y|
    ensures d <= y
  {
  }

  /** emit_data_chunks for one call after another, no reserve failing. */
  method EmitCalls(conn: Conn, sent: seq<Sent>) returns (ghost calls: seq<Reported>)
    requires forall i :: 0 <= i < |sent| ==> sent[i].Legal()
    modifies conn
    ensures Reports(calls, sent) && conn.ring == old(conn.ring) + Ring(calls)
    ensures conn.dropped == old(conn.dropped) && conn.seqNo == old(conn.seqNo) + |Ring(calls)|
  {
    hide Chain, Data, Flat, Reported.Sound, Reports, Ring, Captures;
    calls := [];
    NothingReported(sent);
    var i := 0;
    while i < |sent|
      invariant 0 <= i <= |sent| && Reports(calls, sent[..i]) && conn.ring == old(conn.ring) + Ring(calls)
      invariant conn.dropped == old(conn.dropped) && conn.seqNo == old(conn.seqNo) + |Ring(calls)|
    {
      var c := sent[i];
      ghost var first := conn.seqNo;
      ghost var chain := conn.EmitDataChunks(c.dir, |c.data|, c.segs, c.capBudget, c.headersMode, c.cursorFree,
                                             Always, c.readOk);
      ghost var next := Reported(|c.data|, chain, first);
      ReportOnward(calls, next, sent, i);
      calls := calls + [next];
      i := i + 1;
    }
    assert sent[..|sent|] == sent;
  }

  /** A call that is captured whole: no longer than its budget, in one segment that shows it,
      within eight full records. */
  ghost predicate Small(c: Sent)
  {
    && |c.segs| == 1 && c.data <= c.segs[0] && |c.data| <= c.capBudget && |c.data| <= 32768
    && !c.headersMode && c.cursorFree && forall n :: c.readOk(n)
  }

  /** Small calls are on the wire without a lost position. */
  lemma {:induction false} SmallCallsAreWhole(sent: seq<Sent>)
    requires forall i :: 0 <= i < |sent| ==> Small(sent[i])
    ensures WireSent(sent) == Known(Truth(sent), 0) && SettledSent(sent) == WireSent(sent)
    decreases |sent|
  {
    hide Captures;
    if sent != [] {
      var c := sent[|sent| - 1];
      SmallCallsAreWhole(sent[..|sent| - 1]);
      FlatOne(c.segs);
      CapturesAll(|c.data|, c.segs, c.capBudget, c.headersMode, Always, c.readOk);
      assert c.Shown() == |c.data| && c.data[..|c.data|] == c.data;
      assert Known(Truth(sent), 0) == Known(Truth(sent[..|sent| - 1]), 0) + Known(c.data, 0);
    }
  }

  // ---- both ends ------------------------------------------------------------

  lemma ReportShape(r: Reported, c: Sent, clock: nat -> nat)
    requires ReportOf(r, c)
    ensures SameShape(Captured(r.chain, clock), Known(c.data[..c.Shown()], 0)) && r.Pending() == |c.data| - c.Shown()
  {
    hide Data, Captured, Captures, Chain;
    CapturedData(r.chain, clock);
  }

  lemma UnknownShape(n: nat)
    ensures SameShape(Unknown(n), Unknown(n))
  {
  }

  /** The reported wire is the one these calls show, but for the times. */
  lemma {:induction false} WireShape(calls: seq<Reported>, sent: seq<Sent>, clock: nat -> nat)
    requires Reports(calls, sent)
    ensures SameShape(WireOf(calls, clock), WireSent(sent)) && SameShape(Settled(calls, clock), SettledSent(sent))
    decreases |calls|
  {
    hide ReportOf, Captured, Captures, SameShape, Known, Unknown;
    if calls == [] {
      NoShape();
    } else {
      var n := |calls| - 1;
      var c := sent[n];
      WireShape(calls[..n], sent[..n], clock);
      ReportShape(calls[n], c, clock);
      UnknownShape(calls[n].Pending());
      var seen, known := Captured(calls[n].chain, clock), Known(c.data[..c.Shown()], 0);
      SameShapeConcat(WireOf(calls[..n], clock), WireSent(sent[..n]), seen, known);
      SameShapeConcat(WireOf(calls[..n], clock) + seen, WireSent(sent[..n]) + known,
                      Unknown(calls[n].Pending()), Unknown(calls[n].Pending()));
    }
  }

  lemma NoShape()
    ensures SameShape([], [])
  {
  }

  lemma {:induction false} ReportsIn(calls: seq<Reported>, sent: seq<Sent>, d: Dir)
    requires Reports(calls, sent)
    ensures Reports(CallsOf(calls, d), SentIn(sent, d)) && AllSound(calls)
    decreases |calls|
  {
    hide Data, Captures, Chain;
    if calls != [] { ReportsIn(calls[..|calls| - 1], sent[..|sent| - 1], d); }
  }

  /** A connection before its first call. */
  function Quietly(ctx: Ctx, st: Stats): Duplex { Duplex(ctx, FRESH_FLOW, FRESH_FLOW, [], st) }

  /** What the agent makes of the records `ring` of the calls `sent`, as far as direction `d`
      goes. It was handed positions of the wire and nothing else, captured where the
      emitter captures and lost where it does not; while the channel is open they are all
      but the tail still owed; and if only this direction speaks and the parser accepts
      what these calls show, the log is what it finds. */
  ghost predicate Monitored(ops: Ops, ctx: Ctx, st: Stats, ring: seq<Record>, sent: seq<Sent>, clock: nat -> nat,
                            d: Dir, t: Duplex)
    requires ops.Valid()
  {
    var xs := HandedTo(ops, Quietly(ctx, st), ring, clock, false, d);
    var due := SettledSent(SentIn(sent, d));
    && |AllCells(xs)| <= |due| && SameShape(AllCells(xs), due[..|AllCells(xs)|])
    && (Open(t.ctx, false) ==> |AllCells(xs)| == |due| && |due| + t.In(d).call.Pending() == |Truth(SentIn(sent, d))|)
    && (SentIn(sent, Other(d)) == [] ==>
          && t.Side(d).s == Play(ops, d, Framer(ctx, ZERO_FRAME, [], st), xs)
          && (WireAccepted(ops, d, ctx, NO_HEADER, None, due, false) ==>
                t.out == Log(d, ParseWire(ops, d, ctx, NO_HEADER, None, 0, false, AllCells(xs), false))))
  }

  lemma ShapePrefix(u: seq<Cell>, v: seq<Cell>, w: seq<Cell>)
    requires u <= v && SameShape(v, w)
    ensures |u| <= |w| && SameShape(u, w[..|u|])
  {
  }

  /** If only one direction speaks, every record is of that direction. */
  lemma {:induction false} OneWayOnly(calls: seq<Reported>, sent: seq<Sent>, d: Dir)
    requires Reports(calls, sent) && SentIn(sent, Other(d)) == []
    ensures forall i :: 0 <= i < |Ring(calls)| ==> Ring(calls)[i].dir == d
    decreases |calls|
  {
    hide Data, Captures, Chain;
    if calls != [] {
      var n := |calls| - 1;
      var c := calls[n];
      OneWayOnly(calls[..n], sent[..n], d);
      if sent[n].dir != d { OtherWay(sent[n].dir, d); }
      ChainHasOneWay(c.chain, c.Way(), c.total, c.first);
    }
  }

  /** The positions of a direction. */
  lemma PositionsMonitored(ops: Ops, t0: Duplex, calls: seq<Reported>, sent: seq<Sent>, clock: nat -> nat, d: Dir)
    requires Reports(calls, sent) && SideAccounted(ops, t0, calls, clock, false, d)
    ensures var t := ServeAll(ops, t0, Ring(calls), clock, false);
            var xs := HandedTo(ops, t0, Ring(calls), clock, false, d);
            var due := SettledSent(SentIn(sent, d));
            && |AllCells(xs)| <= |due| && SameShape(AllCells(xs), due[..|AllCells(xs)|]) && Odd !in xs
            && SameShape(Settled(CallsOf(calls, d), clock), due) && AllCells(xs) <= Settled(CallsOf(calls, d), clock)
            && (Open(t.ctx, false) ==>
                  |AllCells(xs)| == |due| && |due| + t.In(d).call.Pending() == |Truth(SentIn(sent, d))|)
  {
    hide ServeAll, HandedTo, Settled, AllCells, Reports, WireOf, WireSent, SettledSent, Truth, Ring, CallsOf, SentIn,
         CallAfter;
    var mine, ours := CallsOf(calls, d), SentIn(sent, d);
    ReportsIn(calls, sent, d);
    WireShape(mine, ours, clock);
    WireIsTrue(ours);
    CallsOfSound(calls, d);
    WireIsSettled(mine, clock);
    ShapePrefix(AllCells(HandedTo(ops, t0, Ring(calls), clock, false, d)), Settled(mine, clock), SettledSent(ours));
  }

  /** The log, where one direction speaks alone. */
  lemma LogMonitored(ops: Ops, ctx: Ctx, st: Stats, evs: seq<Record>, clock: nat -> nat, d: Dir, v: seq<Cell>,
                     due: seq<Cell>)
    requires ops.Valid() && Open(ctx, false) && forall i :: 0 <= i < |evs| ==> evs[i].dir == d
    requires SameShape(v, due)
    requires var xs := HandedTo(ops, Quietly(ctx, st), evs, clock, false, d); AllCells(xs) <= v && Odd !in xs
    ensures var t := ServeAll(ops, Quietly(ctx, st), evs, clock, false);
            var xs := HandedTo(ops, Quietly(ctx, st), evs, clock, false, d);
            && t.Side(d).s == Play(ops, d, Framer(ctx, ZERO_FRAME, [], st), xs)
            && (WireAccepted(ops, d, ctx, NO_HEADER, None, due, false) ==>
                  t.out == Log(d, ParseWire(ops, d, ctx, NO_HEADER, None, 0, false, AllCells(xs), false)))
  {
    hide ServeAll, HandedTo, ReceiveAll, Handed, Play, AllCells, WireAccepted, ParseWire, SameShape, Ops.Valid;
    var t0 := Quietly(ctx, st);
    ChainServed(ops, t0, evs, d, clock, false);
    ReceiveIsPlay(ops, d, t0.Side(d), evs, clock, false);
    var xs := HandedTo(ops, t0, evs, clock, false, d);
    if WireAccepted(ops, d, ctx, NO_HEADER, None, due, false) {
      AcceptedSame(ops, d, ctx, NO_HEADER, None, v, due, false);
      AcceptedPrefix(ops, d, ctx, AllCells(xs), v, false);
      InputsAreParsed(ops, d, ctx, st, xs, false);
    }
  }

  lemma SideMonitored(ops: Ops, ctx: Ctx, st: Stats, calls: seq<Reported>, sent: seq<Sent>, clock: nat -> nat, d: Dir)
    requires ops.Valid() && Open(ctx, false) && Reports(calls, sent)
    requires SideAccounted(ops, Quietly(ctx, st), calls, clock, false, d)
    ensures Monitored(ops, ctx, st, Ring(calls), sent, clock, d,
                      ServeAll(ops, Quietly(ctx, st), Ring(calls), clock, false))
  {
    hide ServeAll, HandedTo, Play, Settled, AllCells, WireAccepted, ParseWire, SameShape, SideAccounted, Ops.Valid,
         Reports;
    hide SettledSent, Truth, Ring, CallsOf, SentIn;
    PositionsMonitored(ops, Quietly(ctx, st), calls, sent, clock, d);
    if SentIn(sent, Other(d)) == [] {
      OneWayOnly(calls, sent, d);
      LogMonitored(ops, ctx, st, Ring(calls), clock, d, Settled(CallsOf(calls, d), clock),
                   SettledSent(SentIn(sent, d)));
    }
  }

  /** Both ends and both directions: the agent reads the ring that the emitter filled from
      any sequence of calls, sent and received in any order. No anomaly is counted, and each
      direction is monitored. */
  method Monitor(conn: Conn, sent: seq<Sent>, ops: Ops, ctx: Ctx, st: Stats, clock: nat -> nat)
    returns (ghost t: Duplex)
    requires ops.Valid() && Open(ctx, false) && forall i :: 0 <= i < |sent| ==> sent[i].Legal()
    modifies conn
    ensures old(conn.ring) <= conn.ring
    ensures t == ServeAll(ops, Quietly(ctx, st), conn.ring[|old(conn.ring)|..], clock, false)
    ensures t.st.offAnomalies == st.offAnomalies
    ensures Monitored(ops, ctx, st, conn.ring[|old(conn.ring)|..], sent, clock, Send, t)
    ensures Monitored(ops, ctx, st, conn.ring[|old(conn.ring)|..], sent, clock, Recv, t)
  {
    hide ServeAll, Monitored, Ring, SideAccounted, Ops.Valid, Reports, DuplexOk;
    ghost var calls := EmitCalls(conn, sent);
    assert conn.ring[|old(conn.ring)|..] == Ring(calls);
    ghost var t0 := Quietly(ctx, st);
    t := ServeAll(ops, t0, Ring(calls), clock, false);
    QuietIsOk(ops, t0);
    ReportsIn(calls, sent, Send);
    BothAreReconstructed(ops, t0, calls, clock, false);
    SideMonitored(ops, ctx, st, calls, sent, clock, Send);
    SideMonitored(ops, ctx, st, calls, sent, clock, Recv);
  }

  lemma QuietIsOk(ops: Ops, t: Duplex)
    requires ops.Valid() && t.send == FRESH_FLOW && t.recv == FRESH_FLOW
    ensures DuplexOk(ops, t)
  {
  }
}
