/**
 The kernel side of a data call (src/bpf/latkit.bpf.c): emit_data_chunks slices the
 user segments of one send or receive call into data events under a byte budget and
 a chunk limit. Whether a reserve or a user read succeeds is decided outside.
 */
module KernelEmitter {
  import opened Framing

  const CHUNK_SMALL: nat := 256
  const CHUNK_FULL: nat := 4096
  const MAX_SEGS: nat := 8
  const MAX_CHUNKS: nat := 8
  const HEADERS_LIMIT: nat := 64
  const U32: nat := 0x1_0000_0000

  /** One submitted record. */
  datatype Record = Record(dir: Dir, seqNo: nat, total: nat, off: nat, payload: seq<Byte>, trunc: bool, gap: bool)

  /** The bytes a chain of records carries. */
  function Data(evs: seq<Record>): seq<Byte>
  {
    if evs == [] then [] else Data(evs[..|evs| - 1]) + evs[|evs| - 1].payload
  }

  /** The records of one call: one direction, one size, contiguous offsets from 0, consecutive
      sequence numbers from `first`, and every later record strictly inside the call. */
  predicate Chain(evs: seq<Record>, dir: Dir, total: nat, first: nat)
  {
    evs == [] ||
    var n := |evs| - 1;
    && Chain(evs[..n], dir, total, first)
    && evs[n].total == total && evs[n].dir == dir
    && evs[n].off == |Data(evs[..n])|
    && evs[n].seqNo == first + n
    && (n > 0 ==> 0 < evs[n].off < total)
  }

  lemma FlatSplit(segs: seq<seq<Byte>>, i: nat)
    requires i < |segs|
    ensures Flat(segs[..i + 1]) == Flat(segs[..i]) + segs[i]
    ensures Flat(segs[..i]) + segs[i] <= Flat(segs)
  {
    assert segs[..i + 1][..i] == segs[..i];
    FlatPrefix(segs, i + 1);
  }

  lemma {:induction false} FlatPrefix(segs: seq<seq<Byte>>, i: nat)
    requires i <= |segs|
    ensures Flat(segs[..i]) <= Flat(segs)
    decreases |segs|
  {
    if i == |segs| {
      assert segs[..i] == segs;
    } else {
      var init := segs[..|segs| - 1];
      assert init[..i] == segs[..i];
      FlatPrefix(init, i);
    }
  }

  lemma ChainSnoc(evs: seq<Record>, e: Record, dir: Dir, total: nat, first: nat)
    requires Chain(evs, dir, total, first) && e.dir == dir && e.total == total && e.off == |Data(evs)| &&
             e.seqNo == first + |evs|
    requires evs != [] ==> 0 < e.off < total
    ensures Chain(evs + [e], dir, total, first)
    ensures Data(evs + [e]) == Data(evs) + e.payload
  {
    assert (evs + [e])[..|evs|] == evs;
  }

  /** The bytes the segments hold. */
  method AvailTotal(segs: seq<seq<Byte>>) returns (avail: nat)
    ensures avail == |Flat(segs)|
  {
    avail := 0;
    var i := 0;
    while i < |segs|
      invariant 0 <= i <= |segs| && avail == |Flat(segs[..i])|
    {
      FlatSplit(segs, i);
      avail := avail + |segs[i]|;
      i := i + 1;
    }
    assert segs[..|segs|] == segs;
  }

  /** A cursor that is inside the segments or behind the last one. */
  predicate CursorOk(segs: seq<seq<Byte>>, si: nat, soff: nat)
  {
    si <= |segs| && if si < |segs| then soff <= |segs[si]| else soff == 0
  }

  // ---- how much is captured -------------------------------------------------

  /** How many bytes of `segs` are captured under a budget, from chunk `c` on: a record holds
      bytes of one segment, and the first reserve or read that fails ends the call. */
  function Capture(segs: seq<seq<Byte>>, budget: nat, c: nat, reserveOk: nat -> bool, readOk: nat -> bool): (n: nat)
    ensures n <= budget
    decreases if c < MAX_CHUNKS then MAX_CHUNKS - c else 0, |segs|
  {
    if c >= MAX_CHUNKS || budget == 0 || segs == [] then 0
    else if segs[0] == [] then Capture(segs[1..], budget, c, reserveOk, readOk)
    else if !reserveOk(c) || !readOk(c) then 0
    else
      var n := Min(Min(|segs[0]|, budget), CHUNK_FULL);
      n + Capture([segs[0][n..]] + segs[1..], budget - n, c + 1, reserveOk, readOk)
  }

  /** How many bytes of a call are asked for: in HEADERS mode never more than 64. */
  function Wanted(total: nat, capBudget: nat, headersMode: bool): nat
  {
    Min(if headersMode && capBudget > HEADERS_LIMIT then HEADERS_LIMIT else capBudget, total)
  }

  /** How many bytes of a call are captured. */
  function Captures(total: nat, segs: seq<seq<Byte>>, capBudget: nat, headersMode: bool, cursorFree: bool,
                    reserveOk: nat -> bool, readOk: nat -> bool): (n: nat)
    ensures n <= total
  {
    if cursorFree then Capture(segs, Min(Wanted(total, capBudget, headersMode), |Flat(segs)|), 0, reserveOk, readOk)
    else 0
  }

  /** How many records of 4096 bytes the next `n` bytes take, no record crossing a segment. */
  function Records(segs: seq<seq<Byte>>, n: nat): nat
  {
    if segs == [] then 0
    else
      var m := Min(|segs[0]|, n);
      (m + 4095) / 4096 + Records(segs[1..], n - m)
  }

  lemma {:induction false} FlatFront(segs: seq<seq<Byte>>)
    requires segs != []
    ensures Flat(segs) == segs[0] + Flat(segs[1..])
    decreases |segs|
  {
    if |segs| > 1 {
      var init := segs[..|segs| - 1];
      FlatFront(init);
      assert init[1..] == segs[1..][..|segs| - 2];
    } else {
      assert segs[..0] == [] && segs[1..] == [];
    }
  }

  /** With nothing in the way, eight records are filled: where they suffice, all that is
      asked for is captured. */
  lemma {:induction false} CaptureIsAll(segs: seq<seq<Byte>>, budget: nat, c: nat, reserveOk: nat -> bool,
                                        readOk: nat -> bool)
    requires (forall i :: reserveOk(i)) && (forall i :: readOk(i)) && c + Records(segs, budget) <= 8
    ensures Capture(segs, budget, c, reserveOk, readOk) == Min(budget, |Flat(segs)|)
    decreases if c < 8 then 8 - c else 0, |segs|
  {
    if budget == 0 || segs == [] {
    } else if segs[0] == [] {
      FlatFront(segs);
      CaptureIsAll(segs[1..], budget, c, reserveOk, readOk);
    } else {
      var n := Min(Min(|segs[0]|, budget), 4096);
      var rest := [segs[0][n..]] + segs[1..];
      FlatFront(segs);
      FlatFront(rest);
      assert rest[1..] == segs[1..];
      OneRecordLess(segs, budget, n);
      CaptureIsAll(rest, budget - n, c + 1, reserveOk, readOk);
    }
  }

  lemma OneRecordLess(segs: seq<seq<Byte>>, budget: nat, n: nat)
    requires segs != [] && segs[0] != [] && budget > 0 && n == Min(Min(|segs[0]|, budget), 4096)
    ensures Records([segs[0][n..]] + segs[1..], budget - n) + 1 == Records(segs, budget)
  {
    var rest := [segs[0][n..]] + segs[1..];
    assert rest[1..] == segs[1..];
    var m := Min(|segs[0]|, budget);
    assert (m + 4095) / 4096 == (m - n + 4095) / 4096 + 1;
  }

  /** One segment: eight full records at most. */
  lemma {:induction false} CaptureOfOne(x: seq<Byte>, budget: nat, c: nat, reserveOk: nat -> bool, readOk: nat -> bool)
    requires (forall i :: reserveOk(i)) && (forall i :: readOk(i)) && c <= 8
    ensures Capture([x], budget, c, reserveOk, readOk) == Min(Min(budget, |x|), (8 - c) * 4096)
    decreases 8 - c
  {
    if c < 8 && budget > 0 && x != [] {
      var n := Min(Min(|x|, budget), 4096);
      assert [x][1..] == [] && [[x][0][n..]] + [x][1..] == [x[n..]];
      CaptureOfOne(x[n..], budget - n, c + 1, reserveOk, readOk);
    } else if c < 8 && budget > 0 {
      assert [x][1..] == [];
    }
  }

  /** What is left of the segments behind a cursor. */
  function Left(segs: seq<seq<Byte>>, si: nat, soff: nat): seq<seq<Byte>>
    requires CursorOk(segs, si, soff)
  {
    if si == |segs| then [] else [segs[si][soff..]] + segs[si + 1..]
  }

  /** The segments from the first one that is not empty. */
  function FromBytes(segs: seq<seq<Byte>>): seq<seq<Byte>>
  {
    if segs != [] && segs[0] == [] then FromBytes(segs[1..]) else segs
  }

  lemma {:induction false} CaptureFromBytes(segs: seq<seq<Byte>>, budget: nat, c: nat, reserveOk: nat -> bool,
                                            readOk: nat -> bool)
    ensures Capture(segs, budget, c, reserveOk, readOk) == Capture(FromBytes(segs), budget, c, reserveOk, readOk)
    decreases |segs|
  {
    if segs != [] && segs[0] == [] { CaptureFromBytes(segs[1..], budget, c, reserveOk, readOk); }
  }

  lemma CaptureNone(segs: seq<seq<Byte>>, budget: nat, c: nat, reserveOk: nat -> bool, readOk: nat -> bool)
    requires budget == 0 || c >= MAX_CHUNKS || segs == []
    ensures Capture(segs, budget, c, reserveOk, readOk) == 0
  {
  }

  /** One record, and what is left behind its bytes. */
  lemma CaptureOne(segs: seq<seq<Byte>>, si: nat, soff: nat, budget: nat, c: nat, reserveOk: nat -> bool,
                   readOk: nat -> bool)
    requires si < |segs| && soff < |segs[si]| && budget > 0 && c < MAX_CHUNKS
    ensures var n := Min(Min(|segs[si]| - soff, budget), CHUNK_FULL);
            Capture(Left(segs, si, soff), budget, c, reserveOk, readOk) ==
            if !reserveOk(c) || !readOk(c) then 0
            else n + Capture(Left(segs, si, soff + n), budget - n, c + 1, reserveOk, readOk)
  {
    var n, l := Min(Min(|segs[si]| - soff, budget), CHUNK_FULL), Left(segs, si, soff);
    assert [l[0][n..]] + l[1..] == Left(segs, si, soff + n);
  }

  lemma LeftAll(segs: seq<seq<Byte>>)
    ensures CursorOk(segs, 0, 0) && Left(segs, 0, 0) == segs && Flat(segs[..0]) == []
  {
  }

  /** Advance to the first segment with bytes left. The segment length is read into 32
      bits. */
  method Seek(segs: seq<seq<Byte>>, si0: nat, soff0: nat) returns (si: nat, soff: nat)
    requires CursorOk(segs, si0, soff0)
    requires forall i :: 0 <= i < |segs| ==> |segs[i]| < U32
    ensures CursorOk(segs, si, soff) && (si < |segs| ==> soff < |segs[si]|)
    ensures |Flat(segs[..si])| + soff == |Flat(segs[..si0])| + soff0
    ensures Left(segs, si, soff) == FromBytes(Left(segs, si0, soff0))
  {
    hide Flat, FromBytes, Left;
    si, soff := si0, soff0;
    while si < |segs| && soff >= |segs[si]| % U32
      invariant CursorOk(segs, si, soff)
      invariant |Flat(segs[..si])| + soff == |Flat(segs[..si0])| + soff0
      invariant FromBytes(Left(segs, si, soff)) == FromBytes(Left(segs, si0, soff0))
      decreases |segs| - si
    {
      FlatSplit(segs, si);
      Passed(segs, si, soff);
      si, soff := si + 1, 0;
    }
    AtBytes(segs, si, soff);
  }

  lemma AtBytes(segs: seq<seq<Byte>>, si: nat, soff: nat)
    requires CursorOk(segs, si, soff) && (si < |segs| ==> soff < |segs[si]|)
    ensures FromBytes(Left(segs, si, soff)) == Left(segs, si, soff)
  {
  }

  /** A segment without bytes left is passed. */
  lemma Passed(segs: seq<seq<Byte>>, si: nat, soff: nat)
    requires si < |segs| && soff == |segs[si]|
    ensures FromBytes(Left(segs, si, soff)) == FromBytes(Left(segs, si + 1, 0))
  {
    assert Left(segs, si, soff)[0] == [] && Left(segs, si, soff)[1..] == segs[si + 1..] == Left(segs, si + 1, 0);
  }

  /** A connection as the kernel keeps it, and the ring buffer as a log. */
  class Conn {
    var seqNo: nat
    var dropped: nat
    var gapPending: bool
    var ring: seq<Record>
    var bytesTotal: nat
    var bytesCaptured: nat

    constructor ()
      ensures seqNo == dropped == bytesTotal == bytesCaptured == 0 && ring == [] && !gapPending
    {
      seqNo, dropped, bytesTotal, bytesCaptured := 0, 0, 0, 0;
      ring := [];
      gapPending := false;
    }

    /** emit_chunk. The sequence number is consumed before the reserve, so a lost record
        leaves a hole in the numbering; the next record carries the gap flag. */
    method EmitChunk(dir: Dir, total: nat, off: nat, src: seq<Byte>, trunc: bool, chunkSize: nat, reserveOk: bool,
                     readOk: bool)
      returns (done: int)
      modifies this
      ensures seqNo == old(seqNo) + 1 && bytesTotal == old(bytesTotal)
      ensures !reserveOk ==> done == -1 && ring == old(ring) && gapPending && dropped == old(dropped) + 1
                             && bytesCaptured == old(bytesCaptured)
      ensures reserveOk ==>
                && done == (if readOk then Min(|src|, chunkSize) else 0)
                && ring == old(ring) + [Record(dir, old(seqNo), total, off, src[..done],
                                               trunc || (done == 0 && total > 0), old(gapPending))]
                && !gapPending && dropped == old(dropped) && bytesCaptured == old(bytesCaptured) + done
    {
      var s := seqNo;
      seqNo := seqNo + 1;
      if !reserveOk {
        dropped := dropped + 1;
        gapPending := true;
        return -1;
      }
      var gap := gapPending;
      gapPending := false;
      var cap := |src|;
      if cap > chunkSize {
        cap := chunkSize;
      }
      if cap != 0 && !readOk {
        cap := 0;
      }
      ring := ring + [Record(dir, s, total, off, src[..cap], trunc || (cap == 0 && total > 0), gap)];
      bytesCaptured := bytesCaptured + cap;
      return cap;
    }

    /** One chunk: as much as the budget and a record hold of what is left of a segment. */
    method EmitSlice(dir: Dir, total: nat, segs: seq<seq<Byte>>, si: nat, soff: nat, pos: nat, budget: nat, trunc: bool,
                     reserveOk: bool, readOk: bool, ghost chain: seq<Record>, ghost first: nat)
      returns (done: int, ghost chain': seq<Record>)
      requires si < |segs| && soff < |segs[si]| < U32 && budget > 0 && pos + budget <= total
      requires Chain(chain, dir, total, first) && seqNo == first + |chain| && (chain != [] ==> pos > 0)
      requires Data(chain) <= Flat(segs) && pos == |Data(chain)| == |Flat(segs[..si])| + soff
      modifies this
      ensures chain <= chain' && ring == old(ring) + chain'[|chain|..] && Chain(chain', dir, total, first)
      ensures Data(chain') <= Flat(segs) && soff + done <= |segs[si]| && done <= budget
      ensures |Data(chain')| == pos + if done > 0 then done else 0
      ensures bytesTotal == old(bytesTotal) && bytesCaptured == old(bytesCaptured) + |Data(chain')| - pos
      ensures seqNo == old(seqNo) + 1
      ensures if reserveOk then
                && |chain'| == |chain| + 1 && dropped == old(dropped)
                && done == (if readOk then Min(Min(|segs[si]| - soff, budget), CHUNK_FULL) else 0)
              else chain' == chain && dropped == old(dropped) + 1 && done == -1
      ensures |chain'| > |chain| ==>
                var e := chain'[|chain|];
                e.gap == old(gapPending) && (e.trunc <==> trunc || (e.payload == [] && total > 0))
      ensures gapPending <==> !reserveOk
    {
      hide Chain, Data, Flat;
      var cap := |segs[si]| % U32 - soff;
      if cap > budget { cap := budget; }
      var src := segs[si][soff..soff + cap];
      var size := if cap <= CHUNK_SMALL then CHUNK_SMALL else CHUNK_FULL;
      done := EmitChunk(dir, total, pos, src, trunc, size, reserveOk, readOk);
      chain' := chain;
      if done >= 0 {
        ghost var e := ring[|ring| - 1];
        ChainSnoc(chain, e, dir, total, first);
        assert e.payload == segs[si][soff..soff + done];
        Extended(chain, segs, si, soff, done);
        chain' := chain + [e];
      }
    }

    /** The chunk loop of emit_data_chunks over a budget of `planned` bytes. */
    method EmitChain(dir: Dir, total: nat, segs: seq<seq<Byte>>, planned: nat, trunc: bool, reserveOk: nat -> bool,
                     readOk: nat -> bool)
      returns (ghost chain: seq<Record>)
      requires forall i :: 0 <= i < |segs| ==> |segs[i]| < U32
      requires 0 < planned <= |Flat(segs)| && planned <= total
      modifies this
      ensures ring == old(ring) + chain && Chain(chain, dir, total, old(seqNo))
      ensures Data(chain) <= Flat(segs) && |Data(chain)| == Capture(segs, planned, 0, reserveOk, readOk) <= planned
      ensures |chain| <= MAX_CHUNKS
      ensures bytesTotal == old(bytesTotal) && bytesCaptured == old(bytesCaptured) + |Data(chain)|
      ensures seqNo + old(dropped) == old(seqNo) + |chain| + dropped
      ensures (forall i :: reserveOk(i)) ==> chain != [] && dropped == old(dropped)
      ensures (forall i :: reserveOk(i)) && (forall i :: readOk(i)) && |chain| < MAX_CHUNKS ==> |Data(chain)| == planned
      ensures forall i :: 0 <= i < |chain| ==>
                && (chain[i].gap <==> i == 0 && old(gapPending))
                && (chain[i].trunc <==> trunc || (chain[i].payload == [] && total > 0))
      ensures gapPending <==> dropped > old(dropped)
    {
      hide Chain, Data, Flat, Capture, Left, FromBytes;
      chain := [];
      var budget: nat := planned;
      var si: nat, soff: nat, pos: nat, c: nat := 0, 0, 0, 0;
      LeftAll(segs);
      NoData(dir, total, seqNo);
      while c < MAX_CHUNKS
        invariant c <= MAX_CHUNKS && |chain| == c && (c > 0 ==> pos > 0)
        invariant CursorOk(segs, si, soff) && pos == |Data(chain)| == |Flat(segs[..si])| + soff
        invariant Data(chain) <= Flat(segs) && pos + budget == planned
        invariant Capture(segs, planned, 0, reserveOk, readOk) ==
                  pos + Capture(Left(segs, si, soff), budget, c, reserveOk, readOk)
        invariant ring == old(ring) + chain && Chain(chain, dir, total, old(seqNo))
        invariant seqNo == old(seqNo) + c && dropped == old(dropped)
        invariant bytesTotal == old(bytesTotal) && bytesCaptured == old(bytesCaptured) + pos
        invariant gapPending == (c == 0 && old(gapPending))
        invariant forall i :: 0 <= i < |chain| ==>
                    && (chain[i].gap <==> i == 0 && old(gapPending))
                    && (chain[i].trunc <==> trunc || (chain[i].payload == [] && total > 0))
      {
        CaptureNone(Left(segs, si, soff), 0, c, reserveOk, readOk);
        if budget == 0 { break; }
        CaptureFromBytes(Left(segs, si, soff), budget, c, reserveOk, readOk);
        si, soff := Seek(segs, si, soff);
        WholePrefix(segs, si);
        if si == |segs| { break; }
        CaptureOne(segs, si, soff, budget, c, reserveOk, readOk);
        var done;
        done, chain := EmitSlice(dir, total, segs, si, soff, pos, budget, trunc, reserveOk(c), readOk(c), chain,
                                 old(seqNo));
        if done <= 0 { break; }
        soff, pos, budget, c := soff + done, pos + done, budget - done, c + 1;
      }
      if c == MAX_CHUNKS { CaptureNone(Left(segs, si, soff), budget, c, reserveOk, readOk); }
    }

    /** emit_data_chunks. The captured bytes are a prefix of the call's data, and with
        nothing in the way they are all that the budget allows. */
    method EmitDataChunks(dir: Dir, total: nat, segs: seq<seq<Byte>>, capBudget: nat, headersMode: bool,
                          cursorFree: bool, reserveOk: nat -> bool, readOk: nat -> bool)
      returns (ghost chain: seq<Record>)
      requires |segs| <= MAX_SEGS
      requires forall i :: 0 <= i < |segs| ==> |segs[i]| < U32
      modifies this
      ensures ring == old(ring) + chain && Chain(chain, dir, total, old(seqNo))
      ensures Data(chain) <= Flat(segs)
      ensures |Data(chain)| <= Min(Min(capBudget, total), if headersMode then 64 else total)
      ensures |Data(chain)| == Captures(total, segs, capBudget, headersMode, cursorFree, reserveOk, readOk)
      ensures |chain| <= 8
      ensures bytesTotal == old(bytesTotal) + total && bytesCaptured == old(bytesCaptured) + |Data(chain)|
      ensures seqNo + old(dropped) == old(seqNo) + |chain| + dropped
      ensures (forall i :: reserveOk(i)) ==> chain != [] && dropped == old(dropped)
      ensures cursorFree && (forall i :: reserveOk(i)) && (forall i :: readOk(i)) ==>
                var most := Min(Min(if headersMode then Min(capBudget, 64) else capBudget, total), |Flat(segs)|);
                && (|chain| < 8 || Records(segs, most) <= 8 ==> |Data(chain)| == most)
                && (|segs| == 1 ==> |Data(chain)| == Min(most, 32768))
      ensures forall i :: 0 <= i < |chain| ==>
                && (chain[i].gap <==> i == 0 && old(gapPending))
                && (chain[i].trunc <==>
                      Min(if headersMode then Min(capBudget, 64) else capBudget, |Flat(segs)|) < total
                      || (chain[i].payload == [] && total > 0))
      ensures gapPending <==> dropped > old(dropped)
    {
      hide Chain, Data, Flat, Capture, Records;
      bytesTotal := bytesTotal + total;
      var avail := AvailTotal(segs);
      var budget := capBudget;
      if headersMode && budget > HEADERS_LIMIT { budget := HEADERS_LIMIT; }
      if budget > total { budget := total; }
      if budget > avail { budget := avail; }
      var trunc := budget < total;
      assert budget == Min(Wanted(total, capBudget, headersMode), |Flat(segs)|);
      CapturesAll(total, segs, capBudget, headersMode, reserveOk, readOk);
      if budget != 0 && cursorFree {
        chain := EmitChain(dir, total, segs, budget, trunc, reserveOk, readOk);
      } else {
        CaptureNone(segs, 0, 0, reserveOk, readOk);
        chain := EmitEmpty(dir, total, trunc || (budget != 0 && total > 0), reserveOk(0));
      }
    }

    /** Nothing can be captured: one empty record keeps the size honest. */
    method EmitEmpty(dir: Dir, total: nat, trunc: bool, reserveOk: bool) returns (ghost chain: seq<Record>)
      modifies this
      ensures ring == old(ring) + chain && Chain(chain, dir, total, old(seqNo)) && Data(chain) == []
      ensures |chain| == (if reserveOk then 1 else 0) && dropped == old(dropped) + 1 - |chain|
      ensures seqNo == old(seqNo) + 1 && bytesTotal == old(bytesTotal) && bytesCaptured == old(bytesCaptured)
      ensures chain != [] ==> chain[0].gap == old(gapPending) && chain[0].payload == []
      ensures chain != [] ==> (chain[0].trunc <==> trunc || total > 0)
      ensures gapPending <==> !reserveOk
    {
      var done := EmitChunk(dir, total, 0, [], trunc, CHUNK_SMALL, reserveOk, true);
      chain := [];
      if done >= 0 {
        chain := [ring[|ring| - 1]];
        ChainSnoc([], ring[|ring| - 1], dir, total, old(seqNo));
        assert [] + chain == chain;
      }
    }
  }

  /** Every record says whether the call is captured in part, or itself shows nothing. */
  predicate Flagged(chain: seq<Record>, trunc: bool, total: nat)
  {
    forall i :: 0 <= i < |chain| ==> (chain[i].trunc <==> trunc || (chain[i].payload == [] && total > 0))
  }

  /** The decrypted channel of a connection: its own numbering, and no gap flag. */
  class Tls {
    var seqNo: nat
    var reserveFailed: nat
    var ring: seq<Record>
    var bytesTotal: nat
    var bytesDecrypted: nat

    constructor ()
      ensures seqNo == reserveFailed == bytesTotal == bytesDecrypted == 0 && ring == []
    {
      seqNo, reserveFailed, bytesTotal, bytesDecrypted := 0, 0, 0, 0;
      ring := [];
    }

    /** emit_ssl_chunk. */
    method EmitSslChunk(dir: Dir, total: nat, off: nat, src: seq<Byte>, trunc: bool, chunkSize: nat, reserveOk: bool,
                        readOk: bool)
      returns (done: int)
      modifies this
      ensures seqNo == old(seqNo) + 1 && bytesTotal == old(bytesTotal)
      ensures !reserveOk ==> done == -1 && ring == old(ring) && reserveFailed == old(reserveFailed) + 1
                             && bytesDecrypted == old(bytesDecrypted)
      ensures reserveOk ==>
                && done == (if readOk then Min(|src|, chunkSize) else 0)
                && ring == old(ring) + [Record(dir, old(seqNo), total, off, src[..done],
                                               trunc || (done == 0 && total > 0), false)]
                && reserveFailed == old(reserveFailed) && bytesDecrypted == old(bytesDecrypted) + done
    {
      var s := seqNo;
      seqNo := seqNo + 1;
      if !reserveOk {
        reserveFailed := reserveFailed + 1;
        return -1;
      }
      var cap := if |src| > chunkSize then chunkSize else |src|;
      if cap != 0 && !readOk {
        cap := 0;
      }
      ring := ring + [Record(dir, s, total, off, src[..cap], trunc || (cap == 0 && total > 0), false)];
      bytesDecrypted := bytesDecrypted + cap;
      return cap;
    }

    /** The chunk loop of emit_ssl_data: a straight walk over the buffer. */
    method EmitSslChain(dir: Dir, total: nat, buf: seq<Byte>, planned: nat, trunc: bool, reserveOk: nat -> bool,
                        readOk: nat -> bool)
      returns (ghost chain: seq<Record>)
      requires 0 < planned <= |buf| == total
      modifies this
      ensures ring == old(ring) + chain && Chain(chain, dir, total, old(seqNo))
      ensures Data(chain) <= buf && |Data(chain)| <= planned && |chain| <= MAX_CHUNKS
      ensures bytesTotal == old(bytesTotal) && bytesDecrypted == old(bytesDecrypted) + |Data(chain)|
      ensures seqNo + old(reserveFailed) == old(seqNo) + |chain| + reserveFailed
      ensures (forall i :: reserveOk(i)) && (forall i :: readOk(i)) ==> |Data(chain)| == Min(planned, 32768)
      ensures Flagged(chain, trunc, total)
    {
      hide Chain, Data, Flagged;
      chain := [];
      NoData(dir, total, seqNo);
      assert Flagged(chain, trunc, total) by { NoFlags(trunc, total); }
      var pos: nat, budget: nat, c: nat := 0, planned, 0;
      while c < MAX_CHUNKS
        invariant c <= MAX_CHUNKS && |chain| == c && (c > 0 ==> pos > 0) && pos + budget == planned
        invariant Data(chain) == buf[..pos] && Chain(chain, dir, total, old(seqNo)) && ring == old(ring) + chain
        invariant seqNo == old(seqNo) + c && reserveFailed == old(reserveFailed)
        invariant bytesTotal == old(bytesTotal) && bytesDecrypted == old(bytesDecrypted) + pos
        invariant Flagged(chain, trunc, total)
        invariant budget > 0 ==> pos == c * CHUNK_FULL
        invariant pos <= c * CHUNK_FULL
      {
        if budget == 0 { break; }
        var cap := if budget > CHUNK_FULL then CHUNK_FULL else budget;
        var src := buf[pos..pos + cap];
        var done := EmitSslChunk(dir, total, pos, src, trunc, if cap <= CHUNK_SMALL then CHUNK_SMALL else CHUNK_FULL,
                                 reserveOk(c), readOk(c));
        if done >= 0 {
          ghost var e := ring[|ring| - 1];
          SslOnward(chain, e, dir, total, old(seqNo), buf, pos, cap, done);
          FlaggedOnward(chain, e, trunc, total);
          chain := chain + [e];
        }
        if done <= 0 { break; }
        pos, budget, c := pos + done, budget - done, c + 1;
      }
    }

    /** emit_ssl_data: what emit_data_chunks promises, for one contiguous buffer; with
        nothing in the way it captures all that the budget and eight full records hold. */
    method EmitSslData(dir: Dir, total: nat, buf: seq<Byte>, capBudget: nat, cursorFree: bool, reserveOk: nat -> bool,
                       readOk: nat -> bool)
      returns (ghost chain: seq<Record>)
      requires |buf| == total
      modifies this
      ensures ring == old(ring) + chain && Chain(chain, dir, total, old(seqNo))
      ensures Data(chain) <= buf && |Data(chain)| <= Min(capBudget, total) && |chain| <= MAX_CHUNKS
      ensures bytesTotal == old(bytesTotal) + total && bytesDecrypted == old(bytesDecrypted) + |Data(chain)|
      ensures seqNo + old(reserveFailed) == old(seqNo) + |chain| + reserveFailed
      ensures cursorFree && (forall i :: reserveOk(i)) && (forall i :: readOk(i)) ==>
                |Data(chain)| == Min(Min(capBudget, total), 32768)
      ensures Flagged(chain, capBudget < total, total)
    {
      hide Chain, Data;
      bytesTotal := bytesTotal + total;
      var budget := if capBudget > total then total else capBudget;
      var trunc := budget < total;
      if budget != 0 && cursorFree {
        chain := EmitSslChain(dir, total, buf, budget, trunc, reserveOk, readOk);
      } else {
        chain := EmitSslEmpty(dir, total, trunc || (budget != 0 && total > 0), reserveOk(0));
      }
    }

    /** Nothing can be captured: one empty record keeps the size honest. */
    method EmitSslEmpty(dir: Dir, total: nat, trunc: bool, reserveOk: bool) returns (ghost chain: seq<Record>)
      modifies this
      ensures ring == old(ring) + chain && Chain(chain, dir, total, old(seqNo)) && Data(chain) == []
      ensures |chain| == (if reserveOk then 1 else 0) && reserveFailed == old(reserveFailed) + 1 - |chain|
      ensures seqNo == old(seqNo) + 1 && bytesTotal == old(bytesTotal) && bytesDecrypted == old(bytesDecrypted)
      ensures chain != [] ==> chain[0].payload == [] && (chain[0].trunc <==> trunc || total > 0)
    {
      hide Chain, Data;
      var done := EmitSslChunk(dir, total, 0, [], trunc, CHUNK_SMALL, reserveOk, true);
      chain := [];
      NoData(dir, total, old(seqNo));
      if done >= 0 {
        chain := [ring[|ring| - 1]];
        ChainSnoc([], ring[|ring| - 1], dir, total, old(seqNo));
        assert [] + chain == chain;
      }
    }
  }

  /** A record of the next bytes of a contiguous buffer. */
  lemma SslOnward(chain: seq<Record>, e: Record, dir: Dir, total: nat, first: nat, buf: seq<Byte>, pos: nat, cap: nat,
                  done: nat)
    requires done <= cap && pos + cap <= |buf| && Data(chain) == buf[..pos] && e.payload == buf[pos..pos + cap][..done]
    requires Chain(chain, dir, total, first) && e.dir == dir && e.total == total && e.off == pos &&
             e.seqNo == first + |chain|
    requires chain != [] ==> 0 < e.off < total
    ensures Chain(chain + [e], dir, total, first) && Data(chain + [e]) == buf[..pos + done]
  {
    hide Chain, Data;
    ChainSnoc(chain, e, dir, total, first);
    assert buf[..pos] + buf[pos..pos + cap][..done] == buf[..pos + done];
  }

  lemma NoFlags(trunc: bool, total: nat)
    ensures Flagged([], trunc, total)
  {
  }

  lemma FlaggedOnward(chain: seq<Record>, e: Record, trunc: bool, total: nat)
    requires Flagged(chain, trunc, total) && (e.trunc <==> trunc || (e.payload == [] && total > 0))
    ensures Flagged(chain + [e], trunc, total)
  {
  }

  lemma WholePrefix(segs: seq<seq<Byte>>, si: nat)
    requires si <= |segs|
    ensures si == |segs| ==> Flat(segs[..si]) == Flat(segs)
  {
    if si == |segs| { assert segs[..si] == segs; }
  }

  lemma NoData(dir: Dir, total: nat, first: nat)
    ensures Data([]) == [] && Chain([], dir, total, first)
  {
  }

  /** What is captured of a call, in the numbers of the source. */
  lemma CapturesAll(total: nat, segs: seq<seq<Byte>>, capBudget: nat, headersMode: bool, reserveOk: nat -> bool,
                    readOk: nat -> bool)
    ensures (forall i :: reserveOk(i)) && (forall i :: readOk(i)) ==>
              var most := Min(Min(if headersMode then Min(capBudget, 64) else capBudget, total), |Flat(segs)|);
              var got := Captures(total, segs, capBudget, headersMode, true, reserveOk, readOk);
              && (Records(segs, most) <= 8 ==> got == most)
              && (|segs| == 1 ==> got == Min(most, 32768))
  {
    hide Capture, Records, Flat;
    if (forall i :: reserveOk(i)) && (forall i :: readOk(i)) {
      var most := Min(Min(if headersMode then Min(capBudget, 64) else capBudget, total), |Flat(segs)|);
      if Records(segs, most) <= 8 { CaptureIsAll(segs, most, 0, reserveOk, readOk); }
      if |segs| == 1 {
        FlatOne(segs);
        CaptureOfOne(segs[0], most, 0, reserveOk, readOk);
      }
    }
  }

  lemma FlatOne(segs: seq<seq<Byte>>)
    requires |segs| == 1
    ensures segs == [segs[0]] && Flat(segs) == segs[0]
  {
    assert segs[..0] == [];
    assert Flat([]) == [];
  }

  /** The next slice of a segment extends the captured prefix. */
  lemma Extended(chain: seq<Record>, segs: seq<seq<Byte>>, si: nat, soff: nat, n: nat)
    requires si < |segs| && soff + n <= |segs[si]|
    requires Data(chain) <= Flat(segs) && |Data(chain)| == |Flat(segs[..si])| + soff
    ensures Data(chain) + segs[si][soff..soff + n] <= Flat(segs)
  {
    FlatSplit(segs, si);
    var pre := Flat(segs[..si]);
    var at := |pre| + soff;
    assert Flat(segs)[at..at + n] == (pre + segs[si])[at..at + n] == segs[si][soff..soff + n];
  }
}
