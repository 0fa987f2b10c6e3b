/**
 The slot and generation protocol of src/agent/loop.c: handlers come and go while a batch
 of events is being dispatched, and no event reaches a handler it was not meant for.
 */
module EventLoop {

  const MAX_FDS: nat := 32

  /** lk_loop_fd; `reg` stands for the registration's handler and context. */
  datatype Slot = Slot(fd: int, reg: nat, active: bool, freedGen: nat)

  const FREE_SLOT := Slot(0, 0, false, 0)

  /** lk_loop; `regs` numbers the registrations. */
  datatype Loop = Loop(slots: seq<Slot>, gen: nat, dispatching: bool, regs: nat)

  /** What a handler may do: add a descriptor, which the kernel may refuse, or drop one. */
  datatype Op = Add(fd: int, accepted: bool) | Del(fd: int)

  predicate Usable(s: Slot, gen: nat) { !s.active && s.freedGen != gen }

  /** alloc_slot: the first slot that is free and not on hold. */
  function Alloc(slots: seq<Slot>, gen: nat): (i: nat)
    ensures i <= |slots| && (i < |slots| ==> Usable(slots[i], gen)) && forall j :: 0 <= j < i ==> !Usable(slots[j], gen)
  {
    if slots == [] || Usable(slots[0], gen) then 0 else 1 + Alloc(slots[1..], gen)
  }

  predicate Serves(s: Slot, fd: int) { s.active && s.fd == fd }

  /** find_slot: the slot that serves a descriptor. */
  function FindSlot(slots: seq<Slot>, fd: int): (i: nat)
    ensures i <= |slots| && (i < |slots| ==> Serves(slots[i], fd)) && forall j :: 0 <= j < i ==> !Serves(slots[j], fd)
  {
    if slots == [] || Serves(slots[0], fd) then 0 else 1 + FindSlot(slots[1..], fd)
  }

  /** add_masked and lk_loop_del_fd. The kernel accepts a descriptor only once. */
  function Apply(l: Loop, op: Op): Loop
  {
    match op
    case Add(fd, accepted) =>
      var i := Alloc(l.slots, l.gen);
      if i == |l.slots| then l
      else
        var taken := l.slots[i].(fd := fd, reg := l.regs);
        if accepted && FindSlot(l.slots, fd) == |l.slots|
        then l.(slots := l.slots[i := taken.(active := true)], regs := l.regs + 1)
        else l.(slots := l.slots[i := taken], regs := l.regs + 1)
    case Del(fd) =>
      var i := FindSlot(l.slots, fd);
      if i == |l.slots| then l
      else l.(slots := l.slots[i := l.slots[i].(active := false, freedGen := if l.dispatching then l.gen else 0)])
  }

  function ApplyAll(l: Loop, ops: seq<Op>): Loop
  {
    if ops == [] then l else Apply(ApplyAll(l, ops[..|ops| - 1]), ops[|ops| - 1])
  }

  /** One event of a batch: the slot epoll reported, what its handler does if it runs,
      and whether it reports an error. */
  datatype Ready = Ready(slot: nat, ops: seq<Op>, fails: bool)

  /** The dispatch loop over a batch: the loop afterwards, the registrations that ran,
      each with its slot, and whether a handler failed, which ends the batch. */
  datatype Dispatched = Dispatched(l: Loop, ran: seq<(nat, nat)>, failed: bool)

  function Dispatch(l: Loop, batch: seq<Ready>): Dispatched
  {
    if batch == [] then Dispatched(l, [], false)
    else
      var d, e := Dispatch(l, batch[..|batch| - 1]), batch[|batch| - 1];
      if d.failed || e.slot >= |d.l.slots| || !d.l.slots[e.slot].active then d
      else Dispatched(ApplyAll(d.l, e.ops), d.ran + [(e.slot, d.l.slots[e.slot].reg)], e.fails)
  }

  /** lk_loop_poll, once epoll_wait has returned a batch. */
  function Poll(l: Loop, batch: seq<Ready>): Dispatched
  {
    var d := Dispatch(l.(gen := l.gen + 1, dispatching := true), batch);
    d.(l := d.l.(dispatching := false))
  }

  // ---- invariants -----------------------------------------------------------

  /** No hold is from the future, and no two active slots serve the same descriptor. */
  ghost predicate LoopOk(l: Loop)
  {
    && l.gen > 0
    && (forall i :: 0 <= i < |l.slots| ==>
          l.slots[i].freedGen <= l.gen && (l.slots[i].active ==> l.slots[i].reg < l.regs))
    && (forall i, j :: 0 <= i < j < |l.slots| && l.slots[i].active && l.slots[j].active ==>
                         l.slots[i].fd != l.slots[j].fd && l.slots[i].reg != l.slots[j].reg)
  }

  /** Since `was`, a registration is still in its slot or the slot is on hold. */
  ghost predicate Fenced(was: seq<Slot>, l: Loop)
  {
    && |was| == |l.slots| && l.dispatching
    && forall i :: 0 <= i < |was| && was[i].active ==> StillOrHeld(was[i], l.slots[i], l.gen)
  }

  predicate StillOrHeld(was: Slot, now: Slot, gen: nat)
  {
    if now.active then now.reg == was.reg && now.fd == was.fd else now.freedGen == gen
  }

  lemma ApplyOk(l: Loop, op: Op)
    requires LoopOk(l)
    ensures LoopOk(Apply(l, op)) && |Apply(l, op).slots| == |l.slots|
  {
    hide Alloc, FindSlot;
  }

  /** Nothing a handler does can put another registration into a slot of the batch. */
  lemma ApplyFenced(was: seq<Slot>, l: Loop, op: Op)
    requires Fenced(was, l)
    ensures Fenced(was, Apply(l, op)) && Apply(l, op).gen == l.gen
  {
    hide Alloc, FindSlot;
  }

  lemma {:induction false} ApplyAllKeeps(was: seq<Slot>, l: Loop, ops: seq<Op>)
    requires LoopOk(l) && Fenced(was, l)
    ensures LoopOk(ApplyAll(l, ops)) && Fenced(was, ApplyAll(l, ops)) && ApplyAll(l, ops).gen == l.gen
  {
    hide LoopOk, Fenced, Apply;
    if ops != [] {
      var p := ops[..|ops| - 1];
      ApplyAllKeeps(was, l, p);
      ApplyOk(ApplyAll(l, p), ops[|ops| - 1]);
      ApplyFenced(was, ApplyAll(l, p), ops[|ops| - 1]);
    }
  }

  /** Every handler that ran was in its slot when the batch was collected. */
  ghost predicate AllMeant(was: seq<Slot>, ran: seq<(nat, nat)>)
  {
    forall i :: 0 <= i < |ran| ==> ran[i].0 < |was| && was[ran[i].0].active && was[ran[i].0].reg == ran[i].1
  }

  lemma {:induction false} DispatchIsMeant(l: Loop, was: seq<Slot>, batch: seq<Ready>)
    requires LoopOk(l) && Fenced(was, l) && forall i :: 0 <= i < |batch| ==>
             batch[i].slot < |was| && was[batch[i].slot].active
    ensures var d := Dispatch(l, batch);
            LoopOk(d.l) && Fenced(was, d.l) && AllMeant(was, d.ran) && d.l.gen == l.gen
  {
    hide LoopOk, ApplyAll;
    if batch != [] {
      var p, e := batch[..|batch| - 1], batch[|batch| - 1];
      assert batch[|batch| - 1].slot < |was| && was[batch[|batch| - 1].slot].active;
      DispatchIsMeant(l, was, p);
      var d := Dispatch(l, p);
      ApplyAllKeeps(was, d.l, e.ops);
    }
  }

  /** No stale dispatch: whatever the handlers add and drop, each one that runs in a batch
      is the registration its slot held when the batch was collected. */
  lemma NoStaleDispatch(l: Loop, batch: seq<Ready>)
    requires LoopOk(l) && forall i :: 0 <= i < |batch| ==> batch[i].slot < |l.slots| && l.slots[batch[i].slot].active
    ensures LoopOk(Poll(l, batch).l) && AllMeant(l.slots, Poll(l, batch).ran) && Poll(l, batch).l.gen == l.gen + 1
  {
    hide Dispatch;
    DispatchIsMeant(l.(gen := l.gen + 1, dispatching := true), l.slots, batch);
  }

  // ---- every handler that is due runs ---------------------------------------

  /** Every event of the batch is for a slot that was in use when it was collected. */
  ghost predicate Collected(was: seq<Slot>, batch: seq<Ready>)
  {
    forall i :: 0 <= i < |batch| ==> batch[i].slot < |was| && was[batch[i].slot].active
  }

  /** The j-th event reaches its handler: no handler that ran before it failed or dropped
      its descriptor. */
  ghost predicate Runs(was: seq<Slot>, batch: seq<Ready>, j: nat)
    requires Collected(was, batch) && j < |batch|
    decreases j
  {
    forall i :: 0 <= i < j && Runs(was, batch, i) ==> !batch[i].fails && Del(was[batch[j].slot].fd) !in batch[i].ops
  }

  /** The slots and registrations of the first `n` events that reach their handlers. */
  ghost function Due(was: seq<Slot>, batch: seq<Ready>, n: nat): seq<(nat, nat)>
    requires Collected(was, batch) && n <= |batch|
  {
    if n == 0 then []
    else
      var s := batch[n - 1].slot;
      Due(was, batch, n - 1) + if Runs(was, batch, n - 1) then [(s, was[s].reg)] else []
  }

  /** A slot of the batch stays in use exactly until its descriptor is dropped. */
  lemma ApplyDrops(was: seq<Slot>, l: Loop, op: Op, i: nat)
    requires LoopOk(l) && Fenced(was, l) && i < |was| && was[i].active
    ensures Apply(l, op).slots[i].active <==> l.slots[i].active && op != Del(was[i].fd)
  {
    hide Alloc, FindSlot;
    assert StillOrHeld(was[i], l.slots[i], l.gen);
  }

  lemma {:induction false} ApplyAllDrops(was: seq<Slot>, l: Loop, ops: seq<Op>, i: nat)
    requires LoopOk(l) && Fenced(was, l) && i < |was| && was[i].active
    ensures |ApplyAll(l, ops).slots| == |was|
    ensures ApplyAll(l, ops).slots[i].active <==> l.slots[i].active && Del(was[i].fd) !in ops
    decreases |ops|
  {
    hide LoopOk, Apply;
    ApplyAllKeeps(was, l, ops);
    if ops != [] {
      var p, op := ops[..|ops| - 1], ops[|ops| - 1];
      assert ops == p + [op];
      ApplyAllKeeps(was, l, p);
      ApplyAllDrops(was, l, p, i);
      ApplyDrops(was, ApplyAll(l, p), op, i);
    }
  }

  /** What is known after the first `n` events: who ran, whether one failed, and which
      slots are still in use. */
  ghost predicate Tracked(was: seq<Slot>, batch: seq<Ready>, n: nat, d: Dispatched)
    requires Collected(was, batch) && n <= |batch|
  {
    && d.ran == Due(was, batch, n)
    && (d.failed <==> exists i :: 0 <= i < n && Runs(was, batch, i) && batch[i].fails)
    && |d.l.slots| == |was|
    && forall s :: 0 <= s < |was| && was[s].active ==>
         (d.l.slots[s].active <==>
           forall i :: 0 <= i < n && Runs(was, batch, i) ==> Del(was[s].fd) !in batch[i].ops)
  }

  lemma {:induction false} DispatchTracks(l: Loop, was: seq<Slot>, batch: seq<Ready>, n: nat)
    requires LoopOk(l) && Fenced(was, l) && Collected(was, batch) && n <= |batch|
    requires forall s :: 0 <= s < |was| && was[s].active ==> l.slots[s].active
    ensures Tracked(was, batch, n, Dispatch(l, batch[..n]))
    decreases n
  {
    hide LoopOk, ApplyAll, Fenced;
    if n == 0 {
      FencedSize(was, l);
    } else {
      var e := batch[n - 1];
      assert batch[..n][..n - 1] == batch[..n - 1] && e.slot < |was| && was[e.slot].active;
      DispatchTracks(l, was, batch, n - 1);
      DispatchIsMeant(l, was, batch[..n - 1]);
      var d := Dispatch(l, batch[..n - 1]);
      TrackOne(was, batch, n, d, Dispatch(l, batch[..n]));
    }
  }

  lemma FencedSize(was: seq<Slot>, l: Loop)
    requires Fenced(was, l)
    ensures |was| == |l.slots|
  {
  }

  lemma TrackOne(was: seq<Slot>, batch: seq<Ready>, n: nat, d: Dispatched, after: Dispatched)
    requires Collected(was, batch) && 0 < n <= |batch| && Tracked(was, batch, n - 1, d)
    requires LoopOk(d.l) && Fenced(was, d.l) && AllMeant(was, d.ran)
    requires var e := batch[n - 1];
             after == if d.failed || e.slot >= |d.l.slots| || !d.l.slots[e.slot].active then d
                      else Dispatched(ApplyAll(d.l, e.ops), d.ran + [(e.slot, d.l.slots[e.slot].reg)], e.fails)
    ensures Tracked(was, batch, n, after)
  {
    hide LoopOk, ApplyAll;
    var e := batch[n - 1];
    assert Runs(was, batch, n - 1) <==> !d.failed && d.l.slots[e.slot].active;
    assert StillOrHeld(was[e.slot], d.l.slots[e.slot], d.l.gen);
    forall s | 0 <= s < |was| && was[s].active
      ensures |ApplyAll(d.l, e.ops).slots| == |was|
      ensures ApplyAll(d.l, e.ops).slots[s].active <==> d.l.slots[s].active && Del(was[s].fd) !in e.ops
    {
      ApplyAllDrops(was, d.l, e.ops, s);
    }
    hide Fenced, AllMeant, StillOrHeld;
  }

  /** A batch runs exactly the handlers that are due, in the order of the events and each
      as often as it was reported: all but those whose descriptor an earlier one dropped,
      up to the first failure. */
  lemma DispatchIsExact(l: Loop, batch: seq<Ready>)
    requires LoopOk(l) && Collected(l.slots, batch)
    ensures Poll(l, batch).ran == Due(l.slots, batch, |batch|)
    ensures Poll(l, batch).failed <==> exists i :: 0 <= i < |batch| && Runs(l.slots, batch, i) && batch[i].fails
  {
    hide Dispatch, Due, Runs;
    assert batch[..|batch|] == batch;
    DispatchTracks(l.(gen := l.gen + 1, dispatching := true), l.slots, batch, |batch|);
  }

  /** A descriptor that the kernel accepts is served from now on, by a slot that was free
      and not on hold, under a registration of its own; if there is no such slot, nothing
      changes. No other slot is touched. */
  lemma AddedIsServed(l: Loop, fd: int)
    requires LoopOk(l) && forall i :: 0 <= i < |l.slots| ==> !Serves(l.slots[i], fd)
    ensures var (a, u) := (Apply(l, Add(fd, true)), FindSlot(Apply(l, Add(fd, true)).slots, fd));
            if exists i :: 0 <= i < |l.slots| && Usable(l.slots[i], l.gen) then
              && u < |l.slots| == |a.slots| && Usable(l.slots[u], l.gen) && a.slots[u].reg == l.regs
              && forall j :: 0 <= j < |l.slots| && j != u ==> a.slots[j] == l.slots[j]
            else a == l
  {
    hide LoopOk, FindSlot, Alloc;
    var i := Alloc(l.slots, l.gen);
    if i < |l.slots| { assert Serves(Apply(l, Add(fd, true)).slots[i], fd); }
  }

  /** Once the next batch begins, every free slot can be handed out again. */
  lemma HoldsEnd(l: Loop)
    requires LoopOk(l)
    ensures forall i :: 0 <= i < |l.slots| && !l.slots[i].active ==> Usable(l.slots[i], l.gen + 1)
  {
  }

  /** The hold: a descriptor dropped during a batch leaves its slot unusable for the rest
      of the batch, and usable in the next. */
  lemma DroppedSlotIsHeld(l: Loop, fd: int)
    requires LoopOk(l) && l.dispatching && FindSlot(l.slots, fd) < |l.slots|
    ensures var i := FindSlot(l.slots, fd);
            var d := Apply(l, Del(fd));
            && !Usable(d.slots[i], l.gen) && Usable(d.slots[i], l.gen + 1)
            && FindSlot(d.slots, fd) == |l.slots|
  {
    hide FindSlot;
  }

  // ---- the table as it is in memory -----------------------------------------

  class Table {
    const fds: array<Slot>
    var gen: nat
    var dispatching: bool
    var regs: nat

    ghost function Value(): Loop
      reads this, fds
    {
      Loop(fds[..], gen, dispatching, regs)
    }

    /** The part of lk_loop_new that sets up the slots. */
    constructor ()
      ensures LoopOk(Value()) && fds.Length == MAX_FDS && fresh(fds) && gen == 1
    {
      fds := new Slot[MAX_FDS](i => FREE_SLOT);
      gen, dispatching, regs := 1, false, 0;
    }

    /** alloc_slot. */
    method AllocSlot() returns (i: nat)
      ensures i == Alloc(fds[..], gen)
    {
      i := 0;
      while i < fds.Length
        invariant i <= fds.Length && Alloc(fds[..], gen) == i + Alloc(fds[i..], gen)
      {
        assert fds[i..][1..] == fds[i + 1..];
        if !fds[i].active && fds[i].freedGen != gen { return; }
        i := i + 1;
      }
    }

    /** find_slot. */
    method Find(fd: int) returns (i: nat)
      ensures i == FindSlot(fds[..], fd)
    {
      i := 0;
      while i < fds.Length
        invariant i <= fds.Length && FindSlot(fds[..], fd) == i + FindSlot(fds[i..], fd)
      {
        assert fds[i..][1..] == fds[i + 1..];
        if fds[i].active && fds[i].fd == fd { return; }
        i := i + 1;
      }
    }

    /** add_masked; `accepted` is what epoll_ctl answers for a new descriptor. */
    method AddFd(fd: int, accepted: bool)
      modifies this`regs, fds
      ensures Value() == Apply(old(Value()), Add(fd, accepted))
    {
      hide Alloc, FindSlot;
      var i := AllocSlot();
      if i == fds.Length { return; }
      var at := Find(fd);
      fds[i] := fds[i].(fd := fd, reg := regs);
      regs := regs + 1;
      if accepted && at == fds.Length {
        fds[i] := fds[i].(active := true);
      }
    }

    /** lk_loop_del_fd. */
    method DelFd(fd: int)
      modifies fds
      ensures Value() == Apply(old(Value()), Del(fd))
    {
      hide Alloc, FindSlot;
      var i := Find(fd);
      if i == fds.Length { return; }
      fds[i] := fds[i].(active := false, freedGen := if dispatching then gen else 0);
    }

    /** What a handler does to the table. */
    method Handle(ops: seq<Op>)
      modifies this`regs, fds
      ensures Value() == ApplyAll(old(Value()), ops)
    {
      hide Apply;
      var k := 0;
      assert ops[..0] == [];
      while k < |ops|
        invariant 0 <= k <= |ops| && Value() == ApplyAll(old(Value()), ops[..k])
      {
        match ops[k] {
          case Add(fd, accepted) => AddFd(fd, accepted);
          case Del(fd) => DelFd(fd);
        }
        assert ops[..k + 1][..k] == ops[..k];
        k := k + 1;
      }
      assert ops[..k] == ops;
    }

    /** lk_loop_poll over a batch: every handler that runs is the registration that was
        active in its slot when the batch was collected. */
    method PollBatch(batch: seq<Ready>) returns (ran: seq<(nat, nat)>)
      requires LoopOk(Value())
      requires forall i :: 0 <= i < |batch| ==> batch[i].slot < fds.Length && fds[batch[i].slot].active
      modifies this, fds
      ensures LoopOk(Value()) && ran == Poll(old(Value()), batch).ran && Value() == Poll(old(Value()), batch).l
      ensures AllMeant(old(fds[..]), ran) && ran == Due(old(fds[..]), batch, |batch|)
    {
      hide LoopOk, ApplyAll, AllMeant, Due;
      NoStaleDispatch(Value(), batch);
      DispatchIsExact(Value(), batch);
      gen := gen + 1;
      dispatching := true;
      ghost var l := Value();
      ran := [];
      var k, failed := 0, false;
      assert batch[..0] == [];
      while k < |batch| && !failed
        invariant 0 <= k <= |batch| && Dispatched(Value(), ran, failed) == Dispatch(l, batch[..k])
      {
        assert batch[..k + 1][..k] == batch[..k];
        var e := batch[k];
        if e.slot < fds.Length && fds[e.slot].active {
          ran := ran + [(e.slot, fds[e.slot].reg)];
          Handle(e.ops);
          failed := e.fails;
        }
        k := k + 1;
      }
      FailureEnds(l, batch, k);
      dispatching := false;
    }
  }

  lemma {:induction false} FailureEnds(l: Loop, batch: seq<Ready>, k: nat)
    requires k <= |batch| && (k == |batch| || Dispatch(l, batch[..k]).failed)
    ensures Dispatch(l, batch) == Dispatch(l, batch[..k])
    decreases |batch|
  {
    if k == |batch| {
      assert batch[..k] == batch;
    } else {
      var p := batch[..|batch| - 1];
      assert p[..k] == batch[..k];
      FailureEnds(l, p, k);
    }
  }
}
