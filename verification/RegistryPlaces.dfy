/**
 Where observations go: which slot a fingerprint is resolved to, which class an
 observation belongs to, and which observations `other` gets, for single resolutions
 and over whole runs.
 */
module RegistryPlaces {
  import opened Accumulators
  import opened Registry
  import opened RegistryTheorems
  import opened Sequences

  // ---- one resolution -------------------------------------------------------

  /** The doorkeeper cell of the fingerprint holds its key. */
  predicate Awaited(r: Reg, fp: nat, door: nat -> nat)
    requires |r.door| == DOOR_SLOTS && DoorHash(door)
  {
    r.door[door(if fp == 0 then 1 else fp)] == if fp == 0 then 1 else fp
  }

  /** Unknown to a full dictionary and not expected by the doorkeeper. */
  ghost predicate Unplaced(r: Reg, fp: nat, door: nat -> nat)
    requires Valid(r) && DoorHash(door)
  {
    fp !in r.dict.index && |r.dict.index| == r.k && !Awaited(r, fp, door)
  }

  /** The slot is one of the dictionary's and the index has it for the fingerprint. */
  predicate StandsFor(r: Reg, slot: nat, fp: nat) { slot < r.k && fp in r.dict.index && r.dict.index[fp] == slot }

  /** `v` was resolved earlier than every other fingerprint of the dictionary. */
  ghost predicate Coldest(r: Reg, n: Notes, v: nat)
  {
    && v in r.dict.index && r.dict.index[v] in n.stamp
    && forall x :: x in r.dict.index && x != v ==>
         r.dict.index[x] in n.stamp && n.stamp[r.dict.index[v]] < n.stamp[r.dict.index[x]]
  }

  lemma {:induction false} IndexSize(order: seq<nat>, fps: seq<nat>, index: map<nat, nat>)
    requires NoDup(order) && forall s :: s in order ==> s < |fps| && fps[s] in index && index[fps[s]] == s
    requires forall fp :: fp in index ==> index[fp] in order && fps[index[fp]] == fp
    ensures |index| == |order|
    decreases |order|
  {
    if order == [] {
      assert index.Keys == {};
    } else {
      var t := Last(order);
      NoDupSplit(Init(order), [t]);
      var rest := index - {fps[t]};
      assert index.Keys == rest.Keys + {fps[t]};
      IndexSize(Init(order), fps, rest);
    }
  }

  /** There is room exactly while fewer than `k` fingerprints are known. */
  lemma RoomIff(r: Reg)
    requires Valid(r)
    ensures r.dict.free != [] <==> |r.dict.index| < r.k
    ensures |r.dict.index| + |r.dict.free| == r.k
  {
    IndexSize(r.dict.order, r.dict.fps, r.dict.index);
  }

  /** Different fingerprints have different slots, none of them `other`. */
  lemma SlotsDiffer(r: Reg)
    requires Valid(r)
    ensures forall x :: x in r.dict.index ==> r.dict.index[x] < r.k
    ensures forall x, y :: x in r.dict.index && y in r.dict.index && r.dict.index[x] == r.dict.index[y] ==> x == y
  {
  }

  /** A known fingerprint gets its own slot, and nobody moves. */
  lemma KnownKeeps(r: Reg, fp: nat, door: nat -> nat)
    requires Valid(r) && DoorHash(door) && fp in r.dict.index
    ensures var (q, slot) := Resolve(r, fp, door);
            slot == r.dict.index[fp] && q.dict.index == r.dict.index && q.door == r.door && q.store == r.store
  {
  }

  /** While there is room, a new fingerprint gets a slot nobody has, and nobody moves. */
  lemma RoomAdmits(r: Reg, fp: nat, door: nat -> nat)
    requires Valid(r) && DoorHash(door) && fp !in r.dict.index && |r.dict.index| < r.k
    ensures var (q, slot) := Resolve(r, fp, door);
            && slot < r.k && (forall x :: x in r.dict.index ==> r.dict.index[x] != slot)
            && q.dict.index == r.dict.index[fp := slot] && q.door == r.door && q.store == r.store
  {
    hide DictOk, StoreOk, IdleOk, RangesOk;
    ValidFacts(r);
    RoomIff(r);
    DictShape(r.dict, r.k);
    IndexInOrder(r.dict, r.k);
  }

  /** An unknown fingerprint at a full dictionary: the doorkeeper decides. */
  lemma DoorDecides(r: Reg, fp: nat, door: nat -> nat)
    requires Valid(r) && DoorHash(door) && fp !in r.dict.index && r.dict.free == []
    ensures var (q, slot) := Resolve(r, fp, door);
            if Awaited(r, fp, door) then slot < r.k && fp in q.dict.index && q.dict.index[fp] == slot
            else slot == r.k && q.dict == r.dict && q.store == r.store && Awaited(q, fp, door)
  {
    hide DictOk, StoreOk, IdleOk, RangesOk, FoldSlot;
    ValidFacts(r);
    ReplaceDict(r.dict, r.k, fp);
    DictShape(r.dict, r.k);
  }

  /** `other` gets a fingerprint exactly if it is unknown, the dictionary is full and the
      doorkeeper does not expect it. Then only its key is left with the doorkeeper. */
  lemma OtherIff(r: Reg, fp: nat, door: nat -> nat)
    requires Valid(r) && DoorHash(door)
    ensures |r.door| == DOOR_SLOTS == |Resolve(r, fp, door).0.door|
    ensures var (q, slot) := Resolve(r, fp, door);
            && (slot == r.k <==> Unplaced(r, fp, door))
            && (slot == r.k ==> q.dict == r.dict && q.store == r.store && Awaited(q, fp, door))
            && (slot != r.k ==> StandsFor(q, slot, fp))
  {
    hide Valid, Resolve, Awaited;
    ValidFacts(r);
    ResolveValid(r, fp, door);
    ValidFacts(Resolve(r, fp, door).0);
    RoomIff(r);
    if fp in r.dict.index {
      KnownKeeps(r, fp, door);
      SlotsDiffer(r);
    } else if r.dict.free != [] {
      RoomAdmits(r, fp, door);
    } else {
      DoorDecides(r, fp, door);
    }
  }

  /** In a full dictionary a fingerprint that the doorkeeper expects takes the slot of the
      one resolved longest ago. Nobody else moves, and the doorkeeper forgets it. */
  lemma ExpectedReplaces(r: Reg, n: Notes, fp: nat, door: nat -> nat) returns (v: nat)
    requires Valid(r) && DoorHash(door) && Disciplined(r, n)
    requires fp !in r.dict.index && |r.dict.index| == r.k && Awaited(r, fp, door)
    ensures Coldest(r, n, v)
    ensures var (q, slot) := Resolve(r, fp, door);
            && slot == r.dict.index[v] && q.dict.index == (r.dict.index - {v})[fp := slot]
            && q.door == r.door[door(if fp == 0 then 1 else fp) := 0]
  {
    hide StoreOk, IdleOk, RangesOk, FoldSlot;
    RoomIff(r);
    ReplaceDict(r.dict, r.k, fp);
    v := r.dict.fps[Last(r.dict.order)];
    LastIsColdest(r, n);
  }

  lemma LastIsColdest(r: Reg, n: Notes)
    requires Valid(r) && Disciplined(r, n) && r.dict.order != []
    ensures Last(r.dict.order) < |r.dict.fps| && Coldest(r, n, r.dict.fps[Last(r.dict.order)])
  {
    hide StoreOk, IdleOk, RangesOk, NoDup;
    var order, t := r.dict.order, Last(r.dict.order);
    var v := r.dict.fps[t];
    assert t in order;
    forall x | x in r.dict.index && x != v
      ensures r.dict.index[x] in n.stamp && n.stamp[r.dict.index[v]] < n.stamp[r.dict.index[x]]
    {
      var i :| 0 <= i < |order| && order[i] == r.dict.index[x];
      assert i != |order| - 1;
      assert NewerThan(n, order[i], order[|order| - 1]);
    }
  }

  // ---- slots over runs ------------------------------------------------------

  /** The slot the i-th observation of a run is recorded under, if it is recorded. */
  function SlotAt(r: Reg, os: seq<Obs>, door: nat -> nat, i: nat): nat
    requires Valid(r) && DoorHash(door) && i < |os|
  {
    Placed(Run(r, os[..i], door), os[i], door).1.slot
  }

  /** The fingerprints that a run looks up. */
  function Asked(os: seq<Obs>): set<nat>
  {
    set i | 0 <= i < |os| && Resolves(os[i]) :: os[i].fp
  }

  lemma AskedMore(os: seq<Obs>)
    requires os != []
    ensures var o := os[|os| - 1];
            Asked(os) == if Resolves(o) then Asked(os[..|os| - 1]) + {o.fp} else Asked(os[..|os| - 1])
  {
    var init := os[..|os| - 1];
    forall x | x in Asked(os)
      ensures x in Asked(init) || (Resolves(os[|os| - 1]) && x == os[|os| - 1].fp)
    {
      var i :| 0 <= i < |os| && Resolves(os[i]) && os[i].fp == x;
      if i < |os| - 1 { assert init[i] == os[i]; }
    }
    forall x | x in Asked(init)
      ensures x in Asked(os)
    {
      var i :| 0 <= i < |init| && Resolves(init[i]) && init[i].fp == x;
      assert os[i] == init[i];
    }
  }

  /** An observation moves the dictionary and the doorkeeper as its resolution does. */
  lemma ObserveResolves(r: Reg, o: Obs, door: nat -> nat)
    requires Valid(r) && DoorHash(door)
    ensures Valid(Interned(r, o))
    ensures var q := Observe(r, o, door);
            if Resolves(o) then
              var (s, slot) := Resolve(Interned(r, o), o.fp, door);
              q.dict == s.dict && q.door == s.door && Placed(r, o, door).1.slot == slot
            else q.dict == r.dict && q.door == r.door && (Recorded(o) ==> Placed(r, o, door).1.slot == r.k)
  {
    hide Valid, Resolve, Recording, ClassOf;
    InternedValid(r, o);
    PlacedValid(r, o, door);
  }

  /** Nobody is expected: the doorkeeper of a dictionary that never was full. */
  predicate NobodyAwaited(r: Reg) { forall d :: 0 <= d < |r.door| ==> r.door[d] == 0 }

  /** While no more than `k` fingerprints were looked up, exactly these are known, each at
      the slot it got whenever it was observed. */
  ghost predicate Settled(r: Reg, os: seq<Obs>, door: nat -> nat)
    requires Valid(r) && DoorHash(door)
  {
    var q := Run(r, os, door);
    && q.dict.index.Keys == Asked(os) && NobodyAwaited(q)
    && forall i :: 0 <= i < |os| && Resolves(os[i]) ==>
         os[i].fp in q.dict.index && q.dict.index[os[i].fp] == SlotAt(r, os, door, i)
  }

  /** One more observation: its slot is the one its fingerprint is known at, and no
      fingerprint moves. */
  lemma OneSettles(p: Reg, o: Obs, door: nat -> nat)
    requires Valid(p) && DoorHash(door) && NobodyAwaited(p)
    requires Resolves(o) ==> o.fp in p.dict.index || |p.dict.index| < p.k
    ensures var q := Observe(p, o, door);
            && NobodyAwaited(q)
            && q.dict.index.Keys == p.dict.index.Keys + (if Resolves(o) then {o.fp} else {})
            && (forall x :: x in p.dict.index ==> q.dict.index[x] == p.dict.index[x])
            && (Resolves(o) ==> q.dict.index[o.fp] == Placed(p, o, door).1.slot)
  {
    hide Valid, Observe, Resolve, Resolves, Placed;
    ObserveResolves(p, o, door);
    var s := Interned(p, o);
    if Resolves(o) && o.fp in p.dict.index {
      KnownKeeps(s, o.fp, door);
    } else if Resolves(o) {
      RoomAdmits(s, o.fp, door);
    }
  }

  lemma SlotBefore(r: Reg, os: seq<Obs>, door: nat -> nat, n: nat, i: nat)
    requires Valid(r) && DoorHash(door) && i < n <= |os|
    ensures os[..n][i] == os[i] && SlotAt(r, os[..n], door, i) == SlotAt(r, os, door, i)
  {
    assert os[..n][..i] == os[..i];
  }

  lemma SettledStep(r: Reg, os: seq<Obs>, door: nat -> nat)
    requires Valid(r) && DoorHash(door) && os != [] && Settled(r, os[..|os| - 1], door) && |Asked(os)| <= r.k
    ensures Settled(r, os, door)
  {
    hide Valid, Observe, Resolves, Asked, SlotAt, NobodyAwaited, Placed;
    var init, o := os[..|os| - 1], os[|os| - 1];
    var p := Run(r, init, door);
    AskedMore(os);
    assert |p.dict.index| == |Asked(init)|;
    if Resolves(o) && o.fp !in Asked(init) { assert |Asked(os)| == |Asked(init)| + 1; }
    OneSettles(p, o, door);
    LastSlot(r, os, door);
    forall i | 0 <= i < |init|
      ensures init[i] == os[i] && SlotAt(r, os, door, i) == SlotAt(r, init, door, i)
    {
      SlotBefore(r, os, door, |os| - 1, i);
    }
  }

  lemma LastSlot(r: Reg, os: seq<Obs>, door: nat -> nat)
    requires Valid(r) && DoorHash(door) && os != []
    ensures SlotAt(r, os, door, |os| - 1) == Placed(Run(r, os[..|os| - 1], door), os[|os| - 1], door).1.slot
  {
  }

  lemma AskedFewer(os: seq<Obs>, n: nat)
    requires n <= |os|
    ensures Asked(os[..n]) <= Asked(os) && |Asked(os[..n])| <= |Asked(os)|
  {
    forall x | x in Asked(os[..n])
      ensures x in Asked(os)
    {
      var i :| 0 <= i < n && Resolves(os[..n][i]) && os[..n][i].fp == x;
      assert os[i].fp == x;
    }
    SubsetSize(Asked(os[..n]), Asked(os));
  }

  lemma SubsetSize<T>(a: set<T>, b: set<T>)
    requires a <= b
    ensures |a| <= |b|
  {
    assert b == a + (b - a);
  }

  lemma {:induction false} StaysSettled(r: Reg, os: seq<Obs>, door: nat -> nat)
    requires Valid(r) && DoorHash(door) && Settled(r, [], door) && |Asked(os)| <= r.k
    ensures Settled(r, os, door)
    decreases |os|
  {
    hide Settled, Asked, Valid;
    if os == [] {
      assert os == [];
    } else {
      AskedFewer(os, |os| - 1);
      StaysSettled(r, os[..|os| - 1], door);
      SettledStep(r, os, door);
    }
  }

  lemma StartsSettled(k: nat, maxDims: nat, firstRowOn: bool, door: nat -> nat)
    requires k > 0 && DoorHash(door)
    ensures Valid(Fresh(k, maxDims, firstRowOn)) && Settled(Fresh(k, maxDims, firstRowOn), [], door)
  {
    FreshOk(k, maxDims, firstRowOn);
  }

  /** No looked-up observation of the run is recorded under `other`. */
  ghost predicate NoneUnderOther(r: Reg, os: seq<Obs>, door: nat -> nat)
    requires Valid(r) && DoorHash(door)
  {
    forall i :: 0 <= i < |os| && Resolves(os[i]) ==> SlotAt(r, os, door, i) != r.k
  }

  /** With at most `k` different fingerprints the dictionary is exact: no looked-up
      observation goes to `other`, and two of them share a slot exactly if they share the
      fingerprint. Recorded observations that are not looked up go to `other`. */
  lemma FewAreExact(k: nat, maxDims: nat, firstRowOn: bool, os: seq<Obs>, door: nat -> nat)
    requires k > 0 && DoorHash(door) && |Asked(os)| <= k
    ensures Valid(Fresh(k, maxDims, firstRowOn))
    ensures var r := Fresh(k, maxDims, firstRowOn);
            && NoneUnderOther(r, os, door)
            && (forall i, j :: 0 <= i < |os| && 0 <= j < |os| && Resolves(os[i]) && Resolves(os[j]) ==>
                 (SlotAt(r, os, door, i) == SlotAt(r, os, door, j) <==> os[i].fp == os[j].fp))
            && (forall i :: 0 <= i < |os| && Recorded(os[i]) && !Resolves(os[i]) ==> SlotAt(r, os, door, i) == k)
  {
    var r := Fresh(k, maxDims, firstRowOn);
    assert r.k == k;
    hide Valid, Fresh, Run, Asked, Resolves, Placed, Observe, Resolve;
    StartsSettled(k, maxDims, firstRowOn, door);
    StaysSettled(r, os, door);
    SlotsDiffer(Run(r, os, door));
    forall i | 0 <= i < |os| && Recorded(os[i]) && !Resolves(os[i])
      ensures SlotAt(r, os, door, i) == k
    {
      ObserveResolves(Run(r, os[..i], door), os[i], door);
    }
  }

  /** A run with more fingerprints than slots has a first observation too many. */
  lemma {:induction false} FirstTooMany(os: seq<Obs>, k: nat) returns (i: nat)
    requires |Asked(os)| > k
    ensures i < |os| && Resolves(os[i]) && |Asked(os[..i])| == k && os[i].fp !in Asked(os[..i])
    decreases |os|
  {
    hide Resolves;
    var init := os[..|os| - 1];
    AskedMore(os);
    if |Asked(init)| > k {
      i := FirstTooMany(init, k);
      assert init[..i] == os[..i] && init[i] == os[i];
    } else {
      i := |os| - 1;
    }
  }

  lemma OneTooMany(r: Reg, os: seq<Obs>, door: nat -> nat, i: nat)
    requires Valid(r) && DoorHash(door) && i < |os| && Resolves(os[i])
    requires Settled(r, os[..i], door) && |Asked(os[..i])| == r.k && os[i].fp !in Asked(os[..i])
    ensures SlotAt(r, os, door, i) == r.k
  {
    hide Valid, Run, Asked, Resolves, Placed, Observe, Resolve;
    var p := Run(r, os[..i], door);
    ObserveResolves(p, os[i], door);
    var s := Interned(p, os[i]);
    ValidFacts(s);
    OtherIff(s, os[i].fp, door);
  }

  /** `other` stays out of it exactly as long as the fingerprints fit: the first one too
      many is recorded under it. */
  lemma NoneUnderOtherIff(k: nat, maxDims: nat, firstRowOn: bool, os: seq<Obs>, door: nat -> nat)
    requires k > 0 && DoorHash(door)
    ensures Valid(Fresh(k, maxDims, firstRowOn))
    ensures NoneUnderOther(Fresh(k, maxDims, firstRowOn), os, door) <==> |Asked(os)| <= k
  {
    var r := Fresh(k, maxDims, firstRowOn);
    assert r.k == k;
    hide Valid, Fresh, Run, Asked, Resolves, Settled, SlotAt;
    StartsSettled(k, maxDims, firstRowOn, door);
    if |Asked(os)| <= k {
      FewAreExact(k, maxDims, firstRowOn, os, door);
    } else {
      var i := FirstTooMany(os, k);
      StaysSettled(r, os[..i], door);
      OneTooMany(r, os, door, i);
    }
  }

  // ---- the counters of observations -----------------------------------------

  /** The timed observations of a run, by position. */
  function Timed(os: seq<Obs>): set<nat> { set i | 0 <= i < |os| && Recorded(os[i]) && os[i].hasDuration }

  /** Those among them that `other` got. */
  ghost function TimedUnderOther(r: Reg, os: seq<Obs>, door: nat -> nat): set<nat>
    requires Valid(r) && DoorHash(door)
  {
    set i | i in Timed(os) && i < |os| && SlotAt(r, os, door, i) == r.k
  }

  lemma TalliesStep(r: Reg, os: seq<Obs>, door: nat -> nat)
    requires Valid(r) && DoorHash(door) && os != []
    ensures var init, at := os[..|os| - 1], |os| - 1;
            && Timed(os) == Timed(init) + (if Recorded(os[at]) && os[at].hasDuration then {at} else {})
            && TimedUnderOther(r, os, door) ==
               TimedUnderOther(r, init, door) +
               (if Recorded(os[at]) && os[at].hasDuration && SlotAt(r, os, door, at) == r.k then {at} else {})
  {
    hide SlotAt, Recorded, Valid;
    var init, at := os[..|os| - 1], |os| - 1;
    forall i: nat | i < at
      ensures init[i] == os[i] && SlotAt(r, os, door, i) == SlotAt(r, init, door, i)
    {
      SlotBefore(r, os, door, at, i);
    }
    assert Timed(os) == Timed(init) + (if Recorded(os[at]) && os[at].hasDuration then {at} else {});
  }

  /** One observation counts once if it is timed, and once more if `other` gets it. */
  lemma ObserveTallies(r: Reg, o: Obs, door: nat -> nat)
    requires Valid(r) && DoorHash(door)
    ensures var (q, timed) := (Observe(r, o, door), Recorded(o) && o.hasDuration);
            && q.totalObs == r.totalObs + (if timed then 1 else 0)
            && q.otherObs == r.otherObs + (if timed && Placed(r, o, door).1.slot == r.k then 1 else 0)
  {
    hide Valid, ClassOf, Recording, FoldSlot, Admitted, Evicted, Touched;
    InternedValid(r, o);
    PlacedValid(r, o, door);
    ValidFacts(r);
  }

  /** The two counters of observations: the timed ones, and those of them under `other`. */
  lemma {:induction false} TalliesAreCounts(r: Reg, os: seq<Obs>, door: nat -> nat)
    requires Valid(r) && DoorHash(door)
    ensures var q := Run(r, os, door);
            && q.totalObs == r.totalObs + |Timed(os)|
            && q.otherObs == r.otherObs + |TimedUnderOther(r, os, door)|
    decreases |os|
  {
    hide Valid, Observe, Recorded, Placed;
    if os == [] {
      assert Timed(os) == {};
      assert TimedUnderOther(r, os, door) == {};
    } else {
      var init, at := os[..|os| - 1], |os| - 1;
      TalliesAreCounts(r, init, door);
      TalliesStep(r, os, door);
      LastSlot(r, os, door);
      ObserveTallies(Run(r, init, door), os[at], door);
      assert at !in Timed(init) && at !in TimedUnderOther(r, init, door);
    }
  }

  // ---- classes --------------------------------------------------------------

  /** The different values of a sequence in order of first appearance. */
  function FirstSeen<T(==)>(xs: seq<T>): (ys: seq<T>)
    ensures (forall x :: x in xs ==> x in ys) && (forall y :: y in ys ==> y in xs)
  {
    if xs == [] then []
    else
      var ys := FirstSeen(Init(xs));
      if Last(xs) in ys then ys else ys + [Last(xs)]
  }

  lemma {:induction false} FirstSeenGrows<T>(xs: seq<T>, zs: seq<T>)
    ensures FirstSeen(xs) <= FirstSeen(xs + zs)
    decreases |zs|
  {
    if zs == [] {
      assert xs + zs == xs;
    } else {
      assert Init(xs + zs) == xs + Init(zs);
      FirstSeenGrows(xs, Init(zs));
    }
  }

  /** The different values of a sequence. */
  function Elements<T(==)>(xs: seq<T>): set<T> { set x | x in xs }

  lemma ElementsMore<T>(xs: seq<T>, x: T)
    ensures Elements(xs + [x]) == Elements(xs) + {x}
  {
  }

  lemma {:induction false} FirstSeenSize<T>(xs: seq<T>)
    ensures |FirstSeen(xs)| == |Elements(xs)|
    decreases |xs|
  {
    if xs == [] {
      assert Elements(xs) == {};
    } else {
      FirstSeenSize(Init(xs));
      ElementsMore(Init(xs), Last(xs));
      assert Last(xs) in Elements(Init(xs)) <==> Last(xs) in FirstSeen(Init(xs));
      if Last(xs) in Elements(Init(xs)) { assert Elements(Init(xs)) + {Last(xs)} == Elements(Init(xs)); }
    }
  }

  /** At least `max` other values appear before `x` does. */
  predicate Late<T(==)>(xs: seq<T>, x: T, max: nat) { Find(FirstSeen(xs), x) >= max }

  function Capped<T>(xs: seq<T>, max: nat): seq<T> { if |xs| <= max then xs else xs[..max] }

  lemma {:induction false} FindInPrefix<T>(xs: seq<T>, ys: seq<T>, x: T)
    requires xs <= ys && x in xs
    ensures Find(ys, x) == Find(xs, x)
    decreases |xs|
  {
    if xs[0] != x { FindInPrefix(xs[1..], ys[1..], x); }
  }

  lemma FirstSeenMore<T>(xs: seq<T>, x: T)
    ensures FirstSeen(xs + [x]) == if x in xs then FirstSeen(xs) else FirstSeen(xs) + [x]
  {
    assert Init(xs + [x]) == xs;
  }

  /** Interning a value into the capped list of those seen: `now` is the list behind it. */
  lemma InternCapped<T>(seen: seq<T>, now: seq<T>, x: T, max: nat)
    requires now == if x in seen then seen else seen + [x]
    ensures var r := Intern(Capped(seen, max), x, max);
            && r.0 == Capped(now, max)
            && r.1 == (if Find(now, x) >= max then max else Find(now, x))
  {
    var capped := Capped(seen, max);
    FindFirst(capped, x);
    FindFirst(now, x);
    if x in capped { FindInPrefix(capped, now, x); }
  }

  /** Interning one more value into the capped list of the values seen. */
  lemma InternStep<T>(xs: seq<T>, x: T, max: nat)
    ensures var r := Intern(Capped(FirstSeen(xs), max), x, max);
            && r.0 == Capped(FirstSeen(xs + [x]), max)
            && r.1 == (if Late(xs + [x], x, max) then max else Find(FirstSeen(xs + [x]), x))
  {
    hide Intern, Capped, Find;
    FirstSeenMore(xs, x);
    InternCapped(FirstSeen(xs), FirstSeen(xs + [x]), x, max);
  }

  /** Observations past the internal surface, which is not interned. */
  predicate Interns(o: Obs) { !(o.internal && o.profile.Internal()) }

  /** The database and user of an observation, and the protocol name it goes by. */
  function Owner(o: Obs): (string, string) { (o.db, o.user) }

  function Speaks(o: Obs): string { if o.proto != "" then o.proto else "pg" }

  function Owners(os: seq<Obs>): seq<(string, string)>
  {
    if os == [] then []
    else Owners(Init(os)) + if Interns(Last(os)) then [Owner(Last(os))] else []
  }

  function Spoken(os: seq<Obs>): seq<string>
  {
    if os == [] then []
    else Spoken(Init(os)) + if Interns(Last(os)) then [Speaks(Last(os))] else []
  }

  /** The class of the i-th observation of a run. */
  function ClassAt(r: Reg, os: seq<Obs>, door: nat -> nat, i: nat): Class
    requires Valid(r) && DoorHash(door) && i < |os|
  {
    ClassOf(Run(r, os[..i], door), os[i])
  }

  /** An observation interns its owner and its protocol, and nothing else does. */
  lemma ObserveInterns(r: Reg, o: Obs, door: nat -> nat)
    requires Valid(r) && DoorHash(door)
    ensures var q := Observe(r, o, door);
            if Interns(o) then q.dims == Intern(r.dims, Owner(o), r.maxDims).0 &&
                               q.protos == Intern(r.protos, Speaks(o), 8).0
            else q.dims == r.dims && q.protos == r.protos
  {
    hide Valid, Recording, Intern, ClassOf;
    InternedValid(r, o);
    PlacedValid(r, o, door);
  }

  /** What is interned after a run: the first different owners and protocols. */
  lemma {:induction false} InternedAfter(r: Reg, os: seq<Obs>, door: nat -> nat)
    requires Valid(r) && DoorHash(door) && r.dims == [] && r.protos == []
    ensures var q := Run(r, os, door);
            && q.dims == Capped(FirstSeen(Owners(os)), r.maxDims)
            && q.protos == Capped(FirstSeen(Spoken(os)), 8)
    decreases |os|
  {
    hide Valid, Observe, Interns, Intern, FirstSeen, Capped;
    if os == [] {
      NothingSeen<(string, string)>(r.maxDims);
      NothingSeen<string>(8);
    } else {
      var o := Last(os);
      assert Init(os) == os[..|os| - 1];
      InternedAfter(r, Init(os), door);
      ObserveInterns(Run(r, Init(os), door), o, door);
      InternStep(Owners(Init(os)), Owner(o), r.maxDims);
      InternStep(Spoken(Init(os)), Speaks(o), 8);
      assert Owners(Init(os)) + [] == Owners(Init(os)) && Spoken(Init(os)) + [] == Spoken(Init(os));
    }
  }

  lemma NothingSeen<T>(max: nat)
    ensures Capped(FirstSeen<T>([]), max) == []
  {
  }

  lemma {:induction false} OwnersGrow(os: seq<Obs>, n: nat) returns (a: seq<(string, string)>, b: seq<string>)
    requires n <= |os|
    ensures Owners(os) == Owners(os[..n]) + a && Spoken(os) == Spoken(os[..n]) + b
    decreases |os|
  {
    if n == |os| {
      assert os[..n] == os;
      a, b := [], [];
    } else {
      assert Init(os)[..n] == os[..n];
      a, b := OwnersGrow(Init(os), n);
      if Interns(Last(os)) { a, b := a + [Owner(Last(os))], b + [Speaks(Last(os))]; }
    }
  }

  /** A value keeps its rank when more are seen. */
  lemma RankStays<T>(xs: seq<T>, zs: seq<T>, x: T, max: nat)
    requires x in xs
    ensures Find(FirstSeen(xs + zs), x) == Find(FirstSeen(xs), x)
    ensures Late(xs + zs, x, max) <==> Late(xs, x, max)
  {
    FirstSeenGrows(xs, zs);
    FindInPrefix(FirstSeen(xs), FirstSeen(xs + zs), x);
  }

  /** The class of an observation by ranks in the whole run. */
  lemma ClassIsRank(r: Reg, os: seq<Obs>, door: nat -> nat, i: nat)
    requires Valid(r) && DoorHash(door) && r.dims == [] && r.protos == [] && i < |os| && Interns(os[i])
    ensures var (c, d, p) := (ClassAt(r, os, door, i), Owner(os[i]), Speaks(os[i]));
            && d in Owners(os) && p in Spoken(os)
            && c.dim == (if Late(Owners(os), d, r.maxDims) then r.maxDims else Find(FirstSeen(Owners(os)), d))
            && c.proto == (if Late(Spoken(os), p, 8) then 8 else Find(FirstSeen(Spoken(os)), p))
            && c.code == (if os[i].error then 1 else 0)
  {
    hide Valid, Run, Interns, Intern, FirstSeen, Capped, Find, Late;
    var o := os[i];
    assert Init(os[..i + 1]) == os[..i] && Last(os[..i + 1]) == o;
    InternedAfter(r, os[..i], door);
    InternStep(Owners(os[..i]), Owner(o), r.maxDims);
    InternStep(Spoken(os[..i]), Speaks(o), 8);
    var a, b := OwnersGrow(os, i + 1);
    RankStays(Owners(os[..i + 1]), a, Owner(o), r.maxDims);
    RankStays(Spoken(os[..i + 1]), b, Speaks(o), 8);
  }

  lemma SameRank<T>(xs: seq<T>, x: T, y: T)
    requires x in xs && y in xs
    ensures Find(FirstSeen(xs), x) == Find(FirstSeen(xs), y) <==> x == y
  {
    FindFirst(FirstSeen(xs), x);
    FindFirst(FirstSeen(xs), y);
  }

  /** Two observations share a dimension exactly if database and user are the same or both
      pairs came too late, a protocol exactly if the names are the same or both came too
      late, and a code exactly if both or none failed. */
  lemma ClassesMeetIff(k: nat, maxDims: nat, firstRowOn: bool, os: seq<Obs>, door: nat -> nat, i: nat, j: nat)
    requires k > 0 && DoorHash(door) && i < |os| && j < |os| && Interns(os[i]) && Interns(os[j])
    ensures Valid(Fresh(k, maxDims, firstRowOn))
    ensures var r := Fresh(k, maxDims, firstRowOn);
            var (a, b, x, y) := (ClassAt(r, os, door, i), ClassAt(r, os, door, j), os[i], os[j]);
            && (a.dim == b.dim <==>
                 || (x.db == y.db && x.user == y.user)
                 || (Late(Owners(os), Owner(x), maxDims) && Late(Owners(os), Owner(y), maxDims)))
            && (a.proto == b.proto <==>
                 Speaks(x) == Speaks(y) || (Late(Spoken(os), Speaks(x), 8) && Late(Spoken(os), Speaks(y), 8)))
            && (a.code == b.code <==> x.error == y.error)
  {
    FreshOk(k, maxDims, firstRowOn);
    var r := Fresh(k, maxDims, firstRowOn);
    assert r.dims == [] && r.protos == [] && r.maxDims == maxDims;
    hide Valid, Fresh, Interns, FirstSeen, Find, ClassAt;
    ClassIsRank(r, os, door, i);
    ClassIsRank(r, os, door, j);
    SameRank(Owners(os), Owner(os[i]), Owner(os[j]));
    SameRank(Spoken(os), Speaks(os[i]), Speaks(os[j]));
  }

  lemma NoneLate<T>(xs: seq<T>, x: T, max: nat)
    requires x in xs && |Elements(xs)| <= max
    ensures !Late(xs, x, max)
  {
    FirstSeenSize(xs);
    FindFirst(FirstSeen(xs), x);
  }

  /** Below the limits the class is exact: two observations share it exactly if they share
      database, user, protocol and whether they failed. */
  lemma ClassesAreExact(k: nat, maxDims: nat, firstRowOn: bool, os: seq<Obs>, door: nat -> nat, i: nat, j: nat)
    requires k > 0 && DoorHash(door) && i < |os| && j < |os| && Interns(os[i]) && Interns(os[j])
    requires |Elements(Owners(os))| <= maxDims && |Elements(Spoken(os))| <= 8
    ensures Valid(Fresh(k, maxDims, firstRowOn))
    ensures var (r, x, y) := (Fresh(k, maxDims, firstRowOn), os[i], os[j]);
            ClassAt(r, os, door, i) == ClassAt(r, os, door, j) <==>
            x.db == y.db && x.user == y.user && Speaks(x) == Speaks(y) && x.error == y.error
  {
    FreshOk(k, maxDims, firstRowOn);
    var r := Fresh(k, maxDims, firstRowOn);
    assert r.dims == [] && r.protos == [];
    hide Valid, Fresh, Interns, Late, FirstSeen, Find, ClassAt;
    ClassesMeetIff(k, maxDims, firstRowOn, os, door, i, j);
    ClassIsRank(r, os, door, i);
    ClassIsRank(r, os, door, j);
    NoneLate(Owners(os), Owner(os[i]), maxDims);
    NoneLate(Spoken(os), Speaks(os[i]), 8);
  }
}
