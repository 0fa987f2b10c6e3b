/**
 The registry while its dictionary is not full: every series holds exactly the observations
 of its own fingerprint and class.
 */
module RegistryExact {
  import opened Accumulators
  import opened Registry
  import opened RegistryMeaning
  import opened RegistryPlaces
  import opened RegistryTheorems

  /** The observations of a run that are recorded under a key, in order. */
  function Kept(r: Reg, os: seq<Obs>, door: nat -> nat, key: Key): seq<Obs>
    requires Valid(r) && DoorHash(door)
  {
    if os == [] then []
    else
      var init, o := os[..|os| - 1], os[|os| - 1];
      Kept(r, init, door, key) +
      if Reaches(o) && Placed(Run(r, init, door), o, door).1 == key then [o] else []
  }

  /** Every series holds what was recorded under its key, and there is no other. */
  ghost predicate EachHolds(r: Reg, os: seq<Obs>, door: nat -> nat)
    requires Valid(r) && DoorHash(door)
  {
    forall key :: Holds(Get(Run(r, os, door).store.series, key), Kept(r, os, door, key), r.firstRowOn)
  }

  /** An observation that is not in the way of anybody adds to its own series only. */
  lemma ObserveAdds(r: Reg, o: Obs, door: nat -> nat, key: Key)
    requires Valid(r) && DoorHash(door) && Recorded(o)
    requires Resolves(o) ==> o.fp in r.dict.index || |r.dict.index| < r.k
    ensures var (a, b) := (Get(r.store.series, key), Get(Observe(r, o, door).store.series, key));
            b == if key == Placed(r, o, door).1 then Add(a, Record(ZERO, o, r.firstRowOn)) else a
  {
    hide Valid, Add, Record, Resolve, ClassOf, Resolves, Observe, Placed;
    ObserveRecords(r, o, door);
    PlacedSeries(r, o, door);
    var s := Interned(r, o);
    assert s.dict == r.dict && s.k == r.k;
    StoreStays(r, o, door);
    var (r1, mine) := Placed(r, o, door);
    RecordIsAdd(Get(r1.store.series, mine), o, r.firstRowOn);
  }

  lemma StoreStays(r: Reg, o: Obs, door: nat -> nat)
    requires Valid(r) && DoorHash(door) && Recorded(o)
    requires Resolves(o) ==> o.fp in r.dict.index || |r.dict.index| < r.k
    ensures Placed(r, o, door).0.store == r.store
  {
    hide Valid, Resolve, ClassOf;
    InternedValid(r, o);
    if Resolves(o) {
      if o.fp in r.dict.index {
        KnownKeeps(Interned(r, o), o.fp, door);
      } else {
        RoomAdmits(Interned(r, o), o.fp, door);
      }
    }
  }

  lemma EachHoldsStep(r: Reg, os: seq<Obs>, door: nat -> nat)
    requires Valid(r) && DoorHash(door) && os != [] && EachHolds(r, os[..|os| - 1], door)
    requires var p, o := Run(r, os[..|os| - 1], door), os[|os| - 1];
             Resolves(o) ==> o.fp in p.dict.index || |p.dict.index| < p.k
    ensures EachHolds(r, os, door)
  {
    hide Valid, Holds, Observe, Placed, Resolves, Record, Add;
    var init, o := os[..|os| - 1], os[|os| - 1];
    var p := Run(r, init, door);
    forall key
      ensures Holds(Get(Run(r, os, door).store.series, key), Kept(r, os, door, key), r.firstRowOn)
    {
      assert Holds(Get(p.store.series, key), Kept(r, init, door, key), r.firstRowOn);
      assert Kept(r, init, door, key) + [] == Kept(r, init, door, key);
      if Recorded(o) {
        ObserveAdds(p, o, door, key);
        HoldsMore(Get(p.store.series, key), Kept(r, init, door, key), o, r.firstRowOn);
      } else {
        ObserveIgnores(p, o, door);
      }
    }
  }

  lemma {:induction false} StaysExact(r: Reg, os: seq<Obs>, door: nat -> nat)
    requires Valid(r) && DoorHash(door) && Settled(r, [], door) && EachHolds(r, [], door) && |Asked(os)| <= r.k
    ensures EachHolds(r, os, door)
    decreases |os|
  {
    hide Valid, Settled, EachHolds, Asked;
    if os == [] {
      assert os == [];
    } else {
      var init, o := os[..|os| - 1], os[|os| - 1];
      AskedFewer(os, |os| - 1);
      StaysExact(r, init, door);
      StaysSettled(r, init, door);
      NextFits(r, os, door);
      EachHoldsStep(r, os, door);
    }
  }

  lemma NextFits(r: Reg, os: seq<Obs>, door: nat -> nat)
    requires Valid(r) && DoorHash(door) && os != [] && Settled(r, os[..|os| - 1], door) && |Asked(os)| <= r.k
    ensures var p, o := Run(r, os[..|os| - 1], door), os[|os| - 1];
            Resolves(o) ==> o.fp in p.dict.index || |p.dict.index| < p.k
  {
    hide Valid, Resolves, Asked, SlotAt;
    AskedMore(os);
    var init, o := os[..|os| - 1], os[|os| - 1];
    assert |Run(r, init, door).dict.index| == |Asked(init)|;
    if Resolves(o) && o.fp !in Asked(init) { assert |Asked(os)| == |Asked(init)| + 1; }
  }

  lemma FreshShape(k: nat, maxDims: nat, firstRowOn: bool)
    ensures var r := Fresh(k, maxDims, firstRowOn); r.k == k && r.firstRowOn == firstRowOn
  {
  }

  lemma StartsExact(k: nat, maxDims: nat, firstRowOn: bool, door: nat -> nat)
    requires k > 0 && DoorHash(door) && Valid(Fresh(k, maxDims, firstRowOn))
    ensures EachHolds(Fresh(k, maxDims, firstRowOn), [], door)
  {
    NothingHeld(firstRowOn);
    assert Fresh(k, maxDims, firstRowOn).store.series == map[];
  }

  /** The observations of a run that look a fingerprint up, by class. */
  function OfQuery(r: Reg, os: seq<Obs>, door: nat -> nat, fp: nat, c: Class): seq<Obs>
    requires Valid(r) && DoorHash(door)
  {
    if os == [] then []
    else
      var init, o := os[..|os| - 1], os[|os| - 1];
      OfQuery(r, init, door, fp, c) +
      if Reaches(o) && o.labelled && !o.forceOther && o.fp == fp && ClassOf(Run(r, init, door), o) == c then [o] else []
  }

  /** An observation of a run is placed at the slot of a fingerprint exactly if it looks that
      fingerprint up. */
  lemma PlacedForQuery(r: Reg, os: seq<Obs>, door: nat -> nat, fp: nat, i: nat)
    requires Valid(r) && DoorHash(door) && Settled(r, os, door) && i < |os| && Recorded(os[i])
    requires fp in Run(r, os, door).dict.index
    ensures var key := Placed(Run(r, os[..i], door), os[i], door).1;
            && key.c == ClassOf(Run(r, os[..i], door), os[i])
            && (key.slot == Run(r, os, door).dict.index[fp] <==> Resolves(os[i]) && os[i].fp == fp)
  {
    hide Valid, Observe, Resolve, Asked, NobodyAwaited, ClassOf;
    SlotsDiffer(Run(r, os, door));
    ObserveResolves(Run(r, os[..i], door), os[i], door);
    assert SlotAt(r, os, door, i) == Placed(Run(r, os[..i], door), os[i], door).1.slot;
  }

  lemma {:induction false} KeptOfQuery(r: Reg, os: seq<Obs>, door: nat -> nat, fp: nat, c: Class, n: nat)
    requires Valid(r) && DoorHash(door) && Settled(r, os, door) && fp in Run(r, os, door).dict.index && n <= |os|
    ensures Kept(r, os[..n], door, Key(Run(r, os, door).dict.index[fp], c)) == OfQuery(r, os[..n], door, fp, c)
    decreases n
  {
    hide Valid, Settled, Run, Placed, ClassOf;
    if n > 0 {
      assert os[..n][..n - 1] == os[..n - 1];
      KeptOfQuery(r, os, door, fp, c, n - 1);
      if Recorded(os[n - 1]) { PlacedForQuery(r, os, door, fp, n - 1); }
    }
  }

  lemma KnownSlot(r: Reg, os: seq<Obs>, door: nat -> nat, fp: nat)
    requires Valid(r) && DoorHash(door) && Settled(r, os, door) && fp in Asked(os)
    ensures fp in Run(r, os, door).dict.index && Run(r, os, door).dict.index[fp] < r.k
  {
    hide Valid, Asked, Run, SlotAt, NobodyAwaited;
    SlotsDiffer(Run(r, os, door));
  }

  lemma HeldAt(r: Reg, os: seq<Obs>, door: nat -> nat, key: Key)
    requires Valid(r) && DoorHash(door) && EachHolds(r, os, door)
    ensures Holds(Get(Run(r, os, door).store.series, key), Kept(r, os, door, key), r.firstRowOn)
  {
    hide Valid, Holds, Kept, Run;
  }

  /** With at most `k` fingerprints the metrics are exact per query: over every run from a new
      registry, each fingerprint looked up has a slot of its own, and the series of that slot
      and a class holds exactly the observations of that fingerprint and class. */
  lemma SeriesAreExact(k: nat, maxDims: nat, firstRowOn: bool, os: seq<Obs>, door: nat -> nat, fp: nat, c: Class)
    requires k > 0 && DoorHash(door) && |Asked(os)| <= k && fp in Asked(os)
    ensures Valid(Fresh(k, maxDims, firstRowOn))
    ensures var r := Fresh(k, maxDims, firstRowOn);
            var q := Run(r, os, door);
            && fp in q.dict.index && q.dict.index[fp] < k
            && Holds(Get(q.store.series, Key(q.dict.index[fp], c)), OfQuery(r, os, door, fp, c), firstRowOn)
  {
    hide Valid, Fresh, Asked, Holds, Run, Settled, EachHolds, Kept, OfQuery, Get;
    var r := Fresh(k, maxDims, firstRowOn);
    FreshShape(k, maxDims, firstRowOn);
    StartsSettled(k, maxDims, firstRowOn, door);
    StaysSettled(r, os, door);
    StartsExact(k, maxDims, firstRowOn, door);
    StaysExact(r, os, door);
    KnownSlot(r, os, door, fp);
    assert os[..|os|] == os;
    KeptOfQuery(r, os, door, fp, c, |os|);
    HeldAt(r, os, door, Key(Run(r, os, door).dict.index[fp], c));
  }
}
