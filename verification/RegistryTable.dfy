/**
 The registry of src/metrics/registry.c as it is in memory: the dictionary of module
 Dictionary, the doorkeeper array, and series that are created, added to and folded
 away in place. Every operation is the one of module Registry.
 */
module RegistryTable {
  import opened Accumulators
  import opened Hist
  import opened Registry
  import opened RegistryPlaces
  import opened RegistryTheorems
  import opened Sequences
  import opened SeriesHash
  import opened SeriesStore
  import opened Dictionary

  /** intern_dim and intern_proto: a linear search, then a new position or the spill. */
  method Interning<T(==)>(xs: seq<T>, x: T, max: nat) returns (ys: seq<T>, id: nat)
    ensures (ys, id) == Intern(xs, x, max)
  {
    var i: nat := 0;
    while i < |xs|
      invariant i <= |xs| && Find(xs, x) == i + Find(xs[i..], x)
    {
      if xs[i] == x { return xs, i; }
      i := i + 1;
    }
    if |xs| >= max { return xs, max; }
    return xs + [x], |xs|;
  }

  /** The doorkeeper, with nothing seen. */
  method NewDoor() returns (door: array<nat>)
    ensures fresh(door) && door[..] == Zeros(DOOR_SLOTS)
  {
    door := new nat[DOOR_SLOTS](i => 0);
    assert forall i :: 0 <= i < DOOR_SLOTS ==> door[..][i] == 0 && Zeros(DOOR_SLOTS)[i] == 0;
  }

  class Table {
    const k: nat
    const maxDims: nat
    const firstRowOn: bool
    const slots: Slots
    const door: array<nat>
    const doorHash: nat -> nat
    var dims: seq<(string, string)>
    var protos: seq<string>
    const store: SeriesTable
    var totalObs: nat
    var otherObs: nat

    /** The dictionary, the doorkeeper and the series share no memory. */
    ghost predicate Apart()
      reads store
    {
      && slots in slots.Repr && store in store.Repr && slots.Repr !! store.Repr
      && this !in slots.Repr && this !in store.Repr && door !in slots.Repr && door !in store.Repr
    }

    ghost predicate Parts()
      reads this, door, slots, slots.Repr, store, store.Repr
    {
      Apart() && slots.Valid() && slots.k == k && store.Valid() && DoorHash(doorHash)
    }

    /** The registry this table stands for. */
    ghost function Value(): Reg
      requires Parts()
      reads this, door, slots, slots.Repr, store, store.Repr
    {
      Reg(k, maxDims, firstRowOn, slots.Value(), door[..], dims, protos, store.Value(), totalObs, otherObs)
    }

    ghost predicate Sound()
      reads this, door, slots, slots.Repr, store, store.Repr
    {
      Parts() && Valid(Value())
    }

    /** The parts of a new registry put together. */
    constructor (maxDims: nat, firstRowOn: bool, slots: Slots, door: array<nat>, doorHash: nat -> nat,
                 store: SeriesTable)
      requires slots.Valid() && store.Valid() && DoorHash(doorHash) && door[..] == Zeros(DOOR_SLOTS)
      requires slots in slots.Repr && slots.Repr !! store.Repr && door !in slots.Repr && door !in store.Repr
      requires slots.k > 0 && slots.Value() == Fresh(slots.k, maxDims, firstRowOn).dict
      requires store.Value() == Fresh(slots.k, maxDims, firstRowOn).store
      ensures this.slots == slots && this.door == door && this.store == store
      ensures Sound() && Value() == Fresh(slots.k, maxDims, firstRowOn)
    {
      hide Valid, Slots.Valid, Slots.Value, DoorHash, Down, Zeros, Nils, SeriesTable.Valid, SeriesTable.Value;
      this.k, this.maxDims, this.firstRowOn, this.doorHash := slots.k, maxDims, firstRowOn, doorHash;
      this.slots, this.door, this.store := slots, door, store;
      dims, protos, totalObs, otherObs := [], [], 0, 0;
      new;
      FreshOk(k, maxDims, firstRowOn);
    }

    /** evict_lru and admit. */
    method ReplaceColdest(fp: nat) returns (s: nat)
      requires Sound() && Value().dict.free == [] && fp !in Value().dict.index
      modifies slots.Repr, store.Repr
      ensures old(Value()).dict.order != [] && s == Last(old(Value()).dict.order)
      ensures Sound() && Value() == Replace(old(Value()), fp) && fresh(store.Repr - old(store.Repr))
    {
      hide Valid, DictOk, StoreOk, NoDup, Slots.Valid, Slots.Parts, Slots.Value, FoldSlot, Admitted, Evicted,
           DoorHash, Add;
      hide SeriesTable.Valid, SeriesTable.Value;
      ghost var r := Value();
      ValidFacts(r);
      ReplaceValid(r, fp);
      ReplaceDict(r.dict, k, fp);
      EvictedFacts(r.dict, k, fp);
      var t := slots.Coldest();
      Foldable(t);
      store.FoldSeries(k, t);
      t := slots.Evict();
      s := slots.Admit(fp);
      assert Value() == Replace(r, fp);
    }

    lemma Foldable(t: nat)
      requires Sound() && t < k
      ensures k < |store.lists| && NoDup<Series>(store.lists[t])
    {
      hide DictOk, NoDup, IdleOk, RangesOk, Slots.Valid, Slots.Parts, Slots.Value, SeriesTable.Valid, DoorHash,
           AccsOf, SizesOn;
      var st := store.Value();
      assert Lists(st.series, t, st.lists[t]);
      NamesWithout(store.lists, t);
      DistinctKeys(store.lists[t]);
    }

    /** resolve_query. The slot is `other` exactly for an unknown fingerprint that a full
        dictionary does not expect; else it is the one the index now has for it. */
    method ResolveQuery(fp: nat) returns (s: nat)
      requires Sound()
      modifies door, slots.Repr, store.Repr
      ensures Sound() && (Value(), s) == Resolve(old(Value()), fp, doorHash)
      ensures s == k <==> Unplaced(old(Value()), fp, doorHash)
      ensures s != k ==> StandsFor(Value(), s, fp)
      ensures fresh(store.Repr - old(store.Repr))
    {
      hide Valid, DictOk, StoreOk, NoDup, Slots.Valid, Slots.Parts, Slots.Value, Replace, Admitted, Touched;
      hide SeriesTable.Valid, SeriesTable.Value;
      ghost var r := Value();
      ValidFacts(r);
      ResolveValid(r, fp, doorHash);
      OtherIff(r, fp, doorHash);
      var at := slots.Lookup(fp);
      if at >= 0 { return at; }
      var room := slots.HasRoom();
      if room {
        s := slots.Admit(fp);
        return;
      }
      s := AtTheDoor(fp);
    }

    /** The doorkeeper of a full dictionary: admit on the second appearance. */
    method AtTheDoor(fp: nat) returns (s: nat)
      requires Sound() && Value().dict.free == [] && fp !in Value().dict.index
      modifies door, slots.Repr, store.Repr
      ensures Sound() && (Value(), s) == Resolve(old(Value()), fp, doorHash)
      ensures fresh(store.Repr - old(store.Repr))
    {
      hide Valid, DictOk, StoreOk, NoDup, Slots.Valid, Slots.Parts, Slots.Value, Replace, Admitted, Touched;
      hide SeriesTable.Valid, SeriesTable.Value;
      ValidFacts(Value());
      ResolveValid(Value(), fp, doorHash);
      var key := if fp == 0 then 1 else fp;
      var d := doorHash(key);
      if door[d] == key {
        s := ReplaceColdest(fp);
        door[d] := 0;
        return;
      }
      door[d] := key;
      s := k;
    }

    /** The interning of lk_reg_observe. */
    method InternNames(o: Obs) returns (c: Class)
      requires Sound()
      modifies `dims, `protos
      ensures Sound() && Value() == Interned(old(Value()), o) && c == ClassOf(old(Value()), o)
    {
      hide Valid, DictOk, StoreOk, NoDup, Slots.Valid, Slots.Parts, Slots.Value, Intern, SeriesTable.Valid,
           SeriesTable.Value;
      InternedValid(Value(), o);
      var ds, dim := Interning(dims, (o.db, o.user), maxDims);
      var ps, proto := Interning(protos, ProtoName(o), MAX_PROTOS);
      dims, protos := ds, ps;
      c := Class(dim, proto, if o.error then 1 else 0);
    }

    /** The recording of lk_reg_observe: the series, then the totals. */
    method RecordOne(key: Key, o: Obs)
      requires Sound() && key.slot <= k
      modifies this`totalObs, this`otherObs, store.Repr
      ensures fresh(store.Repr - old(store.Repr)) && Parts() && Value() == Taken(old(Value()), key, o)
    {
      hide Valid, Slots.Valid, Slots.Parts, Slots.Value, Recording, DoorHash, SeriesTable.Valid, SeriesTable.Value;
      ValidFacts(Value());
      store.RecordUnder(key, o, firstRowOn);
      if o.hasDuration {
        totalObs := totalObs + 1;
        if key.slot == k { otherObs := otherObs + 1; }
      }
    }

    /** lk_reg_observe, as far as the dictionary and the series are concerned. */
    method ObserveOne(o: Obs)
      requires Sound()
      modifies this, door, slots.Repr, store.Repr
      ensures Sound() && Value() == Observe(old(Value()), o, doorHash)
      ensures fresh(store.Repr - old(store.Repr))
    {
      hide Valid, Slots.Valid, Slots.Value, Placed, Observe, Interned, ClassOf, Taken, Resolve, DoorHash;
      hide SeriesTable.Valid, SeriesTable.Value, Apart;
      ghost var r := Value();
      ObserveValid(r, o, doorHash);
      ObserveParts(r, o, doorHash);
      if o.internal && o.profile.Internal() { return; }
      var c := InternNames(o);
      if !o.hasDuration && !o.profile.Total() { return; }
      RecordPlaced(o, c);
    }

    /** The slot-keyed part of lk_reg_observe. */
    method RecordPlaced(o: Obs, c: Class)
      requires Sound()
      modifies this`totalObs, this`otherObs, door, slots.Repr, store.Repr
      ensures fresh(store.Repr - old(store.Repr)) && Parts()
      ensures var (q, slot) := Slotted(old(Value()), o, doorHash);
              slot < |q.store.lists| && Value() == Taken(q, Key(slot, c), o)
    {
      hide Parts, Value, Valid, Slotted, Taken, DoorHash;
      var slot := Place(o);
      ValidFacts(Value());
      RecordOne(Key(slot, c), o);
    }

    /** The slot of an observation: that of its fingerprint, or `other`. */
    method Place(o: Obs) returns (slot: nat)
      requires Sound()
      modifies door, slots.Repr, store.Repr
      ensures Sound() && slot <= k == Value().k && fresh(store.Repr - old(store.Repr))
      ensures (Value(), slot) == Slotted(old(Value()), o, doorHash)
    {
      hide Valid, Slots.Valid, Slots.Value, Resolve, DoorHash, SeriesTable.Valid, SeriesTable.Value, Apart;
      slot := k;
      ResolveValid(Value(), o.fp, doorHash);
      if !o.forceOther && o.labelled { slot := ResolveQuery(o.fp); }
    }

    /** lk_reg_series_count_sum. */
    method SeriesCountSum() returns (total: nat)
      requires Sound()
      ensures total == CountSum(Value().store.series)
    {
      hide Valid, Slots.Valid, Slots.Value, DoorHash, CountSum;
      total := store.hash.SumCounts();
    }
  }

  /** lk_reg_new. */
  method NewTable(k: nat, maxDims: nat, firstRowOn: bool, cap: nat, home: nat -> nat, buckets: nat, hash: Key -> nat,
                  doorHash: nat -> nat) returns (t: Table)
    requires 0 < k && 2 * (k + 1) <= cap && (forall fp :: home(fp) < cap) && DoorHash(doorHash)
    requires forall key :: hash(key) < buckets
    ensures t.Sound() && t.Value() == Fresh(k, maxDims, firstRowOn)
    ensures fresh(t) && fresh(t.door) && fresh(t.slots.Repr) && fresh(t.store.Repr)
  {
    hide Valid, Slots.Value, DoorHash, Down, Zeros, Nils, SeriesTable.Valid, SeriesTable.Value, DictOk;
    var slots := new Slots(k, cap, home);
    var door := NewDoor();
    var store := new SeriesTable(k + 1, buckets, hash);
    t := new Table(maxDims, firstRowOn, slots, door, doorHash, store);
  }

  /** The registry with an observation recorded and counted under a key. */
  ghost function Taken(r: Reg, key: Key, o: Obs): Reg
    requires key.slot < |r.store.lists|
  {
    var timed := if o.hasDuration then 1 else 0;
    r.(store := Recording(r.store, key, o, r.firstRowOn), totalObs := r.totalObs + timed,
       otherObs := r.otherObs + if key.slot == r.k then timed else 0)
  }

  /** The registry and the slot an observation is recorded in. */
  ghost function Slotted(r: Reg, o: Obs, door: nat -> nat): (Reg, nat)
    requires Valid(r) && DoorHash(door)
  {
    if o.forceOther || !o.labelled then (r, r.k) else Resolve(r, o.fp, door)
  }

  /** lk_reg_observe step by step: intern, place, record. */
  lemma ObserveParts(r: Reg, o: Obs, door: nat -> nat)
    requires Valid(r) && DoorHash(door)
    ensures Valid(Interned(r, o))
    ensures o.internal && o.profile.Internal() ==> Observe(r, o, door) == r
    ensures !(o.internal && o.profile.Internal()) && !Recorded(o) ==> Observe(r, o, door) == Interned(r, o)
    ensures Recorded(o) ==>
              var (q, slot) := Slotted(Interned(r, o), o, door);
              slot < |q.store.lists| && Observe(r, o, door) == Taken(q, Key(slot, ClassOf(r, o)), o)
  {
    hide Recording, Resolve, ClassOf, Valid;
    InternedValid(r, o);
    PlacedValid(r, o, door);
    ValidFacts(Placed(r, o, door).0);
    SlottedKeeps(Interned(r, o), o, door);
    InternedKeeps(r, o);
  }

  lemma InternedKeeps(r: Reg, o: Obs)
    ensures var q := Interned(r, o); q.k == r.k && q.firstRowOn == r.firstRowOn
  {
  }

  lemma SlottedKeeps(r: Reg, o: Obs, door: nat -> nat)
    requires Valid(r) && DoorHash(door)
    ensures var q := Slotted(r, o, door).0; q.k == r.k && q.firstRowOn == r.firstRowOn
  {
    hide Valid, FoldSlot, Admitted, Evicted, Touched;
  }

  lemma EvictedFacts(d: Dict, k: nat, fp: nat)
    requires DictOk(d, k) && d.order != [] && Last(d.order) < |d.fps| && fp !in d.index
    ensures Evicted(d).free != [] && Last(Evicted(d).free) == Last(d.order) && fp !in Evicted(d).index
  {
  }
}
