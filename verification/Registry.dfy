/**
 The series registry of src/metrics/registry.c as values: the top-K dictionary with
 its doorkeeper, the LRU eviction that folds a slot's series into `other`, and the
 series themselves.
 */
module Registry {
  import opened Accumulators
  import opened Hist
  import opened Sequences
  import opened SizeHist

  const MAX_PROTOS: nat := 8
  const DOOR_SLOTS: nat := 2048

  /** What a series is keyed by besides its dictionary slot. */
  datatype Class = Class(dim: nat, proto: nat, code: nat)

  datatype Key = Key(slot: nat, c: Class)

  /** The dictionary: the fingerprint of every slot, the index, the LRU list from most to
      least recently resolved, and the stack of unused slots with its top last. */
  datatype Dict = Dict(fps: seq<nat>, index: map<nat, nat>, order: seq<nat>, free: seq<nat>)

  /** The series, their size histograms where one was allocated, and for every slot the
      list of its series, newest first. */
  datatype Store = Store(series: map<Key, Acc>, sizes: map<Key, Sizes>, lists: seq<seq<Key>>)

  /** The registry. Slot `k` is the permanent `other`. */
  datatype Reg = Reg(k: nat, maxDims: nat, firstRowOn: bool, dict: Dict, door: seq<nat>, dims: seq<(string, string)>,
                     protos: seq<string>, store: Store, totalObs: nat, otherObs: nat)

  // ---- interning ------------------------------------------------------------

  /** intern_dim and intern_proto: the position of a known value, a new position, or the
      spill position `max`. */
  function Intern<T(==)>(xs: seq<T>, x: T, max: nat): (r: (seq<T>, nat))
    ensures |xs| <= max ==> r.1 <= max && |r.0| <= max
    ensures xs <= r.0
  {
    var i := Find(xs, x);
    if i < |xs| then (xs, i)
    else if |xs| >= max then (xs, max)
    else (xs + [x], |xs|)
  }

  // ---- the dictionary -------------------------------------------------------

  /** The free stack and the LRU list hold each of the k slots once; the index holds
      exactly the fingerprints of the slots in the list. */
  ghost predicate DictOk(d: Dict, k: nat)
  {
    && 0 < k == |d.fps| == |d.order| + |d.free|
    && NoDup(d.order) && NoDup(d.free) && (forall s :: s in d.order ==> s !in d.free)
    && (forall s :: s in d.order ==> s < k)
    && (forall s :: s in d.free ==> s < k)
    && (forall s :: s in d.order ==> d.fps[s] in d.index && d.index[d.fps[s]] == s)
    && (forall fp :: fp in d.index ==> d.index[fp] in d.order && d.fps[d.index[fp]] == fp)
  }

  /** lru_touch. */
  function Touched(d: Dict, s: nat): Dict { d.(order := [s] + RemoveFrom(d.order, s)) }

  /** admit: the slot on top of the free stack now stands for `fp`. */
  function Admitted(d: Dict, fp: nat): Dict
    requires d.free != [] && Last(d.free) < |d.fps|
  {
    var s := Last(d.free);
    Dict(d.fps[s := fp], d.index[fp := s], [s] + d.order, Init(d.free))
  }

  /** evict_lru: the coldest slot goes back to the free stack. */
  function Evicted(d: Dict): Dict
    requires d.order != [] && Last(d.order) < |d.fps|
  {
    var t := Last(d.order);
    d.(index := d.index - {d.fps[t]}, order := Init(d.order), free := d.free + [t])
  }

  lemma TouchedOk(d: Dict, k: nat, s: nat)
    requires DictOk(d, k) && s in d.order
    ensures DictOk(Touched(d, s), k)
    ensures forall x :: x in Touched(d, s).order <==> x in d.order
  {
    MovedToFront(d.order, s);
    hide RemoveFrom;
  }

  lemma AdmittedOk(d: Dict, k: nat, fp: nat)
    requires DictOk(d, k) && d.free != [] && fp !in d.index
    ensures DictOk(Admitted(d, fp), k)
  {
    var s := Last(d.free);
    NoDupSplit(Init(d.free), [s]);
    NoDupJoin([s], d.order);
  }

  lemma EvictedOk(d: Dict, k: nat)
    requires DictOk(d, k) && d.order != []
    ensures DictOk(Evicted(d), k)
  {
    var t := Last(d.order);
    NoDupSplit(Init(d.order), [t]);
    NoDupJoin(d.free, [t]);
    forall fp | fp in d.index && fp != d.fps[t]
      ensures d.index[fp] in Init(d.order)
    {
      assert d.index[fp] in d.order && d.fps[d.index[fp]] == fp;
    }
  }

  // ---- the series -----------------------------------------------------------

  function Get(series: map<Key, Acc>, key: Key): Acc
  {
    if key in series then series[key] else ZERO
  }

  /** series_get: find the series or create it empty, at the head of its slot's list. */
  function SeriesGet(st: Store, key: Key): (r: Store)
    requires key.slot < |st.lists|
    ensures |r.lists| == |st.lists| && key in r.series
  {
    if key in st.series then st
    else Store(st.series[key := ZERO], st.sizes, st.lists[key.slot := [key] + st.lists[key.slot]])
  }

  /** series_size: the size histogram of a series, created on the given grid. */
  function SizeOr(sizes: map<Key, Sizes>, key: Key, minLog2: nat, nbuckets: nat): Sizes
    requires nbuckets <= MAX_SIZE_BUCKETS
  {
    if key in sizes then sizes[key] else NoSizes(minLog2, nbuckets)
  }

  function SizesRecorded(sizes: map<Key, Sizes>, key: Key, o: Obs): map<Key, Sizes>
  {
    if !Sized(o) then sizes
    else sizes[key := SizeObserved(SizeOr(sizes, key, o.profile.SizeMinLog2(), o.profile.SizeBuckets()), o.size)]
  }

  /** The sizes of a series are merged into `dst`, whose grid is not known in advance. */
  function SizesFolded(sizes: map<Key, Sizes>, key: Key, dst: Key): map<Key, Sizes>
  {
    if key !in sizes then sizes else sizes[dst := SizeMerged(SizeOr(sizes, dst, 0, 0), sizes[key])] - {key}
  }

  /** Add to a series that exists. */
  function Put(st: Store, key: Key, a: Acc): Store { st.(series := st.series[key := a]) }

  /** One turn of the fold loop of evict_lru: a series is added to its counterpart under
      `other` and unlinked from the hash. */
  function FoldOne(st: Store, other: nat, key: Key): (r: Store)
    requires other < |st.lists|
    ensures |r.lists| == |st.lists|
  {
    var dst := Key(other, key.c);
    var st1 := SeriesGet(st, dst);
    var st2 := Put(st1, dst, Add(st1.series[dst], Get(st1.series, key)));
    st2.(series := st2.series - {key}, sizes := SizesFolded(st2.sizes, key, dst))
  }

  function FoldAll(st: Store, other: nat, ks: seq<Key>): (r: Store)
    requires other < |st.lists|
    ensures |r.lists| == |st.lists|
    decreases |ks|
  {
    if ks == [] then st else FoldAll(FoldOne(st, other, ks[0]), other, ks[1..])
  }

  /** Fold slot `t` into `other` and leave it without series. */
  function FoldSlot(st: Store, other: nat, t: nat): (r: Store)
    requires t < |st.lists| && other < |st.lists|
    ensures |r.lists| == |st.lists|
  {
    var f := FoldAll(st, other, st.lists[t]);
    f.(lists := f.lists[t := []])
  }

  /** Slot `s` lists exactly its own series, once each; `ks` stands in for its list. */
  ghost predicate Lists(series: map<Key, Acc>, s: nat, ks: seq<Key>)
  {
    && NoDup(ks)
    && (forall key :: key in ks ==> key.slot == s && key in series)
    && (forall key :: key in series && key.slot == s ==> key in ks)
  }

  ghost predicate StoreOk(st: Store, k: nat)
  {
    && |st.lists| == k + 1
    && (forall key :: key in st.series ==> key.slot <= k)
    && (forall key :: key in st.sizes ==> key in st.series)
    && (forall s :: 0 <= s <= k ==> Lists(st.series, s, st.lists[s]))
  }

  lemma SeriesGetOk(st: Store, k: nat, key: Key)
    requires StoreOk(st, k) && key.slot <= k
    ensures StoreOk(SeriesGet(st, key), k)
  {
    var r := SeriesGet(st, key);
    if key !in st.series {
      forall s | 0 <= s <= k
        ensures Lists(r.series, s, r.lists[s])
      {
        assert Lists(st.series, s, st.lists[s]);
      }
    }
  }

  lemma PutOk(st: Store, k: nat, key: Key, a: Acc)
    requires StoreOk(st, k) && key in st.series
    ensures StoreOk(Put(st, key, a), k)
  {
    forall s | 0 <= s <= k
      ensures Lists(Put(st, key, a).series, s, st.lists[s])
    {
      assert Lists(st.series, s, st.lists[s]);
    }
  }

  /** Sizes of a series that exists may be replaced. */
  lemma ResizeOk(st: Store, k: nat, key: Key, sizes: map<Key, Sizes>)
    requires StoreOk(st, k) && key in st.series && forall x :: x in sizes ==> x == key || x in st.sizes
    ensures StoreOk(st.(sizes := sizes), k)
  {
  }

  /** The store while the series of slot `t` are being folded away: `ks` are still there. */
  ghost predicate Folding(st: Store, k: nat, t: nat, ks: seq<Key>)
  {
    t < k && |st.lists| == k + 1 && StoreOk(st.(lists := st.lists[t := ks]), k)
  }

  lemma FoldOneOk(st: Store, k: nat, t: nat, ks: seq<Key>)
    requires Folding(st, k, t, ks) && ks != []
    ensures Folding(FoldOne(st, k, ks[0]), k, t, ks[1..])
    ensures forall s :: 0 <= s < k ==> FoldOne(st, k, ks[0]).lists[s] == st.lists[s]
  {
    hide Add, SizeMerged;
    var dst := Key(k, ks[0].c);
    var u := st.(lists := st.lists[t := ks]);
    SeriesGetOk(u, k, dst);
    var st1 := SeriesGet(st, dst);
    assert SeriesGet(u, dst) == st1.(lists := st1.lists[t := ks]);
    PutOk(SeriesGet(u, dst), k, dst, Add(st1.series[dst], Get(st1.series, ks[0])));
    var st2 := Put(st1, dst, Add(st1.series[dst], Get(st1.series, ks[0])));
    assert Folding(st2, k, t, ks);
    UnlinkOk(st2, SizesFolded(st2.sizes, ks[0], dst), k, t, ks);
  }

  lemma UnlinkOk(st: Store, sizes: map<Key, Sizes>, k: nat, t: nat, ks: seq<Key>)
    requires Folding(st, k, t, ks) && ks != []
    requires forall key :: key in sizes ==> key in st.series && key != ks[0]
    ensures Folding(st.(series := st.series - {ks[0]}, sizes := sizes), k, t, ks[1..])
  {
    var r := st.(series := st.series - {ks[0]}, sizes := sizes);
    assert ks == [ks[0]] + ks[1..];
    assert Lists(st.series, t, st.lists[t := ks][t]);
    var lists := r.lists[t := ks[1..]];
    forall s | 0 <= s <= k
      ensures Lists(r.series, s, lists[s])
    {
      assert Lists(st.series, s, st.lists[t := ks][s]);
      if s == t {
        assert forall key :: key in ks[1..] ==> key != ks[0];
      }
    }
  }

  lemma {:induction false} FoldAllOk(st: Store, k: nat, t: nat, ks: seq<Key>)
    requires Folding(st, k, t, ks)
    ensures Folding(FoldAll(st, k, ks), k, t, [])
    ensures forall s :: 0 <= s < k ==> FoldAll(st, k, ks).lists[s] == st.lists[s]
    decreases |ks|
  {
    if ks == [] {
      assert ks == [];
    } else {
      FoldOneOk(st, k, t, ks);
      FoldAllOk(FoldOne(st, k, ks[0]), k, t, ks[1..]);
    }
  }

  lemma FoldSlotOk(st: Store, k: nat, t: nat)
    requires StoreOk(st, k) && t < k
    ensures StoreOk(FoldSlot(st, k, t), k)
    ensures FoldSlot(st, k, t).lists[t] == []
    ensures forall s :: 0 <= s < k && s != t ==> FoldSlot(st, k, t).lists[s] == st.lists[s]
  {
    assert st.lists[t := st.lists[t]] == st.lists;
    FoldAllOk(st, k, t, st.lists[t]);
  }

  // ---- the registry ---------------------------------------------------------

  predicate InRange(c: Class, maxDims: nat) { c.dim <= maxDims && c.proto <= MAX_PROTOS && c.code < 2 }

  /** Only the slots in the LRU list, and `other`, have series. */
  ghost predicate IdleOk(order: seq<nat>, lists: seq<seq<Key>>, k: nat)
  {
    |lists| == k + 1 && forall s :: 0 <= s < k && s !in order ==> lists[s] == []
  }

  ghost predicate RangesOk(st: Store, maxDims: nat)
  {
    forall key :: key in st.series ==> InRange(key.c, maxDims)
  }

  predicate SizesOk(r: Reg)
  {
    |r.door| == DOOR_SLOTS && |r.dims| <= r.maxDims && |r.protos| <= MAX_PROTOS
  }

  ghost predicate Valid(r: Reg)
  {
    && DictOk(r.dict, r.k)
    && StoreOk(r.store, r.k)
    && IdleOk(r.dict.order, r.store.lists, r.k)
    && RangesOk(r.store, r.maxDims)
    && SizesOk(r)
  }

  /** 0 doubles as the empty doorkeeper cell, so fingerprint 0 uses the key of 1. */
  function DoorKey(fp: nat): nat { if fp == 0 then 1 else fp }

  /** A hash of doorkeeper keys. */
  ghost predicate DoorHash(door: nat -> nat) { forall x :: door(x) < DOOR_SLOTS }

  /** evict_lru and admit together, when the doorkeeper recognised the fingerprint. */
  function Replace(r: Reg, fp: nat): Reg
    requires Valid(r) && r.dict.order != []
  {
    var t := Last(r.dict.order);
    r.(dict := Admitted(Evicted(r.dict), fp), store := FoldSlot(r.store, r.k, t))
  }

  /** resolve_query: the new registry and the slot to record under. */
  function Resolve(r: Reg, fp: nat, door: nat -> nat): (Reg, nat)
    requires Valid(r) && DoorHash(door)
  {
    if fp in r.dict.index then (r.(dict := Touched(r.dict, r.dict.index[fp])), r.dict.index[fp])
    else if r.dict.free != [] then (r.(dict := Admitted(r.dict, fp)), Last(r.dict.free))
    else
      var key := DoorKey(fp);
      if r.door[door(key)] == key then
        (Replace(r, fp).(door := r.door[door(key) := 0]), Last(r.dict.order))
      else (r.(door := r.door[door(key) := key]), r.k)
  }

  /** The name intern_proto goes by: none stands for pg. */
  function ProtoName(o: Obs): string { if o.proto == "" then "pg" else o.proto }

  /** What an observation interns. */
  function Interned(r: Reg, o: Obs): Reg
  {
    r.(dims := Intern(r.dims, (o.db, o.user), r.maxDims).0, protos := Intern(r.protos, ProtoName(o), MAX_PROTOS).0)
  }

  /** The dimension, protocol and code an observation is recorded under. */
  function ClassOf(r: Reg, o: Obs): Class
  {
    Class(Intern(r.dims, (o.db, o.user), r.maxDims).1, Intern(r.protos, ProtoName(o), MAX_PROTOS).1,
          if o.error then 1 else 0)
  }

  /** The registry after interning and resolving, and the key of the series. */
  function Placed(r: Reg, o: Obs, door: nat -> nat): (Reg, Key)
    requires Valid(r) && DoorHash(door)
  {
    var r1 := Interned(r, o);
    var (r2, slot) := if o.forceOther || !o.labelled then (r1, r1.k) else Resolve(r1, o.fp, door);
    (r2, Key(slot, ClassOf(r, o)))
  }

  function Recording(st: Store, key: Key, o: Obs, firstRowOn: bool): Store
    requires key.slot < |st.lists|
  {
    var st1 := SeriesGet(st, key);
    Put(st1, key, Record(st1.series[key], o, firstRowOn)).(sizes := SizesRecorded(st1.sizes, key, o))
  }

  /** lk_reg_observe, as far as the dictionary and the series are concerned. */
  function Observe(r: Reg, o: Obs, door: nat -> nat): Reg
    requires Valid(r) && DoorHash(door)
  {
    if o.internal && o.profile.Internal() then r
    else if !Recorded(o) then Interned(r, o)
    else
      PlacedValid(r, o, door);
      var (r1, key) := Placed(r, o, door);
      var timed := if o.hasDuration then 1 else 0;
      r1.(store := Recording(r1.store, key, o, r.firstRowOn), totalObs := r1.totalObs + timed,
          otherObs := r1.otherObs + if key.slot == r.k then timed else 0)
  }

  lemma IdleStays(a: seq<nat>, b: seq<nat>, lists: seq<seq<Key>>, k: nat)
    requires IdleOk(a, lists, k) && forall s :: s in a ==> s in b
    ensures IdleOk(b, lists, k)
  {
  }

  lemma ReplaceDict(d: Dict, k: nat, fp: nat)
    requires DictOk(d, k) && d.free == [] && fp !in d.index
    ensures d.order != [] && Last(d.order) < k
    ensures var e := Admitted(Evicted(d), fp);
            && DictOk(e, k) && e.free == [] && e.order == [Last(d.order)] + Init(d.order)
            && e.fps[Last(d.order)] == fp && forall s :: s in e.order <==> s in d.order
  {
    hide DictOk, NoDup;
    DictShape(d, k);
    DictSize(d, k);
    var t := Last(d.order);
    EvictedOk(d, k);
    assert Evicted(d).free == [t];
    AdmittedOk(Evicted(d), k, fp);
    assert forall s :: s in Init(d.order) + [t] <==> s in [t] + Init(d.order);
  }

  lemma DictSize(d: Dict, k: nat)
    requires DictOk(d, k)
    ensures k > 0
  {
  }

  lemma ReplaceIdle(order: seq<nat>, a: seq<seq<Key>>, b: seq<seq<Key>>, order': seq<nat>, k: nat, t: nat)
    requires IdleOk(order, a, k) && |b| == k + 1 && t < k && b[t] == []
    requires forall s :: 0 <= s < k && s != t ==> b[s] == a[s]
    requires forall s :: s in order' <==> s in order
    ensures IdleOk(order', b, k)
  {
  }

  lemma ReplaceValid(r: Reg, fp: nat)
    requires Valid(r) && r.dict.free == [] && fp !in r.dict.index
    ensures Valid(Replace(r, fp))
  {
    hide DictOk, StoreOk, IdleOk, RangesOk, FoldSlot;
    ReplaceDict(r.dict, r.k, fp);
    DictShape(r.dict, r.k);
    StoreShape(r.store, r.k);
    var t := Last(r.dict.order);
    FoldSlotOk(r.store, r.k, t);
    FoldSlotRanges(r.store, r.k, t, r.maxDims);
    ReplaceIdle(r.dict.order, r.store.lists, FoldSlot(r.store, r.k, t).lists, Admitted(Evicted(r.dict), fp).order,
                r.k, t);
  }

  lemma {:induction false} FoldAllRanges(st: Store, k: nat, ks: seq<Key>, maxDims: nat)
    requires RangesOk(st, maxDims) && k < |st.lists| && forall key :: key in ks ==> InRange(key.c, maxDims)
    ensures RangesOk(FoldAll(st, k, ks), maxDims)
    decreases |ks|
  {
    if ks != [] {
      hide Add;
      FoldAllRanges(FoldOne(st, k, ks[0]), k, ks[1..], maxDims);
    }
  }

  lemma FoldSlotRanges(st: Store, k: nat, t: nat, maxDims: nat)
    requires StoreOk(st, k) && t < k && RangesOk(st, maxDims)
    ensures RangesOk(FoldSlot(st, k, t), maxDims)
  {
    assert Lists(st.series, t, st.lists[t]);
    FoldAllRanges(st, k, st.lists[t], maxDims);
  }

  lemma KnownValid(r: Reg, fp: nat)
    requires Valid(r) && fp in r.dict.index
    ensures Valid(r.(dict := Touched(r.dict, r.dict.index[fp])))
    ensures r.dict.index[fp] < r.k && r.dict.fps[r.dict.index[fp]] == fp
  {
    var s := r.dict.index[fp];
    TouchedOk(r.dict, r.k, s);
    IdleStays(r.dict.order, Touched(r.dict, s).order, r.store.lists, r.k);
    hide DictOk, StoreOk, IdleOk, RangesOk, Touched;
  }

  lemma RoomValid(r: Reg, fp: nat)
    requires Valid(r) && fp !in r.dict.index && r.dict.free != []
    ensures Last(r.dict.free) < r.k && Valid(r.(dict := Admitted(r.dict, fp)))
    ensures r.store.lists[Last(r.dict.free)] == []
  {
    AdmittedOk(r.dict, r.k, fp);
    IdleStays(r.dict.order, Admitted(r.dict, fp).order, r.store.lists, r.k);
    hide StoreOk, RangesOk;
  }

  lemma ValidFacts(r: Reg)
    requires Valid(r)
    ensures DictOk(r.dict, r.k) && StoreOk(r.store, r.k) && |r.store.lists| == r.k + 1 && |r.door| == DOOR_SLOTS
  {
  }

  lemma IndexInOrder(d: Dict, k: nat)
    requires DictOk(d, k)
    ensures forall fp :: fp in d.index ==> d.index[fp] in d.order
  {
  }

  lemma InternedValid(r: Reg, o: Obs)
    requires Valid(r)
    ensures Valid(Interned(r, o))
  {
  }

  /** Resolving keeps the registry in shape and yields the slot that now stands for the
      fingerprint, at the front of the list; or `other`, exactly if the fingerprint is
      unknown, no slot is free and the doorkeeper does not hold its key. A full dictionary
      stays full. */
  lemma ResolveValid(r: Reg, fp: nat, door: nat -> nat)
    requires Valid(r) && DoorHash(door)
    ensures var (q, slot) := Resolve(r, fp, door);
            && Valid(q)
            && (slot == r.k || (slot < r.k && q.dict.order != [] && q.dict.order[0] == slot && q.dict.fps[slot] == fp))
            && (slot == r.k <==> fp !in r.dict.index && r.dict.free == [] && r.door[door(DoorKey(fp))] != DoorKey(fp))
            && (r.dict.free == [] ==> q.dict.free == [])
  {
    hide Valid, DictOk, StoreOk, NoDup, FoldSlot, RemoveFrom, Evicted;
    ValidFacts(r);
    if fp in r.dict.index {
      KnownValid(r, fp);
    } else if r.dict.free != [] {
      RoomValid(r, fp);
      AdmittedOk(r.dict, r.k, fp);
      DictShape(r.dict, r.k);
    } else if r.door[door(DoorKey(fp))] == DoorKey(fp) {
      ReplaceDict(r.dict, r.k, fp);
      ReplaceValid(r, fp);
      DoorValid(Replace(r, fp), r.door[door(DoorKey(fp)) := 0]);
    } else {
      DoorValid(r, r.door[door(DoorKey(fp)) := DoorKey(fp)]);
    }
  }

  lemma DoorValid(r: Reg, door: seq<nat>)
    requires Valid(r) && |door| == DOOR_SLOTS
    ensures Valid(r.(door := door))
  {
  }

  lemma DictShape(d: Dict, k: nat)
    requires DictOk(d, k)
    ensures |d.fps| == k == |d.order| + |d.free| && NoDup(d.order) && NoDup(d.free)
    ensures forall s :: s in d.order ==> s < k
    ensures forall s :: s in d.free ==> s < k && s !in d.order
  {
  }

  lemma PlacedValid(r: Reg, o: Obs, door: nat -> nat)
    requires Valid(r) && DoorHash(door)
    ensures var (q, key) := Placed(r, o, door);
            && Valid(q) && q.k == r.k && q.maxDims == r.maxDims
            && key.slot <= r.k && InRange(key.c, r.maxDims)
            && (key.slot < r.k ==> key.slot in q.dict.order)
            && (r.dict.free == [] ==> q.dict.free == [])
  {
    var r1 := Interned(r, o);
    if !(o.forceOther || !o.labelled) { ResolveValid(r1, o.fp, door); }
    hide DictOk, StoreOk, IdleOk, RangesOk, Resolve;
  }

  lemma RecordingOk(st: Store, k: nat, key: Key, o: Obs, firstRowOn: bool, maxDims: nat)
    requires StoreOk(st, k) && key.slot <= k && InRange(key.c, maxDims) && RangesOk(st, maxDims)
    ensures var u := Recording(st, key, o, firstRowOn);
            && StoreOk(u, k) && RangesOk(u, maxDims)
            && forall s :: 0 <= s <= k && s != key.slot ==> u.lists[s] == st.lists[s]
  {
    hide Record, StoreOk;
    SeriesGetOk(st, k, key);
    var st1 := SeriesGet(st, key);
    PutOk(st1, k, key, Record(st1.series[key], o, firstRowOn));
    ResizeOk(Put(st1, key, Record(st1.series[key], o, firstRowOn)), k, key, SizesRecorded(st1.sizes, key, o));
    StoreShape(st, k);
  }

  lemma StoreShape(st: Store, k: nat)
    requires StoreOk(st, k)
    ensures |st.lists| == k + 1
  {
  }

  lemma RecordedIdle(order: seq<nat>, a: seq<seq<Key>>, b: seq<seq<Key>>, k: nat, slot: nat)
    requires IdleOk(order, a, k) && |b| == k + 1 && slot <= k && (slot < k ==> slot in order)
    requires forall s :: 0 <= s <= k && s != slot ==> b[s] == a[s]
    ensures IdleOk(order, b, k)
  {
  }

  /** Every observation keeps the registry in shape; a full dictionary stays full. */
  lemma ObserveValid(r: Reg, o: Obs, door: nat -> nat)
    requires Valid(r) && DoorHash(door)
    ensures Valid(Observe(r, o, door)) && Observe(r, o, door).k == r.k
    ensures r.dict.free == [] ==> Observe(r, o, door).dict.free == []
  {
    hide DictOk, StoreOk, IdleOk, RangesOk, Placed, Recording;
    if Recorded(o) {
      PlacedValid(r, o, door);
      var (r1, key) := Placed(r, o, door);
      StoreShape(r1.store, r.k);
      RecordingOk(r1.store, r.k, key, o, r.firstRowOn, r.maxDims);
      StoreShape(Recording(r1.store, key, o, r.firstRowOn), r.k);
      RecordedIdle(r1.dict.order, r1.store.lists, Recording(r1.store, key, o, r.firstRowOn).lists, r.k, key.slot);
    }
  }

  /** lk_reg_new: all slots free, the lowest on top of the stack, and nothing counted. */
  function Fresh(k: nat, maxDims: nat, firstRowOn: bool): Reg
  {
    Reg(k, maxDims, firstRowOn, Dict(Zeros(k), map[], [], Down(k)), Zeros(DOOR_SLOTS), [], [],
        Store(map[], map[], Nils(k + 1)), 0, 0)
  }

  function Down(k: nat): (xs: seq<nat>)
    ensures |xs| == k && forall i :: 0 <= i < k ==> xs[i] == k - 1 - i
  {
    if k == 0 then [] else [k - 1] + Down(k - 1)
  }

  function Nils(n: nat): (xs: seq<seq<Key>>)
    ensures |xs| == n && forall i :: 0 <= i < n ==> xs[i] == []
  {
    if n == 0 then [] else Nils(n - 1) + [[]]
  }

  lemma FreshDict(k: nat)
    requires k > 0
    ensures DictOk(Dict(Zeros(k), map[], [], Down(k)), k)
  {
    assert forall s :: s in Down(k) ==> s < k;
  }

  lemma FreshOk(k: nat, maxDims: nat, firstRowOn: bool)
    requires k > 0
    ensures Valid(Fresh(k, maxDims, firstRowOn))
  {
    var r := Fresh(k, maxDims, firstRowOn);
    FreshDict(k);
    hide DictOk;
    forall s | 0 <= s <= k
      ensures Lists(r.store.series, s, r.store.lists[s])
    {
      assert r.store.lists[s] == [];
    }
  }
}
