/**
 What the registry promises over whole runs: nothing observed is lost across an
 eviction, `other` never shrinks, the number of series is bounded, and the dictionary
 is an LRU guarded by the doorkeeper.
 */
module RegistryTheorems {
  import opened Accumulators
  import opened Hist
  import opened Registry
  import opened Sequences

  // ---- totals over the slots ------------------------------------------------

  /** The sum of the series of one class over the first `n` slots. */
  function Total(series: map<Key, Acc>, c: Class, n: nat): Acc
  {
    if n == 0 then ZERO else Add(Total(series, c, n - 1), Get(series, Key(n - 1, c)))
  }

  lemma {:induction false} TotalSame(a: map<Key, Acc>, b: map<Key, Acc>, c: Class, n: nat)
    requires forall s :: 0 <= s < n ==> Get(a, Key(s, c)) == Get(b, Key(s, c))
    ensures Total(a, c, n) == Total(b, c, n)
  {
    hide Add;
    if n > 0 { TotalSame(a, b, c, n - 1); }
  }

  /** Adding to one series adds to the total of its class and to no other. */
  lemma {:induction false} TotalPut(series: map<Key, Acc>, key: Key, x: Acc, c: Class, n: nat)
    ensures Total(series[key := Add(Get(series, key), x)], c, n) ==
            if key.c == c && key.slot < n then Add(Total(series, c, n), x) else Total(series, c, n)
  {
    hide Add;
    var s' := series[key := Add(Get(series, key), x)];
    if !(key.c == c && key.slot < n) {
      TotalSame(s', series, c, n);
    } else {
      TotalPut(series, key, x, c, n - 1);
      if key.slot == n - 1 {
        AddAssociates(Total(series, c, n - 1), Get(series, key), x);
      } else {
        AddSwaps(Total(series, c, n - 1), x, Get(series, Key(n - 1, c)));
      }
    }
  }

  /** Removing a series takes its share out of the total. */
  lemma {:induction false} TotalRemove(series: map<Key, Acc>, key: Key, n: nat)
    requires key.slot < n
    ensures Add(Total(series - {key}, key.c, n), Get(series, key)) == Total(series, key.c, n)
  {
    hide Add;
    var rest := series - {key};
    if key.slot == n - 1 {
      TotalSame(rest, series, key.c, n - 1);
      AddUnit(Total(rest, key.c, n - 1));
    } else {
      TotalRemove(series, key, n - 1);
      AddSwaps(Total(rest, key.c, n - 1), Get(series, Key(n - 1, key.c)), Get(series, key));
    }
  }

  lemma FoldOneSeries(st: Store, k: nat, key: Key)
    requires k < |st.lists| && key.slot < k
    ensures var dst := Key(k, key.c);
            FoldOne(st, k, key).series == (st.series - {key})[dst := Add(Get(st.series - {key}, dst),
                                                                         Get(st.series, key))]
  {
    hide Add;
    AddUnit(Get(st.series, key));
  }

  /** Folding one series into `other` changes no total. */
  lemma FoldOneConserves(st: Store, k: nat, key: Key, c: Class)
    requires k < |st.lists| && key.slot < k
    ensures Total(FoldOne(st, k, key).series, c, k + 1) == Total(st.series, c, k + 1)
  {
    hide Add, Total, FoldOne;
    FoldOneSeries(st, k, key);
    var x, rest := Get(st.series, key), st.series - {key};
    TotalPut(rest, Key(k, key.c), x, c, k + 1);
    if c == key.c {
      TotalRemove(st.series, key, k + 1);
    } else {
      TotalSame(rest, st.series, c, k + 1);
    }
  }

  lemma {:induction false} FoldAllConserves(st: Store, k: nat, ks: seq<Key>, c: Class)
    requires k < |st.lists| && forall key :: key in ks ==> key.slot < k
    ensures Total(FoldAll(st, k, ks).series, c, k + 1) == Total(st.series, c, k + 1)
    decreases |ks|
  {
    hide Total, FoldOne;
    if ks != [] {
      FoldOneConserves(st, k, ks[0], c);
      FoldAllConserves(FoldOne(st, k, ks[0]), k, ks[1..], c);
    }
  }

  /** Resolving leaves the series alone, or folds those of the coldest slot into `other`. */
  lemma ResolveStore(r: Reg, fp: nat, door: nat -> nat)
    requires Valid(r) && DoorHash(door)
    ensures r.k < |r.store.lists|
    ensures var st := Resolve(r, fp, door).0.store;
            || st == r.store
            || (r.dict.order != [] && var t := Last(r.dict.order);
                && t < r.k && (forall key :: key in r.store.lists[t] ==> key.slot < r.k)
                && st == FoldSlot(r.store, r.k, t))
  {
    hide FoldSlot, NoDup, Admitted, Evicted, Touched, DoorHash, RangesOk, IdleOk;
    if fp !in r.dict.index && r.dict.free == [] {
      var t := Last(r.dict.order);
      assert Lists(r.store.series, t, r.store.lists[t]);
    }
  }

  /** Resolving a fingerprint, with or without an eviction, changes no total. */
  lemma ResolveConserves(r: Reg, fp: nat, door: nat -> nat, c: Class)
    requires Valid(r) && DoorHash(door)
    ensures Total(Resolve(r, fp, door).0.store.series, c, r.k + 1) == Total(r.store.series, c, r.k + 1)
  {
    hide Total, FoldAll, Resolve, Valid;
    ResolveStore(r, fp, door);
    if Resolve(r, fp, door).0.store != r.store {
      FoldAllConserves(r.store, r.k, r.store.lists[Last(r.dict.order)], c);
    }
  }

  lemma RecordingConserves(st: Store, key: Key, o: Obs, firstRowOn: bool, c: Class, n: nat)
    requires key.slot < |st.lists| && key.slot < n
    ensures Total(Recording(st, key, o, firstRowOn).series, c, n) ==
            if key.c == c then Add(Total(st.series, c, n), Record(ZERO, o, firstRowOn)) else Total(st.series, c, n)
  {
    hide Total, Add, Record;
    var x := Record(ZERO, o, firstRowOn);
    RecordIsAdd(Get(st.series, key), o, firstRowOn);
    assert Recording(st, key, o, firstRowOn).series == st.series[key := Add(Get(st.series, key), x)];
    TotalPut(st.series, key, x, c, n);
  }

  /** What an observation contributes to a class: itself, or nothing. */
  function Contribution(r: Reg, o: Obs, c: Class): Acc
  {
    if Recorded(o) && ClassOf(r, o) == c then Record(ZERO, o, r.firstRowOn) else ZERO
  }

  /** One observation: the total of every class grows by exactly its contribution. */
  lemma ObserveConserves(r: Reg, o: Obs, door: nat -> nat, c: Class)
    requires Valid(r) && DoorHash(door)
    ensures Total(Observe(r, o, door).store.series, c, r.k + 1) ==
            Add(Total(r.store.series, c, r.k + 1), Contribution(r, o, c))
  {
    hide Total, Add, Record, Resolve, Recording, ClassOf, Observe, Placed, Valid;
    AddUnit(Total(r.store.series, c, r.k + 1));
    if Recorded(o) {
      PlacedValid(r, o, door);
      var (r1, key) := Placed(r, o, door);
      ObserveRecords(r, o, door);
      PlacedSeries(r, o, door);
      ValidFacts(r1);
      StoreShape(r1.store, r.k);
      RecordingConserves(r1.store, key, o, r.firstRowOn, c, r.k + 1);
      if !(o.forceOther || !o.labelled) {
        InternedValid(r, o);
        ResolveConserves(Interned(r, o), o.fp, door, c);
      }
    } else {
      ObserveIgnores(r, o, door);
    }
  }

  lemma ObserveRecords(r: Reg, o: Obs, door: nat -> nat)
    requires Valid(r) && DoorHash(door) && Recorded(o)
    ensures var (r1, key) := Placed(r, o, door);
            key.slot < |r1.store.lists| && key.c == ClassOf(r, o) &&
              Observe(r, o, door).store == Recording(r1.store, key, o, r.firstRowOn)
  {
    hide Recording, Resolve;
    PlacedValid(r, o, door);
  }

  lemma ObserveIgnores(r: Reg, o: Obs, door: nat -> nat)
    requires Valid(r) && DoorHash(door) && !Recorded(o)
    ensures Observe(r, o, door).store == r.store
  {
    hide Placed, Recording, Valid;
  }

  lemma PlacedSeries(r: Reg, o: Obs, door: nat -> nat)
    requires Valid(r) && DoorHash(door)
    ensures var q := Interned(r, o);
            && q.store == r.store && q.k == r.k && Valid(q)
            && Placed(r, o, door).0.store == if o.forceOther ||
               !o.labelled then r.store else Resolve(q, o.fp, door).0.store
  {
    hide Resolve, ClassOf, Valid;
    InternedValid(r, o);
  }

  // ---- runs -----------------------------------------------------------------

  /** The registry after a run of observations. */
  function Run(r: Reg, os: seq<Obs>, door: nat -> nat): (q: Reg)
    requires Valid(r) && DoorHash(door)
    ensures Valid(q) && q.k == r.k && q.firstRowOn == r.firstRowOn && q.maxDims == r.maxDims
  {
    if os == [] then r
    else
      var p := Run(r, os[..|os| - 1], door);
      ObserveValid(p, os[|os| - 1], door);
      Observe(p, os[|os| - 1], door)
  }

  /** Everything a run observed for a class. */
  function Seen(r: Reg, os: seq<Obs>, door: nat -> nat, c: Class): Acc
    requires Valid(r) && DoorHash(door)
  {
    if os == [] then ZERO
    else
      var init := os[..|os| - 1];
      Add(Seen(r, init, door, c), Contribution(Run(r, init, door), os[|os| - 1], c))
  }

  /** Conservation over runs: for every class, what the slots hold together is what was
      there and what was observed since, whatever was evicted on the way. */
  lemma {:induction false} RunConserves(r: Reg, os: seq<Obs>, door: nat -> nat, c: Class)
    requires Valid(r) && DoorHash(door)
    ensures Total(Run(r, os, door).store.series, c, r.k + 1) ==
            Add(Total(r.store.series, c, r.k + 1), Seen(r, os, door, c))
    decreases |os|
  {
    hide Total, Add, Contribution, Observe;
    if os == [] {
      AddUnit(Total(r.store.series, c, r.k + 1));
    } else {
      var init, o := os[..|os| - 1], os[|os| - 1];
      RunConserves(r, init, door, c);
      ObserveConserves(Run(r, init, door), o, door, c);
      AddAssociates(Total(r.store.series, c, r.k + 1), Seen(r, init, door, c), Contribution(Run(r, init, door), o, c));
    }
  }

  // ---- the sum over all series ----------------------------------------------

  /** The duration counts of all series together. */
  ghost function CountSum(series: map<Key, Acc>): nat
    decreases |series|
  {
    if series == map[] then 0
    else
      var key :| key in series;
      assert |series - {key}| < |series| by { Smaller(series, key); }
      series[key].dur.count + CountSum(series - {key})
  }

  lemma Smaller(series: map<Key, Acc>, key: Key)
    requires key in series
    ensures |series - {key}| < |series|
  {
    assert (series - {key}).Keys == series.Keys - {key};
  }

  /** Any series may be taken out first. */
  lemma {:induction false} CountSumPick(series: map<Key, Acc>, key: Key)
    requires key in series
    ensures CountSum(series) == series[key].dur.count + CountSum(series - {key})
    decreases |series|
  {
    var first :| first in series && CountSum(series) == series[first].dur.count + CountSum(series - {first});
    if first != key {
      Smaller(series, first);
      Smaller(series, key);
      CountSumPick(series - {first}, key);
      CountSumPick(series - {key}, first);
      assert (series - {first}) - {key} == (series - {key}) - {first};
    }
  }

  lemma CountSumPut(series: map<Key, Acc>, key: Key, a: Acc)
    ensures CountSum(series[key := a]) + Get(series, key).dur.count == CountSum(series) + a.dur.count
  {
    CountSumPick(series[key := a], key);
    assert series[key := a] - {key} == series - {key};
    if key in series {
      CountSumPick(series, key);
    } else {
      assert series - {key} == series;
    }
  }

  lemma FoldOneCounts(st: Store, k: nat, key: Key)
    requires k < |st.lists| && key.slot < k
    ensures CountSum(FoldOne(st, k, key).series) == CountSum(st.series)
  {
    hide CountSum;
    var dst, st1 := Key(k, key.c), SeriesGet(st, Key(k, key.c));
    CountSumPut(st.series, dst, ZERO);
    var a := Add(st1.series[dst], Get(st1.series, key));
    CountSumPut(st1.series, dst, a);
    var m := st1.series[dst := a];
    if key in m {
      CountSumPick(m, key);
    } else {
      assert m - {key} == m;
    }
  }

  lemma {:induction false} FoldAllCounts(st: Store, k: nat, ks: seq<Key>)
    requires k < |st.lists| && forall key :: key in ks ==> key.slot < k
    ensures CountSum(FoldAll(st, k, ks).series) == CountSum(st.series)
    decreases |ks|
  {
    hide CountSum, FoldOne;
    if ks != [] {
      FoldOneCounts(st, k, ks[0]);
      FoldAllCounts(FoldOne(st, k, ks[0]), k, ks[1..]);
    }
  }

  lemma ResolveCounts(r: Reg, fp: nat, door: nat -> nat)
    requires Valid(r) && DoorHash(door)
    ensures CountSum(Resolve(r, fp, door).0.store.series) == CountSum(r.store.series)
  {
    hide CountSum, FoldAll, Resolve, Valid;
    ResolveStore(r, fp, door);
    if Resolve(r, fp, door).0.store != r.store {
      FoldAllCounts(r.store, r.k, r.store.lists[Last(r.dict.order)]);
    }
  }

  lemma RecordingCounts(st: Store, key: Key, o: Obs, firstRowOn: bool)
    requires key.slot < |st.lists|
    ensures CountSum(Recording(st, key, o, firstRowOn).series) == CountSum(st.series) + if o.hasDuration then 1 else 0
  {
    hide CountSum, Record;
    var x := Record(ZERO, o, firstRowOn);
    RecordIsAdd(Get(st.series, key), o, firstRowOn);
    RecordCounts(o, firstRowOn);
    assert Recording(st, key, o, firstRowOn).series == st.series[key := Add(Get(st.series, key), x)];
    CountSumPut(st.series, key, Add(Get(st.series, key), x));
  }

  lemma ObserveCounts(r: Reg, o: Obs, door: nat -> nat)
    requires Valid(r) && DoorHash(door)
    ensures var q := Observe(r, o, door);
            CountSum(q.store.series) + r.totalObs == CountSum(r.store.series) + q.totalObs
  {
    hide CountSum, Recording, ClassOf, FoldSlot;
    if Recorded(o) {
      PlacedValid(r, o, door);
      var (r1, key) := Placed(r, o, door);
      StoreShape(r1.store, r.k);
      RecordingCounts(r1.store, key, o, r.firstRowOn);
      if !(o.forceOther || !o.labelled) {
        assert Valid(Interned(r, o));
        ResolveCounts(Interned(r, o), o.fp, door);
      }
    }
  }

  /** Nothing is ever lost: the duration counts of all live series sum to the number of
      timed observations, over every run. */
  lemma {:induction false} CountsAreObservations(r: Reg, os: seq<Obs>, door: nat -> nat)
    requires Valid(r) && DoorHash(door) && CountSum(r.store.series) == r.totalObs
    ensures CountSum(Run(r, os, door).store.series) == Run(r, os, door).totalObs
    decreases |os|
  {
    hide CountSum, Observe;
    if os != [] {
      CountsAreObservations(r, os[..|os| - 1], door);
      ObserveCounts(Run(r, os[..|os| - 1], door), os[|os| - 1], door);
    }
  }

  // ---- `other` never shrinks ------------------------------------------------

  ghost predicate OtherGrows(a: map<Key, Acc>, b: map<Key, Acc>, k: nat)
  {
    forall c :: Covers(Get(a, Key(k, c)), Get(b, Key(k, c)))
  }

  lemma OtherSame(a: map<Key, Acc>, b: map<Key, Acc>, k: nat)
    requires forall c :: Get(a, Key(k, c)) == Get(b, Key(k, c))
    ensures OtherGrows(a, b, k)
  {
    forall c
      ensures Covers(Get(a, Key(k, c)), Get(b, Key(k, c)))
    {
      CoversItself(Get(a, Key(k, c)));
    }
  }

  lemma OtherTransitive(x: map<Key, Acc>, y: map<Key, Acc>, z: map<Key, Acc>, k: nat)
    requires OtherGrows(x, y, k) && OtherGrows(y, z, k)
    ensures OtherGrows(x, z, k)
  {
    forall c
      ensures Covers(Get(x, Key(k, c)), Get(z, Key(k, c)))
    {
      CoversTransitive(Get(x, Key(k, c)), Get(y, Key(k, c)), Get(z, Key(k, c)));
    }
  }

  lemma OtherPut(series: map<Key, Acc>, key: Key, x: Acc, k: nat)
    ensures OtherGrows(series, series[key := Add(Get(series, key), x)], k)
  {
    forall c
      ensures Covers(Get(series, Key(k, c)), Get(series[key := Add(Get(series, key), x)], Key(k, c)))
    {
      CoversItself(Get(series, Key(k, c)));
    }
  }

  lemma {:induction false} FoldAllOther(st: Store, k: nat, ks: seq<Key>)
    requires k < |st.lists| && forall key :: key in ks ==> key.slot < k
    ensures OtherGrows(st.series, FoldAll(st, k, ks).series, k)
    decreases |ks|
  {
    hide OtherGrows;
    if ks == [] {
      OtherSame(st.series, st.series, k);
    } else {
      FoldOneOther(st, k, ks[0]);
      hide FoldOne;
      FoldAllOther(FoldOne(st, k, ks[0]), k, ks[1..]);
      OtherTransitive(st.series, FoldOne(st, k, ks[0]).series, FoldAll(st, k, ks).series, k);
    }
  }

  lemma FoldOneOther(st: Store, k: nat, key: Key)
    requires k < |st.lists| && key.slot < k
    ensures OtherGrows(st.series, FoldOne(st, k, key).series, k)
  {
    hide OtherGrows, Add;
    var dst, x := Key(k, key.c), Get(st.series, key);
    AddUnit(x);
    var m := st.series[dst := Add(Get(st.series, dst), x)];
    assert FoldOne(st, k, key).series == m - {key};
    OtherPut(st.series, dst, x, k);
    OtherSame(m, m - {key}, k);
    OtherTransitive(st.series, m, m - {key}, k);
  }

  lemma ResolveOther(r: Reg, fp: nat, door: nat -> nat)
    requires Valid(r) && DoorHash(door)
    ensures OtherGrows(r.store.series, Resolve(r, fp, door).0.store.series, r.k)
  {
    hide OtherGrows, FoldAll, Resolve, Valid;
    OtherSame(r.store.series, r.store.series, r.k);
    ResolveStore(r, fp, door);
    if Resolve(r, fp, door).0.store != r.store {
      FoldAllOther(r.store, r.k, r.store.lists[Last(r.dict.order)]);
    }
  }

  /** One observation only adds to the `other` series. */
  lemma ObserveOther(r: Reg, o: Obs, door: nat -> nat)
    requires Valid(r) && DoorHash(door)
    ensures OtherGrows(r.store.series, Observe(r, o, door).store.series, r.k)
  {
    hide Valid, OtherGrows, Record, ClassOf, Resolve, Add, Observe, Placed, Recording;
    OtherSame(r.store.series, r.store.series, r.k);
    if Recorded(o) {
      PlacedValid(r, o, door);
      var (r1, key) := Placed(r, o, door);
      ObserveRecords(r, o, door);
      PlacedSeries(r, o, door);
      if !(o.forceOther || !o.labelled) { ResolveOther(Interned(r, o), o.fp, door); }
      RecordingOther(r1.store, key, o, r.firstRowOn, r.k);
      OtherTransitive(r.store.series, r1.store.series, Recording(r1.store, key, o, r.firstRowOn).series, r.k);
    } else {
      ObserveIgnores(r, o, door);
    }
  }

  lemma RecordingOther(st: Store, key: Key, o: Obs, firstRowOn: bool, k: nat)
    requires key.slot < |st.lists|
    ensures OtherGrows(st.series, Recording(st, key, o, firstRowOn).series, k)
  {
    hide OtherGrows, Record, Add;
    var x := Record(ZERO, o, firstRowOn);
    RecordIsAdd(Get(st.series, key), o, firstRowOn);
    OtherPut(st.series, key, x, k);
    assert Recording(st, key, o, firstRowOn).series == st.series[key := Add(Get(st.series, key), x)];
  }

  lemma {:induction false} RunOther(r: Reg, os: seq<Obs>, door: nat -> nat)
    requires Valid(r) && DoorHash(door)
    ensures OtherGrows(r.store.series, Run(r, os, door).store.series, r.k)
    decreases |os|
  {
    hide OtherGrows, Observe;
    if os == [] {
      OtherSame(r.store.series, r.store.series, r.k);
    } else {
      var p := Run(r, os[..|os| - 1], door);
      RunOther(r, os[..|os| - 1], door);
      ObserveOther(p, os[|os| - 1], door);
      OtherTransitive(r.store.series, p.store.series, Run(r, os, door).store.series, r.k);
    }
  }

  /** Over every run, no count, sum, cell or tally of any `other` series ever decreases. */
  lemma OtherNeverShrinks(r: Reg, os: seq<Obs>, door: nat -> nat, c: Class)
    requires Valid(r) && DoorHash(door)
    ensures AtMost(Get(r.store.series, Key(r.k, c)), Get(Run(r, os, door).store.series, Key(r.k, c)))
  {
    hide Covers, Run, Valid;
    RunOther(r, os, door);
    CoversAtMost(Get(r.store.series, Key(r.k, c)), Get(Run(r, os, door).store.series, Key(r.k, c)));
  }

  // ---- the number of series -------------------------------------------------

  lemma Distribute(a: int, b: int, m: int)
    ensures (a + b) * m == a * m + b * m
  {
  }

  lemma {:induction false} AtLeastOnce(x: nat, m: nat)
    requires x > 0
    ensures x * m >= m
  {
    if x > 1 {
      AtLeastOnce(x - 1, m);
      Distribute(x - 1, 1, m);
    }
  }

  lemma MixedRadix(a: nat, b: nat, c: nat, d: nat, m: nat)
    requires b < m && d < m && a * m + b == c * m + d
    ensures a == c && b == d
  {
    if a < c {
      Distribute(a, c - a, m);
      AtLeastOnce(c - a, m);
    } else if c < a {
      Distribute(c, a - c, m);
      AtLeastOnce(a - c, m);
    }
  }

  lemma RadixBelow(a: nat, b: nat, n: nat, m: nat)
    requires a < n && b < m
    ensures a * m + b < n * m
  {
    Distribute(a, n - a, m);
    AtLeastOnce(n - a, m);
  }

  /** Slots times dimensions times protocols times codes. */
  function MaxSeries(k: nat, maxDims: nat): nat { (((k + 1) * (maxDims + 1)) * (MAX_PROTOS + 1)) * 2 }

  /** A number for every key in range. */
  function Code(key: Key, maxDims: nat): nat
  {
    ((key.slot * (maxDims + 1) + key.c.dim) * (MAX_PROTOS + 1) + key.c.proto) * 2 + key.c.code
  }

  lemma CodeInjective(x: Key, y: Key, maxDims: nat)
    requires InRange(x.c, maxDims) && InRange(y.c, maxDims) && Code(x, maxDims) == Code(y, maxDims)
    ensures x == y
  {
    var p, q := x.slot * (maxDims + 1) + x.c.dim, y.slot * (maxDims + 1) + y.c.dim;
    MixedRadix(p * (MAX_PROTOS + 1) + x.c.proto, x.c.code, q * (MAX_PROTOS + 1) + y.c.proto, y.c.code, 2);
    MixedRadix(p, x.c.proto, q, y.c.proto, MAX_PROTOS + 1);
    MixedRadix(x.slot, x.c.dim, y.slot, y.c.dim, maxDims + 1);
  }

  lemma CodeBelow(key: Key, k: nat, maxDims: nat)
    requires key.slot <= k && InRange(key.c, maxDims)
    ensures Code(key, maxDims) < MaxSeries(k, maxDims)
  {
    RadixBelow(key.slot, key.c.dim, k + 1, maxDims + 1);
    RadixBelow(key.slot * (maxDims + 1) + key.c.dim, key.c.proto, (k + 1) * (maxDims + 1), MAX_PROTOS + 1);
  }

  lemma {:induction false} FewerThanCodes(ks: set<Key>, maxDims: nat, n: nat)
    requires forall key :: key in ks ==> InRange(key.c, maxDims) && Code(key, maxDims) < n
    ensures |ks| <= n
    decreases n
  {
    hide Code, InRange;
    if n == 0 {
      assert ks == {};
    } else if key :| key in ks && Code(key, maxDims) == n - 1 {
      forall other | other in ks - {key}
        ensures Code(other, maxDims) < n - 1
      {
        if Code(other, maxDims) == n - 1 { CodeInjective(key, other, maxDims); }
      }
      FewerThanCodes(ks - {key}, maxDims, n - 1);
    } else {
      FewerThanCodes(ks, maxDims, n - 1);
    }
  }

  /** Bounded cardinality: no run ever holds more series than slots, dimensions,
      protocols and codes allow. */
  lemma SeriesAreBounded(r: Reg)
    requires Valid(r)
    ensures |r.store.series| <= MaxSeries(r.k, r.maxDims)
  {
    forall key | key in r.store.series
      ensures Code(key, r.maxDims) < MaxSeries(r.k, r.maxDims)
    {
      CodeBelow(key, r.k, r.maxDims);
    }
    FewerThanCodes(r.store.series.Keys, r.maxDims, MaxSeries(r.k, r.maxDims));
  }

  // ---- the dictionary over runs ---------------------------------------------

  /** What an onlooker notes about resolutions: the time of the last one of each slot,
      and the doorkeeper keys that were sent to `other`. */
  datatype Notes = Notes(now: nat, stamp: map<nat, nat>, routed: set<nat>)

  function Noted(n: Notes, r: Reg, fp: nat, slot: nat): Notes
  {
    Notes(n.now + 1, if slot == r.k then n.stamp else n.stamp[slot := n.now],
          if slot == r.k then n.routed + {DoorKey(fp)} else n.routed)
  }

  predicate NewerThan(n: Notes, a: nat, b: nat) { a in n.stamp && b in n.stamp && n.stamp[a] > n.stamp[b] }

  /** The LRU list is sorted by the time of the last resolution, newest first. */
  ghost predicate Sorted(n: Notes, order: seq<nat>)
  {
    && (forall s :: s in order ==> s in n.stamp && n.stamp[s] < n.now)
    && (forall i, j :: 0 <= i < j < |order| ==> NewerThan(n, order[i], order[j]))
  }

  /** Every key the doorkeeper remembers was sent to `other` before. */
  ghost predicate Honest(n: Notes, door: seq<nat>)
  {
    forall d :: 0 <= d < |door| && door[d] != 0 ==> door[d] in n.routed
  }

  ghost predicate Disciplined(r: Reg, n: Notes) { Sorted(n, r.dict.order) && Honest(n, r.door) }

  /** Stamping the front of the list with the present keeps the list sorted. */
  lemma FrontIsNewest(n: Notes, order: seq<nat>, front: nat, rest: seq<nat>)
    requires Sorted(n, order)
    requires forall i :: 0 <= i < |rest| ==> rest[i] in order && rest[i] != front
    requires forall i, j :: 0 <= i < j < |rest| ==> NewerThan(n, rest[i], rest[j])
    ensures Sorted(Notes(n.now + 1, n.stamp[front := n.now], n.routed), [front] + rest)
  {
    var m, new' := Notes(n.now + 1, n.stamp[front := n.now], n.routed), [front] + rest;
    forall i, j | 0 <= i < j < |new'|
      ensures NewerThan(m, new'[i], new'[j])
    {
      if i > 0 { assert NewerThan(n, rest[i - 1], rest[j - 1]); }
    }
  }

  lemma KnownSorted(d: Dict, k: nat, n: Notes, s: nat)
    requires DictOk(d, k) && Sorted(n, d.order) && s in d.order
    ensures Sorted(Notes(n.now + 1, n.stamp[s := n.now], n.routed), Touched(d, s).order)
  {
    hide DictOk, NoDup, Find, NewerThan;
    DictShape(d, k);
    RemovedOnce(d.order, s);
    FindFirst(d.order, s);
    var at, rest := Find(d.order, s), RemoveFrom(d.order, s);
    forall i, j | 0 <= i < j < |rest|
      ensures NewerThan(n, rest[i], rest[j])
    {
      var x, y := if i < at then i else i + 1, if j < at then j else j + 1;
      assert rest[i] == d.order[x] && rest[j] == d.order[y];
    }
    FrontIsNewest(n, d.order, s, rest);
  }

  lemma NewSorted(d: Dict, k: nat, n: Notes, fp: nat)
    requires DictOk(d, k) && Sorted(n, d.order) && d.free != []
    ensures Sorted(Notes(n.now + 1, n.stamp[Last(d.free) := n.now], n.routed), Admitted(d, fp).order)
  {
    FrontIsNewest(n, d.order, Last(d.free), d.order);
  }

  lemma ReplacedSorted(d: Dict, k: nat, n: Notes)
    requires NoDup(d.order) && Sorted(n, d.order) && d.order != []
    ensures Sorted(Notes(n.now + 1, n.stamp[Last(d.order) := n.now], n.routed), [Last(d.order)] + Init(d.order))
  {
    var order, t := d.order, Last(d.order);
    NoDupSplit(Init(order), [t]);
    forall i, j | 0 <= i < j < |Init(order)|
      ensures NewerThan(n, Init(order)[i], Init(order)[j])
    {
      assert Init(order)[i] == order[i] && Init(order)[j] == order[j];
    }
    FrontIsNewest(n, order, t, Init(order));
  }

  /** The same for a fingerprint that meets a full dictionary. */
  lemma FullDiscipline(r: Reg, n: Notes, fp: nat, door: nat -> nat)
    requires Valid(r) && DoorHash(door) && Disciplined(r, n) && fp !in r.dict.index && r.dict.free == []
    ensures var (q, slot) := Resolve(r, fp, door);
            && Disciplined(q, Noted(n, r, fp, slot))
            && (slot != r.k ==> DoorKey(fp) in n.routed)
  {
    hide Valid, DictOk, StoreOk, NoDup, FoldSlot, Sorted, RemoveFrom, Evicted, Admitted;
    ValidFacts(r);
    ReplaceDict(r.dict, r.k, fp);
    ReplacedSorted(r.dict, r.k, n);
    var d := door(DoorKey(fp));
    assert r.door[d] == DoorKey(fp) ==> DoorKey(fp) in n.routed;
    if r.door[d] != DoorKey(fp) { RoutedSorted(n, r.dict.order, DoorKey(fp)); }
  }

  /** Every resolution keeps the list in order of last resolution and the doorkeeper
      honest; and a fingerprint enters a full dictionary only if its doorkeeper key was
      sent to `other` before. */
  lemma ResolveDiscipline(r: Reg, n: Notes, fp: nat, door: nat -> nat)
    requires Valid(r) && DoorHash(door) && Disciplined(r, n)
    ensures var (q, slot) := Resolve(r, fp, door);
            && Disciplined(q, Noted(n, r, fp, slot))
            && (r.dict.free == [] && fp !in r.dict.index && slot != r.k ==> DoorKey(fp) in n.routed)
  {
    hide Valid, DictOk, StoreOk, NoDup, Replace, Sorted, RemoveFrom;
    ValidFacts(r);
    DictShape(r.dict, r.k);
    if fp in r.dict.index {
      IndexInOrder(r.dict, r.k);
      KnownSorted(r.dict, r.k, n, r.dict.index[fp]);
    } else if r.dict.free != [] {
      NewSorted(r.dict, r.k, n, fp);
    } else {
      FullDiscipline(r, n, fp, door);
    }
  }

  lemma RoutedSorted(n: Notes, order: seq<nat>, key: nat)
    requires Sorted(n, order)
    ensures Sorted(Notes(n.now + 1, n.stamp, n.routed + {key}), order)
  {
    var m := Notes(n.now + 1, n.stamp, n.routed + {key});
    assert forall a, b :: NewerThan(n, a, b) ==> NewerThan(m, a, b);
  }

  predicate Resolves(o: Obs) { Recorded(o) && o.labelled && !o.forceOther }

  /** The notes after a run. */
  function NotesAfter(r: Reg, n: Notes, os: seq<Obs>, door: nat -> nat): Notes
    requires Valid(r) && DoorHash(door)
  {
    if os == [] then n
    else
      var p, o := Run(r, os[..|os| - 1], door), os[|os| - 1];
      var m := NotesAfter(r, n, os[..|os| - 1], door);
      if Resolves(o) then Noted(m, p, o.fp, Placed(p, o, door).1.slot) else m
  }

  lemma ObserveDiscipline(r: Reg, n: Notes, o: Obs, door: nat -> nat)
    requires Valid(r) && DoorHash(door) && Disciplined(r, n)
    ensures Disciplined(Observe(r, o, door), if Resolves(o) then Noted(n, r, o.fp, Placed(r, o, door).1.slot) else n)
  {
    hide Disciplined, ClassOf, Recording;
    if Resolves(o) {
      assert Valid(Interned(r, o)) && Disciplined(Interned(r, o), n) by { SameDiscipline(r, Interned(r, o), n); }
      ResolveDiscipline(Interned(r, o), n, o.fp, door);
      hide Resolve, Noted;
      PlacedValid(r, o, door);
      var (q, key) := Placed(r, o, door);
      SameDiscipline(q, Observe(r, o, door), Noted(n, r, o.fp, key.slot));
    } else {
      SameDiscipline(r, Observe(r, o, door), n);
    }
  }

  lemma SameDiscipline(a: Reg, b: Reg, n: Notes)
    requires a.dict.order == b.dict.order && a.door == b.door
    ensures Disciplined(a, n) <==> Disciplined(b, n)
  {
  }

  /** Over every run the LRU list is in order of last resolution, and the doorkeeper
      remembers only what was sent to `other`. */
  lemma {:induction false} RunDiscipline(r: Reg, n: Notes, os: seq<Obs>, door: nat -> nat)
    requires Valid(r) && DoorHash(door) && Disciplined(r, n)
    ensures Disciplined(Run(r, os, door), NotesAfter(r, n, os, door))
    decreases |os|
  {
    hide Disciplined, Observe, Noted, Placed;
    if os != [] {
      RunDiscipline(r, n, os[..|os| - 1], door);
      ObserveDiscipline(Run(r, os[..|os| - 1], door), NotesAfter(r, n, os[..|os| - 1], door), os[|os| - 1], door);
    }
  }

  /** A recognised doorkeeper key is the fingerprint itself, but for 0 and 1, which share
      one: 0 enters a full dictionary at first sight when only 1 was sent to `other`. */
  lemma DoorKeyCollision(r: Reg, door: nat -> nat)
    requires Valid(r) && DoorHash(door) && r.dict.free == [] && 0 !in r.dict.index && 1 !in r.dict.index
    requires r.door[door(1)] != 1
    ensures forall a, b :: DoorKey(a) == DoorKey(b) <==> a == b || (a < 2 && b < 2)
    ensures var (q, slot) := Resolve(r, 1, door);
            slot == r.k && Valid(q) && 0 !in q.dict.index && Resolve(q, 0, door).1 < r.k
  {
    ResolveValid(r, 1, door);
    DictSize(r.dict, r.k);
    DictShape(r.dict, r.k);
  }

  lemma FreshIsValid(k: nat, maxDims: nat, firstRowOn: bool)
    requires k > 0
    ensures Valid(Fresh(k, maxDims, firstRowOn)) && Disciplined(Fresh(k, maxDims, firstRowOn), Notes(0, map[], {}))
  {
    FreshOk(k, maxDims, firstRowOn);
  }

  /** From a new registry on, any run keeps every bound and loses nothing. */
  lemma FromFresh(k: nat, maxDims: nat, firstRowOn: bool, os: seq<Obs>, door: nat -> nat, c: Class)
    requires k > 0 && DoorHash(door)
    ensures Valid(Fresh(k, maxDims, firstRowOn))
    ensures var r := Fresh(k, maxDims, firstRowOn);
            var q := Run(r, os, door);
            && CountSum(q.store.series) == q.totalObs
            && Total(q.store.series, c, k + 1) == Seen(r, os, door, c)
            && |q.store.series| <= MaxSeries(k, maxDims)
            && Disciplined(q, NotesAfter(r, Notes(0, map[], {}), os, door))
  {
    var r := Fresh(k, maxDims, firstRowOn);
    FreshIsValid(k, maxDims, firstRowOn);
    NothingYet(c, k + 1);
    assert r.store.series == map[] && r.totalObs == 0 && r.k == k && r.maxDims == maxDims;
    hide Run, Seen, Add, Disciplined, Valid, Total, Fresh, MaxSeries, NotesAfter;
    CountsAreObservations(r, os, door);
    RunConserves(r, os, door, c);
    AddUnit(Seen(r, os, door, c));
    SeriesAreBounded(Run(r, os, door));
    RunDiscipline(r, Notes(0, map[], {}), os, door);
  }

  lemma {:induction false} NothingYet(c: Class, n: nat)
    ensures Total(map[], c, n) == ZERO
  {
    hide Add;
    AddUnit(ZERO);
    if n > 0 { NothingYet(c, n - 1); }
  }
}
