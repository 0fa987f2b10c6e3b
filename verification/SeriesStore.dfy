/**
 The series of src/metrics/registry.c as they are in memory: the hash of module
 SeriesHash, and for every slot the list of its series. They are created, added to and
 folded away in place, and every operation is the one of module Registry.
 */
module SeriesStore {
  import opened Accumulators
  import opened Hist
  import opened Options
  import opened Registry
  import opened Sequences
  import opened SeriesHash
  import opened SizeHist

  /** The families that are recorded whatever the clock says, one after the other. */
  method RecordAlways(acc: Acc, o: Obs) returns (a: Acc)
    ensures a == RecordUntimed(acc, o)
  {
    hide Observed;
    a := acc;
    if o.profile.Total() {
      var qc := if o.outcome < OUTCOMES then o.outcome else 0;
      var ax := if o.profile.RedisProfile? then qc else o.sclass;
      if ax >= o.profile.AxisSize() { ax := 0; }
      assert ax == AxisOf(o);
      a := a.(tally := a.tally[ax := a.tally[ax] + 1]);
    }
    if o.profile.Bytes() {
      a := a.(bytesIn := a.bytesIn + o.bytesIn, bytesOut := a.bytesOut + o.bytesOut);
    }
    if o.hasBlock && o.profile.Blocking() {
      a := a.(second := Observed(a.second, o.block));
    }
  }

  /** The families of a timed observation. */
  method RecordTiming(acc: Acc, o: Obs, firstRowOn: bool) returns (a: Acc)
    ensures a == RecordTimed(acc, o, firstRowOn)
  {
    hide Observed;
    a := acc.(dur := Observed(acc.dur, o.dur), rows := acc.rows + o.rows);
    if o.hasFirstRow && (o.profile.Ttfb() || (firstRowOn && o.profile.FirstRow())) {
      a := a.(second := Observed(a.second, o.firstRow));
    }
    if o.hasUpload && o.profile.Upload() {
      a := a.(upload := Observed(a.upload, o.upload));
    }
  }

  /** What lk_reg_observe does to the accumulators of a series. */
  method RecordInto(acc: Acc, o: Obs, firstRowOn: bool) returns (a: Acc)
    ensures a == Record(acc, o, firstRowOn)
  {
    hide RecordUntimed, RecordTimed;
    a := RecordAlways(acc, o);
    if !o.hasDuration { return; }
    a := RecordTiming(a, o, firstRowOn);
  }

  function KeysOf(xs: seq<Series>): seq<Key> { seq(|xs|, i requires 0 <= i < |xs| => xs[i].key) }

  function Names(lists: seq<seq<Series>>): (ks: seq<seq<Key>>)
    ensures |ks| == |lists|
  {
    seq(|lists|, i requires 0 <= i < |lists| => KeysOf(lists[i]))
  }

  /** The series of a slot's list are resident. */
  ghost predicate Resident(xs: seq<Series>, slot: nat, nodes: map<Key, Series>)
  {
    forall s :: s in xs ==> s.key.slot == slot && s.key in nodes && nodes[s.key] == s
  }

  class SeriesTable {
    const hash: Buckets
    var lists: seq<seq<Series>>

    ghost var Repr: set<object>

    /** The memory of the table, and its hash in order. */
    ghost predicate Hashed()
      reads this, Repr
    {
      {hash, hash.heads} <= Repr && Repr == {this, hash, hash.heads} + hash.known && hash.Valid()
    }

    ghost predicate Valid()
      reads this, Repr
      ensures Valid() ==> this in Repr && Hashed()
    {
      Hashed() && forall i :: 0 <= i < |lists| ==> Resident(lists[i], i, hash.nodes)
    }

    /** The store this table stands for. */
    ghost function Value(): (st: Store)
      requires Hashed()
      reads this, Repr
      ensures |st.lists| == |lists|
    {
      Store(AccsOf(hash.nodes), SizesOn(hash.nodes), Names(lists))
    }

    constructor (slots: nat, size: nat, home: Key -> nat)
      requires forall key :: home(key) < size
      ensures Valid() && Value() == Store(map[], map[], Nils(slots)) && fresh(Repr)
    {
      var b := new Buckets(size, home);
      hash, lists, Repr := b, seq(slots, i => []), {this, b, b.heads};
      new;
      assert Names(lists) == Nils(slots);
    }

    /** The hash part of series_get. */
    method Fetch(key: Key) returns (s: Series, made: bool)
      requires Hashed()
      modifies this`Repr, hash, hash.heads
      ensures Hashed() && s.key == key && hash.nodes == old(hash.nodes)[key := s]
      ensures (made <==> key !in old(hash.nodes)) && (!made ==> hash.nodes == old(hash.nodes))
      ensures Repr == old(Repr) + {s} && (s in old(Repr) || fresh(s))
      ensures Value() == if made then old(Value()).(series := old(Value()).series[key := ZERO]) else old(Value())
    {
      hide Buckets.Valid, AccsOf, SizesOn, Names;
      s, made := hash.Get(key);
      Repr := Repr + {s};
    }

    /** The list part: a new series in front. */
    method Enlist(s: Series)
      requires Hashed() && s.key.slot < |lists|
      modifies this`lists
      ensures Hashed() && lists == old(lists)[s.key.slot := [s] + old(lists)[s.key.slot]]
      ensures var was := old(Value());
              Value() == was.(lists := was.lists[s.key.slot := [s.key] + was.lists[s.key.slot]])
    {
      hide Buckets.Valid, AccsOf, SizesOn, Names;
      NamesFront(lists, s);
      lists := lists[s.key.slot := [s] + lists[s.key.slot]];
    }

    /** series_get: the series of a key; a new one also heads the list of its slot. */
    method Obtain(key: Key) returns (s: Series)
      requires Hashed() && key.slot < |lists|
      modifies this, hash, hash.heads
      ensures Hashed() && s.key == key && hash.nodes == old(hash.nodes)[key := s]
      ensures key in old(hash.nodes) ==> hash.nodes == old(hash.nodes)
      ensures lists == if key in old(hash.nodes) then old(lists) else old(lists)[key.slot := [s] + old(lists)[key.slot]]
      ensures Repr == old(Repr) + {s} && (s in old(Repr) || fresh(s))
      ensures Value() == SeriesGet(old(Value()), key)
    {
      hide Hashed, Value;
      Keys();
      var made;
      s, made := Fetch(key);
      if made { Enlist(s); }
    }

    lemma Keys()
      requires Hashed()
      ensures Value().series.Keys == hash.nodes.Keys
    {
    }

    /** The accumulators of one series are added to those of another. */
    method AddInto(s: Series, dst: Series)
      requires Hashed() && s.key in hash.nodes && hash.nodes[s.key] == s && s != dst
      requires dst.key in hash.nodes && hash.nodes[dst.key] == dst
      modifies dst`acc, dst`size
      ensures Hashed() && AccsOf(hash.nodes) == Added(old(AccsOf(hash.nodes)), s.key, dst.key)
      ensures SizesOn(hash.nodes) == SizesAdded(old(SizesOn(hash.nodes)), s.key, dst.key)
    {
      hide Buckets.Valid, AccsOf, SizesOn, Add, SizeMerged;
      Entry(hash.nodes, dst.key);
      Entry(hash.nodes, s.key);
      hash.Update(dst, Add(dst.acc, s.acc));
      if s.size.Some? {
        hash.Resize(dst, SizeMerged(if dst.size.Some? then dst.size.value else NoSizes(0, 0), s.size.value));
      }
    }

    /** One turn of the fold loop of evict_lru. */
    method FoldStep(s: Series, k: nat) returns (ghost dst: Series)
      requires Hashed() && s.key in hash.nodes && hash.nodes[s.key] == s && s.key.slot < k < |lists|
      modifies Repr
      ensures Hashed() && Value() == FoldOne(old(Value()), k, s.key)
      ensures Repr == old(Repr) + {dst} && (dst in old(Repr) || fresh(dst))
      ensures dst.key in old(hash.nodes) ==> old(hash.nodes)[dst.key] == dst
      ensures dst.key == Key(k, s.key.c) && hash.nodes == old(hash.nodes)[dst.key := dst] - {s.key}
      ensures Extends(old(lists), lists, k, dst)
    {
      hide Buckets.Valid, AccsOf, SizesOn, Names, Add, SizeMerged;
      ghost var st := Value();
      var d := Obtain(Key(k, s.key.c));
      dst := d;
      AddInto(s, d);
      hash.Unlink(s);
      FoldOneParts(st, k, s.key);
    }

    /** The fold loop of evict_lru. */
    method FoldList(k: nat, t: nat)
      requires Valid() && t < k < |lists| && NoDup<Series>(lists[t])
      modifies Repr
      ensures Hashed() && ResidentBut(lists, t, hash.nodes) && |lists| == |old(lists)|
      ensures Value() == FoldAll(old(Value()), k, KeysOf(old(lists)[t])) && fresh(Repr - old(Repr))
    {
      hide Buckets.Valid, AccsOf, SizesOn, FoldOne, NoDup, Names;
      ghost var st := Value();
      var ks := lists[t];
      while ks != []
        invariant Hashed() && |lists| == |old(lists)| && fresh(Repr - old(Repr))
        invariant NoDup<Series>(ks) && Resident(ks, t, hash.nodes) && ResidentBut(lists, t, hash.nodes)
        invariant FoldAll(Value(), k, KeysOf(ks)) == FoldAll(st, k, KeysOf(old(lists)[t]))
        decreases |ks|
      {
        FoldAllFront(Value(), k, ks);
        assert ks[0] in ks;
        ghost var was, nodes := lists, hash.nodes;
        ghost var dst := FoldStep(ks[0], k);
        StillResident(was, lists, nodes, ks, t, k, dst);
        ks := ks[1..];
      }
    }

    /** ... and the slot left without series. */
    method FoldSeries(k: nat, t: nat)
      requires Valid() && t < k < |lists| && NoDup<Series>(lists[t])
      modifies Repr
      ensures Valid() && Value() == FoldSlot(old(Value()), k, t) && fresh(Repr - old(Repr))
    {
      hide Buckets.Valid, AccsOf, SizesOn, FoldAll, NoDup, Names;
      NamesWithout(lists, t);
      FoldList(k, t);
      NamesWithout(lists, t);
      lists := lists[t := []];
    }

    /** What an observation does to a series. */
    method RecordIn(s: Series, o: Obs, firstRowOn: bool)
      requires Hashed() && s.key in hash.nodes && hash.nodes[s.key] == s
      modifies s`acc, s`size
      ensures Hashed() && SizesOn(hash.nodes) == SizesRecorded(old(SizesOn(hash.nodes)), s.key, o)
      ensures var was := old(AccsOf(hash.nodes));
              AccsOf(hash.nodes) == was[s.key := Record(was[s.key], o, firstRowOn)]
    {
      hide Buckets.Valid, AccsOf, SizesOn, Record, SizeObserved;
      Entry(hash.nodes, s.key);
      var a := RecordInto(s.acc, o, firstRowOn);
      hash.Update(s, a);
      if o.hasSize && o.profile.Size() {
        var size := if s.size.Some? then s.size.value else NoSizes(o.profile.SizeMinLog2(), o.profile.SizeBuckets());
        hash.Resize(s, SizeObserved(size, o.size));
      }
    }

    /** The recording of lk_reg_observe, under a series' key. */
    method RecordUnder(key: Key, o: Obs, firstRowOn: bool)
      requires Valid() && key.slot < |lists|
      modifies Repr
      ensures Valid() && Value() == Recording(old(Value()), key, o, firstRowOn) && fresh(Repr - old(Repr))
    {
      hide Buckets.Valid, AccsOf, SizesOn, Names, Record, Resident, SizesRecorded;
      ghost var was, nodes := lists, hash.nodes;
      var s := Obtain(key);
      ObtainedResident(was, lists, nodes, s);
      RecordIn(s, o, firstRowOn);
    }
  }

  /** Every list but that of slot `t` holds residents only. */
  ghost predicate ResidentBut(lists: seq<seq<Series>>, t: nat, nodes: map<Key, Series>)
  {
    forall i :: 0 <= i < |lists| && i != t ==> Resident(lists[i], i, nodes)
  }

  /** Folding one series away leaves all others resident. */
  lemma StillResident(was: seq<seq<Series>>, lists: seq<seq<Series>>, nodes: map<Key, Series>, ks: seq<Series>,
                      t: nat, k: nat, dst: Series)
    requires t < k < |was| && ks != [] && NoDup<Series>(ks) && Resident(ks, t, nodes) && ResidentBut(was, t, nodes)
    requires Extends(was, lists, k, dst) && dst.key.slot == k && (dst.key in nodes ==> nodes[dst.key] == dst)
    ensures var ns := nodes[dst.key := dst] - {ks[0].key};
            NoDup<Series>(ks[1..]) && Resident(ks[1..], t, ns) && ResidentBut(lists, t, ns)
  {
    var ns := nodes[dst.key := dst] - {ks[0].key};
    assert ks[0] in ks;
    forall s | s in ks[1..]
      ensures s.key.slot == t && s.key in ns && ns[s.key] == s
    {
      assert s in ks && s != ks[0];
    }
    forall i | 0 <= i < |lists| && i != t
      ensures Resident(lists[i], i, ns)
    {
      assert Resident(was[i], i, nodes);
    }
  }

  /** A series that was found, or joined in front of its list, leaves all lists resident. */
  lemma ObtainedResident(was: seq<seq<Series>>, lists: seq<seq<Series>>, nodes: map<Key, Series>, s: Series)
    requires s.key.slot < |was| && forall i :: 0 <= i < |was| ==> Resident(was[i], i, nodes)
    requires s.key in nodes ==> nodes[s.key] == s
    requires lists == if s.key in nodes then was else was[s.key.slot := [s] + was[s.key.slot]]
    ensures forall i :: 0 <= i < |lists| ==> Resident(lists[i], i, nodes[s.key := s])
  {
    forall i | 0 <= i < |lists|
      ensures Resident(lists[i], i, nodes[s.key := s])
    {
      assert Resident(was[i], i, nodes);
    }
  }

  lemma DistinctKeys(xs: seq<Series>)
    requires NoDup(KeysOf(xs))
    ensures NoDup<Series>(xs)
  {
    forall i, j | 0 <= i < j < |xs|
      ensures xs[i] != xs[j]
    {
      assert KeysOf(xs)[i] != KeysOf(xs)[j];
    }
  }

  lemma NamesWithout(lists: seq<seq<Series>>, t: nat)
    requires t < |lists|
    ensures Names(lists)[t] == KeysOf(lists[t]) && Names(lists[t := []]) == Names(lists)[t := []]
  {
  }

  lemma FoldAllFront(st: Store, k: nat, ks: seq<Series>)
    requires k < |st.lists| && ks != []
    ensures FoldAll(st, k, KeysOf(ks)) == FoldAll(FoldOne(st, k, ks[0].key), k, KeysOf(ks[1..]))
  {
    hide FoldOne;
    assert KeysOf(ks)[1..] == KeysOf(ks[1..]);
  }

  /** A series may be new in front of a slot's list; nothing else changed. */
  ghost predicate Extends(was: seq<seq<Series>>, lists: seq<seq<Series>>, k: nat, s: Series)
  {
    k < |was| && (lists == was || lists == was[k := [s] + was[k]])
  }

  ghost function Added(accs: map<Key, Acc>, key: Key, dst: Key): map<Key, Acc>
    requires key in accs && dst in accs
  {
    accs[dst := Add(accs[dst], accs[key])]
  }

  ghost function SizesAdded(sizes: map<Key, Sizes>, key: Key, dst: Key): map<Key, Sizes>
  {
    if key in sizes then sizes[dst := SizeMerged(SizeOr(sizes, dst, 0, 0), sizes[key])] else sizes
  }

  lemma FoldOneParts(st: Store, k: nat, key: Key)
    requires k < |st.lists| && key in st.series && key.slot < k
    ensures var dst := Key(k, key.c);
            var g := SeriesGet(st, dst);
            FoldOne(st, k, key) == Store(Added(g.series, key, dst) - {key}, SizesAdded(g.sizes, key, dst) - {key},
                                         g.lists)
  {
    hide Add, SizeMerged;
  }

  /** The lists with the new series of a slot in front. */
  lemma NamesFront(lists: seq<seq<Series>>, s: Series)
    requires s.key.slot < |lists|
    ensures var i := s.key.slot; Names(lists[i := [s] + lists[i]]) == Names(lists)[i := [s.key] + Names(lists)[i]]
  {
    assert KeysOf([s] + lists[s.key.slot]) == [s.key] + KeysOf(lists[s.key.slot]);
  }
}
