/**
 The size histograms of the series over whole runs: count and sum are conserved in
 every run, and where a protocol has one profile two grids never meet, so that the
 exported buckets count exactly the sizes observed, whatever was evicted.
 */
module RegistrySizes {
  import opened Accumulators
  import opened Hist
  import opened Registry
  import opened RegistryMeaning
  import opened RegistryTheorems
  import opened Sequences
  import opened SizeHist

  // ---- totals over the slots ------------------------------------------------

  function ReadAt(sizes: map<Key, Sizes>, key: Key, p: Part): nat
    requires p.Exists()
  {
    if key in sizes then Read(sizes[key], p) else 0
  }

  /** A part of the size histograms of a class, summed over the first `n` slots. */
  function SizeTotal(sizes: map<Key, Sizes>, c: Class, n: nat, p: Part): nat
    requires p.Exists()
  {
    if n == 0 then 0 else SizeTotal(sizes, c, n - 1, p) + ReadAt(sizes, Key(n - 1, c), p)
  }

  lemma {:induction false} SizeTotalSame(a: map<Key, Sizes>, b: map<Key, Sizes>, c: Class, n: nat, p: Part)
    requires p.Exists() && forall s :: 0 <= s < n ==> ReadAt(a, Key(s, c), p) == ReadAt(b, Key(s, c), p)
    ensures SizeTotal(a, c, n, p) == SizeTotal(b, c, n, p)
  {
    hide ReadAt;
    if n > 0 { SizeTotalSame(a, b, c, n - 1, p); }
  }

  /** Where only one series changed, the total moves by its change. */
  lemma {:induction false} SizeTotalMoves(a: map<Key, Sizes>, b: map<Key, Sizes>, key: Key, n: nat, p: Part)
    requires p.Exists() && key.slot < n && forall x: Key :: x != key ==>
             (x in a <==> x in b) && (x in a ==> a[x] == b[x])
    ensures SizeTotal(b, key.c, n, p) + ReadAt(a, key, p) == SizeTotal(a, key.c, n, p) + ReadAt(b, key, p)
  {
    if key.slot == n - 1 {
      SizeTotalSame(a, b, key.c, n - 1, p);
    } else {
      SizeTotalMoves(a, b, key, n - 1, p);
    }
  }

  lemma SizeTotalElsewhere(a: map<Key, Sizes>, b: map<Key, Sizes>, c: Class, n: nat, p: Part)
    requires p.Exists() && forall x: Key :: x.c == c ==> (x in a <==> x in b) && (x in a ==> a[x] == b[x])
    ensures SizeTotal(a, c, n, p) == SizeTotal(b, c, n, p)
  {
    SizeTotalSame(a, b, c, n, p);
  }

  // ---- one grid -------------------------------------------------------------

  /** Every size histogram of a class is on one grid. */
  ghost predicate OnGrid(sizes: map<Key, Sizes>, c: Class, g: Grid)
  {
    forall key :: key in sizes && key.c == c ==> sizes[key].Grid() == g && Tight(sizes[key])
  }

  /** A cell can be accounted for on one grid only; count and sum always. */
  ghost predicate Accountable(sizes: map<Key, Sizes>, c: Class, g: Grid, p: Part)
  {
    p.Exists() && (p.Cell? ==> OnGrid(sizes, c, g))
  }

  lemma FoldedRead(sizes: map<Key, Sizes>, key: Key, dst: Key, g: Grid, p: Part)
    requires key in sizes && key.c == dst.c && key != dst && Accountable(sizes, key.c, g, p)
    ensures var to := SizesFolded(sizes, key, dst);
            ReadAt(to, dst, p) == ReadAt(sizes, dst, p) + ReadAt(sizes, key, p) && ReadAt(to, key, p) == 0
  {
    hide SizeMerged, Read;
    var d := SizeOr(sizes, dst, 0, 0);
    NoSizesRead(0, 0, p);
    if p.Cell? { MatchedRead(d, sizes[key], p); } else { MergedRead(d, sizes[key], p); }
  }

  /** Folding a series away leaves every accountable total of every class alone. */
  lemma FoldedTotal(sizes: map<Key, Sizes>, key: Key, k: nat, c: Class, g: Grid, p: Part)
    requires key.slot < k && Accountable(sizes, c, g, p)
    ensures SizeTotal(SizesFolded(sizes, key, Key(k, key.c)), c, k + 1, p) == SizeTotal(sizes, c, k + 1, p)
  {
    hide SizeMerged, SizeTotal, ReadAt, OnGrid;
    var dst, to := Key(k, key.c), SizesFolded(sizes, key, Key(k, key.c));
    if key in sizes {
      if c == key.c {
        FoldedRead(sizes, key, dst, g, p);
        var mid := sizes - {key};
        SizeTotalMoves(sizes, mid, key, k + 1, p);
        SizeTotalMoves(mid, to, dst, k + 1, p);
        GoneReads(sizes, key, dst, p);
      } else {
        SizeTotalElsewhere(sizes, to, c, k + 1, p);
      }
    }
  }

  lemma GoneReads(sizes: map<Key, Sizes>, key: Key, dst: Key, p: Part)
    requires p.Exists() && key != dst
    ensures ReadAt(sizes - {key}, key, p) == 0 && ReadAt(sizes - {key}, dst, p) == ReadAt(sizes, dst, p)
  {
  }

  /** A fold meets only histograms of the class, so it stays on their grid. */
  lemma FoldedOnGrid(sizes: map<Key, Sizes>, key: Key, k: nat, c: Class, g: Grid)
    requires key.slot < k && OnGrid(sizes, c, g)
    ensures OnGrid(SizesFolded(sizes, key, Key(k, key.c)), c, g)
  {
    hide SizeMerged, Tight;
    if key in sizes && key.c == c {
      var d := SizeOr(sizes, Key(k, c), 0, 0);
      NothingTight();
      MergedTight(d, sizes[key]);
      MergedGrid(d, sizes[key]);
    }
  }

  lemma NothingTight()
    ensures forall m, n :: 0 <= n <= MAX_SIZE_BUCKETS ==> Tight(NoSizes(m, n))
  {
  }

  lemma {:induction false} FoldAllSizes(st: Store, k: nat, ks: seq<Key>, c: Class, g: Grid, p: Part)
    requires k < |st.lists| && (forall key :: key in ks ==> key.slot < k) && Accountable(st.sizes, c, g, p)
    ensures SizeTotal(FoldAll(st, k, ks).sizes, c, k + 1, p) == SizeTotal(st.sizes, c, k + 1, p)
    ensures OnGrid(st.sizes, c, g) ==> OnGrid(FoldAll(st, k, ks).sizes, c, g)
    decreases |ks|
  {
    hide SizeTotal, OnGrid, FoldOne;
    if ks != [] {
      FoldOneSizes(st, k, ks[0]);
      FoldedTotal(st.sizes, ks[0], k, c, g, p);
      if OnGrid(st.sizes, c, g) { FoldedOnGrid(st.sizes, ks[0], k, c, g); }
      FoldAllSizes(FoldOne(st, k, ks[0]), k, ks[1..], c, g, p);
    }
  }

  lemma FoldOneSizes(st: Store, k: nat, key: Key)
    requires k < |st.lists|
    ensures FoldOne(st, k, key).sizes == SizesFolded(st.sizes, key, Key(k, key.c))
  {
    hide Add, SizesFolded;
  }

  lemma ResolveSizes(r: Reg, fp: nat, door: nat -> nat, c: Class, g: Grid, p: Part)
    requires Valid(r) && DoorHash(door) && Accountable(r.store.sizes, c, g, p)
    ensures var q := Resolve(r, fp, door).0.store.sizes;
            && SizeTotal(q, c, r.k + 1, p) == SizeTotal(r.store.sizes, c, r.k + 1, p)
            && (OnGrid(r.store.sizes, c, g) ==> OnGrid(q, c, g))
  {
    hide SizeTotal, OnGrid, FoldAll, Resolve, Valid;
    ResolveStore(r, fp, door);
    if Resolve(r, fp, door).0.store != r.store {
      FoldAllSizes(r.store, r.k, r.store.lists[Last(r.dict.order)], c, g, p);
    }
  }

  // ---- one observation ------------------------------------------------------

  /** The observation puts a size into a class. */
  predicate Takes(r: Reg, o: Obs, c: Class) { Recorded(o) && Sized(o) && ClassOf(r, o) == c }

  lemma RecordedTotal(sizes: map<Key, Sizes>, key: Key, o: Obs, c: Class, n: nat, g: Grid, p: Part)
    requires key.slot < n && Accountable(sizes, c, g, p)
    requires p.Cell? && key.c == c && Sized(o) ==> o.profile.SizeGrid() == g
    requires Fits(g)
    ensures var to := SizesRecorded(sizes, key, o);
            && (p.Cell? ==> OnGrid(to, c, g))
            && SizeTotal(to, c, n, p) ==
               SizeTotal(sizes, c, n, p) + if Sized(o) && key.c == c then Due([o.size], g, p) else 0
  {
    hide SizeTotal, SizeObserved, Read, Tight;
    var to := SizesRecorded(sizes, key, o);
    if Sized(o) {
      var h := SizeOr(sizes, key, o.profile.SizeMinLog2(), o.profile.SizeBuckets());
      if key.c == c {
        ObservedRead(h, o.size, p);
        NoSizesRead(o.profile.SizeMinLog2(), o.profile.SizeBuckets(), p);
        SizeTotalMoves(sizes, to, key, n, p);
        NothingTight();
        if p.Cell? { ObservedTight(h, o.size); }
      } else {
        SizeTotalElsewhere(sizes, to, c, n, p);
      }
    }
  }

  lemma RecordingSizes(st: Store, key: Key, o: Obs, firstRowOn: bool)
    requires key.slot < |st.lists|
    ensures Recording(st, key, o, firstRowOn).sizes == SizesRecorded(st.sizes, key, o)
  {
    hide Record, SizesRecorded;
  }

  lemma ObserveSizes(r: Reg, o: Obs, door: nat -> nat, c: Class, g: Grid, p: Part)
    requires Valid(r) && DoorHash(door) && Accountable(r.store.sizes, c, g, p) && Fits(g)
    requires p.Cell? && Takes(r, o, c) ==> o.profile.SizeGrid() == g
    ensures var q := Observe(r, o, door).store.sizes;
            && (p.Cell? ==> OnGrid(q, c, g))
            && SizeTotal(q, c, r.k + 1, p) ==
               SizeTotal(r.store.sizes, c, r.k + 1, p) + if Takes(r, o, c) then Due([o.size], g, p) else 0
  {
    hide SizeTotal, OnGrid, Resolve, Recording, ClassOf, Observe, Placed, Valid, Due, SizesRecorded;
    if Recorded(o) {
      PlacedValid(r, o, door);
      var (r1, key) := Placed(r, o, door);
      ObserveRecords(r, o, door);
      PlacedSeries(r, o, door);
      ValidFacts(r1);
      if !(o.forceOther || !o.labelled) { ResolveSizes(Interned(r, o), o.fp, door, c, g, p); }
      RecordingSizes(r1.store, key, o, r.firstRowOn);
      RecordedTotal(r1.store.sizes, key, o, c, r.k + 1, g, p);
    } else {
      ObserveIgnores(r, o, door);
    }
  }

  // ---- whole runs -----------------------------------------------------------

  /** The sizes among some observations, in order. */
  function SizesIn(os: seq<Obs>): seq<nat>
  {
    if os == [] then []
    else SizesIn(os[..|os| - 1]) + if Sized(os[|os| - 1]) then [os[|os| - 1].size] else []
  }

  /** The sizes among some observations belong to one grid. */
  ghost predicate OneGrid(os: seq<Obs>, g: Grid) { forall o :: o in os && Sized(o) ==> o.profile.SizeGrid() == g }

  lemma SizesInMore(os: seq<Obs>, o: Obs)
    ensures SizesIn(os + [o]) == SizesIn(os) + if Sized(o) then [o.size] else []
  {
    assert (os + [o])[..|os + [o]| - 1] == os;
  }

  lemma NothingDue(g: Grid, p: Part)
    requires Fits(g)
    ensures Due([], g, p) == 0
  {
  }

  /** Over every run, a part of the sizes of a class grows by exactly what is due to the
      sizes observed under it. */
  lemma {:induction false} RunSizes(r: Reg, os: seq<Obs>, door: nat -> nat, c: Class, g: Grid, p: Part)
    requires Valid(r) && DoorHash(door) && Accountable(r.store.sizes, c, g, p) && Fits(g)
    requires p.Cell? ==> OneGrid(Under(r, os, door, c), g)
    ensures var q := Run(r, os, door).store.sizes;
            && SizeTotal(q, c, r.k + 1, p) ==
               SizeTotal(r.store.sizes, c, r.k + 1, p) + Due(SizesIn(Under(r, os, door, c)), g, p)
            && (p.Cell? ==> OnGrid(q, c, g))
    decreases |os|
  {
    hide SizeTotal, OnGrid, Observe, Due, Valid, ClassOf, SizesIn;
    if os == [] {
      NothingDue(g, p);
      assert SizesIn([]) == [] by { NoSizesIn(); }
    } else {
      var init, o := os[..|os| - 1], os[|os| - 1];
      var us, m := Under(r, init, door, c), Run(r, init, door);
      RunSizes(r, init, door, c, g, p);
      ObserveSizes(m, o, door, c, g, p);
      SizesInMore(us, o);
      DueConcat(SizesIn(us), [o.size], g, p);
      assert us + [] == us && SizesIn(us) + [] == SizesIn(us);
    }
  }

  lemma NoSizesIn()
    ensures SizesIn([]) == []
  {
  }

  /** In every run, whatever the protocols and their grids: the sizes of a class are
      counted once each and add up. */
  lemma SizesAreConserved(k: nat, maxDims: nat, firstRowOn: bool, os: seq<Obs>, door: nat -> nat, c: Class)
    requires k > 0 && DoorHash(door)
    ensures Valid(Fresh(k, maxDims, firstRowOn))
    ensures var r := Fresh(k, maxDims, firstRowOn);
            var q, xs := Run(r, os, door).store.sizes, SizesIn(Under(r, os, door, c));
            SizeTotal(q, c, k + 1, Count) == |xs| && SizeTotal(q, c, k + 1, SizeHist.Total) == Bytes(xs)
  {
    hide Run, Under, Valid, SizesIn, SizeTotal;
    FreshOk(k, maxDims, firstRowOn);
    var r := Fresh(k, maxDims, firstRowOn);
    NothingTotal(c, k + 1, Count);
    NothingTotal(c, k + 1, SizeHist.Total);
    RunSizes(r, os, door, c, HTTP_GRID, Count);
    RunSizes(r, os, door, c, HTTP_GRID, SizeHist.Total);
  }

  lemma {:induction false} NothingTotal(c: Class, n: nat, p: Part)
    requires p.Exists()
    ensures SizeTotal(map[], c, n, p) == 0
  {
    if n > 0 { NothingTotal(c, n - 1, p); }
  }

  // ---- one profile, one grid ------------------------------------------------

  /** Interning gives a name the position it has in the list. */
  lemma InternedAt(protos: seq<string>, name: string)
    ensures var (names, i) := Intern(protos, name, MAX_PROTOS);
            protos <= names && (i < MAX_PROTOS && |protos| <= MAX_PROTOS ==> i < |names| && names[i] == name)
  {
    FindFirst(protos, name);
  }

  lemma ObserveProtos(r: Reg, o: Obs, door: nat -> nat)
    requires Valid(r) && DoorHash(door)
    ensures r.protos <= Observe(r, o, door).protos
    ensures Recorded(o) ==> Observe(r, o, door).protos == Intern(r.protos, ProtoName(o), MAX_PROTOS).0
  {
    hide Recording, Intern, FoldSlot;
  }

  /** The observations under a class name its protocol, unless that is the spill. */
  lemma {:induction false} UnderNames(r: Reg, os: seq<Obs>, door: nat -> nat, c: Class)
    requires Valid(r) && DoorHash(door) && c.proto < MAX_PROTOS
    ensures r.protos <= Run(r, os, door).protos
    ensures forall o :: o in Under(r, os, door, c) ==>
                          o in os && c.proto < |Run(r, os, door).protos| &&
                            ProtoName(o) == Run(r, os, door).protos[c.proto]
    decreases |os|
  {
    hide Observe, Valid, Intern;
    if os != [] {
      var init, o := os[..|os| - 1], os[|os| - 1];
      UnderNames(r, init, door, c);
      var m := Run(r, init, door);
      ObserveProtos(m, o, door);
      InternedAt(m.protos, ProtoName(o));
      ProtosFit(m);
    }
  }

  lemma ProtosFit(r: Reg)
    requires Valid(r)
    ensures |r.protos| <= MAX_PROTOS
  {
  }

  /** A protocol has one profile: name and profile come from one record of the protocol. */
  ghost predicate OneProfile(os: seq<Obs>, profileOf: string -> Profile)
  {
    forall o :: o in os ==> o.profile == profileOf(ProtoName(o))
  }

  lemma OneProfileOneGrid(r: Reg, os: seq<Obs>, door: nat -> nat, c: Class, profileOf: string -> Profile)
    requires Valid(r) && DoorHash(door) && OneProfile(os, profileOf)
    requires c.proto < MAX_PROTOS && c.proto < |Run(r, os, door).protos|
    ensures OneGrid(Under(r, os, door, c), profileOf(Run(r, os, door).protos[c.proto]).SizeGrid())
  {
    hide Valid, Run, Under;
    UnderNames(r, os, door, c);
  }

  // ---- the exported buckets -------------------------------------------------

  function Gathered(acc: Sizes, sizes: map<Key, Sizes>, key: Key): Sizes
  {
    if key in sizes then SizeMerged(acc, sizes[key]) else acc
  }

  /** The accumulator of an exported row: both codes of a slot, dimension and protocol. */
  function Row(sizes: map<Key, Sizes>, slot: nat, dim: nat, proto: nat): Sizes
  {
    Gathered(Gathered(NoSizes(0, 0), sizes, Key(slot, Class(dim, proto, 0))), sizes, Key(slot, Class(dim, proto, 1)))
  }

  predicate HasRow(sizes: map<Key, Sizes>, slot: nat, dim: nat, proto: nat)
  {
    Key(slot, Class(dim, proto, 0)) in sizes || Key(slot, Class(dim, proto, 1)) in sizes
  }

  /** A bucket of the size family, summed over the exported rows. */
  function ExportedSizes(sizes: map<Key, Sizes>, dim: nat, proto: nat, i: nat, n: nat): nat
  {
    if n == 0 then 0
    else
      var h := Row(sizes, n - 1, dim, proto);
      ExportedSizes(sizes, dim, proto, i, n - 1) +
      if HasRow(sizes, n - 1, dim, proto) && i < h.Grid().n then Cumulated(h, i) else 0
  }

  /** On one grid a row is on that grid and its parts are those of its two series. */
  lemma RowReads(sizes: map<Key, Sizes>, slot: nat, dim: nat, proto: nat, g: Grid, p: Part)
    requires p.Exists() && OnGrid(sizes, Class(dim, proto, 0), g) && OnGrid(sizes, Class(dim, proto, 1), g)
    ensures HasRow(sizes, slot, dim, proto) ==> Row(sizes, slot, dim, proto).Grid() == g
    ensures Read(Row(sizes, slot, dim, proto), p) ==
            ReadAt(sizes, Key(slot, Class(dim, proto, 0)), p) + ReadAt(sizes, Key(slot, Class(dim, proto, 1)), p)
  {
    hide SizeMerged, Read, Tight;
    var a, b := Key(slot, Class(dim, proto, 0)), Key(slot, Class(dim, proto, 1));
    NoSizesRead(0, 0, p);
    if a in sizes { MatchedRead(NoSizes(0, 0), sizes[a], p); }
    if b in sizes { MatchedRead(Gathered(NoSizes(0, 0), sizes, a), sizes[b], p); }
  }

  /** A bucket is the one before and the cells of both codes between. */
  lemma {:induction false} ExportedStep(sizes: map<Key, Sizes>, dim: nat, proto: nat, g: Grid, i: nat, n: nat)
    requires OnGrid(sizes, Class(dim, proto, 0), g) && OnGrid(sizes, Class(dim, proto, 1), g) && i < g.n && Fits(g)
    ensures ExportedSizes(sizes, dim, proto, i, n) ==
            (if i == 0 then 0 else ExportedSizes(sizes, dim, proto, i - 1, n)) +
            SizeTotal(sizes, Class(dim, proto, 0), n, Cell(i)) + SizeTotal(sizes, Class(dim, proto, 1), n, Cell(i))
    decreases n
  {
    hide OnGrid, Row, ReadAt, Cumulated, Read;
    if n > 0 {
      ExportedStep(sizes, dim, proto, g, i, n - 1);
      RowReads(sizes, n - 1, dim, proto, g, Cell(i));
      if HasRow(sizes, n - 1, dim, proto) {
        CumulatedStep(Row(sizes, n - 1, dim, proto), i);
      } else {
        NoRow(sizes, n - 1, dim, proto, Cell(i));
      }
    }
  }

  lemma NoRow(sizes: map<Key, Sizes>, slot: nat, dim: nat, proto: nat, p: Part)
    requires p.Exists() && !HasRow(sizes, slot, dim, proto)
    ensures ReadAt(sizes, Key(slot, Class(dim, proto, 0)), p) == 0 &&
            ReadAt(sizes, Key(slot, Class(dim, proto, 1)), p) == 0
  {
  }

  /** Where the cells of both codes are what is due, so are the exported buckets. */
  lemma {:induction false} ExportedIsDue(sizes: map<Key, Sizes>, dim: nat, proto: nat, g: Grid, i: nat, n: nat,
                                         xs: seq<nat>, ys: seq<nat>)
    requires OnGrid(sizes, Class(dim, proto, 0), g) && OnGrid(sizes, Class(dim, proto, 1), g) && i < g.n && Fits(g)
    requires forall j :: 0 <= j <= i ==> SizeTotal(sizes, Class(dim, proto, 0), n, Cell(j)) == InSlot(xs, g, j)
    requires forall j :: 0 <= j <= i ==> SizeTotal(sizes, Class(dim, proto, 1), n, Cell(j)) == InSlot(ys, g, j)
    ensures ExportedSizes(sizes, dim, proto, i, n) == UpToSlot(xs, g, i) + UpToSlot(ys, g, i)
    decreases i
  {
    hide OnGrid, SizeTotal, InSlot, UpToSlot, ExportedSizes;
    ExportedStep(sizes, dim, proto, g, i, n);
    UpToSlotStep(xs, g, i);
    UpToSlotStep(ys, g, i);
    if i > 0 { ExportedIsDue(sizes, dim, proto, g, i - 1, n, xs, ys); }
  }

  /** What a run from a new registry leaves in the cells of a class. */
  lemma CellsAreDue(r: Reg, os: seq<Obs>, door: nat -> nat, c: Class, g: Grid)
    requires Valid(r) && DoorHash(door) && Fits(g) && r.store.sizes == map[] && OneGrid(Under(r, os, door, c), g)
    ensures var q := Run(r, os, door).store.sizes;
            && OnGrid(q, c, g)
            && forall j :: 0 <= j <= MAX_SIZE_BUCKETS ==>
                 SizeTotal(q, c, r.k + 1, Cell(j)) == InSlot(SizesIn(Under(r, os, door, c)), g, j)
  {
    hide Run, Under, Valid, SizesIn, SizeTotal, InSlot, OneGrid;
    var q := Run(r, os, door).store.sizes;
    RunSizes(r, os, door, c, g, Cell(0));
    forall j | 0 <= j <= MAX_SIZE_BUCKETS
      ensures SizeTotal(q, c, r.k + 1, Cell(j)) == InSlot(SizesIn(Under(r, os, door, c)), g, j)
    {
      NothingTotal(c, r.k + 1, Cell(j));
      RunSizes(r, os, door, c, g, Cell(j));
    }
  }

  /** From a new registry on, over every run in which a protocol has one profile: the size
      histograms of a protocol that has a name of its own are all on the grid of its
      profile, and the exported bucket of a boundary counts exactly the sizes up to it,
      answered and failed, whatever was evicted. */
  lemma ExportedSizesAreExact(k: nat, maxDims: nat, firstRowOn: bool, os: seq<Obs>, door: nat -> nat, dim: nat,
                              proto: nat, profileOf: string -> Profile, i: nat)
    requires k > 0 && DoorHash(door) && OneProfile(os, profileOf) && Valid(Fresh(k, maxDims, firstRowOn))
    requires proto < |Run(Fresh(k, maxDims, firstRowOn), os, door).protos|
    requires i < profileOf(Run(Fresh(k, maxDims, firstRowOn), os, door).protos[proto]).SizeGrid().n
    ensures var r := Fresh(k, maxDims, firstRowOn);
            var q := Run(r, os, door);
            var g := profileOf(q.protos[proto]).SizeGrid();
            var fine, failed := Class(dim, proto, 0), Class(dim, proto, 1);
            && OnGrid(q.store.sizes, fine, g) && OnGrid(q.store.sizes, failed, g)
            && ExportedSizes(q.store.sizes, dim, proto, i, k + 1) ==
               SizesUpTo(SizesIn(Under(r, os, door, fine)), Pow(g.min + i)) +
               SizesUpTo(SizesIn(Under(r, os, door, failed)), Pow(g.min + i))
  {
    hide Run, Under, Valid, SizesIn, SizeTotal, InSlot, OneGrid, OnGrid, SizesUpTo, UpToSlot, Pow, ExportedSizes,
         OneProfile;
    var r := Fresh(k, maxDims, firstRowOn);
    var q := Run(r, os, door);
    var g := profileOf(q.protos[proto]).SizeGrid();
    var fine, failed := Class(dim, proto, 0), Class(dim, proto, 1);
    ProtosFit(q);
    OneProfileOneGrid(r, os, door, fine, profileOf);
    OneProfileOneGrid(r, os, door, failed, profileOf);
    CellsAreDue(r, os, door, fine, g);
    CellsAreDue(r, os, door, failed, g);
    var xs, ys := SizesIn(Under(r, os, door, fine)), SizesIn(Under(r, os, door, failed));
    ExportedIsDue(q.store.sizes, dim, proto, g, i, k + 1, xs, ys);
    UpToSlotIsBound(xs, g, i);
    UpToSlotIsBound(ys, g, i);
  }

  // ---- `other` never shrinks ------------------------------------------------

  /** No cell, count or sum is smaller. */
  ghost predicate SizesAtMost(a: Sizes, b: Sizes) { forall p: Part :: p.Exists() ==> Read(a, p) <= Read(b, p) }

  /** Every size histogram of slot `k` is still there and nothing in it is smaller. */
  ghost predicate SizesGrow(a: map<Key, Sizes>, b: map<Key, Sizes>, k: nat)
  {
    forall c :: Key(k, c) in a ==> Key(k, c) in b && SizesAtMost(a[Key(k, c)], b[Key(k, c)])
  }

  lemma FoldedGrows(sizes: map<Key, Sizes>, key: Key, k: nat)
    requires key.slot < k
    ensures SizesGrow(sizes, SizesFolded(sizes, key, Key(k, key.c)), k)
  {
    hide SizeMerged, Read;
    if key in sizes {
      forall p: Part | p.Exists()
        ensures Read(SizeOr(sizes, Key(k, key.c), 0, 0),
                     p) <= Read(SizeMerged(SizeOr(sizes, Key(k, key.c), 0, 0), sizes[key]), p)
      {
        MergedRead(SizeOr(sizes, Key(k, key.c), 0, 0), sizes[key], p);
      }
    }
  }

  lemma {:induction false} FoldAllGrows(st: Store, k: nat, ks: seq<Key>)
    requires k < |st.lists| && forall key :: key in ks ==> key.slot < k
    ensures SizesGrow(st.sizes, FoldAll(st, k, ks).sizes, k)
    decreases |ks|
  {
    hide FoldOne, Read;
    if ks != [] {
      FoldOneSizes(st, k, ks[0]);
      FoldedGrows(st.sizes, ks[0], k);
      FoldAllGrows(FoldOne(st, k, ks[0]), k, ks[1..]);
    }
  }

  lemma RecordedGrows(sizes: map<Key, Sizes>, key: Key, o: Obs, k: nat)
    ensures SizesGrow(sizes, SizesRecorded(sizes, key, o), k)
  {
    hide SizeObserved, Read;
    if Sized(o) {
      var h := SizeOr(sizes, key, o.profile.SizeMinLog2(), o.profile.SizeBuckets());
      forall p: Part | p.Exists()
        ensures Read(h, p) <= Read(SizeObserved(h, o.size), p)
      {
        ObservedRead(h, o.size, p);
      }
    }
  }

  lemma ResolveGrows(r: Reg, fp: nat, door: nat -> nat)
    requires Valid(r) && DoorHash(door)
    ensures SizesGrow(r.store.sizes, Resolve(r, fp, door).0.store.sizes, r.k)
  {
    hide FoldAll, Read, Resolve, Valid;
    ResolveStore(r, fp, door);
    if Resolve(r, fp, door).0.store != r.store {
      FoldAllGrows(r.store, r.k, r.store.lists[Last(r.dict.order)]);
    }
  }

  lemma ObserveGrows(r: Reg, o: Obs, door: nat -> nat)
    requires Valid(r) && DoorHash(door)
    ensures SizesGrow(r.store.sizes, Observe(r, o, door).store.sizes, r.k)
  {
    hide Resolve, Recording, ClassOf, Observe, Placed, Valid, SizesRecorded, Read;
    if Recorded(o) {
      PlacedValid(r, o, door);
      var (r1, key) := Placed(r, o, door);
      ObserveRecords(r, o, door);
      PlacedSeries(r, o, door);
      if !(o.forceOther || !o.labelled) { ResolveGrows(Interned(r, o), o.fp, door); }
      RecordingSizes(r1.store, key, o, r.firstRowOn);
      RecordedGrows(r1.store.sizes, key, o, r.k);
    } else {
      ObserveIgnores(r, o, door);
    }
  }

  /** Over every run, and whatever the grids, no cell, count or sum of a size histogram of
      `other` ever decreases. */
  lemma {:induction false} OtherSizesNeverShrink(r: Reg, os: seq<Obs>, door: nat -> nat)
    requires Valid(r) && DoorHash(door)
    ensures SizesGrow(r.store.sizes, Run(r, os, door).store.sizes, r.k)
    decreases |os|
  {
    hide Observe, Valid, Read;
    if os != [] {
      OtherSizesNeverShrink(r, os[..|os| - 1], door);
      ObserveGrows(Run(r, os[..|os| - 1], door), os[|os| - 1], door);
    }
  }
}
