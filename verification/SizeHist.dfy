/**
 The octave histogram of sizes of src/metrics/hist.c. The grid travels in the
 histogram, so a merge means something only when both sides were filled on the same
 cells; this module says exactly when.
 */
module SizeHist {
  import opened Hist

  const MAX_SIZE_BUCKETS: nat := 31

  /** A grid: cell i holds the sizes up to 2^(min + i) and above the cell before. */
  datatype Grid = Grid(min: nat, n: nat)

  const HTTP_GRID := Grid(6, 25)
  const OBJECT_GRID := Grid(10, 31)
  const VALUE_GRID := Grid(3, 21)

  function Pow(n: nat): nat { if n == 0 then 1 else 2 * Pow(n - 1) }

  /** The grid a pair of fields stands for: nbuckets 0 is the default one. */
  function Effective(minLog2: nat, nbuckets: nat): Grid
  {
    if nbuckets == 0 then HTTP_GRID else Grid(minLog2, nbuckets)
  }

  /** lk_bhist. */
  datatype SizeCells = SizeCells(minLog2: nat, nbuckets: nat, bucket: seq<nat>, overflow: nat, sum: nat, count: nat)
  {
    function Grid(): Grid { Effective(minLog2, nbuckets) }
  }

  type Sizes = s: SizeCells | |s.bucket| == MAX_SIZE_BUCKETS && s.nbuckets <= MAX_SIZE_BUCKETS
    witness SizeCells(0, 0, Zeros(MAX_SIZE_BUCKETS), 0, 0, 0)

  /** A histogram before anything was observed. */
  function NoSizes(minLog2: nat, nbuckets: nat): Sizes
    requires nbuckets <= MAX_SIZE_BUCKETS
  {
    SizeCells(minLog2, nbuckets, Zeros(MAX_SIZE_BUCKETS), 0, 0, 0)
  }

  /** The size is above the bound of cell `j`. */
  predicate Passes(bytes: nat, min: nat, j: nat) { bytes > Pow(min + j) }

  /** The cell of a size: the first whose bound it does not pass, or `n` for overflow. */
  function SizeCell(bytes: nat, min: nat, n: nat, i: nat): (c: nat)
    requires i <= n
    ensures i <= c <= n
    ensures forall j :: i <= j < c ==> Passes(bytes, min, j)
    ensures c < n ==> !Passes(bytes, min, c)
    decreases n - i
  {
    if i < n && Passes(bytes, min, i) then SizeCell(bytes, min, n, i + 1) else i
  }

  /** lk_bhist_observe. */
  function SizeObserved(h: Sizes, bytes: nat): Sizes
  {
    var c := SizeCell(bytes, h.Grid().min, h.Grid().n, 0);
    var g := h.(count := h.count + 1, sum := h.sum + bytes);
    if c == h.Grid().n then g.(overflow := g.overflow + 1)
    else g.(bucket := g.bucket[c := g.bucket[c] + 1])
  }

  /** lk_bhist_merge: a destination without a grid takes the one of the source. */
  function SizeMerged(a: Sizes, b: Sizes): Sizes
  {
    var d := if a.nbuckets == 0 then a.(minLog2 := b.Grid().min, nbuckets := b.Grid().n) else a;
    var n := d.nbuckets;
    d.(bucket := Plus(d.bucket[..n], b.bucket[..n]) + d.bucket[n..],
       overflow := d.overflow + b.overflow, sum := d.sum + b.sum, count := d.count + b.count)
  }

  /** The histogram of a list of sizes. */
  function SizesOf(minLog2: nat, nbuckets: nat, xs: seq<nat>): (h: Sizes)
    requires nbuckets <= MAX_SIZE_BUCKETS
    ensures h.minLog2 == minLog2 && h.nbuckets == nbuckets
  {
    if xs == [] then NoSizes(minLog2, nbuckets)
    else SizeObserved(SizesOf(minLog2, nbuckets, xs[..|xs| - 1]), xs[|xs| - 1])
  }

  // ---- what the cells hold --------------------------------------------------

  predicate Fits(g: Grid) { g.n <= MAX_SIZE_BUCKETS }

  /** The cell of a size on a grid; the overflow is the cell behind the last one there
      can be. */
  function Slot(x: nat, g: Grid): (k: nat)
    requires Fits(g)
    ensures k < g.n || k == MAX_SIZE_BUCKETS
  {
    var c := SizeCell(x, g.min, g.n, 0);
    if c == g.n then MAX_SIZE_BUCKETS else c
  }

  /** How many sizes fall in a cell. */
  function InSlot(xs: seq<nat>, g: Grid, k: nat): nat
    requires Fits(g)
  {
    if xs == [] then 0
    else InSlot(xs[..|xs| - 1], g, k) + if Slot(xs[|xs| - 1], g) == k then 1 else 0
  }

  function Bytes(xs: seq<nat>): nat { if xs == [] then 0 else Bytes(xs[..|xs| - 1]) + xs[|xs| - 1] }

  /** A part of a histogram: a cell, with the overflow as the last, the sum or the count. */
  datatype Part = Cell(k: nat) | Total | Count
  {
    predicate Exists() { Cell? ==> k <= MAX_SIZE_BUCKETS }
  }

  function Read(h: Sizes, p: Part): nat
    requires p.Exists()
  {
    match p
    case Cell(k) => if k == MAX_SIZE_BUCKETS then h.overflow else h.bucket[k]
    case Total => h.sum
    case Count => h.count
  }

  /** What a part is by right. */
  function Due(xs: seq<nat>, g: Grid, p: Part): nat
    requires Fits(g)
  {
    match p
    case Cell(k) => InSlot(xs, g, k)
    case Total => Bytes(xs)
    case Count => |xs|
  }

  lemma NoSizesRead(minLog2: nat, nbuckets: nat, p: Part)
    requires nbuckets <= MAX_SIZE_BUCKETS && p.Exists()
    ensures Read(NoSizes(minLog2, nbuckets), p) == 0
  {
  }

  /** One more size is one more where it is due. */
  lemma ObservedRead(h: Sizes, x: nat, p: Part)
    requires p.Exists()
    ensures Read(SizeObserved(h, x), p) == Read(h, p) + Due([x], h.Grid(), p)
  {
    hide SizeCell;
    assert [x][..0] == [];
    assert InSlot([], h.Grid(), if p.Cell? then p.k else 0) == 0 && Bytes([]) == 0;
  }

  lemma {:induction false} DueConcat(xs: seq<nat>, ys: seq<nat>, g: Grid, p: Part)
    requires Fits(g)
    ensures Due(xs + ys, g, p) == Due(xs, g, p) + Due(ys, g, p)
    decreases |ys|
  {
    hide Slot;
    if ys == [] {
      assert xs + ys == xs;
    } else {
      assert (xs + ys)[..|xs + ys| - 1] == xs + ys[..|ys| - 1];
      DueConcat(xs, ys[..|ys| - 1], g, p);
    }
  }

  /** Every part of the histogram of a list is what is due. */
  lemma {:induction false} SizesOfRead(minLog2: nat, nbuckets: nat, xs: seq<nat>, p: Part)
    requires nbuckets <= MAX_SIZE_BUCKETS && p.Exists()
    ensures Read(SizesOf(minLog2, nbuckets, xs), p) == Due(xs, Effective(minLog2, nbuckets), p)
  {
    hide Read, SizeObserved, Slot;
    if xs == [] {
      NoSizesRead(minLog2, nbuckets, p);
    } else {
      var init, x := xs[..|xs| - 1], xs[|xs| - 1];
      assert xs == init + [x];
      SizesOfRead(minLog2, nbuckets, init, p);
      ObservedRead(SizesOf(minLog2, nbuckets, init), x, p);
      DueConcat(init, [x], Effective(minLog2, nbuckets), p);
    }
  }

  lemma SameHistogram(a: Sizes, b: Sizes)
    requires a.minLog2 == b.minLog2 && a.nbuckets == b.nbuckets
    requires forall p: Part :: p.Exists() ==> Read(a, p) == Read(b, p)
    ensures a == b
  {
    assert Read(a, Total) == Read(b, Total) && Read(a, Count) == Read(b, Count);
    assert Read(a, Cell(MAX_SIZE_BUCKETS)) == Read(b, Cell(MAX_SIZE_BUCKETS));
    forall i | 0 <= i < MAX_SIZE_BUCKETS
      ensures a.bucket[i] == b.bucket[i]
    {
      assert Read(a, Cell(i)) == Read(b, Cell(i));
    }
  }

  /** A merge adds every part, but for the cells behind the last one of the destination. */
  lemma MergedRead(a: Sizes, b: Sizes, p: Part)
    requires p.Exists()
    ensures var m := SizeMerged(a, b);
            Read(m, p) == Read(a, p) + if p.Cell? && m.nbuckets <= p.k < MAX_SIZE_BUCKETS then 0 else Read(b, p)
  {
    hide Plus;
  }

  /** A histogram has nothing behind the last cell of its grid. */
  ghost predicate Tight(h: Sizes) { forall i :: h.Grid().n <= i < MAX_SIZE_BUCKETS ==> h.bucket[i] == 0 }

  /** The destination has a grid of its own and it is the source's, or holds nothing yet. */
  predicate Matches(a: Sizes, b: Sizes)
  {
    a.Grid() == b.Grid() || (a.nbuckets == 0 && a == NoSizes(a.minLog2, 0))
  }

  /** Within one grid a merge adds every part. */
  lemma MatchedRead(a: Sizes, b: Sizes, p: Part)
    requires p.Exists() && Matches(a, b) && Tight(b)
    ensures Read(SizeMerged(a, b), p) == Read(a, p) + Read(b, p)
    ensures SizeMerged(a, b).Grid() == b.Grid()
  {
    hide SizeMerged, Read;
    MergedRead(a, b, p);
    MergedGrid(a, b);
    if p.Cell? && b.Grid().n <= p.k < MAX_SIZE_BUCKETS { TightRead(b, p.k); }
  }

  lemma TightRead(h: Sizes, k: nat)
    requires Tight(h) && h.Grid().n <= k < MAX_SIZE_BUCKETS
    ensures Read(h, Cell(k)) == 0
  {
  }

  lemma MergedGrid(a: Sizes, b: Sizes)
    ensures SizeMerged(a, b).nbuckets > 0
    ensures SizeMerged(a, b).Grid() == if a.nbuckets > 0 then a.Grid() else b.Grid()
  {
    hide Plus;
  }

  lemma MergedTight(a: Sizes, b: Sizes)
    requires Matches(a, b) && Tight(a) && Tight(b)
    ensures Tight(SizeMerged(a, b))
  {
    hide Plus;
  }

  lemma ObservedTight(h: Sizes, x: nat)
    requires Tight(h)
    ensures Tight(SizeObserved(h, x)) && SizeObserved(h, x).Grid() == h.Grid()
  {
    hide SizeCell;
  }

  // ---- when a merge is the union --------------------------------------------

  /** Every size falls in the same cell of both grids. */
  ghost predicate SameSlots(xs: seq<nat>, g: Grid, d: Grid)
    requires Fits(g) && Fits(d)
  {
    forall x :: x in xs ==> Slot(x, g) == Slot(x, d)
  }

  lemma {:induction false} SameSlotsSameCells(xs: seq<nat>, g: Grid, d: Grid, k: nat)
    requires Fits(g) && Fits(d) && SameSlots(xs, g, d)
    ensures InSlot(xs, g, k) == InSlot(xs, d, k)
  {
    hide Slot;
    if xs != [] { SameSlotsSameCells(xs[..|xs| - 1], g, d, k); }
  }

  lemma SlotMonotone(x: nat, y: nat, g: Grid)
    requires Fits(g) && x <= y
    ensures Slot(x, g) <= Slot(y, g)
  {
    var c, d := SizeCell(x, g.min, g.n, 0), SizeCell(y, g.min, g.n, 0);
    assert d < c ==> Passes(x, g.min, d);
  }

  /** How many sizes fall in a cell up to `k`. */
  function UpToSlot(xs: seq<nat>, g: Grid, k: nat): nat
    requires Fits(g)
  {
    if xs == [] then 0
    else UpToSlot(xs[..|xs| - 1], g, k) + if Slot(xs[|xs| - 1], g) <= k then 1 else 0
  }

  lemma {:induction false} UpToSlotStep(xs: seq<nat>, g: Grid, k: nat)
    requires Fits(g)
    ensures UpToSlot(xs, g, k) == InSlot(xs, g, k) + if k == 0 then 0 else UpToSlot(xs, g, k - 1)
  {
    hide Slot;
    if xs != [] { UpToSlotStep(xs[..|xs| - 1], g, k); }
  }

  lemma {:induction false} SameCellsSameUpTo(xs: seq<nat>, g: Grid, d: Grid, k: nat)
    requires Fits(g) && Fits(d) && forall j :: 0 <= j <= k ==> InSlot(xs, g, j) == InSlot(xs, d, j)
    ensures UpToSlot(xs, g, k) == UpToSlot(xs, d, k)
    decreases k
  {
    hide InSlot, UpToSlot;
    UpToSlotStep(xs, g, k);
    UpToSlotStep(xs, d, k);
    assert InSlot(xs, g, k) == InSlot(xs, d, k);
    if k > 0 { SameCellsSameUpTo(xs, g, d, k - 1); }
  }

  /** If one size lies further up on `d`, its cell on `g` has more sizes up to it than the
      same cell on `d`: both grids keep sizes in order. */
  lemma {:induction false} FurtherUp(xs: seq<nat>, g: Grid, d: Grid, z: nat)
    requires Fits(g) && Fits(d) && Slot(z, g) < Slot(z, d)
    ensures UpToSlot(xs, d, Slot(z, g)) <= UpToSlot(xs, g, Slot(z, g))
    ensures z in xs ==> UpToSlot(xs, d, Slot(z, g)) < UpToSlot(xs, g, Slot(z, g))
    decreases |xs|
  {
    hide Slot;
    if xs != [] {
      var init, x := xs[..|xs| - 1], xs[|xs| - 1];
      assert xs == init + [x];
      FurtherUp(init, g, d, z);
      if x <= z { SlotMonotone(x, z, g); } else { SlotMonotone(z, x, d); }
    }
  }

  /** Equal cells come from equal slots, size by size. */
  lemma SameCellsSameSlots(xs: seq<nat>, g: Grid, d: Grid)
    requires Fits(g) && Fits(d) && forall k :: 0 <= k <= MAX_SIZE_BUCKETS ==> InSlot(xs, g, k) == InSlot(xs, d, k)
    ensures SameSlots(xs, g, d)
  {
    hide InSlot, UpToSlot, Slot;
    forall z | z in xs
      ensures Slot(z, g) == Slot(z, d)
    {
      if Slot(z, g) < Slot(z, d) {
        SameCellsSameUpTo(xs, g, d, Slot(z, g));
        FurtherUp(xs, g, d, z);
      } else if Slot(z, d) < Slot(z, g) {
        SameCellsSameUpTo(xs, g, d, Slot(z, d));
        FurtherUp(xs, d, g, z);
      }
    }
  }

  /** The grid of the merge of two histograms. */
  function MergeGrid(m1: nat, n1: nat, m2: nat, n2: nat): Grid
  {
    if n1 > 0 then Grid(m1, n1) else Effective(m2, n2)
  }

  lemma {:induction false} NothingBehind(xs: seq<nat>, g: Grid, k: nat)
    requires Fits(g) && g.n <= k < MAX_SIZE_BUCKETS
    ensures InSlot(xs, g, k) == 0
  {
    hide Slot;
    if xs != [] { NothingBehind(xs[..|xs| - 1], g, k); }
  }

  /** All sizes are in some cell. */
  lemma {:induction false} AllInSlots(xs: seq<nat>, g: Grid)
    requires Fits(g)
    ensures UpToSlot(xs, g, MAX_SIZE_BUCKETS) == |xs|
  {
    hide Slot;
    if xs != [] { AllInSlots(xs[..|xs| - 1], g); }
  }

  /** Where the cells of `d` and the overflow agree, `g` has at least as many sizes up to a
      cell behind `d`, and as many only if the cells between are empty. */
  lemma {:induction false} BehindTheGrid(xs: seq<nat>, g: Grid, d: Grid, j: nat)
    requires Fits(g) && Fits(d) && 0 < d.n && d.n - 1 <= j < MAX_SIZE_BUCKETS
    requires forall k :: 0 <= k < d.n ==> InSlot(xs, g, k) == InSlot(xs, d, k)
    ensures UpToSlot(xs, d, j) <= UpToSlot(xs, g, j)
    ensures UpToSlot(xs, d, j) == UpToSlot(xs, g, j) ==> forall k :: d.n <= k <= j ==> InSlot(xs, g, k) == 0
    decreases j
  {
    hide InSlot, UpToSlot;
    if j == d.n - 1 {
      SameCellsSameUpTo(xs, g, d, j);
    } else {
      BehindTheGrid(xs, g, d, j - 1);
      UpToSlotStep(xs, g, j);
      UpToSlotStep(xs, d, j);
      NothingBehind(xs, d, j);
    }
  }

  /** As no size is lost, agreement on the cells of `d` is agreement on all. */
  lemma CellsOfTheGrid(xs: seq<nat>, g: Grid, d: Grid)
    requires Fits(g) && Fits(d) && 0 < d.n
    requires forall k :: 0 <= k < d.n || k == MAX_SIZE_BUCKETS ==> InSlot(xs, g, k) == InSlot(xs, d, k)
    ensures forall k :: 0 <= k <= MAX_SIZE_BUCKETS ==> InSlot(xs, g, k) == InSlot(xs, d, k)
  {
    hide InSlot, UpToSlot;
    var top := MAX_SIZE_BUCKETS;
    AllInSlots(xs, g);
    AllInSlots(xs, d);
    UpToSlotStep(xs, g, top);
    UpToSlotStep(xs, d, top);
    assert InSlot(xs, g, top) == InSlot(xs, d, top);
    BehindTheGrid(xs, g, d, top - 1);
    forall k | d.n <= k < top
      ensures InSlot(xs, g, k) == InSlot(xs, d, k)
    {
      NothingBehind(xs, d, k);
    }
  }

  /** A part of the merge, and the same part of the histogram of everything on its grid. */
  lemma MergeParts(m1: nat, n1: nat, xs: seq<nat>, m2: nat, n2: nat, ys: seq<nat>, p: Part)
    requires n1 <= MAX_SIZE_BUCKETS && n2 <= MAX_SIZE_BUCKETS && p.Exists()
    ensures var d := MergeGrid(m1, n1, m2, n2);
            && Read(SizesOf(d.min, d.n, xs + ys), p) == Due(xs, d, p) + Due(ys, d, p)
            && Read(SizeMerged(SizesOf(m1, n1, xs), SizesOf(m2, n2, ys)), p) == Due(xs, Effective(m1, n1), p) +
               if p.Cell? && d.n <= p.k < MAX_SIZE_BUCKETS then 0 else Due(ys, Effective(m2, n2), p)
  {
    hide SizesOf, SizeMerged, Read, Due;
    var d := MergeGrid(m1, n1, m2, n2);
    SizesOfRead(d.min, d.n, xs + ys, p);
    DueConcat(xs, ys, d, p);
    SizesOfRead(m1, n1, xs, p);
    SizesOfRead(m2, n2, ys, p);
    var a, b := SizesOf(m1, n1, xs), SizesOf(m2, n2, ys);
    MergedRead(a, b, p);
    MergedGrid(a, b);
  }

  /** The merge is the histogram of everything if and only if every size lies in the same
      cell of its own grid and of the destination's. */
  lemma SizeMergeIsUnionIff(m1: nat, n1: nat, xs: seq<nat>, m2: nat, n2: nat, ys: seq<nat>)
    requires n1 <= MAX_SIZE_BUCKETS && n2 <= MAX_SIZE_BUCKETS
    ensures var d := MergeGrid(m1, n1, m2, n2);
            SizeMerged(SizesOf(m1, n1, xs), SizesOf(m2, n2, ys)) == SizesOf(d.min, d.n, xs + ys) <==>
            SameSlots(xs, Effective(m1, n1), d) && SameSlots(ys, Effective(m2, n2), d)
  {
    hide SizesOf, SizeMerged, SameSlots, Read, InSlot;
    var d := MergeGrid(m1, n1, m2, n2);
    if SizeMerged(SizesOf(m1, n1, xs), SizesOf(m2, n2, ys)) == SizesOf(d.min, d.n, xs + ys) {
      UnionNeedsSlots(m1, n1, xs, m2, n2, ys);
    }
    if SameSlots(xs, Effective(m1, n1), d) && SameSlots(ys, Effective(m2, n2), d) {
      SlotsGiveUnion(m1, n1, xs, m2, n2, ys);
    }
  }

  lemma SlotsGiveUnion(m1: nat, n1: nat, xs: seq<nat>, m2: nat, n2: nat, ys: seq<nat>)
    requires n1 <= MAX_SIZE_BUCKETS && n2 <= MAX_SIZE_BUCKETS
    requires var d := MergeGrid(m1, n1, m2, n2);
             SameSlots(xs, Effective(m1, n1), d) && SameSlots(ys, Effective(m2, n2), d)
    ensures var d := MergeGrid(m1, n1, m2, n2);
            SizeMerged(SizesOf(m1, n1, xs), SizesOf(m2, n2, ys)) == SizesOf(d.min, d.n, xs + ys)
  {
    hide SizesOf, SizeMerged, SameSlots, Read, InSlot;
    var d := MergeGrid(m1, n1, m2, n2);
    var m, u := SizeMerged(SizesOf(m1, n1, xs), SizesOf(m2, n2, ys)), SizesOf(d.min, d.n, xs + ys);
    MergedFields(SizesOf(m1, n1, xs), SizesOf(m2, n2, ys));
    forall p: Part | p.Exists()
      ensures Read(m, p) == Read(u, p)
    {
      MergeParts(m1, n1, xs, m2, n2, ys, p);
      if p.Cell? {
        SameSlotsSameCells(xs, Effective(m1, n1), d, p.k);
        SameSlotsSameCells(ys, Effective(m2, n2), d, p.k);
        if d.n <= p.k < MAX_SIZE_BUCKETS { NothingBehind(ys, d, p.k); }
      }
    }
    SameHistogram(m, u);
  }

  lemma MergedFields(a: Sizes, b: Sizes)
    ensures var d := MergeGrid(a.minLog2, a.nbuckets, b.minLog2, b.nbuckets);
            SizeMerged(a, b).minLog2 == d.min && SizeMerged(a, b).nbuckets == d.n
  {
    hide Plus;
  }

  lemma UnionNeedsSlots(m1: nat, n1: nat, xs: seq<nat>, m2: nat, n2: nat, ys: seq<nat>)
    requires n1 <= MAX_SIZE_BUCKETS && n2 <= MAX_SIZE_BUCKETS
    requires var d := MergeGrid(m1, n1, m2, n2);
             SizeMerged(SizesOf(m1, n1, xs), SizesOf(m2, n2, ys)) == SizesOf(d.min, d.n, xs + ys)
    ensures var d := MergeGrid(m1, n1, m2, n2);
            SameSlots(xs, Effective(m1, n1), d) && SameSlots(ys, Effective(m2, n2), d)
  {
    hide SizesOf, SizeMerged, Read, InSlot, Slot;
    var d := MergeGrid(m1, n1, m2, n2);
    var zs, g := if n1 > 0 then ys else xs, Effective(if n1 > 0 then m2 else m1, if n1 > 0 then n2 else n1);
    forall k | 0 <= k < d.n || k == MAX_SIZE_BUCKETS
      ensures InSlot(zs, g, k) == InSlot(zs, d, k)
    {
      MergeParts(m1, n1, xs, m2, n2, ys, Cell(k));
    }
    CellsOfTheGrid(zs, g, d);
    SameCellsSameSlots(zs, g, d);
  }

  /** Within one grid, written out or left to the default, and into an accumulator that is
      still zero, a merge is the histogram of everything. */
  lemma SizeMergeIsUnion(m1: nat, n1: nat, xs: seq<nat>, m2: nat, n2: nat, ys: seq<nat>)
    requires n1 <= MAX_SIZE_BUCKETS && n2 <= MAX_SIZE_BUCKETS
    requires Effective(m1, n1) == Effective(m2, n2) || (n1 == 0 && xs == [])
    ensures var d := Effective(m2, n2);
            SizeMerged(SizesOf(m1, n1, xs), SizesOf(m2, n2, ys)) == SizesOf(d.min, d.n, xs + ys)
  {
    hide SizesOf, SizeMerged, Slot;
    SlotsGiveUnion(m1, n1, xs, m2, n2, ys);
  }

  /** Two grids that do not agree on a size: a redis value of 100 bytes in an http row
      moves from the cell up to 128 to the one up to 1024. */
  lemma GridsDisagree()
    ensures var m := SizeMerged(NoSizes(HTTP_GRID.min, HTTP_GRID.n), SizesOf(VALUE_GRID.min, VALUE_GRID.n, [100]));
            m.bucket[4] == 1 && m != SizesOf(HTTP_GRID.min, HTTP_GRID.n, [100])
  {
    var (h, v) := (HTTP_GRID, VALUE_GRID);
    PowAt();
    assert Slot(100, v) == 4 && Slot(100, h) == 1;
    assert [100] == [] + [100];
    MergeParts(h.min, h.n, [], v.min, v.n, [100], Cell(4));
    SizeMergeIsUnionIff(h.min, h.n, [], v.min, v.n, [100]);
  }

  lemma PowAt()
    ensures Pow(3) == 8 && Pow(4) == 16 && Pow(5) == 32 && Pow(6) == 64 && Pow(7) == 128
  {
    assert Pow(5) == 32;
  }

  // ---- the exported buckets -------------------------------------------------

  /** How many sizes are at most `b`. */
  function SizesUpTo(xs: seq<nat>, b: nat): nat
  {
    if xs == [] then 0 else SizesUpTo(xs[..|xs| - 1], b) + if xs[|xs| - 1] <= b then 1 else 0
  }

  lemma {:induction false} PowMonotone(a: nat, b: nat)
    requires a <= b
    ensures Pow(a) <= Pow(b)
  {
    if a < b { PowMonotone(a, b - 1); }
  }

  lemma SlotIsBound(x: nat, g: Grid, i: nat)
    requires Fits(g) && i < g.n
    ensures Slot(x, g) <= i <==> x <= Pow(g.min + i)
  {
    var c := SizeCell(x, g.min, g.n, 0);
    if c <= i {
      PowMonotone(g.min + c, g.min + i);
      assert !Passes(x, g.min, c);
    } else {
      assert Passes(x, g.min, i);
    }
  }

  lemma {:induction false} UpToSlotIsBound(xs: seq<nat>, g: Grid, i: nat)
    requires Fits(g) && i < g.n
    ensures UpToSlot(xs, g, i) == SizesUpTo(xs, Pow(g.min + i))
  {
    hide Slot, Pow;
    if xs != [] {
      UpToSlotIsBound(xs[..|xs| - 1], g, i);
      SlotIsBound(xs[|xs| - 1], g, i);
    }
  }

  /** A cumulative bucket of lk_bhist_write. */
  function Cumulated(h: Sizes, i: nat): nat
    requires i < h.Grid().n
  {
    Sum(h.bucket[..i + 1])
  }

  lemma CumulatedStep(h: Sizes, i: nat)
    requires i < h.Grid().n
    ensures Cumulated(h, i) == Read(h, Cell(i)) + if i == 0 then 0 else Cumulated(h, i - 1)
  {
    assert h.bucket[..i + 1][..i] == h.bucket[..i];
    if i == 0 { assert Sum(h.bucket[..0]) == 0; }
  }

  /** A histogram that holds what is due in every cell exports, for every boundary, the
      number of sizes up to it. */
  lemma {:induction false} CumulatedIsExact(h: Sizes, xs: seq<nat>, i: nat)
    requires i < h.Grid().n && forall k :: 0 <= k <= i ==> Read(h, Cell(k)) == InSlot(xs, h.Grid(), k)
    ensures Cumulated(h, i) == SizesUpTo(xs, Pow(h.Grid().min + i))
  {
    hide Cumulated, InSlot, Read, UpToSlot, Pow;
    CumulatedStep(h, i);
    UpToSlotStep(xs, h.Grid(), i);
    UpToSlotIsBound(xs, h.Grid(), i);
    assert Read(h, Cell(i)) == InSlot(xs, h.Grid(), i);
    if i > 0 {
      CumulatedIsExact(h, xs, i - 1);
      UpToSlotIsBound(xs, h.Grid(), i - 1);
    }
  }

  // ---- in place -------------------------------------------------------------

  /** The search loop of lk_bhist_observe. */
  method FindSizeCell(bytes: nat, min: nat, n: nat) returns (i: nat)
    ensures i == SizeCell(bytes, min, n, 0)
  {
    i := 0;
    while i < n && bytes > Pow(min + i)
      invariant i <= n && SizeCell(bytes, min, n, 0) == SizeCell(bytes, min, n, i)
    {
      i := i + 1;
    }
  }

  /** The loop of lk_bhist_merge. */
  method AddCells(dst: array<nat>, src: array<nat>, n: nat)
    requires n <= dst.Length == src.Length && dst != src
    modifies dst
    ensures dst[..] == Plus(old(dst[..n]), src[..n]) + old(dst[n..])
  {
    var i := 0;
    while i < n
      invariant 0 <= i <= n
      invariant forall k :: 0 <= k < i ==> dst[k] == old(dst[k]) + src[k]
      invariant forall k :: i <= k < dst.Length ==> dst[k] == old(dst[k])
    {
      dst[i] := dst[i] + src[i];
      i := i + 1;
    }
  }

  /** struct lk_bhist as it is updated. */
  class ByteHist {
    var minLog2: nat
    var nbuckets: nat
    const bucket: array<nat>
    var overflow: nat
    var sum: nat
    var count: nat

    ghost predicate Valid()
      reads this
    {
      bucket.Length == MAX_SIZE_BUCKETS && nbuckets <= MAX_SIZE_BUCKETS
    }

    ghost function Value(): Sizes
      requires Valid()
      reads this, bucket
    {
      SizeCells(minLog2, nbuckets, bucket[..], overflow, sum, count)
    }

    /** calloc, and lk_bhist_init where the profile has a grid. */
    constructor (minLog2: nat, nbuckets: nat)
      ensures Valid() && fresh(bucket)
      ensures Value() == if nbuckets == 0 then NoSizes(0, 0)
                         else NoSizes(minLog2, if nbuckets <= MAX_SIZE_BUCKETS then nbuckets else MAX_SIZE_BUCKETS)
    {
      bucket := new nat[MAX_SIZE_BUCKETS](i => 0);
      this.minLog2 := if nbuckets == 0 then 0 else minLog2;
      this.nbuckets := if nbuckets <= MAX_SIZE_BUCKETS then nbuckets else MAX_SIZE_BUCKETS;
      overflow, sum, count := 0, 0, 0;
      new;
      assert bucket[..] == Zeros(MAX_SIZE_BUCKETS);
    }

    /** lk_bhist_observe. */
    method Observe(bytes: nat)
      requires Valid()
      modifies this, bucket
      ensures Valid() && Value() == SizeObserved(old(Value()), bytes)
    {
      hide SizeCell;
      var n := if nbuckets == 0 then HTTP_GRID.n else nbuckets;
      var min := if nbuckets == 0 then HTTP_GRID.min else minLog2;
      count, sum := count + 1, sum + bytes;
      var i := FindSizeCell(bytes, min, n);
      if i == n { overflow := overflow + 1; } else { bucket[i] := bucket[i] + 1; }
    }

    /** lk_bhist_merge, cell by cell. */
    method Merge(src: ByteHist)
      requires Valid() && src.Valid() && src != this && src.bucket != bucket
      modifies this, bucket
      ensures Valid() && Value() == SizeMerged(old(Value()), src.Value())
    {
      hide Plus;
      if nbuckets == 0 {
        minLog2 := if src.nbuckets == 0 then HTTP_GRID.min else src.minLog2;
        nbuckets := if src.nbuckets == 0 then HTTP_GRID.n else src.nbuckets;
      }
      AddCells(bucket, src.bucket, nbuckets);
      overflow, sum, count := overflow + src.overflow, sum + src.sum, count + src.count;
    }

    /** The running sums of lk_bhist_write, one for every boundary. */
    method Write() returns (out: seq<nat>)
      requires Valid()
      ensures |out| == Value().Grid().n && forall i :: 0 <= i < |out| ==> out[i] == Cumulated(Value(), i)
    {
      hide Sum;
      var n := if nbuckets == 0 then HTTP_GRID.n else nbuckets;
      var cum := 0;
      out := [];
      SumNone();
      while |out| < n
        invariant |out| <= n && cum == Sum(bucket[..|out|])
        invariant forall i :: 0 <= i < |out| ==> out[i] == Cumulated(Value(), i)
      {
        SumNext(bucket[..], |out|);
        cum := cum + bucket[|out|];
        out := out + [cum];
      }
    }
  }

  lemma SumNone()
    ensures Sum([]) == 0
  {
  }

  lemma SumNext(b: seq<nat>, i: nat)
    requires i < |b|
    ensures Sum(b[..i + 1]) == Sum(b[..i]) + b[i]
  {
    assert b[..i + 1][..i] == b[..i];
  }
}
