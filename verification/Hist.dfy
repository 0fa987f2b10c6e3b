/**
 The exponential latency histogram and the octave size histogram of
 src/metrics/hist.c, over exact reals. The grid boundary 2^(k/4) is written through
 its fourth power: v >= 2^(k/4) exactly when v^4 >= 2^k.
 */
module Hist {

  const MIN_INDEX: int := -53
  const MAX_INDEX: int := 24
  const NBUCKETS: nat := 77

  /** 2^k for any integer k. */
  function Pow2(k: int): (r: real)
    ensures r > 0.0
    decreases if k < 0 then -k else k
  {
    if k == 0 then 1.0 else if k > 0 then 2.0 * Pow2(k - 1) else Pow2(k + 1) / 2.0
  }

  lemma Pow2Step(k: int)
    ensures Pow2(k + 1) == 2.0 * Pow2(k)
  {
  }

  lemma {:induction false} Pow2Mono(a: int, b: int)
    requires a <= b
    ensures Pow2(a) <= Pow2(b)
    ensures a < b ==> Pow2(a) < Pow2(b)
    decreases b - a
  {
    if a < b {
      Pow2Step(b - 1);
      Pow2Mono(a, b - 1);
    }
  }

  function Halvings(v: real): int
    requires v >= 0.5
    decreases v.Floor
  {
    if v < 1.0 then 0 else 1 + Halvings(v / 2.0)
  }

  function Doublings(v: real): int
    requires 0.0 < v < 1.0
    decreases (1.0 / v).Floor
  {
    if v >= 0.5 then 0 else
      assert 1.0 / (2.0 * v) == (1.0 / v) / 2.0 && 1.0 / v > 2.0;
      1 + Doublings(2.0 * v)
  }

  /** frexp's exponent, found by halving or doubling into [1/2, 1). */
  function Exponent(v: real): int
    requires v > 0.0
  {
    if v >= 0.5 then Halvings(v) else -Doublings(v)
  }

  lemma {:induction false} HalvingsBracket(v: real)
    requires v >= 0.5
    ensures Pow2(Halvings(v) - 1) <= v < Pow2(Halvings(v))
    decreases v.Floor
  {
    if v >= 1.0 {
      HalvingsBracket(v / 2.0);
      Pow2Step(Halvings(v) - 2);
      Pow2Step(Halvings(v) - 1);
    }
  }

  lemma {:induction false} DoublingsBracket(v: real)
    requires 0.0 < v < 1.0
    ensures Pow2(-Doublings(v) - 1) <= v < Pow2(-Doublings(v))
    decreases (1.0 / v).Floor
  {
    if v < 0.5 {
      assert 1.0 / (2.0 * v) == (1.0 / v) / 2.0 && 1.0 / v > 2.0;
      DoublingsBracket(2.0 * v);
      Pow2Step(-Doublings(v) - 1);
      Pow2Step(-Doublings(v));
    }
  }

  lemma ExponentBracket(v: real)
    requires v > 0.0
    ensures Pow2(Exponent(v) - 1) <= v < Pow2(Exponent(v))
  {
    if v >= 0.5 { HalvingsBracket(v); } else { DoublingsBracket(v); }
  }

  function Fourth(v: real): real { (v * v) * (v * v) }

  /** lk_hist_index: the exponent, and the quarter of the octave the mantissa is in. */
  function Index(v: real): int
    requires v > 0.0
  {
    var e := Exponent(v);
    var m := v / Pow2(e);
    4 * e + SubBucket(Fourth(m))
  }

  /** The quarter octave, by comparing the mantissa to 2^(-1/4), 2^(-1/2) and 2^(-3/4). */
  function SubBucket(q: real): int
  {
    if q >= 1.0 / 2.0 then -1 else if q >= 1.0 / 4.0 then -2 else if q >= 1.0 / 8.0 then -3 else -4
  }

  lemma Scaled(a: real, b: real, c: real)
    requires c > 0.0
    ensures a < b <==> a * c < b * c
    ensures a <= b <==> a * c <= b * c
  {
    assert (b - a) * c == b * c - a * c;
    if a < b { assert (b - a) * c > 0.0; }
    if a > b { assert (a - b) * c > 0.0; }
  }

  lemma SquareMono(a: real, b: real)
    requires 0.0 <= a < b
    ensures a * a < b * b
  {
    Scaled(0.0, b - a, b + a);
    assert (b - a) * (b + a) == b * b - a * a;
  }

  lemma FourthMono(a: real, b: real)
    requires 0.0 <= a && 0.0 <= b
    ensures a < b ==> Fourth(a) < Fourth(b)
    ensures a <= b ==> Fourth(a) <= Fourth(b)
  {
    if a < b {
      SquareMono(a, b);
      SquareMono(a * a, b * b);
    }
  }

  lemma FourthProduct(v: real, a: real, b: real)
    requires v == a * b
    ensures Fourth(v) == Fourth(a) * Fourth(b)
  {
    assert v * v == (a * a) * (b * b);
    var x, y := a * a, b * b;
    assert (x * y) * (x * y) == (x * x) * (y * y);
  }

  lemma DoubledProduct(x: real, y: real, z: real)
    ensures z == x * y <==> 2.0 * z == x * (2.0 * y)
  {
    assert x * (2.0 * y) == 2.0 * (x * y);
  }

  lemma Pow2Zero()
    ensures Pow2(0) == 1.0
  {
  }

  lemma Unit(x: real)
    ensures x * 1.0 == x
  {
  }

  lemma {:induction false} Pow2Add(a: int, b: int)
    ensures Pow2(a + b) == Pow2(a) * Pow2(b)
    decreases if b < 0 then -b else b
  {
    if b == 0 {
      Pow2Zero();
      hide Pow2;
      Unit(Pow2(a));
    } else {
      hide Pow2;
      if b > 0 {
        Pow2Add(a, b - 1);
        Pow2Step(a + b - 1);
        Pow2Step(b - 1);
        DoubledProduct(Pow2(a), Pow2(b - 1), Pow2(a + b - 1));
      } else {
        Pow2Add(a, b + 1);
        Pow2Step(a + b);
        Pow2Step(b);
        DoubledProduct(Pow2(a), Pow2(b), Pow2(a + b));
      }
    }
  }

  lemma FourthPow2(e: int)
    ensures Fourth(Pow2(e)) == Pow2(4 * e)
  {
    Pow2Add(e, e);
    Pow2Add(2 * e, 2 * e);
  }

  /** The quarter octave of a mantissa in [1/2, 1). */
  lemma Quarter(q: real)
    requires 1.0 / 16.0 <= q < 1.0
    ensures Pow2(SubBucket(q)) <= q < Pow2(SubBucket(q) + 1)
  {
    Pow2Step(-1); Pow2Step(-2); Pow2Step(-3); Pow2Step(-4);
    assert Pow2(0) == 1.0;
  }

  lemma Product(m: real, p: real, v: real)
    requires 0.0 < p && v == m * p
    ensures v < p ==> m < 1.0
    ensures p <= 2.0 * v ==> 0.5 <= m
  {
    assert (m - 1.0) * p == m * p - p;
    assert (0.5 - m) * p == 0.5 * p - m * p;
    if m >= 1.0 { assert (m - 1.0) * p >= 0.0; }
    if m < 0.5 { assert (0.5 - m) * p > 0.0; }
  }

  lemma Quotient(v: real, p: real)
    requires 0.0 < p && p <= 2.0 * v && v < p
    ensures (v / p) * p == v && 0.5 <= v / p < 1.0
  {
    assert (v / p) * p == v;
    Product(v / p, p, v);
  }

  /** The mantissa frexp returns. */
  lemma MantissaRange(v: real)
    requires v > 0.0
    ensures var m := v / Pow2(Exponent(v));
            m * Pow2(Exponent(v)) == v && 0.5 <= m < 1.0
  {
    hide Pow2, Exponent;
    ExponentBracket(v);
    Pow2Step(Exponent(v) - 1);
    Quotient(v, Pow2(Exponent(v)));
  }

  lemma MantissaFourth(m: real)
    requires 0.5 <= m < 1.0
    ensures 1.0 / 16.0 <= Fourth(m) < 1.0
  {
    FourthMono(0.5, m);
    FourthMono(m, 1.0);
    assert Fourth(0.5) == 1.0 / 16.0 && Fourth(1.0) == 1.0;
  }

  /** Every positive value lies in the bucket of its index. */
  lemma IndexBrackets(v: real)
    requires v > 0.0
    ensures Pow2(Index(v)) <= Fourth(v) < Pow2(Index(v) + 1)
  {
    hide Pow2, Fourth, Exponent, SubBucket;
    var e := Exponent(v);
    var m := v / Pow2(e);
    MantissaRange(v);
    MantissaFourth(m);
    var q, sub := Fourth(m), SubBucket(Fourth(m));
    Quarter(q);
    FourthProduct(v, m, Pow2(e));
    FourthPow2(e);
    Pow2Add(sub, 4 * e);
    Pow2Add(sub + 1, 4 * e);
    Bracketed(Pow2(sub), q, Pow2(sub + 1), Pow2(4 * e));
    assert Index(v) == sub + 4 * e && Index(v) + 1 == sub + 1 + 4 * e;
  }

  lemma Bracketed(a: real, q: real, b: real, c: real)
    requires a <= q < b && c > 0.0
    ensures a * c <= q * c < b * c
  {
    Scaled(a, q, c);
    Scaled(q, b, c);
  }

  /** The index is the only one: index(v) = k iff 2^(k/4) <= v < 2^((k+1)/4). */
  lemma IndexIff(v: real, k: int)
    requires v > 0.0
    ensures Index(v) == k <==> Pow2(k) <= Fourth(v) < Pow2(k + 1)
  {
    IndexBrackets(v);
    if Index(v) < k { Pow2Mono(Index(v) + 1, k); }
    if k < Index(v) { Pow2Mono(k + 1, Index(v)); }
  }

  /** Below a boundary in value is below it in index. */
  lemma IndexBelow(v: real, k: int)
    requires v > 0.0
    ensures Index(v) < k <==> Fourth(v) < Pow2(k)
  {
    IndexBrackets(v);
    if Index(v) < k { Pow2Mono(Index(v) + 1, k); } else { Pow2Mono(k, Index(v)); }
  }

  /** At the octave boundaries the fourth power can be left out. */
  lemma OctaveBelow(v: real, j: int)
    requires v > 0.0
    ensures Index(v) < 4 * j <==> v < Pow2(j)
  {
    IndexBelow(v, 4 * j);
    FourthPow2(j);
    FourthMono(v, Pow2(j));
    FourthMono(Pow2(j), v);
  }

  // ---- the histogram --------------------------------------------------------

  /** A double: not a number, infinite, or finite. */
  datatype Sample = NaN | PosInf | NegInf | Finite(v: real)

  /** lk_hist: bucket[i] is grid index MIN_INDEX + i. */
  datatype Cells = Cells(bucket: seq<nat>, underflow: nat, overflow: nat, nonpos: nat, sum: real, count: nat)

  function Zeros(n: nat): (z: seq<nat>)
    ensures |z| == n && forall i :: 0 <= i < n ==> z[i] == 0
  {
    if n == 0 then [] else Zeros(n - 1) + [0]
  }

  function Plus(a: seq<nat>, b: seq<nat>): (c: seq<nat>)
    requires |a| == |b|
    ensures |c| == |a| && forall i :: 0 <= i < |a| ==> c[i] == a[i] + b[i]
  {
    if a == [] then [] else Plus(a[..|a| - 1], b[..|b| - 1]) + [a[|a| - 1] + b[|b| - 1]]
  }

  /** Only positive samples are added to the sum, so it is never negative. */
  type Histogram = c: Cells | |c.bucket| == NBUCKETS && c.sum >= 0.0
    witness Cells(Zeros(NBUCKETS), 0, 0, 0, 0.0, 0)

  const EMPTY: Histogram := Cells(Zeros(NBUCKETS), 0, 0, 0, 0.0, 0)

  function Observed(h: Histogram, s: Sample): Histogram
  {
    var c := h.(count := h.count + 1);
    if s.NaN? || s.NegInf? || (s.Finite? && s.v <= 0.0) then
      c.(nonpos := c.nonpos + 1, underflow := c.underflow + 1)
    else if s.PosInf? then c.(overflow := c.overflow + 1)
    else
      var d := c.(sum := c.sum + s.v);
      var k := Index(s.v);
      if k < MIN_INDEX then d.(underflow := d.underflow + 1)
      else if k >= MAX_INDEX then d.(overflow := d.overflow + 1)
      else d.(bucket := d.bucket[k - MIN_INDEX := d.bucket[k - MIN_INDEX] + 1])
  }

  function Merged(a: Histogram, b: Histogram): Histogram
  {
    Cells(Plus(a.bucket, b.bucket),
          a.underflow + b.underflow, a.overflow + b.overflow, a.nonpos + b.nonpos, a.sum + b.sum, a.count + b.count)
  }

  function Of(xs: seq<Sample>): Histogram
  {
    if xs == [] then EMPTY else Observed(Of(xs[..|xs| - 1]), xs[|xs| - 1])
  }

  lemma MergeUnit(h: Histogram)
    ensures Merged(h, EMPTY) == h && Merged(EMPTY, h) == h
  {
    assert Merged(h, EMPTY).bucket == h.bucket && Merged(EMPTY, h).bucket == h.bucket;
  }

  lemma MergeCommutes(a: Histogram, b: Histogram)
    ensures Merged(a, b) == Merged(b, a)
  {
    assert Merged(a, b).bucket == Merged(b, a).bucket;
  }

  lemma MergeAssociates(a: Histogram, b: Histogram, c: Histogram)
    ensures Merged(Merged(a, b), c) == Merged(a, Merged(b, c))
  {
    assert Merged(Merged(a, b), c).bucket == Merged(a, Merged(b, c)).bucket;
  }

  /** Observing into a part of a merge is observing into the whole. */
  lemma MergeObserve(a: Histogram, b: Histogram, s: Sample)
    ensures Merged(a, Observed(b, s)) == Observed(Merged(a, b), s)
  {
    assert Merged(a, Observed(b, s)).bucket == Observed(Merged(a, b), s).bucket;
  }

  /** Merging two histograms is observing the samples of both. */
  lemma {:induction false} MergeIsUnion(xs: seq<Sample>, ys: seq<Sample>)
    ensures Merged(Of(xs), Of(ys)) == Of(xs + ys)
    decreases |ys|
  {
    if ys == [] {
      assert xs + ys == xs;
      MergeUnit(Of(xs));
    } else {
      var init, last := ys[..|ys| - 1], ys[|ys| - 1];
      assert (xs + ys)[..|xs + ys| - 1] == xs + init && (xs + ys)[|xs + ys| - 1] == last;
      MergeIsUnion(xs, init);
      MergeObserve(Of(xs), Of(init), last);
    }
  }

  function Sum(b: seq<nat>): nat
  {
    if b == [] then 0 else Sum(b[..|b| - 1]) + b[|b| - 1]
  }

  lemma {:induction false} SumBump(b: seq<nat>, i: nat)
    requires i < |b|
    ensures Sum(b[i := b[i] + 1]) == Sum(b) + 1
    decreases |b|
  {
    var c := b[i := b[i] + 1];
    if i < |b| - 1 {
      assert c[..|b| - 1] == b[..|b| - 1][i := b[i] + 1];
      SumBump(b[..|b| - 1], i);
    } else {
      assert c[..|b| - 1] == b[..|b| - 1];
    }
  }

  lemma {:induction false} SumPlus(a: seq<nat>, b: seq<nat>)
    requires |a| == |b|
    ensures Sum(Plus(a, b)) == Sum(a) + Sum(b)
    decreases |a|
  {
    if a != [] { SumPlus(a[..|a| - 1], b[..|b| - 1]); }
  }

  lemma {:induction false} SumZero(n: nat)
    ensures Sum(Zeros(n)) == 0
  {
    if n > 0 {
      assert Zeros(n)[..n - 1] == Zeros(n - 1);
      SumZero(n - 1);
    }
  }

  /** An observation adds one to one cell. */
  lemma ObservedOnce(h: Histogram, s: Sample)
    ensures var g := Observed(h, s);
            Sum(g.bucket) + g.underflow + g.overflow == Sum(h.bucket) + h.underflow + h.overflow + 1
  {
    hide Index, Sum;
    if s.Finite? && s.v > 0.0 && MIN_INDEX <= Index(s.v) < MAX_INDEX {
      SumBump(h.bucket, Index(s.v) - MIN_INDEX);
    }
  }

  /** Every observation is in exactly one cell. */
  lemma {:induction false} CountIsAllCells(xs: seq<Sample>)
    ensures var h := Of(xs);
            h.count == |xs| == Sum(h.bucket) + h.underflow + h.overflow
  {
    if xs == [] {
      SumZero(NBUCKETS);
    } else {
      CountIsAllCells(xs[..|xs| - 1]);
      ObservedOnce(Of(xs[..|xs| - 1]), xs[|xs| - 1]);
    }
  }

  /** How many buckets have a grid index below `lt`. */
  function Reach(lt: int): nat
  {
    if lt < MIN_INDEX then 0 else if lt < MAX_INDEX then lt - MIN_INDEX else NBUCKETS
  }

  /** cum_lt. */
  function CumLt(h: Histogram, lt: int): nat
  {
    h.underflow + Sum(h.bucket[..Reach(lt)])
  }

  /** A sample that a cumulative bucket with boundary 2^(lt/4) has to count. */
  predicate Below(s: Sample, lt: int)
  {
    s.NaN? || s.NegInf? || (s.Finite? && (s.v <= 0.0 || Fourth(s.v) < Pow2(lt)))
  }

  function CountBelow(xs: seq<Sample>, lt: int): nat
  {
    if xs == [] then 0 else CountBelow(xs[..|xs| - 1], lt) + if Below(xs[|xs| - 1], lt) then 1 else 0
  }

  /** One observation moves the cumulative count exactly when it lies below. */
  lemma CumLtObserve(h: Histogram, s: Sample, lt: int)
    requires -53 <= lt <= 24
    ensures CumLt(Observed(h, s), lt) == CumLt(h, lt) + if Below(s, lt) then 1 else 0
  {
    if s.Finite? && s.v > 0.0 {
      IndexBelow(s.v, lt);
      var k := Index(s.v);
      hide Index, Fourth, Pow2;
      if MIN_INDEX <= k < MAX_INDEX {
        var b, i := h.bucket, k - MIN_INDEX;
        if k < lt {
          assert b[i := b[i] + 1][..Reach(lt)] == b[..Reach(lt)][i := b[i] + 1];
          SumBump(b[..Reach(lt)], i);
        } else {
          assert b[i := b[i] + 1][..Reach(lt)] == b[..Reach(lt)];
        }
      }
    }
  }

  /** The cumulative count is exact at every boundary of the grid. */
  lemma {:induction false} CumLtIsExact(xs: seq<Sample>, lt: int)
    requires -53 <= lt <= 24
    ensures CumLt(Of(xs), lt) == CountBelow(xs, lt)
  {
    if xs == [] {
      assert EMPTY.bucket[..Reach(lt)] == Zeros(Reach(lt));
      SumZero(Reach(lt));
    } else {
      CumLtIsExact(xs[..|xs| - 1], lt);
      CumLtObserve(Of(xs[..|xs| - 1]), xs[|xs| - 1], lt);
    }
  }

  /** The exported le buckets: at an octave the samples counted are those below 2^j. */
  lemma LeBucketIsExact(xs: seq<Sample>, j: int)
    requires -53 <= 4 * j <= 24
    ensures CumLt(Of(xs), 4 * j) == CountBelow(xs, 4 * j)
    ensures forall v: real :: v > 0.0 ==> (Below(Finite(v), 4 * j) <==> v < Pow2(j))
  {
    CumLtIsExact(xs, 4 * j);
    forall v: real | v > 0.0
      ensures Below(Finite(v), 4 * j) <==> v < Pow2(j)
    {
      IndexBelow(v, 4 * j);
      OctaveBelow(v, j);
    }
  }

  lemma {:induction false} SumPrefix(b: seq<nat>, i: nat, j: nat)
    requires i <= j <= |b|
    ensures Sum(b[..i]) <= Sum(b[..j])
    decreases j
  {
    if i < j {
      assert b[..j][..j - 1] == b[..j - 1];
      SumPrefix(b, i, j - 1);
    }
  }

  /** Cumulative counts never decrease, and never pass the number of observations. */
  lemma CumLtMono(xs: seq<Sample>, a: int, b: int)
    requires a <= b
    ensures CumLt(Of(xs), a) <= CumLt(Of(xs), b) <= |xs|
  {
    var h := Of(xs);
    SumPrefix(h.bucket, Reach(a), Reach(b));
    SumPrefix(h.bucket, Reach(b), NBUCKETS);
    assert h.bucket[..NBUCKETS] == h.bucket;
    CountIsAllCells(xs);
  }

  // ---- in place -------------------------------------------------------------

  /** struct lk_hist. */
  class LatencyHist {
    const bucket: array<nat>
    var underflow: nat
    var overflow: nat
    var nonpos: nat
    var sum: real
    var count: nat

    constructor ()
      ensures Valid() && Value() == EMPTY && fresh(bucket)
    {
      bucket := new nat[NBUCKETS](i => 0);
      underflow, overflow, nonpos, sum, count := 0, 0, 0, 0.0, 0;
      new;
      assert bucket[..] == Zeros(NBUCKETS);
    }

    ghost predicate Valid()
      reads this
    {
      bucket.Length == NBUCKETS && sum >= 0.0
    }

    ghost function Value(): Histogram
      requires Valid()
      reads this, bucket
    {
      Cells(bucket[..], underflow, overflow, nonpos, sum, count)
    }

    /** lk_hist_observe. */
    method Observe(s: Sample)
      requires Valid()
      modifies this, bucket
      ensures Valid() && Value() == Observed(old(Value()), s)
    {
      count := count + 1;
      if s.NaN? || s.NegInf? || (s.Finite? && s.v <= 0.0) {
        nonpos, underflow := nonpos + 1, underflow + 1;
        return;
      }
      if s.PosInf? {
        overflow := overflow + 1;
        return;
      }
      sum := sum + s.v;
      var k := Index(s.v);
      hide Index;
      if k < MIN_INDEX {
        underflow := underflow + 1;
      } else if k >= MAX_INDEX {
        overflow := overflow + 1;
      } else {
        bucket[k - MIN_INDEX] := bucket[k - MIN_INDEX] + 1;
      }
    }

    /** lk_hist_merge, cell by cell. */
    method Merge(src: LatencyHist)
      requires Valid() && src.Valid() && src != this && src.bucket != bucket
      modifies this, bucket
      ensures Valid() && Value() == Merged(old(Value()), src.Value())
    {
      var i := 0;
      while i < NBUCKETS
        invariant 0 <= i <= NBUCKETS
        invariant forall k :: 0 <= k < i ==> bucket[k] == old(bucket[k]) + src.bucket[k]
        invariant forall k :: i <= k < NBUCKETS ==> bucket[k] == old(bucket[k])
        modifies bucket
      {
        bucket[i] := bucket[i] + src.bucket[i];
        i := i + 1;
      }
      underflow, overflow := underflow + src.underflow, overflow + src.overflow;
      nonpos, sum, count := nonpos + src.nonpos, sum + src.sum, count + src.count;
      assert bucket[..] == Plus(old(bucket[..]), src.bucket[..]);
    }

    /** cum_lt. */
    method Cumulative(lt: int) returns (c: nat)
      requires Valid()
      ensures c == CumLt(Value(), lt)
    {
      c := underflow;
      var hi := if lt < MAX_INDEX then lt else MAX_INDEX;
      var k := MIN_INDEX;
      while k < hi
        invariant MIN_INDEX <= k <= MAX_INDEX && (k <= hi || k == MIN_INDEX)
        invariant c == underflow + Sum(bucket[..k - MIN_INDEX])
      {
        assert bucket[..k + 1 - MIN_INDEX][..k - MIN_INDEX] == bucket[..k - MIN_INDEX];
        c := c + bucket[k - MIN_INDEX];
        k := k + 1;
      }
      assert bucket[..][..Reach(lt)] == bucket[..k - MIN_INDEX];
    }
  }
}
