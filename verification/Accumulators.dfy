/**
 What one series of src/metrics/registry.c accumulates, as a commutative monoid: the
 fold of an evicted series into `other` is addition.
 */
module Accumulators {
  import opened Hist
  import opened SizeHist

  const CLASSES: nat := 6
  const OUTCOMES: nat := 4

  /** struct series without its identity. A histogram that was never allocated is an
      empty one; `second` is the first-row, time-to-first-byte or blocking histogram.
      The size histogram is not part of the monoid: its grid comes with its first user. */
  datatype Fields = Acc(dur: Histogram, rows: nat, tally: seq<nat>, bytesIn: nat, bytesOut: nat,
                        second: Histogram, upload: Histogram)

  type Acc = a: Fields | |a.tally| == CLASSES
    witness Acc(EMPTY, 0, Zeros(CLASSES), 0, 0, EMPTY, EMPTY)

  const ZERO: Acc := Acc(EMPTY, 0, Zeros(CLASSES), 0, 0, EMPTY, EMPTY)

  /** The body of the fold in evict_lru. */
  function Add(a: Acc, b: Acc): Acc
  {
    Acc(Merged(a.dur, b.dur), a.rows + b.rows, Plus(a.tally, b.tally), a.bytesIn + b.bytesIn, a.bytesOut + b.bytesOut,
        Merged(a.second, b.second), Merged(a.upload, b.upload))
  }

  lemma AddUnit(a: Acc)
    ensures Add(a, ZERO) == a && Add(ZERO, a) == a
  {
    hide Merged, Plus;
    MergeUnit(a.dur);
    MergeUnit(a.second);
    MergeUnit(a.upload);
    assert Plus(a.tally, ZERO.tally) == a.tally && Plus(ZERO.tally, a.tally) == a.tally;
  }

  lemma AddCommutes(a: Acc, b: Acc)
    ensures Add(a, b) == Add(b, a)
  {
    hide Merged, Plus;
    MergeCommutes(a.dur, b.dur);
    MergeCommutes(a.second, b.second);
    MergeCommutes(a.upload, b.upload);
    assert Plus(a.tally, b.tally) == Plus(b.tally, a.tally);
  }

  lemma AddAssociates(a: Acc, b: Acc, c: Acc)
    ensures Add(Add(a, b), c) == Add(a, Add(b, c))
  {
    hide Merged, Plus;
    MergeAssociates(a.dur, b.dur, c.dur);
    MergeAssociates(a.second, b.second, c.second);
    MergeAssociates(a.upload, b.upload, c.upload);
    assert Plus(Plus(a.tally, b.tally), c.tally) == Plus(a.tally, Plus(b.tally, c.tally));
  }

  lemma AddSwaps(a: Acc, b: Acc, c: Acc)
    ensures Add(Add(a, b), c) == Add(Add(a, c), b)
  {
    hide Add;
    AddAssociates(a, b, c);
    AddCommutes(b, c);
    AddAssociates(a, c, b);
  }

  /** `b` is `a` and something more. */
  ghost predicate Covers(a: Acc, b: Acc) { exists x: Acc :: Add(a, x) == b }

  lemma CoversItself(a: Acc)
    ensures Covers(a, a)
  {
    AddUnit(a);
  }

  lemma CoversTransitive(a: Acc, b: Acc, c: Acc)
    requires Covers(a, b) && Covers(b, c)
    ensures Covers(a, c)
  {
    var x: Acc :| Add(a, x) == b;
    var y: Acc :| Add(b, y) == c;
    AddAssociates(a, x, y);
  }

  /** No cell, count or sum is smaller. */
  ghost predicate HistogramAtMost(a: Histogram, b: Histogram)
  {
    && a.count <= b.count && a.sum <= b.sum && a.underflow <= b.underflow && a.overflow <= b.overflow
    && a.nonpos <= b.nonpos
    && forall i :: 0 <= i < NBUCKETS ==> a.bucket[i] <= b.bucket[i]
  }

  ghost predicate AtMost(a: Acc, b: Acc)
  {
    && HistogramAtMost(a.dur, b.dur) && HistogramAtMost(a.second, b.second) && HistogramAtMost(a.upload, b.upload)
    && a.rows <= b.rows && a.bytesIn <= b.bytesIn && a.bytesOut <= b.bytesOut
    && forall i :: 0 <= i < CLASSES ==> a.tally[i] <= b.tally[i]
  }

  /** Something more is never less, in any family. */
  lemma CoversAtMost(a: Acc, b: Acc)
    requires Covers(a, b)
    ensures AtMost(a, b)
  {
    var x: Acc :| Add(a, x) == b;
  }

  // ---- what one observation records -----------------------------------------

  datatype Profile = QueryProfile | HttpProfile | S3Profile | RedisProfile
  {
    /** The families table of the profile, as far as series are concerned. */
    predicate Total() { !QueryProfile? }
    predicate Bytes() { !QueryProfile? }
    predicate Size() { !QueryProfile? }
    predicate Ttfb() { HttpProfile? || S3Profile? }
    predicate Upload() { HttpProfile? || S3Profile? }
    predicate FirstRow() { QueryProfile? }
    predicate Blocking() { RedisProfile? }
    predicate Internal() { S3Profile? }
    /** The grid fields of the profile; 0 and 0 where it names none. */
    function SizeMinLog2(): nat { if S3Profile? then OBJECT_GRID.min else if RedisProfile? then VALUE_GRID.min else 0 }
    function SizeBuckets(): nat { if S3Profile? then OBJECT_GRID.n else if RedisProfile? then VALUE_GRID.n else 0 }
    function SizeGrid(): Grid { Effective(SizeMinLog2(), SizeBuckets()) }
    function AxisSize(): nat { if RedisProfile? then OUTCOMES else CLASSES }
  }

  /** The part of struct lk_reg_obs that reaches the dictionary and the series. */
  datatype Obs = Obs(fp: nat, labelled: bool, forceOther: bool, db: string, user: string, proto: string,
                     profile: Profile,
                     error: bool, internal: bool, hasDuration: bool, dur: Sample, rows: nat, outcome: nat, sclass: nat,
                     bytesIn: nat, bytesOut: nat, hasSize: bool, size: nat, hasBlock: bool, block: Sample,
                     hasFirstRow: bool, firstRow: Sample, hasUpload: bool, upload: Sample)

  /** Does the observation carry a size that its profile has a family for? */
  predicate Sized(o: Obs) { o.hasSize && o.profile.Size() }

  /** Does the observation reach a series at all? */
  predicate Recorded(o: Obs)
  {
    !(o.internal && o.profile.Internal()) && (o.hasDuration || o.profile.Total())
  }

  function Bumped(t: seq<nat>, i: nat): (u: seq<nat>)
    requires i < |t|
    ensures |u| == |t|
  {
    t[i := t[i] + 1]
  }

  function AxisOf(o: Obs): nat
  {
    var outcome := if o.outcome < OUTCOMES then o.outcome else 0;
    var ax := if o.profile.RedisProfile? then outcome else o.sclass;
    if ax < o.profile.AxisSize() then ax else 0
  }

  /** The untimed part of lk_reg_observe on a series. */
  function RecordUntimed(a: Acc, o: Obs): Acc
  {
    var b := if o.profile.Total() then a.(tally := Bumped(a.tally, AxisOf(o))) else a;
    var c := if o.profile.Bytes() then b.(bytesIn := b.bytesIn + o.bytesIn, bytesOut := b.bytesOut + o.bytesOut) else b;
    if o.hasBlock && o.profile.Blocking() then c.(second := Observed(c.second, o.block)) else c
  }

  /** The timed part; `firstRowOn` is the configuration switch of the query profile. */
  function RecordTimed(a: Acc, o: Obs, firstRowOn: bool): Acc
  {
    var b := a.(dur := Observed(a.dur, o.dur), rows := a.rows + o.rows);
    var c := if o.hasFirstRow && (o.profile.Ttfb() || (firstRowOn && o.profile.FirstRow()))
             then b.(second := Observed(b.second, o.firstRow)) else b;
    if o.hasUpload && o.profile.Upload() then c.(upload := Observed(c.upload, o.upload)) else c
  }

  function Record(a: Acc, o: Obs, firstRowOn: bool): Acc
  {
    if o.hasDuration then RecordTimed(RecordUntimed(a, o), o, firstRowOn) else RecordUntimed(a, o)
  }

  lemma UntimedIsAdd(a: Acc, b: Acc, o: Obs)
    ensures RecordUntimed(Add(a, b), o) == Add(a, RecordUntimed(b, o))
  {
    hide Merged, Observed, Plus;
    MergeObserve(a.second, b.second, o.block);
    assert Bumped(Plus(a.tally, b.tally), AxisOf(o)) == Plus(a.tally, Bumped(b.tally, AxisOf(o)));
  }

  lemma TimedIsAdd(a: Acc, b: Acc, o: Obs, firstRowOn: bool)
    ensures RecordTimed(Add(a, b), o, firstRowOn) == Add(a, RecordTimed(b, o, firstRowOn))
  {
    hide Merged, Observed, Plus;
    MergeObserve(a.dur, b.dur, o.dur);
    MergeObserve(a.second, b.second, o.firstRow);
    MergeObserve(a.upload, b.upload, o.upload);
  }

  /** Recording is adding the observation's own contribution. */
  lemma RecordIsAdd(a: Acc, o: Obs, firstRowOn: bool)
    ensures Record(a, o, firstRowOn) == Add(a, Record(ZERO, o, firstRowOn))
  {
    AddUnit(a);
    UntimedIsAdd(a, ZERO, o);
    TimedIsAdd(a, RecordUntimed(ZERO, o), o, firstRowOn);
  }

  /** A timed observation counts once in the duration histogram, an untimed one never. */
  lemma RecordCounts(o: Obs, firstRowOn: bool)
    ensures Record(ZERO, o, firstRowOn).dur.count == if o.hasDuration then 1 else 0
  {
    hide Observed;
    ObservedCounts(EMPTY, o.dur);
  }

  lemma ObservedCounts(h: Histogram, x: Sample)
    ensures Observed(h, x).count == h.count + 1
  {
  }
}
