/**
 What the exported accumulators mean: over every run, the series of a dimension,
 protocol and code hold together exactly the samples observed under it. Stated on the
 list of those observations, without the registry.
 */
module RegistryMeaning {
  import opened Accumulators
  import opened Hist
  import opened Registry
  import opened RegistryTheorems

  // ---- the observations of a class ------------------------------------------

  /** An observation that reaches the series: not one of the internal surface of s3, and
      timed, unless its profile counts every one. */
  predicate Reaches(o: Obs)
  {
    !(o.internal && o.profile.S3Profile?) && (o.hasDuration || !o.profile.QueryProfile?)
  }

  /** The observations of a run that are recorded under a class, in order. */
  function Under(r: Reg, os: seq<Obs>, door: nat -> nat, c: Class): seq<Obs>
    requires Valid(r) && DoorHash(door)
  {
    if os == [] then []
    else
      var init, o := os[..|os| - 1], os[|os| - 1];
      Under(r, init, door, c) + if Reaches(o) && ClassOf(Run(r, init, door), o) == c then [o] else []
  }

  function Timings(os: seq<Obs>): seq<Sample>
  {
    if os == [] then [] else Timings(os[..|os| - 1]) + TimingOf(os[|os| - 1])
  }

  function TimingOf(o: Obs): seq<Sample> { if o.hasDuration then [o.dur] else [] }

  /** The first row of a query where it is switched on, the first byte of an http or s3
      answer, the wait of a blocking redis command. */
  function Seconds(os: seq<Obs>, firstRowOn: bool): seq<Sample>
  {
    if os == [] then [] else Seconds(os[..|os| - 1], firstRowOn) + SecondOf(os[|os| - 1], firstRowOn)
  }

  function SecondOf(o: Obs, firstRowOn: bool): seq<Sample>
  {
    match o.profile
    case RedisProfile => if o.hasBlock then [o.block] else []
    case QueryProfile => if firstRowOn && o.hasDuration && o.hasFirstRow then [o.firstRow] else []
    case _ => if o.hasDuration && o.hasFirstRow then [o.firstRow] else []
  }

  function Uploads(os: seq<Obs>): seq<Sample>
  {
    if os == [] then [] else Uploads(os[..|os| - 1]) + UploadOf(os[|os| - 1])
  }

  function UploadOf(o: Obs): seq<Sample>
  {
    if (o.profile.HttpProfile? || o.profile.S3Profile?) && o.hasDuration && o.hasUpload then [o.upload] else []
  }

  /** What an observation is worth to one of the counters. */
  datatype Counter = Rows | BytesIn | BytesOut | Tally(cell: nat)

  function Worth(o: Obs, k: Counter): nat
  {
    match k
    case Rows => if o.hasDuration then o.rows else 0
    case BytesIn => if o.profile.QueryProfile? then 0 else o.bytesIn
    case BytesOut => if o.profile.QueryProfile? then 0 else o.bytesOut
    case Tally(i) => if o.profile.QueryProfile? || Cell(o) != i then 0 else 1
  }

  /** A redis command counts by its outcome, an exchange by its status class; what is
      out of range counts in the first cell. */
  function Cell(o: Obs): nat
  {
    if o.profile.RedisProfile? then if o.outcome < 4 then o.outcome else 0
    else if o.sclass < 6 then o.sclass else 0
  }

  function WorthOf(os: seq<Obs>, k: Counter): nat
  {
    if os == [] then 0 else WorthOf(os[..|os| - 1], k) + Worth(os[|os| - 1], k)
  }

  function Reading(a: Acc, k: Counter): nat
    requires k.Tally? ==> k.cell < CLASSES
  {
    match k
    case Rows => a.rows
    case BytesIn => a.bytesIn
    case BytesOut => a.bytesOut
    case Tally(i) => a.tally[i]
  }

  /** The accumulator holds exactly these observations. */
  ghost predicate Holds(a: Acc, os: seq<Obs>, firstRowOn: bool)
  {
    && a.dur == Of(Timings(os)) && a.second == Of(Seconds(os, firstRowOn)) && a.upload == Of(Uploads(os))
    && forall k: Counter :: (k.Tally? ==> k.cell < CLASSES) ==> Reading(a, k) == WorthOf(os, k)
  }

  // ---- one observation ------------------------------------------------------

  lemma OfOne(x: Sample)
    ensures Of([x]) == Observed(EMPTY, x)
  {
    assert [x][..0] == [];
    assert Of([]) == EMPTY;
  }

  lemma OfNone()
    ensures Of([]) == EMPTY
  {
  }

  lemma RecordSamples(o: Obs, firstRowOn: bool)
    ensures var a := Record(ZERO, o, firstRowOn);
            Recorded(o) ==>
              && a.dur == Of(TimingOf(o)) && a.second == Of(SecondOf(o, firstRowOn))
              && a.upload == Of(UploadOf(o))
  {
    hide Observed, Of, Bumped, AxisOf;
    OfOne(o.dur);
    OfOne(o.block);
    OfOne(o.firstRow);
    OfOne(o.upload);
    assert Of([]) == EMPTY by { OfNone(); }
  }

  lemma UntimedWorth(a: Acc, o: Obs, k: Counter)
    requires k.Tally? ==> k.cell < CLASSES
    ensures Reading(RecordUntimed(a, o), k) == Reading(a, k) + if k.Rows? then 0 else Worth(o, k)
  {
    hide Observed;
  }

  lemma TimedWorth(a: Acc, o: Obs, firstRowOn: bool, k: Counter)
    requires k.Tally? ==> k.cell < CLASSES
    ensures Reading(RecordTimed(a, o, firstRowOn), k) == Reading(a, k) + if k.Rows? then o.rows else 0
  {
    hide Observed;
  }

  /** Recording moves every counter by what the observation is worth to it. */
  lemma RecordWorth(a: Acc, o: Obs, firstRowOn: bool, k: Counter)
    requires k.Tally? ==> k.cell < CLASSES
    ensures Reading(Record(a, o, firstRowOn), k) == Reading(a, k) + Worth(o, k)
  {
    hide RecordUntimed, RecordTimed, Reading;
    UntimedWorth(a, o, k);
    TimedWorth(RecordUntimed(a, o), o, firstRowOn, k);
  }

  lemma HoldsMore(a: Acc, os: seq<Obs>, o: Obs, firstRowOn: bool)
    requires Recorded(o) && Holds(a, os, firstRowOn)
    ensures Holds(Add(a, Record(ZERO, o, firstRowOn)), os + [o], firstRowOn)
  {
    hide Observed, Of, Merged, Record, RecordUntimed, RecordTimed, TimingOf, SecondOf, UploadOf, Worth, Reading;
    var x := Record(ZERO, o, firstRowOn);
    assert (os + [o])[..|os + [o]| - 1] == os;
    RecordSamples(o, firstRowOn);
    MergeIsUnion(Timings(os), TimingOf(o));
    MergeIsUnion(Seconds(os, firstRowOn), SecondOf(o, firstRowOn));
    MergeIsUnion(Uploads(os), UploadOf(o));
    forall k: Counter | k.Tally? ==> k.cell < CLASSES
      ensures Reading(Add(a, x), k) == WorthOf(os + [o], k)
    {
      RecordIsAdd(a, o, firstRowOn);
      RecordWorth(a, o, firstRowOn, k);
    }
  }

  // ---- whole runs -----------------------------------------------------------

  lemma NothingHeld(firstRowOn: bool)
    ensures Holds(ZERO, [], firstRowOn)
  {
    hide Observed;
  }

  lemma {:induction false} SeenHolds(r: Reg, os: seq<Obs>, door: nat -> nat, c: Class)
    requires Valid(r) && DoorHash(door)
    ensures Holds(Seen(r, os, door, c), Under(r, os, door, c), r.firstRowOn)
    decreases |os|
  {
    hide Holds, Add, Record, Observe, Valid;
    if os == [] {
      NothingHeld(r.firstRowOn);
    } else {
      var init, o := os[..|os| - 1], os[|os| - 1];
      SeenHolds(r, init, door, c);
      if Recorded(o) && ClassOf(Run(r, init, door), o) == c {
        HoldsMore(Seen(r, init, door, c), Under(r, init, door, c), o, r.firstRowOn);
      } else {
        AddUnit(Seen(r, init, door, c));
        assert Under(r, os, door, c) == Under(r, init, door, c);
      }
    }
  }

  // ---- the exported buckets -------------------------------------------------

  /** The cumulative bucket of the duration family, summed over the slots of a class. */
  function ExportedBelow(series: map<Key, Acc>, c: Class, lt: int, n: nat): nat
  {
    if n == 0 then 0 else ExportedBelow(series, c, lt, n - 1) + CumLt(Get(series, Key(n - 1, c)).dur, lt)
  }

  lemma CumLtMerged(a: Histogram, b: Histogram, lt: int)
    ensures CumLt(Merged(a, b), lt) == CumLt(a, lt) + CumLt(b, lt)
  {
    var n := Reach(lt);
    assert Plus(a.bucket, b.bucket)[..n] == Plus(a.bucket[..n], b.bucket[..n]);
    SumPlus(a.bucket[..n], b.bucket[..n]);
  }

  lemma {:induction false} ExportedIsTotal(series: map<Key, Acc>, c: Class, lt: int, n: nat)
    ensures ExportedBelow(series, c, lt, n) == CumLt(Total(series, c, n).dur, lt)
    decreases n
  {
    hide CumLt, Merged;
    if n == 0 {
      NothingBelow(lt);
    } else {
      ExportedIsTotal(series, c, lt, n - 1);
      CumLtMerged(Total(series, c, n - 1).dur, Get(series, Key(n - 1, c)).dur, lt);
    }
  }

  lemma NothingBelow(lt: int)
    ensures CumLt(EMPTY, lt) == 0
  {
    assert EMPTY.bucket[..Reach(lt)] == Zeros(Reach(lt));
    SumZero(Reach(lt));
  }

  /** From a new registry on, over every run: the series of a class hold exactly the
      observations made under it, and its exported buckets, summed over the slots and
      `other`, count exactly the durations below the boundary. */
  lemma ExportIsExact(k: nat, maxDims: nat, firstRowOn: bool, os: seq<Obs>, door: nat -> nat, c: Class, lt: int)
    requires k > 0 && DoorHash(door) && -53 <= lt <= 24
    ensures Valid(Fresh(k, maxDims, firstRowOn))
    ensures var r := Fresh(k, maxDims, firstRowOn);
            var q := Run(r, os, door);
            var mine := Under(r, os, door, c);
            && Holds(Total(q.store.series, c, k + 1), mine, firstRowOn)
            && ExportedBelow(q.store.series, c, lt, k + 1) == CountBelow(Timings(mine), lt)
  {
    hide Run, Seen, Under, Disciplined, Valid, Total, MaxSeries, NotesAfter, CumLt, CountBelow, ExportedBelow, Of;
    var r := Fresh(k, maxDims, firstRowOn);
    FromFresh(k, maxDims, firstRowOn, os, door, c);
    SeenHolds(r, os, door, c);
    var q := Run(r, os, door);
    ExportedIsTotal(q.store.series, c, lt, k + 1);
    CumLtIsExact(Timings(Under(r, os, door, c)), lt);
  }
}
