/**
 The series hash of src/metrics/registry.c in its own links: chained buckets rewired in
 place, proved to be the map of series that the registry is modelled with.
 */
module SeriesHash {
  import opened Accumulators
  import opened HashChains
  import opened Options
  import opened Registry
  import opened RegistryTheorems
  import opened Sequences
  import opened SizeHist

  /** struct series: its identity, its accumulators, its size histogram once it has one,
      and its chain link. */
  class Series {
    const key: Key
    var acc: Acc
    var size: Option<Sizes>
    var next: Series?

    constructor (key: Key)
      ensures this.key == key && acc == ZERO && size == None && next == null
    {
      this.key, acc, size, next := key, ZERO, None, null;
    }
  }

  function KeyOf(s: Series): Key { s.key }

  function At(xs: seq<Series>, i: int): Series? { if 0 <= i < |xs| then xs[i] else null }

  /** The chain link at position `i`. */
  ghost predicate Chained(xs: seq<Series>, i: int)
    requires 0 <= i < |xs|
    reads xs`next
  {
    xs[i].next == At(xs, i + 1)
  }

  /** `first` heads the chain `xs`. */
  ghost predicate IsChain(xs: seq<Series>, first: Series?)
    reads xs`next
  {
    NoDup<Series>(xs) && first == At(xs, 0) && forall i :: 0 <= i < |xs| ==> Chained(xs, i)
  }

  ghost function AccsOf(nodes: map<Key, Series>): (accs: map<Key, Acc>)
    reads nodes.Values`acc
    ensures accs.Keys == nodes.Keys
  {
    map k | k in nodes :: nodes[k].acc
  }

  ghost function SizesOn(nodes: map<Key, Series>): map<Key, Sizes>
    reads nodes.Values`size
  {
    map k | k in nodes && nodes[k].size.Some? :: nodes[k].size.value
  }

  lemma Entry(nodes: map<Key, Series>, k: Key)
    requires k in nodes
    ensures AccsOf(nodes)[k] == nodes[k].acc
    ensures (k in SizesOn(nodes) <==> nodes[k].size.Some?) &&
            (k in SizesOn(nodes) ==> SizesOn(nodes)[k] == nodes[k].size.value)
  {
  }

  /** A new series has empty accumulators. */
  twostate lemma JoinedAccs(was: map<Key, Series>, new nodes: map<Key, Series>, new s: Series)
    requires s.key !in was && nodes == was[s.key := s] && s.acc == ZERO
    requires forall k :: k in was ==> was[k].acc == old(was[k].acc)
    ensures AccsOf(nodes) == old(AccsOf(was))[s.key := ZERO]
  {
  }

  /** ... and no size histogram. */
  twostate lemma JoinedSizes(was: map<Key, Series>, new nodes: map<Key, Series>, new s: Series)
    requires s.key !in was && nodes == was[s.key := s] && s.size == None
    requires forall k :: k in was ==> was[k].size == old(was[k].size)
    ensures SizesOn(nodes) == old(SizesOn(was))
  {
    forall k
      ensures k in SizesOn(nodes) <==> k in old(SizesOn(was))
      ensures k in SizesOn(nodes) ==> SizesOn(nodes)[k] == old(SizesOn(was))[k]
    {
      assert k in was ==> nodes[k] == was[k];
    }
  }

  class Buckets {
    const hash: Key -> nat
    const heads: array<Series?>
    ghost var chains: seq<seq<Series>>
    ghost var nodes: map<Key, Series>
    ghost var known: set<Series>

    constructor (size: nat, hash: Key -> nat)
      requires forall k :: hash(k) < size
      ensures Valid() && nodes == map[] && known == {} && fresh(heads) && this.hash == hash
    {
      this.hash := hash;
      heads := new Series?[size](i => null);
      chains := seq(size, i => []);
      nodes, known := map[], {};
    }

    ghost predicate Bucket(b: nat)
      requires b < |chains| == heads.Length
      reads this, heads, chains[b]`next
    {
      IsChain(chains[b], heads[b])
    }

    ghost predicate Valid()
      reads this, heads, known`next
    {
      && nodes.Values <= known
      && (forall k :: hash(k) < heads.Length) && |chains| == heads.Length
      && AllBelong(chains, nodes, hash, KeyOf) && Housed(chains, nodes, hash, KeyOf)
      && (forall b :: 0 <= b < |chains| ==> Bucket(b))
    }

    /** The walk of series_get. */
    method Lookup(key: Key) returns (s: Series?)
      requires Valid()
      ensures s == if key in nodes then nodes[key] else null
    {
      hide NoDup;
      ghost var xs := chains[hash(key)];
      assert Bucket(hash(key)) && Belong(xs, hash(key), nodes, hash, KeyOf);
      ghost var i := 0;
      s := heads[hash(key)];
      while s != null
        invariant 0 <= i <= |xs| && s == At(xs, i)
        invariant forall j :: 0 <= j < i ==> xs[j].key != key
        decreases |xs| - i
      {
        assert Chained(xs, i);
        assert xs[i] in xs && KeyOf(xs[i]) == xs[i].key;
        if s.key == key { return; }
        s := s.next;
        i := i + 1;
      }
    }

    /** A new series in front of its chain. */
    method Link(s: Series)
      requires Valid() && s.key !in nodes
      modifies this, heads, s`next
      ensures Valid() && nodes == old(nodes)[s.key := s] && known == old(known) + {s}
    {
      hide NoDup, Belong, Housed;
      var b := hash(s.key);
      ghost var xs := chains[b];
      assert Bucket(b);
      JoinHoused(chains, nodes, hash, KeyOf, s);
      NoDupJoin<Series>([s], xs);
      NowhereYet(chains, nodes, hash, KeyOf, s);
      s.next := heads[b];
      heads[b] := s;
      chains := chains[b := [s] + xs];
      nodes, known := nodes[s.key := s], known + {s};
      forall i | 0 <= i < |chains[b]|
        ensures Chained(chains[b], i)
      {
        if i > 0 { assert old(Chained(xs, i - 1)) && chains[b][i] == xs[i - 1]; }
      }
      forall d | 0 <= d < |chains|
        ensures Bucket(d)
      {
        assert old(Bucket(d));
        if d != b {
          forall i | 0 <= i < |chains[d]|
            ensures Chained(chains[d], i)
          {
            assert old(Chained(chains[d], i));
          }
        }
      }
    }

    /** series_get: the series of a key, made on first use. */
    method Get(key: Key) returns (s: Series, made: bool)
      requires Valid()
      modifies this, heads
      ensures Valid() && s.key == key && key in nodes && s == nodes[key] && nodes == old(nodes)[key := s]
      ensures made <==> key !in old(nodes)
      ensures !made ==> nodes == old(nodes)
      ensures known == old(known) + {s} && (made ==> fresh(s)) && (!made ==> s in old(known))
      ensures AccsOf(nodes) == if made then old(AccsOf(nodes))[key := ZERO] else old(AccsOf(nodes))
      ensures SizesOn(nodes) == old(SizesOn(nodes))
    {
      hide Valid, AccsOf, SizesOn;
      ghost var was := nodes;
      Keyed();
      var found := Lookup(key);
      if found != null {
        s, made := found, false;
        assert nodes == nodes[key := s] && known == known + {s};
      } else {
        s := new Series(key);
        made := true;
        Link(s);
        JoinedAccs(was, nodes, s);
        JoinedSizes(was, nodes, s);
      }
    }

    /** The accumulators of a resident series are updated in place. */
    method Update(s: Series, acc: Acc)
      requires Valid() && s.key in nodes && nodes[s.key] == s
      modifies s`acc
      ensures Valid() && AccsOf(nodes) == old(AccsOf(nodes))[s.key := acc]
    {
      hide Valid;
      Keyed();
      s.acc := acc;
    }

    /** So is its size histogram. */
    method Resize(s: Series, size: Sizes)
      requires Valid() && s.key in nodes && nodes[s.key] == s
      modifies s`size
      ensures Valid() && SizesOn(nodes) == old(SizesOn(nodes))[s.key := size] && s.size == Some(size)
    {
      hide Valid;
      Keyed();
      s.size := Some(size);
    }

    lemma Keyed()
      requires Valid()
      ensures forall k :: k in nodes ==> nodes[k].key == k && nodes[k] in known
    {
    }

    /** The series in front of another one in its chain, or null. */
    method Before(s: Series) returns (p: Series?, ghost at: int)
      requires Valid() && s.key in nodes && nodes[s.key] == s
      ensures var xs := chains[hash(s.key)];
              0 <= at < |xs| && xs[at] == s && p == At(xs, at - 1)
    {
      hide NoDup;
      ghost var xs := chains[hash(s.key)];
      assert Bucket(hash(s.key));
      at := 0;
      p := null;
      var m := heads[hash(s.key)];
      while m != s
        invariant 0 <= at < |xs| && m == xs[at] && p == At(xs, at - 1)
        invariant s in xs[at..]
        decreases |xs| - at
      {
        assert Chained(xs, at);
        p, m := m, m.next;
        at := at + 1;
      }
    }

    /** series_unlink_hash. */
    method Unlink(s: Series)
      requires Valid() && s.key in nodes && nodes[s.key] == s
      modifies this, heads, known`next
      ensures Valid() && nodes == old(nodes) - {s.key} && known == old(known)
      ensures AccsOf(nodes) == old(AccsOf(nodes)) - {s.key} && SizesOn(nodes) == old(SizesOn(nodes)) - {s.key}
    {
      hide Valid;
      Detach(s);
    }

    /** The link that led to the series now leads past it. */
    method Detach(s: Series)
      requires Valid() && s.key in nodes && nodes[s.key] == s
      modifies this, heads, known`next
      ensures Valid() && nodes == old(nodes) - {s.key} && known == old(known)
    {
      hide NoDup, Belong, Housed;
      var b := hash(s.key);
      ghost var xs := chains[b];
      assert Bucket(b);
      var p, at := Before(s);
      assert Chained(xs, at);
      ghost var ys := xs[..at] + xs[at + 1..];
      CutOut<Series>(xs, at);
      LeaveHoused(chains, nodes, hash, KeyOf, s, ys);
      if p == null {
        heads[b] := s.next;
      } else {
        Apart<Series, Key>(chains, nodes, hash, KeyOf, p, b);
        p.next := s.next;
      }
      chains := chains[b := ys];
      nodes := nodes - {s.key};
      forall i | 0 <= i < |ys|
        ensures Chained(ys, i)
      {
        var x := if i < at then i else i + 1;
        assert old(Chained(xs, x)) && ys[i] == xs[x];
        if at > 0 { Distinct<Series>(xs, x, at - 1); }
      }
      forall d | 0 <= d < |chains|
        ensures Bucket(d)
      {
        assert old(Bucket(d));
        if d != b {
          forall i | 0 <= i < |chains[d]|
            ensures Chained(chains[d], i)
          {
            assert old(Chained(chains[d], i));
          }
        }
      }
    }

    /** The walk over one bucket. */
    method SumBucket(b: nat, ghost done: map<Key, Acc>) returns (total: nat, ghost more: map<Key, Acc>)
      requires Valid() && b < heads.Length && Counted(done, nodes, hash, b)
      ensures Counted(more, nodes, hash, b + 1) && CountSum(more) == CountSum(done) + total
    {
      hide NoDup, CountSum, Belong, Counted, CountedIn;
      ghost var xs := chains[b];
      assert Bucket(b) && Belong(xs, b, nodes, hash, KeyOf);
      total, more := 0, done;
      BucketStarts(done, nodes, hash, b, xs);
      var s := heads[b];
      ghost var i := 0;
      while s != null
        invariant 0 <= i <= |xs| && s == At(xs, i) && CountSum(more) == CountSum(done) + total
        invariant CountedIn(more, nodes, hash, b, xs, i)
        decreases |xs| - i
      {
        assert Chained(xs, i);
        CountOne(more, nodes, hash, b, xs, i);
        CountSumPut(more, s.key, s.acc);
        total := total + s.acc.dur.count;
        more := more[s.key := s.acc];
        s := s.next;
        i := i + 1;
      }
      ChainCounted(more, chains, nodes, hash, b);
    }

    /** lk_reg_series_count_sum: the walk over all buckets. */
    method SumCounts() returns (total: nat)
      requires Valid()
      ensures total == CountSum(AccsOf(nodes))
    {
      hide CountSum;
      total := 0;
      ghost var done: map<Key, Acc> := map[];
      NothingCounted();
      var b := 0;
      while b < heads.Length
        invariant 0 <= b <= heads.Length && total == CountSum(done)
        invariant Counted(done, nodes, hash, b)
      {
        var n;
        n, done := SumBucket(b, done);
        total := total + n;
        b := b + 1;
      }
      AllCounted(done, chains, nodes, hash);
    }
  }

  lemma BucketStarts(done: map<Key, Acc>, nodes: map<Key, Series>, hash: Key -> nat, b: nat, xs: seq<Series>)
    requires Counted(done, nodes, hash, b)
    ensures CountedIn(done, nodes, hash, b, xs, 0)
  {
  }

  // ---- what the walk has counted --------------------------------------------

  lemma NothingCounted()
    ensures CountSum(map[]) == 0
  {
  }

  /** Exactly the series of the first `b` buckets. */
  ghost predicate Counted(done: map<Key, Acc>, nodes: map<Key, Series>, hash: Key -> nat, b: nat)
    reads nodes.Values`acc
  {
    forall k :: (k in done <==> k in nodes && hash(k) < b) && (k in done ==> done[k] == nodes[k].acc)
  }

  /** ... and of the first `i` series of the next one. */
  ghost predicate CountedIn(done: map<Key, Acc>, nodes: map<Key, Series>, hash: Key -> nat, b: nat, xs: seq<Series>,
                            i: int)
    reads nodes.Values`acc
  {
    && 0 <= i <= |xs|
    && forall k ::
         && (k in done <==> k in nodes && (hash(k) < b || nodes[k] in xs[..i]))
         && (k in done ==> done[k] == nodes[k].acc)
  }

  lemma CountOne(done: map<Key, Acc>, nodes: map<Key, Series>, hash: Key -> nat, b: nat, xs: seq<Series>, i: int)
    requires CountedIn(done, nodes, hash, b, xs, i) && i < |xs| && NoDup<Series>(xs) &&
             Belong(xs, b, nodes, hash, KeyOf)
    requires forall k :: k in nodes ==> nodes[k].key == k
    ensures xs[i].key !in done
    ensures CountedIn(done[xs[i].key := xs[i].acc], nodes, hash, b, xs, i + 1)
  {
    assert xs[i] in xs;
    assert xs[..i + 1] == xs[..i] + [xs[i]];
    assert xs[i] !in xs[..i];
  }

  lemma ChainCounted(done: map<Key, Acc>, chains: seq<seq<Series>>, nodes: map<Key, Series>, hash: Key -> nat, b: nat)
    requires b < |chains| && CountedIn(done, nodes, hash, b, chains[b], |chains[b]|)
    requires AllBelong(chains, nodes, hash, KeyOf) && Housed(chains, nodes, hash, KeyOf)
    ensures Counted(done, nodes, hash, b + 1)
  {
    var xs := chains[b];
    assert xs[..|xs|] == xs && Belong(xs, b, nodes, hash, KeyOf);
  }

  lemma AllCounted(done: map<Key, Acc>, chains: seq<seq<Series>>, nodes: map<Key, Series>, hash: Key -> nat)
    requires Counted(done, nodes, hash, |chains|) && Housed(chains, nodes, hash, KeyOf)
    ensures done == AccsOf(nodes)
  {
  }
}
