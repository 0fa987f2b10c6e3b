/**
 The top-K dictionary of src/metrics/registry.c in its own data structures: the
 fingerprint hash, the linked LRU list and the stack of free slots, proved to be the
 dictionary of module Registry.
 */
module Dictionary {
  import opened Hist
  import opened Registry
  import opened Sequences
  import FpIndex
  import Lru

  /** The fingerprints of some slots. */
  ghost function FpsOf(fps: seq<nat>, order: seq<nat>): (r: set<nat>)
    requires forall i :: 0 <= i < |order| ==> order[i] < |fps|
    ensures forall i :: 0 <= i < |order| ==> fps[order[i]] in r
  {
    if order == [] then {} else {fps[order[0]]} + FpsOf(fps, order[1..])
  }

  lemma {:induction false} FpsOfSize(fps: seq<nat>, order: seq<nat>)
    requires forall i :: 0 <= i < |order| ==> order[i] < |fps|
    ensures |FpsOf(fps, order)| <= |order|
  {
    if order != [] { FpsOfSize(fps, order[1..]); }
  }

  /** The hash never holds more than k entries, so half of it stays empty. */
  lemma IndexSize(d: Dict, k: nat)
    requires DictOk(d, k)
    ensures |d.index| <= |d.order| <= k
  {
    assert forall i :: 0 <= i < |d.order| ==> d.order[i] in d.order;
    FpsOfSize(d.fps, d.order);
    forall fp | fp in d.index
      ensures fp in FpsOf(d.fps, d.order)
    {
      assert d.index[fp] in d.order && d.fps[d.index[fp]] == fp;
    }
    FpIndex.Subset(d.index.Keys, FpsOf(d.fps, d.order));
  }

  /** The free stack at the start: every slot, slot 0 on top. */
  method Descending(k: nat) returns (a: array<nat>)
    ensures fresh(a) && a.Length == k && a[..] == Down(k)
  {
    hide Down;
    a := new nat[k];
    for i := 0 to k
      invariant forall j :: 0 <= j < i ==> a[j] == k - 1 - j
    {
      a[i] := k - 1 - i;
    }
    assert a[..] == Down(k);
  }

  class Slots {
    const k: nat
    const index: FpIndex.Index
    const lru: Lru.List
    const free: array<nat>
    var nFree: nat
    ghost const Repr: set<object>

    ghost predicate Parts()
      reads this, Repr
    {
      && Repr == {this, index, index.cells, index.fps, lru, lru.prev, lru.next, free}
      && index.cells != lru.prev && index.cells != lru.next && index.cells as object != free
      && index.fps as object != lru.prev && index.fps as object != lru.next && index.fps != free
      && lru.prev as object != free && lru.next as object != free
      && index.Valid() && lru.Valid() && nFree <= free.Length
      && index.fps.Length == lru.prev.Length == free.Length == k && 2 * (k + 1) <= index.cap
    }

    ghost function Value(): Dict
      requires Parts()
      reads this, Repr
    {
      Dict(index.fps[..], index.Map(), lru.order, free[..nFree])
    }

    ghost predicate Valid()
      reads this, Repr
      ensures Valid() ==> Parts()
    {
      Parts() && DictOk(Value(), k)
    }

    /** The dictionary part of lk_reg_new: every slot on the stack, slot 0 on top. */
    constructor (k: nat, cap: nat, home: nat -> nat)
      requires 0 < k && 2 * (k + 1) <= cap && forall fp :: home(fp) < cap
      ensures Valid() && this.k == k
      ensures fresh(Repr)
      ensures Value() == Dict(Zeros(k), map[], [], Down(k))
    {
      hide DictOk, NoDup, Down, Zeros, FpIndex.Index.Valid, FpIndex.Index.Map, Lru.List.Valid;
      this.k := k;
      var ix := new FpIndex.Index(cap, k, home);
      var list := new Lru.List(k);
      var stack := Descending(k);
      index, lru, free, nFree := ix, list, stack, k;
      Repr := {this, ix, ix.cells, ix.fps, list, list.prev, list.next, stack};
      new;
      FreshDict(k);
      assert free[..nFree] == Down(k);
      assert index.fps[..] == Zeros(k);
    }

    /** admit. */
    method Admit(fp: nat) returns (s: nat)
      requires Valid() && Value().free != [] && fp !in Value().index
      modifies Repr
      ensures Valid() && Value() == Admitted(old(Value()), fp) && s == Last(old(Value()).free)
    {
      hide DictOk, NoDup, RemoveFrom, FpIndex.Index.Valid, FpIndex.Index.Map, Lru.List.Valid;
      ghost var d := Value();
      AdmittedOk(d, k, fp);
      IndexSize(d, k);
      lru.Ends();
      DictShape(d, k);
      IndexInOrder(d, k);
      nFree := nFree - 1;
      s := free[nFree];
      assert s == Last(d.free) && free[..nFree] == Init(d.free);
      index.Assign(s, fp);
      index.Insert(fp, s);
      lru.PushFront(s);
      assert Value() == Admitted(d, fp);
    }

    /** The first half of resolve_query: the slot of a known fingerprint, moved to the front. */
    method Lookup(fp: nat) returns (s: int)
      requires Valid()
      modifies Repr
      ensures Valid() && (fp in old(Value()).index <==> s >= 0)
      ensures s >= 0 ==> s == old(Value()).index[fp] && Value() == Touched(old(Value()), s)
      ensures s < 0 ==> Value() == old(Value())
    {
      hide DictOk, RemoveFrom, FpIndex.Index.Valid, FpIndex.Index.Map, Lru.List.Valid;
      ghost var d := Value();
      s := index.Find(fp);
      if s >= 0 {
        IndexInOrder(d, k);
        TouchedOk(d, k, s);
        lru.Touch(s);
        assert Value() == Touched(d, s);
      }
    }

    method HasRoom() returns (b: bool)
      requires Valid()
      ensures b <==> Value().free != []
    {
      b := nFree > 0;
    }

    /** The slot at the end of the list. */
    method Coldest() returns (t: nat)
      requires Valid() && Value().order != []
      ensures t == Last(Value().order)
    {
      hide DictOk, FpIndex.Index.Valid, FpIndex.Index.Map, Lru.List.Valid;
      lru.Ends();
      t := lru.tail;
    }

    /** The dictionary part of evict_lru, for the coldest slot. */
    method Evict() returns (t: nat)
      requires Valid() && Value().order != []
      modifies Repr
      ensures Valid() && Value() == Evicted(old(Value())) && t == Last(old(Value()).order)
    {
      hide DictOk, NoDup, RemoveFrom, FpIndex.Index.Valid, FpIndex.Index.Map, Lru.List.Valid;
      ghost var d := Value();
      EvictedOk(d, k);
      DictShape(d, k);
      RemoveLast(d.order);
      Resident(d, k, Last(d.order));
      lru.Ends();
      t := lru.tail;
      index.Remove(index.fps[t]);
      lru.Unlink(t);
      free[nFree] := t;
      nFree := nFree + 1;
      assert free[..nFree] == d.free + [t];
      assert Value() == Evicted(d);
    }
  }

  lemma Resident(d: Dict, k: nat, s: nat)
    requires DictOk(d, k) && s in d.order
    ensures s < |d.fps| && d.fps[s] in d.index
  {
  }
}
