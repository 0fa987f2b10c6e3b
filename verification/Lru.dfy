/**
 The index-linked LRU list of src/metrics/registry.c: `prev` and `next` arrays over
 the dictionary slots, proved to be a sequence.
 */
module Lru {
  import opened Sequences

  /** The element of a sequence at a position, or -1 outside. */
  function At(xs: seq<nat>, i: int): int
  {
    if 0 <= i < |xs| then xs[i] else -1
  }

  /** The links of a list. */
  datatype Links = Links(prev: seq<int>, next: seq<int>, head: int, tail: int)

  /** The links around the element at position `i` of `order`. */
  ghost predicate LinkedAt(l: Links, order: seq<nat>, i: int)
    requires |l.prev| == |l.next| && 0 <= i < |order|
  {
    && order[i] < |l.next|
    && l.next[order[i]] == At(order, i + 1)
    && l.prev[order[i]] == At(order, i - 1)
  }

  /** The links spell out `order` in both directions. */
  ghost predicate Spells(l: Links, order: seq<nat>)
  {
    && |l.prev| == |l.next| && NoDup(order)
    && l.head == At(order, 0) && l.tail == At(order, |order| - 1)
    && (forall i :: 0 <= i < |order| ==> LinkedAt(l, order, i))
  }

  function Pushed(l: Links, s: nat): Links
    requires s < |l.prev| == |l.next| && l.head < |l.prev|
  {
    var prev := l.prev[s := -1];
    Links(if l.head >= 0 then prev[l.head := s] else prev, l.next[s := l.head], s, if l.tail < 0 then s else l.tail)
  }

  function Unlinked(l: Links, s: nat): Links
    requires s < |l.prev| == |l.next| && l.prev[s] < |l.prev| && l.next[s] < |l.prev|
  {
    var p, n := l.prev[s], l.next[s];
    Links(if n >= 0 then l.prev[n := p] else l.prev, if p >= 0 then l.next[p := n] else l.next,
          if p >= 0 then l.head else n, if n >= 0 then l.tail else p)
  }

  lemma PushedSpells(l: Links, order: seq<nat>, s: nat)
    requires Spells(l, order) && s < |l.prev| && s !in order
    ensures l.head < |l.prev| && Spells(Pushed(l, s), [s] + order)
  {
    assert order != [] ==> LinkedAt(l, order, 0);
    var m, xs := Pushed(l, s), [s] + order;
    NoDupJoin([s], order);
    forall i | 0 <= i < |xs|
      ensures LinkedAt(m, xs, i)
    {
      if i > 0 {
        assert LinkedAt(l, order, i - 1);
        assert xs[i] == order[i - 1] && xs[i] != s;
        if i > 1 { assert order[i - 1] != order[0]; }
      }
    }
  }

  /** Where the elements of `order` are once `s` is gone. */
  lemma Without(order: seq<nat>, s: nat)
    requires NoDup(order) && s in order
    ensures var at := Find(order, s);
            && at < |order| && order[at] == s && NoDup(RemoveFrom(order, s))
            && RemoveFrom(order, s) == order[..at] + order[at + 1..]
  {
    FindFirst(order, s);
    MovedToFront(order, s);
    NoDupSplit([s], RemoveFrom(order, s));
  }

  lemma UnlinkedAt(l: Links, order: seq<nat>, at: int, i: int)
    requires Spells(l, order) && 0 <= at < |order| && 0 <= i < |order| - 1
    requires LinkedAt(l, order, at) && l.prev[order[at]] < |l.prev| && l.next[order[at]] < |l.prev|
    ensures LinkedAt(Unlinked(l, order[at]), order[..at] + order[at + 1..], i)
  {
    var x := if i < at then i else i + 1;
    assert LinkedAt(l, order, x);
    if at > 0 && x != at - 1 { assert order[x] != order[at - 1]; }
    if at + 1 < |order| && x != at + 1 { assert order[x] != order[at + 1]; }
  }

  lemma UnlinkedSpells(l: Links, order: seq<nat>, s: nat)
    requires Spells(l, order) && s in order
    ensures s < |l.prev| && l.prev[s] < |l.prev| && l.next[s] < |l.prev|
    ensures Spells(Unlinked(l, s), RemoveFrom(order, s))
  {
    Without(order, s);
    var at: int := Find(order, s);
    var xs := RemoveFrom(order, s);
    hide RemoveFrom, NoDup, Find;
    assert LinkedAt(l, order, at);
    assert at > 0 ==> LinkedAt(l, order, at - 1);
    assert at + 1 < |order| ==> LinkedAt(l, order, at + 1);
    forall i | 0 <= i < |xs|
      ensures LinkedAt(Unlinked(l, s), xs, i)
    {
      UnlinkedAt(l, order, at, i);
    }
  }

  class List {
    const prev: array<int>
    const next: array<int>
    var head: int
    var tail: int
    ghost var order: seq<nat>

    constructor (n: nat)
      ensures Valid() && order == [] && prev.Length == n && fresh(prev) && fresh(next)
    {
      prev := new int[n](i => -1);
      next := new int[n](i => -1);
      head, tail := -1, -1;
      order := [];
    }

    ghost function Value(): Links
      reads this, prev, next
    {
      Links(prev[..], next[..], head, tail)
    }

    ghost predicate Valid()
      reads this, prev, next
    {
      prev != next && prev.Length == next.Length && Spells(Value(), order)
    }

    lemma Ends()
      requires Valid()
      ensures head == At(order, 0) && tail == At(order, |order| - 1) && prev.Length == next.Length
    {
    }

    /** lru_push_front. */
    method PushFront(s: nat)
      requires Valid() && s < prev.Length && s !in order
      modifies this, prev, next
      ensures Valid() && order == [s] + old(order)
    {
      PushedSpells(Value(), order, s);
      hide Spells;
      ghost var goal := Pushed(Value(), s);
      prev[s] := -1;
      next[s] := head;
      if head >= 0 {
        prev[head] := s;
      }
      head := s;
      if tail < 0 {
        tail := s;
      }
      order := [s] + order;
      assert Value() == goal;
    }

    /** lru_unlink. */
    method Unlink(s: nat)
      requires Valid() && s in order
      modifies this, prev, next
      ensures Valid() && order == RemoveFrom(old(order), s)
    {
      UnlinkedSpells(Value(), order, s);
      hide Spells, RemoveFrom;
      ghost var goal := Unlinked(Value(), s);
      var p, n := prev[s], next[s];
      if p >= 0 {
        next[p] := n;
      } else {
        head := n;
      }
      if n >= 0 {
        prev[n] := p;
      } else {
        tail := p;
      }
      order := RemoveFrom(order, s);
      assert Value() == goal;
    }

    /** lru_touch. */
    method Touch(s: nat)
      requires Valid() && s in order
      modifies this, prev, next
      ensures Valid() && order == [s] + RemoveFrom(old(order), s)
    {
      if head == s {
        assert order[0] == s && Find(order, s) == 0;
        return;
      }
      MovedToFront(order, s);
      ghost var rest := RemoveFrom(order, s);
      assert s !in rest by { NoDupSplit([s], rest); }
      hide Spells, RemoveFrom;
      assert s < prev.Length by { UnlinkedSpells(Value(), order, s); }
      Unlink(s);
      PushFront(s);
    }
  }
}
