/** Sequences without repetitions, as the linked lists of the agent are. */
module Sequences {

  ghost predicate NoDup<T>(xs: seq<T>) { forall i, j :: 0 <= i < j < |xs| ==> xs[i] != xs[j] }

  function Find<T(==)>(xs: seq<T>, x: T): (i: nat)
    ensures i <= |xs| && (i < |xs| ==> xs[i] == x) && x !in xs[..i]
  {
    if xs == [] || xs[0] == x then 0 else 1 + Find(xs[1..], x)
  }

  function Last<T>(xs: seq<T>): (x: T)
    requires xs != []
    ensures x in xs
  {
    xs[|xs| - 1]
  }

  function Init<T>(xs: seq<T>): (ys: seq<T>)
    requires xs != []
    ensures xs == ys + [Last(xs)] && forall y :: y in ys ==> y in xs
  {
    xs[..|xs| - 1]
  }

  lemma NoDupSplit<T>(xs: seq<T>, ys: seq<T>)
    requires NoDup(xs + ys)
    ensures NoDup(xs) && NoDup(ys) && forall x :: x in xs ==> x !in ys
  {
    var all := xs + ys;
    forall i, j | 0 <= i < j < |xs|
      ensures xs[i] != xs[j]
    {
      assert all[i] == xs[i] && all[j] == xs[j];
    }
    forall i, j | 0 <= i < j < |ys|
      ensures ys[i] != ys[j]
    {
      assert all[|xs| + i] == ys[i] && all[|xs| + j] == ys[j];
    }
    forall x | x in xs
      ensures x !in ys
    {
      var i :| 0 <= i < |xs| && xs[i] == x;
      forall j | 0 <= j < |ys|
        ensures ys[j] != x
      {
        assert all[i] == x && all[|xs| + j] == ys[j];
      }
    }
  }

  lemma NoDupJoin<T>(xs: seq<T>, ys: seq<T>)
    requires NoDup(xs) && NoDup(ys) && forall x :: x in xs ==> x !in ys
    ensures NoDup(xs + ys)
  {
    var all := xs + ys;
    forall i, j | 0 <= i < j < |all|
      ensures all[i] != all[j]
    {
      if i < |xs| <= j { assert xs[i] in xs && ys[j - |xs|] in ys; }
    }
  }

  function RemoveFrom<T(==)>(xs: seq<T>, x: T): (ys: seq<T>)
    ensures forall y :: y in ys ==> y in xs
  {
    var i := Find(xs, x);
    if i < |xs| then xs[..i] + xs[i + 1..] else xs
  }

  lemma {:induction false} FindFirst<T>(xs: seq<T>, x: T)
    ensures x in xs <==> Find(xs, x) < |xs|
    decreases |xs|
  {
    if xs != [] && xs[0] != x { FindFirst(xs[1..], x); }
  }

  lemma Rotated<T>(a: seq<T>, x: T, b: seq<T>)
    requires NoDup(a + ([x] + b))
    ensures NoDup([x] + (a + b)) && forall y :: y in [x] + (a + b) <==> y in a + ([x] + b)
  {
    NoDupSplit(a, [x] + b);
    NoDupSplit([x], b);
    hide NoDup;
    NoDupJoin(a, b);
    NoDupJoin([x], a + b);
  }

  lemma MovedToFront<T>(xs: seq<T>, x: T)
    requires x in xs && NoDup(xs)
    ensures var ys := [x] + RemoveFrom(xs, x);
            |ys| == |xs| && NoDup(ys) && forall y :: y in ys <==> y in xs
  {
    FindFirst(xs, x);
    hide NoDup;
    var i := Find(xs, x);
    assert xs == xs[..i] + ([x] + xs[i + 1..]);
    Rotated(xs[..i], x, xs[i + 1..]);
  }

  lemma RemovedOnce<T>(xs: seq<T>, x: T)
    requires x in xs && NoDup(xs)
    ensures var ys := RemoveFrom(xs, x);
            |ys| == |xs| - 1 && NoDup(ys) && forall y :: y in ys <==> y in xs && y != x
  {
    hide NoDup, RemoveFrom;
    MovedToFront(xs, x);
    NoDupSplit([x], RemoveFrom(xs, x));
    assert forall y :: y in [x] + RemoveFrom(xs, x) <==> y == x || y in RemoveFrom(xs, x);
  }

  lemma RemoveLast<T>(xs: seq<T>)
    requires NoDup(xs) && xs != []
    ensures RemoveFrom(xs, Last(xs)) == Init(xs)
  {
    FindFirst(xs, Last(xs));
    assert Find(xs, Last(xs)) == |xs| - 1;
  }
}
