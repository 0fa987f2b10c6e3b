/**
 The fingerprint hash of src/metrics/registry.c: open addressing with linear probing
 and backward-shift deletion, proved to be a map from fingerprints to slots.
 */
module FpIndex {

  /** How far `b` lies behind `a`, going up and around a table of `n` cells. */
  function Dist(a: nat, b: nat, n: nat): (d: nat)
    requires a < n && b < n
    ensures d < n && (d == 0 <==> a == b)
  {
    if a <= b then b - a else b + n - a
  }

  function Next(i: nat, n: nat): (j: nat)
    requires i < n
    ensures j < n
  {
    if i + 1 == n then 0 else i + 1
  }

  /** fp_remove's test: `home` is cyclically in (i, j]. */
  predicate StuckBetween(i: nat, home: nat, j: nat)
  {
    if i <= j then i < home && home <= j else i < home || home <= j
  }

  /** The table: `cells` hold slots or -1, `fps` is the fingerprint of each slot. */
  datatype Hash = Hash(cells: seq<int>, fps: seq<nat>)

  predicate Occupied(t: Hash, i: int) { 0 <= i < |t.cells| && t.cells[i] >= 0 }

  /** Probing from `h` visits `k` before `i`. */
  predicate Before(t: Hash, h: nat, k: int, i: int)
  {
    h < |t.cells| && 0 <= k < |t.cells| && 0 <= i < |t.cells| && Dist(h, k, |t.cells|) < Dist(h, i, |t.cells|)
  }

  ghost predicate Shape(t: Hash, home: nat -> nat)
  {
    && 0 < |t.cells|
    && (forall i :: 0 <= i < |t.cells| ==> -1 <= t.cells[i] < |t.fps|)
    && (forall fp :: home(fp) < |t.cells|)
  }

  function FpAt(t: Hash, i: int): nat
    requires Occupied(t, i) && t.cells[i] < |t.fps|
  {
    t.fps[t.cells[i]]
  }

  /** `pos` says in which cell each resident fingerprint is. */
  ghost predicate Places(t: Hash, home: nat -> nat, pos: map<nat, nat>)
    requires Shape(t, home)
  {
    && (forall fp :: fp in pos ==> Occupied(t, pos[fp]) && FpAt(t, pos[fp]) == fp)
    && (forall i :: Occupied(t, i) ==> FpAt(t, i) in pos && pos[FpAt(t, i)] == i)
  }

  /** Every cell from an entry's home up to the entry is occupied, but for `hole`. */
  ghost predicate Probes(t: Hash, home: nat -> nat, hole: int)
    requires Shape(t, home)
  {
    forall i, k :: (Occupied(t, i) && Before(t, home(FpAt(t, i)), k, i)) ==> Occupied(t, k) || k == hole
  }

  ghost predicate Sound(t: Hash, home: nat -> nat, pos: map<nat, nat>)
  {
    Shape(t, home) && Places(t, home, pos) && Probes(t, home, -1)
  }

  /** The map a table is. */
  ghost function Entries(t: Hash, home: nat -> nat, pos: map<nat, nat>): map<nat, nat>
    requires Sound(t, home, pos)
  {
    map fp | fp in pos :: t.cells[pos[fp]] as nat
  }

  lemma StuckMeansBetween(i: nat, home: nat, j: nat, n: nat)
    requires i < n && home < n && j < n && i != j
    ensures StuckBetween(i, home, j) <==> 0 < Dist(i, home, n) <= Dist(i, j, n)
    ensures !StuckBetween(i, home, j) <==> Dist(home, i, n) < Dist(home, j, n)
  {
  }

  lemma NextIsOneOn(a: nat, i: nat, n: nat)
    requires a < n && i < n && Dist(a, i, n) + 1 < n
    ensures Dist(a, Next(i, n), n) == Dist(a, i, n) + 1
  {
  }

  /** Walking from the hole towards an empty cell gets closer to it. */
  lemma OneCloser(hole: nat, j: nat, e: nat, n: nat)
    requires hole < n && j < n && e < n && hole != e && Dist(hole, j, n) < Dist(hole, e, n)
    ensures Dist(hole, j, n) + 1 < n && Next(j, n) != hole && Dist(j, e, n) > 0
    ensures Next(j, n) != e ==>
              && Dist(hole, Next(j, n), n) < Dist(hole, e, n)
              && Dist(Next(j, n), e, n) < Dist(j, e, n)
              && Dist(Next(j, n), Next(j, n), n) < Dist(Next(j, n), e, n)
  {
  }

  class Index {
    const cap: nat
    const home: nat -> nat
    const cells: array<int>
    const fps: array<nat>
    ghost var pos: map<nat, nat>

    /** The table as a value. */
    ghost function Contents(): Hash
      reads cells, fps
    {
      Hash(cells[..], fps[..])
    }

    ghost predicate Valid()
      reads this, cells, fps
    {
      && cells.Length == cap && cells as object != fps
      && Sound(Contents(), home, pos)
      && |pos| < cap
    }

    /** The map this table is: each resident fingerprint and its slot. */
    ghost function Map(): map<nat, nat>
      requires Valid()
      reads this, cells, fps
    {
      Entries(Contents(), home, pos)
    }

    constructor (cap: nat, slots: nat, home: nat -> nat)
      requires 0 < cap && forall fp :: home(fp) < cap
      ensures Valid() && Map() == map[] && this.cap == cap && this.home == home && fps.Length == slots
      ensures fresh(cells) && fresh(fps) && forall i :: 0 <= i < slots ==> fps[i] == 0
    {
      this.cap, this.home := cap, home;
      cells := new int[cap](i => -1);
      fps := new nat[slots](i => 0);
      pos := map[];
      new;
      assert forall i :: 0 <= i < cap ==> !Occupied(Contents(), i);
    }

    /** fp_find: the slot of a resident fingerprint, or -1. */
    method Find(fp: nat) returns (s: int)
      requires Valid()
      ensures s == if fp in Map() then Map()[fp] else -1
    {
      ghost var h, t := home(fp), Contents();
      ghost var e := EmptyCell(t, pos, home);
      var i: nat := home(fp);
      while true
        invariant i < cap && Dist(h, i, cap) <= Dist(h, e, cap)
        invariant Missed(t, home, fp, i)
        decreases Dist(h, e, cap) - Dist(h, i, cap)
      {
        s := cells[i];
        assert s == t.cells[i];
        if s < 0 {
          NotResident(t, home, pos, fp, i);
          return -1;
        }
        assert Occupied(t, i);
        if fps[s] == fp {
          assert FpAt(t, i) == fp;
          return;
        }
        NextIsOneOn(h, i, cap);
        NextMissed(t, home, fp, i);
        i := Next(i, cap);
      }
    }

    /** The first empty cell behind a fingerprint's home. */
    method Probe(fp: nat) returns (i: nat)
      requires Valid() && fp !in Map()
      ensures i < cap && cells[i] < 0 && Missed(Contents(), home, fp, i)
    {
      ghost var h, t := home(fp), Contents();
      ghost var e := EmptyCell(t, pos, home);
      assert fp !in pos;
      hide Sound;
      i := home(fp);
      while cells[i] >= 0
        invariant i < cap && Dist(h, i, cap) <= Dist(h, e, cap)
        invariant Missed(t, home, fp, i)
        decreases Dist(h, e, cap) - Dist(h, i, cap)
      {
        NotHere(t, home, pos, fp, i);
        NextIsOneOn(h, i, cap);
        NextMissed(t, home, fp, i);
        i := Next(i, cap);
      }
    }

    /** fp_insert of a fingerprint that is not resident, into a table that keeps an empty
        cell; the slot already carries the fingerprint. */
    method Insert(fp: nat, slot: nat)
      requires Valid() && fp !in Map() && slot < fps.Length && fps[slot] == fp && |Map()| + 1 < cap
      modifies this, cells
      ensures Valid() && Map() == old(Map())[fp := slot]
    {
      ghost var t := Contents();
      assert Map().Keys == pos.Keys;
      var i := Probe(fp);
      Inserted(t, pos, home, fp, slot, i);
      hide Missed, Sound, Entries;
      cells[i] := slot;
      pos := pos[fp := i];
      assert Contents() == t.(cells := t.cells[i := slot]);
    }

    /** Give a slot that no entry points to a new fingerprint. */
    method Assign(slot: nat, fp: nat)
      requires Valid() && slot < fps.Length && forall q :: q in Map() ==> Map()[q] != slot
      modifies fps
      ensures Valid() && Map() == old(Map()) && fps[..] == old(fps[..])[slot := fp]
    {
      ghost var t := Contents();
      assert Map() == Entries(t, home, pos);
      Unused(t, home, pos, slot, fp);
      hide Sound, Entries;
      fps[slot] := fp;
      assert Contents() == t.(fps := t.fps[slot := fp]);
    }

    /** The cell of a resident fingerprint. */
    method Locate(fp: nat) returns (i: nat)
      requires Valid() && fp in Map()
      ensures i < cap && i == pos[fp]
    {
      ghost var h, t, e := home(fp), Contents(), pos[fp];
      i := home(fp);
      while cells[i] < 0 || fps[cells[i]] != fp
        invariant i < cap && Dist(h, i, cap) <= Dist(h, e, cap)
        decreases Dist(h, e, cap) - Dist(h, i, cap)
      {
        NextIsOneOn(h, i, cap);
        i := Next(i, cap);
      }
      assert Occupied(t, i);
    }

    /** fp_remove of a resident fingerprint: empty its cell, then close the gap. */
    method Remove(fp: nat)
      requires Valid() && fp in Map()
      modifies this, cells
      ensures Valid() && Map() == old(Map()) - {fp}
    {
      ghost var t, p := Contents(), pos;
      var hole := Locate(fp);
      ghost var e := EmptyCell(t, p, home);
      DeletionStarts(t, home, p, fp);
      SlotsAreEntries(t, home, p);
      assert e != hole by { assert Occupied(t, hole); }
      hide Sound, Shifting, Slots, Entries;
      cells[hole] := -1;
      pos := pos - {fp};
      assert Contents() == t.(cells := t.cells[hole := -1]);
      Close(hole, e);
      SlotsAreEntries(Contents(), home, pos);
      Subset(pos.Keys, p.Keys);
    }

    /** Move back every entry that probed across the hole, until the next empty cell. */
    method Close(hole0: nat, ghost e: nat)
      requires cells.Length == cap && cells as object != fps && hole0 < cap && e < cap && e != hole0 && cells[e] < 0
      requires Shifting(Contents(), home, pos, hole0, hole0)
      modifies this, cells
      ensures Sound(Contents(), home, pos) && pos.Keys == old(pos.Keys)
      ensures Slots(Contents(), pos) == old(Slots(Contents(), pos))
    {
      hide Shifting, Slots, Sound, Dist, Next, StuckBetween;
      var hole: nat, j: nat := hole0, hole0;
      ghost var slots := Slots(Contents(), pos);
      while true
        invariant hole < cap && j < cap && hole != e && cells[e] < 0
        invariant Dist(hole, j, cap) < Dist(hole, e, cap)
        invariant Shifting(Contents(), home, pos, hole, j)
        invariant Slots(Contents(), pos) == slots && pos.Keys == old(pos.Keys)
        decreases Dist(j, e, cap)
      {
        ghost var t := Contents();
        var n := Next(j, cap);
        OneCloser(hole, j, e, cap);
        assert cells[n] == t.cells[n] && fps[..] == t.fps;
        if cells[n] < 0 {
          DeletionEnds(t, home, pos, hole, j);
          return;
        }
        ShiftFacts(t, home, pos, hole, j, n);
        var h := home(fps[cells[n]]);
        StuckMeansBetween(hole, h, n, cap);
        if StuckBetween(hole, h, n) {
          StaysPut(t, home, pos, hole, j);
          j := n;
        } else {
          Rescan(t, home, pos, hole, j);
          MovesBack(t, home, pos, hole, n);
          pos := pos[FpAt(t, n) := hole];
          cells[hole] := cells[n];
          cells[n] := -1;
          assert Contents() == t.(cells := t.cells[hole := t.cells[n]][n := -1]);
          hole, j := n, n;
        }
      }
    }
  }

  lemma NotHere(t: Hash, home: nat -> nat, pos: map<nat, nat>, fp: nat, i: nat)
    requires Sound(t, home, pos) && fp !in pos && i < |t.cells| && t.cells[i] >= 0
    ensures Occupied(t, i) && t.cells[i] < |t.fps| && FpAt(t, i) != fp
  {
  }

  lemma Unused(t: Hash, home: nat -> nat, pos: map<nat, nat>, slot: nat, fp: nat)
    requires Sound(t, home, pos) && slot < |t.fps| && forall q :: q in Entries(t, home, pos) ==>
             Entries(t, home, pos)[q] != slot
    ensures Sound(t.(fps := t.fps[slot := fp]), home, pos)
    ensures Entries(t.(fps := t.fps[slot := fp]), home, pos) == Entries(t, home, pos)
  {
    var u := t.(fps := t.fps[slot := fp]);
    forall i
      ensures Occupied(u, i) <==> Occupied(t, i)
      ensures Occupied(t, i) ==> t.cells[i] != slot && FpAt(u, i) == FpAt(t, i)
    {
      if Occupied(t, i) { assert FpAt(t, i) in Entries(t, home, pos); }
    }
    forall i, k | Occupied(u, i) && Before(u, home(FpAt(u, i)), k, i)
      ensures Occupied(u, k)
    {
      assert Occupied(t, i) && Before(t, home(FpAt(t, i)), k, i);
      assert Occupied(t, k);
    }
  }

  /** All cells from a fingerprint's home up to `i` hold other fingerprints. */
  ghost predicate Missed(t: Hash, home: nat -> nat, fp: nat, i: nat)
    requires Shape(t, home)
  {
    forall k :: Before(t, home(fp), k, i) ==> Occupied(t, k) && FpAt(t, k) != fp
  }

  lemma NextMissed(t: Hash, home: nat -> nat, fp: nat, i: nat)
    requires Shape(t, home) && Missed(t, home, fp, i) && Occupied(t, i) && FpAt(t, i) != fp
    requires Dist(home(fp), Next(i, |t.cells|), |t.cells|) == Dist(home(fp), i, |t.cells|) + 1
    ensures Missed(t, home, fp, Next(i, |t.cells|))
  {
    forall k | Before(t, home(fp), k, Next(i, |t.cells|))
      ensures Occupied(t, k) && FpAt(t, k) != fp
    {
      assert k == i || Before(t, home(fp), k, i);
    }
  }

  /** An empty cell ends the search: a resident fingerprint would sit before it. */
  lemma NotResident(t: Hash, home: nat -> nat, pos: map<nat, nat>, fp: nat, i: nat)
    requires Sound(t, home, pos) && i < |t.cells| && t.cells[i] < 0 && Missed(t, home, fp, i)
    ensures fp !in pos
  {
    assert !Occupied(t, i);
    forall j | Occupied(t, j)
      ensures FpAt(t, j) != fp
    {
      assert !Before(t, home(FpAt(t, j)), i, j);
      assert Before(t, home(FpAt(t, j)), j, i);
    }
  }

  /** Filling the first empty cell behind a fingerprint's home keeps the table a table. */
  lemma Inserted(t: Hash, pos: map<nat, nat>, home: nat -> nat, fp: nat, slot: nat, i: nat)
    requires Sound(t, home, pos)
    requires fp !in pos && slot < |t.fps| && t.fps[slot] == fp && i < |t.cells| && t.cells[i] < 0
    requires Missed(t, home, fp, i)
    ensures Sound(t.(cells := t.cells[i := slot]), home, pos[fp := i])
    ensures Entries(t.(cells := t.cells[i := slot]), home, pos[fp := i]) == Entries(t, home, pos)[fp := slot]
  {
    var u := t.(cells := t.cells[i := slot]);
    forall j, k | Occupied(u, j) && Before(u, home(FpAt(u, j)), k, j)
      ensures Occupied(u, k)
    {
      assert Before(t, home(FpAt(u, j)), k, j);
      if j != i { assert Occupied(t, j) && FpAt(t, j) == FpAt(u, j); }
      assert Occupied(t, k);
    }
    forall j | Occupied(u, j)
      ensures FpAt(u, j) in pos[fp := i] && pos[fp := i][FpAt(u, j)] == j
    {
      if j != i { assert Occupied(t, j) && FpAt(t, j) == FpAt(u, j); }
    }
  }

  lemma Subset(a: set<nat>, b: set<nat>)
    requires a <= b
    ensures |a| <= |b|
  {
    assert b == a + (b - a);
  }

  /** A table with fewer entries than cells has an empty cell. */
  lemma EmptyCell(t: Hash, pos: map<nat, nat>, home: nat -> nat) returns (e: nat)
    requires Sound(t, home, pos) && |pos| < |t.cells|
    ensures e < |t.cells| && t.cells[e] < 0
  {
    if forall i :: 0 <= i < |t.cells| ==> 0 <= t.cells[i] < |t.fps| {
      FpsBelowSize(t, pos, home, |t.cells|);
      Subset(FpsBelow(t, |t.cells|), pos.Keys);
      assert false;
    }
    e :| 0 <= e < |t.cells| && t.cells[e] < 0;
  }

  /** The fingerprints in the first `m` cells of a table without empty cells. */
  ghost function FpsBelow(t: Hash, m: nat): set<nat>
    requires m <= |t.cells| && forall i :: 0 <= i < |t.cells| ==> 0 <= t.cells[i] < |t.fps|
  {
    if m == 0 then {} else FpsBelow(t, m - 1) + {FpAt(t, m - 1)}
  }

  lemma {:induction false} FpsBelowSize(t: Hash, pos: map<nat, nat>, home: nat -> nat, m: nat)
    requires Shape(t, home) && Places(t, home, pos) && m <= |t.cells|
    requires forall i :: 0 <= i < |t.cells| ==> 0 <= t.cells[i] < |t.fps|
    ensures |FpsBelow(t, m)| == m && FpsBelow(t, m) <= pos.Keys
    ensures forall fp :: fp in FpsBelow(t, m) ==> pos[fp] < m
  {
    hide Shape, Places;
    if m > 0 {
      FpsBelowSize(t, pos, home, m - 1);
      assert Occupied(t, m - 1);
      PlacedAt(t, pos, home, m - 1);
      assert FpAt(t, m - 1) !in FpsBelow(t, m - 1);
    }
  }

  lemma PlacedAt(t: Hash, pos: map<nat, nat>, home: nat -> nat, i: nat)
    requires Shape(t, home) && Places(t, home, pos) && Occupied(t, i)
    ensures FpAt(t, i) in pos && pos[FpAt(t, i)] == i
  {
  }

  // ---- backward-shift deletion ----------------------------------------------

  /** The table while a deletion is under way: `hole` is empty, and every cell behind it
      up to `j` holds an entry whose home lies behind the hole. */
  ghost predicate Shifting(t: Hash, home: nat -> nat, pos: map<nat, nat>, hole: nat, j: nat)
  {
    && Shape(t, home) && Places(t, home, pos) && Probes(t, home, hole)
    && hole < |t.cells| && t.cells[hole] < 0 && j < |t.cells|
    && (forall k :: Scanned(t, hole, k, j) ==> Occupied(t, k) && Scanned(t, hole, home(FpAt(t, k)), k))
  }

  /** `k` lies cyclically in (hole, j]. */
  predicate Scanned(t: Hash, hole: nat, k: int, j: nat)
  {
    hole < |t.cells| && j < |t.cells| && 0 <= k < |t.cells| && 0 < Dist(hole, k, |t.cells|) <= Dist(hole, j, |t.cells|)
  }

  /** Emptying the cell of a fingerprint starts a deletion. */
  lemma DeletionStarts(t: Hash, home: nat -> nat, pos: map<nat, nat>, fp: nat)
    requires Sound(t, home, pos) && fp in pos
    ensures Shifting(t.(cells := t.cells[pos[fp] := -1]), home, pos - {fp}, pos[fp], pos[fp])
    ensures Slots(t.(cells := t.cells[pos[fp] := -1]), pos - {fp}) == Slots(t, pos) - {fp}
  {
    var i := pos[fp];
    var u := t.(cells := t.cells[i := -1]);
    forall j, k | Occupied(u, j) && Before(u, home(FpAt(u, j)), k, j)
      ensures Occupied(u, k) || k == i
    {
      assert Occupied(t, j) && FpAt(t, j) == FpAt(u, j) && Before(t, home(FpAt(t, j)), k, j);
      assert Occupied(t, k);
    }
    forall j | Occupied(u, j)
      ensures FpAt(u, j) in pos - {fp} && (pos - {fp})[FpAt(u, j)] == j
    {
      assert Occupied(t, j) && FpAt(t, j) == FpAt(u, j);
    }
    forall q | q in pos - {fp}
      ensures pos[q] != i
    {
      assert FpAt(t, pos[q]) == q && FpAt(t, i) == fp;
    }
  }

  /** An entry whose home lies behind the hole stays where it is. */
  lemma StaysPut(t: Hash, home: nat -> nat, pos: map<nat, nat>, hole: nat, j: nat)
    requires Shifting(t, home, pos, hole, j) && Dist(hole, j, |t.cells|) + 1 < |t.cells|
    requires var n := Next(j, |t.cells|); Occupied(t, n) && Scanned(t, hole, home(FpAt(t, n)), n)
    ensures Shifting(t, home, pos, hole, Next(j, |t.cells|))
  {
    var n := Next(j, |t.cells|);
    NextIsOneOn(hole, j, |t.cells|);
    forall k | Scanned(t, hole, k, n)
      ensures Occupied(t, k) && Scanned(t, hole, home(FpAt(t, k)), k)
    {
      assert k == n || Scanned(t, hole, k, j);
    }
  }

  /** An entry that probes across the hole moves into it and leaves a new hole. */
  lemma MovesBack(t: Hash, home: nat -> nat, pos: map<nat, nat>, hole: nat, n: nat)
    requires Shifting(t, home, pos, hole, hole) && Occupied(t, n)
    requires Before(t, home(FpAt(t, n)), hole, n)
    ensures var u := t.(cells := t.cells[hole := t.cells[n]][n := -1]);
            var pos' := pos[FpAt(t, n) := hole];
            && Shifting(u, home, pos', n, n)
            && Slots(u, pos') == Slots(t, pos) && pos'.Keys == pos.Keys
  {
    var fp := FpAt(t, n);
    var u := t.(cells := t.cells[hole := t.cells[n]][n := -1]);
    var pos' := pos[fp := hole];
    forall j, k | Occupied(u, j) && Before(u, home(FpAt(u, j)), k, j)
      ensures Occupied(u, k) || k == n
    {
      if j == hole {
        assert FpAt(u, j) == fp && Before(t, home(FpAt(t, n)), k, n);
        assert Occupied(t, k) || k == hole;
      } else {
        assert Occupied(t, j) && FpAt(t, j) == FpAt(u, j) && Before(t, home(FpAt(t, j)), k, j);
        assert Occupied(t, k) || k == hole;
      }
    }
    forall j | Occupied(u, j)
      ensures FpAt(u, j) in pos' && pos'[FpAt(u, j)] == j
    {
      if j != hole { assert Occupied(t, j) && FpAt(t, j) == FpAt(u, j); }
    }
    forall q | q in pos'
      ensures Occupied(u, pos'[q]) && FpAt(u, pos'[q]) == q
    {
      if q != fp { assert pos[q] != n && pos[q] != hole; }
    }
  }

  /** An empty cell behind the hole ends the deletion: no entry probes across it. */
  lemma DeletionEnds(t: Hash, home: nat -> nat, pos: map<nat, nat>, hole: nat, j: nat)
    requires Shifting(t, home, pos, hole, j) && Dist(hole, j, |t.cells|) + 1 < |t.cells|
    requires t.cells[Next(j, |t.cells|)] < 0
    ensures Sound(t, home, pos)
  {
    var n := Next(j, |t.cells|);
    NextIsOneOn(hole, j, |t.cells|);
    assert !Occupied(t, n) && !Occupied(t, hole);
    forall i | Occupied(t, i)
      ensures !Before(t, home(FpAt(t, i)), hole, i)
    {
      assert !Before(t, home(FpAt(t, i)), n, i);
      if Scanned(t, hole, i, j) {
        assert Scanned(t, hole, home(FpAt(t, i)), i);
      } else {
        assert Dist(hole, n, |t.cells|) < Dist(hole, i, |t.cells|);
      }
    }
  }

  /** The slots the places point to. */
  ghost function Slots(t: Hash, pos: map<nat, nat>): map<nat, int>
  {
    map fp | fp in pos :: if pos[fp] < |t.cells| then t.cells[pos[fp]] else -1
  }

  lemma SlotsAreEntries(t: Hash, home: nat -> nat, pos: map<nat, nat>)
    requires Sound(t, home, pos)
    ensures Slots(t, pos) == Entries(t, home, pos) && Entries(t, home, pos).Keys == pos.Keys
  {
  }

  lemma ShiftFacts(t: Hash, home: nat -> nat, pos: map<nat, nat>, hole: nat, j: nat, n: nat)
    requires Shifting(t, home, pos, hole, j) && n < |t.cells| && t.cells[n] >= 0
    ensures t.cells[n] < |t.fps| && Occupied(t, n) && home(FpAt(t, n)) < |t.cells| && n != hole
  {
  }

  lemma Rescan(t: Hash, home: nat -> nat, pos: map<nat, nat>, hole: nat, j: nat)
    requires Shifting(t, home, pos, hole, j)
    ensures Shifting(t, home, pos, hole, hole)
  {
  }
}
