/**
 What hashing with chaining keeps, on values: every element is in the chain of its key and
 in no other. The two chained tables of the agent, of connections and of series, link
 their own nodes and share this.
 */
module HashChains {
  import opened Sequences

  /** The elements of chain `b` are resident, and belong there. */
  ghost predicate Belong<T, K>(xs: seq<T>, b: nat, nodes: map<K, T>, hash: K -> nat, key: T -> K)
  {
    forall x :: x in xs ==> key(x) in nodes && nodes[key(x)] == x && x in nodes.Values && hash(key(x)) == b
  }

  ghost predicate AllBelong<T, K>(chains: seq<seq<T>>, nodes: map<K, T>, hash: K -> nat, key: T -> K)
  {
    forall b :: 0 <= b < |chains| ==> Belong(chains[b], b, nodes, hash, key)
  }

  /** Every resident element is in the chain of its key. */
  ghost predicate Housed<T, K>(chains: seq<seq<T>>, nodes: map<K, T>, hash: K -> nat, key: T -> K)
  {
    forall k :: k in nodes ==> key(nodes[k]) == k && hash(k) < |chains| && nodes[k] in chains[hash(k)]
  }

  /** An element joins in front of its chain. */
  lemma JoinHoused<T, K>(chains: seq<seq<T>>, nodes: map<K, T>, hash: K -> nat, key: T -> K, x: T)
    requires AllBelong(chains, nodes, hash, key) && Housed(chains, nodes, hash, key)
    requires key(x) !in nodes && hash(key(x)) < |chains|
    ensures var b := hash(key(x));
            var cs, ns := chains[b := [x] + chains[b]], nodes[key(x) := x];
            AllBelong(cs, ns, hash, key) && Housed(cs, ns, hash, key) && x !in chains[b]
  {
    var b := hash(key(x));
    var cs, ns := chains[b := [x] + chains[b]], nodes[key(x) := x];
    assert Belong(chains[b], b, nodes, hash, key);
    forall d, m: T | 0 <= d < |cs| && m in cs[d]
      ensures key(m) in ns && ns[key(m)] == m && m in ns.Values && hash(key(m)) == d
    {
      if m != x { assert m in chains[d] && Belong(chains[d], d, nodes, hash, key); }
      assert key(m) in ns.Keys && ns[key(m)] == m;
    }
  }

  /** An element leaves its chain. */
  lemma LeaveHoused<T, K>(chains: seq<seq<T>>, nodes: map<K, T>, hash: K -> nat, key: T -> K, x: T, ys: seq<T>)
    requires AllBelong(chains, nodes, hash, key) && Housed(chains, nodes, hash, key)
    requires key(x) in nodes && nodes[key(x)] == x && hash(key(x)) < |chains|
    requires forall m :: m in ys <==> m in chains[hash(key(x))] && m != x
    ensures var cs, ns := chains[hash(key(x)) := ys], nodes - {key(x)};
            AllBelong(cs, ns, hash, key) && Housed(cs, ns, hash, key)
  {
    var cs, ns := chains[hash(key(x)) := ys], nodes - {key(x)};
    forall d, m: T | 0 <= d < |cs| && m in cs[d]
      ensures key(m) in ns && ns[key(m)] == m && m in ns.Values && hash(key(m)) == d
    {
      assert m in chains[d] && Belong(chains[d], d, nodes, hash, key);
      assert key(m) in ns.Keys && ns[key(m)] == m;
    }
  }

  /** An element of one chain is in no other. */
  lemma Apart<T, K>(chains: seq<seq<T>>, nodes: map<K, T>, hash: K -> nat, key: T -> K, x: T, b: nat)
    requires AllBelong(chains, nodes, hash, key) && b < |chains| && x in chains[b]
    ensures x in nodes.Values && forall d :: 0 <= d < |chains| && d != b ==> x !in chains[d]
  {
    assert Belong(chains[b], b, nodes, hash, key);
    forall d | 0 <= d < |chains| && d != b ensures x !in chains[d] { assert Belong(chains[d], d, nodes, hash, key); }
  }

  lemma NowhereYet<T, K>(chains: seq<seq<T>>, nodes: map<K, T>, hash: K -> nat, key: T -> K, x: T)
    requires AllBelong(chains, nodes, hash, key) && key(x) !in nodes
    ensures forall d :: 0 <= d < |chains| ==> x !in chains[d]
  {
    forall d | 0 <= d < |chains| ensures x !in chains[d] { assert Belong(chains[d], d, nodes, hash, key); }
  }

  lemma Distinct<T>(xs: seq<T>, i: int, j: int)
    requires NoDup<T>(xs) && 0 <= i < |xs| && 0 <= j < |xs|
    ensures xs[i] == xs[j] <==> i == j
  {
  }

  lemma CutOut<T>(xs: seq<T>, at: int)
    requires NoDup<T>(xs) && 0 <= at < |xs|
    ensures var ys := xs[..at] + xs[at + 1..];
            NoDup<T>(ys) && forall x :: x in ys <==> x in xs && x != xs[at]
  {
    RemovedOnce<T>(xs, xs[at]);
    FindFirst<T>(xs, xs[at]);
    Distinct<T>(xs, Find<T>(xs, xs[at]), at);
  }
}
