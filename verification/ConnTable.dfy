/**
 The connection table of src/agent/conn_table.c in its own links: hash chains and an
 intrusive LRU list rewired in place, proved to be the table of module Connections.
 */
module ConnTable {
  import opened Framing
  import opened HashChains
  import opened Sequences
  import opened Connections

  /** lk_conn: the links, and the rest of the record. */
  class Node {
    const cookie: nat
    var c: Conn
    var hnext: Node?
    var prev: Node?
    var next: Node?

    constructor (cookie: nat, c: Conn)
      ensures this.cookie == cookie && this.c == c && hnext == null && prev == null && next == null
    {
      this.cookie, this.c, hnext, prev, next := cookie, c, null, null, null;
    }
  }

  function CookieOf(n: Node): nat { n.cookie }

  function At(xs: seq<Node>, i: int): Node? { if 0 <= i < |xs| then xs[i] else null }

  /** The LRU links around position `i`. */
  ghost predicate Linked(xs: seq<Node>, i: int)
    requires 0 <= i < |xs|
    reads xs`next, xs`prev
  {
    xs[i].next == At(xs, i + 1) && xs[i].prev == At(xs, i - 1)
  }

  /** `head` and `tail` hold the list `xs`. */
  ghost predicate IsList(xs: seq<Node>, head: Node?, tail: Node?)
    reads xs`next, xs`prev
  {
    && NoDup<Node>(xs) && head == At(xs, 0) && tail == At(xs, |xs| - 1)
    && (forall i :: 0 <= i < |xs| ==> Linked(xs, i))
  }

  /** The chain link at position `i`. */
  ghost predicate Chained(xs: seq<Node>, i: int)
    requires 0 <= i < |xs|
    reads xs`hnext
  {
    xs[i].hnext == At(xs, i + 1)
  }

  /** `first` heads the chain `xs`. */
  ghost predicate IsChain(xs: seq<Node>, first: Node?)
    reads xs`hnext
  {
    NoDup<Node>(xs) && first == At(xs, 0) && forall i :: 0 <= i < |xs| ==> Chained(xs, i)
  }

  class Lru {
    var head: Node?
    var tail: Node?
    ghost var order: seq<Node>

    constructor ()
      ensures Valid() && order == []
    {
      head, tail, order := null, null, [];
    }

    ghost predicate Valid()
      reads this, order`next, order`prev
    {
      IsList(order, head, tail)
    }

    ghost function Nodes(): set<Node>
      reads this
    {
      set n | n in order
    }

    /** The node at the front, if any. */
    ghost function First(): set<Node>
      reads this
    {
      if head == null then {} else {head}
    }

    /** lru_push_front. */
    method PushFront(n: Node)
      requires Valid() && n !in order
      modifies this, n`prev, n`next, First()`prev
      ensures Valid() && order == [n] + old(order)
    {
      ghost var was := order;
      assert was != [] ==> Linked(was, 0) && head in was;
      n.prev := null;
      n.next := head;
      if head != null {
        head.prev := n;
      }
      head := n;
      if tail == null {
        tail := n;
      }
      order := [n] + order;
      NoDupJoin<Node>([n], was);
      forall i | 0 <= i < |order|
        ensures Linked(order, i)
      {
        if i > 0 {
          assert old(Linked(was, i - 1)) && order[i] == was[i - 1];
          if i > 1 { assert was[i - 1] != was[0]; }
        }
      }
    }

    /** Join the neighbours of a node. */
    method Bypass(n: Node)
      requires n in order && n.prev != n && n.next != n
      requires (n.prev != null ==> n.prev in order) && (n.next != null ==> n.next in order)
      modifies this`head, this`tail, Nodes()`prev, Nodes()`next
      ensures head == if old(n.prev) == null then old(n.next) else old(head)
      ensures tail == if old(n.next) == null then old(n.prev) else old(tail)
      ensures forall m :: m in order && m != n ==> m.next == if m == old(n.prev) then old(n.next) else old(m.next)
      ensures forall m :: m in order && m != n ==> m.prev == if m == old(n.next) then old(n.prev) else old(m.prev)
    {
      if n.prev != null {
        n.prev.next := n.next;
      } else {
        head := n.next;
      }
      if n.next != null {
        n.next.prev := n.prev;
      } else {
        tail := n.prev;
      }
      n.prev, n.next := null, null;
    }

    /** lru_unlink. */
    method Unlink(n: Node)
      requires Valid() && n in order
      modifies this, Nodes()`prev, Nodes()`next
      ensures Valid() && order == RemoveFrom<Node>(old(order), n) && |order| == |old(order)| - 1 &&
              Nodes() <= old(Nodes())
    {
      hide NoDup, RemoveFrom, Find;
      ghost var was := order;
      Without(was, n);
      ghost var at: int := Find<Node>(was, n);
      assert Linked(was, at);
      if at > 0 { Distinct<Node>(was, at, at - 1); }
      if at + 1 < |was| { Distinct<Node>(was, at, at + 1); }
      Bypass(n);
      order := RemoveFrom<Node>(order, n);
      assert Nodes() <= old(Nodes());
      forall i | 0 <= i < |order|
        ensures Linked(order, i)
      {
        var x := if i < at then i else i + 1;
        assert order[i] == was[x] && old(Linked(was, x));
        Distinct<Node>(was, x, at);
        if at > 0 { Distinct<Node>(was, x, at - 1); }
        if at + 1 < |was| { Distinct<Node>(was, x, at + 1); }
      }
    }

    lemma Ends()
      requires Valid()
      ensures tail == if order == [] then null else Last<Node>(order)
      ensures head != null ==> head in Nodes()
      ensures tail != null ==> tail in order
    {
    }

    method MoveToFront(n: Node)
      requires Valid() && n in order
      modifies this, Nodes()`prev, Nodes()`next
      ensures Valid() && order == [n] + RemoveFrom<Node>(old(order), n) && Nodes() == old(Nodes())
    {
      RemovedOnce<Node>(order, n);
      Unlink(n);
      PushFront(n);
    }
  }

  class Chains {
    const hash: nat -> nat
    const buckets: array<Node?>
    ghost var chains: seq<seq<Node>>
    ghost var nodes: map<nat, Node>

    constructor (size: nat, hash: nat -> nat)
      requires forall k :: hash(k) < size
      ensures Valid() && nodes == map[] && fresh(buckets) && this.hash == hash
    {
      this.hash := hash;
      buckets := new Node?[size](i => null);
      chains := seq(size, i => []);
      nodes := map[];
    }

    ghost predicate Bucket(b: nat)
      requires b < |chains| == buckets.Length
      reads this, buckets, chains[b]`hnext
    {
      IsChain(chains[b], buckets[b])
    }

    ghost predicate Valid()
      reads this, buckets, nodes.Values`hnext
    {
      && (forall k :: hash(k) < buckets.Length) && |chains| == buckets.Length
      && AllBelong(chains, nodes, hash, CookieOf)
      && Housed(chains, nodes, hash, CookieOf)
      && (forall b :: 0 <= b < |chains| ==> Bucket(b))
    }

    /** lookup: the node of a cookie, or null. */
    method Lookup(cookie: nat) returns (n: Node?)
      requires Valid()
      ensures n == if cookie in nodes then nodes[cookie] else null
    {
      hide NoDup;
      ghost var xs := chains[hash(cookie)];
      assert Bucket(hash(cookie)) && Belong(xs, hash(cookie), nodes, hash, CookieOf);
      ghost var i := 0;
      n := buckets[hash(cookie)];
      while n != null
        invariant 0 <= i <= |xs| && n == At(xs, i)
        invariant forall j :: 0 <= j < i ==> xs[j].cookie != cookie
        decreases |xs| - i
      {
        assert Chained(xs, i);
        assert xs[i] in xs && CookieOf(xs[i]) == xs[i].cookie;
        if n.cookie == cookie { return; }
        n := n.hnext;
        i := i + 1;
      }
    }

    /** Put a node in front of its chain. */
    method Insert(n: Node)
      requires Valid() && n.cookie !in nodes
      modifies this, buckets, n`hnext
      ensures Valid() && nodes == old(nodes)[n.cookie := n]
    {
      hide NoDup, Belong, Housed;
      var b := hash(n.cookie);
      ghost var xs := chains[b];
      assert Bucket(b);
      NowhereYet(chains, nodes, hash, CookieOf, n);
      NoDupJoin<Node>([n], xs);
      JoinHoused(chains, nodes, hash, CookieOf, n);
      n.hnext := buckets[b];
      buckets[b] := n;
      chains := chains[b := [n] + xs];
      nodes := nodes[n.cookie := n];
      forall i | 0 <= i < |chains[b]|
        ensures Chained(chains[b], i)
      {
        if i > 0 { assert old(Chained(xs, i - 1)) && chains[b][i] == xs[i - 1]; }
      }
      forall d | 0 <= d < |chains|
        ensures Bucket(d)
      {
        assert old(Bucket(d));
        if d != b {
          forall i | 0 <= i < |chains[d]|
            ensures Chained(chains[d], i)
          {
            assert old(Chained(chains[d], i));
          }
        }
      }
    }

    /** The node in front of another one in its chain, or null. */
    method Before(n: Node) returns (p: Node?, ghost at: int)
      requires Valid() && n.cookie in nodes && nodes[n.cookie] == n
      ensures var xs := chains[hash(n.cookie)];
              0 <= at < |xs| && xs[at] == n && p == At(xs, at - 1)
    {
      hide NoDup;
      ghost var xs := chains[hash(n.cookie)];
      assert Bucket(hash(n.cookie));
      at := 0;
      p := null;
      var m := buckets[hash(n.cookie)];
      while m != n
        invariant 0 <= at < |xs| && m == xs[at] && p == At(xs, at - 1)
        invariant n in xs[at..]
        decreases |xs| - at
      {
        assert Chained(xs, at);
        p, m := m, m.hnext;
        at := at + 1;
      }
    }

    /** Take a node out of its chain. */
    method Remove(n: Node)
      requires Valid() && n.cookie in nodes && nodes[n.cookie] == n
      modifies this, buckets, nodes.Values`hnext
      ensures Valid() && nodes == old(nodes) - {n.cookie}
    {
      hide NoDup, Belong, Housed;
      var b := hash(n.cookie);
      ghost var xs := chains[b];
      assert Bucket(b);
      var p, at := Before(n);
      assert Chained(xs, at);
      ghost var ys := xs[..at] + xs[at + 1..];
      CutOut<Node>(xs, at);
      LeaveHoused(chains, nodes, hash, CookieOf, n, ys);
      if p == null {
        buckets[b] := n.hnext;
      } else {
        Apart<Node, nat>(chains, nodes, hash, CookieOf, p, b);
        p.hnext := n.hnext;
      }
      chains := chains[b := ys];
      nodes := nodes - {n.cookie};
      forall i | 0 <= i < |ys|
        ensures Chained(ys, i)
      {
        var x := if i < at then i else i + 1;
        assert old(Chained(xs, x)) && ys[i] == xs[x];
        if at > 0 { Distinct<Node>(xs, x, at - 1); }
      }
      forall d | 0 <= d < |chains|
        ensures Bucket(d)
      {
        assert old(Bucket(d));
        if d != b {
          forall i | 0 <= i < |chains[d]|
            ensures Chained(chains[d], i)
          {
            assert old(Chained(chains[d], i));
          }
        }
      }
    }
  }

  lemma Without(order: seq<Node>, n: Node)
    requires NoDup<Node>(order) && n in order
    ensures var at := Find<Node>(order, n);
            && at < |order| && order[at] == n && NoDup<Node>(RemoveFrom<Node>(order, n))
            && RemoveFrom<Node>(order, n) == order[..at] + order[at + 1..]
  {
    FindFirst<Node>(order, n);
    RemovedOnce<Node>(order, n);
  }

  // ---- the table ------------------------------------------------------------

  function Cookies(xs: seq<Node>): (ks: seq<nat>)
    ensures |ks| == |xs| && forall i :: 0 <= i < |xs| ==> ks[i] == xs[i].cookie
  {
    if xs == [] then [] else [xs[0].cookie] + Cookies(xs[1..])
  }

  /** The resident nodes and the nodes of the list are the same. */
  ghost predicate Matched(order: seq<Node>, nodes: map<nat, Node>)
  {
    && NoDup<Node>(order)
    && (forall n :: n in order ==> n.cookie in nodes && nodes[n.cookie] == n)
    && (forall k :: k in nodes ==> nodes[k].cookie == k && nodes[k] in order)
  }

  ghost function ConnsOf(nodes: map<nat, Node>): map<nat, Conn>
    reads nodes.Values`c
  {
    map k | k in nodes :: nodes[k].c
  }

  lemma {:induction false} CookiesFind(order: seq<Node>, n: Node)
    requires n in order && forall m :: m in order && m.cookie == n.cookie ==> m == n
    ensures Find(Cookies(order), n.cookie) == Find<Node>(order, n)
  {
    if order[0] != n {
      assert Cookies(order)[1..] == Cookies(order[1..]);
      CookiesFind(order[1..], n);
    }
  }

  lemma CookiesCut(order: seq<Node>, at: int)
    requires 0 <= at < |order|
    ensures Cookies(order[..at] + order[at + 1..]) == Cookies(order)[..at] + Cookies(order)[at + 1..]
  {
    hide Cookies;
  }

  lemma MatchedWithout(order: seq<Node>, nodes: map<nat, Node>, n: Node)
    requires Matched(order, nodes) && n in order
    ensures Matched(RemoveFrom<Node>(order, n), nodes - {n.cookie})
    ensures Matched([n] + RemoveFrom<Node>(order, n), nodes)
  {
    hide NoDup, Find;
    RemovedOnce<Node>(order, n);
    MovedToFront<Node>(order, n);
    forall m | m in RemoveFrom<Node>(order, n)
      ensures m.cookie in nodes && nodes[m.cookie] == m && m.cookie != n.cookie
    {
      assert m in order && nodes[n.cookie] == n;
    }
  }

  /** Taking a node out of the list, or to its front, does the same to the cookies. */
  lemma CookiesWithout(order: seq<Node>, nodes: map<nat, Node>, n: Node)
    requires Matched(order, nodes) && n in order
    ensures Cookies(RemoveFrom<Node>(order, n)) == RemoveFrom(Cookies(order), n.cookie)
    ensures Cookies([n] + RemoveFrom<Node>(order, n)) == [n.cookie] + RemoveFrom(Cookies(order), n.cookie)
  {
    hide NoDup, Find;
    CookiesFind(order, n);
    FindFirst<Node>(order, n);
    CookiesCut(order, Find<Node>(order, n));
  }

  lemma CookiesWith(order: seq<Node>, nodes: map<nat, Node>, n: Node)
    requires Matched(order, nodes) && n.cookie !in nodes
    ensures n !in order && Matched([n] + order, nodes[n.cookie := n])
    ensures Cookies([n] + order) == [n.cookie] + Cookies(order)
  {
    hide NoDup;
    NoDupJoin<Node>([n], order);
  }

  lemma CookiesLast(order: seq<Node>)
    requires order != []
    ensures Last(Cookies(order)) == Last<Node>(order).cookie
  {
  }

  class Conns {
    const max: nat
    const idle: nat
    const lru: Lru
    const chains: Chains
    var st: Counters

    ghost predicate Parts()
      reads this, lru, chains, chains.buckets, lru.order`next, lru.order`prev, chains.nodes.Values`hnext
    {
      lru.Valid() && chains.Valid() && Matched(lru.order, chains.nodes)
    }

    /** The table this stands for. */
    ghost function Value(): Table
      reads this, lru, chains, chains.nodes.Values`c
    {
      Table(max, idle, ConnsOf(chains.nodes), Cookies(lru.order), st)
    }

    ghost predicate Valid()
      reads this, lru, chains, chains.buckets, lru.order, chains.nodes.Values
    {
      Parts() && TableOk(Value())
    }

    /** lk_conn_table_new. */
    constructor (max: nat, idle: nat, size: nat, hash: nat -> nat)
      requires forall k :: hash(k) < size
      ensures Valid() && Value() == Empty(max, idle)
    {
      hide Lru.Valid, Chains.Valid, TableOk;
      this.max := if max == 0 then 1 else max;
      this.idle := idle;
      lru := new Lru();
      chains := new Chains(size, hash);
      st := NO_COUNTS;
      new;
      EmptyOk(max, idle);
      assert ConnsOf(map[]) == map[];
    }

    /** Give a node a new record and move it to the front. */
    method Refresh(n: Node, c: Conn)
      requires Parts() && n in lru.order
      modifies lru, lru.Nodes()`prev, lru.Nodes()`next, n`c
      ensures Parts() && Value() == Bump(old(Value()), n.cookie, c) && n in lru.order && lru.Nodes() == old(lru.Nodes())
    {
      hide Lru.Valid, Chains.Valid, Matched, RemoveFrom;
      ghost var order, nodes := lru.order, chains.nodes;
      ghost var conns := ConnsOf(nodes);
      CookiesWithout(order, nodes, n);
      MatchedWithout(order, nodes, n);
      Resident(order, nodes, n);
      n.c := c;
      assert ConnsOf(nodes) == conns[n.cookie := c];
      lru.MoveToFront(n);
    }

    /** destroy. */
    method Drop(n: Node)
      requires Parts() && n in lru.order
      modifies this`st, lru, chains, chains.buckets, lru.Nodes()`prev, lru.Nodes()`next, chains.nodes.Values`hnext
      ensures n.cookie in old(Value()).conns && Parts() && Value() == Destroy(old(Value()), n.cookie)
      ensures chains.nodes == old(chains.nodes) - {n.cookie} && |lru.order| < |old(lru.order)|
      ensures st.evictedIdle == old(st.evictedIdle)
      ensures lru.Nodes() <= old(lru.Nodes()) && chains.nodes.Values <= old(chains.nodes.Values)
    {
      hide Lru.Valid, Chains.Valid, Matched, RemoveFrom, Cookies, ConnsOf, Lru.Nodes;
      ghost var order, nodes := lru.order, chains.nodes;
      CookiesWithout(order, nodes, n);
      MatchedWithout(order, nodes, n);
      Resident(order, nodes, n);
      ConnsLess(nodes, n);
      chains.Remove(n);
      lru.Unlink(n);
      if n.c.ctx.tls {
        st := st.(tlsActive := st.tlsActive - 1);
      }
      st := st.(active := st.active - 1);
    }

    /** The ceiling of create. */
    method EvictColdest()
      requires Parts()
      modifies this`st, lru, chains, chains.buckets, lru.Nodes()`prev, lru.Nodes()`next, chains.nodes.Values`hnext
      ensures Parts() && Value() == MakeRoom(old(Value()))
      ensures chains.nodes.Keys <= old(chains.nodes.Keys)
      ensures lru.Nodes() <= old(lru.Nodes())
    {
      hide Lru.Valid, Chains.Valid, Matched, RemoveFrom, Cookies, ConnsOf, Destroy;
      lru.Ends();
      if st.active >= max && lru.tail != null {
        Resident(lru.order, chains.nodes, lru.tail);
        CookiesLast(lru.order);
        Drop(lru.tail);
        st := st.(evictedLru := st.evictedLru + 1);
      }
    }

    /** The second half of create. */
    method Attach(n: Node)
      requires Parts() && n.cookie !in chains.nodes
      modifies this`st, lru, chains, chains.buckets, lru.First()`prev, n`prev, n`next, n`hnext
      ensures Parts() && Value() == Joined(old(Value()), n.cookie, n.c) && n in lru.order
    {
      hide Lru.Valid, Chains.Valid, Matched, Cookies;
      CookiesWith(lru.order, chains.nodes, n);
      ConnsMore(chains.nodes, n);
      chains.Insert(n);
      lru.PushFront(n);
      st := st.(created := st.created + 1, active := st.active + 1);
    }

    /** create. */
    method Add(cookie: nat, c: Conn) returns (n: Node)
      requires Parts() && cookie !in chains.nodes
      modifies this`st, lru, chains, chains.buckets, lru.Nodes()`prev, lru.Nodes()`next, chains.nodes.Values`hnext
      ensures n.cookie == cookie && n in lru.order && fresh(n)
      ensures Parts() && Value() == Create(old(Value()), cookie, c)
    {
      hide Lru.Valid, Chains.Valid, Matched, Cookies, MakeRoom, Joined;
      EvictColdest();
      lru.Ends();
      n := new Node(cookie, c);
      Attach(n);
    }

    /** touch. */
    method TouchNode(n: Node, seqNo: nat, ts: nat) returns (lost: nat)
      requires Parts() && n in lru.order
      modifies this`st, lru, lru.Nodes()`prev, lru.Nodes()`next, n`c
      ensures n.cookie in old(Value()).conns && n in lru.order && lru.Nodes() == old(lru.Nodes()) &&
              lost == Gap(seqNo, old(n.c).lastSeq)
      ensures Parts() && Value() == Touch(old(Value()), n.cookie, seqNo, ts)
    {
      hide Lru.Valid, Chains.Valid, Matched, RemoveFrom, Cookies;
      Resident(lru.order, chains.nodes, n);
      var c := n.c;
      lost := 0;
      if seqNo > c.lastSeq + 1 {
        lost := seqNo - (c.lastSeq + 1);
        c := MarkDirty(c.(dropped := c.dropped + lost));
        st := st.(seqGaps := st.seqGaps + 1, lostEvents := st.lostEvents + lost);
      }
      if seqNo > c.lastSeq {
        c := c.(lastSeq := seqNo);
      }
      c := c.(activity := ts);
      Refresh(n, c);
    }

    /** touch_tls. */
    method TouchTlsNode(n: Node, seqNo: nat, ts: nat) returns (lost: nat)
      requires Parts() && n in lru.order
      modifies this`st, lru, lru.Nodes()`prev, lru.Nodes()`next, n`c
      ensures n.cookie in old(Value()).conns && n in lru.order && lost == GapTls(old(n.c), seqNo)
      ensures Parts() && Value() == TouchTls(old(Value()), n.cookie, seqNo, ts)
    {
      hide Lru.Valid, Chains.Valid, Matched, RemoveFrom, Cookies;
      Resident(lru.order, chains.nodes, n);
      var c := n.c;
      lost := 0;
      if !c.tlsSeen {
        c := c.(tlsSeen := true, tlsLastSeq := seqNo);
      } else if seqNo > c.tlsLastSeq + 1 {
        lost := seqNo - (c.tlsLastSeq + 1);
        c := MarkDirty(c.(tlsDropped := c.tlsDropped + lost));
        st := st.(seqGaps := st.seqGaps + 1, lostEvents := st.lostEvents + lost);
      }
      if seqNo > c.tlsLastSeq {
        c := c.(tlsLastSeq := seqNo);
      }
      c := c.(activity := ts);
      Refresh(n, c);
    }

    /** lk_conn_table_note_tls_drop. */
    method NoteDrop(n: Node, seqNo: nat, ts: nat)
      requires Parts() && n in lru.order
      modifies this`st, lru, lru.Nodes()`prev, lru.Nodes()`next, n`c
      ensures n.cookie in old(Value()).conns && Parts() && Value() == NoteTlsDrop(old(Value()), n.cookie, seqNo, ts)
    {
      hide Lru.Valid, Chains.Valid, Matched, RemoveFrom, Cookies;
      Resident(lru.order, chains.nodes, n);
      st := st.(tlsSocketDropped := st.tlsSocketDropped + 1);
      var c := n.c;
      if seqNo > c.lastSeq {
        c := c.(lastSeq := seqNo);
      }
      Refresh(n, c.(activity := ts));
    }

    /** A new record for an entry that stays where it is. */
    method Update(n: Node, c: Conn)
      requires Parts() && n in lru.order
      modifies n`c
      ensures Parts() && Value() == old(Value()).(conns := old(Value()).conns[n.cookie := c])
    {
      hide Lru.Valid, Chains.Valid, Matched, Cookies;
      Resident(lru.order, chains.nodes, n);
      n.c := c;
    }

    /** lk_conn_table_note_tls_open. */
    method NoteOpen()
      requires Parts()
      modifies this`st
      ensures Parts() && Value() == NoteTlsOpen(old(Value()))
    {
      hide Lru.Valid, Chains.Valid, Matched, Cookies, ConnsOf;
      st := st.(tlsOpened := st.tlsOpened + 1, tlsActive := st.tlsActive + 1);
    }

    lemma ValidParts()
      requires Valid()
      ensures Parts()
    {
    }

    /** The record of an entry. */
    lemma RecordOf(n: Node)
      requires Parts() && n in lru.order
      ensures n.cookie in Value().conns && Value().conns[n.cookie] == n.c
    {
    }

    /** lookup, which is also lk_conn_table_peek. */
    method Peek(cookie: nat) returns (n: Node?)
      requires Parts()
      ensures n != null <==> cookie in Value().conns
      ensures n != null ==> n in lru.order && n in lru.Nodes() && n.cookie == cookie && n.c == Value().conns[cookie]
      ensures n == null ==> cookie !in chains.nodes
    {
      hide Lru.Valid, Chains.Valid, Cookies;
      n := chains.Lookup(cookie);
    }

    /** lk_conn_table_open. */
    method OpenConn(cookie: nat, seqNo: nat, ts: nat, ops: Ops, synthetic: bool) returns (n: Node, lost: nat)
      requires Parts()
      modifies this`st, lru, chains, chains.buckets, lru.Nodes(), chains.nodes.Values
      ensures Parts() && Value() == Open(old(Value()), cookie, seqNo, ts, ops, synthetic)
      ensures n.cookie == cookie && n in lru.order && (fresh(n) || n in old(lru.Nodes()))
      ensures lost == if cookie in old(Value()).conns then Gap(seqNo, old(Value()).conns[cookie].lastSeq) else 0
    {
      hide Lru.Valid, Chains.Valid, Matched, Cookies, ConnsOf, Touch, Create;
      var known := Peek(cookie);
      lost := 0;
      if known != null {
        n := known;
        lost := TouchNode(n, seqNo, ts);
        return;
      }
      var c := Born(ops, seqNo, ts);
      n := Add(cookie, if synthetic then MarkDirty(c) else c);
    }

    /** lk_conn_table_data. */
    method DataConn(cookie: nat, seqNo: nat, ts: nat, dflt: Ops) returns (n: Node, lost: nat)
      requires Parts()
      modifies this`st, lru, chains, chains.buckets, lru.Nodes(), chains.nodes.Values
      ensures Parts() && Value() == Data(old(Value()), cookie, seqNo, ts, dflt)
      ensures n.cookie == cookie && n in lru.order && (fresh(n) || n in old(lru.Nodes()))
      ensures lost == if cookie in old(Value()).conns then Gap(seqNo, old(Value()).conns[cookie].lastSeq) else 0
    {
      hide Lru.Valid, Chains.Valid, Matched, Cookies, ConnsOf, Touch, Create;
      var known := Peek(cookie);
      lost := 0;
      if known != null {
        n := known;
        lost := TouchNode(n, seqNo, ts);
        return;
      }
      n := Add(cookie, MarkDirty(Born(dflt, seqNo, ts)));
    }

    /** lk_conn_table_data_decrypted. */
    method DataDecryptedConn(cookie: nat, seqNo: nat, ts: nat, dflt: Ops) returns (n: Node, lost: nat)
      requires Parts()
      modifies this`st, lru, chains, chains.buckets, lru.Nodes(), chains.nodes.Values
      ensures Parts() && Value() == DataDecrypted(old(Value()), cookie, seqNo, ts, dflt)
      ensures n.cookie == cookie && n in lru.order && (fresh(n) || n in old(lru.Nodes()))
      ensures lost == if cookie in old(Value()).conns then GapTls(old(Value()).conns[cookie], seqNo) else 0
    {
      hide Lru.Valid, Chains.Valid, Matched, Cookies, ConnsOf, TouchTls, Create;
      var known := Peek(cookie);
      lost := 0;
      if known != null {
        n := known;
        lost := TouchTlsNode(n, seqNo, ts);
        return;
      }
      n := Add(cookie, MarkDirty(Born(dflt, seqNo, ts).(tlsSeen := true, tlsLastSeq := seqNo)));
    }

    /** lk_conn_table_close. */
    method CloseConn(cookie: nat, seqNo: nat, ts: nat) returns (lost: nat)
      requires Parts()
      modifies this`st, lru, chains, chains.buckets, lru.Nodes(), chains.nodes.Values
      ensures Parts() && Value() == Close(old(Value()), cookie, seqNo, ts)
      ensures lost == if cookie in old(Value()).conns then Gap(seqNo, old(Value()).conns[cookie].lastSeq) else 0
    {
      hide Lru.Valid, Chains.Valid, Matched, Cookies, ConnsOf, Touch, Destroy;
      var n := Peek(cookie);
      lost := 0;
      if n != null {
        lost := TouchNode(n, seqNo, ts);
        Drop(n);
        st := st.(closed := st.closed + 1);
      }
    }

    /** One turn of the loop of lk_conn_table_sweep. */
    method SweepOne()
      requires Parts() && lru.order != []
      modifies this`st, lru, chains, chains.buckets, lru.Nodes()`prev, lru.Nodes()`next, chains.nodes.Values`hnext
      ensures Last(old(Value()).order) in old(Value()).conns
      ensures Parts() && Value() == Swept(old(Value())) && |lru.order| < |old(lru.order)|
      ensures st.evictedIdle == old(st.evictedIdle) + 1
      ensures lru.Nodes() <= old(lru.Nodes()) && chains.nodes.Values <= old(chains.nodes.Values)
    {
      hide Lru.Valid, Chains.Valid, Matched, Cookies, ConnsOf, Destroy, Lru.Nodes;
      lru.Ends();
      CookiesLast(lru.order);
      Drop(lru.tail);
      st := st.(evictedIdle := st.evictedIdle + 1);
    }

    /** The oldest activity in the table decides whether the sweep goes on. */
    method TailIsIdle(now: nat) returns (b: bool)
      requires Parts()
      ensures b <==> lru.order != [] && Idle(Value(), Last(Value().order), now)
    {
      hide Lru.Valid, Chains.Valid, Matched, Cookies;
      lru.Ends();
      if lru.tail == null { return false; }
      Resident(lru.order, chains.nodes, lru.tail);
      CookiesLast(lru.order);
      b := lru.tail.c.activity + idle <= now;
    }

    /** lk_conn_table_sweep. */
    method SweepIdle(now: nat) returns (evicted: nat)
      requires Parts()
      modifies this`st, lru, chains, chains.buckets, lru.Nodes(), chains.nodes.Values
      ensures Parts() && Value() == Sweep(old(Value()), now)
      ensures evicted == st.evictedIdle - old(st.evictedIdle)
    {
      hide Parts, Cookies, ConnsOf, Swept, Idle, Lru.Nodes;
      evicted := 0;
      var more := TailIsIdle(now);
      while more
        invariant Parts() && Sweep(Value(), now) == Sweep(old(Value()), now)
        invariant more <==> lru.order != [] && Idle(Value(), Last(Value().order), now)
        invariant lru.Nodes() <= old(lru.Nodes()) && chains.nodes.Values <= old(chains.nodes.Values)
        invariant evicted == st.evictedIdle - old(st.evictedIdle)
        decreases |lru.order|
      {
        SweepOne();
        evicted := evicted + 1;
        more := TailIsIdle(now);
      }
    }
  }

  lemma Resident(order: seq<Node>, nodes: map<nat, Node>, n: Node)
    requires Matched(order, nodes) && n in order
    ensures n.cookie in nodes && nodes[n.cookie] == n && n in nodes.Values
    ensures forall k :: k in nodes && k != n.cookie ==> nodes[k] != n
  {
  }

  lemma ConnsLess(nodes: map<nat, Node>, n: Node)
    requires n.cookie in nodes && nodes[n.cookie] == n
    ensures ConnsOf(nodes - {n.cookie}) == ConnsOf(nodes) - {n.cookie}
    ensures (nodes - {n.cookie}).Values <= nodes.Values
    ensures n.cookie in ConnsOf(nodes) && ConnsOf(nodes)[n.cookie] == n.c
  {
  }

  lemma ConnsMore(nodes: map<nat, Node>, n: Node)
    requires n.cookie !in nodes
    ensures ConnsOf(nodes[n.cookie := n]) == ConnsOf(nodes)[n.cookie := n.c]
  {
  }
}
