/**
 The slab pool over whole runs: any number of connections that come and go, any
 interleaving of data events, framing restarts and dirtying. The frames updated in place
 are the framers on values, the pool stays within its cap, and every slab is in exactly
 one place.
 */
module SlabTheorems {
  import opened ChunkLayer
  import opened Framing
  import Reassembly

  /** A connection as a value: its protocol, its context and its two directions. */
  datatype Link = Link(ops: Ops, ctx: Ctx, send: Flow, recv: Flow)
  {
    function In(d: Dir): Flow { if d.Send? then send else recv }

    function With(d: Dir, x: Flow): Link { if d.Send? then this.(send := x) else this.(recv := x) }

    ghost predicate Sound()
    {
      && ops.Valid()
      && FrameOk(send.f, ops.hdrSize(ctx.p, Send))
      && FrameOk(recv.f, ops.hdrSize(ctx.p, Recv))
    }
  }

  /** All connections, and the sink and counters they share. */
  datatype World = World(links: seq<Link>, out: seq<Event>, st: Stats)

  datatype Act =
    | Arrive(i: nat, dir: Dir, ev: DataEvent)
    | Restart(i: nat)
    | Dirty(i: nat)
    | Encrypt(i: nat)
    | Join(ops: Ops, ctx: Ctx)
    | Leave(i: nat)

  function Received(w: World, i: nat, dir: Dir, ev: DataEvent): World
    requires i < |w.links|
  {
    var l := w.links[i];
    var s := Framer(l.ctx, l.In(dir).f, w.out, w.st);
    var t := ReasmData(l.ops, dir, s, l.In(dir).call, ev);
    World(w.links[i := l.With(dir, Flow(t.f, ReasmCall(s, l.In(dir).call, ev))).(ctx := t.ctx)], t.out, t.st)
  }

  /** What one act means; an act on a connection that is not there means nothing. */
  function Applied(w: World, a: Act): World
  {
    match a
    case Arrive(i, dir, ev) => if i < |w.links| then Received(w, i, dir, ev) else w
    case Restart(i) =>
      if i < |w.links| then
        var l := w.links[i];
        w.(links := w.links[i := Link(l.ops, l.ctx.(p := l.ops.restarted(l.ctx.p)), FRESH_FLOW, FRESH_FLOW)])
      else w
    case Dirty(i) =>
      if i < |w.links| then
        var l := w.links[i];
        w.(links := w.links[i := l.(send := Dirtying(l.send), recv := Dirtying(l.recv))])
      else w
    case Encrypt(i) =>
      if i < |w.links| then
        var l := w.links[i];
        w.(links := w.links[i := l.(ctx := l.ctx.(tls := true))])
      else w
    case Join(ops, ctx) => w.(links := w.links + [Link(ops, ctx, FRESH_FLOW, FRESH_FLOW)])
    case Leave(i) => if i < |w.links| then w.(links := w.links[..i] + w.links[i + 1..]) else w
  }

  function Run(w: World, acts: seq<Act>): World
  {
    if acts == [] then w else Applied(Run(w, acts[..|acts| - 1]), acts[|acts| - 1])
  }

  lemma ReceivedAt(w: World, i: nat, dir: Dir, ev: DataEvent)
    requires i < |w.links|
    ensures var x, l := Received(w, i, dir, ev), w.links[i];
            var s := Framer(l.ctx, l.In(dir).f, w.out, w.st);
            var t := ReasmData(l.ops, dir, s, l.In(dir).call, ev);
            && x.out == t.out && x.st == t.st && |x.links| == |w.links|
            && x.links[i].ops == l.ops && x.links[i].ctx == t.ctx
            && x.links[i].In(dir) == Flow(t.f, ReasmCall(s, l.In(dir).call, ev))
            && x.links[i].In(Other(dir)) == l.In(Other(dir))
            && forall j :: 0 <= j < |w.links| && j != i ==> x.links[j] == w.links[j]
  {
    hide ReasmData, ReasmCall;
  }

  ghost predicate AllSound(links: seq<Link>) { forall i :: 0 <= i < |links| ==> links[i].Sound() }

  lemma ReceivedSound(l: Link, dir: Dir, out: seq<Event>, st: Stats, call: Call, ev: DataEvent)
    requires l.Sound()
    ensures var s := Framer(l.ctx, l.In(dir).f, out, st);
            var t := ReasmData(l.ops, dir, s, l.In(dir).call, ev);
            Ok(l.ops, dir, s) && Extends(l.ops, dir, s, t) && l.With(dir, Flow(t.f, call)).(ctx := t.ctx).Sound()
  {
    hide ReasmData, FrameOk, Ops.Valid;
    var s := Framer(l.ctx, l.In(dir).f, out, st);
    ReasmDataKeeps(l.ops, dir, s, l.In(dir).call, ev);
  }

  lemma FreshSound(ops: Ops, ctx: Ctx)
    requires ops.Valid()
    ensures Link(ops, ctx, FRESH_FLOW, FRESH_FLOW).Sound()
  {
  }

  lemma DirtiedSound(l: Link)
    requires l.Sound()
    ensures l.(send := Dirtying(l.send), recv := Dirtying(l.recv)).Sound()
  {
  }

  lemma EncryptedSound(l: Link)
    requires l.Sound()
    ensures l.(ctx := l.ctx.(tls := true)).Sound()
  {
  }

  /** Every act keeps every framer of every connection in order. */
  lemma AppliedSound(w: World, a: Act)
    requires AllSound(w.links) && (a.Join? ==> a.ops.Valid())
    ensures AllSound(Applied(w, a).links)
  {
    hide Link.Sound, ReasmData;
    match a
    case Arrive(i, dir, ev) =>
      if i < |w.links| {
        var l := w.links[i];
        var s := Framer(l.ctx, l.In(dir).f, w.out, w.st);
        ReceivedSound(l, dir, w.out, w.st, ReasmCall(s, l.In(dir).call, ev), ev);
      }
    case Restart(i) =>
      if i < |w.links| {
        var l := w.links[i];
        SoundOps(l);
        FreshSound(l.ops, l.ctx.(p := l.ops.restarted(l.ctx.p)));
      }
    case Dirty(i) => if i < |w.links| { DirtiedSound(w.links[i]); }
    case Encrypt(i) => if i < |w.links| { EncryptedSound(w.links[i]); }
    case Join(ops, ctx) => FreshSound(ops, ctx);
    case Leave(i) =>
  }

  lemma ArrivedSound(w: World, i: nat, dir: Dir, ev: DataEvent)
    requires AllSound(w.links) && i < |w.links|
    ensures AllSound(Received(w, i, dir, ev).links)
  {
    hide AllSound, Received;
    AppliedSound(w, Arrive(i, dir, ev));
  }

  lemma SoundOps(l: Link)
    requires l.Sound()
    ensures l.ops.Valid()
  {
  }

  // ---- in place -------------------------------------------------------------

  /** A connection in place: the parts of lk_conn that the framer works on. */
  datatype Peer = Peer(ops: Ops, c: Reassembly.Conn, send: Reassembly.Frame, recv: Reassembly.Frame)
  {
    function In(d: Dir): Reassembly.Frame { if d.Send? then send else recv }

    ghost predicate Valid()
      reads send, recv
    {
      send != recv && send.Valid() && recv.Valid()
    }

    ghost function Value(): Link
      requires Valid()
      reads c, send, recv, send.hdr, recv.hdr, send.buf, recv.buf
    {
      Link(ops, c.ctx, Flow(send.Value(), send.call), Flow(recv.Value(), recv.call))
    }
  }

  ghost function FramesOf(peers: seq<Peer>): set<Reassembly.Frame>
  {
    (set p | p in peers :: p.send) + (set p | p in peers :: p.recv)
  }

  /** No two connections share a context or a frame. */
  predicate Apart(peers: seq<Peer>)
  {
    && (forall i :: 0 <= i < |peers| ==> peers[i].send != peers[i].recv)
    && (forall i, j :: 0 <= i < j < |peers| ==>
          && peers[i].c != peers[j].c
          && peers[i].send != peers[j].send && peers[i].send != peers[j].recv
          && peers[i].recv != peers[j].send && peers[i].recv != peers[j].recv)
  }

  lemma InFrames(peers: seq<Peer>, j: nat)
    requires j < |peers|
    ensures peers[j].send in FramesOf(peers) && peers[j].recv in FramesOf(peers)
  {
  }

  lemma ApartAt(peers: seq<Peer>, i: nat, j: nat)
    requires Apart(peers) && i < |peers| && j < |peers|
    ensures peers[i].send != peers[i].recv && peers[j].send != peers[j].recv
    ensures i != j ==> peers[i].c != peers[j].c && {peers[i].send, peers[i].recv} !! {peers[j].send, peers[j].recv}
  {
  }

  lemma JoinedFrames(peers: seq<Peer>, p: Peer)
    ensures FramesOf(peers + [p]) == FramesOf(peers) + {p.send, p.recv}
  {
    assert p in peers + [p];
    forall f | f in FramesOf(peers + [p]) ensures f in FramesOf(peers) + {p.send, p.recv} {
      var q :| q in peers + [p] && (f == q.send || f == q.recv);
      assert q == p || q in peers;
    }
    forall q | q in peers ensures q.send in FramesOf(peers + [p]) && q.recv in FramesOf(peers + [p]) {
      assert q in peers + [p];
    }
  }

  lemma JoinedApart(peers: seq<Peer>, p: Peer)
    requires Apart(peers) && p.send != p.recv && {p.send, p.recv} !! FramesOf(peers)
    requires forall q :: q in peers ==> q.c != p.c
    ensures Apart(peers + [p])
  {
    forall i | 0 <= i < |peers|
      ensures peers[i].send in FramesOf(peers) && peers[i].recv in FramesOf(peers) && peers[i].c != p.c
    {
      InFrames(peers, i);
    }
  }

  /** A connection other than the one that leaves is still there. */
  lemma StillThere(peers: seq<Peer>, i: nat, j: nat)
    requires i < |peers| && j < |peers| && j != i
    ensures peers[j] in peers[..i] + peers[i + 1..]
  {
    var rest := peers[..i] + peers[i + 1..];
    assert peers[j] == rest[if j < i then j else j - 1];
  }

  lemma WasThere(peers: seq<Peer>, i: nat, p: Peer) returns (j: nat)
    requires i < |peers| && p in peers[..i] + peers[i + 1..]
    ensures j < |peers| && j != i && peers[j] == p
  {
    var rest := peers[..i] + peers[i + 1..];
    var k :| 0 <= k < |rest| && rest[k] == p;
    j := if k < i then k else k + 1;
  }

  lemma LeftFrames(peers: seq<Peer>, i: nat)
    requires Apart(peers) && i < |peers|
    ensures FramesOf(peers[..i] + peers[i + 1..]) == FramesOf(peers) - {peers[i].send, peers[i].recv}
  {
    hide Apart;
    var rest := peers[..i] + peers[i + 1..];
    forall f | f in FramesOf(rest) ensures f in FramesOf(peers) - {peers[i].send, peers[i].recv} {
      var p :| p in rest && (f == p.send || f == p.recv);
      var j := WasThere(peers, i, p);
      ApartAt(peers, i, j);
    }
    forall f | f in FramesOf(peers) - {peers[i].send, peers[i].recv} ensures f in FramesOf(rest) {
      var j :| 0 <= j < |peers| && (f == peers[j].send || f == peers[j].recv);
      StillThere(peers, i, j);
    }
  }

  lemma LeftApart(peers: seq<Peer>, i: nat)
    requires Apart(peers) && i < |peers|
    ensures Apart(peers[..i] + peers[i + 1..])
  {
    var rest := peers[..i] + peers[i + 1..];
    assert forall k :: 0 <= k < |rest| ==> rest[k] == peers[if k < i then k else k + 1];
  }

  lemma LinkSound(links: seq<Link>, i: nat)
    requires AllSound(links) && i < |links|
    ensures links[i].Sound()
  {
  }

  class Agent {
    const r: Reassembly.Reasm
    var peers: seq<Peer>
    ghost var world: World
    ghost var Repr: set<object>

    constructor ()
      ensures Valid() && world == World([], [], ZERO_STATS) && fresh(Repr)
    {
      r := new Reassembly.Reasm();
      peers := [];
      world := World([], [], ZERO_STATS);
      new;
      Repr := {this, r};
    }

    /** All that the connections and the pool are made of is in `R`. */
    ghost predicate Inside(ps: seq<Peer>, R: set<object>)
      reads r, set p | p in ps :: p.send, set p | p in ps :: p.recv
    {
      && this in R && r in R
      && (forall p :: p in ps ==> p.c in R && p.send in R && p.recv in R && p.send.hdr in R && p.recv.hdr in R)
      && (forall p :: p in ps ==> (p.send.buf != null ==> p.send.buf in R) && (p.recv.buf != null ==> p.recv.buf in R))
      && (forall b :: b in r.pool ==> b in R)
    }

    ghost predicate Contained()
      reads this, Repr
    {
      && this in Repr && r in Repr && (forall p :: p in peers ==> p.send in Repr && p.recv in Repr)
      && Inside(peers, Repr)
    }

    /** The connections in place are those of `x`. */
    ghost predicate Mirrors(ps: seq<Peer>, x: World)
      reads r, FramesOf(ps), set f | f in FramesOf(ps) :: f.hdr,
            set f | f in FramesOf(ps) && f.buf != null :: f.buf, set p | p in ps :: p.c
    {
      && r.Owned(FramesOf(ps))
      && x.out == r.out && x.st == r.st && |x.links| == |ps|
      && (forall i :: 0 <= i < |ps| ==> ps[i].Valid() && ps[i].Value() == x.links[i])
    }

    /** Every slab is in one place, the pool is within its cap, and the frames in place are
        the framers of `world`, all of them in order. */
    ghost predicate Valid()
      reads this, Repr
      ensures Valid() ==> this in Repr
    {
      Contained() && Mirrors(peers, world) && Apart(peers) && AllSound(world.links)
    }

    /** The connections are now `ps`, their state is that of `x`, and all of it is in `R`. */
    method Adopt(ps: seq<Peer>, ghost x: World, ghost R: set<object>)
      requires Mirrors(ps, x) && Inside(ps, R) && Apart(ps) && AllSound(x.links)
      modifies this
      ensures Valid() && peers == ps && world == x && Repr == R
    {
      hide Apart, AllSound;
      hide Reassembly.Frame.Value, Reassembly.Reasm.Owned, Reassembly.Reasm.Holds;
      peers, world, Repr := ps, x, R;
    }

    lemma PartsInside(i: nat)
      requires Contained() && i < |peers|
      ensures var p := peers[i];
              && {this, r, p.c, p.send, p.recv, p.send.hdr, p.recv.hdr} <= Repr
              && r.Slabs(p.send) <= Repr && r.Slabs(p.recv) <= Repr
    {
    }

    lemma FramesValid()
      requires r.Owned(FramesOf(peers))
      ensures forall g :: g in FramesOf(peers) ==> g.Valid()
    {
    }

    /** The event reaches its frame, and all connections are as they are to be mirrored. */
    method OnDataInPlace(i: nat, dir: Dir, ev: DataEvent)
      requires Valid() && i < |peers|
      modifies r, peers[i].c, peers[i].In(dir), peers[i].In(dir).hdr, r.Slabs(peers[i].In(dir))
      ensures fresh(r.Slabs(peers[i].In(dir)) - old(r.Slabs(peers[i].In(dir))))
      ensures Mirrors(peers, Received(world, i, dir, ev))
    {
      hide ReasmData, ReasmCall, Link.Sound, FrameOk, Ops.Valid, Extends, AllSound, Apart, FramesOf, Received,
           Contained;
      hide Reassembly.Frame.Value, Reassembly.Reasm.Owned, Reassembly.Reasm.Holds;
      var p := peers[i];
      ghost var l := world.links[i];
      InFrames(peers, i);
      LinkSound(world.links, i);
      ReceivedSound(l, dir, world.out, world.st, l.In(dir).call, ev);
      SoundOps(l);
      r.Receive(p.ops, dir, p.c, p.In(dir), ev, FramesOf(peers));
      ReceivedAt(world, i, dir, ev);
      FramesValid();
      forall j | 0 <= j < |peers|
        ensures peers[j].Valid() && peers[j].Value() == Received(world, i, dir, ev).links[j]
      {
        InFrames(peers, j);
        ApartAt(peers, i, j);
      }
    }

    /** The slabs gained are inside as well. */
    method OnDataInside(i: nat, dir: Dir, ev: DataEvent)
      requires Valid() && i < |peers|
      modifies r, peers[i].c, peers[i].In(dir), peers[i].In(dir).hdr, r.Slabs(peers[i].In(dir))
      ensures fresh(r.Slabs(peers[i].In(dir)) - old(r.Slabs(peers[i].In(dir))))
      ensures Mirrors(peers, Received(world, i, dir, ev)) && Inside(peers, Repr + r.Slabs(peers[i].In(dir)))
    {
      hide AllSound, Apart, FramesOf, Received, Mirrors;
      OnDataInPlace(i, dir, ev);
    }

    /** lk_reasm_data on one direction of one connection. */
    method OnData(i: nat, dir: Dir, ev: DataEvent)
      requires Valid() && i < |peers|
      modifies Repr
      ensures Valid() && fresh(Repr - old(Repr))
      ensures world == Received(old(world), i, dir, ev)
    {
      hide AllSound, Apart, FramesOf, Received, Mirrors, Inside, Contained;
      PartsInside(i);
      LinksMirrored();
      ArrivedSound(world, i, dir, ev);
      OnDataInside(i, dir, ev);
      Adopt(peers, Received(world, i, dir, ev), Repr + r.Slabs(peers[i].In(dir)));
    }

    lemma LinksMirrored()
      requires Mirrors(peers, world)
      ensures |world.links| == |peers|
    {
    }

    /** lk_conn_tls_reset_framing. */
    method OnRestartInPlace(i: nat)
      requires Valid() && i < |peers|
      modifies peers[i].c, peers[i].send, peers[i].recv
      ensures Mirrors(peers, Applied(world, Restart(i)))
      ensures peers[i].send.buf == null && peers[i].recv.buf == null
    {
      hide Link.Sound, FrameOk, Ops.Valid, AllSound, Apart, FramesOf, Contained;
      hide Reassembly.Frame.Value, Reassembly.Reasm.Owned, Reassembly.Reasm.Holds;
      var p := peers[i];
      InFrames(peers, i);
      ApartAt(peers, i, i);
      r.Restart(p.send, FramesOf(peers));
      r.Restart(p.recv, FramesOf(peers));
      p.c.ctx := p.c.ctx.(p := p.ops.restarted(p.c.ctx.p));
      FramesValid();
      forall j | 0 <= j < |peers|
        ensures peers[j].Valid() && peers[j].Value() == Applied(world, Restart(i)).links[j]
      {
        InFrames(peers, j);
        ApartAt(peers, i, j);
      }
    }

    method OnRestartInside(i: nat)
      requires Valid() && i < |peers|
      modifies peers[i].c, peers[i].send, peers[i].recv
      ensures Mirrors(peers, Applied(world, Restart(i))) && Inside(peers, Repr)
    {
      hide AllSound, Apart, FramesOf, Applied, Mirrors;
      OnRestartInPlace(i);
    }

    method OnRestart(i: nat)
      requires Valid() && i < |peers|
      modifies Repr
      ensures Valid() && Repr == old(Repr)
      ensures world == Applied(old(world), Restart(i))
    {
      hide AllSound, Apart, FramesOf, Applied, Mirrors, Inside, Contained;
      PartsInside(i);
      AppliedSound(world, Restart(i));
      OnRestartInside(i);
      Adopt(peers, Applied(world, Restart(i)), Repr);
    }

    /** mark_dirty. */
    method OnGapInPlace(i: nat)
      requires Valid() && i < |peers|
      modifies peers[i].send`st, peers[i].send`matched, peers[i].recv`st, peers[i].recv`matched
      ensures Mirrors(peers, Applied(world, Dirty(i)))
    {
      hide Link.Sound, FrameOk, Ops.Valid, AllSound, Apart, FramesOf, Contained;
      hide Reassembly.Frame.Value, Reassembly.Reasm.Owned, Reassembly.Reasm.Holds;
      var p := peers[i];
      InFrames(peers, i);
      ApartAt(peers, i, i);
      r.MarkDirty(p.send, FramesOf(peers));
      r.MarkDirty(p.recv, FramesOf(peers));
      FramesValid();
      forall j | 0 <= j < |peers|
        ensures peers[j].Valid() && peers[j].Value() == Applied(world, Dirty(i)).links[j]
      {
        InFrames(peers, j);
        ApartAt(peers, i, j);
      }
    }

    method OnGapInside(i: nat)
      requires Valid() && i < |peers|
      modifies peers[i].send`st, peers[i].send`matched, peers[i].recv`st, peers[i].recv`matched
      ensures Mirrors(peers, Applied(world, Dirty(i))) && Inside(peers, Repr)
    {
      hide AllSound, Apart, FramesOf, Applied, Mirrors;
      OnGapInPlace(i);
    }

    method OnGap(i: nat)
      requires Valid() && i < |peers|
      modifies Repr
      ensures Valid() && Repr == old(Repr)
      ensures world == Applied(old(world), Dirty(i))
    {
      hide AllSound, Apart, FramesOf, Applied, Mirrors, Inside, Contained;
      PartsInside(i);
      AppliedSound(world, Dirty(i));
      OnGapInside(i);
      Adopt(peers, Applied(world, Dirty(i)), Repr);
    }

    /** The connection is flagged as encrypted. */
    method OnEncryptInPlace(i: nat)
      requires Valid() && i < |peers|
      modifies peers[i].c
      ensures Mirrors(peers, Applied(world, Encrypt(i))) && Inside(peers, Repr)
    {
      hide Link.Sound, FrameOk, Ops.Valid, AllSound, Apart, FramesOf;
      hide Reassembly.Frame.Value, Reassembly.Reasm.Owned, Reassembly.Reasm.Holds;
      var p := peers[i];
      p.c.ctx := p.c.ctx.(tls := true);
      forall j | 0 <= j < |peers|
        ensures peers[j].Valid() && peers[j].Value() == Applied(world, Encrypt(i)).links[j]
      {
        InFrames(peers, j);
        ApartAt(peers, i, j);
      }
    }

    method OnEncrypt(i: nat)
      requires Valid() && i < |peers|
      modifies Repr
      ensures Valid() && Repr == old(Repr)
      ensures world == Applied(old(world), Encrypt(i))
    {
      hide AllSound, Apart, FramesOf, Applied, Mirrors, Inside, Contained;
      PartsInside(i);
      AppliedSound(world, Encrypt(i));
      OnEncryptInPlace(i);
      Adopt(peers, Applied(world, Encrypt(i)), Repr);
    }

    /** A connection that shares nothing with what is in `R`, and holds no slab. */
    ghost predicate Stranger(p: Peer, R: set<object>)
      reads p.c, p.send, p.recv, p.send.hdr, p.recv.hdr, p.send.buf, p.recv.buf
    {
      && p.c !in R && p.send !in R && p.recv !in R && p.send.hdr !in R && p.recv.hdr !in R
      && p.send.hdr != p.recv.hdr && p.send.buf == null && p.recv.buf == null
      && p.Valid() && p.Value() == Link(p.ops, p.c.ctx, FRESH_FLOW, FRESH_FLOW)
    }

    lemma Joined(p: Peer)
      requires Valid() && p.ops.Valid() && Stranger(p, Repr)
      ensures var x := Applied(world, Join(p.ops, p.c.ctx));
              && Mirrors(peers + [p], x) && Apart(peers + [p]) && AllSound(x.links)
              && Inside(peers + [p], Repr + {p.c, p.send, p.recv, p.send.hdr, p.recv.hdr})
    {
      hide Link.Sound, FrameOk, Ops.Valid, AllSound, Apart, FramesOf;
      hide Reassembly.Frame.Value, Reassembly.Reasm.Owned, Reassembly.Reasm.Holds;
      AppliedSound(world, Join(p.ops, p.c.ctx));
      HeadersInside();
      r.OwnedWith(FramesOf(peers), {p.send, p.recv});
      JoinedFrames(peers, p);
      JoinedApart(peers, p);
    }

    lemma HeadersInside()
      requires Contained()
      ensures forall f :: f in FramesOf(peers) ==> f in Repr && f.hdr in Repr
      ensures forall p :: p in peers ==> p.c in Repr
    {
    }

    /** A new connection. */
    method OnJoin(ops: Ops, ctx: Ctx)
      requires Valid() && ops.Valid()
      modifies Repr
      ensures Valid() && fresh(Repr - old(Repr))
      ensures world == Applied(old(world), Join(ops, ctx))
    {
      hide Valid, Applied, Ops.Valid;
      var c := new Reassembly.Conn(ctx);
      var send := new Reassembly.Frame();
      var recv := new Reassembly.Frame();
      Enlist(Peer(ops, c, send, recv));
    }

    /** The new connection enters the list. */
    method Enlist(p: Peer)
      requires Valid() && p.ops.Valid() && Stranger(p, Repr)
      modifies this
      ensures Valid() && Repr == old(Repr) + {p.c, p.send, p.recv, p.send.hdr, p.recv.hdr}
      ensures world == Applied(old(world), Join(p.ops, p.c.ctx))
    {
      hide Applied, Ops.Valid, Mirrors, Apart, AllSound, Inside, Contained, Stranger, FramesOf;
      Joined(p);
      Adopt(peers + [p], Applied(world, Join(p.ops, p.c.ctx)), Repr + {p.c, p.send, p.recv, p.send.hdr, p.recv.hdr});
    }

    lemma Left(i: nat)
      requires Valid() && i < |peers|
      ensures var ps, x := peers[..i] + peers[i + 1..], Applied(world, Leave(i));
              Mirrors(ps, x) && Apart(ps) && AllSound(x.links) && Inside(ps, Repr)
    {
      hide Link.Sound, FrameOk, Ops.Valid, AllSound, Apart, FramesOf;
      hide Reassembly.Frame.Value, Reassembly.Reasm.Owned, Reassembly.Reasm.Holds;
      AppliedSound(world, Leave(i));
      r.OwnedWithout(FramesOf(peers), {peers[i].send, peers[i].recv});
      LeftFrames(peers, i);
      LeftApart(peers, i);
    }

    /** A connection that is closed or evicted; its slabs are freed. */
    method OnLeave(i: nat)
      requires Valid() && i < |peers|
      modifies this
      ensures Valid() && Repr == old(Repr)
      ensures world == Applied(old(world), Leave(i))
    {
      hide Applied, Mirrors, Apart, AllSound, Inside, Contained, FramesOf;
      Left(i);
      Adopt(peers[..i] + peers[i + 1..], Applied(world, Leave(i)), Repr);
    }

    /** What the invariant says about memory. */
    lemma Bounded()
      requires Valid()
      ensures |r.pool| <= 64
      ensures forall f :: f in FramesOf(peers) ==>
              f.bufLen <= 16384 && f.hdrLen <= 8 && (f.buf != null ==> f.buf !in r.pool)
      ensures forall f, g :: f in FramesOf(peers) && g in FramesOf(peers) && f != g && f.buf != null ==> f.buf != g.buf
    {
    }

    lemma Sizes()
      requires Valid()
      ensures |world.links| == |peers|
    {
    }

    method Perform(a: Act)
      requires Valid() && (a.Join? ==> a.ops.Valid())
      modifies Repr
      ensures Valid() && fresh(Repr - old(Repr)) && world == Applied(old(world), a)
    {
      hide Valid, Received, Ops.Valid;
      Sizes();
      match a {
        case Arrive(i, dir, ev) => if i < |peers| { OnData(i, dir, ev); }
        case Restart(i) => if i < |peers| { OnRestart(i); }
        case Dirty(i) => if i < |peers| { OnGap(i); }
        case Encrypt(i) => if i < |peers| { OnEncrypt(i); }
        case Join(ops, ctx) => OnJoin(ops, ctx);
        case Leave(i) => if i < |peers| { OnLeave(i); }
      }
    }

    /** Any sequence of acts: the frames in place end as the framers on values do, the pool
        within its cap, and every slab in exactly one place. */
    method Serve(acts: seq<Act>)
      requires Valid() && forall i :: 0 <= i < |acts| && acts[i].Join? ==> acts[i].ops.Valid()
      modifies Repr
      ensures Valid() && fresh(Repr - old(Repr)) && world == Run(old(world), acts)
      ensures |r.pool| <= 64 && forall f :: f in FramesOf(peers) ==> f.bufLen <= 16384
      ensures forall f, g :: f in FramesOf(peers) && g in FramesOf(peers) && f != g && f.buf != null ==>
              f.buf != g.buf && f.buf !in r.pool
    {
      hide Valid, Applied, FramesOf, Ops.Valid;
      var k := 0;
      while k < |acts|
        invariant 0 <= k <= |acts| && Valid() && world == Run(old(world), acts[..k])
        invariant fresh(Repr - old(Repr))
      {
        Perform(acts[k]);
        assert acts[..k + 1][..k] == acts[..k];
        k := k + 1;
      }
      assert acts[..|acts|] == acts;
      Bounded();
    }
  }
}
