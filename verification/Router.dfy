/**
 The routing step of src/agent/pipeline.c as it runs: it looks an entry up, changes it in
 place, and hands what the framer emits to the sink. Every step is the one of module
 Pipeline.
 */
module Router {
  import opened Framing
  import opened ChunkLayer
  import opened Connections
  import opened ConnTable
  import opened Pipeline

  class Agent {
    const env: Env
    const table: Conns
    var log: seq<Emission>
    var stats: Stats

    /** lk_pipeline_init. */
    constructor (env: Env, max: nat, idle: nat, size: nat, hash: nat -> nat)
      requires forall k :: hash(k) < size
      ensures table.Parts() && Value() == Start(max, idle) && this.env == env
    {
      hide Conns.Valid, Conns.Value;
      this.env := env;
      table := new Conns(max, idle, size, hash);
      log, stats := [], ZERO_STATS;
      new;
      table.ValidParts();
    }

    ghost function Value(): Pipe
      reads this, table, table.lru, table.chains, table.chains.nodes.Values`c
    {
      Pipe(table.Value(), log, stats)
    }

    /** lk_reasm_data on an entry. */
    method FeedNode(n: Node, dir: Dir, ev: DataEvent)
      requires table.Parts() && n in table.lru.order
      modifies this`log, this`stats, n`c
      ensures n.cookie in old(Value()).t.conns
      ensures table.Parts() && Value() == FeedConn(old(Value()), n.cookie, dir, ev)
    {
      hide Conns.Parts, Conns.Value, Fed, Taken, Labelled;
      table.RecordOf(n);
      var c := n.c;
      var r := Fed(c, dir, ev, stats);
      table.Update(n, Taken(c, dir, ev, stats));
      log := log + Labelled(n.cookie, r.out);
      stats := r.st;
    }

    /** Flag an entry as encrypted and restart its framing. */
    method Flip(n: Node, midstream: bool)
      requires table.Parts() && n in table.lru.order
      modifies table`st, n`c
      ensures n.cookie in old(Value()).t.conns
      ensures table.Parts() && Value() == old(Value()).(t := GoTls(old(Value()).t, n.cookie, midstream))
    {
      hide Conns.Parts, Conns.Value, Restarted, NoteTlsOpen;
      table.RecordOf(n);
      table.Update(n, Restarted(n.c.(ctx := n.c.ctx.(tls := true)), midstream));
      table.NoteOpen();
    }

    /** The decrypted branch of lk_pipeline_feed. */
    method Decrypted(cookie: nat, seqNo: nat, dir: Dir, ev: DataEvent) returns (lost: nat)
      requires table.Parts()
      modifies this`log, this`stats, table`st, table.lru, table.chains, table.chains.buckets, table.lru.Nodes(),
               table.chains.nodes.Values
      ensures table.Parts() && Value() == FeedDecrypted(env, old(Value()), cookie, seqNo, dir, ev)
    {
      hide Conns.Parts, Conns.Value, FeedConn, GoTls, DataDecrypted;
      var n: Node;
      n, lost := table.DataDecryptedConn(cookie, seqNo, ev.ts, env.dflt);
      table.RecordOf(n);
      if !n.c.ctx.tls {
        Flip(n, true);
      }
      FeedNode(n, dir, ev);
    }

    /** The plaintext branch of lk_pipeline_feed. */
    method Plain(cookie: nat, seqNo: nat, dir: Dir, ev: DataEvent) returns (lost: nat)
      requires table.Parts()
      modifies this`log, this`stats, table`st, table.lru, table.chains, table.chains.buckets, table.lru.Nodes(),
               table.chains.nodes.Values
      ensures table.Parts() && Value() == FeedRaw(env, old(Value()), cookie, seqNo, dir, ev)
    {
      hide Conns.Parts, Conns.Value, FeedConn, GoTls, Data;
      var n: Node;
      n, lost := table.DataConn(cookie, seqNo, ev.ts, env.dflt);
      table.RecordOf(n);
      var was := n.c.ctx.tls;
      FeedNode(n, dir, ev);
      table.RecordOf(n);
      if !was && n.c.ctx.tls {
        Flip(n, false);
      }
    }

    /** lk_pipeline_feed, and the periodic sweep. */
    method Feed(i: Input)
      requires table.Parts()
      modifies this`log, this`stats, table`st, table.lru, table.chains, table.chains.buckets, table.lru.Nodes(),
               table.chains.nodes.Values
      ensures table.Parts() && Value() == Route(env, old(Value()), i)
    {
      hide Conns.Parts, Conns.Value, FeedRaw, FeedDecrypted, Open, Close, Sweep, NoteTlsDrop;
      match i {
        case Opened(cookie, seqNo, ts, port, synthetic) =>
          var n, lost := table.OpenConn(cookie, seqNo, ts, ProtoOf(env, port), synthetic);
        case Closed(cookie, seqNo, ts) =>
          var lost := table.CloseConn(cookie, seqNo, ts);
        case Sweeping(now) =>
          var evicted := table.SweepIdle(now);
        case Chunk(cookie, seqNo, dir, ev) =>
          var n := table.Peek(cookie);
          if n != null && n.c.ctx.tls && !ev.decrypted {
            table.NoteDrop(n, seqNo, ev.ts);
          } else if ev.decrypted {
            var lost := Decrypted(cookie, seqNo, dir, ev);
          } else {
            var lost := Plain(cookie, seqNo, dir, ev);
          }
      }
    }
  }
}
