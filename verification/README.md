# latkit in Dafny

latkit is an eBPF agent: the kernel side reports the bytes of socket calls as chunks in a
ring buffer, the user side puts them back into streams, frames the streams into protocol
messages, and turns the messages into metrics of bounded cardinality. This project models
the parts of it that are easy to get wrong and proves what they promise.

- **Framing** (`Framing`, `FramingTheorems`, `WrittenTheorems`, `HoleTheorems`, `ResyncTheorems`,
  `Reassembly`, `SlabTheorems`). A direction of a connection is a sequence of captured bytes and of holes of
  known size. The framer is a HEADER/BODY/SKIP/DIRTY machine; the protocol is a record of functions, so every
  statement holds for every protocol. The machine is specified byte by byte and related to a
  recursive parser of the whole stream; the chunk-wise code, with its slabs and its pool, is
  proved equal to the byte-wise machine.
- **From calls to messages** (`ChunkLayer`, `KernelEmitter`, `Wire`, `EndToEnd`). What the
  kernel emits for a call, what the chunk layer makes of it, and the two together: the
  messages are those a recursive parser finds on a wire of captured and lost positions.
- **Connections** (`Connections`, `ConnTable`, `HashChains`, `Pipeline`, `Router`, `Assembly`,
  `TlsTheorems`, `SequenceTheorems`, `BoundaryTheorems`, `EvictionTheorems`, `RouterTheorems`,
  `CounterTheorems`). The table with its hash chains and its LRU list, the two sequence spaces,
  the TLS router, the router on slabs, who is evicted, what the sink hears and what is counted
  over every run of events.
- **Metrics** (`Hist`, `SizeHist`, `Accumulators`, `FpIndex`, `Lru`, `Registry`,
  `RegistryTheorems`, `RegistryPlaces`, `RegistryMeaning`, `RegistryExact`, `RegistrySizes`, `Dictionary`, `SeriesHash`,
  `SeriesStore`, `RegistryTable`). The histogram grids, the open-addressed index, the chained
  series hash, the top-K dictionary with its doorkeeper, and the eviction that folds a slot into
  `other`.
- **Export and filters** (`Pbuf`, `X86Len`, `X86Format`, `Glob`, `EventLoop`, `Redact`). The
  protobuf writer, the instruction-length decoder and the instruction format it reads, the cgroup globs, the slot and generation protocol
  of the event loop, and the query-string redaction.

Most modules come in two layers: values and functions that say what an operation means, with
the theorems about them, and classes and methods that work in place as the source does and
are proved to be those functions.

## Where the code and its documentation differ

The model follows the code.

- A final `**` behind an ordinary pattern segment does not match nothing, although
  `src/agent/cgroup_match.h` says zero or more segments (`Glob.FinalDoubleStarNeedsOne`);
  `Glob.DocumentedIff` says for which patterns the two are the same.
- A star of a pattern that faces a literal `*` of the path is taken for that `*`
  (`Glob.LiteralStarIsMissed`); `Glob.MatchesIsGlobIff` says when this makes no difference.
- An entry that the decrypted channel creates is said to have no socket baseline, but its
  `last_seq` is the decrypted number (`SequenceTheorems.DecryptedBirthMixesSpaces`).
- Ciphertext is meant to be without influence on the decrypted framer; a repeated OPEN of a
  live connection compares the socket's numbers and can dirty it
  (`TlsTheorems.RepeatedOpenSeesCiphertext`, `TlsTheorems.OpenSparesTheFramersIff`).
- `lk_url_redact_needed` answers whether there is a secret value, not whether redacting would
  change anything: a value that already is the mark needs redaction and stays
  (`Redact.MarkedNeedsRedaction`, `Redact.RedactionIsIdentityIff`).
- A rejected header drops the rest of its chunk unscanned, so a boundary behind it is found or
  missed depending on the cut (`FramingTheorems.RejectedTailIsLost`,
  `FramingTheorems.RejectedTailIff`).
- A hole is meant to cost one message its bytes and nothing else; it also changes the
  connection when pre_emit would have read the lost bytes (`HoleTheorems.HoleIsNoticed`,
  `HoleTheorems.TransparentIff`).
- Fingerprints 0 and 1 share a doorkeeper key (`RegistryTheorems.DoorKeyCollision`).
- The instruction tables are said never to be read at a prefix or at REX. Behind a REX they are:
  a prefix there passes for an instruction of its own (`X86Format.PrefixBehindRex`,
  `X86Format.ReadIsManualIff`).
- The decoder is meant to give the lengths of the architecture. It gives others where an
  operand-size prefix stands beside REX.W or on a near branch, and where the moves of control and
  debug registers carry a memory form, which the processor ignores
  (`X86Format.WideImmediateIsCut`, `X86Format.ManualIsDecodedIff`).

## Model

| member | source | states |
|---|---|---|
| FramingTheorems.FeedConcat | src/agent/reassembly.c:196-341 | feeding a concatenation is feeding its parts, unless the first part is cut short |
| FramingTheorems.CutIff | src/agent/reassembly.c:196-341 | from any state, a tail of a chunk is dropped if and only if the recursive parser, started behind what is left of the current header, body or anchor scan, meets a rejected header or a message that switches framing off |
| FramingTheorems.ChunkingIsInvisible | src/agent/reassembly.c:196-341 | a stream that the parser reads to its end leads to the same state and messages however it is cut into chunks, and no other stream gets through any cut whole |
| FramingTheorems.AnyTwoSplitsAgree | src/agent/reassembly.c:196-341 | any two ways to cut a stream that the parser reads to its end agree |
| FramingTheorems.HeaderBulk | src/agent/reassembly.c:221-251 | taking as many header bytes as a chunk has equals taking them one by one |
| FramingTheorems.BodyBulk | src/agent/reassembly.c:252-312 | copying a run of body bytes equals taking them one by one, up to the end of the kept prefix |
| FramingTheorems.SkipBulk | src/agent/reassembly.c:313-322 | skipping a run of bytes equals skipping them one by one |
| FramingTheorems.FeedIsParse | src/agent/reassembly.c:196-322 | from a header on, the machine emits exactly the messages of the recursive parser, which keeps the first 16384 bytes of the first fragment, fragments glued and emitted once, and drops a tail if and only if the parser does not read to the end |
| FramingTheorems.StreamingRefinesParsing | src/agent/reassembly.c:196-322 | over every cut of a stream whose complete headers the parser accepts and whose messages do not switch framing off, the log is the one-shot parse: types, lengths, first 16 KiB of the bodies, truncation flags |
| WrittenTheorems.LaterFragments | src/agent/reassembly.c:252-322 | the later fragments of a message add nothing to its body, and the message ends with the last of them |
| WrittenTheorems.OneIsParsed | src/agent/reassembly.c:174-177 | one written message, of one or more fragments, is one parsed message with the first 16384 bytes of its first fragment |
| WrittenTheorems.AllAreParsed | src/agent/reassembly.c:196-322 | a stream of written messages parses to exactly these messages |
| WrittenTheorems.WrittenIsEmitted | src/agent/reassembly.c:196-341 | the round trip: whatever messages a sender writes, in however many fragments, and however the stream is cut, the framer emits exactly these, each with the first 16384 bytes of its first fragment |
| WrittenTheorems.NextMessage | src/agent/reassembly.c:146-177 | from any header on, the next message keeps n bytes of a first fragment of n below 16384 and 16384 of a longer one, the first of the stream; where the message is that fragment it is marked truncated if and only if n > 16384 |
| FramingTheorems.RejectedTailIsLost | src/agent/reassembly.c:235-238 | a rejected header makes the cut visible: one stream, two splits, two states |
| FramingTheorems.RejectedTailIff | src/agent/reassembly.c:235-238 | for every protocol and stream: behind a rejected header the cut is invisible if and only if the anchor scan, started afresh on the dropped bytes, finds nothing and has matched nothing |
| Framing.StepKeeps | src/agent/reassembly.c:196-341 | every byte keeps the frame invariant, the flags already set and the log so far; a cut happens only with DIRTY or a flip to blind |
| Framing.FeedKeeps | src/agent/reassembly.c:196-341 | the same for every chunk |
| Framing.HoleKeeps | src/agent/reassembly.c:343-424 | the same for every hole |
| HoleTheorems.FeedAlike | src/agent/reassembly.c:196-341 | states that differ only in one message stay so over every further chunk |
| HoleTheorems.PlayAlike | src/agent/reassembly.c:196-491 | and over whatever else the chunk layer does: chunks, holes, boundary hints, anomalies |
| HoleTheorems.HoleTransparency | src/agent/reassembly.c:343-424 | a hole inside a body, also in the middle of a glued message, leaves the distance to the next header and every later message as they were, over every later input, when pre_emit makes the same connection of the message with and without the lost bytes; its type and flags may differ |
| HoleTheorems.HoleEmitsOnce | src/agent/reassembly.c:343-424 | the message hit by the hole is emitted once, with the bytes before the hole, and everything behind it is the same |
| HoleTheorems.TransparentIff | src/agent/reassembly.c:146-194 | a hole over a body, of a whole message or of one being glued, is transparent to every later stream if and only if pre_emit makes the same connection of the message with and without the lost bytes, under every header that can end it, and does not switch framing off where the body ends the message |
| HoleTheorems.HoleIsNoticed | src/agent/reassembly.c:343-424 | one protocol and one byte: seen, the hook leaves it on the connection; lost to a hole, it does not |
| HoleTheorems.HoleOverHeader | src/agent/reassembly.c:370-424 | a hole that passes the end of the body leaves the direction DIRTY with nothing kept and counts one header hole, if and only if the message it ends does not switch framing off; otherwise it stops at the boundary, counting none |
| ResyncTheorems.DirtyChunk | src/agent/reassembly.c:323-341 | a chunk that meets a dirty direction only moves the scan, or is framed from the byte behind the anchor on |
| ResyncTheorems.ResyncIsParsed | src/agent/reassembly.c:323-491 | from a dirty direction on, whatever bytes, holes and boundary hints arrive: nothing is emitted up to an anchor or a boundary; from there on, where the wire behind it is accepted, the log is the resynchronisation and the messages the recursive parser finds on that wire |
| ChunkLayer.BeforeBytesKeeps | src/agent/reassembly.c:426-480 | call tails, gaps, anomalies and boundary hints keep the framer's invariant |
| ChunkLayer.ReasmDataKeeps | src/agent/reassembly.c:426-491 | every data event keeps the invariant, the log and the flags |
| ChunkLayer.ReasmDataIsPlay | src/agent/reassembly.c:426-491 | an event that is not discarded hands the framer the call tail, then the gap or the anomaly, then the boundary hint, then its bytes, and nothing else |
| Reassembly.Reasm.BufGet | src/agent/reassembly.c:50-55 | a slab comes from the top of the pool or is new, and is in no other place |
| Reassembly.Reasm.BufPut | src/agent/reassembly.c:57-65 | a slab goes back to a pool that never holds more than 64 |
| Reassembly.Reasm.MsgReset | src/agent/reassembly.c:69-79 | resets the message and gives the slab back |
| Reassembly.Reasm.GoDirty | src/agent/reassembly.c:83-90 | the transition to DIRTY of the byte-wise machine |
| Reassembly.Reasm.Resync | src/agent/reassembly.c:96-106 | the resynchronisation of the byte-wise machine, reported to the sink |
| Reassembly.Reasm.Emit | src/agent/reassembly.c:146-171 | emits the message of the byte-wise machine and runs the hook |
| Reassembly.Reasm.WentBlind | src/agent/reassembly.c:186-194 | cuts the chunk when the emission switched framing off |
| Reassembly.Reasm.HeaderStep | src/agent/reassembly.c:221-251 | a turn in HEADER consumes a run of bytes as the byte-wise machine does |
| Reassembly.Reasm.OpenBodyStep | src/agent/reassembly.c:252-312 | a turn in BODY, with or without a slab, equals the byte-wise machine; no copy leaves its slab |
| Reassembly.Reasm.SkipStep | src/agent/reassembly.c:313-322 | a turn in SKIP equals the byte-wise machine |
| Reassembly.Reasm.DirtyStep | src/agent/reassembly.c:323-341 | a byte in DIRTY goes to the resync scan |
| Reassembly.Reasm.FrameBytes | src/agent/reassembly.c:196-341 | lk_frame_bytes on a chunk is feeding its bytes one by one |
| Reassembly.Reasm.FrameHole | src/agent/reassembly.c:343-424 | lk_frame_hole is the hole of the byte-wise machine |
| Reassembly.Reasm.Data | src/agent/reassembly.c:426-491 | lk_reasm_data is the chunk layer's function of the frame, the call position and the event |
| Reassembly.Reasm.Receive | src/agent/reassembly.c:426-491 | with any number of frames sharing the pool, the frame of the event and its call position become what the chunk layer makes of them, every slab stays in exactly one place and no other frame changes |
| Reassembly.Reasm.Restart | src/agent/conn_table.c:274-293 | the TLS restart frees a direction's slab, zeroes the frame and leaves all other slabs where they are |
| Reassembly.Reasm.MarkDirty | src/agent/conn_table.c:104-110 | dirtying a direction keeps its slab and changes no other frame |
| Reassembly.Reasm.OwnedWithout | src/agent/conn_table.c:97-98 | a connection that leaves takes its slabs along and the rest stays owned |
| Reassembly.Reasm.OwnedWith | src/agent/conn_table.c:129-153 | a connection that joins brings no slab along |
| SlabTheorems.AppliedSound | src/agent/reassembly.c:426-491 | every data event, restart, dirtying, arrival and departure keeps every framer of every connection in order |
| SlabTheorems.Agent.OnData | src/agent/reassembly.c:426-491 | a data event among any number of connections, in place, is the one on values |
| SlabTheorems.Agent.OnRestart | src/agent/conn_table.c:274-293 | so is the TLS restart of a connection |
| SlabTheorems.Agent.OnGap | src/agent/conn_table.c:104-110 | so is dirtying it |
| SlabTheorems.Agent.OnEncrypt | src/agent/pipeline.c:95-99 | so is flagging it as encrypted |
| SlabTheorems.Agent.OnJoin | src/agent/conn_table.c:129-153 | so is its arrival |
| SlabTheorems.Agent.OnLeave | src/agent/conn_table.c:82-102 | so is its departure |
| SlabTheorems.Agent.Serve | src/agent/reassembly.c:40-65 | over every interleaving of these on any number of connections, the frames in place are the framers on values, the pool holds at most 64 slabs, no prefix exceeds 16 KiB, and every slab is in exactly one place |
| KernelEmitter.AvailTotal | src/bpf/latkit.bpf.c:672-676 | the bytes the segments hold |
| KernelEmitter.Seek | src/bpf/latkit.bpf.c:737-751 | the cursor moves to the next byte of the flattened segments |
| KernelEmitter.Conn.EmitChunk | src/bpf/latkit.bpf.c:595-645 | the number is consumed before the reserve, so a lost record leaves a hole in the numbering and the next one carries the gap flag |
| KernelEmitter.Conn.EmitSlice | src/bpf/latkit.bpf.c:752-767 | one chunk extends the chain by the next bytes of the segments: exactly what is left of the segment, the budget and a full record allow |
| KernelEmitter.Conn.EmitChain | src/bpf/latkit.bpf.c:714-771 | the records of a call have one direction, contiguous offsets from 0, consecutive numbers, and payloads that concatenate to a prefix of the segments, whose length is a function of the segments, the budget and the reserves and reads that succeed |
| KernelEmitter.Conn.EmitDataChunks | src/bpf/latkit.bpf.c:659-771 | the same for every call, captured or not, whatever the reserve and the reads do; with nothing in the way the captured bytes are all that budget (64 in headers mode), call and segments allow, where eight records hold them, and 32768 of a longer single segment; which records carry the gap and the truncation flag, and when a gap is left pending |
| KernelEmitter.CaptureIsAll | src/bpf/latkit.bpf.c:714-771 | where the records that the segments need, each of at most 4096 bytes of one segment, are at most eight, everything within the budget is captured |
| KernelEmitter.CaptureOfOne | src/bpf/latkit.bpf.c:714-771 | of one segment exactly the budget or eight full records are captured, whichever is less |
| KernelEmitter.CapturesAll | src/bpf/latkit.bpf.c:659-771 | both for a whole call, in the numbers of the source |
| KernelEmitter.Tls.EmitSslChunk | src/bpf/latkit.bpf.c:1109-1150 | a decrypted chunk consumes a number of its own space before the reserve |
| KernelEmitter.Tls.EmitSslChain | src/bpf/latkit.bpf.c:1191-1218 | contiguous offsets, consecutive numbers, payloads that concatenate to a prefix of the buffer; with nothing in the way exactly what the budget and eight full records hold |
| KernelEmitter.Tls.EmitSslData | src/bpf/latkit.bpf.c:1162-1219 | the same for every decrypted call |
| Wire.CellsAreParsed | src/agent/reassembly.c:196-424 | over a wire of captured and lost positions, each with its own time, the machine emits exactly the messages of a recursive parser that keeps of a body what lies before its first hole, and gets through if and only if no header is hit or rejected and no message closes the channel |
| Wire.AcceptedSame | src/agent/reassembly.c:196-424 | whether a wire is accepted depends on its captured bytes and lost positions, not on its times |
| Wire.PlayIsCells | src/agent/reassembly.c:196-424 | wherever chunks and holes begin and end, the same positions lead to the same state |
| Wire.ParsedFrom | src/agent/reassembly.c:196-424 | so from any header on the positions alone decide the log |
| Wire.InputsAreParsed | src/agent/reassembly.c:196-424 | and from the start of a connection |
| Wire.NothingLost | src/agent/reassembly.c:196-322 | where nothing is lost the parser of the wire is the parser of the bytes |
| EndToEnd.ReceiveIsPlay | src/agent/reassembly.c:426-491 | the framer behind the chunk layer is made of what it was handed and of nothing else |
| EndToEnd.ChainAccounted | src/agent/reassembly.c:426-491 | the records of a call hand on the tail still owed and then what they captured, each position once, none as an anomaly |
| EndToEnd.WireIsReconstructed | src/agent/reassembly.c:426-491 | over any serial sequence of calls without lost records, for every protocol: the off_anomalies counter does not move, the call position is that of the last call, and what the framer was handed is the wire from its first position on, all of it but the tail still owed while the channel is open |
| EndToEnd.EmitCalls | src/bpf/latkit.bpf.c:659-771 | emit_data_chunks over a sequence of calls of both directions leaves in the ring one chain per call, its data exactly as much of what was sent as is captured |
| EndToEnd.WireIsTrue | src/bpf/latkit.bpf.c:659-771 | the wire that calls show is as long as what was sent, and every captured position shows the byte sent there |
| EndToEnd.SmallCallsAreWhole | src/bpf/latkit.bpf.c:659-771 | where every call is one segment within its budget and eight full records, not in headers mode, and nothing fails, the wire shows every byte sent |
| EndToEnd.CallsAreParsed | src/agent/reassembly.c:426-491 | from system calls to messages: however much of each call was captured, the log is what the recursive parser finds on the wire |
| EndToEnd.BothAreReconstructed | src/agent/reassembly.c:426-491 | the accounting for both directions over the context, log and counters they share, however their calls alternate |
| EndToEnd.WireShape | src/bpf/latkit.bpf.c:659-771 | the reported wire is the one the calls show by themselves, but for the times |
| EndToEnd.Monitor | src/agent/reassembly.c:426-491 | both ends and both directions: the agent reads the ring the emitter filled from calls sent and received in any order; no anomaly is counted; each direction is handed positions of its own wire, captured and lost exactly where the emitter captures and does not, all but the tail still owed while the channel is open; and where one direction speaks and the parser accepts the wire these calls show, the log is the parse |
| ConnTable.Lru.PushFront | src/agent/conn_table.c:59-68 | the linked list gains a node in front, links valid in both directions |
| ConnTable.Lru.Unlink | src/agent/conn_table.c:46-57 | the linked list loses a node, links valid in both directions |
| ConnTable.Chains.Lookup | src/agent/conn_table.c:70-78 | the chain walk finds the entry of a cookie, or nothing if there is none |
| ConnTable.Chains.Insert | src/agent/conn_table.c:146-148 | a new entry joins its chain; every entry stays in the chain of its cookie, once |
| ConnTable.Chains.Remove | src/agent/conn_table.c:92-94 | an entry leaves its chain and no other chain changes |
| HashChains.JoinHoused | src/agent/conn_table.c:146-148 | an element put in front of the chain of its key leaves every element in the chain of its key and in no other, for both chained tables |
| HashChains.LeaveHoused | src/agent/conn_table.c:92-94 | so does one taken out |
| ConnTable.Conns.constructor | src/agent/conn_table.c:324-342 | a new table is empty, with a ceiling of at least one |
| ConnTable.Conns.Drop | src/agent/conn_table.c:82-102 | destroy takes the entry out of chain, list and gauges |
| ConnTable.Conns.EvictColdest | src/agent/conn_table.c:135-138 | in place, the ceiling does what it does on the map and the list; EvictionTheorems says whom it evicts |
| ConnTable.Conns.Add | src/agent/conn_table.c:129-153 | create on the linked structures is create on the map and the list |
| ConnTable.Conns.TouchNode | src/agent/conn_table.c:113-127 | touch counts exactly the missing numbers, dirties on a gap, and moves the entry to the front |
| ConnTable.Conns.TouchTlsNode | src/agent/conn_table.c:205-223 | the same in the decrypted space, seeded by the first event |
| ConnTable.Conns.NoteDrop | src/agent/conn_table.c:254-266 | dropped ciphertext moves the baseline and the list, and counts no gap |
| ConnTable.Conns.NoteOpen | src/agent/conn_table.c:268-272 | counts a flip |
| ConnTable.Conns.Peek | src/agent/conn_table.c:225-228 | the entry of a cookie, nothing changed |
| ConnTable.Conns.OpenConn | src/agent/conn_table.c:155-177 | OPEN on the linked structures is OPEN on the values, with the loss it reports |
| ConnTable.Conns.DataConn | src/agent/conn_table.c:179-199 | socket data likewise; an unknown cookie starts dirty |
| ConnTable.Conns.DataDecryptedConn | src/agent/conn_table.c:230-252 | decrypted data likewise |
| ConnTable.Conns.CloseConn | src/agent/conn_table.c:295-305 | CLOSE likewise: the gap check, then removal |
| ConnTable.Conns.SweepIdle | src/agent/conn_table.c:307-317 | the sweep likewise, with the number evicted |
| Connections.DestroyOk | src/agent/conn_table.c:82-102 | what destroy leaves is listed once, and the TLS gauge counts it |
| Connections.MakeRoomOk | src/agent/conn_table.c:133-138 | below the ceiling nothing changes; at it exactly the last entry of the list leaves; afterwards there is room for one more |
| Connections.OpenOk | src/agent/conn_table.c:155-252 | OPEN, data and decrypted data keep list and map the same entries once each, within the ceiling, and the counters balanced |
| Connections.CloseOk | src/agent/conn_table.c:295-305 | so does CLOSE |
| Connections.SweepEvictsTheTail | src/agent/conn_table.c:307-317 | a sweep evicts the longest idle tail of the list and nothing else |
| Connections.SweepIsExactIff | src/agent/conn_table.c:307-317 | a sweep only evicts idle entries, and all of them if and only if no idle entry is ahead of a busy one in the list |
| Pipeline.RouteOk | src/agent/pipeline.c:41-128 | every event keeps the table, its gauges and both framers of every connection in order |
| Pipeline.RunOk | src/agent/pipeline.c:41-128 | in every reachable state active is the number of entries, at most max_conns, and created - closed - evicted; tls_active is the number of flagged entries |
| Pipeline.StartOk | src/agent/pipeline.c:20-30 | the start state is such a state |
| Pipeline.Elsewhere | src/agent/pipeline.c:41-128 | an event of one connection changes no other, except by evicting it |
| Pipeline.FeedRawFlip | src/agent/pipeline.c:108-119 | a chunk that announces TLS is counted once, and its framing restarts |
| Pipeline.FeedDecryptedOk | src/agent/pipeline.c:74-103 | after a decrypted event the connection is flagged and counted |
| Pipeline.ProtoIsFirstEntry | src/agent/conn_table.c:30-38 | a mapped port has the protocol of its first entry, an unmapped one the default |
| Pipeline.OpenBinds | src/agent/conn_table.c:155-178 | an OPEN of a new cookie binds the protocol of its port and starts both directions at a header, or waiting for a boundary if it is synthetic |
| EvictionTheorems.RouteOrder | src/agent/conn_table.c:113-138 | what every event does to the LRU list |
| EvictionTheorems.RunByLast | src/agent/conn_table.c:113-127 | in every run the list goes from the connection with the latest last event to the one with the earliest, whatever the times say |
| EvictionTheorems.CeilingEvictsTheColdest | src/agent/conn_table.c:129-153 | in every run, an event about a new cookie evicts nobody below the ceiling, and at it exactly one entry: the one whose last event lies furthest back |
| EvictionTheorems.ActivityIsLast | src/agent/conn_table.c:113-127 | in every run the activity time of an entry is the time of its last event |
| EvictionTheorems.CeilingEvictsTheOldest | src/agent/conn_table.c:129-153 | in every run whose event times never decrease, no surviving entry has an earlier activity time than the evicted one |
| EvictionTheorems.OthersKeepTheEntries | src/agent/conn_table.c:155-272 | no event but CLOSE, the creation of another entry at the ceiling and the sweep makes an entry leave |
| EvictionTheorems.CountersAfter | src/agent/conn_table.c:113-272 | every counter of the table moves by exactly what the event did: created, evicted_lru, closed, seq_gaps, lost_events, tls_socket_dropped, tls_opened |
| EvictionTheorems.CountersAfterSweep | src/agent/conn_table.c:307-317 | a sweep adds the number of entries it evicts to evicted_idle and moves no other of these |
| RouterTheorems.ReasmDataTwins | src/agent/reassembly.c:426-491 | the framer counts and does not look at its counters |
| RouterTheorems.OnlyItsOwnEvents | src/agent/pipeline.c:41-128 | non-interference: for as long as a connection stays in the table and as encrypted as it is, the sink hears of it exactly what its own events make of it by itself, and its entry is left as they leave it, whatever events, sweeps and evictions of others lie between them |
| RouterTheorems.FromOpenOn | src/agent/pipeline.c:41-128 | from an OPEN on, the sink hears what the connection's own events make of two clean directions of the protocol of its port |
| RouterTheorems.EncryptedStartsOver | src/agent/pipeline.c:108-119 | a connection that announces TLS starts over, both directions at a header |
| RouterTheorems.NumberedIsServed | src/agent/pipeline.c:105-120 | records without a jump in their numbers are served one by one, each in its direction |
| RouterTheorems.RouterServesTheRing | src/agent/pipeline.c:41-128 | if the inputs about a connection behind its OPEN are the records of an emitter that lost none, the sink hears exactly what lk_reasm_data makes of them on two clean directions, of which EndToEnd speaks, whatever else the ring carried |
| CounterTheorems.CountersAreHeard | src/agent/reassembly.c:96-171 | over every run, the counters of messages, truncated messages and resynchronisations are the numbers of those the sink heard of |
| CounterTheorems.FeedTrouble | src/agent/reassembly.c:186-341 | a chunk counts one rejected header if and only if it is cut and leaves its direction DIRTY, one TLS connection if and only if it is cut otherwise and leaves the connection encrypted, and no hole or anomaly |
| CounterTheorems.HoleTrouble | src/agent/reassembly.c:343-424 | a hole is counted once with its size, unless the direction was DIRTY, and once more as a header hole if and only if it leaves it so |
| CounterTheorems.AnomalyIff | src/agent/reassembly.c:426-491 | off_anomalies counts an event if and only if it is framed at all, reaches beyond its total or goes on with a call of another total or at a position passed, and finds its direction not waiting for a boundary |
| CounterTheorems.AnomalyWaits | src/agent/reassembly.c:426-491 | the bytes of such an event meet a direction that waits for a boundary, or that one at this very event has just resynchronised |
| Router.Agent.constructor | src/agent/pipeline.c:20-30 | a new pipeline is the start state |
| Router.Agent.FeedNode | src/agent/pipeline.c:100-113 | framing an entry in place is framing its record |
| Router.Agent.Flip | src/agent/pipeline.c:95-99 | flag, restart and count together |
| Router.Agent.Decrypted | src/agent/pipeline.c:74-103 | the decrypted branch in place is the one on values |
| Router.Agent.Plain | src/agent/pipeline.c:108-120 | the plaintext branch in place is the one on values |
| Router.Agent.Feed | src/agent/pipeline.c:41-128 | lk_pipeline_feed on the linked table is one routing step on values |
| Assembly.ReasmDataBehind | src/agent/reassembly.c:426-491 | lk_reasm_data adds to what was emitted before and does not depend on it |
| Assembly.RouteTells | src/agent/pipeline.c:41-128 | every routing step, with its evictions, gaps, births, closes and flips, is a sequence of acts of the slab agent on the same connections |
| Assembly.RunTells | src/agent/pipeline.c:41-128 | so over every run the framers of the table, the log and the counters are those of the slab agent |
| Assembly.RunOnSlabs | src/agent/pipeline.c:41-128 | after any sequence of events the frames updated in place are the framers of the router's table, what they emitted is what its sink heard, the pool is within its cap and no slab is in two places |
| TlsTheorems.TlsStays | src/agent/pipeline.c:59-121 | a flagged connection stays flagged while it is in the table |
| TlsTheorems.RouteAgrees | src/agent/pipeline.c:41-128 | an input two runs share, a CLOSE included, keeps them equal but for what the ciphertext of one connection can reach while it is flagged |
| TlsTheorems.RawIsUnseen | src/agent/pipeline.c:67-72 | a ciphertext event that only one of them sees does too |
| TlsTheorems.CiphertextIsInvisible | src/agent/pipeline.c:59-121 | two runs that differ only in socket events of a connection while it is flagged emit the same messages for everyone, whether it turns to TLS, is closed or comes back, as long as nobody is evicted and repeated OPENs of it while it is flagged report no loss |
| TlsTheorems.OpenSparesTheFramersIff | src/agent/conn_table.c:155-165 | a repeated OPEN leaves the framers alone if and only if it reports no loss or they already wait for a boundary |
| TlsTheorems.RepeatedOpenSeesCiphertext | src/agent/conn_table.c:155-165 | from a state reached by an OPEN and a flip, two runs that differ only in ciphertext before a repeated OPEN, one of which emits a message and the other not |
| SequenceTheorems.TouchVerdict | src/agent/conn_table.c:104-127 | a gap is counted and leaves both directions DIRTY; the next number moves the baseline; a straggler changes nothing but the activity time |
| SequenceTheorems.EntryAfter | src/agent/conn_table.c:113-266 | how each kind of event moves the two spaces of its entry |
| SequenceTheorems.LostEventsAfter | src/agent/conn_table.c:113-223 | lost_events grows by exactly the loss an event reports |
| SequenceTheorems.RunAudit | src/agent/conn_table.c:113-266 | in every run last_seq is the highest number seen and equals first + counted steps + dropped + skipped ciphertext, likewise for the decrypted space; each entry's losses and lost_events are the sums of the losses reported |
| SequenceTheorems.DecryptedBirthMixesSpaces | src/agent/conn_table.c:239-251 | after a decrypted event created an entry, CLOSE reports a loss if and only if the socket's number is ahead of the decrypted one by more than one |
| SequenceTheorems.RouteClocked | src/agent/conn_table.c:113-266 | an event not earlier than the last keeps the list in order of activity |
| SequenceTheorems.SweepIsExactInOrder | src/agent/conn_table.c:307-317 | in every run whose event times never decrease, a sweep evicts exactly the idle entries |
| SequenceTheorems.SweepMissesOutOfOrder | src/agent/conn_table.c:307-317 | with times out of order an idle entry survives a sweep |
| BoundaryTheorems.DirtyData | src/agent/reassembly.c:323-491 | an event of a dirty direction emits nothing and leaves it dirty, or resynchronises before anything else |
| BoundaryTheorems.NothingBeforeABoundary | src/agent/pipeline.c:41-128 | an event that reports a gap, creates its entry or adopts an encrypted connection is emitted only from a boundary on |
| BoundaryTheorems.FirstIsABoundary | src/agent/pipeline.c:41-128 | from a dirty direction on, over every run in which the connection stays and does not turn to TLS, the first thing the sink hears of it is a resynchronisation |
| BoundaryTheorems.DecryptedStartsAfresh | src/agent/conn_table.c:274-293 | after the flip a plaintext reply announces, any sequence of decrypted calls, whatever was captured of them, is framed like those of a new connection: the log is what the recursive parser finds on the decrypted wire |
| FpIndex.Index.Find | src/metrics/registry.c:471-481 | the probe returns the slot of a fingerprint if and only if it is resident, and ends |
| FpIndex.Index.Insert | src/metrics/registry.c:483-490 | inserting adds one entry to the map |
| FpIndex.Index.Remove | src/metrics/registry.c:492-517 | backward-shift deletion removes one entry from the map and neither loses nor duplicates another |
| FpIndex.Index.Close | src/metrics/registry.c:500-516 | closing the gap leaves every cell between an entry's home and its place occupied |
| FpIndex.Index.Assign | src/metrics/registry.c:678-678 | relabelling an unused slot does not disturb the index |
| FpIndex.DeletionStarts | src/metrics/registry.c:497-501 | emptying a cell leaves one hole and nothing else wrong |
| FpIndex.StaysPut | src/metrics/registry.c:508-511 | an entry whose home lies behind the hole stays |
| FpIndex.MovesBack | src/metrics/registry.c:514-515 | an entry that probes across the hole moves into it |
| FpIndex.DeletionEnds | src/metrics/registry.c:505-507 | an empty cell ends the deletion with a sound table |
| FpIndex.EmptyCell | src/metrics/registry.c:466-517 | a table with fewer entries than cells has an empty cell, so every probe ends |
| Lru.List.PushFront | src/metrics/registry.c:535-546 | the index-linked list gains a slot in front |
| Lru.List.Unlink | src/metrics/registry.c:521-533 | the list loses a slot |
| Lru.List.Touch | src/metrics/registry.c:548-554 | a slot moves to the front |
| Dictionary.Slots.constructor | src/metrics/registry.c:985-989 | every slot is on the free stack, the lowest on top |
| Dictionary.Slots.Admit | src/metrics/registry.c:673-686 | the slot on top of the stack stands for the fingerprint and heads the list |
| Dictionary.Slots.Lookup | src/metrics/registry.c:776-781 | a known fingerprint is found and moves to the front |
| Dictionary.Slots.Evict | src/metrics/registry.c:766-770 | the coldest slot leaves index and list and goes on the stack |
| Dictionary.IndexSize | src/metrics/registry.c:962-962 | the index never holds more than k entries, so its table keeps empty cells |
| RegistryTable.Interning | src/metrics/registry.c:604-657 | the position of a known name, a new one, or the spill |
| SeriesStore.SeriesTable.Fetch | src/metrics/registry.c:563-587 | the chained hash finds the series of a key or gains an empty one |
| SeriesStore.SeriesTable.Obtain | src/metrics/registry.c:563-588 | a series is found, or created empty in the hash and at the head of its slot's list |
| SeriesStore.SeriesTable.AddInto | src/metrics/registry.c:734-757 | the accumulators and the size histogram of a series are added to its counterpart, whose grid comes with the first size |
| SeriesStore.SeriesTable.FoldStep | src/metrics/registry.c:729-765 | one series is added to its counterpart under other and leaves the hash |
| SeriesStore.SeriesTable.FoldSeries | src/metrics/registry.c:729-769 | the fold loop moves every series of a slot into its counterpart under other and leaves the slot without series |
| SeriesStore.RecordAlways | src/metrics/registry.c:874-898 | the families recorded whatever the clock says, one after the other |
| SeriesStore.RecordTiming | src/metrics/registry.c:906-923 | the families of a timed observation |
| SeriesStore.RecordInto | src/metrics/registry.c:874-923 | both, with the early return between them |
| SeriesStore.SeriesTable.RecordUnder | src/metrics/registry.c:871-923 | an observation is added to its series, its size on the grid of its profile |
| RegistryTable.Table.constructor | src/metrics/registry.c:936-995 | the parts of a new registry share no memory and stand for an empty one |
| RegistryTable.NewTable | src/metrics/registry.c:936-995 | a new registry is empty, with all slots free |
| RegistryTable.Table.ReplaceColdest | src/metrics/registry.c:723-771 | eviction and admission together |
| RegistryTable.Table.AtTheDoor | src/metrics/registry.c:784-795 | a fingerprint that finds the dictionary full is admitted on its second appearance and sent to other on its first |
| RegistryTable.Table.ResolveQuery | src/metrics/registry.c:774-796 | resolve_query in place is the one on values; the slot is `other` if and only if the fingerprint is unknown to a full dictionary and not expected by the doorkeeper, else the one the index now has for it |
| RegistryTable.Table.InternNames | src/metrics/registry.c:824-825 | dimension and protocol of an observation |
| RegistryTable.Table.RecordOne | src/metrics/registry.c:871-906 | the series is recorded and the observation counted |
| RegistryTable.Table.RecordPlaced | src/metrics/registry.c:868-906 | the slot is resolved or other, and the observation is recorded and counted there |
| RegistryTable.Table.ObserveOne | src/metrics/registry.c:800-924 | lk_reg_observe in place is the one on values |
| RegistryTable.Table.SeriesCountSum | src/metrics/registry.c:1075-1083 | the walk over the buckets is the sum over the series of the registry |
| Registry.Intern | src/metrics/registry.c:604-657 | interning never passes its limit and never renumbers |
| Registry.FoldSlotOk | src/metrics/registry.c:723-771 | folding leaves the slot without series and every list exact |
| Registry.ResolveValid | src/metrics/registry.c:774-796 | free stack and list partition the k slots before and after; the result is the slot that now stands for the fingerprint, at the front, or other, if and only if the fingerprint is unknown, no slot is free and the doorkeeper does not hold its key; a full dictionary stays full |
| RegistryPlaces.RoomIff | src/metrics/registry.c:673-688 | there is room exactly while fewer than k fingerprints are known |
| RegistryPlaces.OtherIff | src/metrics/registry.c:774-796 | a fingerprint goes to other if and only if it is unknown, k others are known and its doorkeeper cell does not hold its key; then the dictionary and the series stay and the cell holds it |
| RegistryPlaces.KnownKeeps | src/metrics/registry.c:776-781 | a known fingerprint gets its own slot and nobody moves |
| RegistryPlaces.RoomAdmits | src/metrics/registry.c:782-783 | while there is room a new fingerprint is admitted at once, at a slot nobody has, and nobody moves |
| RegistryPlaces.ExpectedReplaces | src/metrics/registry.c:785-793 | at a full dictionary a fingerprint that the doorkeeper expects takes the slot of the one resolved longest ago; nobody else moves, and the doorkeeper forgets it |
| RegistryPlaces.FewAreExact | src/metrics/registry.c:774-796 | over every run from a new registry with at most k fingerprints, no observation that is looked up goes to other, two of them share a slot if and only if they share the fingerprint, and the others that are recorded go to other |
| RegistryPlaces.NoneUnderOtherIff | src/metrics/registry.c:774-796 | over every run from a new registry, nothing that is looked up goes to other if and only if there are at most k fingerprints |
| RegistryPlaces.TalliesAreCounts | src/metrics/registry.c:897-905 | over every run total_obs is the number of timed observations and other_obs the number of those among them that other got |
| RegistryPlaces.InternedAfter | src/metrics/registry.c:604-671 | over every run the interned pairs and protocols are the first different ones seen, up to the limits |
| RegistryPlaces.ClassesMeetIff | src/metrics/registry.c:604-671 | over every run two observations share a dimension if and only if they share database and user or both pairs came behind max_dims others, a protocol if and only if they share its name or both names came behind eight others, and a code if and only if both or neither failed |
| RegistryPlaces.ClassesAreExact | src/metrics/registry.c:604-671 | below the limits two observations share a class if and only if they share database, user, protocol name and error bit |
| Registry.ObserveValid | src/metrics/registry.c:800-924 | every observation keeps the registry in shape |
| Registry.FreshOk | src/metrics/registry.c:936-995 | a new registry is in shape |
| RegistryTheorems.FoldOneConserves | src/metrics/registry.c:729-765 | folding one series changes no total of any dimension, protocol and code |
| RegistryTheorems.ResolveConserves | src/metrics/registry.c:774-796 | resolving, with or without an eviction, changes no total |
| RegistryTheorems.ObserveConserves | src/metrics/registry.c:800-924 | an observation adds exactly its own contribution to its class |
| RegistryTheorems.RunConserves | src/metrics/registry.c:723-924 | over every run the accumulators of a class sum to everything observed under it |
| RegistryTheorems.CountsAreObservations | src/metrics/registry.c:1075-1083 | over every run the duration counts of all live series sum to total_obs |
| SeriesHash.Buckets.Lookup | src/metrics/registry.c:563-572 | the walk down a bucket finds the series of a key, or nothing if there is none |
| SeriesHash.Buckets.Get | src/metrics/registry.c:563-588 | series_get on the chained buckets is the lookup or the new empty entry of the map |
| SeriesHash.Buckets.Unlink | src/metrics/registry.c:590-600 | series_unlink_hash takes one series out of its chain and out of the map |
| SeriesHash.Buckets.Update | src/metrics/registry.c:734-757 | an accumulator updated in place is an entry of the map updated |
| SeriesHash.Buckets.SumCounts | src/metrics/registry.c:1075-1083 | the walk over all buckets counts every series once: it is the sum over the map |
| RegistryTheorems.OtherNeverShrinks | src/metrics/registry.c:719-722 | over every run no count, sum, cell or tally of an other series decreases |
| RegistryTheorems.SeriesAreBounded | src/metrics/registry.c:563-588 | never more than (k+1)(max_dims+1)(LK_MAX_PROTOS+1)2 series |
| RegistryTheorems.ResolveDiscipline | src/metrics/registry.c:774-796 | the list stays in order of last resolution, and a fingerprint enters a full dictionary only if its key was sent to other before |
| RegistryTheorems.RunDiscipline | src/metrics/registry.c:774-796 | over every run |
| RegistryTheorems.DoorKeyCollision | src/metrics/registry.c:784-795 | doorkeeper keys collide exactly for 0 and 1, and then one lets the other in |
| RegistryTheorems.FromFresh | src/metrics/registry.c:936-995 | from a new registry on, all of it together |
| RegistryMeaning.ExportIsExact | src/metrics/registry.c:800-995 | from a new registry on, over every run: the series of a class hold exactly the durations, second and upload samples, rows, bytes and tallies of the observations made under it, and its exported buckets summed over the slots count exactly the durations below the boundary, whatever was evicted |
| RegistryExact.SeriesAreExact | src/metrics/registry.c:774-924 | metrics are exact per query: over every run from a new registry with at most k fingerprints, each has a slot of its own, and the series of that slot and a class holds exactly the observations of that fingerprint and class, in durations, first rows, uploads, rows, bytes and tallies |
| RegistrySizes.SizesAreConserved | src/metrics/registry.c:723-887 | over every run, whatever the protocols and grids: the size counts and sums of a class, over all slots and other, are those of the sizes observed under it |
| RegistrySizes.RunSizes | src/metrics/registry.c:723-887 | over every run, every cell of the sizes of a class on one grid grows by exactly the sizes observed that fall into it |
| RegistrySizes.FoldedTotal | src/metrics/registry.c:752-757 | folding a size histogram into other changes no cell, count or sum of any class on one grid |
| RegistrySizes.OneProfileOneGrid | src/metrics/registry.c:641-657 | where a protocol name has one profile, all sizes recorded under it, unless under the spill, are on one grid |
| RegistrySizes.ExportedSizesAreExact | src/metrics/registry.c:1402-1424 | from a new registry on, over every run in which a protocol has one profile: two grids never meet under a protocol with a name of its own, and the exported size bucket of a boundary, summed over the rows, counts exactly the sizes up to it, answered and failed, whatever was evicted |
| RegistrySizes.OtherSizesNeverShrink | src/metrics/registry.c:719-757 | over every run and whatever the grids, no cell, count or sum of a size histogram of other decreases |
| RegistryMeaning.SeenHolds | src/metrics/registry.c:868-923 | the sum of the contributions of a run is the histogram and the counts of the list of its observations |
| RegistryMeaning.RecordSamples | src/metrics/registry.c:889-922 | which samples of an observation reach which histogram, profile by profile |
| RegistryMeaning.RecordWorth | src/metrics/registry.c:874-907 | recording moves every counter by what the observation is worth to it |
| RegistryMeaning.CumLtMerged | src/metrics/hist.c:85-132 | the cumulative count of a merge is the sum of the two |
| Accumulators.AddCommutes | src/metrics/registry.c:734-757 | merging two series does not depend on the order |
| Accumulators.AddAssociates | src/metrics/registry.c:734-757 | nor on the grouping |
| Accumulators.CoversAtMost | src/metrics/registry.c:734-757 | what is merged in makes no family smaller |
| Accumulators.RecordIsAdd | src/metrics/registry.c:874-923 | recording an observation is adding what it contributes on its own |
| Accumulators.RecordCounts | src/metrics/registry.c:899-906 | a timed observation counts once in the duration histogram, an untimed one never |
| Hist.IndexIff | src/metrics/hist.c:31-59 | the index of v is k if and only if 2^k <= v^4 < 2^(k+1) |
| Hist.IndexBelow | src/metrics/hist.c:31-59 | the index is below k if and only if v^4 is below 2^k |
| Hist.OctaveBelow | src/metrics/hist.c:31-59 | at an octave: if and only if v is below 2^j |
| Hist.CountIsAllCells | src/metrics/hist.c:61-83 | count is the sum of all cells, underflow and overflow, and the number of samples |
| Hist.MergeIsUnion | src/metrics/hist.c:85-94 | merging two histograms is observing the samples of both |
| Hist.CumLtIsExact | src/metrics/hist.c:124-132 | the cumulative count at a grid boundary is the number of samples below it, non-positive ones included |
| Hist.LeBucketIsExact | src/metrics/hist.c:124-149 | the exported buckets count exactly the samples below 2^j |
| Hist.CumLtMono | src/metrics/hist.c:124-132 | the cumulative counts do not decrease |
| Hist.LatencyHist.Observe | src/metrics/hist.c:61-83 | observing in place |
| Hist.LatencyHist.Merge | src/metrics/hist.c:85-94 | merging in place |
| Hist.LatencyHist.Cumulative | src/metrics/hist.c:124-132 | the cumulative sum |
| SizeHist.SizesOfRead | src/metrics/hist.c:177-193 | every cell, the overflow, the sum and the count of a size histogram are those of the list of sizes observed |
| SizeHist.SizeMergeIsUnion | src/metrics/hist.c:195-204 | within one grid, written out or left to the default, and into an accumulator still zero, which takes the grid of the source, a merge is the histogram of all sizes |
| SizeHist.SizeMergeIsUnionIff | src/metrics/hist.c:195-204 | for any two grids, the merge is the histogram of all sizes on the destination's grid if and only if every size falls in the same cell of its own grid and of that one |
| SizeHist.GridsDisagree | src/metrics/hist.c:195-204 | a size of 100 on the value grid, merged into the default one, lands in the cell of 513 to 1024 |
| SizeHist.MatchedRead | src/metrics/hist.c:195-204 | within one grid a merge adds every cell, the overflow, the sum and the count |
| SizeHist.CumulatedIsExact | src/metrics/hist.c:206-224 | a histogram whose cells hold what is due exports for every boundary the number of sizes up to it |
| SizeHist.FindSizeCell | src/metrics/hist.c:177-193 | the cell of a size: the first boundary that is not below it |
| SizeHist.ByteHist.constructor | src/metrics/hist.c:153-171 | a zeroed histogram is on the default grid, an initialised one on its own |
| SizeHist.ByteHist.Observe | src/metrics/hist.c:177-193 | observing in place |
| SizeHist.ByteHist.Merge | src/metrics/hist.c:195-204 | merging in place, the grid taken over where there is none |
| SizeHist.ByteHist.Write | src/metrics/hist.c:206-219 | the running sums of all boundaries |
| Memory.MoveUp | src/export/pbuf.c:173-175 | an overlapping move keeps the moved bytes and what is below them |
| Pbuf.VarintRoundTrip | src/export/pbuf.c:67-80 | a varint decodes to its value and its own length, whatever follows |
| Pbuf.VarintSize | src/export/pbuf.c:156-163 | the size of a varint is at most n if and only if the value is below 128^n |
| Pbuf.ZigzagRoundTrip | src/export/pbuf.c:93-100 | a zigzagged 32-bit integer decodes to itself, small magnitudes staying small |
| Pbuf.Fixed64RoundTrip | src/export/pbuf.c:108-115 | eight little-endian bytes decode to the value |
| Pbuf.FieldRoundTrip | src/export/pbuf.c:82-142 | a field decodes to itself and leaves what follows it |
| Pbuf.RoundTrip | src/export/pbuf.c:82-189 | the decoder recovers every message tree from its encoding |
| Pbuf.BeginLayout | src/export/pbuf.c:149-153 | opening a nested message |
| Pbuf.EndLayout | src/export/pbuf.c:165-189 | closing the innermost message gives its encoding and leaves the offsets of the open outer ones where their bodies start |
| Pbuf.WritingIsLayout | src/export/pbuf.c:149-189 | after every well-nested sequence of begin, append and end the buffer and the offsets are those of the tree so far |
| Pbuf.NestedWritingRoundTrips | src/export/pbuf.c:149-189 | once all is closed the buffer is the encoding of the tree, and the decoder recovers it |
| Pbuf.VarintLen | src/export/pbuf.c:156-163 | the length loop |
| Pbuf.Groups | src/export/pbuf.c:67-80 | the varint loop never overruns its ten bytes |
| Pbuf.Buffer.Reserve | src/export/pbuf.c:35-56 | room for n more bytes, contents kept |
| Pbuf.Buffer.Raw | src/export/pbuf.c:58-64 | appends |
| Pbuf.Buffer.PutVarint | src/export/pbuf.c:67-80 | appends the varint |
| Pbuf.Buffer.PutTag | src/export/pbuf.c:82-85 | appends the tag |
| Pbuf.Buffer.PutScalar | src/export/pbuf.c:87-106 | appends a varint field |
| Pbuf.Buffer.PutFixedField | src/export/pbuf.c:125-129 | appends a fixed64 field |
| Pbuf.Buffer.PutBytes | src/export/pbuf.c:137-142 | appends a bytes field |
| Pbuf.Buffer.SubmsgBegin | src/export/pbuf.c:149-153 | appends the tag and returns where the body starts |
| Pbuf.Buffer.SubmsgEnd | src/export/pbuf.c:165-189 | puts the length in front of the body, everything before it unchanged |
| Pbuf.Buffer.PutSub | src/export/pbuf.c:149-189 | a nested message between begin and end |
| Pbuf.Buffer.PutAll | src/export/pbuf.c:149-189 | writing a tree appends its encoding |
| X86Len.DecodeIsLocal | src/agent/x86_len.c:110-228 | the bytes of an instruction decide its decoding |
| X86Len.DecodeIsPrefixCode | src/agent/x86_len.c:110-228 | a length is 1 to 15, the same on every extension, and refused on every truncation below it |
| X86Len.InsnLen | src/agent/x86_len.c:110-235 | the decoder as it runs is the decoding function; X86Format says which lengths it gives |
| X86Format.OneByteTable | src/agent/x86_len.c:53-70 | the one-byte table is the opcode map of the architecture written out by ranges, but for the entries at prefixes and REX |
| X86Format.TwoByteTable | src/agent/x86_len.c:74-91 | so is the table behind 0F |
| X86Format.ReadIsDecoded | src/agent/x86_len.c:110-228 | an instruction of the format as read, whatever follows it, decodes to its length and opcode offset if it has at most 15 bytes, and is refused otherwise |
| X86Format.DecodedIsRead | src/agent/x86_len.c:110-228 | whatever decodes is an instruction of that format |
| X86Format.DecodeIff | src/agent/x86_len.c:110-228 | bytes decode to a length and an opcode offset if and only if prefixes, REX, opcode, ModRM, SIB, displacement and immediate of such an instruction are there |
| X86Format.ReadIsManualIff | src/agent/x86_len.c:146-152 | what is read is an instruction of the architecture if and only if no prefix or second REX stands behind REX and it is none of the misread forms |
| X86Format.ManualIsDecodedIff | src/agent/x86_len.c:212-227 | an instruction of the architecture of at most 15 bytes is decoded to its length and opcode offset if and only if it is none of the misread forms |
| X86Format.Shortened | src/agent/x86_len.c:218-219 | a misread immediate is taken to be two bytes shorter than it is |
| X86Format.Lengthened | src/agent/x86_len.c:193-209 | a misread register form is taken to be longer than it is, or refused |
| X86Format.WideImmediateIsCut | src/agent/x86_len.c:218-219 | 66 48 05 with four bytes of immediate: seven bytes, decoded as five |
| X86Format.PrefixBehindRex | src/agent/x86_len.c:146-155 | 48 F3 C3: decoded as two instructions, with a return at 2 |
| X86Format.RetsOfProgram | src/agent/x86_len.c:237-264 | of a body of instructions of the architecture, none misread, the search gives exactly the offsets of the returns |
| X86Len.StartsTile | src/agent/x86_len.c:237-264 | a walk that succeeds cuts the body into instructions from its first byte to its last |
| X86Len.TilingIsUnique | src/agent/x86_len.c:237-264 | a body has at most one such cut, and the walk finds it |
| X86Len.RetsAreExact | src/agent/x86_len.c:237-264 | the list is strictly increasing and holds exactly the instruction starts whose opcode byte is C3 or C2 |
| X86Len.RetsConcatenate | src/agent/x86_len.c:237-264 | behind a body that decodes cleanly the search gives what it gives alone, and fails if and only if it fails alone |
| X86Len.FindRets | src/agent/x86_len.c:237-264 | the loop returns all returns, or -1 when the body is empty, does not decode, or has more than fit |
| Glob.SegMatch | src/agent/cgroup_match.c:21-42 | the one-star backtracking loop ends and decides the relation, for every pattern and segment |
| Glob.Commits | src/agent/cgroup_match.c:29-34 | once a star is reached the alternatives of the star before are not needed |
| Glob.MatchesIsGlob | src/agent/cgroup_match.c:21-42 | the relation never exceeds the glob relation, and is the glob relation unless both a star in the pattern and a literal star in the segment are present |
| Glob.MatchesIsGlobIff | src/agent/cgroup_match.c:21-42 | a pattern is a glob for every segment if and only if it has no star; a segment is matched as a glob by every pattern if and only if it has no literal star |
| Glob.LiteralStarIsMissed | src/agent/cgroup_match.c:26-29 | the pattern * does not match *a |
| Glob.RunGlobRec | src/agent/cgroup_match.c:47-91 | the scan loop decides the recursive relation |
| Glob.RunGlobMatch | src/agent/cgroup_match.c:93-104 | with leading slashes ignored |
| Glob.PathMatcherIsExact | src/agent/cgroup_match.c:47-104 | a path without empty segments matches if and only if the pattern's segments can be laid over it: one for an ordinary segment, any number for **, but not none at the end behind an ordinary segment |
| Glob.FinalDoubleStarNeedsOne | src/agent/cgroup_match.c:86-89 | p/** does not match p |
| Glob.DocumentedIff | src/agent/cgroup_match.c:45-104 | the code is the relation of the header, where ** stands for zero or more segments, on every path without empty segments if and only if the pattern does not end in an ordinary segment followed by ** segments only |
| Glob.IdSet.AddId | src/agent/cgroup_match.c:106-115 | adds without duplicates; refused only when full and new |
| Glob.Diff | src/agent/cgroup_match.c:125-136 | applying the difference to the current set gives the next one, and nothing in both is touched |
| EventLoop.NoStaleDispatch | src/agent/loop.c:270-298 | whatever handlers add and drop during a batch, each one that is called is the registration its slot held when the batch was collected |
| EventLoop.DispatchIsExact | src/agent/loop.c:270-298 | a batch runs exactly the handlers that are due, in order: an event reaches its handler if and only if no handler that ran before it failed or dropped its descriptor; and the poll fails if and only if one of them does |
| EventLoop.AddedIsServed | src/agent/loop.c:75-94 | a descriptor the kernel accepts is served from now on by a slot that was free and not held, under a registration of its own; without such a slot nothing changes |
| EventLoop.ApplyFenced | src/agent/loop.c:75-133 | no addition or removal puts another registration into a slot of the batch |
| EventLoop.HoldsEnd | src/agent/loop.c:59-65 | at the next batch every free slot can be handed out again |
| EventLoop.DroppedSlotIsHeld | src/agent/loop.c:118-133 | a slot dropped during a batch is held until the next |
| EventLoop.Table.AllocSlot | src/agent/loop.c:59-65 | the first slot that is free and not held |
| EventLoop.Table.Find | src/agent/loop.c:67-73 | the slot that serves a descriptor |
| EventLoop.Table.AddFd | src/agent/loop.c:75-94 | registering in place; a refused descriptor leaves the slot free |
| EventLoop.Table.DelFd | src/agent/loop.c:118-133 | deregistering in place |
| EventLoop.Table.PollBatch | src/agent/loop.c:270-298 | the dispatch loop runs exactly the handlers that are due, each the registration its slot held when the batch was collected |
| Redact.SpanContains | src/norm/norm_redact.c:30-47 | case-insensitive containment, both ways |
| Redact.KeyIsSecret | src/norm/norm_redact.c:49-55 | a key is secret if and only if it contains one of the names |
| Redact.SecretIff | src/norm/norm_redact.c:11-55 | a key is secret if and only if it has token, sig, password, passwd, secret, key, code or auth in it, whatever its case |
| Redact.RedactionOnPairs | src/norm/norm_redact.c:97-177 | of any list of pairs, the value of a secret key is replaced and nothing else: by three stars, or in place by as many stars as it had characters |
| Redact.PrintOfParse | src/norm/norm_redact.c:138-177 | the pairs of a query print to the query |
| Redact.ParseOfPrint | src/norm/norm_redact.c:138-177 | printed pairs parse to themselves |
| Redact.RedactNeeded | src/norm/norm_redact.c:66-95 | true if and only if some secret key has a value |
| Redact.RedactInto | src/norm/norm_redact.c:138-177 | the output at any capacity is that much of the unbounded output |
| Redact.RedactInPlace | src/norm/norm_redact.c:97-127 | every character of a secret value becomes a star and nothing else changes |
| Redact.RedactionAlgebra | src/norm/norm_redact.c:97-177 | redacting twice is redacting once, and redacting after the in-place form too |
| Redact.RedactionIsIdentityIff | src/norm/norm_redact.c:66-177 | not needed means unchanged; unchanged if and only if every secret value already is the mark |
| Redact.MarkedNeedsRedaction | src/norm/norm_redact.c:66-177 | /?token=*** needs redaction and is left as it is |
| Redact.SecretsAreInvisible | src/norm/norm_redact.c:138-177 | targets that differ only inside secret values give the same output |

## Left out

- Allocation failure: `calloc`, `malloc` and `realloc` always succeed, so the paths that degrade to no tracking, no buffer or a poisoned writer are not modelled.
- 32-bit and 64-bit wrap-around of sequence numbers, offsets, lengths and counters: they are mathematical integers.
- KernelEmitter.Seek: segments are shorter than 2^32 bytes, which the kernel's limit on one call ensures; the code reads a segment's length into 32 bits.
- KernelEmitter.Tls.EmitSslData: the buffer of a decrypted call holds all of its bytes; that the library may report fewer is outside the model.
- Hash functions (`mix64`, the Fibonacci hash, the doorkeeper's): arbitrary functions into their range, so every statement holds for any of them.
- Concrete protocols, stream mode and the intercept hooks: protocols are records of functions in message mode; header sizes lie in 1..8, connection flags are only added, and a hook of one direction does not resize the other direction's headers.
- Router.Agent.Feed: decoding of raw records and the on_conn_close callback are outside the model. The linked table's records hold the framers as values; that frames and slabs in place are the same is Assembly.RunOnSlabs, over the acts of the run and not over the linked table.
- RouterTheorems.OnlyItsOwnEvents: stops where the connection leaves the table or turns to TLS; what it starts with there is RouterTheorems.EncryptedStartsOver and BoundaryTheorems.NothingBeforeABoundary.
- EndToEnd.Monitor: where both directions speak, the log is not compared with a parse, since the hooks of one direction may change the context the other is parsed with; the accounting is for both.
- ResyncTheorems.ResyncIsParsed: where the wire behind the anchor is not accepted to its end, the log behind it is not compared with a parse.
- SeriesStore.SeriesTable.RecordUnder: a series' histograms are values in its record; in place they are Hist.LatencyHist and SizeHist.ByteHist, and a slot's list of series is a sequence.
- Accumulators.AddAssociates: the size histogram is not part of the sum, since its grid comes with its first user; it is in RegistrySizes.
- TlsTheorems.CiphertextIsInvisible: evictions and sweeps are excluded, since they depend on the list, which ciphertext reorders.
- ConnTable.Lru.PushFront: the list's two ends are an object of their own instead of two fields of the table.
- RegistryTable.Table.ObserveOne: the flat families (queries_total, errors, redirects, depth, transactions), labels, and the per-profile split of total_obs and other_obs are not modelled.
- Hist.IndexIff: over exact reals; the rounding of double precision and of the constants 2^(1/4) is not modelled.
- Pbuf.RoundTrip: the decoder knows from a schema which length-delimited fields are messages; doubles are their eight bytes.
- Glob.PathMatcherIsExact: paths and patterns with empty segments are outside the statement; the methods cover them.
- Glob: the walk over the cgroup file system is not modelled.
- EventLoop: the kernel's interest list is the set of active slots, so a failing EPOLL_CTL_DEL is outside the model; timers, signals and tasks are not modelled.
- Exposition, OTLP and HTTP output, the command line, ELF, Go and TLS attachment, normalisation of SQL, Redis and routes, recording and decoding: not modelled.
