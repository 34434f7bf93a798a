# A durable, chain-replicated graph store in Dafny

This project models the core of a small graph server. The server keeps an
undirected graph in memory and makes it durable with a log on a block device.
Servers are arranged in a chain: every write is handed on to the next server
before it is applied locally. The model covers:

- **the durable log** (`server_log` of log.cpp and the block layouts of
  log.hpp): superblock, log blocks and checkpoint blocks; their XOR checksum
  and generation stamp; append, checkpoint and recovery (checkpoint restore,
  then log replay);
- **the helpers of utility.hpp**: the checksum, block clearing, the command
  name cut from a URI, the HTTP header, the neighbour list JSON and the
  status texts;
- **the HTTP handler and start-up** of cs426_graph_server.cpp: dispatch of
  `POST /api/v1/<command>` requests, the write rule (gate on a full log,
  forward, apply, log on 200), the read commands and `checkpoint`, and the
  configuration tokens `main` reads;
- **the replication handlers** of rpcsender_server.cc: `SendAddNode`,
  `SendAddEdge`, `SendRemoveNode` and `SendRemoveEdge`, and a chain of servers
  built from them.

Modules, in dependency order:

| file | module | what it holds |
|---|---|---|
| types.dfy | `Types` | word widths, the constants, log entries, edge records, graph operations |
| utility.dfy | `Utility` | checksum, block clearing, URI parsing, HTTP header, neighbour JSON, status texts |
| decimal.dfy | `Decimal` | `to_string` and `strtoull` on decimal identifiers |
| blocks.dfy | `Blocks` | the word layout of the three block types and their field accessors |
| graph.dfy | `GraphStore` | the adjacency map, its operations as `Apply`, and the class `Graph` |
| log_model.dfy | `LogModel` | the log as a state machine on values: one transition per operation |
| log.dfy | `DurableLog` | class `ServerLog`, whose methods update array buffers and are specified by `LogModel` |
| log_props.dfy | `LogProperties` | format, append, replay and checkpoint properties |
| checkpoint_props.dfy | `CheckpointProperties` | a checkpoint read back rebuilds the graph |
| chain.dfy | `Chain` | the write rule shared by both front ends |
| rpc_service.dfy | `RpcService` | the replication handlers |
| config.dfy | `ServerConfig` | configuration parsing |
| http_server.dfy | `HttpServer` | `ev_handler` and start-up |
| chain_props.dfy | `ChainProperties` | a chain of servers: writes are all or nothing |

A block is 512 unsigned 64-bit words. Two 32-bit fields that share a word are
packed little-end first, as the C structs lay them out. The device is a map
from block index to block; a block never written reads as zeros. The
`ServerLog` class keeps the superblock, the staged log block and the staged
checkpoint block in `array<u64>` buffers. Each of its methods is proved equal
to a `LogModel` transition of the old state. The lemmas are proved on
those transitions.

Two things come from outside the server. What the next server's RPC returns
(`Ok(message)` or `Failed`) is a parameter. So are the choices the hash
maps' iteration order makes: the order of a neighbour list and the record
order of a checkpoint. `LOG_SEG_SIZE` is the parameter `logSegSize`.

Where the code and its documented intent disagree, the model follows the
code:

- The log region is blocks `log_start .. log_size - 1`, not
  `log_start .. log_start + log_size - 1`. The checkpoint region starts at
  block `log_size`, so a crossing append writes the first checkpoint block.
- A checkpoint record `(n, n)` replaces n's neighbour set with the empty
  set. An edge record inserts directly into the neighbour sets. Neither goes
  through `addNode` or `addEdge`, and the restore starts from the bound graph.
- `checkpoint_size` is `block_offset - log_size + 1`. It is 1 even when no
  record was written, and then the restore reads whatever the device holds
  at block `log_size` (left by an earlier checkpoint or a crossing append).
- The staged checkpoint block is not cleared between checkpoints. When it
  holds fewer than 255 records, its old records lead the next checkpoint's
  first block. When it is full, the first new record opens block
  `log_size + 1`, and the restore still reads block `log_size` as the
  device holds it.
- A removed node can come back this way: a second checkpoint's records
  follow the first one's in the staged block, and the restore replays
  both. A node the first checkpoint recorded and a later `remove_node`
  deleted is restored with the neighbours it had, but only on its own side.
  The recovered graph then need not be symmetric: a node can list a
  neighbour that does not list it back (node 2 comes back with neighbour 1
  while node 1 has none). Only a freshly formatted start is proved healthy.
- After replay the cursor can move back to a partly filled block without
  reloading the staged block. The next append then rewrites that block with
  the stale staged entries followed by the new one.
- After a checkpoint the staged log block is kept. The first append writes
  it, under the new generation, into block `log_start`, or skips to
  `log_start + 1` if it was full.

## Model

| member | source | states |
|---|---|---|
| Types.Inc32 | log.cpp:274 | a `uint32_t` increment: one more, except that 2^32 - 1 wraps to 0 |
| Blocks.PackHalves | log.hpp:36-45 | two 32-bit fields packed into one word read back as the values stored |
| Blocks.UnpackPack | log.hpp:63-66 | any word is the packing of its two 32-bit halves |
| Blocks.SetLo | log.hpp:38 | assigning the low field of a word sets it and leaves the high field alone |
| Blocks.SetHi | log.hpp:39 | assigning the high field of a word sets it and leaves the low field alone |
| Blocks.Stamp | log.hpp:53-55 | storing the checksum sets word 0 to the checksum of the block and changes no other word |
| Blocks.StampValidates | utility.hpp:60-67 | a block whose word 0 was set to its checksum validates |
| Blocks.ZeroBlockInvalid | utility.hpp:66-71 | an all-zero block never validates |
| Blocks.WithSbGeneration | log.hpp:38 | setting `generation_num` changes that field and no other word than word 1 |
| Blocks.WithSbLogStart | log.hpp:39 | setting `log_start` changes that field and no other word than word 1 |
| Blocks.WithSbLogSize | log.hpp:40 | setting `log_size` changes that field and no other word than word 2 |
| Blocks.WithSbCheckpointSize | log.hpp:41 | setting `checkpoint_size` changes that field and no other word than word 2 |
| Blocks.StampKeepsSuperFields | log.hpp:36-55 | stamping a superblock keeps its four fields |
| Blocks.EntryWord | log.hpp:63-68 | the 170 three-word entries follow the two header words and end by word 511 |
| Blocks.WithLbEntry | log.hpp:68 | storing entry k changes entry k only, and not the header |
| Blocks.WithLbGeneration | log.hpp:65 | setting a log block's generation keeps its count and entries |
| Blocks.WithLbEntryCnt | log.hpp:66 | setting `entry_cnt` keeps the generation and entries |
| Blocks.LbEntries | log.hpp:63-68 | the entries of a log block are its first min(`entry_cnt`, 170) slots, in order |
| Blocks.StampKeepsLogFields | log.hpp:74-76 | stamping a log block keeps its generation, count and entries |
| Blocks.AppendedEntries | log.cpp:134 | storing at slot `entry_cnt` and counting it appends the entry after the others |
| Blocks.ZeroBlockEntries | log.hpp:22-26 | a cleared log block holds no entries, and each of its slots reads as (opcode 0, 0, 0), an add of node 0 |
| Blocks.EdgeWord | log.hpp:90-96 | the 255 two-word edge records follow the 16-byte header and end by word 511 |
| Blocks.WithCkEdge | log.hpp:96 | storing record k changes record k only, and not the count |
| Blocks.WithCkEntryCnt | log.hpp:91 | setting a checkpoint block's count keeps its records |
| Blocks.CkRecords | log.hpp:90-96 | the records of a checkpoint block are its first min(`entry_cnt`, 255) slots |
| Blocks.AppendedRecords | log.cpp:246 | storing at slot `entry_cnt` and counting it appends the record after the others |
| Blocks.DecodeEntry | log.cpp:211-234 | an entry names no operation exactly when its opcode is above 3 |
| Blocks.DecodeEncode | types.hpp:9-12 | the entry logged for an operation decodes as that operation |
| Utility.ComputeChecksumXor | utility.hpp:60-67 | the loop computes the XOR of words 1 to 511 plus 100, modulo 2^64 |
| Utility.ChecksumIgnoresWord0 | utility.hpp:62 | the checksum does not depend on word 0 |
| Utility.ZeroBlockChecksum | utility.hpp:66-71 | the checksum of an all-zero block is 100, which differs from its stored 0 |
| Utility.ClearBlock | utility.hpp:69-71 | the buffer is all zero afterwards |
| Utility.StatusText | utility.hpp:13-16 | 200 and 204 read "OK", 400 "Bad Request", 507 "Checkpoint Needed", and any other code, 500 included, the empty string |
| Utility.FindFirst | utility.hpp:21 | the index of the first occurrence, or the length if there is none |
| Utility.FindLast | utility.hpp:23 | the index of the last occurrence, or none if there is none |
| Utility.UriPath | utility.hpp:20-22 | the request text up to its first space, or all of it when it has none |
| Utility.GetCommandTypeFromUri | utility.hpp:19-25 | a suffix of the text before the first space that holds no `/` and no space and is the whole of that text or follows a `/` |
| Utility.GenResultHttpHeader | utility.hpp:35-41 | the header `gen_result_http_header` builds: the status line `HTTP/1.1 <code> <text>`, a Content-Length line and a JSON Content-Type line, ended by an empty line; what it carries is proved in the two round trips below |
| Utility.HeaderFraming | utility.hpp:37-39 | the header opens with `HTTP/1.1 ` and ends with the empty line `\r\n\r\n` that precedes the body |
| Utility.HeaderStatusCodeRoundTrip | utility.hpp:35-41 | the status code can be read back from the status line of the header |
| Utility.HeaderContentLengthRoundTrip | utility.hpp:35-41 | the Content-Length value can be read back from the header as the length given |
| Utility.CommaTerminatedIsJoinPlusComma | utility.hpp:47-52 | the loop's comma-terminated list less its last comma is the comma-separated list |
| Utility.GenNeighborJsonResult | utility.hpp:44-57 | the result is `{"node_id": N,"neighbors": [a,b,...]}` with the neighbours in the order given |
| Utility.JoinIdsRoundTrip | utility.hpp:47-53 | the comma-separated list parses back to the identifiers in order; the empty list gives `[]` |
| Utility.JoinIdsNoTrailingComma | utility.hpp:50-52 | a nonempty list does not end with a comma |
| Decimal.NatToString | cs426_graph_server.cpp:83 | `to_string` gives a nonempty string of digits without a leading zero |
| Decimal.IntToString | utility.hpp:37 | a negative code is printed as a minus sign followed by its magnitude |
| Decimal.NatToStringValue | cs426_graph_server.cpp:83 | the printed digits denote the number |
| Decimal.Strtoull | rpcsender_server.cc:41 | a digit string whose value fits in 64 bits parses to that value |
| Decimal.StrtoullOfNatToString | rpcsender_server.cc:41 | an identifier printed by the previous server parses back to itself |
| GraphStore.Apply | graph.hpp:21-27 | each answer is 200, 204 or 400; only 200 changes the graph; each operation's status states exactly when it takes effect; on 200 it gives every new neighbour set: a new node has none, an edge joins or parts its two endpoints and leaves every other set alone, and a removed node leaves every other set without it |
| GraphStore.ApplyPreservesWellFormed | graph.hpp:19 | every mutation keeps the graph undirected and loop free |
| GraphStore.GetNode | graph.hpp:29 | 200, and the flag says whether the node exists |
| GraphStore.GetEdge | graph.hpp:31 | 400 iff an endpoint is absent, otherwise 200 and whether the edge exists |
| GraphStore.Graph.constructor | graph.hpp:17-19 | a new graph is empty |
| GraphStore.Graph.Mutate | graph.hpp:21-27 | the status and the new graph are those of `Apply` |
| GraphStore.Graph.GetNeighbors | graph.hpp:33 | 200 iff the node exists, then a list of its neighbours, each exactly once; otherwise 400 and no list |
| GraphStore.ExampleSession | graph.hpp:21-31 | add 1, add 2, add edge, re-add edge (204), remove 1: node 2 is left with no neighbours |
| LogModel.Addr | log.cpp:72 | the block a 32-bit offset reaches: the offset itself below 2^20 |
| LogModel.AddrIsWrappedByteOffset | log.cpp:72 | that block is `offset * 4096` taken modulo 2^32, divided by 4096 |
| LogModel.WriteBlock | log.cpp:90-95 | a written block reads back as written |
| LogModel.WriteBlockFrame | log.cpp:90-95 | a write changes what exactly one address reads |
| LogModel.LbNextBlock | log.cpp:127-135 | the next staged block holds at most 170 entries |
| LogModel.AppendStep | log.cpp:104-137 | an append keeps the staged block within capacity and leaves the superblock and checkpoint buffer alone |
| LogModel.AppendedBlockFacts | log.cpp:127-136 | the cursor moves on by one iff the staged block held 170 entries; the new entry comes after the kept ones (none if the block was full); the block carries the current generation, validates, and is stored at the cursor; no other block changes |
| LogModel.NextBlockFacts | log.cpp:127-135 | the staged block after an append: its entries, count, generation and checksum |
| LogModel.CkAddAll | log.cpp:237-248 | writing checkpoint records leaves the superblock and the staged log block alone |
| LogModel.NodeRecords | log.cpp:260-263 | one record `(n, n)` per node, in iteration order |
| LogModel.ScanEnd | log.cpp:182-196 | the scan stops at or after its start and not beyond `log_size` |
| LogModel.ScanEndIsFirstInvalid | log.cpp:182-196 | every block before the stop is valid; the block it stops at, if below `log_size`, is not |
| LogModel.ScanStep | log.cpp:186-191 | a valid block extends the scan by one and contributes its entries |
| LogModel.ResumeOffset | log.cpp:197-201 | the cursor after replay is the first invalid block, minus one iff the last valid block held 1 to 169 entries |
| LogModel.ApplyRecord | log.cpp:157-170 | `(n, n)` makes n's neighbours empty; `(a, b)` adds each endpoint to the other's set, creating it if absent, and changes no other node |
| LogModel.RestoreCheckpoint | log.cpp:145-173 | nothing happens when `checkpoint_size` is 0, and only the checkpoint buffer of the log changes |
| LogModel.LogIsFull | log.cpp:280-282 | `log_is_full`: the cursor has reached `log_size`; that the gate keeps the cursor in the region is proved in AppendKeepsCursorBound and Chain.MutationKeepsHealthy |
| LogModel.InitSuperblock | log.cpp:38-46 | `init_superblock` as a transition: the fresh superblock in the buffer and in block 0, cursor at 1; every field is stated in InitSuperblockFacts |
| LogModel.Format | log.cpp:48-63 | `format` as a transition: initialise a device whose superblock does not validate, else bump its generation and empty the log; stated in FormatFacts |
| LogModel.CkNextBlock | log.cpp:239-246 | the checkpoint block `add_checkpt_entry` stages: cleared first when it holds 255 records, then the record stored and counted; read back in CkNextBlockRecords |
| LogModel.CkAddStep | log.cpp:237-248 | `add_checkpt_entry` as a transition: the cursor moves on iff the staged block was full, and the new staged block is written at the cursor; its effect on the region is proved in CkAddAllRegion and CkAddAllFromFull |
| LogModel.CommitCheckpoint | log.cpp:273-277 | the end of `checkpoint`: record the size, bump the generation, stamp and write the superblock, cursor back to `log_start`; stated in CommitCheckpointFacts |
| LogModel.Checkpoint | log.cpp:250-278 | `checkpoint` for the records its two passes emit: cursor to `log_size`, the records added, then the commit; proved in CheckpointFacts, CheckpointRestore and CheckpointRoundTrip |
| LogModel.ExecuteEntry | log.cpp:204-235 | `execute_log_entry`: the decoded operation applied, its status discarded, an unknown opcode ignored; stated in ReplayRedoesOperation |
| LogModel.PlayLog | log.cpp:175-202 | `play_log`: the entries of the valid prefix of the log region executed in order and the cursor set where appending resumes; proved in AppendedEntriesReplay |
| LogModel.RecoverStatus | log.cpp:139-143 | `recover_status`: the checkpoint restored, then the log replayed on the result |
| LogModel.InitServerLog | log.cpp:27-36 | `init_server_log`: initialise when block 0 does not validate, else recover; stated in InitServerLogFacts and RestartReplaysAppends |
| LogProperties.InitSuperblockFacts | log.cpp:38-46 | generation 0, `log_start` 1, `log_size` the segment size, no checkpoint, a validating superblock written to block 0, cursor 1 |
| LogProperties.FormatFacts | log.cpp:48-63 | a valid superblock's generation is bumped by one and a non-validating one restarts at 0; otherwise the same fields as a fresh superblock |
| LogProperties.InitServerLogFacts | log.cpp:27-36 | a non-validating superblock is initialised and the graph is untouched; a valid one is kept, the checkpoint restored and then the log replayed |
| LogProperties.AppendKeepsCursorBound | log.cpp:127-131 | an append on a log that is not full leaves the cursor at or below `log_size` |
| LogProperties.CrossingAppend | log.cpp:127-136 | the append that fills the log writes block `log_size`, the first checkpoint block, and replay does not see it |
| LogProperties.WriteOutsideLogKeepsReplay | log.cpp:182-196 | a write at or past `log_size` does not change what replay does |
| LogProperties.ReplayStopsAtFirstInvalid | log.cpp:182-201 | replay depends on no block beyond the first invalid one |
| LogProperties.ReplayReadsOnlyLogRegion | log.cpp:182 | replay depends only on the blocks of the log region |
| LogProperties.ReplayRedoesOperation | log.cpp:204-235 | replaying a logged entry redoes its operation; an unknown opcode does nothing |
| LogProperties.RestartOverwritesPartialBlock | log.cpp:197-201 | after replay stops behind a partly filled block, the next append rewrites that block with the staged entries and the new one |
| LogProperties.CkAddAllCursor | log.cpp:239-240 | writing n checkpoint records moves the cursor forward by at most n blocks |
| LogProperties.CkAddAllFrame | log.cpp:247 | checkpoint records never change a block below the cursor they started from |
| LogProperties.CommitCheckpointFacts | log.cpp:273-277 | `checkpoint_size = block_offset - log_size + 1`, generation + 1, a validating superblock in block 0, cursor back at `log_start`; nothing else on the device changes |
| LogProperties.CheckpointFacts | log.cpp:250-278 | a checkpoint uses 1 to n + 1 blocks for n records, exactly 1 for none, bumps the generation and resets the cursor |
| LogProperties.CommitRetiresGeneration | log.cpp:274 | a block of the old generation is never valid after the commit |
| LogProperties.CheckpointRetiresLog | log.cpp:273-277 | after a checkpoint, replay executes nothing, provided block `log_start` does not already carry the new generation number (the region above `log_start` to `log_size` included, for the records to fit) |
| LogProperties.AppendAllHolds | log.cpp:127-136 | appends to a fresh log with room leave the blocks from `log_start` to the cursor valid and holding the entries in order, the last one being the staged block, and every other block as it was |
| LogProperties.AppendedEntriesReplay | log.cpp:104-202 | the log round trip: `play_log` executes exactly the entries appended to a fresh log, in order, and resumes at the block the next append writes |
| LogProperties.RestartReplaysAppends | log.cpp:27-36 | `init_server_log` on the device those appends left, with a superblock recording no checkpoint, executes exactly the appended entries |
| LogProperties.AppendAfterCheckpoint | log.cpp:277 | the first append after a checkpoint rewrites the stale staged entries into block `log_start` under the new generation, or skips that block if the staged block was full |
| CheckpointProperties.CkNextBlockRecords | log.cpp:239-246 | a record is added after the others, or starts a cleared block when 255 are held |
| CheckpointProperties.CkAddAllRegion | log.cpp:237-272 | from a staged block with room, the records of the blocks from the start of the region to the cursor are the old staged ones followed by the new ones |
| CheckpointProperties.CkAddAllFromFull | log.cpp:237-272 | from a full staged block, the first new record opens the next block, so the region reads the block at its start as the device holds it, followed by the new records |
| CheckpointProperties.CheckpointWritesRegion | log.cpp:237-273 | for any staged block, the checkpoint region `checkpoint_size` blocks long holds the carried records followed by the new ones: the staged records if it had room, else the records of block `log_size` |
| CheckpointProperties.CommitKeepsRegion | log.cpp:273-277 | committing does not change what the restore reads |
| CheckpointProperties.CommitRecordsRegion | log.cpp:273 | the committed `checkpoint_size` counts the blocks from `log_size` to the cursor |
| CheckpointProperties.RestoreReadsRegion | log.cpp:154-155 | the restore applies the records of blocks `log_size` to `log_size + checkpoint_size - 1`, in order |
| CheckpointProperties.CheckpointRestore | log.cpp:250-278 | for any staged block, restoring a checkpoint applies the carried records and then the ones written; with no records it reads block `log_size` |
| CheckpointProperties.EmptyCheckpointRestoresStaleBlock | log.cpp:273 | a checkpoint of no records makes the restore read the old block at `log_size` |
| CheckpointProperties.ApplyNodeRecords | log.cpp:159-163 | node records create each listed node with no neighbours |
| CheckpointProperties.ApplyEdgeRecord | log.cpp:164-170 | an edge record adds its endpoints and joins them |
| CheckpointProperties.ApplyEdgeRecords | log.cpp:164-170 | edge records give each node the partners the records name |
| CheckpointProperties.PartnersAreNeighbours | log.cpp:265-272 | the edges with smaller endpoint first name every neighbour of a node |
| CheckpointProperties.RecordsRebuildGraph | log.cpp:260-272 | node records and then upper edge records rebuild a well-formed graph from nothing |
| CheckpointProperties.CheckpointRecordsRebuildGraph | log.cpp:258-272 | the records a checkpoint emits rebuild the graph from nothing |
| CheckpointProperties.CheckpointRoundTrip | log.cpp:250-278 | the checkpoint of a nonempty graph, restored on an empty graph from a clean buffer, gives back the graph |
| CheckpointProperties.CkAddAllInPlace | log.cpp:237-247 | records that fit the staged block are added after its old ones, the cursor staying put |
| CheckpointProperties.StagedAfterCheckpoint | log.cpp:250-278 | `checkpoint` does not clear the staged checkpoint block: after a checkpoint that fit a clean block and one append, it still holds exactly that checkpoint's records |
| CheckpointProperties.RecheckpointReadsBoth | log.cpp:250-278 | a second checkpoint after one append, from a clean start with a first checkpoint that fit one block, makes the restore apply both checkpoints' records |
| CheckpointProperties.RecheckpointRevivesRemovedNode | log.cpp:250-278 | checkpoint {1-2}, remove node 2, checkpoint {1}: the restore gives node 2 back with neighbour 1 while node 1 has none: a graph that is not symmetric, hence not well formed |
| CheckpointProperties.ClearedCheckpointRoundTrip | log.cpp:250-278 | with the staged block and block `log_size` cleared first, the checkpoint of any well-formed graph restores to exactly that graph |
| DurableLog.StampBlock | log.cpp:43 | the buffer is stamped with its checksum |
| DurableLog.BuildInitialSuperblock | log.cpp:40-43 | the buffer holds the superblock `init_superblock` builds |
| DurableLog.BuildFormattedSuperblock | log.cpp:56-60 | the buffer holds the superblock `format` builds over generation g |
| DurableLog.StageLogEntry | log.cpp:127-135 | the buffer holds the next staged log block |
| DurableLog.StageCheckptEntry | log.cpp:239-246 | the buffer holds the next staged checkpoint block |
| DurableLog.ServerLog.constructor | log.hpp:108-119 | cleared buffers, the bound graph and the attached device |
| DurableLog.ServerLog.ReadIn | log.cpp:65-81 | the buffer holds the device's block at the offset |
| DurableLog.ServerLog.WriteOut | log.cpp:83-102 | the device afterwards holds the buffer at the offset |
| DurableLog.ServerLog.InitSuperblock | log.cpp:38-46 | the state becomes `LogModel.InitSuperblock` of the old one |
| DurableLog.ServerLog.Format | log.cpp:48-63 | the state becomes `LogModel.Format` of the old one |
| DurableLog.ServerLog.AddLogEntry | log.cpp:104-137 | the state becomes `LogModel.AppendStep` of the old one |
| DurableLog.ServerLog.AddCheckptEntry | log.cpp:237-248 | the state becomes `LogModel.CkAddStep` of the old one |
| DurableLog.ServerLog.ExecuteLogEntry | log.cpp:204-235 | the graph becomes `LogModel.ExecuteEntry` of the old one |
| DurableLog.ServerLog.ExecuteBlock | log.cpp:189-191 | the entries of the block run in order |
| DurableLog.ServerLog.ScanLog | log.cpp:182-196 | the loop stops at the first invalid block, having run every earlier block's entries in order |
| DurableLog.ServerLog.ReadLogBlock | log.cpp:184-186 | reads a block and says whether it is valid |
| DurableLog.ServerLog.PlayLog | log.cpp:175-202 | the state and graph become `LogModel.PlayLog` of the old ones |
| DurableLog.ServerLog.RestoreBlock | log.cpp:156-171 | the records of the checkpoint buffer are applied in order |
| DurableLog.ServerLog.RestoreBlockAt | log.cpp:155-171 | reads a checkpoint block into the buffer and applies it |
| DurableLog.ServerLog.RestoreRegion | log.cpp:154-172 | the region's records are applied in order and the last block read stays in the buffer |
| DurableLog.ServerLog.RecoverFromCheckpoint | log.cpp:145-173 | the state and graph become `LogModel.RestoreCheckpoint` of the old ones |
| DurableLog.ServerLog.RecoverStatus | log.cpp:139-143 | the checkpoint is restored, then the log is replayed |
| DurableLog.ServerLog.InitServerLog | log.cpp:27-36 | the state and graph become `LogModel.InitServerLog` of the old ones |
| DurableLog.ServerLog.CheckpointNodes | log.cpp:260-263 | one node record per node, each node exactly once |
| DurableLog.ServerLog.CheckpointEdges | log.cpp:265-272 | one record per edge with the smaller endpoint first, each exactly once |
| DurableLog.ServerLog.CommitCheckpoint | log.cpp:273-277 | the state becomes `LogModel.CommitCheckpoint` of the old one |
| DurableLog.ServerLog.Checkpoint | log.cpp:250-278 | the graph's node records and then its upper edges are written, then committed |
| DurableLog.ServerLog.LogIsFull | log.cpp:280-282 | full iff the cursor has reached `log_size` |
| Chain.ClientReply | rpcsender_client.cc:45-49 | the string a client call returns: the reply message when the RPC succeeds, "RPC failed" otherwise |
| Chain.CallOf | cs426_graph_server.cpp:83 | the call the HTTP handler forwards for a write: the same command with each id printed by `to_string` |
| Chain.OpOf | rpcsender_server.cc:41 | the operation a replication handler performs: the same command with each id parsed by `strtoull` in base 10; CallRoundTrip proves it inverts CallOf |
| Chain.CallRoundTrip | cs426_graph_server.cpp:83 | a forwarded write is parsed downstream as the same operation |
| Chain.Mutation | cs426_graph_server.cpp:77-104 | the write rule keeps the staged block within capacity |
| Chain.Performed | rpcsender_server.cc:41-53 | the graph operation and, on 200, the append keep the staged block within capacity |
| Chain.Mutate | cs426_graph_server.cpp:77-104 | the bound log and graph change as `Mutation`, and the call is sent iff there is a next server and the log has room |
| Chain.RefusedWriteChangesNothing | rpcsender_server.cc:29-39 | refused for a full log exactly when `log_is_full`, for the forward exactly when there is room and the reply is "RPC failed"; a refused write changes nothing |
| Chain.AppliedWriteIsLoggedOnSuccess | rpcsender_server.cc:41-53 | past the gate the graph operation runs and its entry is appended iff it answered 200, stored at the cursor under the current generation |
| Chain.LoggedEntryReplaysWrite | log.cpp:204-235 | replaying the entry a write logged redoes that write |
| Chain.PerformAllLogs | rpcsender_server.cc:41-53 | a run of writes past the gate leaves the graph of the operations applied in turn and the log of the appends of exactly the entries that answered 200 |
| Chain.LoggedEntriesReplay | log.cpp:204-235 | replaying the entries a run of writes logged gives the graph the run produced |
| Chain.WritesSurviveRestart | log.cpp:27-36 | a restart on the device a run of writes left on a fresh log, with no checkpoint, recovers the graph the run produced |
| Chain.MutationKeepsHealthy | log.cpp:280-282 | because appends are gated on `log_is_full`, the cursor stays in the log region and the graph stays well formed |
| RpcService.Served | rpcsender_server.cc:27-59 | OK iff the log has room and the forward did not fail, then with the success message and the operation performed; a cancelled call leaves the server unchanged |
| RpcService.RpcSenderService.constructor | rpcsender_server.cc:173-183 | the service is bound to the log and to the next server if there is one |
| RpcService.RpcSenderService.Serve | rpcsender_server.cc:27-166 | the reply and the new state are those of `Served` |
| RpcService.CancelledCallChangesNothing | rpcsender_server.cc:29-39 | cancelled iff the log is full or the forward failed, with the matching "fail" message; a full log is not forwarded |
| RpcService.AcknowledgedWhateverTheStatus | rpcsender_server.cc:40-58 | every call that is not cancelled is acknowledged, whatever the graph answered; it is logged iff the graph answered 200 |
| RpcService.DuplicateAddAcknowledged | rpcsender_server.cc:47-58 | re-adding a node the tail has is acknowledged although nothing changes or is logged |
| RpcService.OperandsForwardedVerbatim | rpcsender_server.cc:35-41 | "007" is forwarded as "007" and applied here as node 7 |
| ChainProperties.FailureSeenIffCancelled | rpcsender_client.cc:45-49 | the previous server reads "RPC failed" iff the call was cancelled |
| ChainProperties.ChainServed | rpcsender_server.cc:34-39 | a chain keeps one state per server, and an acknowledged call carries the success message |
| ChainProperties.FailureSeenIffCancelledOfChain | rpcsender_client.cc:45-49 | "RPC failed" comes back from a chain iff the chain cancelled |
| ChainProperties.ChainAllOrNothing | rpcsender_server.cc:27-59 | acknowledged iff no log in the chain is full; then every server has performed the write, otherwise none has changed |
| ChainProperties.ChainStaysConsistent | rpcsender_server.cc:27-59 | servers with the same graph still have the same graph after a write |
| ChainProperties.HeadWriteAllOrNothing | cs426_graph_server.cpp:77-104 | a write at the head reaches every server or none; the head answers its graph's status, 507 for its own full log, or 500 for one behind it |
| ServerConfig.SplitSetting | cs426_graph_server.cpp:277-279 | a token is split at its first `=`; without one both halves are the whole token |
| ServerConfig.ParseConfig | cs426_graph_server.cpp:276-293 | the loop leaves the settings that the tokens give in order |
| ServerConfig.ApplySetting | cs426_graph_server.cpp:277-292 | one token of the configuration loop: split at the first `=`, then the matching setting replaced by the right-hand side (FORMAT true unless "0"), an unknown key ignored |
| ServerConfig.ConfigOf | cs426_graph_server.cpp:276-293 | the settings after every token in order, starting from the defaults; the per-key lemmas below state what each token does |
| ServerConfig.SplitAtFirstEquals | cs426_graph_server.cpp:277-279 | `KEY=value` splits into the key and everything after the first `=` |
| ServerConfig.FormatToken | cs426_graph_server.cpp:280-281 | a FORMAT token turns formatting off only for the value "0" and touches nothing else |
| ServerConfig.IpNextToken | cs426_graph_server.cpp:288-289 | the last IP_NEXT token decides whether there is a next server: none iff "-1" |
| ServerConfig.BareFormatTokenFormats | cs426_graph_server.cpp:277-281 | a bare `FORMAT` token turns formatting on |
| ServerConfig.UnknownKeyIgnored | cs426_graph_server.cpp:280-292 | a token with an unknown key changes nothing |
| HttpServer.Startup | cs426_graph_server.cpp:298-305 | `main`'s start: the log bound to an empty graph and the device, then formatted or recovered as the FORMAT setting says; FormatStartsHealthy states the formatted case |
| HttpServer.CommandStep | cs426_graph_server.cpp:77-242 | one API command: the reply, the call forwarded and the new state for each of the nine commands, an unknown one getting no reply; its cases are stated in the lemmas below |
| HttpServer.HttpStep | cs426_graph_server.cpp:62-254 | one HTTP request: static content outside `/api/v1`, no response to a non-POST, otherwise the rendered reply of CommandStep for the command after the last `/` |
| HttpServer.WriteOp | cs426_graph_server.cpp:77-190 | exactly the four write commands name a graph operation |
| HttpServer.GraphServer.constructor | cs426_graph_server.cpp:298-317 | the server starts from a formatted or recovered log, with a next server iff IP_NEXT is not "-1" |
| HttpServer.GraphServer.HandleCommand | cs426_graph_server.cpp:77-242 | the reply, the forward and the new state are those of `CommandStep`; the neighbour list names each neighbour once and the checkpoint records are the graph's |
| HttpServer.GraphServer.HandleHttp | cs426_graph_server.cpp:62-254 | the response, the forward and the new state are those of `HttpStep` |
| HttpServer.ResponseCarriesStatusAndLength | cs426_graph_server.cpp:243 | the response's status code and Content-Length are the reply's code and body length |
| HttpServer.FullLogRefusesWrites | cs426_graph_server.cpp:78-80 | a write on a full log answers 507 "Checkpoint Needed" with an empty body, without forwarding or changing anything |
| HttpServer.FailedForwardAnswers500 | cs426_graph_server.cpp:82-86 | a failed forward answers 500 with an empty status text and body, and changes nothing |
| HttpServer.AppliedWriteEchoesBody | cs426_graph_server.cpp:88-102 | otherwise the graph operation runs, is logged iff 200, and the body is echoed iff 200 |
| HttpServer.ForwardIgnoresLocalOutcome | cs426_graph_server.cpp:83-88 | what is forwarded does not depend on the graph |
| HttpServer.ReadsChangeNothing | cs426_graph_server.cpp:191-232 | reads never forward or change state; `get_node` always has a body, the others have one iff 200 |
| HttpServer.CheckpointCommand | cs426_graph_server.cpp:233-241 | 507 and nothing changes on a full log; otherwise a checkpoint is taken and 200 answered, and when the staged checkpoint block is clean, the graph nonempty and well formed and the records fit below 2^20 blocks, a restore on an empty graph gives back the graph |
| HttpServer.OtherRequestsChangeNothing | cs426_graph_server.cpp:71-248 | static URIs, non-POST requests and unknown commands change nothing and forward nothing |
| HttpServer.CommandKeepsHealthy | cs426_graph_server.cpp:78 | every command keeps the cursor in the log region and the graph well formed |
| HttpServer.FormatStartsHealthy | cs426_graph_server.cpp:301-302 | a formatted start has an empty graph and the cursor at block 1 |

## Left out

- Device I/O: `open`, `mmap`, `msync`, `munmap` and `close` (log.cpp:19-25, 65-102, 284-290) become reads and updates of a block map. Durability of `msync` and crashes in the middle of a write are not expressed.
- `bind_graph` and `attach_log` are the constructor's parameters. An `open` that fails is not modelled.
- The gRPC transport, `rpcsender_client.cc` and `RunRPCServer`: the next server's answer is an `Ok(message) | Failed` parameter. The chain model in `ChainProperties` assumes every call reaches the next server, so it has no network failures.
- Concurrency: the gRPC thread and the HTTP loop share the graph and the log without a lock. Each handler is one atomic step.
- The mongoose event loop, static file serving and the signal handler. A static URI only yields the `StaticContent` marker.
- JSON parsing: `parse_json2`, `find_json_token` and `get_node_from_token` (utility.hpp:28-32) become the `Operands` parameter. A missing key or a malformed number, on which `stoull` throws, is not modelled.
- `json_emit`: `InGraphJson` and `DistanceJson` stand for its output. Its exact spacing is not taken from the library.
- The graph operation bodies and the BFS of `shortestPath`: graph.cpp is not part of this model. `Apply` uses the 200/204/400 convention the handlers' status texts stand for. `shortestPath`'s result is a parameter.
- Hash map iteration order. The checkpoint passes pick nodes with `:|`, and the edge pass reuses the node order. The neighbour list order of `get_neighbors` is a parameter.
- HttpServer.GraphServer.HandleCommand: the neighbour order and the checkpoint records are ghost outputs. Only that they list the right elements once each is stated, not which order the hash map gives.
- DurableLog.ServerLog.Checkpoint: the edge records are a ghost output. That they are grouped by node in the node pass's order is not stated.
- The debug output: `print_debug` and the `sprintf` buffers.
- main.cpp (an earlier single-server build, equal to the tail server's dispatch) and the Java test that drives a live server.
- The config file is read with `>>`: the tokens are given as a sequence.
- `LOG_SEG_SIZE` is the parameter `logSegSize`, not the constant 500000.
- An `entry_cnt` above the block capacity read from the device: the source then reads past the array. The model executes min(`entry_cnt`, capacity) entries and drops checkpoint records past slot 255.
- `block_offset` is uninitialised until `format` or `init_server_log`; the model starts it at 0.
- `format` copies the generation through a signed `int` (log.cpp:55). Its overflow at 2^31 - 1 is undefined; the model wraps at 2^32.
- Two log entry fields are modelled as words: the opcode is the low half of the entry's first word. The padding after it is written as zero and ignored when read; the source leaves it indeterminate.

## Findings

| source | as written | input that shows it | evidently intended | confidence | as-written member | corrected member |
|---|---|---|---|---|---|---|
| log.cpp:250-278 | `checkpoint` resets `block_offset` to `log_size` but keeps the staged checkpoint block, so the new records are added after the previous checkpoint's | from a clean start: add nodes 1 and 2 and edge 1-2, checkpoint, remove node 2, checkpoint, restart; the restore gives `{1: {}, 2: {1}}` | clear the staged checkpoint block (and the block at `log_size`) before the first record, so the restore gives back exactly the checkpointed graph | high, not executed | CheckpointProperties.RecheckpointRevivesRemovedNode | CheckpointProperties.ClearedCheckpointRoundTrip |

The server model (`LogModel.Checkpoint`, `DurableLog.ServerLog.Checkpoint`) keeps the code as written. `CheckpointProperties.ClearedCheckpoint` is the corrected reference the last lemma is about.
