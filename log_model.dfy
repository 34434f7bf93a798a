/** The durable log of log.cpp as a state machine on values: the block
    device, the three in-memory block buffers and the write cursor, with one
    transition per operation of `server_log`. The class in log.dfy performs
    the same steps in place and is specified by these functions. */
module LogModel {
  import opened Types
  import opened Utility
  import opened Blocks
  import opened GraphStore

  // ---------------------------------------------------------------------
  // The device
  // ---------------------------------------------------------------------

  /** The log device, block by block; a block never written reads as zeros. */
  type Device = map<nat, Block>

  /** `offset * BLOCK_SIZE` is computed in 32-bit unsigned arithmetic, so
      only 2^32 / BLOCK_SIZE distinct blocks can be addressed. */
  const ADDRESSABLE_BLOCKS: nat := 0x10_0000

  /** The block that offset `offset` reaches. */
  function Addr(offset: u32): (a: nat)
    ensures a < ADDRESSABLE_BLOCKS && a <= offset
    ensures offset < ADDRESSABLE_BLOCKS ==> a == offset
  {
    if offset < ADDRESSABLE_BLOCKS then offset else offset % ADDRESSABLE_BLOCKS
  }

  /** `Addr` is the block of the wrapped byte offset the source maps. */
  lemma {:induction false} AddrIsWrappedByteOffset(offset: u32)
    ensures Addr(offset) == (offset * BLOCK_SIZE) % U32_MOD / BLOCK_SIZE
  {
    var q, r := offset / ADDRESSABLE_BLOCKS, offset % ADDRESSABLE_BLOCKS;
    assert offset == q * ADDRESSABLE_BLOCKS + r;
    assert offset * BLOCK_SIZE == q * U32_MOD + r * BLOCK_SIZE;
    assert 0 <= r * BLOCK_SIZE < U32_MOD;
    assert (offset * BLOCK_SIZE) % U32_MOD == r * BLOCK_SIZE;
  }

  /** `read_in_*_block`: copy the block at `offset` out of the device. */
  function ReadBlock(d: Device, offset: u32): Block {
    if Addr(offset) in d then d[Addr(offset)] else ZeroBlock
  }

  /** `write_*_block`: copy a block onto the device at `offset`. */
  function WriteBlock(d: Device, offset: u32, b: Block): (r: Device)
    ensures ReadBlock(r, offset) == b
  {
    d[Addr(offset) := b]
  }

  /** A write changes only the block it addresses. */
  lemma {:induction false} WriteBlockFrame(d: Device, offset: u32, b: Block, o: u32)
    ensures ReadBlock(WriteBlock(d, offset, b), o) == if Addr(o) == Addr(offset) then b else ReadBlock(d, o)
  {
  }

  // ---------------------------------------------------------------------
  // The state of `server_log`
  // ---------------------------------------------------------------------

  /** The device and the fields `super_block`, `cur_block`, `checkpt_block`
      and `block_offset`. */
  datatype LogState = LogState(device: Device, superBlock: Block, curBlock: Block,
                               checkptBlock: Block, blockOffset: u32)

  /** `cur_block` only ever gets entries through `add_log_entry`, which
      starts a new block once 170 are stored. */
  predicate StagedOk(s: LogState) {
    LbEntryCnt(s.curBlock) <= LOG_ENTRIES_PER_BLOCK
  }

  function LogStart(s: LogState): u32 { SbLogStart(s.superBlock) }
  function LogSize(s: LogState): u32 { SbLogSize(s.superBlock) }
  function Generation(s: LogState): u32 { SbGeneration(s.superBlock) }

  /** `log_is_full`: the cursor has reached the end of the log region. */
  predicate LogIsFull(s: LogState) {
    s.blockOffset >= LogSize(s)
  }

  // ---------------------------------------------------------------------
  // init_superblock and format
  // ---------------------------------------------------------------------

  /** The superblock `init_superblock` builds: generation 0, log_start 1,
      log_size `logSegSize` (the value of `LOG_SEG_SIZE`), no checkpoint. */
  function InitialSuperblock(logSegSize: u32): Block {
    Stamp(WithSbLogSize(WithSbLogStart(ZeroBlock, 1), logSegSize))
  }

  /** The superblock `format` builds over a valid one of generation `gen`. */
  function FormattedSuperblock(gen: u32, logSegSize: u32): Block {
    Stamp(WithSbLogSize(WithSbLogStart(WithSbGeneration(ZeroBlock, Inc32(gen)), 1), logSegSize))
  }

  function InitSuperblock(s: LogState, logSegSize: u32): LogState {
    var sb := InitialSuperblock(logSegSize);
    s.(superBlock := sb, blockOffset := 1, device := WriteBlock(s.device, 0, sb))
  }

  /** `format`: a device whose superblock does not validate is initialised;
      otherwise the generation is bumped and the log emptied. */
  function Format(s: LogState, logSegSize: u32): LogState {
    var sb := ReadBlock(s.device, 0);
    if !ChecksumMatches(sb) then InitSuperblock(s.(superBlock := sb), logSegSize)
    else
      var nsb := FormattedSuperblock(SbGeneration(sb), logSegSize);
      s.(superBlock := nsb, blockOffset := 1, device := WriteBlock(s.device, 0, nsb))
  }

  // ---------------------------------------------------------------------
  // add_log_entry
  // ---------------------------------------------------------------------

  /** The block `add_log_entry` stages after `b`: a cleared one if `b`
      holds 170 entries, stamped with generation `gen`, with the entry stored
      and counted, and checksummed. */
  function LbNextBlock(b: Block, gen: u32, e: LogEntry): (r: Block)
    requires LbEntryCnt(b) <= LOG_ENTRIES_PER_BLOCK
    ensures LbEntryCnt(r) <= LOG_ENTRIES_PER_BLOCK
  {
    var base := if LbEntryCnt(b) == LOG_ENTRIES_PER_BLOCK then ZeroBlock else b;
    var cnt := LbEntryCnt(base);
    Stamp(WithLbEntryCnt(WithLbEntry(WithLbGeneration(base, gen), cnt, e), cnt + 1))
  }

  /** `add_log_entry`: the cursor moves on when the staged block is full,
      and the next staged block is written at the cursor. */
  function AppendStep(s: LogState, e: LogEntry): (r: LogState)
    requires StagedOk(s)
    ensures StagedOk(r) && r.superBlock == s.superBlock && r.checkptBlock == s.checkptBlock
  {
    var offset: u32 := if LbEntryCnt(s.curBlock) == LOG_ENTRIES_PER_BLOCK then Inc32(s.blockOffset) else s.blockOffset;
    var b := LbNextBlock(s.curBlock, Generation(s), e);
    s.(device := WriteBlock(s.device, offset, b), curBlock := b, blockOffset := offset)
  }

  function AppendAll(s: LogState, es: seq<LogEntry>): (r: LogState)
    requires StagedOk(s)
    ensures StagedOk(r) && r.superBlock == s.superBlock && r.checkptBlock == s.checkptBlock
  {
    if es == [] then s
    else
      AppendStep(AppendAll(s, es[..|es| - 1]), es[|es| - 1])
  }

  /** What one append does: the cursor moves on by one exactly when the
      staged block was full; the staged block then holds the earlier entries
      (none after a move) followed by the new one, carries the superblock's
      generation, validates, and is what the device holds at the cursor;
      no other block and neither other buffer changes. */
  lemma {:induction false} AppendedBlockFacts(s: LogState, e: LogEntry)
    requires StagedOk(s)
    ensures var r := AppendStep(s, e);
      var full := LbEntryCnt(s.curBlock) == LOG_ENTRIES_PER_BLOCK;
      && r.blockOffset == (if full then Inc32(s.blockOffset) else s.blockOffset)
      && LbEntries(r.curBlock) == (if full then [] else LbEntries(s.curBlock)) + [e]
      && LbEntryCnt(r.curBlock) == (if full then 1 else LbEntryCnt(s.curBlock) + 1)
      && BlockValid(r.curBlock, Generation(s))
      && ReadBlock(r.device, r.blockOffset) == r.curBlock
      && (forall o: u32 :: Addr(o) != Addr(r.blockOffset) ==> ReadBlock(r.device, o) == ReadBlock(s.device, o))
      && r.superBlock == s.superBlock && r.checkptBlock == s.checkptBlock
      && StagedOk(r)
  {
    NextBlockFacts(s.curBlock, Generation(s), e);
  }

  /** The staged block after an append: the earlier entries (none after a
      full block) followed by the new one, the given generation, a matching
      checksum. */
  lemma {:induction false} NextBlockFacts(b: Block, gen: u32, e: LogEntry)
    requires LbEntryCnt(b) <= LOG_ENTRIES_PER_BLOCK
    ensures var r := LbNextBlock(b, gen, e);
      var full := LbEntryCnt(b) == LOG_ENTRIES_PER_BLOCK;
      && LbEntries(r) == (if full then [] else LbEntries(b)) + [e]
      && LbEntryCnt(r) == (if full then 1 else LbEntryCnt(b) + 1)
      && BlockValid(r, gen)
  {
    var full := LbEntryCnt(b) == LOG_ENTRIES_PER_BLOCK;
    var base := if full then ZeroBlock else b;
    var cnt := LbEntryCnt(base);
    var g := WithLbGeneration(base, gen);
    var w := WithLbEntryCnt(WithLbEntry(g, cnt, e), cnt + 1);
    if full {
      ZeroBlockEntries();
    }
    assert LbEntries(g) == LbEntries(base);
    AppendedEntries(g, e);
    StampKeepsLogFields(w);
    StampValidates(w);
  }

  // ---------------------------------------------------------------------
  // add_checkpt_entry and checkpoint
  // ---------------------------------------------------------------------

  /** The block `add_checkpt_entry` stages after `b`: a cleared one if `b`
      holds 255 records, with the record stored and counted. A count beyond
      255 read back from the device stores no record (the source would
      write past the block). */
  function CkNextBlock(b: Block, r: Edge): Block {
    var base := if CkEntryCnt(b) == EDGES_PER_BLOCK then ZeroBlock else b;
    var cnt := CkEntryCnt(base);
    var stored := if cnt < EDGES_PER_BLOCK then WithCkEdge(base, cnt, r) else base;
    WithCkEntryCnt(stored, Inc32(cnt))
  }

  /** `add_checkpt_entry`: the cursor moves on when the staged block is
      full, and the next staged block is written at the cursor. */
  function CkAddStep(s: LogState, r: Edge): LogState {
    var offset: u32 := if CkEntryCnt(s.checkptBlock) == EDGES_PER_BLOCK then Inc32(s.blockOffset) else s.blockOffset;
    var b := CkNextBlock(s.checkptBlock, r);
    s.(device := WriteBlock(s.device, offset, b), checkptBlock := b, blockOffset := offset)
  }

  function CkAddAll(s: LogState, rs: seq<Edge>): (r: LogState)
    ensures r.superBlock == s.superBlock && r.curBlock == s.curBlock
  {
    if rs == [] then s else CkAddStep(CkAddAll(s, rs[..|rs| - 1]), rs[|rs| - 1])
  }

  /** One `(n, n)` record per node, in the order given. */
  function NodeRecords(order: seq<u64>): (rs: seq<Edge>)
    ensures |rs| == |order| && forall i :: 0 <= i < |order| ==> rs[i] == Edge(order[i], order[i])
  {
    seq(|order|, i requires 0 <= i < |order| => Edge(order[i], order[i]))
  }

  /** An adjacency of the graph written with its smaller endpoint first. */
  ghost predicate IsUpperEdge(g: Adjacency, e: Edge) {
    e.node1 in g && e.node2 in g[e.node1] && e.node1 < e.node2
  }

  /** The records `checkpoint` emits for `g`: each node once, in iteration
      order, then each edge once with its smaller endpoint first. */
  ghost predicate CheckpointRecords(g: Adjacency, order: seq<u64>, edges: seq<Edge>) {
    && Lists(order, g.Keys)
    && (forall e :: e in edges <==> IsUpperEdge(g, e))
    && Distinct(edges)
  }

  /** `block_offset - log_size + 1` in 32 bits: the number of checkpoint
      blocks from `log_size` to the cursor. */
  function CheckpointSize(offset: u32, logSize: u32): u32 {
    if 0 <= offset - logSize + 1 < U32_MOD then offset - logSize + 1 else (offset - logSize + 1) % U32_MOD
  }

  /** The end of `checkpoint`: record the number of checkpoint blocks used,
      bump the generation, checksum and write the superblock, and move the
      cursor back to the start of the log. */
  function CommitCheckpoint(s: LogState): LogState {
    var size: u32 := CheckpointSize(s.blockOffset, LogSize(s));
    var sb := Stamp(WithSbGeneration(WithSbCheckpointSize(s.superBlock, size), Inc32(Generation(s))));
    s.(superBlock := sb, device := WriteBlock(s.device, 0, sb), blockOffset := SbLogStart(sb))
  }

  /** `checkpoint` for the records its two passes over the graph emit. */
  function Checkpoint(s: LogState, records: seq<Edge>): LogState {
    CommitCheckpoint(CkAddAll(s.(blockOffset := LogSize(s)), records))
  }

  // ---------------------------------------------------------------------
  // Recovery: recover_from_checkpoint, play_log, execute_log_entry
  // ---------------------------------------------------------------------

  /** A log block is part of the log iff its checksum matches and it carries
      the superblock's generation. */
  predicate BlockValid(b: Block, gen: u32) {
    ChecksumMatches(b) && LbGeneration(b) == gen
  }

  /** Where `play_log`'s scan from block `i` stops: the first block below
      `size` that is not valid, or `size`. */
  function ScanEnd(d: Device, gen: u32, i: u32, size: u32): (r: u32)
    ensures i <= r && (i < size ==> r <= size) && (i >= size ==> r == i)
    decreases size - i
  {
    if i < size && BlockValid(ReadBlock(d, i), gen) then ScanEnd(d, gen, i + 1, size) else i
  }

  /** The entries of blocks `start .. end - 1`, block by block. */
  function LogEntriesIn(d: Device, start: u32, end: u32): seq<LogEntry>
    decreases end - start
  {
    if end <= start then [] else LogEntriesIn(d, start, end - 1) + LbEntries(ReadBlock(d, end - 1))
  }

  /** `lastsize`: the entry count of the last block the scan accepted. */
  function LastSize(d: Device, start: u32, end: u32): u32 {
    if end <= start then 0 else LbEntryCnt(ReadBlock(d, end - 1))
  }

  /** One accepted block moves the scan on by a block, adds the block's
      entries and makes it the last block accepted. */
  lemma {:induction false} ScanStep(d: Device, gen: u32, start: u32, i: u32, size: u32)
    requires start <= i < size && BlockValid(ReadBlock(d, i), gen)
    ensures ScanEnd(d, gen, i, size) == ScanEnd(d, gen, i + 1, size)
    ensures LogEntriesIn(d, start, i + 1) == LogEntriesIn(d, start, i) + LbEntries(ReadBlock(d, i))
    ensures LastSize(d, start, i + 1) == LbEntryCnt(ReadBlock(d, i))
  {
  }

  /** Where `play_log` leaves the cursor: at the first invalid block, or one
      earlier when the last valid block still has room. */
  function ResumeOffset(d: Device, gen: u32, start: u32, size: u32): (r: u32)
    ensures var e := ScanEnd(d, gen, start, size);
      var last := LastSize(d, start, e);
      (0 < last < LOG_ENTRIES_PER_BLOCK ==> r + 1 == e) && (!(0 < last < LOG_ENTRIES_PER_BLOCK) ==> r == e)
  {
    var e := ScanEnd(d, gen, start, size);
    var last := LastSize(d, start, e);
    if 0 < last < LOG_ENTRIES_PER_BLOCK then e - 1 else e
  }

  /** The entries `play_log` executes. */
  function ReplayedEntries(s: LogState): seq<LogEntry> {
    LogEntriesIn(s.device, LogStart(s), ScanEnd(s.device, Generation(s), LogStart(s), LogSize(s)))
  }

  /** `execute_log_entry`: run the operation the opcode names, ignoring its
      status; an unknown opcode does nothing. */
  function ExecuteEntry(g: Adjacency, e: LogEntry): Adjacency {
    match DecodeEntry(e)
    case None => g
    case Some(op) => Apply(g, op).graph
  }

  function ExecuteAll(g: Adjacency, es: seq<LogEntry>): Adjacency {
    if es == [] then g else ExecuteEntry(ExecuteAll(g, es[..|es| - 1]), es[|es| - 1])
  }

  /** `g[n]` through `operator[]`: an absent node reads as no neighbours. */
  function Neighbours(g: Adjacency, n: u64): set<u64> {
    if n in g then g[n] else {}
  }

  /** One checkpoint record read back: `(n, n)` makes `n` a node with no
      neighbours (replacing any it had); `(a, b)` adds b to a's neighbours and
      a to b's, creating either node if needed. */
  function ApplyRecord(g: Adjacency, r: Edge): (h: Adjacency)
    ensures r.node1 == r.node2 ==> h == g[r.node1 := {}]
    ensures r.node1 != r.node2 ==>
              h.Keys == g.Keys + {r.node1, r.node2}
              && h[r.node1] == Neighbours(g, r.node1) + {r.node2}
              && h[r.node2] == Neighbours(g, r.node2) + {r.node1}
              && (forall n :: n in g && n != r.node1 && n != r.node2 ==> h[n] == g[n])
  {
    if r.node1 == r.node2 then g[r.node1 := {}]
    else
      var g1 := g[r.node1 := Neighbours(g, r.node1) + {r.node2}];
      g1[r.node2 := Neighbours(g1, r.node2) + {r.node1}]
  }

  function ApplyRecords(g: Adjacency, rs: seq<Edge>): Adjacency {
    if rs == [] then g else ApplyRecord(ApplyRecords(g, rs[..|rs| - 1]), rs[|rs| - 1])
  }

  /** Where checkpoint block `k` lives: `log_size + k`, computed in 32 bits. */
  function CkBlock(logSize: u32, k: nat): u32 {
    if logSize + k < U32_MOD then logSize + k else (logSize + k) % U32_MOD
  }

  /** The records of checkpoint blocks `0 .. count - 1`, block by block. */
  function CkRegion(d: Device, logSize: u32, count: nat): seq<Edge> {
    if count == 0 then []
    else CkRegion(d, logSize, count - 1) + CkRecords(ReadBlock(d, CkBlock(logSize, count - 1)))
  }

  /** `recover_from_checkpoint`: nothing when `checkpoint_size` is 0;
      otherwise every record of the checkpoint region is applied in order and
      the last block read stays in `checkpt_block`. */
  function RestoreCheckpoint(s: LogState, g: Adjacency): (r: (LogState, Adjacency))
    ensures SbCheckpointSize(s.superBlock) == 0 ==> r == (s, g)
    ensures r.0 == s.(checkptBlock := r.0.checkptBlock)
  {
    var count := SbCheckpointSize(s.superBlock);
    if count == 0 then (s, g)
    else
      var recs := CkRegion(s.device, LogSize(s), count);
      (s.(checkptBlock := ReadBlock(s.device, CkBlock(LogSize(s), count - 1))), ApplyRecords(g, recs))
  }

  /** `play_log`: execute the entries of the valid prefix of the log and
      leave the cursor where appending should resume. */
  function PlayLog(s: LogState, g: Adjacency): (LogState, Adjacency) {
    (s.(blockOffset := ResumeOffset(s.device, Generation(s), LogStart(s), LogSize(s))),
     ExecuteAll(g, ReplayedEntries(s)))
  }

  /** `recover_status`: the checkpoint, then the log. */
  function RecoverStatus(s: LogState, g: Adjacency): (LogState, Adjacency) {
    var c := RestoreCheckpoint(s, g);
    PlayLog(c.0, c.1)
  }

  /** `init_server_log`: read the superblock; initialise the device if it
      does not validate, otherwise recover. */
  function InitServerLog(s: LogState, g: Adjacency, logSegSize: u32): (LogState, Adjacency) {
    var sb := ReadBlock(s.device, 0);
    if !ChecksumMatches(sb) then (InitSuperblock(s.(superBlock := sb), logSegSize), g)
    else RecoverStatus(s.(superBlock := sb), g)
  }

  // ---------------------------------------------------------------------
  // Folds one step at a time
  // ---------------------------------------------------------------------

  lemma {:induction false} ExecuteAllAppend(g: Adjacency, a: seq<LogEntry>, b: seq<LogEntry>)
    ensures ExecuteAll(g, a + b) == ExecuteAll(ExecuteAll(g, a), b)
    decreases |b|
  {
    if b == [] {
      assert a + b == a;
    } else {
      assert (a + b)[..|a + b| - 1] == a + b[..|b| - 1];
      ExecuteAllAppend(g, a, b[..|b| - 1]);
    }
  }

  lemma {:induction false} ApplyRecordsAppend(g: Adjacency, a: seq<Edge>, b: seq<Edge>)
    ensures ApplyRecords(g, a + b) == ApplyRecords(ApplyRecords(g, a), b)
    decreases |b|
  {
    if b == [] {
      assert a + b == a;
    } else {
      assert (a + b)[..|a + b| - 1] == a + b[..|b| - 1];
      ApplyRecordsAppend(g, a, b[..|b| - 1]);
    }
  }

  lemma {:induction false} ExecuteAllSnoc(g: Adjacency, es: seq<LogEntry>, e: LogEntry)
    ensures ExecuteAll(g, es + [e]) == ExecuteEntry(ExecuteAll(g, es), e)
  {
    assert (es + [e])[..|es|] == es;
  }

  lemma {:induction false} ApplyRecordsSnoc(g: Adjacency, rs: seq<Edge>, r: Edge)
    ensures ApplyRecords(g, rs + [r]) == ApplyRecord(ApplyRecords(g, rs), r)
  {
    assert (rs + [r])[..|rs|] == rs;
  }

  lemma {:induction false} CkAddAllAppend(s: LogState, a: seq<Edge>, b: seq<Edge>)
    ensures CkAddAll(s, a + b) == CkAddAll(CkAddAll(s, a), b)
    decreases |b|
  {
    if b == [] {
      assert a + b == a;
    } else {
      assert (a + b)[..|a + b| - 1] == a + b[..|b| - 1];
      CkAddAllAppend(s, a, b[..|b| - 1]);
    }
  }

  lemma {:induction false} CkAddAllSnoc(s: LogState, rs: seq<Edge>, r: Edge)
    ensures CkAddAll(s, rs + [r]) == CkAddStep(CkAddAll(s, rs), r)
  {
    assert (rs + [r])[..|rs|] == rs;
  }

  lemma {:induction false} AppendAllSnoc(s: LogState, es: seq<LogEntry>, e: LogEntry)
    requires StagedOk(s)
    ensures AppendAll(s, es + [e]) == AppendStep(AppendAll(s, es), e)
  {
    assert (es + [e])[..|es|] == es;
  }

  /** The scan stops at the first block that is not valid: every block it
      passes validates, and the one it stops at below `size` does not. */
  lemma {:induction false} ScanEndIsFirstInvalid(d: Device, gen: u32, i: u32, size: u32)
    ensures var r := ScanEnd(d, gen, i, size);
      && (forall j: u32 :: i <= j < r ==> BlockValid(ReadBlock(d, j), gen))
      && (r < size ==> !BlockValid(ReadBlock(d, r), gen))
    decreases size - i
  {
    if i < size && BlockValid(ReadBlock(d, i), gen) {
      ScanEndIsFirstInvalid(d, gen, i + 1, size);
    }
  }
}
