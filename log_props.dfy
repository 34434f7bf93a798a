/** What the durable log guarantees, and where it falls short, stated over
    the transition functions of LogModel: the cursor bounds of appending,
    which blocks a replay reads, the generation stamping that retires a log
    at a checkpoint, the checkpoint round trip, and the log round trip. */
module LogProperties {
  import opened Types
  import opened Utility
  import opened Blocks
  import opened GraphStore
  import opened LogModel

  // ---------------------------------------------------------------------
  // init_superblock, format, init_server_log
  // ---------------------------------------------------------------------

  /** `init_superblock` writes a validating superblock of generation 0 with
      log_start 1, the given log size and no checkpoint, and points the
      cursor at block 1. */
  lemma {:induction false} InitSuperblockFacts(s: LogState, logSegSize: u32)
    ensures var r := InitSuperblock(s, logSegSize);
      && Generation(r) == 0 && LogStart(r) == 1 && LogSize(r) == logSegSize
      && SbCheckpointSize(r.superBlock) == 0
      && ChecksumMatches(r.superBlock) && ReadBlock(r.device, 0) == r.superBlock
      && r.blockOffset == 1
      && r.curBlock == s.curBlock && r.checkptBlock == s.checkptBlock
  {
    var b := WithSbLogSize(WithSbLogStart(ZeroBlock, 1), logSegSize);
    StampKeepsSuperFields(b);
    StampValidates(b);
  }

  /** `format` on a validating superblock starts the next generation with
      an empty log and no checkpoint; on any other it behaves as
      `init_superblock`. Either way the result validates. */
  lemma {:induction false} FormatFacts(s: LogState, logSegSize: u32)
    ensures var r := Format(s, logSegSize);
      var old_sb := ReadBlock(s.device, 0);
      && Generation(r) == (if ChecksumMatches(old_sb) then Inc32(SbGeneration(old_sb)) else 0)
      && LogStart(r) == 1 && LogSize(r) == logSegSize
      && SbCheckpointSize(r.superBlock) == 0
      && ChecksumMatches(r.superBlock) && ReadBlock(r.device, 0) == r.superBlock
      && r.blockOffset == 1
      && r.curBlock == s.curBlock && r.checkptBlock == s.checkptBlock
  {
    var sb := ReadBlock(s.device, 0);
    if ChecksumMatches(sb) {
      var b := WithSbLogSize(WithSbLogStart(WithSbGeneration(ZeroBlock, Inc32(SbGeneration(sb))), 1), logSegSize);
      StampKeepsSuperFields(b);
      StampValidates(b);
    } else {
      InitSuperblockFacts(s.(superBlock := sb), logSegSize);
    }
  }

  /** `init_server_log` on a device whose superblock does not validate
      initialises it and leaves the graph alone; on one that validates it
      adopts that superblock and recovers the checkpoint, then the log. */
  lemma {:induction false} InitServerLogFacts(s: LogState, g: Adjacency, logSegSize: u32)
    ensures var sb := ReadBlock(s.device, 0);
      var r := InitServerLog(s, g, logSegSize);
      && (!ChecksumMatches(sb) ==> r.1 == g && Generation(r.0) == 0 && ChecksumMatches(r.0.superBlock))
      && (ChecksumMatches(sb) ==>
            var c := RestoreCheckpoint(s.(superBlock := sb), g);
            r.0.superBlock == sb
            && r.1 == ExecuteAll(c.1, ReplayedEntries(c.0)))
  {
    var sb := ReadBlock(s.device, 0);
    if !ChecksumMatches(sb) {
      InitSuperblockFacts(s.(superBlock := sb), logSegSize);
    }
  }

  // ---------------------------------------------------------------------
  // add_log_entry: the cursor stays within the log region
  // ---------------------------------------------------------------------

  /** An append made while the log is not full leaves the cursor at most at
      `log_size`: the cursor bound is an invariant of the gated appends. */
  lemma {:induction false} AppendKeepsCursorBound(s: LogState, e: LogEntry)
    requires StagedOk(s) && !LogIsFull(s)
    ensures AppendStep(s, e).blockOffset <= LogSize(s)
  {
    AppendedBlockFacts(s, e);
  }

  /** The one append that reaches `log_size` starts a new block there: it
      writes the new entry into block `log_size`, the first block of the
      checkpoint region, where no replay reads it. */
  lemma {:induction false} CrossingAppend(s: LogState, e: LogEntry, g: Adjacency)
    requires StagedOk(s) && !LogIsFull(s)
    requires LogSize(s) < ADDRESSABLE_BLOCKS
    requires AppendStep(s, e).blockOffset == LogSize(s)
    ensures var r := AppendStep(s, e);
      && LbEntryCnt(s.curBlock) == LOG_ENTRIES_PER_BLOCK && s.blockOffset + 1 == LogSize(s)
      && ReadBlock(r.device, CkBlock(LogSize(s), 0)) == r.curBlock
      && LbEntries(r.curBlock) == [e]
      && PlayLog(r, g).1 == PlayLog(s, g).1
  {
    var r := AppendStep(s, e);
    AppendedBlockFacts(s, e);
    assert r == s.(device := WriteBlock(s.device, LogSize(s), r.curBlock), curBlock := r.curBlock, blockOffset := LogSize(s));
    WriteOutsideLogKeepsReplay(s, LogSize(s), r.curBlock, g);
    assert PlayLog(r, g).1 == PlayLog(s.(device := r.device), g).1;
  }

  /** A block written outside the log region changes nothing a replay
      sees. */
  lemma {:induction false} WriteOutsideLogKeepsReplay(s: LogState, o: u32, b: Block, g: Adjacency)
    requires LogSize(s) <= o < ADDRESSABLE_BLOCKS
    ensures var t := s.(device := WriteBlock(s.device, o, b));
      PlayLog(t, g).1 == PlayLog(s, g).1
  {
    var t := s.(device := WriteBlock(s.device, o, b));
    forall j: u32 | LogStart(s) <= j < LogSize(s)
      ensures ReadBlock(t.device, j) == ReadBlock(s.device, j)
    {
      assert Addr(j) != Addr(o);
    }
    ReplayReadsOnlyLogRegion(t, s, g);
  }

  // ---------------------------------------------------------------------
  // play_log: which blocks are read
  // ---------------------------------------------------------------------

  /** The scan depends only on the blocks up to and including the one it
      stops at. */
  lemma {:induction false} ScanAgrees(d1: Device, d2: Device, gen: u32, i: u32, size: u32)
    requires forall j: u32 :: i <= j < size && j <= ScanEnd(d1, gen, i, size) ==> ReadBlock(d1, j) == ReadBlock(d2, j)
    ensures ScanEnd(d1, gen, i, size) == ScanEnd(d2, gen, i, size)
    decreases size - i
  {
    if i < size {
      assert ReadBlock(d1, i) == ReadBlock(d2, i);
      if BlockValid(ReadBlock(d1, i), gen) {
        ScanAgrees(d1, d2, gen, i + 1, size);
      }
    }
  }

  /** The entries of a range of blocks depend only on those blocks. */
  lemma {:induction false} EntriesAgree(d1: Device, d2: Device, start: u32, end: u32)
    requires forall j: u32 :: start <= j < end ==> ReadBlock(d1, j) == ReadBlock(d2, j)
    ensures LogEntriesIn(d1, start, end) == LogEntriesIn(d2, start, end)
    decreases end - start
  {
    if start < end {
      var last: u32 := end - 1;
      assert ReadBlock(d1, last) == ReadBlock(d2, last);
      EntriesAgree(d1, d2, start, last);
      assert LogEntriesIn(d1, start, end) == LogEntriesIn(d1, start, last) + LbEntries(ReadBlock(d1, last));
    }
  }

  /** `play_log` reads nothing past the first block that fails to validate:
      two devices that agree on the log blocks up to and including that one
      are replayed alike, whatever any later block holds. */
  lemma {:induction false} ReplayStopsAtFirstInvalid(s1: LogState, s2: LogState, g: Adjacency)
    requires s1.superBlock == s2.superBlock
    requires var e := ScanEnd(s1.device, Generation(s1), LogStart(s1), LogSize(s1));
      forall j: u32 :: LogStart(s1) <= j < LogSize(s1) && j <= e ==> ReadBlock(s1.device, j) == ReadBlock(s2.device, j)
    ensures PlayLog(s1, g).1 == PlayLog(s2, g).1
    ensures PlayLog(s1, g).0.blockOffset == PlayLog(s2, g).0.blockOffset
  {
    var gen, start, size := Generation(s1), LogStart(s1), LogSize(s1);
    ScanAgrees(s1.device, s2.device, gen, start, size);
    var e := ScanEnd(s1.device, gen, start, size);
    EntriesAgree(s1.device, s2.device, start, e);
    if start < e {
      assert ReadBlock(s1.device, e - 1) == ReadBlock(s2.device, e - 1);
    }
  }

  /** In particular `play_log` reads only the log region. */
  lemma {:induction false} ReplayReadsOnlyLogRegion(s1: LogState, s2: LogState, g: Adjacency)
    requires s1.superBlock == s2.superBlock
    requires forall j: u32 :: LogStart(s1) <= j < LogSize(s1) ==> ReadBlock(s1.device, j) == ReadBlock(s2.device, j)
    ensures PlayLog(s1, g).1 == PlayLog(s2, g).1
    ensures PlayLog(s1, g).0.blockOffset == PlayLog(s2, g).0.blockOffset
  {
    ReplayStopsAtFirstInvalid(s1, s2, g);
  }

  /** A replayed entry redoes the operation it was appended for, whatever
      status that operation returns; an unknown opcode is skipped. */
  lemma {:induction false} ReplayRedoesOperation(g: Adjacency, op: Op, e: LogEntry)
    ensures ExecuteEntry(g, EncodeEntry(op)) == Apply(g, op).graph
    ensures e.opcode > OP_REMOVE_EDGE ==> ExecuteEntry(g, e) == g
  {
    DecodeEncode(op);
  }

  /** After a restart the cursor goes back to the last, partly filled block
      but the staged block is not read back: the next append rewrites that
      block with the staged block's entries (none, for a freshly constructed
      log) and the new one, and the entries the block held are lost. */
  lemma {:induction false} RestartOverwritesPartialBlock(s: LogState, g: Adjacency, e: LogEntry)
    requires LbEntryCnt(s.curBlock) < LOG_ENTRIES_PER_BLOCK
    requires var end := ScanEnd(s.device, Generation(s), LogStart(s), LogSize(s));
      0 < LastSize(s.device, LogStart(s), end) < LOG_ENTRIES_PER_BLOCK
    ensures var end := ScanEnd(s.device, Generation(s), LogStart(s), LogSize(s));
      var r := AppendStep(PlayLog(s, g).0, e);
      && end > LogStart(s)
      && |LbEntries(ReadBlock(s.device, end - 1))| == LastSize(s.device, LogStart(s), end)
      && r.blockOffset == end - 1
      && LbEntries(ReadBlock(r.device, end - 1)) == LbEntries(s.curBlock) + [e]
  {
    var p := PlayLog(s, g).0;
    AppendedBlockFacts(p, e);
  }

  // ---------------------------------------------------------------------
  // checkpoint
  // ---------------------------------------------------------------------

  /** Each checkpoint record moves the cursor on by at most one block. */
  lemma {:induction false} CkAddAllCursor(s: LogState, rs: seq<Edge>)
    requires s.blockOffset + |rs| < U32_MOD
    ensures s.blockOffset <= CkAddAll(s, rs).blockOffset <= s.blockOffset + |rs|
  {
    if rs != [] {
      CkAddAllCursor(s, rs[..|rs| - 1]);
    }
  }

  /** Writing checkpoint records leaves every block below the cursor alone. */
  lemma {:induction false} CkAddAllFrame(s: LogState, rs: seq<Edge>)
    requires s.blockOffset + |rs| < ADDRESSABLE_BLOCKS
    ensures forall o: u32 :: o < s.blockOffset ==> ReadBlock(CkAddAll(s, rs).device, o) == ReadBlock(s.device, o)
  {
    if rs != [] {
      var init := rs[..|rs| - 1];
      CkAddAllFrame(s, init);
      CkAddAllCursor(s, init);
    }
  }

  /** `checkpoint`'s commit: the checkpoint size recorded is the number of
      blocks from `log_size` to the cursor (at least one), the generation
      goes up by one, the superblock validates and is written to block 0,
      the cursor returns to `log_start`, and nothing else changes. */
  lemma {:induction false} CommitCheckpointFacts(s: LogState)
    ensures var c := CommitCheckpoint(s);
      && Generation(c) == Inc32(Generation(s)) && LogStart(c) == LogStart(s) && LogSize(c) == LogSize(s)
      && (1 <= LogSize(s) <= s.blockOffset ==> SbCheckpointSize(c.superBlock) == s.blockOffset - LogSize(s) + 1)
      && ChecksumMatches(c.superBlock) && ReadBlock(c.device, 0) == c.superBlock
      && c.blockOffset == LogStart(s)
      && c.curBlock == s.curBlock && c.checkptBlock == s.checkptBlock
      && (forall o: u32 :: Addr(o) != 0 ==> ReadBlock(c.device, o) == ReadBlock(s.device, o))
  {
    var size := CheckpointSize(s.blockOffset, LogSize(s));
    var b := WithSbGeneration(WithSbCheckpointSize(s.superBlock, size), Inc32(Generation(s)));
    StampKeepsSuperFields(b);
    StampValidates(b);
  }

  /** A whole `checkpoint`: between 1 and one more than the number of records
      blocks are recorded (exactly 1 for an empty graph), and the commit
      facts hold. */
  lemma {:induction false} CheckpointFacts(s: LogState, records: seq<Edge>)
    requires 1 <= LogSize(s) && LogSize(s) + |records| < U32_MOD
    ensures var c := Checkpoint(s, records);
      && 1 <= SbCheckpointSize(c.superBlock) <= |records| + 1
      && (records == [] ==> SbCheckpointSize(c.superBlock) == 1)
      && Generation(c) == Inc32(Generation(s)) && LogStart(c) == LogStart(s) && LogSize(c) == LogSize(s)
      && ChecksumMatches(c.superBlock) && ReadBlock(c.device, 0) == c.superBlock
      && c.blockOffset == LogStart(s) && c.curBlock == s.curBlock
  {
    var a := CkAddAll(s.(blockOffset := LogSize(s)), records);
    CkAddAllCursor(s.(blockOffset := LogSize(s)), records);
    CommitCheckpointFacts(a);
  }

  /** The generation bump retires every block of the old generation. */
  lemma {:induction false} CommitRetiresGeneration(s: LogState, b: Block)
    requires LbGeneration(b) == Generation(s)
    ensures !BlockValid(b, Generation(CommitCheckpoint(s)))
  {
    CommitCheckpointFacts(s);
  }

  /** Right after a checkpoint no log entry is replayed, unless block
      `log_start` already carries the generation the checkpoint starts. */
  lemma {:induction false} CheckpointRetiresLog(s: LogState, records: seq<Edge>, g: Adjacency)
    requires 1 <= LogStart(s) && LogSize(s) + |records| < ADDRESSABLE_BLOCKS
    requires LbGeneration(ReadBlock(s.device, LogStart(s))) != Inc32(Generation(s))
    ensures ReplayedEntries(Checkpoint(s, records)) == []
    ensures PlayLog(Checkpoint(s, records), g).1 == g
  {
    var a := CkAddAll(s.(blockOffset := LogSize(s)), records);
    CommitCheckpointFacts(a);
    var c := Checkpoint(s, records);
    if LogStart(s) < LogSize(s) {
      CkAddAllFrame(s.(blockOffset := LogSize(s)), records);
      assert ReadBlock(c.device, LogStart(s)) == ReadBlock(s.device, LogStart(s));
    }
  }

  /** `checkpoint` leaves the staged log block as it was. If it still has
      room, the first append after the checkpoint writes its stale entries,
      followed by the new one, under the new generation into block
      `log_start`; if it is full, block `log_start` is skipped. */
  lemma {:induction false} AppendAfterCheckpoint(s: LogState, records: seq<Edge>, e: LogEntry)
    requires StagedOk(s)
    requires 1 <= LogStart(s) < LogSize(s) < ADDRESSABLE_BLOCKS && LogSize(s) + |records| < U32_MOD
    ensures var c := Checkpoint(s, records);
      var r := AppendStep(c, e);
      && (LbEntryCnt(s.curBlock) < LOG_ENTRIES_PER_BLOCK ==>
            && r.blockOffset == LogStart(s)
            && LbEntries(r.curBlock) == LbEntries(s.curBlock) + [e]
            && BlockValid(r.curBlock, Inc32(Generation(s)))
            && ReadBlock(r.device, LogStart(s)) == r.curBlock)
      && (LbEntryCnt(s.curBlock) == LOG_ENTRIES_PER_BLOCK ==>
            && r.blockOffset == LogStart(s) + 1
            && LbEntries(r.curBlock) == [e]
            && ReadBlock(r.device, LogStart(s)) == ReadBlock(c.device, LogStart(s)))
  {
    CheckpointFacts(s, records);
    var c := Checkpoint(s, records);
    AppendedBlockFacts(c, e);
  }

  // ---------------------------------------------------------------------
  // The log round trip
  // ---------------------------------------------------------------------

  /** A log ready to take its first entry: the cursor at `log_start` (past
      the superblock), an empty staged block, a region the 32-bit offsets
      reach without wrapping, and no block of the region valid under the
      current generation. */
  ghost predicate FreshLog(s: LogState) {
    && 1 <= LogStart(s) && s.blockOffset == LogStart(s)
    && LbEntryCnt(s.curBlock) == 0
    && LogSize(s) <= ADDRESSABLE_BLOCKS
    && (forall j: u32 :: LogStart(s) <= j < LogSize(s) ==> !BlockValid(ReadBlock(s.device, j), Generation(s)))
  }

  /** How many entries the log region holds. */
  function Capacity(s: LogState): int {
    (LogSize(s) - LogStart(s)) * LOG_ENTRIES_PER_BLOCK
  }

  /** What appending `es` to the fresh log `s` has left in `p`: the blocks
      from `log_start` up to the cursor are valid and hold `es` in order, the
      last of them being the staged block, and every other block is as in
      `s`. */
  ghost predicate Holds(s: LogState, p: LogState, es: seq<LogEntry>) {
    && StagedOk(p) && p.superBlock == s.superBlock
    && LogStart(s) <= p.blockOffset < LogSize(s)
    && |es| == (p.blockOffset - LogStart(s)) * LOG_ENTRIES_PER_BLOCK + LbEntryCnt(p.curBlock)
    && LogEntriesIn(p.device, LogStart(s), p.blockOffset) + LbEntries(p.curBlock) == es
    && (forall j: u32 :: LogStart(s) <= j < p.blockOffset ==> BlockValid(ReadBlock(p.device, j), Generation(s)))
    && (es != [] ==> && 1 <= LbEntryCnt(p.curBlock)
                      && ReadBlock(p.device, p.blockOffset) == p.curBlock
                      && BlockValid(p.curBlock, Generation(s)))
    && (forall j: u32 :: (j < LogStart(s) || p.blockOffset < j < LogSize(s)) ==> ReadBlock(p.device, j) == ReadBlock(s.device, j))
  }

  /** One more append keeps `Holds`, as long as the region has room. */
  lemma {:induction false} HoldsStep(s: LogState, p: LogState, es: seq<LogEntry>, e: LogEntry)
    requires Holds(s, p, es) && LogSize(s) <= ADDRESSABLE_BLOCKS && |es| < Capacity(s)
    ensures Holds(s, AppendStep(p, e), es + [e])
  {
    if LbEntryCnt(p.curBlock) < LOG_ENTRIES_PER_BLOCK {
      HoldsStepRoom(s, p, es, e);
    } else {
      HoldsStepFull(s, p, es, e);
    }
  }

  /** A staged block with room takes the entry in place. */
  lemma {:induction false} HoldsStepRoom(s: LogState, p: LogState, es: seq<LogEntry>, e: LogEntry)
    requires Holds(s, p, es) && LogSize(s) <= ADDRESSABLE_BLOCKS
    requires LbEntryCnt(p.curBlock) < LOG_ENTRIES_PER_BLOCK
    ensures Holds(s, AppendStep(p, e), es + [e])
  {
    var r := AppendStep(p, e);
    var start, bo := LogStart(s), p.blockOffset;
    AppendedBlockFacts(p, e);
    assert r.blockOffset == bo;
    forall j: u32 | start <= j < bo
      ensures ReadBlock(r.device, j) == ReadBlock(p.device, j)
    {
      assert Addr(j) != Addr(bo);
    }
    EntriesAgree(r.device, p.device, start, bo);
    assert LogEntriesIn(r.device, start, bo) + LbEntries(r.curBlock) == es + [e];
  }

  /** A full staged block stays on the device and the entry starts the
      next block, which the region still has. */
  lemma {:induction false} HoldsStepFull(s: LogState, p: LogState, es: seq<LogEntry>, e: LogEntry)
    requires Holds(s, p, es) && LogSize(s) <= ADDRESSABLE_BLOCKS && |es| < Capacity(s)
    requires LbEntryCnt(p.curBlock) == LOG_ENTRIES_PER_BLOCK
    ensures Holds(s, AppendStep(p, e), es + [e])
  {
    var r := AppendStep(p, e);
    var start, bo := LogStart(s), p.blockOffset;
    AppendedBlockFacts(p, e);
    assert es != [];
    var nb: u32 := bo + 1;
    assert r.blockOffset == nb && nb < LogSize(s);
    forall j: u32 | start <= j < nb
      ensures ReadBlock(r.device, j) == ReadBlock(p.device, j)
    {
      assert Addr(j) != Addr(nb);
    }
    EntriesAgree(r.device, p.device, start, nb);
    assert LogEntriesIn(p.device, start, nb) == LogEntriesIn(p.device, start, bo) + LbEntries(p.curBlock);
    assert LbEntries(r.curBlock) == [e];
  }

  /** Appending to a fresh log with room establishes `Holds`. */
  lemma {:induction false} AppendAllHolds(s: LogState, es: seq<LogEntry>)
    requires FreshLog(s) && LogStart(s) < LogSize(s) && |es| <= Capacity(s)
    ensures StagedOk(s) && Holds(s, AppendAll(s, es), es)
  {
    if es == [] {
      HoldsStart(s);
    } else {
      var init, e := es[..|es| - 1], es[|es| - 1];
      assert es == init + [e];
      AppendAllSnoc(s, init, e);
      AppendAllHolds(s, init);
      HoldsStep(s, AppendAll(s, init), init, e);
    }
  }

  /** A fresh log holds no entries. */
  lemma {:induction false} HoldsStart(s: LogState)
    requires FreshLog(s) && LogStart(s) < LogSize(s)
    ensures Holds(s, s, [])
  {
    assert LbEntries(s.curBlock) == [];
    assert LogEntriesIn(s.device, LogStart(s), s.blockOffset) == [];
  }

  /** The scan stops at `e` when every block before it is valid and `e`
      is not, or is the end of the region. */
  lemma {:induction false} ScanEndAt(d: Device, gen: u32, i: u32, e: u32, size: u32)
    requires i <= e <= size
    requires forall j: u32 :: i <= j < e ==> BlockValid(ReadBlock(d, j), gen)
    requires e < size ==> !BlockValid(ReadBlock(d, e), gen)
    ensures ScanEnd(d, gen, i, size) == e
    decreases e - i
  {
    if i < e {
      ScanEndAt(d, gen, i + 1, e, size);
    }
  }

  /** The log round trip: the entries appended to a fresh log are exactly
      the entries `play_log` executes, in order, and the replay leaves the
      cursor where the next append of the live log writes. */
  lemma {:induction false} AppendedEntriesReplay(s: LogState, es: seq<LogEntry>, g: Adjacency)
    requires FreshLog(s) && |es| <= Capacity(s)
    ensures StagedOk(s)
    ensures var a := AppendAll(s, es);
      && ReplayedEntries(a) == es
      && PlayLog(a, g).1 == ExecuteAll(g, es)
      && PlayLog(a, g).0 == a.(blockOffset := if LbEntryCnt(a.curBlock) == LOG_ENTRIES_PER_BLOCK then Inc32(a.blockOffset) else a.blockOffset)
  {
    if es == [] {
      assert AppendAll(s, es) == s;
      FreshLogReplay(s, g);
    } else {
      AppendAllHolds(s, es);
      HoldsPlayLog(s, AppendAll(s, es), es, g);
    }
  }

  /** A fresh log replays nothing and resumes at `log_start`. */
  lemma {:induction false} FreshLogReplay(s: LogState, g: Adjacency)
    requires FreshLog(s)
    ensures ReplayedEntries(s) == [] && PlayLog(s, g).1 == g && PlayLog(s, g).0 == s
  {
    var start, size, gen := LogStart(s), LogSize(s), Generation(s);
    if start < size {
      ScanEndAt(s.device, gen, start, start, size);
    }
  }

  /** `play_log` on a log that `Holds` its entries executes them and resumes
      at the cursor block, or after it once it is full. */
  lemma {:induction false} HoldsPlayLog(s: LogState, p: LogState, es: seq<LogEntry>, g: Adjacency)
    requires FreshLog(s) && Holds(s, p, es) && es != []
    ensures ReplayedEntries(p) == es
    ensures PlayLog(p, g).1 == ExecuteAll(g, es)
    ensures PlayLog(p, g).0 == p.(blockOffset := if LbEntryCnt(p.curBlock) == LOG_ENTRIES_PER_BLOCK then Inc32(p.blockOffset) else p.blockOffset)
  {
    HoldsReplay(s, p, es);
  }

  /** The replay of a log that `Holds` its entries: the scan stops right
      after the cursor block, which it takes as the last one. */
  lemma {:induction false} HoldsReplay(s: LogState, p: LogState, es: seq<LogEntry>)
    requires FreshLog(s) && Holds(s, p, es) && es != []
    ensures p.blockOffset < U32_MOD - 1
    ensures ScanEnd(p.device, Generation(p), LogStart(p), LogSize(p)) == p.blockOffset + 1
    ensures ReplayedEntries(p) == es
    ensures LastSize(p.device, LogStart(p), p.blockOffset + 1) == LbEntryCnt(p.curBlock)
    ensures 1 <= LbEntryCnt(p.curBlock) <= LOG_ENTRIES_PER_BLOCK
  {
    var start, size, gen := LogStart(s), LogSize(s), Generation(s);
    var bo := p.blockOffset;
    var e: u32 := bo + 1;
    if e < size {
      assert ReadBlock(p.device, e) == ReadBlock(s.device, e);
    }
    ScanEndAt(p.device, gen, start, e, size);
    assert LogEntriesIn(p.device, start, e) == LogEntriesIn(p.device, start, bo) + LbEntries(p.curBlock);
  }

  /** Restarting on the device those appends left: `init_server_log`, from a
      superblock that records no checkpoint, executes exactly the appended
      entries on the graph it starts from. */
  lemma {:induction false} RestartReplaysAppends(s: LogState, es: seq<LogEntry>, t: LogState, g: Adjacency,
                                                  logSegSize: u32)
    requires FreshLog(s) && |es| <= Capacity(s)
    requires ReadBlock(s.device, 0) == s.superBlock && ChecksumMatches(s.superBlock)
    requires SbCheckpointSize(s.superBlock) == 0
    requires StagedOk(s) && t.device == AppendAll(s, es).device
    ensures InitServerLog(t, g, logSegSize).1 == ExecuteAll(g, es)
  {
    var a := AppendAll(s, es);
    AppendedEntriesReplay(s, es, g);
    if es != [] {
      AppendAllHolds(s, es);
    }
    assert ReadBlock(a.device, 0) == s.superBlock;
    var u := t.(superBlock := s.superBlock);
    assert ReplayedEntries(u) == ReplayedEntries(a);
  }
}
