/** `server_log` of log.hpp and log.cpp: the three in-memory block buffers
    are arrays updated word by word, the device is the map of blocks the
    buffers are copied to and from, and every operation is proved to perform
    the transition of the same name in LogModel. */
module DurableLog {
  import opened Types
  import opened Utility
  import opened Blocks
  import opened GraphStore
  import LogModel

  /** `compute_checksum` followed by the store into the checksum word. */
  method StampBlock(a: array<u64>)
    requires a.Length == WORDS_PER_BLOCK
    modifies a
    ensures a[..] == Stamp(old(a[..]))
  {
    var c := ComputeChecksumXor(a);
    a[0] := c;
  }

  /** The field stores of the block structs, one word each. */
  method SetSbGeneration(a: array<u64>, gen: u32)
    requires a.Length == WORDS_PER_BLOCK
    modifies a
    ensures a[..] == WithSbGeneration(old(a[..]), gen)
  {
    a[1] := SetLo(a[1], gen);
  }

  method SetSbLogStart(a: array<u64>, start: u32)
    requires a.Length == WORDS_PER_BLOCK
    modifies a
    ensures a[..] == WithSbLogStart(old(a[..]), start)
  {
    a[1] := SetHi(a[1], start);
  }

  method SetSbLogSize(a: array<u64>, size: u32)
    requires a.Length == WORDS_PER_BLOCK
    modifies a
    ensures a[..] == WithSbLogSize(old(a[..]), size)
  {
    a[2] := SetLo(a[2], size);
  }

  method SetSbCheckpointSize(a: array<u64>, size: u32)
    requires a.Length == WORDS_PER_BLOCK
    modifies a
    ensures a[..] == WithSbCheckpointSize(old(a[..]), size)
  {
    a[2] := SetHi(a[2], size);
  }

  /** `generation_num` and `entry_cnt` share word 1 of a log block. */
  method SetLbGeneration(a: array<u64>, gen: u32)
    requires a.Length == WORDS_PER_BLOCK
    modifies a
    ensures a[..] == WithLbGeneration(old(a[..]), gen)
  {
    a[1] := SetLo(a[1], gen);
  }

  method SetLbEntryCnt(a: array<u64>, cnt: u32)
    requires a.Length == WORDS_PER_BLOCK
    modifies a
    ensures a[..] == WithLbEntryCnt(old(a[..]), cnt)
  {
    a[1] := SetHi(a[1], cnt);
  }

  method SetLbEntry(a: array<u64>, k: nat, e: LogEntry)
    requires a.Length == WORDS_PER_BLOCK && k < LOG_ENTRIES_PER_BLOCK
    modifies a
    ensures a[..] == WithLbEntry(old(a[..]), k, e)
  {
    var w := EntryWord(k);
    a[w] := e.opcode;
    a[w + 1] := e.node1;
    a[w + 2] := e.node2;
  }

  method SetCkEdge(a: array<u64>, k: nat, e: Edge)
    requires a.Length == WORDS_PER_BLOCK && k < EDGES_PER_BLOCK
    modifies a
    ensures a[..] == WithCkEdge(old(a[..]), k, e)
  {
    var w := EdgeWord(k);
    a[w] := e.node1;
    a[w + 1] := e.node2;
  }

  method SetCkEntryCnt(a: array<u64>, cnt: u32)
    requires a.Length == WORDS_PER_BLOCK
    modifies a
    ensures a[..] == WithCkEntryCnt(old(a[..]), cnt)
  {
    a[0] := SetLo(a[0], cnt);
  }

  /** The superblock `init_superblock` builds, in place. */
  method BuildInitialSuperblock(a: array<u64>, segSize: u32)
    requires a.Length == WORDS_PER_BLOCK
    modifies a
    ensures a[..] == LogModel.InitialSuperblock(segSize)
  {
    ClearBlock(a);
    SetSbLogStart(a, 1);
    SetSbLogSize(a, segSize);
    StampBlock(a);
  }

  /** The superblock `format` builds over one of generation `gen`, in place. */
  method BuildFormattedSuperblock(a: array<u64>, gen: u32, segSize: u32)
    requires a.Length == WORDS_PER_BLOCK
    modifies a
    ensures a[..] == LogModel.FormattedSuperblock(gen, segSize)
  {
    ClearBlock(a);
    SetSbGeneration(a, Inc32(gen));
    SetSbLogStart(a, 1);
    SetSbLogSize(a, segSize);
    StampBlock(a);
  }

  /** The staging half of `add_log_entry`, in place. */
  method StageLogEntry(a: array<u64>, gen: u32, e: LogEntry)
    requires a.Length == WORDS_PER_BLOCK && LbEntryCnt(a[..]) <= LOG_ENTRIES_PER_BLOCK
    modifies a
    ensures a[..] == LogModel.LbNextBlock(old(a[..]), gen, e)
  {
    if Hi(a[1]) == LOG_ENTRIES_PER_BLOCK {
      ClearBlock(a);
    }
    SetLbGeneration(a, gen);
    var cnt := Hi(a[1]);
    SetLbEntry(a, cnt, e);
    SetLbEntryCnt(a, cnt + 1);
    StampBlock(a);
  }

  /** The staging half of `add_checkpt_entry`, in place. */
  method StageCheckptEntry(a: array<u64>, r: Edge)
    requires a.Length == WORDS_PER_BLOCK
    modifies a
    ensures a[..] == LogModel.CkNextBlock(old(a[..]), r)
  {
    if Lo(a[0]) == EDGES_PER_BLOCK {
      ClearBlock(a);
    }
    var cnt := Lo(a[0]);
    if cnt < EDGES_PER_BLOCK {
      SetCkEdge(a, cnt, r);
    }
    SetCkEntryCnt(a, Inc32(cnt));
  }

  class ServerLog {
    /** The log device the buffers are copied to and from. */
    var device: LogModel.Device
    const superBlock: array<u64>
    const curBlock: array<u64>
    const checkptBlock: array<u64>
    var blockOffset: u32
    /** The graph `bind_graph` attached. */
    const graph: Graph
    /** The number of blocks a fresh superblock gives the log segment
        (`LOG_SEG_SIZE`, a compile-time constant in the source). */
    const logSegSize: u32

    ghost predicate Valid()
      reads this, superBlock, curBlock, checkptBlock
    {
      && superBlock.Length == WORDS_PER_BLOCK
      && curBlock.Length == WORDS_PER_BLOCK
      && checkptBlock.Length == WORDS_PER_BLOCK
      && superBlock != curBlock && superBlock != checkptBlock && curBlock != checkptBlock
      && LbEntryCnt(curBlock[..]) <= LOG_ENTRIES_PER_BLOCK
    }

    /** The buffers, the device and the cursor as a LogModel state. */
    ghost function State(): (s: LogModel.LogState)
      requires Valid()
      reads this, superBlock, curBlock, checkptBlock
      ensures LogModel.StagedOk(s)
    {
      LogModel.LogState(device, superBlock[..], curBlock[..], checkptBlock[..], blockOffset)
    }

    /** A log with cleared buffers, bound to `graph` and attached to
        `device`. The source leaves `block_offset` uninitialised until the
        first `format`, `init_server_log` or `init_superblock`; here it is 0. */
    constructor(graph: Graph, device: LogModel.Device, logSegSize: u32)
      ensures Valid() && this.graph == graph && this.logSegSize == logSegSize
      ensures State() == LogModel.LogState(device, ZeroBlock, ZeroBlock, ZeroBlock, 0)
      ensures fresh(superBlock) && fresh(curBlock) && fresh(checkptBlock)
    {
      this.graph := graph;
      this.device := device;
      this.logSegSize := logSegSize;
      superBlock := new u64[WORDS_PER_BLOCK](_ => 0);
      curBlock := new u64[WORDS_PER_BLOCK](_ => 0);
      checkptBlock := new u64[WORDS_PER_BLOCK](_ => 0);
      blockOffset := 0;
      new;
      assert superBlock[..] == ZeroBlock && curBlock[..] == ZeroBlock && checkptBlock[..] == ZeroBlock;
      ZeroBlockEntries();
    }

    /** `read_in_*_block`: copy the block at `offset` into `buf`. */
    method ReadIn(buf: array<u64>, offset: u32)
      requires buf.Length == WORDS_PER_BLOCK
      modifies buf
      ensures buf[..] == LogModel.ReadBlock(device, offset)
    {
      var b := LogModel.ReadBlock(device, offset);
      forall i | 0 <= i < WORDS_PER_BLOCK {
        buf[i] := b[i];
      }
      assert buf[..] == b;
    }

    /** `write_*_block`: copy `buf` onto the device at `offset`. */
    method WriteOut(buf: array<u64>, offset: u32)
      requires buf.Length == WORDS_PER_BLOCK
      modifies this
      ensures device == LogModel.WriteBlock(old(device), offset, buf[..])
      ensures blockOffset == old(blockOffset)
    {
      device := LogModel.WriteBlock(device, offset, buf[..]);
    }

    /** `init_superblock` */
    method InitSuperblock()
      requires Valid()
      modifies this, superBlock
      ensures Valid() && State() == LogModel.InitSuperblock(old(State()), logSegSize)
    {
      BuildInitialSuperblock(superBlock, logSegSize);
      blockOffset := 1;
      WriteOut(superBlock, 0);
    }

    /** `format` */
    method Format()
      requires Valid()
      modifies this, superBlock
      ensures Valid() && State() == LogModel.Format(old(State()), logSegSize)
    {
      ReadIn(superBlock, 0);
      var c := ComputeChecksumXor(superBlock);
      if superBlock[0] != c {
        InitSuperblock();
        return;
      }
      var oldGeneration := Lo(superBlock[1]);
      BuildFormattedSuperblock(superBlock, oldGeneration, logSegSize);
      blockOffset := 1;
      WriteOut(superBlock, 0);
    }

    /** `add_log_entry` */
    method AddLogEntry(opcode: u32, node1: u64, node2: u64)
      requires Valid()
      modifies this, curBlock
      ensures Valid() && State() == LogModel.AppendStep(old(State()), LogEntry(opcode, node1, node2))
    {
      if Hi(curBlock[1]) == LOG_ENTRIES_PER_BLOCK {
        blockOffset := Inc32(blockOffset);
      }
      StageLogEntry(curBlock, Lo(superBlock[1]), LogEntry(opcode, node1, node2));
      WriteOut(curBlock, blockOffset);
    }

    /** `add_checkpt_entry` */
    method AddCheckptEntry(node1: u64, node2: u64)
      requires Valid()
      modifies this, checkptBlock
      ensures Valid() && State() == LogModel.CkAddStep(old(State()), Edge(node1, node2))
    {
      if Lo(checkptBlock[0]) == EDGES_PER_BLOCK {
        blockOffset := Inc32(blockOffset);
      }
      StageCheckptEntry(checkptBlock, Edge(node1, node2));
      WriteOut(checkptBlock, blockOffset);
    }

    /** `execute_log_entry`: run the operation the opcode names on the
        graph and drop its status. */
    method ExecuteLogEntry(entry: LogEntry)
      modifies graph
      ensures graph.g == LogModel.ExecuteEntry(old(graph.g), entry)
    {
      var status;
      if entry.opcode == OP_ADD_NODE {
        status := graph.Mutate(AddNodeOp(entry.node1));
      } else if entry.opcode == OP_ADD_EDGE {
        status := graph.Mutate(AddEdgeOp(entry.node1, entry.node2));
      } else if entry.opcode == OP_REMOVE_NODE {
        status := graph.Mutate(RemoveNodeOp(entry.node1));
      } else if entry.opcode == OP_REMOVE_EDGE {
        status := graph.Mutate(RemoveEdgeOp(entry.node1, entry.node2));
      }
    }

    /** Execute the entries of a valid log block held in `lb`. */
    method ExecuteBlock(lb: array<u64>)
      requires lb.Length == WORDS_PER_BLOCK
      modifies graph
      ensures graph.g == LogModel.ExecuteAll(old(graph.g), LbEntries(lb[..]))
    {
      ghost var g0 := graph.g;
      var cnt := Min(Hi(lb[1]), LOG_ENTRIES_PER_BLOCK);
      var k := 0;
      while k < cnt
        invariant 0 <= k <= cnt
        invariant graph.g == LogModel.ExecuteAll(g0, LbEntries(lb[..])[..k])
      {
        var w := EntryWord(k);
        var entry := LogEntry(Lo(lb[w]), lb[w + 1], lb[w + 2]);
        assert LbEntries(lb[..])[..k + 1] == LbEntries(lb[..])[..k] + [entry];
        LogModel.ExecuteAllSnoc(g0, LbEntries(lb[..])[..k], entry);
        ExecuteLogEntry(entry);
        k := k + 1;
      }
      assert LbEntries(lb[..])[..k] == LbEntries(lb[..]);
    }

    /** The scan of `play_log`: execute the blocks from `logStart` on while
        they validate against `generation`, and report where the scan
        stopped and the entry count of the last block it accepted. */
    method ScanLog(logStart: u32, logSize: u32, generation: u32) returns (i: u32, lastSize: u32)
      modifies graph
      ensures i == LogModel.ScanEnd(device, generation, logStart, logSize)
      ensures lastSize == LogModel.LastSize(device, logStart, i)
      ensures graph.g == LogModel.ExecuteAll(old(graph.g), LogModel.LogEntriesIn(device, logStart, i))
    {
      ghost var g0 := graph.g;
      var lb := new u64[WORDS_PER_BLOCK];
      i, lastSize := logStart, 0;
      ghost var done: seq<LogEntry> := [];
      while i < logSize
        invariant logStart <= i && (i <= logSize || i == logStart)
        invariant LogModel.ScanEnd(device, generation, logStart, logSize) == LogModel.ScanEnd(device, generation, i, logSize)
        invariant done == LogModel.LogEntriesIn(device, logStart, i)
        invariant graph.g == LogModel.ExecuteAll(g0, done)
        invariant lastSize == LogModel.LastSize(device, logStart, i)
      {
        var valid := ReadLogBlock(lb, i, generation);
        if !valid {
          break;
        }
        LogModel.ScanStep(device, generation, logStart, i, logSize);
        lastSize := Hi(lb[1]);
        ExecuteBlock(lb);
        LogModel.ExecuteAllAppend(g0, done, LbEntries(lb[..]));
        done := done + LbEntries(lb[..]);
        i := i + 1;
      }
    }

    /** Read log block `offset` into `lb` and check its checksum and
        generation. */
    method ReadLogBlock(lb: array<u64>, offset: u32, generation: u32) returns (valid: bool)
      requires lb.Length == WORDS_PER_BLOCK
      modifies lb
      ensures lb[..] == LogModel.ReadBlock(device, offset)
      ensures valid == LogModel.BlockValid(lb[..], generation)
    {
      ReadIn(lb, offset);
      var c := ComputeChecksumXor(lb);
      valid := lb[0] == c && Lo(lb[1]) == generation;
    }

    /** `play_log` */
    method PlayLog()
      requires Valid()
      modifies this, graph
      ensures Valid()
      ensures (State(), graph.g) == LogModel.PlayLog(old(State()), old(graph.g))
    {
      ghost var s0, g0 := State(), graph.g;
      var i, lastSize := ScanLog(Hi(superBlock[1]), Lo(superBlock[2]), Lo(superBlock[1]));
      ghost var replayed := LogModel.ExecuteAll(g0, LogModel.ReplayedEntries(s0));
      assert graph.g == replayed;
      blockOffset := i;
      if lastSize < LOG_ENTRIES_PER_BLOCK && lastSize > 0 {
        blockOffset := blockOffset - 1;
      }
      assert State() == LogModel.PlayLog(s0, g0).0;
    }

    /** The records of the checkpoint block held in `checkptBlock`, applied
        to the graph as `recover_from_checkpoint` does. */
    method RestoreBlock()
      requires Valid()
      modifies graph
      ensures graph.g == LogModel.ApplyRecords(old(graph.g), CkRecords(checkptBlock[..]))
      ensures checkptBlock[..] == old(checkptBlock[..])
    {
      ghost var g0 := graph.g;
      var cnt := Min(Lo(checkptBlock[0]), EDGES_PER_BLOCK);
      var k := 0;
      while k < cnt
        invariant 0 <= k <= cnt
        invariant graph.g == LogModel.ApplyRecords(g0, CkRecords(checkptBlock[..])[..k])
      {
        var w := EdgeWord(k);
        var node1, node2 := checkptBlock[w], checkptBlock[w + 1];
        assert CkRecords(checkptBlock[..])[..k + 1] == CkRecords(checkptBlock[..])[..k] + [Edge(node1, node2)];
        LogModel.ApplyRecordsSnoc(g0, CkRecords(checkptBlock[..])[..k], Edge(node1, node2));
        if node1 == node2 {
          // a node record
          graph.g := graph.g[node1 := {}];
        } else {
          graph.g := graph.g[node1 := LogModel.Neighbours(graph.g, node1) + {node2}];
          graph.g := graph.g[node2 := LogModel.Neighbours(graph.g, node2) + {node1}];
        }
        k := k + 1;
      }
      assert CkRecords(checkptBlock[..])[..k] == CkRecords(checkptBlock[..]);
    }

    /** One block of `recover_from_checkpoint`: read it into
        `checkpt_block` and apply its records. */
    method RestoreBlockAt(offset: u32)
      requires Valid()
      modifies checkptBlock, graph
      ensures Valid()
      ensures checkptBlock[..] == LogModel.ReadBlock(device, offset)
      ensures graph.g == LogModel.ApplyRecords(old(graph.g), CkRecords(checkptBlock[..]))
    {
      ReadIn(checkptBlock, offset);
      RestoreBlock();
    }

    /** The loop of `recover_from_checkpoint`: read the first `count`
        blocks from `log_size` on into `checkpt_block` and apply each one's
        records. */
    method RestoreRegion(count: u32)
      requires Valid() && count > 0
      modifies checkptBlock, graph
      ensures Valid()
      ensures checkptBlock[..] == LogModel.ReadBlock(device, LogModel.CkBlock(SbLogSize(superBlock[..]), count - 1))
      ensures graph.g == LogModel.ApplyRecords(old(graph.g), LogModel.CkRegion(device, SbLogSize(superBlock[..]), count))
    {
      ghost var g0 := graph.g;
      var logSize := Lo(superBlock[2]);
      var i: u32 := 0;
      ghost var done: seq<Edge> := [];
      ghost var last: u32 := 0;
      while i < count
        invariant 0 <= i <= count
        invariant Valid()
        invariant done == LogModel.CkRegion(device, logSize, i)
        invariant graph.g == LogModel.ApplyRecords(g0, done)
        invariant i > 0 ==> last == LogModel.CkBlock(logSize, i - 1)
        invariant i > 0 ==> checkptBlock[..] == LogModel.ReadBlock(device, last)
      {
        var offset := LogModel.CkBlock(logSize, i);
        RestoreBlockAt(offset);
        last := offset;
        ghost var recs := CkRecords(checkptBlock[..]);
        LogModel.ApplyRecordsAppend(g0, done, recs);
        done := done + recs;
        i := i + 1;
      }
    }

    /** `recover_from_checkpoint` */
    method RecoverFromCheckpoint()
      requires Valid()
      modifies checkptBlock, graph
      ensures Valid()
      ensures (State(), graph.g) == LogModel.RestoreCheckpoint(old(State()), old(graph.g))
    {
      var count := Hi(superBlock[2]);
      if count == 0 {
        return;
      }
      RestoreRegion(count);
    }

    /** `recover_status` */
    method RecoverStatus()
      requires Valid()
      modifies this, checkptBlock, graph
      ensures Valid()
      ensures (State(), graph.g) == LogModel.RecoverStatus(old(State()), old(graph.g))
    {
      RecoverFromCheckpoint();
      PlayLog();
    }

    /** `init_server_log` */
    method InitServerLog()
      requires Valid()
      modifies this, superBlock, checkptBlock, graph
      ensures Valid()
      ensures (State(), graph.g) == LogModel.InitServerLog(old(State()), old(graph.g), logSegSize)
    {
      ReadIn(superBlock, 0);
      var c := ComputeChecksumXor(superBlock);
      if superBlock[0] != c {
        InitSuperblock();
      } else {
        RecoverStatus();
      }
    }

    /** The first pass of `checkpoint`: one `(n, n)` record per node. The
        hash map's iteration order is not modelled; the nodes are visited in
        some order, returned as `order`. */
    method CheckpointNodes() returns (order: seq<u64>)
      requires Valid()
      modifies this, checkptBlock
      ensures Valid() && Lists(order, graph.g.Keys)
      ensures State() == LogModel.CkAddAll(old(State()), LogModel.NodeRecords(order))
    {
      ghost var s0 := State();
      var rest := graph.g.Keys;
      order := [];
      while rest != {}
        invariant Valid()
        invariant rest <= graph.g.Keys
        invariant Lists(order, graph.g.Keys - rest)
        invariant State() == LogModel.CkAddAll(s0, LogModel.NodeRecords(order))
        decreases |rest|
      {
        var n :| n in rest;
        LogModel.CkAddAllSnoc(s0, LogModel.NodeRecords(order), Edge(n, n));
        assert LogModel.NodeRecords(order + [n]) == LogModel.NodeRecords(order) + [Edge(n, n)];
        AddCheckptEntry(n, n);
        order, rest := order + [n], rest - {n};
      }
      assert graph.g.Keys - rest == graph.g.Keys;
    }

    /** The second pass of `checkpoint`: the nodes in the order of the first
        pass, each neighbour set in some order, one `(n1, n2)` record for
        every neighbour `n2` greater than `n1`. */
    method CheckpointEdges(order: seq<u64>) returns (ghost edges: seq<Edge>)
      requires Valid() && Lists(order, graph.g.Keys)
      modifies this, checkptBlock
      ensures Valid()
      ensures (forall e :: e in edges <==> LogModel.IsUpperEdge(graph.g, e)) && Distinct(edges)
      ensures State() == LogModel.CkAddAll(old(State()), edges)
    {
      ghost var s0 := State();
      var g := graph.g;
      edges := [];
      var k := 0;
      while k < |order|
        invariant 0 <= k <= |order| && Valid()
        invariant forall e :: e in edges <==> LogModel.IsUpperEdge(g, e) && e.node1 in order[..k]
        invariant Distinct(edges)
        invariant State() == LogModel.CkAddAll(s0, edges)
      {
        var n1 := order[k];
        var rest := g[n1];
        while rest != {}
          invariant Valid() && rest <= g[n1]
          invariant forall e :: e in edges <==>
                      (LogModel.IsUpperEdge(g, e) && e.node1 in order[..k])
                      || (e.node1 == n1 && e.node2 in g[n1] - rest && n1 < e.node2)
          invariant Distinct(edges)
          invariant State() == LogModel.CkAddAll(s0, edges)
          decreases |rest|
        {
          var n2 :| n2 in rest;
          if n1 < n2 {
            assert n1 !in order[..k];
            LogModel.CkAddAllSnoc(s0, edges, Edge(n1, n2));
            AddCheckptEntry(n1, n2);
            edges := edges + [Edge(n1, n2)];
          }
          rest := rest - {n2};
        }
        assert order[..k + 1] == order[..k] + [n1];
        k := k + 1;
      }
      assert order[..k] == order;
    }

    /** The end of `checkpoint`: the checkpoint size, the next generation,
        the checksum, the superblock write and the cursor reset. */
    method CommitCheckpoint()
      requires Valid()
      modifies this, superBlock
      ensures Valid() && State() == LogModel.CommitCheckpoint(old(State()))
    {
      SetSbCheckpointSize(superBlock, LogModel.CheckpointSize(blockOffset, Lo(superBlock[2])));
      SetSbGeneration(superBlock, Inc32(Lo(superBlock[1])));
      StampBlock(superBlock);
      WriteOut(superBlock, 0);
      blockOffset := Hi(superBlock[1]);
    }

    /** `checkpoint`: the node records, then the edge records, from the
        first block after the log region on, then the commit. */
    method Checkpoint() returns (ghost order: seq<u64>, ghost edges: seq<Edge>)
      requires Valid()
      modifies this, checkptBlock, superBlock
      ensures Valid()
      ensures LogModel.CheckpointRecords(old(graph.g), order, edges)
      ensures State() == LogModel.Checkpoint(old(State()), LogModel.NodeRecords(order) + edges)
    {
      ghost var s0 := State();
      blockOffset := Lo(superBlock[2]);
      ghost var s1 := State();
      var nodes := CheckpointNodes();
      order := nodes;
      edges := CheckpointEdges(nodes);
      LogModel.CkAddAllAppend(s1, LogModel.NodeRecords(order), edges);
      CommitCheckpoint();
    }

    /** `log_is_full` */
    method LogIsFull() returns (full: bool)
      requires Valid()
      ensures full == LogModel.LogIsFull(State())
    {
      full := blockOffset >= Lo(superBlock[2]);
    }
  }
}
