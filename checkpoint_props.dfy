/** The checkpoint round trip: the records `checkpoint` writes are the ones
    `recover_from_checkpoint` reads back, and applied to an empty graph they
    rebuild the graph that was checkpointed. The restore reads carried
    records in front of them: those the staged checkpoint block still held
    when it had room, or those of block `log_size` when it was full. */
module CheckpointProperties {
  import opened Types
  import opened Utility
  import opened Blocks
  import opened GraphStore
  import opened LogModel
  import opened LogProperties

  // ---------------------------------------------------------------------
  // The checkpoint region on the device
  // ---------------------------------------------------------------------

  /** The region's records depend only on the region's blocks. */
  lemma {:induction false} CkRegionAgree(d1: Device, d2: Device, logSize: u32, count: nat)
    requires forall k :: 0 <= k < count ==> ReadBlock(d1, CkBlock(logSize, k)) == ReadBlock(d2, CkBlock(logSize, k))
    ensures CkRegion(d1, logSize, count) == CkRegion(d2, logSize, count)
  {
    if count > 0 {
      CkRegionAgree(d1, d2, logSize, count - 1);
    }
  }

  /** The block `add_checkpt_entry` stages, read back: the earlier records
      (none after a full block) followed by the new one. */
  lemma {:induction false} CkNextBlockRecords(b: Block, x: Edge)
    requires CkEntryCnt(b) <= EDGES_PER_BLOCK
    ensures var r := CkNextBlock(b, x);
      && CkRecords(r) == (if CkEntryCnt(b) == EDGES_PER_BLOCK then [] else CkRecords(b)) + [x]
      && 1 <= CkEntryCnt(r) <= EDGES_PER_BLOCK
  {
    var base := if CkEntryCnt(b) == EDGES_PER_BLOCK then ZeroBlock else b;
    assert CkEntryCnt(ZeroBlock) == 0;
    AppendedRecords(base, x);
  }

  /** What the checkpoint blocks from `logSize` to the cursor hold, read
      back: the region before the cursor block followed by the staged block
      is `recs`; once a record has been added the staged block is also the
      one on the device at the cursor. */
  ghost predicate RegionHolds(p: LogState, logSize: u32, recs: seq<Edge>, started: bool) {
    && logSize <= p.blockOffset
    && CkEntryCnt(p.checkptBlock) <= EDGES_PER_BLOCK
    && (!started ==> CkEntryCnt(p.checkptBlock) < EDGES_PER_BLOCK)
    && CkRegion(p.device, logSize, p.blockOffset - logSize) + CkRecords(p.checkptBlock) == recs
    && (started ==> ReadBlock(p.device, p.blockOffset) == p.checkptBlock)
  }

  /** A block written at or past the end of a stretch of the region leaves
      that stretch's records alone. */
  lemma {:induction false} RegionBelowWrite(d: Device, o: u32, b: Block, logSize: u32, n: nat)
    requires logSize + n <= o < ADDRESSABLE_BLOCKS
    ensures CkRegion(WriteBlock(d, o, b), logSize, n) == CkRegion(d, logSize, n)
  {
    var w := WriteBlock(d, o, b);
    forall k | 0 <= k < n
      ensures ReadBlock(w, CkBlock(logSize, k)) == ReadBlock(d, CkBlock(logSize, k))
    {
      assert CkBlock(logSize, k) == logSize + k;
    }
    CkRegionAgree(w, d, logSize, n);
  }

  /** One `add_checkpt_entry` extends what the region holds by its record. */
  lemma {:induction false} CkAddStepRegion(p: LogState, logSize: u32, recs: seq<Edge>, started: bool, x: Edge)
    requires RegionHolds(p, logSize, recs, started)
    requires p.blockOffset + 1 < ADDRESSABLE_BLOCKS
    ensures RegionHolds(CkAddStep(p, x), logSize, recs + [x], true)
    ensures CkAddStep(p, x).blockOffset <= p.blockOffset + 1
  {
    if CkEntryCnt(p.checkptBlock) == EDGES_PER_BLOCK {
      CkAddStepRegionFull(p, logSize, recs, x);
    } else {
      CkAddStepRegionRoom(p, logSize, recs, started, x);
    }
  }

  /** A staged block with room takes the record in place. */
  lemma {:induction false} CkAddStepRegionRoom(p: LogState, logSize: u32, recs: seq<Edge>, started: bool, x: Edge)
    requires RegionHolds(p, logSize, recs, started) && CkEntryCnt(p.checkptBlock) < EDGES_PER_BLOCK
    requires p.blockOffset < ADDRESSABLE_BLOCKS
    ensures RegionHolds(CkAddStep(p, x), logSize, recs + [x], true)
    ensures CkAddStep(p, x).blockOffset == p.blockOffset
  {
    var nb := CkNextBlock(p.checkptBlock, x);
    var n: nat := p.blockOffset - logSize;
    var d := WriteBlock(p.device, p.blockOffset, nb);
    assert CkAddStep(p, x) == p.(device := d, checkptBlock := nb);
    CkNextBlockRecords(p.checkptBlock, x);
    RegionBelowWrite(p.device, p.blockOffset, nb, logSize, n);
    var before := CkRegion(p.device, logSize, n);
    var staged := CkRecords(p.checkptBlock);
    assert CkRecords(nb) == staged + [x];
    ConcatAssoc(before, staged, [x]);
    assert CkRegion(d, logSize, n) + CkRecords(nb) == recs + [x];
  }

  /** A full staged block is left on the device and a new one is started
      in the next block. */
  lemma {:induction false} CkAddStepRegionFull(p: LogState, logSize: u32, recs: seq<Edge>, x: Edge)
    requires RegionHolds(p, logSize, recs, true) && CkEntryCnt(p.checkptBlock) == EDGES_PER_BLOCK
    requires p.blockOffset + 1 < ADDRESSABLE_BLOCKS
    ensures RegionHolds(CkAddStep(p, x), logSize, recs + [x], true)
    ensures CkAddStep(p, x).blockOffset == p.blockOffset + 1
  {
    var nb := CkNextBlock(p.checkptBlock, x);
    var n: nat := p.blockOffset - logSize + 1;
    var o: u32 := p.blockOffset + 1;
    var d := WriteBlock(p.device, o, nb);
    var q := p.(device := d, checkptBlock := nb, blockOffset := o);
    assert CkAddStep(p, x) == q;
    RegionThroughCursor(p, logSize, recs);
    RegionBelowWrite(p.device, o, nb, logSize, n);
    CkNextBlockRecords(p.checkptBlock, x);
    EmptyConcat([x]);
    assert CkRegion(q.device, logSize, q.blockOffset - logSize) == recs;
  }

  /** Once started, the region up to and including the cursor block holds
      exactly `recs`. */
  lemma {:induction false} RegionThroughCursor(p: LogState, logSize: u32, recs: seq<Edge>)
    requires RegionHolds(p, logSize, recs, true) && p.blockOffset < ADDRESSABLE_BLOCKS
    ensures CkRegion(p.device, logSize, p.blockOffset - logSize + 1) == recs
  {
    CkBlockInRange(logSize, p.blockOffset - logSize);
  }

  /** Checkpoint block `k` is `log_size + k` while that does not wrap. */
  lemma {:induction false} CkBlockInRange(logSize: u32, k: nat)
    requires logSize + k < U32_MOD
    ensures CkBlock(logSize, k) == logSize + k
  {
  }

  lemma {:induction false} ConcatAssoc<T>(a: seq<T>, b: seq<T>, c: seq<T>)
    ensures a + (b + c) == (a + b) + c
  {
  }

  lemma {:induction false} ButLastThenLast<T>(a: seq<T>)
    requires a != []
    ensures a[..|a| - 1] + [a[|a| - 1]] == a
  {
  }

  lemma {:induction false} Singleton<T>(a: seq<T>)
    requires |a| == 1
    ensures a == [a[0]]
  {
  }

  lemma {:induction false} EmptyConcat<T>(a: seq<T>)
    ensures [] + a == a
  {
  }

  /** Adding records extends what the region holds by those records. */
  lemma {:induction false} CkAddAllRegion(s: LogState, rs: seq<Edge>)
    requires CkEntryCnt(s.checkptBlock) < EDGES_PER_BLOCK
    requires s.blockOffset + |rs| < ADDRESSABLE_BLOCKS
    ensures RegionHolds(CkAddAll(s, rs), s.blockOffset, CkRecords(s.checkptBlock) + rs, rs != [])
    ensures CkAddAll(s, rs).blockOffset <= s.blockOffset + |rs|
  {
    if rs == [] {
      assert CkRecords(s.checkptBlock) + rs == CkRecords(s.checkptBlock);
      assert CkAddAll(s, rs) == s;
    } else {
      var init := rs[..|rs| - 1];
      var x := rs[|rs| - 1];
      var p := CkAddAll(s, init);
      CkAddAllRegion(s, init);
      CkAddStepRegion(p, s.blockOffset, CkRecords(s.checkptBlock) + init, init != [], x);
      assert CkAddAll(s, rs) == CkAddStep(p, x);
      ButLastThenLast(rs);
      ConcatAssoc(CkRecords(s.checkptBlock), init, [x]);
    }
  }

  /** The records a restore applies ahead of the ones `checkpoint` writes:
      those of the staged checkpoint block when it has room for the first
      record, otherwise those of block `log_size`, which is then not
      rewritten. */
  function CarriedRecords(s: LogState, recs: seq<Edge>): seq<Edge> {
    if recs != [] && CkEntryCnt(s.checkptBlock) < EDGES_PER_BLOCK then CkRecords(s.checkptBlock)
    else CkRecords(ReadBlock(s.device, LogSize(s)))
  }

  /** `recover_from_checkpoint` after `checkpoint` reads back the carried
      records, then every record written. */
  lemma {:induction false} CheckpointRestore(s: LogState, recs: seq<Edge>, h: Adjacency)
    requires CkEntryCnt(s.checkptBlock) <= EDGES_PER_BLOCK
    requires 1 <= LogSize(s) && LogSize(s) + |recs| < ADDRESSABLE_BLOCKS
    ensures RestoreCheckpoint(Checkpoint(s, recs), h).1 == ApplyRecords(h, CarriedRecords(s, recs) + recs)
  {
    if recs == [] {
      EmptyCheckpointRestoresStaleBlock(s, h);
      assert CarriedRecords(s, recs) + recs == CarriedRecords(s, recs);
    } else {
      var a := CkAddAll(s.(blockOffset := LogSize(s)), recs);
      CheckpointWritesRegion(s, recs);
      assert LogSize(a) == LogSize(s);
      CommitKeepsRegion(a, CarriedRecords(s, recs) + recs, h);
    }
  }

  /** The first pass and the second leave the carried records and then the
      new ones, from `log_size` to the cursor, on the device. */
  lemma {:induction false} CheckpointWritesRegion(s: LogState, recs: seq<Edge>)
    requires CkEntryCnt(s.checkptBlock) <= EDGES_PER_BLOCK && recs != []
    requires LogSize(s) + |recs| < ADDRESSABLE_BLOCKS
    ensures var a := CkAddAll(s.(blockOffset := LogSize(s)), recs);
      && LogSize(s) <= a.blockOffset < ADDRESSABLE_BLOCKS
      && CkRegion(a.device, LogSize(s), a.blockOffset - LogSize(s) + 1) == CarriedRecords(s, recs) + recs
  {
    var L := LogSize(s);
    var t := s.(blockOffset := L);
    var a := CkAddAll(t, recs);
    if CkEntryCnt(s.checkptBlock) < EDGES_PER_BLOCK {
      CkAddAllRegion(t, recs);
      RegionThroughCursor(a, L, CkRecords(s.checkptBlock) + recs);
    } else {
      CkAddAllFromFull(t, recs);
      RegionThroughCursor(a, L, CkRecords(ReadBlock(s.device, L)) + recs);
    }
  }

  /** Starting from a full staged block, the first record goes to the block
      after the cursor, so the region from the cursor holds what the device
      held there followed by the records added. */
  lemma {:induction false} CkAddAllFromFull(t: LogState, rs: seq<Edge>)
    requires CkEntryCnt(t.checkptBlock) == EDGES_PER_BLOCK && rs != []
    requires t.blockOffset + |rs| < ADDRESSABLE_BLOCKS
    ensures RegionHolds(CkAddAll(t, rs), t.blockOffset, CkRecords(ReadBlock(t.device, t.blockOffset)) + rs, true)
    ensures CkAddAll(t, rs).blockOffset <= t.blockOffset + |rs|
  {
    var lead := CkRecords(ReadBlock(t.device, t.blockOffset));
    var init := rs[..|rs| - 1];
    var x := rs[|rs| - 1];
    var p := CkAddAll(t, init);
    assert CkAddAll(t, rs) == CkAddStep(p, x);
    if |rs| == 1 {
      assert p == t;
      FirstRecordAfterFull(t, x);
      Singleton(rs);
      LeadBlockRegion(CkAddStep(t, x), t.blockOffset, rs, ReadBlock(t.device, t.blockOffset));
    } else {
      CkAddAllFromFull(t, init);
      CkAddStepRegion(p, t.blockOffset, lead + init, true, x);
      ButLastThenLast(rs);
      ConcatAssoc(lead, init, [x]);
    }
  }

  /** The first record after a full staged block starts block
      `block_offset + 1` and leaves the cursor block alone. */
  lemma {:induction false} FirstRecordAfterFull(t: LogState, x: Edge)
    requires CkEntryCnt(t.checkptBlock) == EDGES_PER_BLOCK && t.blockOffset + 1 < ADDRESSABLE_BLOCKS
    ensures var q := CkAddStep(t, x);
      && q.blockOffset == t.blockOffset + 1
      && RegionHolds(q, q.blockOffset, [x], true)
      && ReadBlock(q.device, t.blockOffset) == ReadBlock(t.device, t.blockOffset)
  {
    CkNextBlockRecords(t.checkptBlock, x);
    EmptyConcat([x]);
  }

  /** A region that holds `rs` from block `logSize + 1` holds, from block
      `logSize`, that block's records `lead` followed by `rs`. */
  lemma {:induction false} LeadBlockRegion(a: LogState, logSize: u32, rs: seq<Edge>, lead: Block)
    requires logSize + 1 < U32_MOD && RegionHolds(a, logSize + 1, rs, true) && a.blockOffset < ADDRESSABLE_BLOCKS
    requires ReadBlock(a.device, logSize) == lead
    ensures RegionHolds(a, logSize, CkRecords(lead) + rs, true)
  {
    var n: nat := a.blockOffset - logSize - 1;
    CkRegionShift(a.device, logSize, n);
    ConcatAssoc(CkRecords(lead), CkRegion(a.device, logSize + 1, n), CkRecords(a.checkptBlock));
  }

  /** The region from `logSize` is its first block's records followed by
      the region from the next block. */
  lemma {:induction false} CkRegionShift(d: Device, logSize: u32, n: nat)
    requires logSize + n + 1 < U32_MOD
    ensures CkRegion(d, logSize, n + 1) == CkRecords(ReadBlock(d, logSize)) + CkRegion(d, logSize + 1, n)
  {
    var first := CkRecords(ReadBlock(d, logSize));
    if n == 0 {
      assert CkBlock(logSize, 0) == logSize;
      EmptyConcat(first);
    } else {
      var mid := CkRegion(d, logSize + 1, n - 1);
      var last := CkRecords(ReadBlock(d, CkBlock(logSize, n)));
      assert CkRegion(d, logSize, n) == first + mid by {
        CkRegionShift(d, logSize, n - 1);
      }
      assert CkRegion(d, logSize + 1, n) == mid + last by {
        assert CkBlock(logSize, n) == CkBlock(logSize + 1, n - 1);
      }
      ConcatAssoc(first, mid, last);
    }
  }

  /** Committing a checkpoint whose region holds `rs` makes recovery apply
      exactly `rs`. */
  lemma {:induction false} CommitKeepsRegion(a: LogState, rs: seq<Edge>, h: Adjacency)
    requires 1 <= LogSize(a) <= a.blockOffset < ADDRESSABLE_BLOCKS
    requires CkRegion(a.device, LogSize(a), a.blockOffset - LogSize(a) + 1) == rs
    ensures RestoreCheckpoint(CommitCheckpoint(a), h).1 == ApplyRecords(h, rs)
  {
    var L := LogSize(a);
    var n: nat := a.blockOffset - L + 1;
    CommitRecordsRegion(a);
    var c := CommitCheckpoint(a);
    RegionAboveWrite(a.device, 0, c.superBlock, L, n);
    RestoreReadsRegion(c, h);
  }

  /** The commit records the region from `log_size` to the cursor and
      writes only block 0. */
  lemma {:induction false} CommitRecordsRegion(a: LogState)
    requires 1 <= LogSize(a) <= a.blockOffset
    ensures var c := CommitCheckpoint(a);
      && LogSize(c) == LogSize(a)
      && SbCheckpointSize(c.superBlock) == a.blockOffset - LogSize(a) + 1
      && c.device == WriteBlock(a.device, 0, c.superBlock)
  {
    var size := CheckpointSize(a.blockOffset, LogSize(a));
    var b := WithSbGeneration(WithSbCheckpointSize(a.superBlock, size), Inc32(Generation(a)));
    StampKeepsSuperFields(b);
  }

  /** What `recover_from_checkpoint` applies when a checkpoint is recorded. */
  lemma {:induction false} RestoreReadsRegion(c: LogState, h: Adjacency)
    requires SbCheckpointSize(c.superBlock) != 0
    ensures RestoreCheckpoint(c, h).1 == ApplyRecords(h, CkRegion(c.device, LogSize(c), SbCheckpointSize(c.superBlock)))
  {
  }

  /** A block written below the region leaves the region's records alone. */
  lemma {:induction false} RegionAboveWrite(d: Device, o: u32, b: Block, logSize: u32, n: nat)
    requires o < logSize && logSize + n <= ADDRESSABLE_BLOCKS
    ensures CkRegion(WriteBlock(d, o, b), logSize, n) == CkRegion(d, logSize, n)
  {
    var w := WriteBlock(d, o, b);
    forall k | 0 <= k < n
      ensures ReadBlock(w, CkBlock(logSize, k)) == ReadBlock(d, CkBlock(logSize, k))
    {
      assert CkBlock(logSize, k) == logSize + k;
    }
    CkRegionAgree(w, d, logSize, n);
  }

  /** A checkpoint of an empty graph records one block and writes none, so
      recovery applies whatever block `log_size` held before. */
  lemma {:induction false} EmptyCheckpointRestoresStaleBlock(s: LogState, h: Adjacency)
    requires 1 <= LogSize(s) < ADDRESSABLE_BLOCKS
    ensures RestoreCheckpoint(Checkpoint(s, []), h).1 == ApplyRecords(h, CkRecords(ReadBlock(s.device, LogSize(s))))
  {
    var L := LogSize(s);
    var a := s.(blockOffset := L);
    assert CkAddAll(a, []) == a;
    CommitCheckpointFacts(a);
    var c := CommitCheckpoint(a);
    assert SbCheckpointSize(c.superBlock) == 1;
    assert LogSize(c) == L;
    assert CkBlock(L, 0) == L;
    assert ReadBlock(c.device, L) == ReadBlock(s.device, L);
    assert CkRegion(c.device, L, 1) == CkRecords(ReadBlock(s.device, L));
    ApplyRecordsAppend(h, [], CkRecords(ReadBlock(s.device, L)));
  }

  // ---------------------------------------------------------------------
  // Rebuilding the graph from its records
  // ---------------------------------------------------------------------

  /** The `(n, n)` records make each listed node present with no
      neighbours. */
  lemma {:induction false} ApplyNodeRecords(h: Adjacency, order: seq<u64>)
    ensures var r := ApplyRecords(h, NodeRecords(order));
      && (forall n :: n in r <==> n in h || n in order)
      && (forall n :: n in r ==> r[n] == if n in order then {} else h[n])
  {
    if order != [] {
      var init := order[..|order| - 1];
      assert NodeRecords(order)[..|order| - 1] == NodeRecords(init);
      ApplyNodeRecords(h, init);
      assert forall n :: n in order <==> n in init || n == order[|order| - 1];
    }
  }

  /** The nodes an edge record joins `n` to. */
  ghost function Partners(edges: seq<Edge>, n: u64): set<u64> {
    (set e | e in edges && e.node1 == n :: e.node2) + (set e | e in edges && e.node2 == n :: e.node1)
  }

  /** The endpoints of the edge records. */
  ghost function Endpoints(edges: seq<Edge>): set<u64> {
    (set e | e in edges :: e.node1) + (set e | e in edges :: e.node2)
  }

  /** The nodes one edge record joins `n` to. */
  function Joined(x: Edge, n: u64): set<u64> {
    (if x.node1 == n then {x.node2} else {}) + (if x.node2 == n then {x.node1} else {})
  }

  /** One edge record adds its endpoints and joins them. */
  lemma {:induction false} ApplyEdgeRecord(p: Adjacency, x: Edge)
    requires x.node1 != x.node2
    ensures ApplyRecord(p, x).Keys == p.Keys + {x.node1, x.node2}
    ensures forall n :: Neighbours(ApplyRecord(p, x), n) == Neighbours(p, n) + Joined(x, n)
  {
  }

  lemma {:induction false} UnionAssoc<T>(a: set<T>, b: set<T>, c: set<T>)
    ensures a + b + c == a + (b + c)
  {
  }

  lemma {:induction false} PartnersSnoc(init: seq<Edge>, x: Edge, n: u64)
    ensures Partners(init + [x], n) == Partners(init, n) + Joined(x, n)
  {
    assert forall e :: e in init + [x] <==> e in init || e == x;
  }

  lemma {:induction false} EndpointsSnoc(init: seq<Edge>, x: Edge)
    ensures Endpoints(init + [x]) == Endpoints(init) + {x.node1, x.node2}
  {
    assert forall e :: e in init + [x] <==> e in init || e == x;
  }

  /** Edge records add, to both endpoints, the other one, creating the
      endpoints as needed. */
  lemma {:induction false} ApplyEdgeRecords(h: Adjacency, edges: seq<Edge>)
    requires forall e :: e in edges ==> e.node1 != e.node2
    ensures var r := ApplyRecords(h, edges);
      && r.Keys == h.Keys + Endpoints(edges)
      && (forall n :: Neighbours(r, n) == Neighbours(h, n) + Partners(edges, n))
  {
    if edges != [] {
      var init := edges[..|edges| - 1];
      var x := edges[|edges| - 1];
      assert edges == init + [x];
      assert forall e :: e in init ==> e in edges;
      ApplyEdgeRecords(h, init);
      var p := ApplyRecords(h, init);
      ApplyEdgeRecord(p, x);
      forall n
        ensures Neighbours(ApplyRecord(p, x), n) == Neighbours(h, n) + Partners(edges, n)
      {
        PartnersSnoc(init, x, n);
        UnionAssoc(Neighbours(h, n), Partners(init, n), Joined(x, n));
      }
      EndpointsSnoc(init, x);
    }
  }

  /** In a well-formed graph, the upper-edge records join each node to
      exactly its neighbours. */
  lemma {:induction false} PartnersAreNeighbours(g: Adjacency, edges: seq<Edge>, n: u64)
    requires WellFormed(g) && (forall e :: e in edges <==> IsUpperEdge(g, e)) && n in g
    ensures Partners(edges, n) == g[n]
  {
    forall m | m in g[n]
      ensures m in Partners(edges, n)
    {
      if n < m {
        assert IsUpperEdge(g, Edge(n, m));
      } else {
        assert IsUpperEdge(g, Edge(m, n));
      }
    }
  }

  /** Checkpoint records of a well-formed graph rebuild exactly that graph
      when applied to an empty one. */
  lemma {:induction false} CheckpointRecordsRebuildGraph(g: Adjacency, order: seq<u64>, edges: seq<Edge>)
    requires WellFormed(g) && CheckpointRecords(g, order, edges)
    ensures ApplyRecords(map[], NodeRecords(order) + edges) == g
  {
    RecordsRebuildGraph(g, order, edges);
  }

  /** The rebuild needs only that the node records cover the nodes and the
      edge records are the upper edges; repetition does not matter. */
  lemma {:induction false} RecordsRebuildGraph(g: Adjacency, order: seq<u64>, edges: seq<Edge>)
    requires WellFormed(g) && (forall n :: n in order <==> n in g)
    requires forall e :: e in edges <==> IsUpperEdge(g, e)
    ensures ApplyRecords(map[], NodeRecords(order) + edges) == g
  {
    forall e | e in edges
      ensures e.node1 != e.node2 && e.node1 in g && e.node2 in g
    {
      assert IsUpperEdge(g, e);
    }
    forall n | n in g
      ensures Partners(edges, n) == g[n]
    {
      PartnersAreNeighbours(g, edges, n);
    }
    RebuildFromPartners(g, order, edges);
  }

  /** Node records for the keys, then edge records between keys whose
      partners are each node's neighbours, give back the graph. */
  lemma {:induction false} RebuildFromPartners(g: Adjacency, order: seq<u64>, edges: seq<Edge>)
    requires forall n :: n in order <==> n in g
    requires forall e :: e in edges ==> e.node1 != e.node2 && e.node1 in g && e.node2 in g
    requires forall n :: n in g ==> Partners(edges, n) == g[n]
    ensures ApplyRecords(map[], NodeRecords(order) + edges) == g
  {
    ApplyRecordsAppend(map[], NodeRecords(order), edges);
    NodeRecordsCover(g, order);
    var h := ApplyRecords(map[], NodeRecords(order));
    ApplyEdgeRecords(h, edges);
    var r := ApplyRecords(h, edges);
    assert r.Keys == g.Keys by {
      assert Endpoints(edges) <= g.Keys;
    }
    forall n | n in g
      ensures Neighbours(r, n) == g[n]
    {
      assert Neighbours(h, n) + Partners(edges, n) == Partners(edges, n);
    }
    SameNeighbours(r, g);
  }

  /** Node records for exactly the keys of `g` give those nodes, each
      with no neighbours. */
  lemma {:induction false} NodeRecordsCover(g: Adjacency, order: seq<u64>)
    requires forall n :: n in order <==> n in g
    ensures var h := ApplyRecords(map[], NodeRecords(order));
      h.Keys == g.Keys && forall n :: Neighbours(h, n) == {}
  {
    ApplyNodeRecords(map[], order);
  }

  /** Two graphs with the same nodes and neighbours are equal. */
  lemma {:induction false} SameNeighbours(r: Adjacency, g: Adjacency)
    requires r.Keys == g.Keys && forall n :: n in g ==> Neighbours(r, n) == g[n]
    ensures r == g
  {
  }

  /** The round trip: checkpointing a well-formed, non-empty graph from a
      fresh staged checkpoint block and recovering into an empty graph gives
      the graph back. */
  lemma {:induction false} CheckpointRoundTrip(s: LogState, g: Adjacency, order: seq<u64>, edges: seq<Edge>)
    requires WellFormed(g) && g != map[] && CheckpointRecords(g, order, edges)
    requires CkEntryCnt(s.checkptBlock) == 0
    requires 1 <= LogSize(s) && LogSize(s) + |order| + |edges| < ADDRESSABLE_BLOCKS
    ensures RestoreCheckpoint(Checkpoint(s, NodeRecords(order) + edges), map[]).1 == g
  {
    var recs := NodeRecords(order) + edges;
    var n :| n in g;
    assert n in order;
    CheckpointRestore(s, recs, map[]);
    assert CkRecords(s.checkptBlock) == [];
    assert CkRecords(s.checkptBlock) + recs == recs;
    CheckpointRecordsRebuildGraph(g, order, edges);
  }

  // ---------------------------------------------------------------------
  // A second checkpoint from a used staged block
  // ---------------------------------------------------------------------

  /** Records that fit in the staged block stay in it: the cursor does not
      move and the block holds its old records followed by the new ones. */
  lemma {:induction false} CkAddAllInPlace(s: LogState, rs: seq<Edge>)
    requires CkEntryCnt(s.checkptBlock) + |rs| <= EDGES_PER_BLOCK
    ensures var a := CkAddAll(s, rs);
      && a.blockOffset == s.blockOffset
      && CkEntryCnt(a.checkptBlock) == CkEntryCnt(s.checkptBlock) + |rs|
      && CkRecords(a.checkptBlock) == CkRecords(s.checkptBlock) + rs
  {
    if rs == [] {
      assert CkRecords(s.checkptBlock) + rs == CkRecords(s.checkptBlock);
    } else {
      var init, x := rs[..|rs| - 1], rs[|rs| - 1];
      var p := CkAddAll(s, init);
      CkAddAllInPlace(s, init);
      CkNextBlockRecords(p.checkptBlock, x);
      ButLastThenLast(rs);
      ConcatAssoc(CkRecords(s.checkptBlock), init, [x]);
    }
  }

  /** `checkpoint` does not clear the staged checkpoint block, so a second
      checkpoint starts after the first one's records. Checkpoint nodes 1
      and 2 with the edge between them, log the removal of node 2, and
      checkpoint the remaining graph, node 1 alone: recovery then rebuilds
      node 2 with node 1 as its neighbour while node 1 has none, a graph
      that is neither the one checkpointed nor undirected. */
  lemma {:induction false} RecheckpointRevivesRemovedNode(s: LogState, first: seq<Edge>, second: seq<Edge>)
    requires StagedOk(s) && CkEntryCnt(s.checkptBlock) == 0
    requires 1 <= LogSize(s) && LogSize(s) + 1 < ADDRESSABLE_BLOCKS
    requires first == NodeRecords([1, 2]) + [Edge(1, 2)] && second == NodeRecords([1])
    ensures CheckpointRecords(map[1 := {2}, 2 := {1}], [1, 2], [Edge(1, 2)])
    ensures Apply(map[1 := {2}, 2 := {1}], RemoveNodeOp(2)) == Outcome(OK, map[1 := {}])
    ensures CheckpointRecords(map[1 := {}], [1], [])
    ensures var c1 := Checkpoint(s, first);
      var c2 := Checkpoint(AppendStep(c1, EncodeEntry(RemoveNodeOp(2))), second);
      var g := RestoreCheckpoint(c2, map[]).1;
      && g == map[1 := {}, 2 := {1}]
      && g != map[1 := {}]
      && !WellFormed(g)
  {
    RecheckpointReadsBoth(s, first, EncodeEntry(RemoveNodeOp(2)), second, map[]);
    RevivalRecords(first, second);
    ExampleGraphs();
  }

  /** The two graphs of that session, their checkpoint records, and the
      removal between them. */
  lemma {:induction false} ExampleGraphs()
    ensures CheckpointRecords(map[1 := {2}, 2 := {1}], [1, 2], [Edge(1, 2)])
    ensures Apply(map[1 := {2}, 2 := {1}], RemoveNodeOp(2)) == Outcome(OK, map[1 := {}])
    ensures CheckpointRecords(map[1 := {}], [1], [])
    ensures map[1 := {}, 2 := {1}] != map[1 := {}] && !WellFormed(map[1 := {}, 2 := {1}])
  {
    var g: Adjacency := map[1 := {}, 2 := {1}];
    assert 1 in g[2] && 2 !in g[1];
    var one: Adjacency := map[1 := {}];
    assert 2 !in one;
    var h: Adjacency := map[1 := {2}, 2 := {1}];
    var r := Apply(h, RemoveNodeOp(2));
    assert r.graph.Keys == {1} && r.graph[1] == {};
    assert r.graph == one;
    forall e: Edge | IsUpperEdge(h, e)
      ensures e == Edge(1, 2)
    {
    }
  }

  /** A checkpoint of fewer than 255 records leaves them in the staged
      block, so whatever is logged after it, the next checkpoint's restore
      applies them ahead of its own records. */
  lemma {:induction false} RecheckpointReadsBoth(s: LogState, first: seq<Edge>, e: LogEntry, second: seq<Edge>, h: Adjacency)
    requires StagedOk(s) && CkEntryCnt(s.checkptBlock) == 0
    requires |first| < EDGES_PER_BLOCK && second != []
    requires 1 <= LogSize(s) && LogSize(s) + |second| < ADDRESSABLE_BLOCKS
    ensures RestoreCheckpoint(Checkpoint(AppendStep(Checkpoint(s, first), e), second), h).1
      == ApplyRecords(h, first + second)
  {
    var m := AppendStep(Checkpoint(s, first), e);
    StagedAfterCheckpoint(s, first, e);
    CheckpointRestore(m, second, h);
  }

  /** After a first checkpoint that fit the clean staged block and one
      append, the staged checkpoint block still holds exactly that
      checkpoint's records, and the log region is where it was. */
  lemma {:induction false} StagedAfterCheckpoint(s: LogState, first: seq<Edge>, e: LogEntry)
    requires StagedOk(s) && CkEntryCnt(s.checkptBlock) == 0 && |first| < EDGES_PER_BLOCK
    ensures var m := AppendStep(Checkpoint(s, first), e);
      && CkEntryCnt(m.checkptBlock) == |first|
      && CkRecords(m.checkptBlock) == first
      && LogSize(m) == LogSize(s)
  {
    var t := s.(blockOffset := LogSize(s));
    var a1 := CkAddAll(t, first);
    CkAddAllInPlace(t, first);
    CommitCheckpointFacts(a1);
    EmptyConcat(first);
  }

  /** The four records read back in that session, applied to an empty
      graph: node 1 is reset after the edge was restored. */
  lemma {:induction false} RevivalRecords(first: seq<Edge>, second: seq<Edge>)
    requires first == NodeRecords([1, 2]) + [Edge(1, 2)] && second == NodeRecords([1])
    ensures ApplyRecords(map[], first + second) == map[1 := {}, 2 := {1}]
  {
    var e11, e22, e12 := Edge(1, 1), Edge(2, 2), Edge(1, 2);
    assert first + second == [e11, e22, e12, e11];
    ApplyRecordsSnoc(map[], [], e11);
    assert [] + [e11] == [e11];
    ApplyRecordsSnoc(map[], [e11], e22);
    assert [e11] + [e22] == [e11, e22];
    ApplyRecordsSnoc(map[], [e11, e22], e12);
    assert [e11, e22] + [e12] == [e11, e22, e12];
    ApplyRecordsSnoc(map[], [e11, e22, e12], e11);
    assert [e11, e22, e12] + [e11] == [e11, e22, e12, e11];
    var g1: Adjacency := map[1 := {}];
    var g2: Adjacency := map[1 := {}, 2 := {}];
    var g3: Adjacency := map[1 := {2}, 2 := {1}];
    assert ApplyRecord(map[], e11) == g1;
    assert ApplyRecord(g1, e22) == g2;
    assert ApplyRecord(g2, e12) == g3 by {
      var h := ApplyRecord(g2, e12);
      assert h.Keys == g3.Keys && h[1] == g3[1] && h[2] == g3[2];
    }
    assert ApplyRecord(g3, e11) == map[1 := {}, 2 := {1}];
  }

  /** `checkpoint` as it is evidently meant to work: the staged checkpoint
      block is cleared, and so is its copy at `log_size` on the device,
      before the first record is added. */
  function ClearedCheckpoint(s: LogState, records: seq<Edge>): LogState {
    Checkpoint(s.(checkptBlock := ZeroBlock, device := WriteBlock(s.device, LogSize(s), ZeroBlock)), records)
  }

  /** With the staged block cleared, recovery gives back exactly the graph
      checkpointed, whatever the staged block held before and whether or
      not the graph is empty. */
  lemma {:induction false} ClearedCheckpointRoundTrip(s: LogState, g: Adjacency, order: seq<u64>, edges: seq<Edge>)
    requires WellFormed(g) && CheckpointRecords(g, order, edges)
    requires 1 <= LogSize(s) && LogSize(s) + |order| + |edges| < ADDRESSABLE_BLOCKS
    ensures RestoreCheckpoint(ClearedCheckpoint(s, NodeRecords(order) + edges), map[]).1 == g
  {
    var recs := NodeRecords(order) + edges;
    var z := s.(checkptBlock := ZeroBlock, device := WriteBlock(s.device, LogSize(s), ZeroBlock));
    assert CkEntryCnt(ZeroBlock) == 0;
    assert LogSize(z) == LogSize(s);
    CheckpointRestore(z, recs, map[]);
    assert CarriedRecords(z, recs) == [];
    EmptyConcat(recs);
    CheckpointRecordsRebuildGraph(g, order, edges);
  }
}
