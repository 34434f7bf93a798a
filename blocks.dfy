/** The on-disk layouts of log.hpp. Every structure is one block of 512
    little-endian 64-bit words; two `uint32_t` fields that share a word sit
    in its low and its high half, the first declared in the low half. */
module Blocks {
  import opened Types
  import opened Utility

  /** Capacities: 170 entries of 24 bytes after a 16-byte header, 255 edge
      records of 16 bytes after a 16-byte header, 169 reserved entries after
      the superblock's 40-byte header. */
  const LOG_ENTRIES_PER_BLOCK: nat := 170
  const EDGES_PER_BLOCK: nat := 255
  const SB_RESERVED_ENTRIES: nat := 169

  // ---------------------------------------------------------------------
  // Two 32-bit fields in one 64-bit word
  // ---------------------------------------------------------------------

  function Lo(w: u64): u32 {
    if w < 0x1_0000_0000 then w else w % 0x1_0000_0000
  }

  function Hi(w: u64): u32 {
    if w < 0x1_0000_0000 then 0 else w / 0x1_0000_0000
  }

  function Pack(lo: u32, hi: u32): u64 {
    assert hi * 0x1_0000_0000 <= 0xFFFF_FFFF * 0x1_0000_0000;
    if hi == 0 then lo else lo + hi * 0x1_0000_0000
  }

  /** The halves of a packed word are the two values packed. */
  lemma {:induction false} PackHalves(lo: u32, hi: u32)
    ensures Lo(Pack(lo, hi)) == lo && Hi(Pack(lo, hi)) == hi
  {
  }

  /** A word is exactly its two halves. */
  lemma {:induction false} UnpackPack(w: u64)
    ensures Pack(Lo(w), Hi(w)) == w
  {
  }

  function SetLo(w: u64, lo: u32): (r: u64)
    ensures Lo(r) == lo && Hi(r) == Hi(w)
  {
    PackHalves(lo, Hi(w));
    if lo == Lo(w) then w else Pack(lo, Hi(w))
  }

  function SetHi(w: u64, hi: u32): (r: u64)
    ensures Lo(r) == Lo(w) && Hi(r) == hi
  {
    PackHalves(Lo(w), hi);
    if hi == Hi(w) then w else Pack(Lo(w), hi)
  }

  // ---------------------------------------------------------------------
  // log_entry_t, edge_t
  // ---------------------------------------------------------------------

  /** `log_entry_t`: a 32-bit opcode (and 4 bytes of padding) and two node
      identifiers. The default entry is `(0, 0, 0)`. */
  datatype LogEntry = LogEntry(opcode: u32, node1: u64, node2: u64)

  /** `edge_t`: one checkpoint record; `(n, n)` stands for node `n`. */
  datatype Edge = Edge(node1: u64, node2: u64)

  // ---------------------------------------------------------------------
  // Checksums
  // ---------------------------------------------------------------------

  /** The stored checksum (word 0) equals the recomputed one. */
  predicate ChecksumMatches(b: Block) {
    b[0] == ChecksumXor(b)
  }

  /** `x.checksum = x.compute_checksum()`. */
  function Stamp(b: Block): (r: Block)
    ensures r[0] == ChecksumXor(b)
    ensures forall i :: 1 <= i < WORDS_PER_BLOCK ==> r[i] == b[i]
  {
    b[0 := ChecksumXor(b)]
  }

  /** Storing the computed checksum makes a block validate, since the
      checksum never reads word 0. */
  lemma {:induction false} StampValidates(b: Block)
    ensures ChecksumMatches(Stamp(b))
  {
    ChecksumIgnoresWord0(b, ChecksumXor(b));
  }

  /** A cleared block never validates. */
  lemma {:induction false} ZeroBlockInvalid()
    ensures !ChecksumMatches(ZeroBlock)
  {
    ZeroBlockChecksum();
  }

  // ---------------------------------------------------------------------
  // super_block_t: checksum | generation_num, log_start | log_size,
  // checkpoint_size | reserved1..4 | reserved[169]
  // ---------------------------------------------------------------------

  function SbGeneration(b: Block): u32 { Lo(b[1]) }
  function SbLogStart(b: Block): u32 { Hi(b[1]) }
  function SbLogSize(b: Block): u32 { Lo(b[2]) }
  function SbCheckpointSize(b: Block): u32 { Hi(b[2]) }

  function WithSbGeneration(b: Block, gen: u32): (r: Block)
    ensures SbGeneration(r) == gen && SbLogStart(r) == SbLogStart(b)
    ensures SbLogSize(r) == SbLogSize(b) && SbCheckpointSize(r) == SbCheckpointSize(b)
    ensures forall i :: 0 <= i < WORDS_PER_BLOCK && i != 1 ==> r[i] == b[i]
  {
    b[1 := SetLo(b[1], gen)]
  }

  function WithSbLogStart(b: Block, start: u32): (r: Block)
    ensures SbGeneration(r) == SbGeneration(b) && SbLogStart(r) == start
    ensures SbLogSize(r) == SbLogSize(b) && SbCheckpointSize(r) == SbCheckpointSize(b)
    ensures forall i :: 0 <= i < WORDS_PER_BLOCK && i != 1 ==> r[i] == b[i]
  {
    b[1 := SetHi(b[1], start)]
  }

  function WithSbLogSize(b: Block, size: u32): (r: Block)
    ensures SbGeneration(r) == SbGeneration(b) && SbLogStart(r) == SbLogStart(b)
    ensures SbLogSize(r) == size && SbCheckpointSize(r) == SbCheckpointSize(b)
    ensures forall i :: 0 <= i < WORDS_PER_BLOCK && i != 2 ==> r[i] == b[i]
  {
    b[2 := SetLo(b[2], size)]
  }

  function WithSbCheckpointSize(b: Block, size: u32): (r: Block)
    ensures SbGeneration(r) == SbGeneration(b) && SbLogStart(r) == SbLogStart(b)
    ensures SbLogSize(r) == SbLogSize(b) && SbCheckpointSize(r) == size
    ensures forall i :: 0 <= i < WORDS_PER_BLOCK && i != 2 ==> r[i] == b[i]
  {
    b[2 := SetHi(b[2], size)]
  }

  /** The fields of the superblock occupy words 1 and 2 only, so a checksum
      stamped afterwards leaves them as they were. */
  lemma {:induction false} StampKeepsSuperFields(b: Block)
    ensures SbGeneration(Stamp(b)) == SbGeneration(b) && SbLogStart(Stamp(b)) == SbLogStart(b)
    ensures SbLogSize(Stamp(b)) == SbLogSize(b) && SbCheckpointSize(Stamp(b)) == SbCheckpointSize(b)
  {
  }

  // ---------------------------------------------------------------------
  // log_block_t: checksum | generation_num, entry_cnt | log_entry[170]
  // ---------------------------------------------------------------------

  function LbGeneration(b: Block): u32 { Lo(b[1]) }
  function LbEntryCnt(b: Block): u32 { Hi(b[1]) }

  /** The first word of entry `k`: entries are three words each and follow
      the two header words, so the last one ends at word 511. */
  function EntryWord(k: nat): (i: nat)
    requires k < LOG_ENTRIES_PER_BLOCK
    ensures 2 <= i && i + 2 < WORDS_PER_BLOCK
  {
    2 + 3 * k
  }

  function LbEntry(b: Block, k: nat): LogEntry
    requires k < LOG_ENTRIES_PER_BLOCK
  {
    var i := EntryWord(k);
    LogEntry(Lo(b[i]), b[i + 1], b[i + 2])
  }

  /** Stores entry `k` (its padding as zero) and nothing else. */
  function WithLbEntry(b: Block, k: nat, e: LogEntry): (r: Block)
    requires k < LOG_ENTRIES_PER_BLOCK
    ensures LbEntry(r, k) == e
    ensures forall j :: 0 <= j < LOG_ENTRIES_PER_BLOCK && j != k ==> LbEntry(r, j) == LbEntry(b, j)
    ensures r[0] == b[0] && r[1] == b[1]
  {
    var i := EntryWord(k);
    b[i := e.opcode][i + 1 := e.node1][i + 2 := e.node2]
  }

  function WithLbGeneration(b: Block, gen: u32): (r: Block)
    ensures LbGeneration(r) == gen && LbEntryCnt(r) == LbEntryCnt(b)
    ensures forall j :: 0 <= j < LOG_ENTRIES_PER_BLOCK ==> LbEntry(r, j) == LbEntry(b, j)
    ensures r[0] == b[0]
  {
    b[1 := SetLo(b[1], gen)]
  }

  function WithLbEntryCnt(b: Block, cnt: u32): (r: Block)
    ensures LbGeneration(r) == LbGeneration(b) && LbEntryCnt(r) == cnt
    ensures forall j :: 0 <= j < LOG_ENTRIES_PER_BLOCK ==> LbEntry(r, j) == LbEntry(b, j)
    ensures r[0] == b[0]
  {
    b[1 := SetHi(b[1], cnt)]
  }

  /** The entries a reader interprets: the first `entry_cnt` of them, at most
      the 170 the block holds. */
  function LbEntries(b: Block): (es: seq<LogEntry>)
    ensures |es| == Min(LbEntryCnt(b), LOG_ENTRIES_PER_BLOCK)
    ensures forall k :: 0 <= k < |es| ==> es[k] == LbEntry(b, k)
  {
    seq(Min(LbEntryCnt(b), LOG_ENTRIES_PER_BLOCK), k requires 0 <= k < LOG_ENTRIES_PER_BLOCK => LbEntry(b, k))
  }

  function Min(a: nat, b: nat): nat {
    if a < b then a else b
  }

  /** A stamped log block still carries its header and entries. */
  lemma {:induction false} StampKeepsLogFields(b: Block)
    ensures LbGeneration(Stamp(b)) == LbGeneration(b) && LbEntryCnt(Stamp(b)) == LbEntryCnt(b)
    ensures LbEntries(Stamp(b)) == LbEntries(b)
  {
    assert forall k :: 0 <= k < LOG_ENTRIES_PER_BLOCK ==> LbEntry(Stamp(b), k) == LbEntry(b, k);
  }

  /** Storing entry `cnt` into a block holding `cnt < 170` entries and
      counting it extends what a reader interprets by exactly that entry. */
  lemma {:induction false} AppendedEntries(b: Block, e: LogEntry)
    requires LbEntryCnt(b) < LOG_ENTRIES_PER_BLOCK
    ensures LbEntries(WithLbEntryCnt(WithLbEntry(b, LbEntryCnt(b), e), LbEntryCnt(b) + 1))
      == LbEntries(b) + [e]
  {
    var r := WithLbEntryCnt(WithLbEntry(b, LbEntryCnt(b), e), LbEntryCnt(b) + 1);
    assert LbEntryCnt(r) == LbEntryCnt(b) + 1;
    assert |LbEntries(r)| == |LbEntries(b) + [e]|;
    forall k | 0 <= k < |LbEntries(r)|
      ensures LbEntries(r)[k] == (LbEntries(b) + [e])[k]
    {
      if k < LbEntryCnt(b) {
        assert LbEntry(r, k) == LbEntry(b, k);
      }
    }
  }

  /** The log entry that a cleared block is read as. */
  lemma {:induction false} ZeroBlockEntries()
    ensures LbEntryCnt(ZeroBlock) == 0 && LbEntries(ZeroBlock) == []
    ensures forall k :: 0 <= k < LOG_ENTRIES_PER_BLOCK ==> LbEntry(ZeroBlock, k) == LogEntry(OP_ADD_NODE, 0, 0)
  {
  }

  // ---------------------------------------------------------------------
  // checkpt_block_t: entry_cnt, reserved1 | reserved2, reserved3 | edges[255]
  // ---------------------------------------------------------------------

  function CkEntryCnt(b: Block): u32 { Lo(b[0]) }

  function EdgeWord(k: nat): (i: nat)
    requires k < EDGES_PER_BLOCK
    ensures 2 <= i && i + 1 < WORDS_PER_BLOCK
  {
    2 + 2 * k
  }

  function CkEdge(b: Block, k: nat): Edge
    requires k < EDGES_PER_BLOCK
  {
    var i := EdgeWord(k);
    Edge(b[i], b[i + 1])
  }

  function WithCkEdge(b: Block, k: nat, e: Edge): (r: Block)
    requires k < EDGES_PER_BLOCK
    ensures CkEdge(r, k) == e && CkEntryCnt(r) == CkEntryCnt(b)
    ensures forall j :: 0 <= j < EDGES_PER_BLOCK && j != k ==> CkEdge(r, j) == CkEdge(b, j)
  {
    var i := EdgeWord(k);
    b[i := e.node1][i + 1 := e.node2]
  }

  function WithCkEntryCnt(b: Block, cnt: u32): (r: Block)
    ensures CkEntryCnt(r) == cnt
    ensures forall j :: 0 <= j < EDGES_PER_BLOCK ==> CkEdge(r, j) == CkEdge(b, j)
  {
    b[0 := SetLo(b[0], cnt)]
  }

  /** The records a reader interprets: the first `entry_cnt`, at most 255. */
  function CkRecords(b: Block): (es: seq<Edge>)
    ensures |es| == Min(CkEntryCnt(b), EDGES_PER_BLOCK)
    ensures forall k :: 0 <= k < |es| ==> es[k] == CkEdge(b, k)
  {
    seq(Min(CkEntryCnt(b), EDGES_PER_BLOCK), k requires 0 <= k < EDGES_PER_BLOCK => CkEdge(b, k))
  }

  /** Storing record `cnt` into a block holding `cnt < 255` records and
      counting it extends what a reader interprets by exactly that record. */
  lemma {:induction false} AppendedRecords(b: Block, e: Edge)
    requires CkEntryCnt(b) < EDGES_PER_BLOCK
    ensures CkRecords(WithCkEntryCnt(WithCkEdge(b, CkEntryCnt(b), e), CkEntryCnt(b) + 1))
      == CkRecords(b) + [e]
  {
    var r := WithCkEntryCnt(WithCkEdge(b, CkEntryCnt(b), e), CkEntryCnt(b) + 1);
    assert |CkRecords(r)| == |CkRecords(b) + [e]|;
    forall k | 0 <= k < |CkRecords(r)|
      ensures CkRecords(r)[k] == (CkRecords(b) + [e])[k]
    {
      if k < CkEntryCnt(b) {
        assert CkEdge(r, k) == CkEdge(b, k);
      }
    }
  }

  // ---------------------------------------------------------------------
  // Operation codes
  // ---------------------------------------------------------------------

  /** The graph operations a log entry can stand for. */
  datatype Op = AddNodeOp(n: u64) | AddEdgeOp(a: u64, b: u64) | RemoveNodeOp(n: u64) | RemoveEdgeOp(a: u64, b: u64)

  /** The switch on `entry->opcode`; any other code is skipped. */
  function DecodeEntry(e: LogEntry): (r: Option<Op>)
    ensures r.None? <==> e.opcode > OP_REMOVE_EDGE
  {
    if e.opcode == OP_ADD_NODE then Some(AddNodeOp(e.node1))
    else if e.opcode == OP_ADD_EDGE then Some(AddEdgeOp(e.node1, e.node2))
    else if e.opcode == OP_REMOVE_NODE then Some(RemoveNodeOp(e.node1))
    else if e.opcode == OP_REMOVE_EDGE then Some(RemoveEdgeOp(e.node1, e.node2))
    else None
  }

  /** The entry the request handlers append for an operation; single-node
      operations store 0 as the second operand. */
  function EncodeEntry(op: Op): LogEntry {
    match op
    case AddNodeOp(n) => LogEntry(OP_ADD_NODE, n, 0)
    case AddEdgeOp(a, b) => LogEntry(OP_ADD_EDGE, a, b)
    case RemoveNodeOp(n) => LogEntry(OP_REMOVE_NODE, n, 0)
    case RemoveEdgeOp(a, b) => LogEntry(OP_REMOVE_EDGE, a, b)
  }

  /** Every appended entry replays as the operation it was written for. */
  lemma {:induction false} DecodeEncode(op: Op)
    ensures DecodeEntry(EncodeEntry(op)) == Some(op)
  {
  }
}
