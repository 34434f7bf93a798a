/** The write rule both front ends of a server follow (the HTTP handler of
    cs426_graph_server.cpp and the replication handlers of
    rpcsender_server.cc): refuse when the log is full, forward to the next
    server of the chain when there is one, apply to the graph unless the
    forward failed, and log the operation when the graph answered 200. */
module Chain {
  import opened Types
  import opened Blocks
  import opened GraphStore
  import opened Decimal
  import LogModel
  import LogProperties
  import opened DurableLog

  /** One server's state: its durable log and its graph. */
  datatype Replica = Replica(log: LogModel.LogState, graph: Adjacency)

  /** A write as the next server receives it over RPC: the node ids are
      decimal strings. */
  datatype RpcCall =
    | AddNodeCall(nodeId: string)
    | AddEdgeCall(nodeIdA: string, nodeIdB: string)
    | RemoveNodeCall(nodeId: string)
    | RemoveEdgeCall(nodeIdA: string, nodeIdB: string)

  /** How a forwarded call ended: the next server's reply message, or a
      call that did not succeed. */
  datatype Downstream = Ok(msg: string) | Failed

  const RPC_FAILED: string := "RPC failed"

  /** The string the RPC client hands back for a call: the reply message,
      or "RPC failed" when the call's status was not OK. */
  function ClientReply(d: Downstream): string {
    match d
    case Ok(msg) => msg
    case Failed => RPC_FAILED
  }

  /** The call the HTTP handler forwards for a write: each id printed with
      `to_string`. */
  function CallOf(op: Op): RpcCall {
    match op
    case AddNodeOp(n) => AddNodeCall(NatToString(n))
    case AddEdgeOp(a, b) => AddEdgeCall(NatToString(a), NatToString(b))
    case RemoveNodeOp(n) => RemoveNodeCall(NatToString(n))
    case RemoveEdgeOp(a, b) => RemoveEdgeCall(NatToString(a), NatToString(b))
  }

  /** The operation a replication handler performs for a call: each id
      parsed with `strtoull` in base 10. */
  function OpOf(call: RpcCall): Op {
    match call
    case AddNodeCall(n) => AddNodeOp(Strtoull(n))
    case AddEdgeCall(a, b) => AddEdgeOp(Strtoull(a), Strtoull(b))
    case RemoveNodeCall(n) => RemoveNodeOp(Strtoull(n))
    case RemoveEdgeCall(a, b) => RemoveEdgeOp(Strtoull(a), Strtoull(b))
  }

  /** A write forwarded by the HTTP handler is performed downstream as the
      same operation. */
  lemma {:induction false} CallRoundTrip(op: Op)
    ensures OpOf(CallOf(op)) == op
  {
    match op
    case AddNodeOp(n) => StrtoullOfNatToString(n);
    case AddEdgeOp(a, b) => StrtoullOfNatToString(a); StrtoullOfNatToString(b);
    case RemoveNodeOp(n) => StrtoullOfNatToString(n);
    case RemoveEdgeOp(a, b) => StrtoullOfNatToString(a); StrtoullOfNatToString(b);
  }

  /** How a write ended: refused by a full log, refused because the forward
      failed, or applied with the graph operation's status. */
  datatype Verdict = LogFull | ForwardFailed | Applied(status: int)

  /** A write is handed to the next server iff there is one and the log
      has room; the local graph plays no part. */
  predicate Forwards(r: Replica, hasNext: bool) {
    hasNext && !LogModel.LogIsFull(r.log)
  }

  /** One write on one server. `next` is what the call to the next server
      returns if the write is forwarded. */
  function Mutation(r: Replica, op: Op, hasNext: bool, next: Downstream): (res: (Verdict, Replica))
    requires LogModel.StagedOk(r.log)
    ensures LogModel.StagedOk(res.1.log)
  {
    if LogModel.LogIsFull(r.log) then (LogFull, r)
    else if hasNext && ClientReply(next) == RPC_FAILED then (ForwardFailed, r)
    else (Applied(Apply(r.graph, op).status), Performed(r, op))
  }

  /** A server after performing `op` past the gate: the graph operation,
      and the log entry iff the graph answered 200. */
  function Performed(r: Replica, op: Op): (r': Replica)
    requires LogModel.StagedOk(r.log)
    ensures LogModel.StagedOk(r'.log)
  {
    var o := Apply(r.graph, op);
    Replica(if o.status == OK then LogModel.AppendStep(r.log, EncodeEntry(op)) else r.log, o.graph)
  }

  /** Gate, forward, apply, append on the bound log and graph. `call` is
      the form in which the write is forwarded. */
  method Mutate(log: ServerLog, hasNext: bool, op: Op, call: RpcCall, next: Downstream)
    returns (v: Verdict, sent: Option<RpcCall>)
    requires log.Valid()
    modifies log, log.curBlock, log.graph
    ensures log.Valid()
    ensures sent == (if Forwards(Replica(old(log.State()), old(log.graph.g)), hasNext) then Some(call) else None)
    ensures (v, Replica(log.State(), log.graph.g)) == Mutation(Replica(old(log.State()), old(log.graph.g)), op, hasNext, next)
  {
    sent := None;
    var full := log.LogIsFull();
    if full {
      return LogFull, sent;
    }
    if hasNext {
      sent := Some(call);
      if ClientReply(next) == RPC_FAILED {
        return ForwardFailed, sent;
      }
    }
    var status := log.graph.Mutate(op);
    if status == OK {
      var e := EncodeEntry(op);
      log.AddLogEntry(e.opcode, e.node1, e.node2);
    }
    v := Applied(status);
  }

  // ---------------------------------------------------------------------
  // What one write does
  // ---------------------------------------------------------------------

  /** The write is refused exactly when the log is full or the forward
      failed, and a refused write changes neither the graph nor the log. */
  lemma {:induction false} RefusedWriteChangesNothing(r: Replica, op: Op, hasNext: bool, next: Downstream)
    requires LogModel.StagedOk(r.log)
    ensures var (v, r') := Mutation(r, op, hasNext, next);
      && (v == LogFull <==> LogModel.LogIsFull(r.log))
      && (v == ForwardFailed <==> !LogModel.LogIsFull(r.log) && hasNext && ClientReply(next) == RPC_FAILED)
      && (!v.Applied? ==> r' == r)
  {
  }

  /** A write that gets past the gate and the forward runs the graph
      operation, and the log grows by the operation's entry iff the status
      is 200: the staged block then holds it last and is stored at the
      cursor, stamped with the current generation. */
  lemma {:induction false} AppliedWriteIsLoggedOnSuccess(r: Replica, op: Op, hasNext: bool, next: Downstream)
    requires LogModel.StagedOk(r.log)
    requires !LogModel.LogIsFull(r.log) && !(hasNext && ClientReply(next) == RPC_FAILED)
    ensures var (v, r') := Mutation(r, op, hasNext, next);
      var o := Apply(r.graph, op);
      && v == Applied(o.status)
      && (v.status == OK || v.status == ALREADY_EXISTS || v.status == INVALID)
      && r'.graph == o.graph
      && (v.status != OK ==> r'.log == r.log)
      && (v.status == OK ==>
            && r'.log == LogModel.AppendStep(r.log, EncodeEntry(op))
            && LbEntries(r'.log.curBlock)[|LbEntries(r'.log.curBlock)| - 1] == EncodeEntry(op)
            && LogModel.ReadBlock(r'.log.device, r'.log.blockOffset) == r'.log.curBlock
            && LogModel.BlockValid(r'.log.curBlock, LogModel.Generation(r.log)))
  {
    LogModel.AppendedBlockFacts(r.log, EncodeEntry(op));
  }

  /** Replaying the entry a successful write logged redoes that write. */
  lemma {:induction false} LoggedEntryReplaysWrite(r: Replica, op: Op, hasNext: bool, next: Downstream)
    requires LogModel.StagedOk(r.log)
    requires Mutation(r, op, hasNext, next).0 == Applied(OK)
    ensures var r' := Mutation(r, op, hasNext, next).1;
      var entries := LbEntries(r'.log.curBlock);
      |entries| > 0 && LogModel.ExecuteEntry(r.graph, entries[|entries| - 1]) == r'.graph
  {
    AppliedWriteIsLoggedOnSuccess(r, op, hasNext, next);
    DecodeEncode(op);
  }

  /** What holds of a server between requests: the graph is undirected and
      loop free, the staged block is within capacity and the cursor lies in
      the log region. */
  ghost predicate Healthy(r: Replica) {
    && LogModel.StagedOk(r.log)
    && WellFormed(r.graph)
    && LogModel.LogStart(r.log) <= r.log.blockOffset <= LogModel.LogSize(r.log)
  }

  /** Because every append is gated on a log with room, a write never
      moves the cursor past the end of the log region. */
  lemma {:induction false} MutationKeepsHealthy(r: Replica, op: Op, hasNext: bool, next: Downstream)
    requires Healthy(r)
    ensures Healthy(Mutation(r, op, hasNext, next).1)
  {
    var (v, r') := Mutation(r, op, hasNext, next);
    if v.Applied? {
      ApplyPreservesWellFormed(r.graph, op);
      if v.status == OK {
        LogModel.AppendedBlockFacts(r.log, EncodeEntry(op));
        LogProperties.AppendKeepsCursorBound(r.log, EncodeEntry(op));
      }
    }
  }

  // ---------------------------------------------------------------------
  // A run of writes, and a restart
  // ---------------------------------------------------------------------

  /** A server after performing `ops` in order past the gate. */
  function PerformAll(r: Replica, ops: seq<Op>): (r': Replica)
    requires LogModel.StagedOk(r.log)
    ensures LogModel.StagedOk(r'.log)
  {
    if ops == [] then r else Performed(PerformAll(r, ops[..|ops| - 1]), ops[|ops| - 1])
  }

  /** The graph after running `ops` on `g`, whatever each answered. */
  function ApplyAll(g: Adjacency, ops: seq<Op>): Adjacency {
    if ops == [] then g else Apply(ApplyAll(g, ops[..|ops| - 1]), ops[|ops| - 1]).graph
  }

  /** The entries a run of `ops` from `g` logs: one for each operation
      that answered 200, in order. */
  function LoggedEntries(g: Adjacency, ops: seq<Op>): seq<LogEntry> {
    if ops == [] then []
    else
      var op := ops[|ops| - 1];
      var ok := Apply(ApplyAll(g, ops[..|ops| - 1]), op).status == OK;
      LoggedEntries(g, ops[..|ops| - 1]) + (if ok then [EncodeEntry(op)] else [])
  }

  /** Performing `ops` runs them on the graph and appends to the log
      exactly the entries of those that answered 200. */
  lemma {:induction false} PerformAllLogs(r: Replica, ops: seq<Op>)
    requires LogModel.StagedOk(r.log)
    ensures PerformAll(r, ops).graph == ApplyAll(r.graph, ops)
    ensures PerformAll(r, ops).log == LogModel.AppendAll(r.log, LoggedEntries(r.graph, ops))
    ensures |LoggedEntries(r.graph, ops)| <= |ops|
  {
    if ops != [] {
      var init, op := ops[..|ops| - 1], ops[|ops| - 1];
      PerformAllLogs(r, init);
      var es := LoggedEntries(r.graph, init);
      if Apply(ApplyAll(r.graph, init), op).status == OK {
        LogModel.AppendAllSnoc(r.log, es, EncodeEntry(op));
      } else {
        assert es + [] == es;
      }
    }
  }

  /** Replaying the logged entries redoes the whole run: an operation that
      did not answer 200 left the graph as it was and logged nothing. */
  lemma {:induction false} LoggedEntriesReplay(g: Adjacency, ops: seq<Op>)
    ensures LogModel.ExecuteAll(g, LoggedEntries(g, ops)) == ApplyAll(g, ops)
  {
    if ops != [] {
      var init, op := ops[..|ops| - 1], ops[|ops| - 1];
      var es := LoggedEntries(g, init);
      var h := ApplyAll(g, init);
      LoggedEntriesReplay(g, init);
      if Apply(h, op).status == OK {
        var e := EncodeEntry(op);
        LogModel.ExecuteAllAppend(g, es, [e]);
        assert [e][..0] == [];
        LogProperties.ReplayRedoesOperation(h, op, e);
      } else {
        assert es + [] == es;
      }
    }
  }

  /** The writes a freshly formatted server performs survive a restart: a
      device holding the log they left, read back by `init_server_log`
      from the graph the writes started from, gives the graph they built. */
  lemma {:induction false} WritesSurviveRestart(r: Replica, ops: seq<Op>, t: LogModel.LogState, logSegSize: u32)
    requires LogModel.StagedOk(r.log) && LogProperties.FreshLog(r.log)
    requires LogModel.ReadBlock(r.log.device, 0) == r.log.superBlock && ChecksumMatches(r.log.superBlock)
    requires SbCheckpointSize(r.log.superBlock) == 0
    requires |ops| <= LogProperties.Capacity(r.log)
    requires t.device == PerformAll(r, ops).log.device
    ensures LogModel.InitServerLog(t, r.graph, logSegSize).1 == PerformAll(r, ops).graph
  {
    PerformAllLogs(r, ops);
    LogProperties.RestartReplaysAppends(r.log, LoggedEntries(r.graph, ops), t, r.graph, logSegSize);
    LoggedEntriesReplay(r.graph, ops);
  }
}
