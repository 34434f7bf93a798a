/** `rpcsenderServiceImpl` of rpcsender_server.cc: the replication
    handlers through which the previous server of the chain hands a write
    on. Each one follows the write rule of Chain and answers with an RPC
    status and a message. */
module RpcService {
  import opened Types
  import opened Blocks
  import opened GraphStore
  import opened Decimal
  import LogModel
  import opened DurableLog
  import opened Chain

  /** The gRPC status a handler returns. */
  datatype RpcStatus = RpcOk | Cancelled

  /** The name a handler's failure messages start with. */
  function Action(call: RpcCall): string {
    match call
    case AddNodeCall(_) => "Add node"
    case AddEdgeCall(_, _) => "Add edge"
    case RemoveNodeCall(_) => "Remove node"
    case RemoveEdgeCall(_, _) => "Remove edge"
  }

  /** The acknowledgement, built from the operands as received. */
  function SuccessMessage(call: RpcCall): string {
    match call
    case AddNodeCall(n) => "Successfully added node: " + n
    case AddEdgeCall(a, b) => "Successfully added edge: " + a + "," + b
    case RemoveNodeCall(n) => "Successfully removed node: " + n
    case RemoveEdgeCall(a, b) => "Successfully removed edge: " + a + "," + b
  }

  /** The status and message for each way a write can end. */
  function Answer(call: RpcCall, v: Verdict): (RpcStatus, string) {
    match v
    case LogFull => (Cancelled, Action(call) + " fail: log is full!")
    case ForwardFailed => (Cancelled, Action(call) + " fail: rpc failed!")
    case Applied(_) => (RpcOk, SuccessMessage(call))
  }

  /** What a handler answers, what it forwards and the state it leaves. */
  datatype RpcOutcome = RpcOutcome(status: RpcStatus, message: string, sent: Option<RpcCall>, replica: Replica)

  /** One replication call on one server. */
  function Served(r: Replica, hasNext: bool, call: RpcCall, next: Downstream): (o: RpcOutcome)
    requires LogModel.StagedOk(r.log)
    ensures LogModel.StagedOk(o.replica.log)
    ensures o.status == RpcOk <==> !LogModel.LogIsFull(r.log) && !(hasNext && ClientReply(next) == RPC_FAILED)
    ensures o.status == RpcOk ==> o.message == SuccessMessage(call)
    ensures o.status == Cancelled ==> o.replica == r
    ensures o.status == RpcOk ==> o.replica == Performed(r, OpOf(call))
  {
    var (v, r') := Mutation(r, OpOf(call), hasNext, next);
    var (status, message) := Answer(call, v);
    RpcOutcome(status, message, if Forwards(r, hasNext) then Some(call) else None, r')
  }

  /** The service object: the log (and through it the graph) it was bound
      to, and whether it was given a client to the next server. */
  class RpcSenderService {
    const log: ServerLog
    const hasNext: bool

    /** `bind_log`, `bind_graph` and `bind_grpc_client`. */
    constructor(log: ServerLog, hasNext: bool)
      ensures this.log == log && this.hasNext == hasNext
    {
      this.log := log;
      this.hasNext := hasNext;
    }

    ghost predicate Valid()
      reads this, log, log.superBlock, log.curBlock, log.checkptBlock
    {
      log.Valid()
    }

    /** The bound log and graph as a Replica. */
    ghost function Current(): Replica
      requires Valid()
      reads this, log, log.superBlock, log.curBlock, log.checkptBlock, log.graph
    {
      Replica(log.State(), log.graph.g)
    }

    /** `SendAddNode`, `SendAddEdge`, `SendRemoveNode` and
        `SendRemoveEdge`, told apart by the kind of `call`. */
    method Serve(call: RpcCall, next: Downstream) returns (status: RpcStatus, message: string, sent: Option<RpcCall>)
      requires Valid()
      modifies log, log.curBlock, log.graph
      ensures Valid()
      ensures RpcOutcome(status, message, sent, Current()) == Served(old(Current()), hasNext, call, next)
    {
      var v;
      v, sent := Mutate(log, hasNext, OpOf(call), call, next);
      match v
      case LogFull =>
        status, message := Cancelled, Action(call) + " fail: log is full!";
      case ForwardFailed =>
        status, message := Cancelled, Action(call) + " fail: rpc failed!";
      case Applied(_) =>
        status, message := RpcOk, SuccessMessage(call);
    }
  }

  // ---------------------------------------------------------------------
  // What a replication call does
  // ---------------------------------------------------------------------

  /** A call is cancelled exactly when the log is full or the forward
      failed; a cancelled call changes nothing, and a full log is not even
      forwarded. */
  lemma {:induction false} CancelledCallChangesNothing(r: Replica, hasNext: bool, call: RpcCall, next: Downstream)
    requires LogModel.StagedOk(r.log)
    ensures var o := Served(r, hasNext, call, next);
      var full := LogModel.LogIsFull(r.log);
      && (o.status == Cancelled <==> full || (hasNext && ClientReply(next) == RPC_FAILED))
      && (o.status == Cancelled ==> o.replica == r)
      && (full ==> o.sent == None && o.message == Action(call) + " fail: log is full!")
      && (!full && o.status == Cancelled ==> o.sent == Some(call) && o.message == Action(call) + " fail: rpc failed!")
  {
    RefusedWriteChangesNothing(r, OpOf(call), hasNext, next);
  }

  /** Every call that is not cancelled is acknowledged with OK, whatever
      the local graph operation answered; the graph operation ran on the
      parsed operands and was logged iff it answered 200. */
  lemma {:induction false} AcknowledgedWhateverTheStatus(r: Replica, hasNext: bool, call: RpcCall, next: Downstream)
    requires LogModel.StagedOk(r.log)
    requires Served(r, hasNext, call, next).status == RpcOk
    ensures var o := Served(r, hasNext, call, next);
      var a := Apply(r.graph, OpOf(call));
      && o.message == SuccessMessage(call)
      && o.replica.graph == a.graph
      && o.replica.log == (if a.status == OK then LogModel.AppendStep(r.log, EncodeEntry(OpOf(call))) else r.log)
      && o.sent == (if hasNext then Some(call) else None)
  {
    RefusedWriteChangesNothing(r, OpOf(call), hasNext, next);
    AppliedWriteIsLoggedOnSuccess(r, OpOf(call), hasNext, next);
  }

  /** Re-adding a node the tail already has is acknowledged as a success
      although the graph answers 204 and nothing is logged. */
  lemma {:induction false} DuplicateAddAcknowledged(r: Replica)
    requires LogModel.StagedOk(r.log) && !LogModel.LogIsFull(r.log) && 7 in r.graph
    ensures var o := Served(r, false, AddNodeCall("7"), Failed);
      o == RpcOutcome(RpcOk, "Successfully added node: 7", None, r)
  {
    assert Strtoull("7") == 7;
    assert Apply(r.graph, AddNodeOp(7)) == Outcome(ALREADY_EXISTS, r.graph);
    assert Performed(r, AddNodeOp(7)) == r;
    assert SuccessMessage(AddNodeCall("7")) == "Successfully added node: 7";
  }

  /** The operands are forwarded as received and parsed only locally: the
      id "007" travels on as "007" and is node 7 here. */
  lemma {:induction false} OperandsForwardedVerbatim(r: Replica, next: Downstream)
    requires LogModel.StagedOk(r.log) && !LogModel.LogIsFull(r.log)
    ensures var o := Served(r, true, AddNodeCall("007"), next);
      o.sent == Some(AddNodeCall("007"))
      && OpOf(AddNodeCall("007")) == AddNodeOp(7)
  {
    assert "007"[..2] == "00" && "00"[..1] == "0";
    assert DigitsValue("007") == 7;
    assert AllDigits("007");
  }
}
