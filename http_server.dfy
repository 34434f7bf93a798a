/** The HTTP side of cs426_graph_server.cpp: `ev_handler` answers
    `POST /api/v1/<command>` requests, writes going through the write rule
    of Chain and reads answered from the graph, and `main` sets a server up
    from its configuration. */
module HttpServer {
  import opened Types
  import opened Utility
  import opened Decimal
  import opened Blocks
  import opened GraphStore
  import LogModel
  import LogProperties
  import CheckpointProperties
  import opened DurableLog
  import opened Chain
  import opened ServerConfig
  import opened RpcService

  // ---------------------------------------------------------------------
  // Requests and responses
  // ---------------------------------------------------------------------

  /** An HTTP request as mongoose hands it over: the method (`verb`), the URI, the
      request text from the start of the URI on (the C string the command
      name is cut from), and the body. */
  datatype HttpRequest = HttpRequest(verb: string, uri: string, fromUri: string, body: string)

  /** The node ids `get_node_from_token` reads from the JSON body under the
      keys "node_id", "node_a_id" and "node_b_id". */
  datatype Operands = Operands(nodeId: u64, nodeAId: u64, nodeBId: u64)

  /** A status code and a JSON body. */
  datatype HttpReply = HttpReply(status: int, body: string)

  /** `http_header + json_result`: the header for the code, its
      `status_code_mp` text and the body length, then the body. */
  function Render(reply: HttpReply): string {
    GenResultHttpHeader(reply.status, StatusText(reply.status), |reply.body|) + reply.body
  }

  /** What reaches the connection: a response text, the static-file server
      for URIs outside the API, or nothing for a method other than POST. */
  datatype HttpResult = Response(text: string) | StaticContent | NoResponse

  const API_PREFIX: string := "/api/v1"
  const LOG_FULL_STATUS: int := 507
  const FORWARD_FAILED_STATUS: int := 500

  /** `has_prefix`: the URI is strictly longer than the prefix and starts
      with it. */
  predicate HasPrefix(uri: string, prefix: string) {
    |uri| > |prefix| && uri[..|prefix|] == prefix
  }

  /** `{"in_graph": true}` / `{"in_graph": false}` as `json_emit` writes it. */
  function InGraphJson(inGraph: bool): string {
    if inGraph then "{\"in_graph\": true}" else "{\"in_graph\": false}"
  }

  /** `{"distance": d}` as `json_emit` writes it. */
  function DistanceJson(distance: int): string {
    "{\"distance\": " + IntToString(distance) + "}"
  }

  /** The graph operation a write command performs, or None for any other
      command. */
  function WriteOp(command: string, p: Operands): (op: Option<Op>)
    ensures op.Some? <==> command in {"add_node", "add_edge", "remove_node", "remove_edge"}
  {
    if command == "add_node" then Some(AddNodeOp(p.nodeId))
    else if command == "add_edge" then Some(AddEdgeOp(p.nodeAId, p.nodeBId))
    else if command == "remove_node" then Some(RemoveNodeOp(p.nodeId))
    else if command == "remove_edge" then Some(RemoveEdgeOp(p.nodeAId, p.nodeBId))
    else None
  }

  /** The commands that only read the graph. */
  predicate IsRead(command: string) {
    command in {"get_node", "get_edge", "get_neighbors", "shortest_path"}
  }

  /** The reply to a write, by how the write ended: the request body is
      echoed only on 200. */
  function WriteReply(v: Verdict, body: string): HttpReply {
    match v
    case LogFull => HttpReply(LOG_FULL_STATUS, "")
    case ForwardFailed => HttpReply(FORWARD_FAILED_STATUS, "")
    case Applied(status) => HttpReply(status, if status == OK then body else "")
  }

  // ---------------------------------------------------------------------
  // One command
  // ---------------------------------------------------------------------

  /** What the environment decides for a command: the next server's answer
      to a forward, the `(status, distance)` of `shortestPath` (whose body
      is not part of this model), the order in which `getNeighbors` lists
      the neighbours, and the node order and edge records a checkpoint
      writes (the hash map's iteration order). */
  datatype Oracle = Oracle(next: Downstream, path: (int, int), neighbours: seq<u64>, order: seq<u64>, edges: seq<Edge>)

  /** The reply (None for an unknown command, which gets an empty
      response), the call forwarded downstream, and the new state. */
  datatype Step = Step(reply: Option<HttpReply>, sent: Option<RpcCall>, replica: Replica)

  /** One API command on one server. */
  function CommandStep(r: Replica, hasNext: bool, command: string, body: string, p: Operands, o: Oracle): (s: Step)
    requires LogModel.StagedOk(r.log)
  {
    match WriteOp(command, p)
    case Some(op) =>
      var (v, r') := Mutation(r, op, hasNext, o.next);
      Step(Some(WriteReply(v, body)), if Forwards(r, hasNext) then Some(CallOf(op)) else None, r')
    case None =>
      if command == "get_node" then
        var (status, inGraph) := GetNode(r.graph, p.nodeId);
        Step(Some(HttpReply(status, InGraphJson(inGraph))), None, r)
      else if command == "get_edge" then
        var (status, inGraph) := GetEdge(r.graph, p.nodeAId, p.nodeBId);
        Step(Some(HttpReply(status, if status == OK then InGraphJson(inGraph) else "")), None, r)
      else if command == "get_neighbors" then
        var status := if p.nodeId in r.graph then OK else INVALID;
        Step(Some(HttpReply(status, if status == OK then NeighborJson(p.nodeId, o.neighbours) else "")), None, r)
      else if command == "shortest_path" then
        var (status, distance) := o.path;
        Step(Some(HttpReply(status, if status == OK then DistanceJson(distance) else "")), None, r)
      else if command == "checkpoint" then
        if LogModel.LogIsFull(r.log) then Step(Some(HttpReply(LOG_FULL_STATUS, "")), None, r)
        else
          var log := LogModel.Checkpoint(r.log, LogModel.NodeRecords(o.order) + o.edges);
          Step(Some(HttpReply(OK, "")), None, r.(log := log))
      else Step(None, None, r)
  }

  /** One HTTP request on one server. */
  function HttpStep(r: Replica, hasNext: bool, req: HttpRequest, p: Operands, o: Oracle): (res: (HttpResult, Option<RpcCall>, Replica))
    requires LogModel.StagedOk(r.log)
  {
    if !HasPrefix(req.uri, API_PREFIX) then (StaticContent, None, r)
    else if req.verb != "POST" then (NoResponse, None, r)
    else
      var s := CommandStep(r, hasNext, GetCommandTypeFromUri(req.fromUri), req.body, p, o);
      (Response(if s.reply.Some? then Render(s.reply.value) else ""), s.sent, s.replica)
  }

  /** What `main` does after reading the configuration: bind the log to an
      empty graph and the device, then either format it or recover the
      graph from it. */
  function Startup(c: Config, device: LogModel.Device, logSegSize: u32): Replica {
    var s := LogModel.LogState(device, ZeroBlock, ZeroBlock, ZeroBlock, 0);
    if c.format then Replica(LogModel.Format(s, logSegSize), map[])
    else
      var (s', g) := LogModel.InitServerLog(s, map[], logSegSize);
      Replica(s', g)
  }

  // ---------------------------------------------------------------------
  // The server
  // ---------------------------------------------------------------------

  /** The globals of cs426_graph_server.cpp: the log bound to the graph,
      whether a client to the next server exists, and the replication
      service bound to the same log. */
  class GraphServer {
    const log: ServerLog
    const hasNext: bool
    const service: RpcSenderService

    ghost predicate Valid()
      reads this, log, log.superBlock, log.curBlock, log.checkptBlock, service
    {
      log.Valid() && service.log == log && service.hasNext == hasNext
    }

    /** The log and the graph as a Replica. */
    ghost function Current(): Replica
      requires Valid()
      reads this, log, log.superBlock, log.curBlock, log.checkptBlock, log.graph, service
    {
      Replica(log.State(), log.graph.g)
    }

    /** `main` from the parsed configuration on: `device` is the content of
        the device file, and the server gets a next server iff IP_NEXT is
        not "-1". */
    constructor(c: Config, device: LogModel.Device, logSegSize: u32)
      ensures Valid() && hasNext == HasDownstream(c)
      ensures Current() == Startup(c, device, logSegSize)
    {
      var graph := new Graph();
      var log := new ServerLog(graph, device, logSegSize);
      var next := HasDownstream(c);
      if c.format {
        log.Format();
      } else {
        log.InitServerLog();
      }
      this.log := log;
      this.hasNext := next;
      service := new RpcSenderService(log, next);
    }

    /** The command chain of `ev_handler`. */
    method HandleCommand(command: string, body: string, p: Operands, next: Downstream, path: (int, int))
      returns (reply: Option<HttpReply>, sent: Option<RpcCall>,
               ghost neighbours: seq<u64>, ghost order: seq<u64>, ghost edges: seq<Edge>)
      requires Valid()
      modifies log, log.superBlock, log.curBlock, log.checkptBlock, log.graph
      ensures Valid()
      ensures Step(reply, sent, Current())
        == CommandStep(old(Current()), hasNext, command, body, p, Oracle(next, path, neighbours, order, edges))
      ensures command == "get_neighbors" && p.nodeId in old(log.graph.g) ==> Lists(neighbours, old(log.graph.g)[p.nodeId])
      ensures command == "checkpoint" && !LogModel.LogIsFull(old(log.State())) ==>
        LogModel.CheckpointRecords(old(log.graph.g), order, edges)
    {
      neighbours, order, edges := [], [], [];
      sent := None;
      var op := WriteOp(command, p);
      if op.Some? {
        var v;
        v, sent := Mutate(log, hasNext, op.value, CallOf(op.value), next);
        reply := Some(WriteReply(v, body));
      } else if command == "get_node" {
        var status := GetNode(log.graph.g, p.nodeId);
        reply := Some(HttpReply(status.0, InGraphJson(status.1)));
      } else if command == "get_edge" {
        var status := GetEdge(log.graph.g, p.nodeAId, p.nodeBId);
        var json := "";
        if status.0 == OK {
          json := InGraphJson(status.1);
        }
        reply := Some(HttpReply(status.0, json));
      } else if command == "get_neighbors" {
        var status, nodes := log.graph.GetNeighbors(p.nodeId);
        neighbours := nodes;
        var json := "";
        if status == OK {
          json := GenNeighborJsonResult(p.nodeId, nodes);
        }
        reply := Some(HttpReply(status, json));
      } else if command == "shortest_path" {
        var json := "";
        if path.0 == OK {
          json := DistanceJson(path.1);
        }
        reply := Some(HttpReply(path.0, json));
      } else if command == "checkpoint" {
        var full := log.LogIsFull();
        if full {
          reply := Some(HttpReply(LOG_FULL_STATUS, ""));
        } else {
          order, edges := log.Checkpoint();
          reply := Some(HttpReply(OK, ""));
        }
      } else {
        reply := None;
      }
    }

    /** `ev_handler` for an HTTP request event. */
    method HandleHttp(req: HttpRequest, p: Operands, next: Downstream, path: (int, int))
      returns (result: HttpResult, sent: Option<RpcCall>,
               ghost neighbours: seq<u64>, ghost order: seq<u64>, ghost edges: seq<Edge>)
      requires Valid()
      modifies log, log.superBlock, log.curBlock, log.checkptBlock, log.graph
      ensures Valid()
      ensures (result, sent, Current())
        == HttpStep(old(Current()), hasNext, req, p, Oracle(next, path, neighbours, order, edges))
      ensures HasPrefix(req.uri, API_PREFIX) && req.verb == "POST" ==>
        var command := GetCommandTypeFromUri(req.fromUri);
        && (command == "get_neighbors" && p.nodeId in old(log.graph.g) ==> Lists(neighbours, old(log.graph.g)[p.nodeId]))
        && (command == "checkpoint" && !LogModel.LogIsFull(old(log.State())) ==>
              LogModel.CheckpointRecords(old(log.graph.g), order, edges))
    {
      neighbours, order, edges := [], [], [];
      sent := None;
      if !HasPrefix(req.uri, API_PREFIX) {
        return StaticContent, sent, neighbours, order, edges;
      }
      if req.verb != "POST" {
        return NoResponse, sent, neighbours, order, edges;
      }
      var command := GetCommandTypeFromUri(req.fromUri);
      var reply;
      reply, sent, neighbours, order, edges := HandleCommand(command, req.body, p, next, path);
      var httpHeader, jsonResult := "", "";
      if reply.Some? {
        httpHeader := GenResultHttpHeader(reply.value.status, StatusText(reply.value.status), |reply.value.body|);
        jsonResult := reply.value.body;
      }
      assert httpHeader + jsonResult == if reply.Some? then Render(reply.value) else "";
      result := Response(httpHeader + jsonResult);
    }
  }

  // ---------------------------------------------------------------------
  // What a request does
  // ---------------------------------------------------------------------

  /** The response text carries the reply's status code and body length
      where a client reads them. */
  lemma {:induction false} ResponseCarriesStatusAndLength(reply: HttpReply)
    requires reply.status >= 0
    ensures StatusCodeOf(Render(reply)) == Some(reply.status)
    ensures ContentLengthOf(Render(reply)) == Some(|reply.body|)
  {
    var text := StatusText(reply.status);
    assert '\r' !in text;
    HeaderStatusCodeRoundTrip(reply.status, text, |reply.body|, reply.body);
    HeaderContentLengthRoundTrip(reply.status, text, |reply.body|, reply.body);
  }

  /** A write while the log is full answers 507 "Checkpoint Needed" with an
      empty body, forwards nothing and changes nothing. */
  lemma {:induction false} FullLogRefusesWrites(r: Replica, hasNext: bool, command: string, body: string, p: Operands, o: Oracle)
    requires LogModel.StagedOk(r.log) && LogModel.LogIsFull(r.log)
    requires WriteOp(command, p).Some?
    ensures var s := CommandStep(r, hasNext, command, body, p, o);
      && s.sent == None && s.replica == r
      && s.reply == Some(HttpReply(LOG_FULL_STATUS, ""))
      && Render(s.reply.value) == GenResultHttpHeader(507, "Checkpoint Needed", 0)
      && StatusCodeOf(Render(s.reply.value)) == Some(507)
  {
    ResponseCarriesStatusAndLength(HttpReply(LOG_FULL_STATUS, ""));
  }

  /** A write whose forward came back "RPC failed" answers 500 with an
      empty status text (the status table has no entry for 500) and an empty
      body, after forwarding, and changes nothing. */
  lemma {:induction false} FailedForwardAnswers500(r: Replica, command: string, body: string, p: Operands, o: Oracle)
    requires LogModel.StagedOk(r.log) && !LogModel.LogIsFull(r.log)
    requires WriteOp(command, p).Some? && ClientReply(o.next) == RPC_FAILED
    ensures var s := CommandStep(r, true, command, body, p, o);
      && s.sent == Some(CallOf(WriteOp(command, p).value)) && s.replica == r
      && s.reply == Some(HttpReply(FORWARD_FAILED_STATUS, ""))
      && Render(s.reply.value) == GenResultHttpHeader(500, "", 0)
  {
    RefusedWriteChangesNothing(r, WriteOp(command, p).value, true, o.next);
  }

  /** A write that passes the gate and the forward performs the graph
      operation, echoes the request body iff the status is 200 (and
      answers with an empty body otherwise), and appends the operation's
      log entry iff the status is 200. The forward happened whatever the
      status turned out to be. */
  lemma {:induction false} AppliedWriteEchoesBody(r: Replica, hasNext: bool, command: string, body: string, p: Operands, o: Oracle)
    requires LogModel.StagedOk(r.log) && !LogModel.LogIsFull(r.log)
    requires WriteOp(command, p).Some? && !(hasNext && ClientReply(o.next) == RPC_FAILED)
    ensures var op := WriteOp(command, p).value;
      var a := Apply(r.graph, op);
      var s := CommandStep(r, hasNext, command, body, p, o);
      && s.reply == Some(HttpReply(a.status, if a.status == OK then body else ""))
      && s.replica.graph == a.graph
      && s.replica.log == (if a.status == OK then LogModel.AppendStep(r.log, EncodeEntry(op)) else r.log)
      && s.sent == (if hasNext then Some(CallOf(op)) else None)
  {
    AppliedWriteIsLoggedOnSuccess(r, WriteOp(command, p).value, hasNext, o.next);
  }

  /** The forward depends on the log and the configuration only: two
      servers with the same log forward the same call for the same write,
      whatever their graphs would answer. */
  lemma {:induction false} ForwardIgnoresLocalOutcome(r1: Replica, r2: Replica, hasNext: bool, command: string, body: string, p: Operands, o: Oracle)
    requires LogModel.StagedOk(r1.log) && r1.log == r2.log
    requires WriteOp(command, p).Some?
    ensures CommandStep(r1, hasNext, command, body, p, o).sent == CommandStep(r2, hasNext, command, body, p, o).sent
    ensures hasNext && !LogModel.LogIsFull(r1.log) ==>
      CommandStep(r1, hasNext, command, body, p, o).sent == Some(CallOf(WriteOp(command, p).value))
  {
  }

  /** Reads ignore the log (full or not), forward nothing and change
      nothing. `get_node` always has a body; `get_edge`, `get_neighbors`
      and `shortest_path` have one iff their status is 200. */
  lemma {:induction false} ReadsChangeNothing(r: Replica, hasNext: bool, command: string, body: string, p: Operands, o: Oracle)
    requires LogModel.StagedOk(r.log) && IsRead(command)
    ensures var s := CommandStep(r, hasNext, command, body, p, o);
      && s.sent == None && s.replica == r && s.reply.Some?
      && (command == "get_node" ==> s.reply.value.status == OK && s.reply.value.body != "")
      && (command != "get_node" ==> (s.reply.value.body == "" <==> s.reply.value.status != OK))
  {
  }

  /** `checkpoint` answers 507 and changes nothing while the log is full;
      otherwise it answers 200 with an empty body, leaves the graph alone
      and checkpoints it, so that a restore from the result rebuilds it
      (given a fresh checkpoint buffer and a region that fits the device). */
  lemma {:induction false} CheckpointCommand(r: Replica, hasNext: bool, body: string, p: Operands, o: Oracle)
    requires LogModel.StagedOk(r.log)
    ensures var s := CommandStep(r, hasNext, "checkpoint", body, p, o);
      && s.sent == None && s.replica.graph == r.graph
      && (LogModel.LogIsFull(r.log) ==> s.reply == Some(HttpReply(LOG_FULL_STATUS, "")) && s.replica == r)
      && (!LogModel.LogIsFull(r.log) ==>
            && s.reply == Some(HttpReply(OK, ""))
            && s.replica.log == LogModel.Checkpoint(r.log, LogModel.NodeRecords(o.order) + o.edges))
    ensures var s := CommandStep(r, hasNext, "checkpoint", body, p, o);
      && !LogModel.LogIsFull(r.log) && WellFormed(r.graph) && r.graph != map[]
      && LogModel.CheckpointRecords(r.graph, o.order, o.edges)
      && CkEntryCnt(r.log.checkptBlock) == 0
      && 1 <= LogModel.LogSize(r.log) && LogModel.LogSize(r.log) + |o.order| + |o.edges| < LogModel.ADDRESSABLE_BLOCKS
      ==> LogModel.RestoreCheckpoint(s.replica.log, map[]).1 == r.graph
  {
    if !LogModel.LogIsFull(r.log) && WellFormed(r.graph) && r.graph != map[]
      && LogModel.CheckpointRecords(r.graph, o.order, o.edges)
      && CkEntryCnt(r.log.checkptBlock) == 0
      && 1 <= LogModel.LogSize(r.log) && LogModel.LogSize(r.log) + |o.order| + |o.edges| < LogModel.ADDRESSABLE_BLOCKS
    {
      CheckpointProperties.CheckpointRoundTrip(r.log, r.graph, o.order, o.edges);
    }
  }

  /** Outside the API prefix the request goes to the static-file server,
      a method other than POST gets no answer, and a command the handler
      does not know gets an empty response; none of them changes
      anything. */
  lemma {:induction false} OtherRequestsChangeNothing(r: Replica, hasNext: bool, req: HttpRequest, p: Operands, o: Oracle)
    requires LogModel.StagedOk(r.log)
    ensures var (result, sent, r') := HttpStep(r, hasNext, req, p, o);
      var command := GetCommandTypeFromUri(req.fromUri);
      && (!HasPrefix(req.uri, API_PREFIX) ==> result == StaticContent && sent == None && r' == r)
      && (HasPrefix(req.uri, API_PREFIX) && req.verb != "POST" ==> result == NoResponse && sent == None && r' == r)
      && ((HasPrefix(req.uri, API_PREFIX) && req.verb == "POST" && WriteOp(command, p).None? && !IsRead(command)
            && command != "checkpoint") ==> result == Response("") && sent == None && r' == r)
  {
  }

  /** Every request keeps the server healthy: in particular the cursor
      never leaves the log region, because appends and checkpoints are
      both refused once it reaches the end. */
  lemma {:induction false} CommandKeepsHealthy(r: Replica, hasNext: bool, command: string, body: string, p: Operands, o: Oracle)
    requires Healthy(r)
    ensures Healthy(CommandStep(r, hasNext, command, body, p, o).replica)
  {
    match WriteOp(command, p)
    case Some(op) =>
      MutationKeepsHealthy(r, op, hasNext, o.next);
    case None =>
      if command == "checkpoint" && !LogModel.LogIsFull(r.log) {
        var t := r.log.(blockOffset := LogModel.LogSize(r.log));
        var a := LogModel.CkAddAll(t, LogModel.NodeRecords(o.order) + o.edges);
        LogProperties.CommitCheckpointFacts(a);
      }
  }

  /** A formatted server starts healthy, with an empty graph and the
      cursor at the start of the log. */
  lemma {:induction false} FormatStartsHealthy(c: Config, device: LogModel.Device, logSegSize: u32)
    requires c.format && logSegSize >= 1
    ensures var r := Startup(c, device, logSegSize);
      Healthy(r) && r.graph == map[] && r.log.blockOffset == 1
      && LogModel.LogSize(r.log) == logSegSize
  {
    var s := LogModel.LogState(device, ZeroBlock, ZeroBlock, ZeroBlock, 0);
    LogProperties.FormatFacts(s, logSegSize);
    ZeroBlockEntries();
  }
}
