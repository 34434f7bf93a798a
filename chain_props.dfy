/** Servers composed into a chain: each server's replication handler calls
    the next one's, the last one has no next server, and the HTTP handler
    of the first one starts the write. What every server does follows from
    the write rule; what the chain does is proved here by induction on its
    length. Calls between servers are taken to reach their target: the
    chain model has no network failures. */
module ChainProperties {
  import opened Types
  import opened Blocks
  import opened GraphStore
  import LogModel
  import opened Chain
  import opened RpcService
  import opened HttpServer

  /** What the RPC client hands back to the previous server: the message
      of an OK reply, and a failed call for a cancelled one. */
  function Delivered(o: RpcOutcome): Downstream {
    if o.status == RpcOk then Ok(o.message) else Failed
  }

  /** The previous server reads "RPC failed" exactly when the call was
      cancelled: no acknowledgement reads as a failure. */
  lemma {:induction false} FailureSeenIffCancelled(r: Replica, hasNext: bool, call: RpcCall, next: Downstream)
    requires LogModel.StagedOk(r.log)
    ensures var o := Served(r, hasNext, call, next);
      ClientReply(Delivered(o)) == RPC_FAILED <==> o.status == Cancelled
  {
    var o := Served(r, hasNext, call, next);
    if o.status == RpcOk {
      assert o.message == SuccessMessage(call);
      assert o.message[0] == 'S' && RPC_FAILED[0] == 'R';
    }
  }

  ghost predicate AllStaged(rs: seq<Replica>) {
    forall i :: 0 <= i < |rs| ==> LogModel.StagedOk(rs[i].log)
  }

  predicate NoneFull(rs: seq<Replica>) {
    forall i :: 0 <= i < |rs| ==> !LogModel.LogIsFull(rs[i].log)
  }

  /** A replication call handed to the first of `rs`: the first server's
      outcome and every server's new state. A server with a full log does
      not call the next one, which then keeps its state. */
  function ChainServed(rs: seq<Replica>, call: RpcCall): (res: (RpcOutcome, seq<Replica>))
    requires rs != [] && AllStaged(rs)
    ensures |res.1| == |rs| && AllStaged(res.1)
    ensures res.0.status == RpcOk ==> res.0.message == SuccessMessage(call)
    decreases |rs|
  {
    if |rs| == 1 then
      var o := Served(rs[0], false, call, Failed);
      (o, [o.replica])
    else if LogModel.LogIsFull(rs[0].log) then
      var o := Served(rs[0], true, call, Failed);
      assert AllStaged(rs[1..]);
      (o, [o.replica] + rs[1..])
    else
      assert AllStaged(rs[1..]);
      var (d, rest) := ChainServed(rs[1..], call);
      var o := Served(rs[0], true, call, Delivered(d));
      (o, [o.replica] + rest)
  }

  /** The all-or-nothing outcome of a write on servers `rs`, with `o` the
      first server's outcome and `rs'` the servers afterwards. */
  ghost predicate AllOrNothing(rs: seq<Replica>, o: RpcOutcome, rs': seq<Replica>, op: Op)
    requires AllStaged(rs)
  {
    && |rs'| == |rs|
    && (o.status == RpcOk <==> NoneFull(rs))
    && (o.status == Cancelled ==> rs' == rs)
    && (o.status == RpcOk ==> forall i :: 0 <= i < |rs| ==> rs'[i] == Performed(rs[i], op))
  }

  /** A write handed to a chain is all or nothing: it is acknowledged iff no
      server's log is full, and then every server has performed the same
      operation (and logged it where its graph answered 200); otherwise no
      server has changed. */
  lemma {:induction false} ChainAllOrNothing(rs: seq<Replica>, call: RpcCall)
    requires rs != [] && AllStaged(rs)
    ensures var (o, rs') := ChainServed(rs, call);
      && (o.status == RpcOk <==> NoneFull(rs))
      && (o.status == Cancelled ==> rs' == rs)
      && (o.status == RpcOk ==> forall i :: 0 <= i < |rs| ==> rs'[i] == Performed(rs[i], OpOf(call)))
    decreases |rs|
  {
    if |rs| == 1 {
      LastAllOrNothing(rs, Served(rs[0], false, call, Failed), OpOf(call));
    } else if LogModel.LogIsFull(rs[0].log) {
      assert !NoneFull(rs) by { assert LogModel.LogIsFull(rs[0].log); }
      assert [rs[0]] + rs[1..] == rs;
    } else {
      assert AllStaged(rs[1..]);
      ChainAllOrNothing(rs[1..], call);
      FailureSeenIffCancelledOfChain(rs[1..], call);
      var (d, rest) := ChainServed(rs[1..], call);
      ConsAllOrNothing(rs, Served(rs[0], true, call, Delivered(d)), d, rest, OpOf(call));
    }
  }

  /** The last server of the chain alone: its outcome `o` is all or
      nothing. */
  lemma {:induction false} LastAllOrNothing(rs: seq<Replica>, o: RpcOutcome, op: Op)
    requires |rs| == 1 && AllStaged(rs)
    requires o.status == RpcOk <==> !LogModel.LogIsFull(rs[0].log)
    requires o.status == Cancelled ==> o.replica == rs[0]
    requires o.status == RpcOk ==> o.replica == Performed(rs[0], op)
    ensures AllOrNothing(rs, o, [o.replica], op)
  {
    NoneFullCons(rs);
    assert NoneFull(rs[1..]);
    if o.status == Cancelled {
      assert [o.replica] == rs;
    }
  }

  /** The step of the induction: the first server of `rs` has room, the
      servers behind it ended all or nothing with outcome `d`, and the first
      server's outcome `o` is OK iff `d` is. */
  lemma {:induction false} ConsAllOrNothing(rs: seq<Replica>, o: RpcOutcome, d: RpcOutcome, rest: seq<Replica>, op: Op)
    requires |rs| > 1 && AllStaged(rs) && AllStaged(rs[1..]) && !LogModel.LogIsFull(rs[0].log)
    requires AllOrNothing(rs[1..], d, rest, op)
    requires o.status == RpcOk <==> d.status == RpcOk
    requires o.status == Cancelled ==> o.replica == rs[0]
    requires o.status == RpcOk ==> o.replica == Performed(rs[0], op)
    ensures AllOrNothing(rs, o, [o.replica] + rest, op)
  {
    NoneFullCons(rs);
    if o.status == RpcOk {
      AppliedCons(rs, o.replica, rest, op);
    } else {
      assert [o.replica] + rest == [rs[0]] + rs[1..];
    }
  }

  /** No log is full in a list iff none is in its head and its tail. */
  lemma {:induction false} NoneFullCons(rs: seq<Replica>)
    requires rs != []
    ensures NoneFull(rs) <==> !LogModel.LogIsFull(rs[0].log) && NoneFull(rs[1..])
  {
    var tail := rs[1..];
    if !LogModel.LogIsFull(rs[0].log) && NoneFull(tail) {
      forall i | 0 <= i < |rs| ensures !LogModel.LogIsFull(rs[i].log) {
        if i > 0 { assert rs[i] == tail[i - 1]; }
      }
    }
    if NoneFull(rs) {
      forall i | 0 <= i < |tail| ensures !LogModel.LogIsFull(tail[i].log) {
        assert tail[i] == rs[i + 1];
      }
    }
  }

  /** Every server performed `op` when the head did and the tail did. */
  lemma {:induction false} AppliedCons(rs: seq<Replica>, head: Replica, rest: seq<Replica>, op: Op)
    requires rs != [] && AllStaged(rs) && |rest| == |rs| - 1
    requires head == Performed(rs[0], op)
    requires forall i :: 0 <= i < |rest| ==> rest[i] == Performed(rs[1..][i], op)
    ensures forall i :: 0 <= i < |rs| ==> ([head] + rest)[i] == Performed(rs[i], op)
  {
    var rs' := [head] + rest;
    forall i | 0 <= i < |rs| ensures rs'[i] == Performed(rs[i], op) {
      if i > 0 {
        assert rs'[i] == rest[i - 1] && rs[i] == rs[1..][i - 1];
      }
    }
  }

  /** The first server of a chain of at least two reads "RPC failed" from
      the chain behind it exactly when that chain cancelled. */
  lemma {:induction false} FailureSeenIffCancelledOfChain(rs: seq<Replica>, call: RpcCall)
    requires rs != [] && AllStaged(rs)
    ensures ClientReply(Delivered(ChainServed(rs, call).0)) == RPC_FAILED <==> ChainServed(rs, call).0.status == Cancelled
  {
    var o := ChainServed(rs, call).0;
    if o.status == RpcOk {
      assert o.message == SuccessMessage(call);
      assert o.message[0] == 'S' && RPC_FAILED[0] == 'R';
    }
  }

  /** Servers that hold the same graph still hold the same graph after a
      write has gone through the chain, whether or not it was applied. */
  lemma {:induction false} ChainStaysConsistent(rs: seq<Replica>, call: RpcCall, g: Adjacency)
    requires rs != [] && AllStaged(rs)
    requires forall i :: 0 <= i < |rs| ==> rs[i].graph == g
    ensures var (o, rs') := ChainServed(rs, call);
      var g' := if o.status == RpcOk then Apply(g, OpOf(call)).graph else g;
      forall i :: 0 <= i < |rs'| ==> rs'[i].graph == g'
  {
    ChainAllOrNothing(rs, call);
  }

  /** A write command at the HTTP handler of the first server, with `rs`
      the servers behind it: the first server's step and the new states of
      the others. */
  function HeadCommand(h: Replica, rs: seq<Replica>, command: string, body: string, p: Operands, o: Oracle): (res: (Step, seq<Replica>))
    requires LogModel.StagedOk(h.log) && AllStaged(rs) && WriteOp(command, p).Some?
  {
    var op := WriteOp(command, p).value;
    if rs == [] then (CommandStep(h, false, command, body, p, o), rs)
    else if LogModel.LogIsFull(h.log) then (CommandStep(h, true, command, body, p, o), rs)
    else
      var (d, rs') := ChainServed(rs, CallOf(op));
      (CommandStep(h, true, command, body, p, o.(next := Delivered(d))), rs')
  }

  /** A write at the head of a chain either reaches every server or none:
      when no log in the chain is full, each server has performed the
      request's operation and the head answers with its own graph's status;
      otherwise the head answers 507 (its own log is full) or 500 (a log
      behind it is full) and no server has changed. */
  lemma {:induction false} HeadWriteAllOrNothing(h: Replica, rs: seq<Replica>, command: string, body: string, p: Operands, o: Oracle)
    requires LogModel.StagedOk(h.log) && AllStaged(rs) && WriteOp(command, p).Some?
    ensures var op := WriteOp(command, p).value;
      var (s, rs') := HeadCommand(h, rs, command, body, p, o);
      && |rs'| == |rs|
      && (!LogModel.LogIsFull(h.log) && NoneFull(rs) ==>
            && s.reply.value.status == Apply(h.graph, op).status
            && s.replica == Performed(h, op)
            && forall i :: 0 <= i < |rs| ==> rs'[i] == Performed(rs[i], op))
      && (LogModel.LogIsFull(h.log) ==> s.reply.value.status == LOG_FULL_STATUS && s.replica == h && rs' == rs)
      && (!LogModel.LogIsFull(h.log) && !NoneFull(rs) ==>
            s.reply.value.status == FORWARD_FAILED_STATUS && s.replica == h && rs' == rs)
  {
    var op := WriteOp(command, p).value;
    var (s, rs') := HeadCommand(h, rs, command, body, p, o);
    if LogModel.LogIsFull(h.log) {
      FullLogRefusesWrites(h, rs != [], command, body, p, o);
    } else if rs == [] {
      AppliedWriteEchoesBody(h, false, command, body, p, o);
    } else {
      var (d, down) := ChainServed(rs, CallOf(op));
      ChainAllOrNothing(rs, CallOf(op));
      FailureSeenIffCancelledOfChain(rs, CallOf(op));
      CallRoundTrip(op);
      var o' := o.(next := Delivered(d));
      if d.status == RpcOk {
        AppliedWriteEchoesBody(h, true, command, body, p, o');
      } else {
        FailedForwardAnswers500(h, command, body, p, o');
      }
    }
  }
}
