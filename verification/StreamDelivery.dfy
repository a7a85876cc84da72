/** What a run on one stream sends and hands out, said of the operations, the server's replies and the outputs. */
module StreamDelivery {
  import opened Bytes
  import opened Frames
  import opened HttpStream
  import opened ResumeToken

  // What is sent.

  /** The inputs of the exchange requests. */
  function InputsSent(sent: seq<Request>): seq<int> {
    if sent == [] then [] else InputOf(sent[0]) + InputsSent(sent[1..])
  }

  function InputOf(q: Request): seq<int> {
    if q.kind.ExchangeInput? then [q.kind.input] else []
  }

  /** The inputs of the exchanges that the session lets through: not cancelled, and a cursor at hand. */
  function InputsGiven(s: Session, server: Server, ops: seq<Op>): seq<int>
    decreases |ops|
  {
    if ops == [] then []
    else (if ops[0].DoExchange? && !s.cancelled && s.token.Some? then [ops[0].input] else [])
         + InputsGiven(Do(s, server, ops[0]).s, server, ops[1..])
  }

  /** How often a run asks for the stream to be cancelled, counting only while it may still be. */
  function CancelsSent(sent: seq<Request>): nat {
    if sent == [] then 0 else (if sent[0].kind.Cancelling? then 1 else 0) + CancelsSent(sent[1..])
  }

  lemma {:induction false} InputsAppend(a: seq<Request>, b: seq<Request>)
    ensures InputsSent(a + b) == InputsSent(a) + InputsSent(b)
    ensures CancelsSent(a + b) == CancelsSent(a) + CancelsSent(b)
    decreases |a|
  {
    hide InputOf;
    if a == [] {
      assert a + b == b;
    } else {
      assert (a + b)[0] == a[0] && (a + b)[1..] == a[1..] + b;
      InputsAppend(a[1..], b);
      Regroup(InputOf(a[0]), InputsSent(a[1..]), InputsSent(b));
    }
  }

  lemma {:induction false} TickSendsNoInput(s: Session, server: Server, turns: nat)
    ensures var c := Tick(s, server, turns); InputsSent(c.sent) == [] && CancelsSent(c.sent) == 0
    ensures Tick(s, server, turns).s.cancelled == s.cancelled
    decreases turns
  {
    hide Tick, Replied;
    TickStops(s, server, turns);
    if s.cancelled || s.pending != [] || s.finished || s.token.None? || turns == 0 {
    } else {
      var q := Request(s.token.value, s.callToken, Continue);
      TickAsks(s, server, turns);
      if server(q).Ok? {
        StillOpen(s);
        TickSendsNoInput(Replied(s, server(q).value), server, turns - 1);
        assert ([q] + Tick(Replied(s, server(q).value), server, turns - 1).sent)[1..]
            == Tick(Replied(s, server(q).value), server, turns - 1).sent;
      } else {
        assert [q][1..] == [];
      }
    }
  }

  lemma DoSends(s: Session, server: Server, op: Op)
    ensures var c := Do(s, server, op);
            && InputsSent(c.sent) == (if op.DoExchange? && !s.cancelled && s.token.Some? then [op.input] else [])
            && CancelsSent(c.sent) == (if op.DoCancel? && !s.cancelled && s.token.Some? then 1 else 0)
            && (c.s.cancelled <==> s.cancelled || op.DoCancel?)
  {
    if op.DoTick? {
      TickSendsNoInput(s, server, op.turns);
    } else {
      var sent := Do(s, server, op).sent;
      assert sent != [] ==> sent[1..] == [];
    }
  }

  /** Over every run the exchange requests carry exactly the inputs of the exchanges let through, in order. */
  lemma {:induction false} InputsReachTheWire(s: Session, server: Server, ops: seq<Op>)
    ensures InputsSent(DoAll(s, server, ops).sent) == InputsGiven(s, server, ops)
    ensures CancelsSent(DoAll(s, server, ops).sent) <= if s.cancelled then 0 else 1
    decreases |ops|
  {
    hide Do;
    if ops == [] {
    } else {
      var c := Do(s, server, ops[0]);
      DoSends(s, server, ops[0]);
      InputsReachTheWire(c.s, server, ops[1..]);
      InputsAppend(c.sent, DoAll(c.s, server, ops[1..]).sent);
    }
  }

  // What is handed out.

  function BatchOf(r: Result<Turn, RpcError>): seq<Frame> {
    if r.Ok? && r.value.batch.Some? then [r.value.batch.value] else []
  }

  /** The batch of the reply to a request, if it is an exchange request, or a continuation request, as asked. */
  function ReplyBatch(server: Server, q: Request, exchange: bool): seq<Frame> {
    if (if exchange then q.kind.ExchangeInput? else q.kind.Continue?) then BatchOf(server(q)) else []
  }

  /** The batches of the replies to the exchange requests, or to the continuation requests, in order. */
  function Supplied(server: Server, sent: seq<Request>, exchange: bool): seq<Frame> {
    if sent == [] then [] else ReplyBatch(server, sent[0], exchange) + Supplied(server, sent[1..], exchange)
  }

  function Handed(out: Output): seq<Frame> {
    if out.Item? then [out.batch] else []
  }

  /** What the exchanges of the run returned, or what its ticks and token reads returned. */
  function Returned(ops: seq<Op>, outs: seq<Output>, exchange: bool): seq<Frame>
    requires |ops| == |outs|
  {
    if ops == [] then []
    else (if ops[0].DoExchange? == exchange then Handed(outs[0]) else []) + Returned(ops[1..], outs[1..], exchange)
  }

  lemma {:induction false} RepliesAppend(server: Server, a: seq<Request>, b: seq<Request>, exchange: bool)
    ensures Supplied(server, a + b, exchange) == Supplied(server, a, exchange) + Supplied(server, b, exchange)
    decreases |a|
  {
    hide ReplyBatch;
    if a == [] {
      assert a + b == b;
    } else {
      assert (a + b)[0] == a[0] && (a + b)[1..] == a[1..] + b;
      RepliesAppend(server, a[1..], b, exchange);
      Regroup(ReplyBatch(server, a[0], exchange), Supplied(server, a[1..], exchange), Supplied(server, b, exchange));
    }
  }

  lemma OneReply(server: Server, q: Request)
    ensures Supplied(server, [q], false) == if q.kind.Continue? then BatchOf(server(q)) else []
    ensures Supplied(server, [q], true) == if q.kind.ExchangeInput? then BatchOf(server(q)) else []
  {
    assert [q][1..] == [];
  }

  /** At most one batch is queued; calls keep it so. */
  predicate OneQueued(s: Session) {
    |s.pending| <= 1
  }

  lemma {:induction false} TickHands(s: Session, server: Server, turns: nat)
    requires OneQueued(s)
    ensures var c := Tick(s, server, turns);
            && OneQueued(c.s) && Supplied(server, c.sent, true) == []
            && Handed(c.out) + c.s.pending == s.pending + Supplied(server, c.sent, false)
    decreases turns
  {
    hide Tick;
    TickStops(s, server, turns);
    if s.cancelled || s.pending != [] || s.finished || s.token.None? || turns == 0 {
      assert s.pending + [] == s.pending && [] + s.pending == s.pending;
    } else {
      var q := Request(s.token.value, s.callToken, Continue);
      TickAsks(s, server, turns);
      OneReply(server, q);
      if server(q).Ok? {
        var s' := Replied(s, server(q).value);
        TickHands(s', server, turns - 1);
        RepliesAppend(server, [q], Tick(s', server, turns - 1).sent, false);
        RepliesAppend(server, [q], Tick(s', server, turns - 1).sent, true);
        assert [] + (s'.pending + Supplied(server, Tick(s', server, turns - 1).sent, false))
            == s'.pending + Supplied(server, Tick(s', server, turns - 1).sent, false);
      }
    }
  }

  lemma DoHands(s: Session, server: Server, op: Op)
    requires OneQueued(s)
    ensures var c := Do(s, server, op);
            && OneQueued(c.s)
            && (if op.DoExchange? then [] else Handed(c.out)) + c.s.pending
            == s.pending + Supplied(server, c.sent, false)
            && (if op.DoExchange? then Handed(c.out) else []) == Supplied(server, c.sent, true)
  {
    hide Tick, Supplied;
    NoReplies(server);
    if op.DoTick? {
      TickHands(s, server, op.turns);
    } else {
      var kind := if op.DoExchange? then ExchangeInput(op.input) else if op.DoNext? then Continue else Cancelling;
      OneReply(server, Request(if s.token.Some? then s.token.value else [], s.callToken, kind));
      assert s.pending + [] == s.pending && [] + s.pending == s.pending;
    }
  }

  /**
   Over every run, however its operations are mixed: what ticks and token reads returned, with what is still queued, is
   what was queued at first and then the batches of the replies to the continuation requests; what exchanges returned
   is the batches of the replies to the exchange requests. No batch is lost, repeated or out of order.
   */
  lemma {:induction false} EveryBatchHandedOut(s: Session, server: Server, ops: seq<Op>)
    requires OneQueued(s)
    ensures var r := DoAll(s, server, ops);
            && |r.outs| == |ops|
            && Returned(ops, r.outs, false) + r.s.pending == s.pending + Supplied(server, r.sent, false)
            && Returned(ops, r.outs, true) == Supplied(server, r.sent, true)
    decreases |ops|
  {
    hide Do, Supplied, Handed;
    if ops == [] {
      assert [] + s.pending == s.pending + [];
      NoReplies(server);
    } else {
      var c := Do(s, server, ops[0]);
      DoHands(s, server, ops[0]);
      EveryBatchHandedOut(c.s, server, ops[1..]);
      var rest := DoAll(c.s, server, ops[1..]);
      var outs := [c.out] + rest.outs;
      assert outs[1..] == rest.outs;
      RepliesAppend(server, c.sent, rest.sent, false);
      RepliesAppend(server, c.sent, rest.sent, true);
      var now := if ops[0].DoExchange? then [] else Handed(c.out);
      Regroup(now, Returned(ops[1..], rest.outs, false), rest.s.pending);
      Regroup(now, c.s.pending, Supplied(server, rest.sent, false));
      Regroup(s.pending, Supplied(server, c.sent, false), Supplied(server, rest.sent, false));
    }
  }

  lemma NoReplies(server: Server)
    ensures Supplied(server, [], false) == [] && Supplied(server, [], true) == []
  {
  }

  /** From the opening reply on: its batch comes first. */
  lemma OpenedStreamHandsOut(init: Turn, call: Option<Str>, server: Server, ops: seq<Op>)
    ensures var r := DoAll(Opened(init, call), server, ops);
            && |r.outs| == |ops|
            && Returned(ops, r.outs, false) + r.s.pending
            == (if init.batch.Some? then [init.batch.value] else []) + Supplied(server, r.sent, false)
            && Returned(ops, r.outs, true) == Supplied(server, r.sent, true)
  {
    EveryBatchHandedOut(Opened(init, call), server, ops);
  }

  // Errors and ends.

  /** Every request but the last was answered with a cursor and no batch; the last reply decides the output. */
  predicate AnsweredByLast(server: Server, c: Called)
    requires c.sent != []
  {
    var reply := server(c.sent[|c.sent| - 1]);
    && (forall i :: 0 <= i < |c.sent| - 1 ==> EmptyReply(server, c.sent[i]))
    && (reply.Err? ==> c.out == Failed(reply.error))
    && (reply.Ok? && reply.value.batch.Some? ==> c.out.Item? && c.out.batch == reply.value.batch.value)
    && (reply.Ok? && reply.value.batch.None? ==> c.out == End || (c.out == Following && reply.value.token.Some?))
  }

  lemma {:induction false} TickAnswered(s: Session, server: Server, turns: nat)
    requires s.pending == [] && Tick(s, server, turns).sent != []
    ensures AnsweredByLast(server, Tick(s, server, turns))
    ensures Tick(s, server, turns).out == End ==> Tick(s, server, turns).s.token.None?
    decreases turns
  {
    hide Tick;
    TickStops(s, server, turns);
    TickAsks(s, server, turns);
    var q := Request(s.token.value, s.callToken, Continue);
    if server(q).Ok? {
      var s' := Replied(s, server(q).value);
      var rest := Tick(s', server, turns - 1);
      TickStops(s', server, turns - 1);
      if s'.pending == [] && !s'.finished && s'.token.Some? && turns > 1 {
        TickAsks(s', server, turns - 1);
        TickAnswered(s', server, turns - 1);
        var sent := [q] + rest.sent;
        assert sent[|sent| - 1] == rest.sent[|rest.sent| - 1];
        forall i | 0 <= i < |sent| - 1
          ensures EmptyReply(server, sent[i])
        {
          if i > 0 { assert sent[i] == rest.sent[i - 1]; }
        }
      }
    }
  }

  /**
   What a call returns: decided by the last reply when it asked, and otherwise by the session alone, which answers an
   operation after a cancel or an exchange without a cursor with an error.
   */
  lemma CallAnswered(s: Session, server: Server, op: Op)
    ensures var c := Do(s, server, op);
            && (s.cancelled ==> c.sent == [] && c.out == if op.DoCancel? then End else Failed(AfterClose))
            && (!s.cancelled && op.DoExchange? && s.token.None? ==> c.sent == [] && c.out == Failed(NoToken))
            && (!s.cancelled && (op.DoTick? || (op.DoNext? && |s.pending| == 1)) && s.pending != [] ==>
                  c.sent == [] && c.out.Item? && c.out.batch == s.pending[0])
            && (!s.cancelled && op.DoNext? && |s.pending| > 1 ==> c.sent == [] && c.out == Failed(MultipleBatches))
            && (!s.cancelled && (op.DoTick? || op.DoNext?) && s.pending == [] && (s.finished || s.token.None?) ==>
                  c.sent == [] && c.out == End)
            && (!s.cancelled && op.DoNext? && s.pending == [] && !s.finished && s.token.Some? ==> c.sent != [])
            && (!op.DoCancel? && c.sent != [] ==> AnsweredByLast(server, c))
  {
    if op.DoTick? {
      TickStops(s, server, op.turns);
      if !s.cancelled && s.pending == [] && Tick(s, server, op.turns).sent != [] {
        TickAnswered(s, server, op.turns);
      }
    }
  }

  /** Seeking does not reopen a cancelled stream; otherwise the session goes on as one that was resumed at the blob. */
  lemma SeekExactly(s: Session, blob: Str, server: Server, ops: seq<Op>)
    ensures !s.cancelled ==> SeekToToken(s, blob) == ResumeStream(blob)
    ensures s.cancelled ==> DoAll(SeekToToken(s, blob), server, ops).sent == []
  {
    hide Unpack;
    if s.cancelled { NothingAfterCancel(SeekToToken(s, blob), server, ops); }
  }

  lemma {:induction false} NothingAfterCancel(s: Session, server: Server, ops: seq<Op>)
    requires s.cancelled
    ensures DoAll(s, server, ops).sent == []
    decreases |ops|
  {
    hide Tick;
    if ops == [] {
    } else {
      if ops[0].DoTick? { TickStops(s, server, ops[0].turns); }
      NothingAfterCancel(Do(s, server, ops[0]).s, server, ops[1..]);
    }
  }

  /** The stream is finished exactly when it has no cursor left: so it is opened, and so ticks keep it. */
  predicate InStep(s: Session) {
    !s.cancelled && OneQueued(s) && (s.finished <==> s.token.None?)
  }

  lemma {:induction false} TickInStep(s: Session, server: Server, turns: nat)
    requires InStep(s)
    ensures var c := Tick(s, server, turns);
            && InStep(c.s)
            && (c.out == End <==> c.s.pending == [] && c.s.token.None? && !c.out.Item?)
            && (c.out == Following ==> c.s.token.Some?)
    decreases turns
  {
    hide Tick;
    TickStops(s, server, turns);
    if s.cancelled || s.pending != [] || s.finished || s.token.None? || turns == 0 {
    } else {
      var q := Request(s.token.value, s.callToken, Continue);
      TickAsks(s, server, turns);
      if server(q).Ok? { TickInStep(Replied(s, server(q).value), server, turns - 1); }
    }
  }

  predicate AllTicks(ops: seq<Op>) {
    forall i :: 0 <= i < |ops| ==> ops[i].DoTick?
  }

  /**
   Reading a stream by ticks: an end is reported only when the server has sent no further cursor and every batch has
   been handed out.
   */
  lemma {:induction false} TicksEndWithTheStream(s: Session, server: Server, ops: seq<Op>)
    requires InStep(s) && AllTicks(ops)
    ensures var r := DoAll(s, server, ops);
            && InStep(r.s)
            && (End in r.outs ==> r.s.token.None? && r.s.pending == [])
            && (s.token.None? && s.pending == [] ==> forall o :: o in r.outs ==> o == End)
    decreases |ops|
  {
    hide Do, Tick;
    if ops == [] {
    } else {
      var c := Tick(s, server, ops[0].turns);
      assert Do(s, server, ops[0]) == c by { assert ops[0].DoTick?; DoIsTick(s, server, ops[0]); }
      TickInStep(s, server, ops[0].turns);
      TickStops(s, server, ops[0].turns);
      TicksEndWithTheStream(c.s, server, ops[1..]);
      var rest := DoAll(c.s, server, ops[1..]);
      if c.out == End { EndsStayEnded(c.s, server, ops[1..]); }
    }
  }

  lemma DoIsTick(s: Session, server: Server, op: Op)
    requires op.DoTick?
    ensures Do(s, server, op) == Tick(s, server, op.turns)
  {
  }

  lemma {:induction false} EndsStayEnded(s: Session, server: Server, ops: seq<Op>)
    requires InStep(s) && AllTicks(ops) && s.token.None? && s.pending == []
    ensures DoAll(s, server, ops).s == s && DoAll(s, server, ops).sent == []
    decreases |ops|
  {
    hide Tick;
    if ops == [] {
    } else {
      assert ops[0].DoTick?;
      TickStops(s, server, ops[0].turns);
      EndsStayEnded(s, server, ops[1..]);
    }
  }
}
