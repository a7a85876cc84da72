/** One HTTPI claim from request to response: both rings of a slot, the budget and the node together. */
module HttpiClaim {
  import opened Bytes
  import opened Region
  import opened RegionRings
  import opened RequestBudget
  import opened RequestEnvelope
  import opened RequestReader
  import opened ResponseEnvelope
  import opened ResponseWriter
  import RingProtocol
  import R = SharedRing

  /** What the node makes of a request, and the texts of the errors that are reported to the client. */
  datatype Node = Node(fetch: Request -> Outcome, parseText: EnvelopeError -> seq<byte>, headText: seq<byte>) {
    /** The outcome of a claim whose request was read, or failed to be. */
    function OutcomeOf(r: Result<Request, EnvelopeError>): Outcome {
      match r
      case Ok(q) => fetch(q)
      case Err(e) => Outcome.ParseFailed(parseText(e))
    }
  }

  /** The one sentence that answers what was read. */
  function Reply(node: Node, r: Result<Request, EnvelopeError>): seq<byte> {
    SentenceForWellFormed(node.OutcomeOf(r), node.headText);
    Encode(SentenceFor(node.OutcomeOf(r), node.headText))
  }

  /**
   What the client learns: the outcome of the request that was read, or, when none could be read, a failure of the parse
   before anything was dispatched, with its text.
   */
  lemma ReplyMeans(node: Node, r: Result<Request, EnvelopeError>)
    ensures r.Ok? ==>
              && WellFormed(SentenceFor(node.fetch(r.value), node.headText))
              && Reply(node, r) == Encode(SentenceFor(node.fetch(r.value), node.headText))
    ensures r.Err? ==>
              var d := ResponseEnvelope.Decode(Reply(node, r));
              && d.Ok? && d.value.0.terminalOnly && d.value.0.ending.Terminal?
              && d.value.0.ending.evidence == Codes(Failure(AtParse, InvalidRequest, NotDispatched))
              && IsDetail(d.value.0.ending.detail, node.parseText(r.error))
  {
    hide Encode, ResponseEnvelope.Decode, Codes, SentenceFor, WellFormed;
    SentenceForWellFormed(node.OutcomeOf(r), node.headText);
    if r.Err? { FailureReply(node.OutcomeOf(r), node.headText); }
  }

  /** The two rings of one slot share the buffer and no byte of it. */
  ghost predicate Siblings(client: R.SharedRing, worker: R.SharedRing) {
    && client != worker && client.bytes == worker.bytes
    && (|| client.dataOffset + client.ringCap <= worker.dataOffset
        || worker.dataOffset + worker.ringCap <= client.dataOffset)
  }

  /** Bytes of the buffer outside both rings. */
  twostate predicate OutsideBothUnchanged(client: R.SharedRing, worker: R.SharedRing)
    reads client.bytes
  {
    forall i :: 0 <= i < client.bytes.Length && !client.Owns(i) && !worker.Owns(i) ==>
                  client.bytes[i] == old(client.bytes[i])
  }

  /** Reads the request, whose body stays reserved; `worker` is not touched. */
  method ReadClaim(client: R.SharedRing, ghost worker: R.SharedRing, budget: RequestBodyBudget, limits: Limits,
                   wakeups: nat, ghost q: Request, ghost frames: seq<seq<byte>>, ghost reserved: seq<byte>,
                   ghost slack: seq<byte>, ghost x: seq<byte>)
    returns (r: Result<Request, EnvelopeError>, waiting: bool, ghost held: nat, ghost seen: seq<byte>)
    requires client.Valid() && worker.Valid() && Siblings(client, worker) && wakeups > 0
    requires budget.perRequest == limits.perRequest && budget.aggregate == limits.aggregate
    requires Encodable(q, frames) && |reserved| == 2 && |slack| == 3 && FitsBudget(frames, 0, 0, limits)
    modifies client, client.bytes, budget
    ensures client.Valid() && client.OutsideUnchanged() && worker.Valid()
    ensures budget.used == held + if r.Ok? then |r.value.body| else 0
    ensures old(client.sent) <= client.sent
    ensures waiting ==> r == Err(EndedEarly)
    ensures r == Err(EndedEarly) ==>
              && old(client.sent) <= seen <= client.sent
              && (client.Owned() ==> seen <= client.got && (waiting || client.closed))
    ensures var wire := old(client.got) + EncodeRequest(q, frames, reserved, slack);
            client.sent <= wire + x ==>
              || (r == Ok(q) && wire <= client.got)
              || (r == Err(EndedEarly) && (client.Owned() ==> !(wire <= seen)))
  {
    hide RequestEnvelope.EncodeRequest, Encodable, FitsBudget;
    var reader := new RingReader(client);
    r, held := ReadEncodedRequest(reader, budget, limits, wakeups, q, frames, reserved, slack, x);
    seen := reader.seen;
    waiting := r == Err(EndedEarly) && reader.waited;
  }

  /** Writes the outcome; `client` is not touched. */
  method WriteClaim(ghost client: R.SharedRing, worker: R.SharedRing, o: Outcome, headText: seq<byte>, wakeups: nat)
    returns (completed: bool)
    requires client.Valid() && worker.Valid() && Siblings(client, worker) && !worker.closed
    requires WellFormed(SentenceFor(o, headText))
    requires worker.write + |Encode(SentenceFor(o, headText))| <= RingProtocol.MAX_INT32
    modifies worker, worker.bytes
    ensures client.Valid() && Served(worker, Encode(SentenceFor(o, headText)), completed)
  {
    hide SentenceFor, Encode, WellFormed;
    completed := ServeOutcome(worker, o, headText, wakeups);
  }

  lemma DecodesWhenWhole(node: Node, r: Result<Request, EnvelopeError>, p: seq<byte>)
    requires p <= Reply(node, r)
    ensures ResponseEnvelope.Decode(p).Ok? <==> p == Reply(node, r)
    ensures p == Reply(node, r) ==>
              ResponseEnvelope.Decode(p) == Ok((SentenceFor(node.OutcomeOf(r), node.headText), []))
  {
    hide Encode, ResponseEnvelope.Decode, WellFormed, SentenceFor;
    SentenceForWellFormed(node.OutcomeOf(r), node.headText);
    TruncationDetected(SentenceFor(node.OutcomeOf(r), node.headText), p);
  }

  /**
   The whole claim, for a client that sends the encoding of `q` and then at most `x`. Whatever is written is a prefix of
   the reply to what was read, and decodes exactly when it is all there. What was read is `q`, unless the claim was lost
   or the ring was closed before the encoding was seen; `waiting` tells a reader that is still polling. The reservation
   is given back once the node has answered, the response ring is closed on completion, and both rings keep their
   invariants.
   */
  method ServeHttpiClaim(client: R.SharedRing, worker: R.SharedRing, budget: RequestBodyBudget, limits: Limits,
                         node: Node, wakeups: nat, ghost q: Request, ghost frames: seq<seq<byte>>,
                         ghost reserved: seq<byte>, ghost slack: seq<byte>, ghost x: seq<byte>)
    returns (r: Result<Request, EnvelopeError>, waiting: bool, completed: bool, ghost held: nat, ghost seen: seq<byte>)
    requires client.Valid() && worker.Valid() && Siblings(client, worker) && wakeups > 0 && !worker.closed
    requires budget.perRequest == limits.perRequest && budget.aggregate == limits.aggregate
    requires Encodable(q, frames) && |reserved| == 2 && |slack| == 3 && FitsBudget(frames, 0, 0, limits)
    requires forall a :: worker.write + |Reply(node, a)| <= RingProtocol.MAX_INT32
    modifies client, worker, client.bytes, budget
    ensures client.Valid() && worker.Valid() && budget.used == held && OutsideBothUnchanged(client, worker)
    ensures old(worker.sent) <= worker.sent <= old(worker.sent) + Reply(node, r)
    ensures completed ==> worker.sent == old(worker.sent) + Reply(node, r)
    ensures !completed ==> waiting || Stuck(worker, old(worker.got))
    ensures worker.closed ==> completed
    ensures completed && worker.Owned() ==> worker.closed
    ensures var out := worker.sent[|old(worker.sent)|..];
            && (ResponseEnvelope.Decode(out).Ok? <==> out == Reply(node, r))
            && (completed ==> ResponseEnvelope.Decode(out) == Ok((SentenceFor(node.OutcomeOf(r), node.headText), [])))
    ensures r == Err(EndedEarly) && client.Owned() ==>
              old(client.sent) <= seen <= client.got && (waiting || client.closed)
    ensures var wire := old(client.got) + EncodeRequest(q, frames, reserved, slack);
            client.sent <= wire + x ==>
              || (r == Ok(q) && wire <= client.got)
              || (r == Err(EndedEarly) && (client.Owned() ==> !(wire <= seen)))
  {
    hide R.SharedRing.Valid, RequestEnvelope.EncodeRequest, Encodable, FitsBudget, SentenceFor;
    r, waiting, held, seen := ReadClaim(client, worker, budget, limits, wakeups, q, frames, reserved, slack, x);
    completed := false;
    SentenceForWellFormed(node.OutcomeOf(r), node.headText);
    ghost var reply := Reply(node, r);
    if !waiting {
      var outcome := node.OutcomeOf(r);
      if r.Ok? { budget.Release(|r.value.body|); }
      completed := WriteClaim(client, worker, outcome, node.headText, wakeups);
    }
    ghost var out := worker.sent[|old(worker.sent)|..];
    assert worker.sent == old(worker.sent) + out;
    assert out <= reply && (completed ==> out == reply);
    DecodesWhenWhole(node, r, out);
  }

  /** Serving a claim on one slot of a region keeps every other slot's rings and all control bytes. */
  method ServeSlot(r: Region, rings: Rings, slot: nat, bytes: array<byte>, budget: RequestBodyBudget, limits: Limits,
                   node: Node, wakeups: nat, ghost q: Request, ghost frames: seq<seq<byte>>, ghost reserved: seq<byte>,
                   ghost slack: seq<byte>, ghost x: seq<byte>)
    returns (completed: bool)
    requires RegionValid(r, rings, bytes) && Seat(slot, ClientRing) in rings && Seat(slot, WorkerRing) in rings
    requires wakeups > 0 && !rings[Seat(slot, WorkerRing)].closed
    requires budget.perRequest == limits.perRequest && budget.aggregate == limits.aggregate
    requires Encodable(q, frames) && |reserved| == 2 && |slack| == 3 && FitsBudget(frames, 0, 0, limits)
    requires forall a :: rings[Seat(slot, WorkerRing)].write + |Reply(node, a)| <= RingProtocol.MAX_INT32
    modifies rings[Seat(slot, ClientRing)], rings[Seat(slot, WorkerRing)], bytes, budget
    ensures RegionValid(r, rings, bytes) && ControlKept(r, bytes)
  {
    hide Encodable, FitsBudget, Reply, RequestEnvelope.EncodeRequest, SentenceFor, ResponseEnvelope.Decode;
    hide Accepted, Addressable, Spaced, PartFirst;
    var clientSeat, workerSeat := Seat(slot, ClientRing), Seat(slot, WorkerRing);
    var client, worker := rings[clientSeat], rings[workerSeat];
    PartsApart(r, slot, ClientRing, slot, WorkerRing);
    var answer, waiting; ghost var held, seen;
    answer, waiting, completed, held, seen :=
      ServeHttpiClaim(client, worker, budget, limits, node, wakeups, q, frames, reserved, slack, x);
    forall t | t in rings && t != clientSeat && t != workerSeat
      ensures rings[t].Valid()
    {
      PartsApart(r, slot, ClientRing, t.slot, t.side);
      PartsApart(r, slot, WorkerRing, t.slot, t.side);
    }
    ControlApart(r, clientSeat);
    ControlApart(r, workerSeat);
  }
}
