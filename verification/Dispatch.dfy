/**
 Sending one request over the Iroh backend: the stages of an attempt, the dispatch certainty each failure
 carries, and the retry loop that certainty gates.
 */
module Dispatch {
  import opened Bytes

  datatype Stage = Connect | OpenStream | WriteRequest | ReadResponse | Cancel

  datatype Category = InvalidInput | Unavailable | Timeout | Protocol | Cancelled

  datatype Certainty = NotSent | Unknown

  datatype TransportError = TransportError(stage: Stage, category: Category, dispatch: Certainty)

  /** How an awaited operation ends under its timeout and cancellation token. */
  datatype Ending = Done | Refused | TimedOut | Aborted

  /** A response as the client sees it; `convertible` when status, headers and length parse. */
  datatype Response = Response(id: int, convertible: bool)

  /** Everything the environment decides about one attempt. */
  datatype Attempt = Attempt(
    zeroTimeout: bool,
    pooled: bool,            // a live connection is already there
    connect: Ending, open: Ending, handshake: Ending,
    valid: bool,             // the request converts to HTTP
    exchange: Ending, response: Response)

  /** `cancellable`: abort and timeout take the caller's certainty, whatever the operation was. */
  function Cancellable(e: Ending, stage: Stage, dispatch: Certainty, refused: Category): Option<TransportError> {
    match e
    case Done => None
    case Refused => Some(TransportError(stage, refused, dispatch))
    case TimedOut => Some(TransportError(stage, Timeout, dispatch))
    case Aborted => Some(TransportError(Cancel, Cancelled, dispatch))
  }

  /** The failure of an operation that does not finish: when it was aborted, and when it ran out of time, that shows. */
  lemma CancellableMeans(e: Ending, stage: Stage, dispatch: Certainty, refused: Category)
    ensures var error := Cancellable(e, stage, dispatch, refused);
            && (error.None? <==> e == Done)
            && (error.Some? ==>
                  && error.value.dispatch == dispatch
                  && error.value.stage == (if e == Aborted then Cancel else stage)
                  && error.value.category ==
                     (if e == Aborted then Cancelled else if e == TimedOut then Timeout else refused))
  {
  }

  class ClientEndpoint {
    /** How many times a request was given to a stream. */
    var handed: nat

    constructor ()
      ensures handed == 0
    {
      handed := 0;
    }

    method OpenHttp(a: Attempt) returns (error: Option<TransportError>)
      ensures error.None? <==> (a.pooled || a.connect.Done?) && a.open.Done?
      ensures error.Some? ==>
                var failed, stage := if !a.pooled && !a.connect.Done? then a.connect else a.open,
                                     if !a.pooled && !a.connect.Done? then Connect else OpenStream;
                error == Cancellable(failed, stage, NotSent, Unavailable)
      ensures error.Some? ==> error.value.dispatch == NotSent
    {
      if !a.pooled {
        error := Cancellable(a.connect, Connect, NotSent, Unavailable);
        if error.Some? { return; }
      }
      error := Cancellable(a.open, OpenStream, NotSent, Unavailable);
    }

    /** One exchange. Its error says "not sent" exactly when the request was not given to the stream. */
    method RequestOnce(a: Attempt) returns (r: Result<Response, TransportError>)
      modifies this
      ensures handed == old(handed) + if HandsOver(a) then 1 else 0
      ensures r.Ok? <==> HandsOver(a) && a.exchange.Done?
      ensures r.Ok? ==> r.value == a.response
      ensures r.Err? ==> (r.error.dispatch == NotSent <==> !HandsOver(a))
      ensures r.Err? && HandsOver(a) ==> Some(r.error) == Cancellable(a.exchange, ReadResponse, Unknown, Protocol)
      ensures a.zeroTimeout ==> r == Err(TransportError(ReadResponse, InvalidInput, NotSent))
    {
      if a.zeroTimeout { return Err(TransportError(ReadResponse, InvalidInput, NotSent)); }
      var error := OpenHttp(a);
      if error.Some? { return Err(error.value); }
      error := Cancellable(a.handshake, OpenStream, NotSent, Protocol);
      if error.Some? { return Err(error.value); }
      if !a.valid { return Err(TransportError(WriteRequest, InvalidInput, NotSent)); }
      handed := handed + 1;
      error := Cancellable(a.exchange, ReadResponse, Unknown, Protocol);
      if error.Some? { return Err(error.value); }
      r := Ok(a.response);
    }

    /** The Iroh backend: only a failure marked "not sent" is safe to retry. */
    method Execute(a: Attempt) returns (r: Result<Response, bool>)
      modifies this
      ensures handed == old(handed) + if HandsOver(a) then 1 else 0
      ensures r == IrohResult(a)
    {
      var response := RequestOnce(a);
      if response.Err? { return Err(response.error.dispatch == NotSent); }
      if !response.value.convertible { return Err(false); }
      r := Ok(response.value);
    }

    /** `send`: attempt `k` meets `attempts(k)`; `Err(n)` is the failure of the last of `n` attempts. */
    method Send(retryable: bool, maxAttempts: nat, attempts: nat -> Attempt) returns (r: Result<Response, nat>)
      modifies this
      ensures var s := SendRun(attempts, 0, Budget(retryable, maxAttempts));
              r == s.result && handed == old(handed) + s.handed
    {
      var budget := if retryable then (if maxAttempts > 1 then maxAttempts else 1) else 1;
      var k := 0;
      while k < budget
        invariant k <= budget && old(handed) <= handed
        invariant var s := SendRun(attempts, k, budget);
                  SendRun(attempts, 0, budget) == SendOutcome(s.result, handed - old(handed) + s.handed)
      {
        var res := Execute(attempts(k));
        k := k + 1;
        if res.Ok? { return Ok(res.value); }
        if !res.error { return Err(k); }
      }
      r := Err(budget);
    }
  }

  /** Every stage before `send_request` succeeded. */
  predicate HandsOver(a: Attempt) {
    !a.zeroTimeout && (a.pooled || a.connect.Done?) && a.open.Done? && a.handshake.Done? && a.valid
  }

  /** `Err(b)`: failed, and safe to retry when `b`. */
  function IrohResult(a: Attempt): Result<Response, bool> {
    if !HandsOver(a) then Err(true)
    else if a.exchange.Done? && a.response.convertible then Ok(a.response)
    else Err(false)
  }

  function Budget(retryable: bool, maxAttempts: nat): nat {
    if retryable && maxAttempts > 1 then maxAttempts else 1
  }

  datatype SendOutcome = SendOutcome(result: Result<Response, nat>, handed: nat)

  function SendRun(attempts: nat -> Attempt, k: nat, budget: nat): SendOutcome
    requires k <= budget
    decreases budget - k
  {
    if k == budget then SendOutcome(Err(budget), 0)
    else
      var n := if HandsOver(attempts(k)) then 1 else 0;
      match IrohResult(attempts(k))
      case Ok(response) => SendOutcome(Ok(response), n)
      case Err(false) => SendOutcome(Err(k + 1), n)
      case Err(true) =>
        var rest := SendRun(attempts, k + 1, budget);
        SendOutcome(rest.result, n + rest.handed)
  }

  lemma {:induction false} HandedAtMostOnce(attempts: nat -> Attempt, k: nat, budget: nat)
    requires k <= budget
    ensures var s := SendRun(attempts, k, budget);
            && s.handed <= 1
            && (s.result.Ok? ==> s.handed == 1)
            && (s.result.Err? && s.handed == 0 ==> s.result.error == budget)
            && (s.handed == 0 <==> forall i :: k <= i < budget ==> !HandsOver(attempts(i)))
    decreases budget - k
  {
    hide HandsOver;
    if k >= budget {
    } else {
      IrohCertainty(attempts(k));
      HandedAtMostOnce(attempts, k + 1, budget);
    }
  }

  lemma IrohCertainty(a: Attempt)
    ensures IrohResult(a) == Err(true) <==> !HandsOver(a)
    ensures IrohResult(a).Ok? ==> HandsOver(a)
  {
  }

  /**
   For every retry configuration and every environment, one `send` hands its request to a stream at most
   once: exactly once when it returns a response, and a send that handed nothing over had used every attempt.
   Without opting in, or for exchanges, there is a single attempt.
   */
  lemma SendHandsOverAtMostOnce(retryable: bool, maxAttempts: nat, attempts: nat -> Attempt)
    ensures var budget := Budget(retryable, maxAttempts);
            var s := SendRun(attempts, 0, budget);
            && s.handed <= 1
            && (s.result.Ok? ==> s.handed == 1)
            && (s.handed == 0 <==> forall i :: 0 <= i < budget ==> !HandsOver(attempts(i)))
            && (s.result.Err? && s.handed == 0 ==> s.result.error == budget)
            && (!retryable ==> budget == 1)
  {
    HandedAtMostOnce(attempts, 0, Budget(retryable, maxAttempts));
  }

  /** Attempts before the first that hands over change nothing. */
  lemma {:induction false} SkipsFruitless(attempts: nat -> Attempt, k: nat, n: nat, budget: nat)
    requires k <= n <= budget && forall i :: k <= i < n ==> !HandsOver(attempts(i))
    ensures SendRun(attempts, k, budget) == SendRun(attempts, n, budget)
    decreases n - k
  {
    hide HandsOver;
    if k == n {
    } else {
      IrohCertainty(attempts(k));
      SkipsFruitless(attempts, k + 1, n, budget);
    }
  }

  /** The request never gets to a stream on this attempt: a stage before that fails, or it is no HTTP request. */
  predicate Fruitless(a: Attempt) {
    || a.zeroTimeout
    || (!a.pooled && a.connect != Done)
    || a.open != Done
    || a.handshake != Done
    || !a.valid
  }

  /**
   In every environment: the first attempt that is not fruitless decides. The send returns that attempt's response
   exactly when its exchange finished and the response converts, and otherwise fails with it; when every attempt is
   fruitless the send fails after all of them.
   */
  lemma SendDecidedByFirst(retryable: bool, maxAttempts: nat, attempts: nat -> Attempt, k: nat)
    requires k <= Budget(retryable, maxAttempts) && forall i :: 0 <= i < k ==> Fruitless(attempts(i))
    requires k < Budget(retryable, maxAttempts) ==> !Fruitless(attempts(k))
    ensures var budget := Budget(retryable, maxAttempts);
            var s := SendRun(attempts, 0, budget);
            && budget == (if retryable && maxAttempts > 1 then maxAttempts else 1)
            && (k < budget ==>
                  var a := attempts(k);
                  s.result == if a.exchange == Done && a.response.convertible then Ok(a.response) else Err(k + 1))
            && (k == budget ==> s.result == Err(budget))
            && s.handed == if k < budget then 1 else 0
  {
    var budget := Budget(retryable, maxAttempts);
    SkipsFruitless(attempts, 0, k, budget);
  }

  // A backend that calls every failure retry-safe, as the reqwest one does.

  function AlwaysSafeRun(attempts: nat -> Attempt, k: nat, budget: nat): SendOutcome
    requires k <= budget
    decreases budget - k
  {
    if k == budget then SendOutcome(Err(budget), 0)
    else
      var n := if HandsOver(attempts(k)) then 1 else 0;
      if IrohResult(attempts(k)).Ok? then SendOutcome(Ok(attempts(k).response), n)
      else
        var rest := AlwaysSafeRun(attempts, k + 1, budget);
        SendOutcome(rest.result, n + rest.handed)
  }

  lemma {:induction false} ReplaysCounted(attempts: nat -> Attempt, k: nat, budget: nat)
    requires k <= budget && forall i :: HandsOver(attempts(i)) && !attempts(i).exchange.Done?
    ensures AlwaysSafeRun(attempts, k, budget).handed == budget - k
    decreases budget - k
  {
    if k >= budget {
    } else {
      ReplaysCounted(attempts, k + 1, budget);
    }
  }

  /**
   There a request can be handed over on every attempt: at most once holds, in every environment, only without
   retries.
   */
  lemma AlwaysSafeReplays(retryable: bool, maxAttempts: nat)
    ensures (forall attempts: nat -> Attempt :: AlwaysSafeRun(attempts, 0, Budget(retryable, maxAttempts)).handed <= 1)
       <==> !(retryable && maxAttempts > 1)
  {
    var budget := Budget(retryable, maxAttempts);
    if retryable && maxAttempts > 1 {
      var a := Attempt(false, true, Done, Done, Done, true, TimedOut, Response(0, true));
      var attempts: nat -> Attempt := _ => a;
      ReplaysCounted(attempts, 0, budget);
      assert AlwaysSafeRun(attempts, 0, budget).handed == budget;
    } else {
      forall attempts: nat -> Attempt
        ensures AlwaysSafeRun(attempts, 0, budget).handed <= 1
      {
        assert AlwaysSafeRun(attempts, 1, 1).handed == 0;
      }
    }
  }
}
