/**
 The request-body budget shared by every claim of the adapter, together with the node's cap on pending
 wasm operations. A lease taken while a request is parsed is given back by exactly one of three places:
 the parser's error path, the caller when no wasm request was started, or the settling of that request,
 which may come long after the caller was aborted.
 */
module RequestBudget {
  import opened Bytes

  datatype BudgetError = PerRequestLimit | AggregateExhausted

  function Admission(used: nat, perRequest: nat, aggregate: nat, current: nat, additional: nat)
    : Result<nat, BudgetError>
  {
    if current + additional > perRequest then Err(PerRequestLimit)
    else if used + additional > aggregate then Err(AggregateExhausted)
    else Ok(used + additional)
  }

  /** What is left in use after giving back `bytes`, clamped at zero. */
  function Released(used: nat, bytes: nat): nat {
    if used < bytes then 0 else used - bytes
  }

  class RequestBodyBudget {
    const perRequest: nat
    const aggregate: nat
    var used: nat

    constructor (perRequest: nat, aggregate: nat)
      ensures this.perRequest == perRequest && this.aggregate == aggregate && used == 0
    {
      this.perRequest, this.aggregate, used := perRequest, aggregate, 0;
    }

    /** Take `additional` bytes for a request already holding `current`, or refuse and take nothing. */
    method Reserve(current: nat, additional: nat) returns (r: Option<BudgetError>)
      modifies this
      ensures r.None? <==> current + additional <= perRequest && old(used) + additional <= aggregate
      ensures r.None? ==> used == old(used) + additional
      ensures r.Some? ==>
                && used == old(used) && Err(r.value) == Admission(used, perRequest, aggregate, current, additional)
                && (r.value == PerRequestLimit <==> current + additional > perRequest)
    {
      if current + additional > perRequest { return Some(PerRequestLimit); }
      if used + additional > aggregate { return Some(AggregateExhausted); }
      used := used + additional;
      return None;
    }

    method Release(bytes: nat)
      modifies this
      ensures used == Released(old(used), bytes)
    {
      used := if used - bytes < 0 then 0 else used - bytes;
    }
  }

  // Every claim of the adapter, and the wasm requests they start. Bytes are given back at three places: where the
  // parse fails, in the `finally` after the fetch, and in a callback on the wasm request's own settlement.

  /** The reading of the request. */
  datatype Reading = Ongoing | Threw | Returned

  /** How far the code of one claim has come. */
  datatype Claim = Claim(
    reading: Reading,
    started: bool,         // the wasm request was started and the settlement hook called
    settled: bool,         // the wasm request itself has settled
    fetchOver: bool,       // the fetch has returned or thrown, for the caller
    finallyRun: bool,
    registered: bool,      // a release waits for the settlement
    fired: bool,           // that release has run
    lease: nat, releases: nat)
  {
    predicate Live() { releases == 0 }

    predicate Operating() { started && !settled }
  }

  const ARRIVED := Claim(Ongoing, false, false, false, false, false, false, 0, 0)

  datatype Adapter = Adapter(
    perRequest: nat, aggregate: nat, maxPending: nat,
    used: nat, pendingOperations: int,
    streams: nat,          // openings of raw streams that have not settled
    claims: seq<Claim>)

  datatype Event =
    | Start
    | StreamStarts                        // a raw stream is opened on the same node
    | StreamSettles
    | BodyFrame(claim: nat, length: nat)  // reserve for one body frame; a refusal throws
    | ReadThrows(claim: nat)              // malformed, ended early or aborted
    | ReadReturns(claim: nat)
    | WasmStarts(claim: nat)
    | WasmSettles(claim: nat)
    | FetchEnds(claim: nat)               // refused, aborted before or after the start, or answered
    | FinallyRuns(claim: nat)
    | CallbackRuns(claim: nat)
  {
    predicate OfClaim() { !Start? && !StreamStarts? && !StreamSettles? }
  }

  /** Each event with the test that the code makes before it, or the position in the code that it needs. */
  predicate Enabled(s: Adapter, e: Event) {
    if e.Start? then true
    else if e.StreamStarts? then s.pendingOperations < s.maxPending
    else if e.StreamSettles? then s.streams > 0
    else
      && e.claim < |s.claims|
      && var c := s.claims[e.claim];
         match e
         case BodyFrame(_, _) => c.reading.Ongoing?
         case ReadThrows(_) => c.reading.Ongoing?
         case ReadReturns(_) => c.reading.Ongoing?
         case WasmStarts(_) => c.reading.Returned? && !c.fetchOver && !c.started && s.pendingOperations < s.maxPending
         case WasmSettles(_) => c.started && !c.settled
         case FetchEnds(_) => c.reading.Returned? && !c.fetchOver
         case FinallyRuns(_) => c.fetchOver && !c.finallyRun
         case CallbackRuns(_) => c.registered && c.settled && !c.fired
  }

  function Put(s: Adapter, i: nat, c: Claim): Adapter
    requires i < |s.claims|
  {
    s.(claims := s.claims[i := c])
  }

  /** `release` of the claim's reservation, as the claim moves to `c`. */
  function GiveBack(s: Adapter, i: nat, c: Claim): Adapter
    requires i < |s.claims|
  {
    Put(s.(used := Released(s.used, c.lease)), i, c.(releases := c.releases + 1))
  }

  function Step(s: Adapter, e: Event): Adapter
    requires Enabled(s, e)
  {
    match e
    case Start => s.(claims := s.claims + [ARRIVED])
    case StreamStarts => s.(pendingOperations := s.pendingOperations + 1, streams := s.streams + 1)
    case StreamSettles => s.(pendingOperations := s.pendingOperations - 1, streams := s.streams - 1)
    case BodyFrame(i, n) =>
      var c := s.claims[i];
      (match Admission(s.used, s.perRequest, s.aggregate, c.lease, n)
       case Ok(used) => Put(s.(used := used), i, c.(lease := c.lease + n))
       case Err(_) => GiveBack(s, i, c.(reading := Threw)))
    case ReadThrows(i) => GiveBack(s, i, s.claims[i].(reading := Threw))
    case ReadReturns(i) => Put(s, i, s.claims[i].(reading := Returned))
    case WasmStarts(i) => Put(s.(pendingOperations := s.pendingOperations + 1), i, s.claims[i].(started := true))
    case WasmSettles(i) => Put(s.(pendingOperations := s.pendingOperations - 1), i, s.claims[i].(settled := true))
    case FetchEnds(i) => Put(s, i, s.claims[i].(fetchOver := true))
    case FinallyRuns(i) =>
      var c := s.claims[i].(finallyRun := true);
      if c.started then Put(s, i, c.(registered := true)) else GiveBack(s, i, c)
    case CallbackRuns(i) => GiveBack(s, i, s.claims[i].(fired := true))
  }

  function Leased(claims: seq<Claim>): nat {
    if claims == [] then 0
    else (if claims[0].Live() then claims[0].lease else 0) + Leased(claims[1..])
  }

  function Operations(claims: seq<Claim>): nat {
    if claims == [] then 0
    else (if claims[0].Operating() then 1 else 0) + Operations(claims[1..])
  }

  function One(b: bool): nat {
    if b then 1 else 0
  }

  /** The release sites exclude each other: what the order of the code makes of the flags. */
  predicate Coherent(c: Claim) {
    && (c.started || c.fetchOver ==> c.reading.Returned?)
    && (c.settled ==> c.started)
    && (c.finallyRun ==> c.fetchOver)
    && (c.registered <==> c.finallyRun && c.started)
    && (c.fired ==> c.registered && c.settled)
    && c.releases == One(c.reading.Threw?) + One(c.finallyRun && !c.started) + One(c.fired)
  }

  ghost predicate Balanced(s: Adapter) {
    && s.used == Leased(s.claims) <= s.aggregate
    && s.pendingOperations == Operations(s.claims) + s.streams <= s.maxPending
    && forall i {:trigger s.claims[i]} :: 0 <= i < |s.claims| ==>
         Coherent(s.claims[i]) && s.claims[i].lease <= s.perRequest
  }

  lemma {:induction false} LeasedUpdate(claims: seq<Claim>, i: nat, c: Claim)
    requires i < |claims|
    ensures Leased(claims[i := c]) == Leased(claims)
              - (if claims[i].Live() then claims[i].lease else 0) + (if c.Live() then c.lease else 0)
    ensures claims[i].Live() ==> claims[i].lease <= Leased(claims)
    ensures Operations(claims[i := c]) == Operations(claims)
              - (if claims[i].Operating() then 1 else 0) + (if c.Operating() then 1 else 0)
    ensures claims[i].Operating() ==> 1 <= Operations(claims)
  {
    if i == 0 {
      assert claims[i := c][1..] == claims[1..];
    } else {
      LeasedUpdate(claims[1..], i - 1, c);
      assert claims[i := c][1..] == claims[1..][i - 1 := c];
    }
  }

  lemma {:induction false} LeasedAppend(claims: seq<Claim>, c: Claim)
    ensures Leased(claims + [c]) == Leased(claims) + if c.Live() then c.lease else 0
    ensures Operations(claims + [c]) == Operations(claims) + if c.Operating() then 1 else 0
  {
    if claims == [] {
      assert claims + [c] == [c] && [c][1..] == [];
    } else {
      LeasedAppend(claims[1..], c);
      assert (claims + [c])[1..] == claims[1..] + [c];
    }
  }

  /** Giving back a live lease frees exactly that lease: the clamp at zero does nothing. */
  lemma GiveBackBalanced(s: Adapter, i: nat, c: Claim)
    requires Balanced(s) && i < |s.claims| && s.claims[i].Live() && c.Live()
    requires c.lease == s.claims[i].lease && c.Operating() == s.claims[i].Operating()
    requires Coherent(c.(releases := 1))
    ensures Balanced(GiveBack(s, i, c))
    ensures c.lease <= s.used && GiveBack(s, i, c).used == s.used - c.lease
  {
    LeasedUpdate(s.claims, i, c.(releases := c.releases + 1));
  }

  lemma PutBalanced(s: Adapter, i: nat, c: Claim, used: nat, pending: int)
    requires Balanced(s) && i < |s.claims| && c.Live() == s.claims[i].Live() && Coherent(c) && c.lease <= s.perRequest
    requires used == s.used + (if c.Live() then c.lease - s.claims[i].lease else 0) && used <= s.aggregate
    requires pending == s.pendingOperations - One(s.claims[i].Operating()) + One(c.Operating())
    requires pending <= s.maxPending
    ensures Balanced(Put(s.(used := used, pendingOperations := pending), i, c))
  {
    LeasedUpdate(s.claims, i, c);
  }

  lemma BodyFrameBalanced(s: Adapter, i: nat, n: nat)
    requires Balanced(s) && Enabled(s, BodyFrame(i, n))
    ensures Balanced(Step(s, BodyFrame(i, n)))
  {
    var c := s.claims[i];
    assert Coherent(c);
    match Admission(s.used, s.perRequest, s.aggregate, c.lease, n)
    case Ok(used) => PutBalanced(s, i, c.(lease := c.lease + n), used, s.pendingOperations);
    case Err(_) => GiveBackBalanced(s, i, c.(reading := Threw));
  }

  lemma FinallyBalanced(s: Adapter, i: nat)
    requires Balanced(s) && Enabled(s, FinallyRuns(i))
    ensures Balanced(Step(s, FinallyRuns(i)))
  {
    var c := s.claims[i].(finallyRun := true);
    assert Coherent(s.claims[i]);
    if c.started {
      PutBalanced(s, i, c.(registered := true), s.used, s.pendingOperations);
    } else {
      GiveBackBalanced(s, i, c);
    }
  }

  lemma StepBalanced(s: Adapter, e: Event)
    requires Balanced(s) && Enabled(s, e)
    ensures Balanced(Step(s, e))
  {
    if e.OfClaim() { assert Coherent(s.claims[e.claim]); }
    hide Balanced;
    match e
    case Start => StartBalanced(s);
    case StreamStarts => StreamBalanced(s, e);
    case StreamSettles => StreamBalanced(s, e);
    case BodyFrame(i, n) => BodyFrameBalanced(s, i, n);
    case ReadThrows(i) => GiveBackBalanced(s, i, s.claims[i].(reading := Threw));
    case ReadReturns(i) => FlagBalanced(s, i, s.claims[i].(reading := Returned), s.pendingOperations);
    case WasmStarts(i) => FlagBalanced(s, i, s.claims[i].(started := true), s.pendingOperations + 1);
    case WasmSettles(i) => FlagBalanced(s, i, s.claims[i].(settled := true), s.pendingOperations - 1);
    case FetchEnds(i) => FlagBalanced(s, i, s.claims[i].(fetchOver := true), s.pendingOperations);
    case FinallyRuns(i) => FinallyBalanced(s, i);
    case CallbackRuns(i) => GiveBackBalanced(s, i, s.claims[i].(fired := true));
  }

  lemma StartBalanced(s: Adapter)
    requires Balanced(s)
    ensures Balanced(Step(s, Start))
  {
    LeasedAppend(s.claims, ARRIVED);
  }

  lemma StreamBalanced(s: Adapter, e: Event)
    requires Balanced(s) && Enabled(s, e) && (e.StreamStarts? || e.StreamSettles?)
    ensures Balanced(Step(s, e))
  {
  }

  lemma FlagBalanced(s: Adapter, i: nat, c: Claim, pending: int)
    requires Balanced(s) && i < |s.claims| && Coherent(c)
    requires c.lease == s.claims[i].lease && c.releases == s.claims[i].releases
    requires pending == s.pendingOperations - One(s.claims[i].Operating()) + One(c.Operating())
    requires pending <= s.pendingOperations || pending <= s.maxPending
    ensures Balanced(Put(s.(pendingOperations := pending), i, c))
  {
    PutBalanced(s, i, c, s.used, pending);
  }

  predicate Legal(s: Adapter, events: seq<Event>)
    decreases |events|
  {
    events == [] || (Enabled(s, events[0]) && Legal(Step(s, events[0]), events[1..]))
  }

  function Run(s: Adapter, events: seq<Event>): Adapter
    requires Legal(s, events)
    decreases |events|
  {
    if events == [] then s else Run(Step(s, events[0]), events[1..])
  }

  lemma {:induction false} RunBalanced(s: Adapter, events: seq<Event>)
    requires Balanced(s) && Legal(s, events)
    ensures Balanced(Run(s, events))
    ensures Run(s, events).aggregate == s.aggregate && Run(s, events).maxPending == s.maxPending
    decreases |events|
  {
    hide Balanced;
    if events == [] {
    } else {
      StepBalanced(s, events[0]);
      RunBalanced(Step(s, events[0]), events[1..]);
    }
  }

  function Installed(perRequest: nat, aggregate: nat, maxPending: nat): Adapter {
    Adapter(perRequest, aggregate, maxPending, 0, 0, 0, [])
  }

  /** The code of the claim has run to its end, callbacks included. */
  predicate Finished(c: Claim) {
    c.reading.Threw? || (c.finallyRun && !c.started) || c.fired
  }

  /**
   Over every run: the bytes in use are the live leases and fit the aggregate, a wasm request that outlives its caller
   still counts against both caps, and a lease is given back once when its claim has finished and never before or again.
   */
  lemma BudgetConserved(perRequest: nat, aggregate: nat, maxPending: nat, events: seq<Event>)
    requires Legal(Installed(perRequest, aggregate, maxPending), events)
    ensures var s := Run(Installed(perRequest, aggregate, maxPending), events);
            && s.used == Leased(s.claims) <= aggregate
            && s.pendingOperations == Operations(s.claims) + s.streams <= maxPending
            && forall i :: 0 <= i < |s.claims| ==>
                 && s.claims[i].releases == One(Finished(s.claims[i]))
                 && (s.claims[i].Live() ==> s.claims[i].lease <= s.used)
                 && (s.claims[i].Operating() ==> 1 <= s.pendingOperations)
  {
    var s0 := Installed(perRequest, aggregate, maxPending);
    RunBalanced(s0, events);
    var s := Run(s0, events);
    forall i | 0 <= i < |s.claims|
      ensures s.claims[i].releases == One(Finished(s.claims[i]))
      ensures s.claims[i].Live() ==> s.claims[i].lease <= s.used
      ensures s.claims[i].Operating() ==> 1 <= s.pendingOperations
    {
      LeasedUpdate(s.claims, i, s.claims[i]);
      assert Coherent(s.claims[i]);
    }
  }

  // A lease comes back.

  /** An event of claim `i` that does not depend on the other claims. */
  function Due(c: Claim, i: nat): (e: Event)
    ensures e.OfClaim() && e.claim == i
  {
    if c.reading.Ongoing? then ReadThrows(i)
    else if !c.fetchOver then FetchEnds(i)
    else if !c.finallyRun then FinallyRuns(i)
    else if !c.settled then WasmSettles(i)
    else CallbackRuns(i)
  }

  /** How many of the things that happen once to a claim have not happened. */
  function Left(c: Claim): nat {
    One(c.reading.Ongoing?) + One(!c.started) + One(!c.settled) + One(!c.fetchOver) + One(!c.finallyRun) + One(!c.fired)
  }

  /** How many `Due` events there are until the lease is back. */
  function Owing(c: Claim): nat {
    if !c.Live() then 0
    else if c.reading.Ongoing? then 1
    else One(!c.fetchOver) + if c.started then One(!c.finallyRun) + One(!c.settled) + One(!c.fired) else 1
  }

  /** An event of one claim leaves the others alone, and uses up one of the claim's own unless it is a body frame. */
  lemma EventUsesUp(s: Adapter, e: Event)
    requires Enabled(s, e) && e.OfClaim()
    ensures var t := Step(s, e);
            && |t.claims| == |s.claims| && t.claims == s.claims[e.claim := t.claims[e.claim]]
            && Left(t.claims[e.claim]) + One(!e.BodyFrame?) <= Left(s.claims[e.claim])
  {
    hide Released, Admission;
  }

  /** How many events of claim `i`, body frames apart, a run holds. */
  function Moves(events: seq<Event>, i: nat): nat {
    if events == [] then 0
    else One(events[0].OfClaim() && events[0].claim == i && !events[0].BodyFrame?) + Moves(events[1..], i)
  }

  /** No run holds more than six such events of one claim, whatever the other claims do. */
  lemma {:induction false} MovesBounded(s: Adapter, events: seq<Event>, i: nat)
    requires Legal(s, events)
    ensures Moves(events, i) <= if i < |s.claims| then Left(s.claims[i]) else 6
    decreases |events|
  {
    if events == [] {
    } else {
      var e := events[0];
      if e.OfClaim() { EventUsesUp(s, e); }
      MovesBounded(Step(s, e), events[1..], i);
    }
  }

  /** `Due` is enabled while the lease is out, brings its return nearer and touches no other claim. */
  lemma DueAdvances(s: Adapter, i: nat)
    requires Balanced(s) && i < |s.claims| && s.claims[i].Live()
    ensures var e := Due(s.claims[i], i);
            && Enabled(s, e) && Balanced(Step(s, e))
            && var t := Step(s, e);
               && t.claims == s.claims[i := t.claims[i]] && Owing(t.claims[i]) == Owing(s.claims[i]) - 1
               && t.claims[i].releases == One(Owing(t.claims[i]) == 0)
               && t.used == s.used - (if t.claims[i].Live() then 0 else s.claims[i].lease)
               && t.claims[i].lease == s.claims[i].lease
  {
    var c := s.claims[i];
    assert Coherent(c);
    LeasedUpdate(s.claims, i, c);
    assert Enabled(s, Due(c, i));
    StepBalanced(s, Due(c, i));
    assert Coherent(Step(s, Due(c, i)).claims[i]);
  }

  /**
   Whatever state a claim that holds a lease is in, at most four events of its own bring the lease back: the bytes in
   use fall by exactly that lease, and no other claim moves.
   */
  lemma {:induction false} LeaseReturns(s: Adapter, i: nat) returns (es: seq<Event>)
    requires Balanced(s) && i < |s.claims| && s.claims[i].Live()
    ensures |es| == Owing(s.claims[i]) <= 4 && Legal(s, es)
    ensures var t := Run(s, es);
            && |t.claims| == |s.claims| && t.claims == s.claims[i := t.claims[i]] && t.claims[i].releases == 1
            && t.used == s.used - s.claims[i].lease
    decreases Owing(s.claims[i])
  {
    var e := Due(s.claims[i], i);
    DueAdvances(s, i);
    var t := Step(s, e);
    if t.claims[i].Live() {
      var rest := LeaseReturns(t, i);
      es := [e] + rest;
      assert es[1..] == rest;
    } else {
      es := [e];
      assert es[1..] == [];
    }
  }

  /** In every reachable state the lease of every claim can still come back, without any other claim. */
  lemma LeaseNeverStuck(perRequest: nat, aggregate: nat, maxPending: nat, events: seq<Event>, i: nat)
    returns (es: seq<Event>)
    requires Legal(Installed(perRequest, aggregate, maxPending), events)
    requires i < |Run(Installed(perRequest, aggregate, maxPending), events).claims|
    ensures var s := Run(Installed(perRequest, aggregate, maxPending), events);
            && |es| <= 4 && Legal(s, es)
            && var t := Run(s, es);
               && |t.claims| == |s.claims| && t.claims == s.claims[i := t.claims[i]] && t.claims[i].releases == 1
               && t.used == s.used - (if s.claims[i].Live() then s.claims[i].lease else 0)
  {
    var s := Run(Installed(perRequest, aggregate, maxPending), events);
    RunBalanced(Installed(perRequest, aggregate, maxPending), events);
    assert Coherent(s.claims[i]);
    if s.claims[i].Live() {
      es := LeaseReturns(s, i);
    } else {
      es := [];
    }
  }

  lemma {:induction false} NothingLeased(claims: seq<Claim>)
    requires forall i :: 0 <= i < |claims| ==> Finished(claims[i]) && Coherent(claims[i])
    ensures Leased(claims) == 0 && Operations(claims) == 0
  {
    if claims == [] {
    } else {
      assert Finished(claims[0]) && Coherent(claims[0]);
      NothingLeased(claims[1..]);
    }
  }

  /** Once every claim has finished, nothing stays reserved and only raw streams stay charged. */
  lemma BudgetDrains(perRequest: nat, aggregate: nat, maxPending: nat, events: seq<Event>)
    requires Legal(Installed(perRequest, aggregate, maxPending), events)
    requires var s := Run(Installed(perRequest, aggregate, maxPending), events);
             forall i :: 0 <= i < |s.claims| ==> Finished(s.claims[i])
    ensures Run(Installed(perRequest, aggregate, maxPending), events).used == 0
    ensures var s := Run(Installed(perRequest, aggregate, maxPending), events); s.pendingOperations == s.streams
  {
    RunBalanced(Installed(perRequest, aggregate, maxPending), events);
    NothingLeased(Run(Installed(perRequest, aggregate, maxPending), events).claims);
  }
}
