/** One stateless HTTP stream: token-addressed continuation, per-batch resume blobs, exchange and cancel. */
module HttpStream {
  import opened Bytes
  import opened ResumeToken
  import opened Frames

  datatype Kind = Continue | ExchangeInput(input: int) | Cancelling

  /** A continuation request: the cursor, the echoed call token and what it asks for. */
  datatype Request = Request(cursor: Str, call: Option<Str>, kind: Kind)

  /** A parsed reply holds at most one batch. */
  datatype Turn = Turn(batch: Option<Frame>, token: Option<Str>)

  /** A server whose reply is determined by the request alone. */
  type Server = Request -> Result<Turn, RpcError>

  datatype Session = Session(
    pending: seq<Frame>, token: Option<Str>, callToken: Option<Str>, finished: bool, cancelled: bool)

  datatype Output =
    | Item(batch: Frame, blob: Option<Str>)
    | End
    | Failed(error: RpcError)
    | Following       // still following tokens when the allowed turns ran out

  /** The result of one call: the new session, what was returned, and the requests it sent. */
  datatype Called = Called(s: Session, out: Output, sent: seq<Request>)

  function Opened(init: Turn, call: Option<Str>): Session {
    Session(if init.batch.Some? then [init.batch.value] else [], init.token, call, init.token.None?, false)
  }

  function ResumeBlob(s: Session): Option<Str> {
    if s.token.Some? then Some(Pack(s.token.value, s.callToken)) else None
  }

  function NextWithToken(s: Session, server: Server): Called {
    if s.cancelled then Called(s, Failed(AfterClose), [])
    else if |s.pending| > 1 then Called(s, Failed(MultipleBatches), [])
    else if |s.pending| == 1 then Called(s.(pending := []), Item(s.pending[0], ResumeBlob(s)), [])
    else if s.finished || s.token.None? then Called(s.(finished := true), End, [])
    else
      var q := Request(s.token.value, s.callToken, Continue);
      match server(q)
      case Err(e) => Called(s, Failed(e), [q])
      case Ok(turn) =>
        var s' := s.(token := turn.token);
        if turn.batch.Some? then Called(s', Item(turn.batch.value, ResumeBlob(s')), [q])
        else Called(s'.(finished := true), End, [q])
  }

  /** The session with a tick's reply queued. */
  function Replied(s: Session, turn: Turn): Session {
    s.(pending := if turn.batch.Some? then [turn.batch.value] else [],
       token := turn.token, finished := turn.token.None?)
  }

  /** `tick` goes on following tokens until a batch or the end; `turns` bounds how many requests it may send. */
  function Tick(s: Session, server: Server, turns: nat): Called
    decreases turns
  {
    if s.cancelled then Called(s, Failed(AfterClose), [])
    else if s.pending != [] then Called(s.(pending := s.pending[1..]), Item(s.pending[0], None), [])
    else if s.finished || s.token.None? then Called(s.(finished := true), End, [])
    else if turns == 0 then Called(s, Following, [])
    else
      var q := Request(s.token.value, s.callToken, Continue);
      match server(q)
      case Err(e) => Called(s, Failed(e), [q])
      case Ok(turn) =>
        var r := Tick(Replied(s, turn), server, turns - 1);
        r.(sent := [q] + r.sent)
  }

  lemma StillOpen(s: Session)
    ensures forall turn: Turn :: Replied(s, turn).cancelled == s.cancelled
  {
  }

  lemma TickStops(s: Session, server: Server, turns: nat)
    ensures s.cancelled ==> Tick(s, server, turns) == Called(s, Failed(AfterClose), [])
    ensures !s.cancelled && s.pending != [] ==>
              Tick(s, server, turns) == Called(s.(pending := s.pending[1..]), Item(s.pending[0], None), [])
    ensures !s.cancelled && s.pending == [] && (s.finished || s.token.None?) ==>
              Tick(s, server, turns) == Called(s.(finished := true), End, [])
    ensures !s.cancelled && s.pending == [] && !s.finished && s.token.Some? && turns == 0 ==>
              Tick(s, server, turns) == Called(s, Following, [])
  {
  }

  /** A call of `tick` that has to ask goes on from the reply. */
  lemma TickAsks(s: Session, server: Server, turns: nat)
    requires !s.cancelled && s.pending == [] && !s.finished && s.token.Some? && turns > 0
    ensures var q := Request(s.token.value, s.callToken, Continue);
            Tick(s, server, turns) ==
              match server(q)
              case Err(e) => Called(s, Failed(e), [q])
              case Ok(turn) =>
                var r := Tick(Replied(s, turn), server, turns - 1);
                r.(sent := [q] + r.sent)
  {
  }

  function Exchange(s: Session, server: Server, input: int): Called {
    if s.cancelled then Called(s, Failed(AfterClose), [])
    else if s.token.None? then Called(s, Failed(NoToken), [])
    else
      var q := Request(s.token.value, s.callToken, ExchangeInput(input));
      match server(q)
      case Err(e) => Called(s, Failed(e), [q])
      case Ok(turn) =>
        Called(s.(token := turn.token), if turn.batch.Some? then Item(turn.batch.value, None) else End, [q])
  }

  function Cancel(s: Session): Called {
    if s.cancelled then Called(s, End, [])
    else
      Called(s.(cancelled := true, finished := true), End,
             if s.token.Some? then [Request(s.token.value, s.callToken, Cancelling)] else [])
  }

  function At(cursor: Str, call: Option<Str>): Session {
    Session([], Some(cursor), call, false, false)
  }

  /** A session positioned at a blob, with nothing of the stream that minted it. */
  function ResumeStream(blob: Str): Session {
    var (cursor, call) := Unpack(blob);
    At(cursor, call)
  }

  /** Reposition a session at a blob, dropping whatever it had preloaded. */
  function SeekToToken(s: Session, blob: Str): Session {
    ResumeStream(blob).(cancelled := s.cancelled)
  }

  // The session object.

  class HttpStreamSession {
    const server: Server
    var pending: seq<Frame>
    var token: Option<Str>
    var callToken: Option<Str>
    var finished: bool
    var cancelled: bool
    var sent: seq<Request>

    function View(): Session
      reads this
    {
      Session(pending, token, callToken, finished, cancelled)
    }

    constructor Open(server: Server, init: Turn, call: Option<Str>)
      ensures this.server == server && View() == Opened(init, call) && sent == []
    {
      this.server := server;
      pending := if init.batch.Some? then [init.batch.value] else [];
      token, callToken, finished, cancelled, sent := init.token, call, init.token.None?, false, [];
    }

    constructor Resume(server: Server, blob: Str)
      ensures this.server == server && View() == ResumeStream(blob) && sent == []
    {
      var (cursor, call) := Unpack(blob);
      this.server := server;
      pending, token, callToken, finished, cancelled, sent := [], Some(cursor), call, false, false, [];
    }

    method Seek(blob: Str)
      modifies this
      ensures View() == SeekToToken(old(View()), blob) && sent == old(sent)
    {
      var (cursor, call) := Unpack(blob);
      pending, token, callToken, finished := [], Some(cursor), call, false;
    }

    /** One request and its reply. */
    method Post(kind: Kind) returns (r: Result<Turn, RpcError>)
      requires token.Some?
      modifies this`sent
      ensures r == server(Request(token.value, callToken, kind))
      ensures sent == old(sent) + [Request(token.value, callToken, kind)]
    {
      var q := Request(token.value, callToken, kind);
      sent := sent + [q];
      r := server(q);
    }

    method Next() returns (out: Output)
      modifies this
      ensures var c := NextWithToken(old(View()), server); View() == c.s && out == c.out && sent == old(sent) + c.sent
    {
      if cancelled { return Failed(AfterClose); }
      if pending != [] {
        if |pending| > 1 { return Failed(MultipleBatches); }
        var item := pending[0];
        pending := [];
        return Item(item, ResumeBlob(View()));
      }
      if finished || token.None? {
        finished := true;
        return End;
      }
      var reply := Post(Continue);
      if reply.Err? { return Failed(reply.error); }
      token := reply.value.token;
      if reply.value.batch.Some? { return Item(reply.value.batch.value, ResumeBlob(View())); }
      finished := true;
      return End;
    }

    /** Ask for the next turn and queue what comes back. */
    method AskTurn() returns (error: Option<RpcError>)
      requires token.Some?
      modifies this
      ensures var q := Request(old(token).value, old(callToken), Continue);
              && sent == old(sent) + [q]
              && match server(q)
                 case Err(e) => error == Some(e) && View() == old(View())
                 case Ok(turn) => error == None && View() == Replied(old(View()), turn)
    {
      var reply := Post(Continue);
      if reply.Err? { return Some(reply.error); }
      pending := if reply.value.batch.Some? then [reply.value.batch.value] else [];
      token, finished := reply.value.token, reply.value.token.None?;
      error := None;
    }

    method TickOnce(turns: nat) returns (out: Output)
      modifies this
      ensures var c := Tick(old(View()), server, turns); View() == c.s && out == c.out && sent == old(sent) + c.sent
    {
      hide Tick, ValidUtf8, Replied;
      TickStops(View(), server, turns);
      if cancelled { return Failed(AfterClose); }
      var left := turns;
      ghost var asked: seq<Request> := [];
      ghost var goal := Tick(View(), server, turns);
      while pending == [] && !finished && token.Some? && left > 0
        invariant !cancelled && sent == old(sent) + asked && 0 <= left <= turns
        invariant var c := Tick(View(), server, left);
                  goal.s == c.s && goal.out == c.out && goal.sent == asked + c.sent
        decreases left
      {
        TickAsks(View(), server, left);
        StillOpen(View());
        asked := asked + [Request(token.value, callToken, Continue)];
        var error := AskTurn();
        if error.Some? { return Failed(error.value); }
        left := left - 1;
      }
      assert asked + [] == asked;
      TickStops(View(), server, left);
      if pending != [] {
        out := Item(pending[0], None);
        pending := pending[1..];
      } else if finished || token.None? {
        finished := true;
        out := End;
      } else {
        out := Following;
      }
    }

    method ExchangeOnce(input: int) returns (out: Output)
      modifies this
      ensures var c := Exchange(old(View()), server, input); View() == c.s && out == c.out && sent == old(sent) + c.sent
    {
      if cancelled { return Failed(AfterClose); }
      if token.None? { return Failed(NoToken); }
      var reply := Post(ExchangeInput(input));
      if reply.Err? { return Failed(reply.error); }
      token := reply.value.token;
      out := if reply.value.batch.Some? then Item(reply.value.batch.value, None) else End;
    }

    method CancelStream()
      modifies this
      ensures var c := Cancel(old(View())); View() == c.s && sent == old(sent) + c.sent
      ensures |sent| == |old(sent)| + if !old(cancelled) && old(token).Some? then 1 else 0
      ensures cancelled && (old(cancelled) || finished)
    {
      if cancelled { return; }
      if token.Some? { var reply := Post(Cancelling); }
      cancelled, finished := true, true;
    }
  }

  // Resuming from a blob.

  datatype Run = Run(s: Session, outs: seq<Output>, sent: seq<Request>)

  /** `n` successive `next_with_token` calls. */
  function NextRun(s: Session, server: Server, n: nat): (r: Run)
    ensures |r.outs| == n
    decreases n
  {
    if n == 0 then Run(s, [], [])
    else
      var c := NextWithToken(s, server);
      var r := NextRun(c.s, server, n - 1);
      Run(r.s, [c.out] + r.outs, c.sent + r.sent)
  }

  lemma {:induction false} NextRunSplit(s: Session, server: Server, k: nat, m: nat)
    ensures var a := NextRun(s, server, k); var b := NextRun(a.s, server, m);
            NextRun(s, server, k + m) == Run(b.s, a.outs + b.outs, a.sent + b.sent)
    decreases k
  {
    hide NextWithToken;
    if k == 0 {
      var b := NextRun(s, server, m);
      assert [] + b.outs == b.outs && [] + b.sent == b.sent;
    } else {
      var c := NextWithToken(s, server);
      NextRunSplit(c.s, server, k - 1, m);
      var a1 := NextRun(c.s, server, k - 1);
      var b := NextRun(a1.s, server, m);
      Regroup([c.out], a1.outs, b.outs);
      Regroup(c.sent, a1.sent, b.sent);
    }
  }

  /** A session as opening, resuming and reading by token leave it. */
  predicate Readied(s: Session) {
    !s.cancelled && |s.pending| <= 1 && (s.pending != [] ==> (s.finished ==> s.token.None?))
  }

  lemma NextKeeps(s: Session, server: Server)
    requires Readied(s)
    ensures var c := NextWithToken(s, server);
            && Readied(c.s) && c.s.callToken == s.callToken
            && (c.out.Item? && c.out.blob.Some? ==>
                  c.s.token.Some? && c.out.blob == Some(Pack(c.s.token.value, c.s.callToken))
                  && c.s == At(c.s.token.value, c.s.callToken))
            && forall i :: 0 <= i < |c.sent| ==> c.sent[i].call == s.callToken
  {
  }

  lemma {:induction false} NextRunKeeps(s: Session, server: Server, k: nat)
    requires Readied(s)
    ensures var r := NextRun(s, server, k);
            && Readied(r.s) && r.s.callToken == s.callToken
            && (k > 0 && r.outs[k - 1].Item? && r.outs[k - 1].blob.Some? ==>
                  r.s.token.Some? && r.outs[k - 1].blob == Some(Pack(r.s.token.value, r.s.callToken))
                  && r.s == At(r.s.token.value, r.s.callToken))
            && forall i :: 0 <= i < |r.sent| ==> r.sent[i].call == s.callToken
    decreases k
  {
    hide NextWithToken;
    if k == 0 {
    } else {
      NextKeeps(s, server);
      NextRunKeeps(NextWithToken(s, server).s, server, k - 1);
    }
  }

  /**
   Read `k` batches, hand the last blob to a fresh client, and go on for `m` calls there: the outputs, the
   requests and their call token are those of the uninterrupted run. `blob` is readable when its call token
   is not empty, or it has none and its cursor does not look packed.
   */
  lemma ResumeYieldsTheRest(init: Turn, call: Option<Str>, server: Server, k: nat, m: nat)
    requires k > 0
    requires var r := NextRun(Opened(init, call), server, k); r.outs[k - 1].Item? && r.outs[k - 1].blob.Some?
    ensures var r := NextRun(Opened(init, call), server, k);
            r.s.token.Some? && r.outs[k - 1].blob == Some(Pack(r.s.token.value, call))
    ensures var r := NextRun(Opened(init, call), server, k);
            Readable(r.s.token.value, call) ==>
              var fresh' := NextRun(ResumeStream(r.outs[k - 1].blob.value), server, m);
              var whole := NextRun(Opened(init, call), server, k + m);
              && whole.outs == r.outs + fresh'.outs && whole.sent == r.sent + fresh'.sent
              && forall i :: 0 <= i < |whole.sent| ==> whole.sent[i].call == call
  {
    hide NextWithToken, Unpack, Pack, Readable, ValidUtf8;
    var s := Opened(init, call);
    NextRunKeeps(s, server, k);
    NextRunKeeps(s, server, k + m);
    NextRunSplit(s, server, k, m);
    var r := NextRun(s, server, k);
    if Readable(r.s.token.value, call) {
      ReadableIsShort(r.s.token.value, call);
      ReadableRoundTrip(r.s.token.value, call);
    }
  }

  lemma ReadableIsShort(cursor: Str, call: Option<Str>)
    requires Readable(cursor, call)
    ensures |cursor| < USIZE_LIMIT
  {
  }

  // `tick` and `next_with_token` read the same stream.

  /** The reply to the request carries a token and no batch. */
  predicate EmptyReply(server: Server, q: Request) {
    server(q).Ok? && server(q).value.token.Some? && server(q).value.batch.None?
  }

  predicate NoEmptyReply(server: Server, sent: seq<Request>) {
    forall i :: 0 <= i < |sent| ==> !EmptyReply(server, sent[i])
  }

  predicate SamePosition(t: Session, n: Session) {
    && t.pending == n.pending && |t.pending| <= 1
    && t.token == n.token && t.callToken == n.callToken && !t.cancelled && !n.cancelled
    && (t.finished || t.token.None? <==> n.finished || n.token.None?)
  }

  predicate SameOutput(t: Output, n: Output) {
    match (t, n)
    case (Item(b, _), Item(b', _)) => b == b'
    case (End, End) => true
    case (Failed(e), Failed(e')) => e == e'
    case _ => false
  }

  lemma TickFollowsNext(t: Session, n: Session, server: Server, turns: nat)
    requires SamePosition(t, n) && turns > 0 && NoEmptyReply(server, NextWithToken(n, server).sent)
    ensures var a := Tick(t, server, turns); var b := NextWithToken(n, server);
            SamePosition(a.s, b.s) && SameOutput(a.out, b.out) && a.sent == b.sent
  {
    if t.pending == [] && !t.finished && t.token.Some? {
      var q := Request(t.token.value, t.callToken, Continue);
      assert NextWithToken(n, server).sent == [q] && [q][0] == q;
      assert !EmptyReply(server, q);
      if server(q).Ok? { TickAsks(t, server, turns); }
    }
  }

  /** `n` successive `tick` calls, each of at most `turns` requests. */
  function TickRun(s: Session, server: Server, n: nat, turns: nat): (r: Run)
    ensures |r.outs| == n
    decreases n
  {
    if n == 0 then Run(s, [], [])
    else
      var c := Tick(s, server, turns);
      var r := TickRun(c.s, server, n - 1, turns);
      Run(r.s, [c.out] + r.outs, c.sent + r.sent)
  }

  predicate SameOutputs(a: seq<Output>, b: seq<Output>) {
    |a| == |b| && forall i :: 0 <= i < |a| ==> SameOutput(a[i], b[i])
  }

  lemma {:induction false} NothingAfterEnd(n: Session, server: Server, k: nat)
    requires !n.cancelled && n.pending == [] && n.finished
    ensures NextRun(n, server, k).sent == []
    decreases k
  {
    if k == 0 {
    } else {
      NothingAfterEnd(NextWithToken(n, server).s, server, k - 1);
    }
  }

  /** At an empty reply with a token one call ends the stream; the other asks again, or is still to do so. */
  lemma EmptyReplyParts(t: Session, n: Session, server: Server, turns: nat)
    requires SamePosition(t, n) && turns > 0 && !NoEmptyReply(server, NextWithToken(n, server).sent)
    ensures var a := Tick(t, server, turns); var b := NextWithToken(n, server);
            && b.out == End && |b.sent| == 1 && b.s.finished && b.s.pending == [] && !b.s.cancelled
            && if turns == 1 then a.out == Following else |a.sent| > 1
  {
    var q := Request(t.token.value, t.callToken, Continue);
    assert NextWithToken(n, server).sent == [q];
    TickAsks(t, server, turns);
    var s' := Replied(t, server(q).value);
    if turns == 1 {
      TickStops(s', server, 0);
    } else {
      TickAsks(s', server, turns - 1);
    }
  }

  lemma {:induction false} RunsAgree(t: Session, n: Session, server: Server, k: nat, turns: nat)
    requires SamePosition(t, n) && turns > 0
    ensures var a := TickRun(t, server, k, turns); var b := NextRun(n, server, k);
            && (NoEmptyReply(server, b.sent) <==> SameOutputs(a.outs, b.outs) && a.sent == b.sent)
            && (turns == 1 ==> (NoEmptyReply(server, b.sent) <==> SameOutputs(a.outs, b.outs)))
    decreases k
  {
    hide Tick, NextWithToken, EmptyReply, SameOutput;
    if k == 0 {
    } else {
      var c, d := Tick(t, server, turns), NextWithToken(n, server);
      var rest, rest' := TickRun(c.s, server, k - 1, turns), NextRun(d.s, server, k - 1);
      assert (d.sent + rest'.sent)[..|d.sent|] == d.sent && (d.sent + rest'.sent)[|d.sent|..] == rest'.sent;
      if NoEmptyReply(server, d.sent) {
        TickFollowsNext(t, n, server, turns);
        RunsAgree(c.s, d.s, server, k - 1, turns);
        NoEmptyJoin(server, d.sent, rest'.sent);
        SameOutputsFirst(c.out, rest.outs, d.out, rest'.outs);
        assert (c.sent + rest.sent)[|d.sent|..] == rest.sent;
      } else {
        EmptyReplyParts(t, n, server, turns);
        NothingAfterEnd(d.s, server, k - 1);
        NoEmptyJoin(server, d.sent, rest'.sent);
        FollowingDiffers(rest.outs, rest'.outs);
      }
    }
  }

  lemma NoEmptyJoin(server: Server, a: seq<Request>, b: seq<Request>)
    ensures NoEmptyReply(server, a + b) <==> NoEmptyReply(server, a) && NoEmptyReply(server, b)
  {
    hide EmptyReply;
    assert forall i :: 0 <= i < |a| ==> (a + b)[i] == a[i];
    assert forall i :: 0 <= i < |b| ==> (a + b)[|a| + i] == b[i];
  }

  lemma SameOutputsFirst(x: Output, xs: seq<Output>, y: Output, ys: seq<Output>)
    ensures SameOutputs([x] + xs, [y] + ys) <==> SameOutput(x, y) && SameOutputs(xs, ys)
  {
    hide SameOutput;
    var a, b := [x] + xs, [y] + ys;
    if SameOutputs(a, b) {
      assert SameOutput(a[0], b[0]);
      forall i | 0 <= i < |xs|
        ensures SameOutput(xs[i], ys[i])
      {
        assert SameOutput(a[i + 1], b[i + 1]);
      }
    }
    if SameOutput(x, y) && SameOutputs(xs, ys) {
      forall i | 0 <= i < |a|
        ensures SameOutput(a[i], b[i])
      {
        if i > 0 { assert SameOutput(xs[i - 1], ys[i - 1]); }
      }
    }
  }

  lemma FollowingDiffers(xs: seq<Output>, ys: seq<Output>)
    ensures !SameOutputs([Following] + xs, [End] + ys)
  {
    SameOutputsFirst(Following, xs, End, ys);
  }

  /**
   Reading by `tick` and by `next_with_token` yields the same outputs from the same requests exactly when no reply that
   `next_with_token` meets has a token and no batch. With one request to a call the outputs alone tell.
   */
  lemma TickAndNextAgreeExactly(init: Turn, call: Option<Str>, server: Server, k: nat, turns: nat)
    requires turns > 0
    ensures var a := TickRun(Opened(init, call), server, k, turns); var b := NextRun(Opened(init, call), server, k);
            && (NoEmptyReply(server, b.sent) <==> SameOutputs(a.outs, b.outs) && a.sent == b.sent)
            && (turns == 1 ==> (NoEmptyReply(server, b.sent) <==> SameOutputs(a.outs, b.outs)))
  {
    RunsAgree(Opened(init, call), Opened(init, call), server, k, turns);
  }

  /** A server that answers the first cursor with the second and no batch, and any other with the batch. */
  function EmptyFirst(first: Str, second: Str, b: Frame): Server {
    (q: Request) => if q.cursor == first then Ok(Turn(None, Some(second))) else Ok(Turn(Some(b), None))
  }

  /** There `next_with_token` ends the stream while `tick` reads on to the batch. */
  lemma EmptyReplyExample(first: Str, second: Str, b: Frame)
    requires first != second
    ensures var server := EmptyFirst(first, second, b);
            var s := Opened(Turn(None, Some(first)), None);
            NextWithToken(s, server).out == End && Tick(s, server, 2).out == Item(b, None)
  {
    var server := EmptyFirst(first, second, b);
    var s := Opened(Turn(None, Some(first)), None);
    var s1 := s.(pending := [], token := Some(second), finished := false);
    var s2 := s1.(pending := [b], token := None, finished := true);
    assert Tick(s2, server, 0).out == Item(b, None);
    assert Tick(s1, server, 1).out == Item(b, None);
  }

  // Every request of every run.

  datatype Op = DoTick(turns: nat) | DoNext | DoExchange(input: int) | DoCancel

  function Do(s: Session, server: Server, op: Op): Called {
    match op
    case DoTick(turns) => Tick(s, server, turns)
    case DoNext => NextWithToken(s, server)
    case DoExchange(input) => Exchange(s, server, input)
    case DoCancel => Cancel(s)
  }

  function DoAll(s: Session, server: Server, ops: seq<Op>): Run
    decreases |ops|
  {
    if ops == [] then Run(s, [], [])
    else
      var c := Do(s, server, ops[0]);
      var r := DoAll(c.s, server, ops[1..]);
      Run(r.s, [c.out] + r.outs, c.sent + r.sent)
  }

  /** The cursor that must come next: the one last issued; a failed request leaves it, a cancel ends the stream. */
  function Advance(server: Server, at: Option<Str>, q: Request): Option<Str> {
    if q.kind.Cancelling? then None else if server(q).Ok? then server(q).value.token else at
  }

  /** Each request carries the stream's call token and the cursor issued last, and none follows a cancel. */
  predicate Chained(server: Server, at: Option<Str>, call: Option<Str>, sent: seq<Request>)
    decreases |sent|
  {
    sent == [] ||
    (&& Some(sent[0].cursor) == at && sent[0].call == call
     && Chained(server, Advance(server, at, sent[0]), call, sent[1..]))
  }

  function Position(s: Session): Option<Str> {
    if s.cancelled then None else s.token
  }

  function EndsAt(server: Server, at: Option<Str>, sent: seq<Request>): Option<Str>
    decreases |sent|
  {
    if sent == [] then at else EndsAt(server, Advance(server, at, sent[0]), sent[1..])
  }

  lemma {:induction false} ChainedAppend(
    server: Server, at: Option<Str>, call: Option<Str>, a: seq<Request>, b: seq<Request>)
    requires Chained(server, at, call, a) && Chained(server, EndsAt(server, at, a), call, b)
    ensures Chained(server, at, call, a + b) && EndsAt(server, at, a + b) == EndsAt(server, EndsAt(server, at, a), b)
    decreases |a|
  {
    if a == [] {
      assert a + b == b;
    } else {
      ChainedAppend(server, Advance(server, at, a[0]), call, a[1..], b);
      assert (a + b)[1..] == a[1..] + b;
    }
  }

  lemma {:induction false} TickChained(s: Session, server: Server, turns: nat)
    ensures var c := Tick(s, server, turns);
            && Chained(server, Position(s), s.callToken, c.sent) && c.s.callToken == s.callToken
            && EndsAt(server, Position(s), c.sent) == Position(c.s)
    decreases turns
  {
    if s.cancelled || s.pending != [] || s.finished || s.token.None? || turns == 0 {
    } else {
      var q := Request(s.token.value, s.callToken, Continue);
      if server(q).Ok? {
        var s' := Replied(s, server(q).value);
        TickChained(s', server, turns - 1);
        assert ([q] + Tick(s', server, turns - 1).sent)[1..] == Tick(s', server, turns - 1).sent;
      } else {
        assert [q][1..] == [];
      }
    }
  }

  lemma DoChained(s: Session, server: Server, op: Op)
    ensures var c := Do(s, server, op);
            && Chained(server, Position(s), s.callToken, c.sent) && c.s.callToken == s.callToken
            && EndsAt(server, Position(s), c.sent) == Position(c.s)
  {
    match op
    case DoTick(turns) => TickChained(s, server, turns);
    case DoNext =>
      var sent := NextWithToken(s, server).sent;
      assert sent != [] ==> sent[1..] == [];
    case DoExchange(input) =>
      var sent := Exchange(s, server, input).sent;
      assert sent != [] ==> sent[1..] == [];
    case DoCancel =>
      var sent := Cancel(s).sent;
      assert sent != [] ==> sent[1..] == [];
  }

  /**
   Over every run of ticks, token reads, exchanges and cancels: every request echoes the call token the
   stream was opened with and the cursor the server issued last, and nothing is sent after a cancel.
   */
  lemma {:induction false} RequestsChained(s: Session, server: Server, ops: seq<Op>)
    ensures Chained(server, Position(s), s.callToken, DoAll(s, server, ops).sent)
    ensures DoAll(s, server, ops).s.callToken == s.callToken
    decreases |ops|
  {
    hide Do;
    if ops == [] {
    } else {
      DoChained(s, server, ops[0]);
      var c := Do(s, server, ops[0]);
      RequestsChained(c.s, server, ops[1..]);
      ChainedAppend(server, Position(s), s.callToken, c.sent, DoAll(c.s, server, ops[1..]).sent);
    }
  }
}
