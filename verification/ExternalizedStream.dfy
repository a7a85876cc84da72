/**
 A whole HTTP stream over replies that are parsed from frames: the session of `HttpStream` fed by the parser of
 `ResponseFrames`. Two servers that differ only in which runs of frames they store outside give the same stream.
 */
module ExternalizedStream {
  import opened Bytes
  import opened Frames
  import opened HttpStream
  import opened ResumeToken
  import M = ResponseMeaning
  import RF = ResponseFrames

  /** The frames of a reply, or the failure to get one. */
  type Wire = Request -> Result<Stream, RpcError>

  /** A client's resolver, and how it writes the text of a token. */
  datatype Client = Client(external: Option<Resolver>, encode: string -> Str) {
    function Token(t: Option<string>): Option<Str> {
      if t.Some? then Some(encode(t.value)) else None
    }

    function TurnOf(p: RF.Parsed): Turn {
      Turn(if p.batches == [] then None else Some(p.batches[0]), Token(p.token))
    }

    /** Only an exchange takes a frame that carries a cursor for data. */
    function OptionsFor(exchange: bool): RF.Options {
      RF.Options(exchange, external)
    }
  }

  function ReplyTo(c: Client, wire: Wire, q: Request): RF.Response {
    match wire(q)
    case Err(e) => RF.Response(Err(e), [])
    case Ok(s) => RF.ParseResponse(s, c.OptionsFor(q.kind.ExchangeInput?))
  }

  function Parsed(c: Client, r: RF.Response): Result<Turn, RpcError> {
    match r.result
    case Err(e) => Err(e)
    case Ok(p) => Ok(c.TurnOf(p))
  }

  /** The server as a session sees it. */
  function Served(c: Client, wire: Wire): Server {
    (q: Request) => Parsed(c, ReplyTo(c, wire, q))
  }

  /** Opening a stream from the reply to `init`. */
  function Open(c: Client, init: Stream, exchange: bool): Result<Session, RpcError> {
    match RF.ParseResponse(init, c.OptionsFor(exchange)).result
    case Err(e) => Err(e)
    case Ok(p) => Ok(Opened(c.TurnOf(p), c.Token(p.callToken)))
  }

  /** What the log callback is given over these requests; the reply to a cancel is not looked at. */
  function Heard(c: Client, wire: Wire, sent: seq<Request>): seq<Metadata> {
    if sent == [] then []
    else (if sent[0].kind.Cancelling? then [] else ReplyTo(c, wire, sent[0]).logs) + Heard(c, wire, sent[1..])
  }

  /** What a reply means to the session, said of its items: an error, or a result's batch and the last cursor. */
  function Outcome(c: Client, s: Stream, exchange: bool): Result<Turn, RpcError> {
    var items := M.Items(s, c.external);
    var results := M.Results(items, true, exchange);
    var cursor := M.Last(M.Metadatas(items), STATE_KEY, None);
    if M.FirstStop(items).Some? then Err(M.FirstStop(items).value)
    else if |results| > 1 then Err(MultipleBatches)
    else Ok(Turn(if results == [] then None else Some(results[0]),
                 if cursor.Some? then Some(c.encode(cursor.value)) else None))
  }

  function CallToken(c: Client, s: Stream): Option<Str> {
    var call := M.Last(M.Metadatas(M.Items(s, c.external)), CALL_STATE_KEY, None);
    if call.Some? then Some(c.encode(call.value)) else None
  }

  /**
   The session gets from every reply exactly what its items mean, carriers of cursors being data in an exchange only; a
   stream is opened so too, with the last call token of the opening reply.
   */
  lemma ServedMeans(c: Client, wire: Wire, q: Request, init: Stream, exchange: bool)
    ensures Served(c, wire)(q)
         == match wire(q) case Err(e) => Err(e) case Ok(s) => Outcome(c, s, q.kind.ExchangeInput?)
    ensures Open(c, init, exchange)
         == match Outcome(c, init, exchange)
            case Err(e) => Err(e)
            case Ok(turn) => Ok(Opened(turn, CallToken(c, init)))
  {
    hide RF.ParseResponse, M.Items, M.Results, M.FirstStop, M.Last, M.Metadatas, M.Notes;
    if wire(q).Ok? { M.ParseMeans(wire(q).value, c.OptionsFor(q.kind.ExchangeInput?)); }
    M.ParseMeans(init, c.OptionsFor(exchange));
  }

  /** The log callback hears the notes of every reply, in the order of the requests, but not those of a cancel. */
  lemma {:induction false} HeardMeans(c: Client, wire: Wire, sent: seq<Request>, q: Request)
    ensures Heard(c, wire, sent + [q])
         == Heard(c, wire, sent)
            + if !q.kind.Cancelling? && wire(q).Ok? then M.Notes(M.Items(wire(q).value, c.external)) else []
    decreases |sent|
  {
    hide RF.ParseResponse, M.Items, M.Notes, M.Results, M.FirstStop, M.Last, M.Metadatas;
    if sent == [] {
      assert sent + [q] == [q] && [q][1..] == [];
      if wire(q).Ok? { M.ParseMeans(wire(q).value, c.OptionsFor(q.kind.ExchangeInput?)); }
    } else {
      assert (sent + [q])[1..] == sent[1..] + [q];
      HeardMeans(c, wire, sent[1..], q);
    }
  }

  // Replies that are alike up to provenance.

  predicate AlikeTurns(a: Result<Turn, RpcError>, b: Result<Turn, RpcError>) {
    match (a, b)
    case (Ok(t), Ok(u)) =>
      && t.token == u.token && (t.batch.Some? <==> u.batch.Some?)
      && (t.batch.Some? ==> RF.SameBatches([t.batch.value], [u.batch.value]))
    case (Err(e), Err(e')) => e == e'
    case _ => false
  }

  ghost predicate AlikeServers(a: Server, b: Server) {
    forall q :: AlikeTurns(a(q), b(q))
  }

  predicate AlikeSessions(s: Session, t: Session) {
    && RF.SameBatches(s.pending, t.pending)
    && s.token == t.token && s.callToken == t.callToken && s.finished == t.finished && s.cancelled == t.cancelled
  }

  /** The same batch up to provenance with the same resume blob, or the same end or failure. */
  predicate AlikeOutputs(a: Output, b: Output) {
    if a.Item? && b.Item? then RF.SameBatches([a.batch], [b.batch]) && a.blob == b.blob else a == b
  }

  predicate AlikeCalls(a: Called, b: Called) {
    AlikeSessions(a.s, b.s) && AlikeOutputs(a.out, b.out) && a.sent == b.sent
  }

  lemma FirstsAlike(a: seq<Frame>, b: seq<Frame>)
    requires RF.SameBatches(a, b) && a != []
    ensures RF.SameBatches([a[0]], [b[0]]) && RF.SameBatches(a[1..], b[1..])
  {
  }

  lemma {:induction false} TickAlike(s: Session, t: Session, a: Server, b: Server, turns: nat)
    requires AlikeSessions(s, t) && AlikeServers(a, b)
    ensures AlikeCalls(Tick(s, a, turns), Tick(t, b, turns))
    decreases turns
  {
    hide RF.SameBatches, ValidUtf8;
    TickStops(s, a, turns);
    TickStops(t, b, turns);
    PendingAlike(s, t);
    if s.cancelled || s.pending != [] || s.finished || s.token.None? || turns == 0 {
    } else {
      var q := Request(s.token.value, s.callToken, Continue);
      assert AlikeTurns(a(q), b(q));
      TickAsks(s, a, turns);
      TickAsks(t, b, turns);
      if a(q).Ok? {
        RepliedAlike(s, t, a(q).value, b(q).value);
        TickAlike(Replied(s, a(q).value), Replied(t, b(q).value), a, b, turns - 1);
      }
    }
  }

  lemma PendingAlike(s: Session, t: Session)
    requires AlikeSessions(s, t)
    ensures |s.pending| == |t.pending|
    ensures s.pending != [] ==>
              && RF.SameBatches([s.pending[0]], [t.pending[0]]) && RF.SameBatches(s.pending[1..], t.pending[1..])
    ensures RF.SameBatches([], [])
  {
    if s.pending != [] { FirstsAlike(s.pending, t.pending); }
  }

  lemma RepliedAlike(s: Session, t: Session, x: Turn, y: Turn)
    requires AlikeSessions(s, t) && AlikeTurns(Ok(x), Ok(y))
    ensures AlikeSessions(Replied(s, x), Replied(t, y))
  {
  }

  lemma DoAlike(s: Session, t: Session, a: Server, b: Server, op: Op)
    requires AlikeSessions(s, t) && AlikeServers(a, b)
    ensures AlikeCalls(Do(s, a, op), Do(t, b, op))
  {
    hide RF.SameBatches, Tick;
    PendingAlike(s, t);
    if op.DoTick? {
      TickAlike(s, t, a, b, op.turns);
    } else if s.token.Some? {
      var q := Request(s.token.value, s.callToken, if op.DoExchange? then ExchangeInput(op.input) else Continue);
      assert AlikeTurns(a(q), b(q));
    }
  }

  predicate AlikeRuns(a: Run, b: Run) {
    && AlikeSessions(a.s, b.s) && a.sent == b.sent && |a.outs| == |b.outs|
    && forall i :: 0 <= i < |a.outs| ==> AlikeOutputs(a.outs[i], b.outs[i])
  }

  lemma {:induction false} RunAlike(s: Session, t: Session, a: Server, b: Server, ops: seq<Op>)
    requires AlikeSessions(s, t) && AlikeServers(a, b)
    ensures AlikeRuns(DoAll(s, a, ops), DoAll(t, b, ops))
    decreases |ops|
  {
    hide Do, AlikeServers, AlikeSessions, AlikeOutputs;
    if ops == [] {
    } else {
      DoAlike(s, t, a, b, ops[0]);
      RunAlike(Do(s, a, ops[0]).s, Do(t, b, ops[0]).s, a, b, ops[1..]);
    }
  }

  // Externalizing the replies.

  /** A stretch of a reply: a frame as it is, or a run that one server sends and the other stores. */
  datatype Piece = Kept(frame: Frame) | Stored(run: seq<Frame>, at: Frame)

  function Sent(ps: seq<Piece>): seq<Frame> {
    if ps == [] then [] else (if ps[0].Kept? then [ps[0].frame] else ps[0].run) + Sent(ps[1..])
  }

  function Pointed(ps: seq<Piece>): seq<Frame> {
    if ps == [] then [] else (if ps[0].Kept? then [ps[0].frame] else [ps[0].at]) + Pointed(ps[1..])
  }

  predicate Findable(ps: seq<Piece>, o: RF.Options) {
    forall i :: 0 <= i < |ps| && ps[i].Stored? ==> RF.PointsAt(ps[i].at, ps[i].run, o) && RF.PointerFree(ps[i].run)
  }

  /** `t` is `s` with the stored pieces sent as pointers. */
  predicate Cut(ps: seq<Piece>, s: Stream, t: Stream, o: RF.Options) {
    Findable(ps, o) && s.frames == Sent(ps) && t.frames == Pointed(ps) && s.broken == t.broken
  }

  ghost predicate Externalizes(s: Stream, t: Stream, o: RF.Options) {
    exists ps :: Cut(ps, s, t, o)
  }

  ghost predicate StoredOutside(x: Result<Stream, RpcError>, y: Result<Stream, RpcError>, o: RF.Options) {
    match (x, y)
    case (Ok(s), Ok(t)) => Externalizes(s, t, o)
    case (Err(e), Err(e')) => e == e'
    case _ => false
  }

  /** The second server sends what the first does, with any runs of any replies stored outside. */
  ghost predicate SameButStored(c: Client, a: Wire, b: Wire) {
    forall q :: StoredOutside(a(q), b(q), c.OptionsFor(q.kind.ExchangeInput?))
  }

  lemma AlikeTransitive(a: RF.Response, b: RF.Response, c: RF.Response)
    requires RF.AlikeResponses(a, b) && RF.AlikeResponses(b, c)
    ensures RF.AlikeResponses(a, c)
  {
  }

  lemma AlikeReflexive(a: RF.Response)
    ensures RF.AlikeResponses(a, a)
  {
  }

  /** Storing any number of runs of a reply preserves its meaning. */
  lemma {:induction false} PiecesAlike(done: seq<Frame>, ps: seq<Piece>, broken: Option<RpcError>, o: RF.Options)
    requires Findable(ps, o)
    ensures RF.AlikeResponses(RF.ParseResponse(Stream(done + Sent(ps), broken), o),
                              RF.ParseResponse(Stream(done + Pointed(ps), broken), o))
    decreases |ps|
  {
    hide RF.ParseResponse, RF.AlikeResponses, RF.PointsAt, RF.PointerFree;
    if ps == [] {
      AlikeReflexive(RF.ParseResponse(Stream(done + [], broken), o));
    } else {
      var more := Sent(ps[1..]);
      var p := if ps[0].Kept? then ps[0].frame else ps[0].at;
      PiecesAlike(done + [p], ps[1..], broken, o);
      Regroup(done, [p], Pointed(ps[1..]));
      if ps[0].Kept? {
        Regroup(done, [p], more);
      } else {
        RF.ExternalizingPreservesMeaning(done, ps[0].run, Stream(more, broken), p, o);
        Regroup(done, ps[0].run, more);
        AlikeTransitive(RF.ParseResponse(Stream(done + Sent(ps), broken), o),
                        RF.ParseResponse(Stream(done + [p] + more, broken), o),
                        RF.ParseResponse(Stream(done + Pointed(ps), broken), o));
      }
    }
  }

  lemma CutAlike(s: Stream, t: Stream, o: RF.Options)
    requires Externalizes(s, t, o)
    ensures RF.AlikeResponses(RF.ParseResponse(s, o), RF.ParseResponse(t, o))
  {
    hide RF.ParseResponse, RF.AlikeResponses, Findable;
    var ps :| Cut(ps, s, t, o);
    PiecesAlike([], ps, s.broken, o);
    assert [] + Sent(ps) == s.frames && [] + Pointed(ps) == t.frames;
    assert s == Stream(s.frames, s.broken) && t == Stream(t.frames, s.broken);
  }

  lemma RepliesAlike(c: Client, a: Wire, b: Wire, q: Request)
    requires SameButStored(c, a, b)
    ensures RF.AlikeResponses(ReplyTo(c, a, q), ReplyTo(c, b, q))
    ensures AlikeTurns(Served(c, a)(q), Served(c, b)(q))
  {
    hide RF.ParseResponse, Externalizes;
    assert StoredOutside(a(q), b(q), c.OptionsFor(q.kind.ExchangeInput?));
    if a(q).Ok? { CutAlike(a(q).value, b(q).value, c.OptionsFor(q.kind.ExchangeInput?)); }
    TurnsAlike(c, ReplyTo(c, a, q), ReplyTo(c, b, q));
  }

  lemma TurnsAlike(c: Client, x: RF.Response, y: RF.Response)
    requires RF.AlikeResponses(x, y)
    ensures AlikeTurns(Parsed(c, x), Parsed(c, y))
  {
  }

  lemma {:induction false} HeardAlike(c: Client, a: Wire, b: Wire, sent: seq<Request>)
    requires SameButStored(c, a, b)
    ensures Heard(c, a, sent) == Heard(c, b, sent)
  {
    hide ReplyTo, SameButStored;
    if sent == [] {
    } else {
      RepliesAlike(c, a, b, sent[0]);
      HeardAlike(c, a, b, sent[1..]);
    }
  }

  /** The same run on both: outputs alike, and the same requests and logs. */
  predicate AlikeStreams(c: Client, s: Session, t: Session, a: Wire, b: Wire, ops: seq<Op>) {
    var x, y := DoAll(s, Served(c, a), ops), DoAll(t, Served(c, b), ops);
    AlikeRuns(x, y) && Heard(c, a, x.sent) == Heard(c, b, y.sent)
  }

  /**
   Over every run of ticks, token reads, exchanges and cancels on one stream, storing runs of frames outside changes
   nothing but provenance: the stream opens or fails alike, sends the same requests, gives the same batches, resume
   blobs, ends and errors in the same order, and the log callback hears the same.
   */
  lemma ExternalizedStreamAgrees(c: Client, init: Stream, init': Stream, exchange: bool, a: Wire, b: Wire, ops: seq<Op>)
    requires Externalizes(init, init', c.OptionsFor(exchange)) && SameButStored(c, a, b)
    ensures var o := c.OptionsFor(exchange); RF.ParseResponse(init, o).logs == RF.ParseResponse(init', o).logs
    ensures var x, y := Open(c, init, exchange), Open(c, init', exchange);
            if x.Ok? && y.Ok? then AlikeStreams(c, x.value, y.value, a, b, ops) else x == y
  {
    hide RF.ParseResponse, DoAll, Externalizes, SameButStored, Heard;
    CutAlike(init, init', c.OptionsFor(exchange));
    if Open(c, init, exchange).Ok? {
      var s, t := Open(c, init, exchange).value, Open(c, init', exchange).value;
      forall q
        ensures AlikeTurns(Served(c, a)(q), Served(c, b)(q))
      {
        RepliesAlike(c, a, b, q);
      }
      RunAlike(s, t, Served(c, a), Served(c, b), ops);
      HeardAlike(c, a, b, DoAll(s, Served(c, a), ops).sent);
    }
  }
}
