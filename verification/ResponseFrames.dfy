/** Parsing one HTTP response: logs dispatched, pointers fetched and unfolded, data and tokens collected. */
module ResponseFrames {
  import opened Bytes
  import opened Frames

  /** What has been collected so far; `logs` is what the log callback has been given. */
  datatype Parsed = Parsed(batches: seq<Frame>, token: Option<string>, callToken: Option<string>, logs: seq<Metadata>)

  datatype Step = Step(st: Parsed, error: Option<RpcError>)

  datatype Options = Options(stateFrameIsData: bool, external: Option<Resolver>)

  function KeepKey(md: Metadata, key: string, previous: Option<string>): Option<string> {
    if key in md then Some(md[key]) else previous
  }

  function TakeData(f: Frame, st: Parsed, o: Options): Parsed {
    var md := Without(Without(f.md, CALL_STATE_KEY), STATE_KEY);
    var st' := st.(callToken := KeepKey(f.md, CALL_STATE_KEY, st.callToken),
                   token := KeepKey(f.md, STATE_KEY, st.token));
    if STATE_KEY !in f.md || (o.stateFrameIsData && (f.batch.rows != 0 || st.batches == [])) then
      st'.(batches := st.batches + [Frame(f.batch, md)])
    else st'
  }

  /** Stamp every batch from index `from` on. */
  function StampFrom(batches: seq<Frame>, from: nat, ms: string, url: string): (r: seq<Frame>)
    requires from <= |batches|
    ensures |r| == |batches|
  {
    seq(|batches|, i requires 0 <= i < |batches| =>
      if i < from then batches[i] else Frame(batches[i].batch, Stamp(batches[i].md, ms, url)))
  }

  function Process(f: Frame, st: Parsed, o: Options, allowExternal: bool): (r: Step)
    ensures |st.batches| <= |r.st.batches|
    decreases if allowExternal then 1 else 0, 0
  {
    match Classify(f)
    case Log(md) => Step(st.(logs := st.logs + [md]), None)
    case Exception(e) => Step(st, Some(e))
    case Data => Step(TakeData(f, st, o), None)
    case Pointer =>
      if o.external.None? || !allowExternal then Step(st, Some(UnresolvedPointer(f.md[LOCATION_KEY])))
      else
        var st1 := st.(token := KeepKey(f.md, STATE_KEY, st.token),
                       callToken := KeepKey(f.md, CALL_STATE_KEY, st.callToken));
        match o.external.value.fetch(Without(Without(f.md, STATE_KEY), CALL_STATE_KEY))
        case Err(e) => Step(st1, Some(e))
        case Ok(fetched) =>
          var r := ProcessAll(fetched.payload, st1, o, false);
          if r.error.Some? then r
          else Step(r.st.(batches := StampFrom(r.st.batches, |st.batches|, fetched.ms, f.md[LOCATION_KEY])), None)
  }

  function ProcessAll(s: Stream, st: Parsed, o: Options, allowExternal: bool): (r: Step)
    ensures |st.batches| <= |r.st.batches|
    decreases if allowExternal then 1 else 0, |s.frames| + 1
  {
    if s.frames == [] then Step(st, s.broken)
    else
      var r := Process(s.frames[0], st, o, allowExternal);
      if r.error.Some? then r else ProcessAll(Stream(s.frames[1..], s.broken), r.st, o, allowExternal)
  }

  const EMPTY := Parsed([], None, None, [])

  /** A parsed response, or an error; either way the logs that were dispatched. */
  datatype Response = Response(result: Result<Parsed, RpcError>, logs: seq<Metadata>)

  function ParseResponse(s: Stream, o: Options): Response {
    var r := ProcessAll(s, EMPTY, o, true);
    if r.error.Some? then Response(Err(r.error.value), r.st.logs)
    else if |r.st.batches| > 1 then Response(Err(MultipleBatches), r.st.logs)
    else Response(Ok(r.st), r.st.logs)
  }

  // The same, updating a ParsedStream in place.

  class ParsedStream {
    var batches: seq<Frame>
    var token: Option<string>
    var callToken: Option<string>
    var finished: bool
    var logs: seq<Metadata>

    constructor ()
      ensures View() == EMPTY && finished
    {
      batches, token, callToken, finished, logs := [], None, None, true, [];
    }

    function View(): Parsed
      reads this
    {
      Parsed(batches, token, callToken, logs)
    }

    method ProcessFrame(f: Frame, o: Options, allowExternal: bool) returns (error: Option<RpcError>)
      modifies this
      ensures Step(View(), error) == Process(f, old(View()), o, allowExternal)
      ensures finished == old(finished)
      decreases if allowExternal then 2 else 0, 1
    {
      hide ProcessAll, TakeData, StampFrom;
      error := None;
      match Classify(f)
      case Log(m) => logs := logs + [m];
      case Exception(e) => error := Some(e);
      case Pointer =>
        if o.external.None? || !allowExternal { return Some(UnresolvedPointer(f.md[LOCATION_KEY])); }
        error := FollowPointer(f, o);
      case Data => AddData(f, o);
    }

    /** A pointer's own state keys, then every frame of its payload, stamped with where it came from. */
    method FollowPointer(f: Frame, o: Options) returns (error: Option<RpcError>)
      requires Classify(f).Pointer? && o.external.Some?
      modifies this
      ensures Step(View(), error) == Process(f, old(View()), o, true)
      ensures finished == old(finished)
      decreases 2, 0
    {
      hide ProcessAll, TakeData, StampFrom;
      var md := f.md;
      if STATE_KEY in md { token, md := Some(md[STATE_KEY]), Without(md, STATE_KEY); }
      if CALL_STATE_KEY in md { callToken, md := Some(md[CALL_STATE_KEY]), Without(md, CALL_STATE_KEY); }
      assert md == Without(Without(f.md, STATE_KEY), CALL_STATE_KEY);
      var url, firstNew := md[LOCATION_KEY], |batches|;
      var fetched := o.external.value.fetch(md);
      if fetched.Err? { return Some(fetched.error); }
      error := ProcessPayload(fetched.value.payload, o);
      if error.Some? { return; }
      StampNew(firstNew, fetched.value.ms, url);
    }

    /** A data frame, its state keys taken off. */
    method AddData(f: Frame, o: Options)
      modifies this
      ensures View() == TakeData(f, old(View()), o) && finished == old(finished)
    {
      var md := f.md;
      if CALL_STATE_KEY in md { callToken, md := Some(md[CALL_STATE_KEY]), Without(md, CALL_STATE_KEY); }
      if STATE_KEY in md {
        token, md := Some(md[STATE_KEY]), Without(md, STATE_KEY);
        assert md == Without(Without(f.md, CALL_STATE_KEY), STATE_KEY);
        if o.stateFrameIsData && (f.batch.rows != 0 || batches == []) { batches := batches + [Frame(f.batch, md)]; }
      } else {
        assert md == Without(Without(f.md, CALL_STATE_KEY), STATE_KEY);
        batches := batches + [Frame(f.batch, md)];
      }
    }

    /** Every frame of a fetched payload; no pointer is followed inside one. */
    method ProcessPayload(payload: Stream, o: Options) returns (error: Option<RpcError>)
      modifies this
      ensures Step(View(), error) == ProcessAll(payload, old(View()), o, false)
      ensures finished == old(finished)
      decreases 1, 0
    {
      var i := 0;
      assert payload.frames[0..] == payload.frames;
      while i < |payload.frames|
        invariant i <= |payload.frames| && finished == old(finished)
        invariant ProcessAll(Stream(payload.frames[i..], payload.broken), View(), o, false)
               == ProcessAll(payload, old(View()), o, false)
      {
        error := ProcessFrame(payload.frames[i], o, false);
        if error.Some? { return; }
        assert payload.frames[i..][1..] == payload.frames[i + 1..];
        i := i + 1;
      }
      error := payload.broken;
    }

    method StampNew(firstNew: nat, ms: string, url: string)
      requires firstNew <= |batches|
      modifies this
      ensures View() == old(View()).(batches := StampFrom(old(batches), firstNew, ms, url)) && finished == old(finished)
    {
      for j := firstNew to |batches|
        invariant |batches| == |old(batches)| && finished == old(finished)
        invariant View() == old(View()).(batches := batches)
        invariant forall i :: 0 <= i < |batches| ==>
          batches[i] == if i < j then StampFrom(old(batches), firstNew, ms, url)[i] else old(batches)[i]
      {
        batches := batches[j := Frame(batches[j].batch, Stamp(batches[j].md, ms, url))];
      }
      assert batches == StampFrom(old(batches), firstNew, ms, url);
    }

    /** The whole response, read into this fresh stream. */
    method Read(s: Stream, o: Options) returns (error: Option<RpcError>)
      requires View() == EMPTY
      modifies this
      ensures ParseResponse(s, o) == Response(if error.Some? then Err(error.value) else Ok(View()), logs)
      ensures error.None? ==> finished == token.None? && |batches| <= 1
    {
      var i := 0;
      assert s.frames[0..] == s.frames;
      while i < |s.frames|
        invariant i <= |s.frames|
        invariant ProcessAll(Stream(s.frames[i..], s.broken), View(), o, true) == ProcessAll(s, EMPTY, o, true)
      {
        error := ProcessFrame(s.frames[i], o, true);
        if error.Some? { return; }
        assert s.frames[i..][1..] == s.frames[i + 1..];
        i := i + 1;
      }
      if s.broken.Some? { return s.broken; }
      if |batches| > 1 { return Some(MultipleBatches); }
      finished := token.None?;
      error := None;
    }
  }

  // Externalizing a run of frames preserves the meaning of the response.

  predicate SameBatches(a: seq<Frame>, b: seq<Frame>) {
    |a| == |b| && forall i :: 0 <= i < |a| ==> a[i].batch == b[i].batch && Unstamped(a[i].md) == Unstamped(b[i].md)
  }

  /** Equal but for the provenance keys of the batches. */
  predicate Alike(a: Parsed, b: Parsed) {
    SameBatches(a.batches, b.batches) && a.token == b.token && a.callToken == b.callToken && a.logs == b.logs
  }

  predicate AlikeSteps(a: Step, b: Step) {
    Alike(a.st, b.st) && a.error == b.error
  }

  predicate AlikeResponses(a: Response, b: Response) {
    && a.logs == b.logs
    && match (a.result, b.result)
       case (Ok(p), Ok(q)) => Alike(p, q) && (p.token.None? <==> q.token.None?)
       case (Err(e), Err(e')) => e == e'
       case _ => false
  }

  lemma StampAlike(a: seq<Frame>, b: seq<Frame>, from: nat, ms: string, url: string)
    requires SameBatches(a, b) && from <= |a|
    ensures SameBatches(StampFrom(a, from, ms, url), StampFrom(b, from, ms, url))
    ensures SameBatches(a, StampFrom(b, from, ms, url))
  {
    forall i | 0 <= i < |a|
      ensures Unstamped(Stamp(a[i].md, ms, url)) == Unstamped(a[i].md)
      ensures Unstamped(Stamp(b[i].md, ms, url)) == Unstamped(b[i].md)
    {
      StampUnstamped(a[i].md, ms, url);
      StampUnstamped(b[i].md, ms, url);
    }
  }

  lemma {:induction false} ProcessAlike(f: Frame, a: Parsed, b: Parsed, o: Options, allowExternal: bool)
    requires Alike(a, b)
    ensures AlikeSteps(Process(f, a, o, allowExternal), Process(f, b, o, allowExternal))
    decreases if allowExternal then 1 else 0, 0
  {
    if Classify(f).Pointer? && o.external.Some? && allowExternal {
      var a1 := a.(token := KeepKey(f.md, STATE_KEY, a.token), callToken := KeepKey(f.md, CALL_STATE_KEY, a.callToken));
      var b1 := b.(token := KeepKey(f.md, STATE_KEY, b.token), callToken := KeepKey(f.md, CALL_STATE_KEY, b.callToken));
      var fetched := o.external.value.fetch(Without(Without(f.md, STATE_KEY), CALL_STATE_KEY));
      if fetched.Ok? {
        ProcessAllAlike(fetched.value.payload, a1, b1, o, false);
        var ra, rb := ProcessAll(fetched.value.payload, a1, o, false), ProcessAll(fetched.value.payload, b1, o, false);
        if ra.error.None? {
          StampAlike(ra.st.batches, rb.st.batches, |a.batches|, fetched.value.ms, f.md[LOCATION_KEY]);
        }
      }
    }
  }

  lemma {:induction false} ProcessAllAlike(s: Stream, a: Parsed, b: Parsed, o: Options, allowExternal: bool)
    requires Alike(a, b)
    ensures AlikeSteps(ProcessAll(s, a, o, allowExternal), ProcessAll(s, b, o, allowExternal))
    decreases if allowExternal then 1 else 0, |s.frames| + 1
  {
    hide Process;
    if s.frames == [] {
    } else {
      ProcessAlike(s.frames[0], a, b, o, allowExternal);
      var ra, rb := Process(s.frames[0], a, o, allowExternal), Process(s.frames[0], b, o, allowExternal);
      if ra.error.None? { ProcessAllAlike(Stream(s.frames[1..], s.broken), ra.st, rb.st, o, allowExternal); }
    }
  }

  lemma {:induction false} ProcessAllAppend(x: seq<Frame>, y: Stream, st: Parsed, o: Options, allowExternal: bool)
    ensures ProcessAll(Stream(x + y.frames, y.broken), st, o, allowExternal)
         == var r := ProcessAll(Stream(x, None), st, o, allowExternal);
            if r.error.Some? then r else ProcessAll(y, r.st, o, allowExternal)
    decreases |x|
  {
    hide Process;
    if x == [] {
      assert x + y.frames == y.frames;
    } else {
      assert (x + y.frames)[1..] == x[1..] + y.frames;
      var r := Process(x[0], st, o, allowExternal);
      if r.error.None? { ProcessAllAppend(x[1..], y, r.st, o, allowExternal); }
    }
  }

  predicate PointerFree(frames: seq<Frame>) {
    forall i :: 0 <= i < |frames| ==> LOCATION_KEY !in frames[i].md
  }

  lemma {:induction false} PointerFreeInsideOrOut(run: seq<Frame>, st: Parsed, o: Options)
    requires PointerFree(run)
    ensures ProcessAll(Stream(run, None), st, o, true) == ProcessAll(Stream(run, None), st, o, false)
    decreases |run|
  {
    if run == [] {
    } else {
      var r := Process(run[0], st, o, true);
      assert r == Process(run[0], st, o, false);
      if r.error.None? { PointerFreeInsideOrOut(run[1..], r.st, o); }
    }
  }

  /** Some data frame of the run carries the key. */
  predicate Carries(run: seq<Frame>, key: string) {
    exists i :: 0 <= i < |run| && Classify(run[i]).Data? && key in run[i].md
  }

  /** `p` points at a stored copy of `run`; a token it carries itself is one that the run carries too. */
  predicate PointsAt(p: Frame, run: seq<Frame>, o: Options) {
    && LOCATION_KEY in p.md && o.external.Some?
    && (STATE_KEY in p.md ==> Carries(run, STATE_KEY))
    && (CALL_STATE_KEY in p.md ==> Carries(run, CALL_STATE_KEY))
    && var fetched := o.external.value.fetch(Without(Without(p.md, STATE_KEY), CALL_STATE_KEY));
       fetched.Ok? && fetched.value.payload == Stream(run, None)
  }

  /** Equal but for the tokens. */
  predicate SameBatchesAndLogs(a: Parsed, b: Parsed) {
    a.batches == b.batches && a.logs == b.logs
  }

  /** What a run makes of the batches and logs does not depend on the tokens held before, nor do tokens it carries. */
  lemma {:induction false} TokensSettle(run: seq<Frame>, a: Parsed, b: Parsed, o: Options)
    requires PointerFree(run) && SameBatchesAndLogs(a, b)
    ensures var ra, rb := ProcessAll(Stream(run, None), a, o, false), ProcessAll(Stream(run, None), b, o, false);
            && ra.error == rb.error && SameBatchesAndLogs(ra.st, rb.st)
            && (ra.error.None? && (a.token == b.token || Carries(run, STATE_KEY)) ==> ra.st.token == rb.st.token)
            && (ra.error.None? && (a.callToken == b.callToken || Carries(run, CALL_STATE_KEY)) ==>
                  ra.st.callToken == rb.st.callToken)
    decreases |run|
  {
    if run == [] {
    } else {
      var ra, rb := Process(run[0], a, o, false), Process(run[0], b, o, false);
      assert LOCATION_KEY !in run[0].md;
      if ra.error.None? {
        TokensSettle(run[1..], ra.st, rb.st, o);
        CarriesLater(run, STATE_KEY);
        CarriesLater(run, CALL_STATE_KEY);
      }
    }
  }

  lemma CarriesLater(run: seq<Frame>, key: string)
    requires run != []
    ensures Carries(run, key) <==> (Classify(run[0]).Data? && key in run[0].md) || Carries(run[1..], key)
  {
    assert forall i :: 0 <= i < |run[1..]| ==> run[1..][i] == run[i + 1];
    if Carries(run, key) && !(Classify(run[0]).Data? && key in run[0].md) {
      var i :| 0 <= i < |run| && Classify(run[i]).Data? && key in run[i].md;
      assert run[1..][i - 1] == run[i];
    }
  }

  /** The same error and logs, and alike as a whole when there is no error. */
  predicate AlikeOutcomes(a: Step, b: Step) {
    a.error == b.error && a.st.logs == b.st.logs && (a.error.None? ==> Alike(a.st, b.st))
  }

  lemma PointerAlike(p: Frame, run: seq<Frame>, st: Parsed, o: Options)
    requires PointsAt(p, run, o) && PointerFree(run)
    ensures AlikeOutcomes(ProcessAll(Stream(run, None), st, o, true), Process(p, st, o, true))
  {
    hide ProcessAll;
    var st1 := st.(token := KeepKey(p.md, STATE_KEY, st.token),
                   callToken := KeepKey(p.md, CALL_STATE_KEY, st.callToken));
    PointerFreeInsideOrOut(run, st, o);
    TokensSettle(run, st, st1, o);
    var r := ProcessAll(Stream(run, None), st1, o, false);
    if r.error.None? {
      var fetched := o.external.value.fetch(Without(Without(p.md, STATE_KEY), CALL_STATE_KEY));
      StampAlike(r.st.batches, r.st.batches, |st.batches|, fetched.value.ms, p.md[LOCATION_KEY]);
    }
  }

  /**
   Replacing any pointer-free run of frames by one pointer at a stored copy of it changes neither the
   success or error, nor the logs and their order, nor either token, nor the data batches, up to the two
   provenance keys. Frames around the run are arbitrary and may be pointers themselves.
   */
  lemma ExternalizingPreservesMeaning(before: seq<Frame>, run: seq<Frame>, after: Stream, p: Frame, o: Options)
    requires PointsAt(p, run, o) && PointerFree(run)
    ensures AlikeResponses(ParseResponse(Stream(before + run + after.frames, after.broken), o),
                           ParseResponse(Stream(before + [p] + after.frames, after.broken), o))
  {
    hide Process, ProcessAll, PointsAt, PointerFree;
    var st := ProcessAll(Stream(before, None), EMPTY, o, true);
    Regroup(before, run, after.frames);
    Regroup(before, [p], after.frames);
    ProcessAllAppend(before, Stream(run + after.frames, after.broken), EMPTY, o, true);
    ProcessAllAppend(before, Stream([p] + after.frames, after.broken), EMPTY, o, true);
    if st.error.None? {
      ProcessAllAppend(run, after, st.st, o, true);
      ProcessAllAppend([p], after, st.st, o, true);
      OneFrame(p, st.st, o);
      PointerAlike(p, run, st.st, o);
      var a, b := ProcessAll(Stream(run, None), st.st, o, true), Process(p, st.st, o, true);
      if a.error.None? { ProcessAllAlike(after, a.st, b.st, o, true); }
    }
  }

  // The pointers that a server writes.

  const LOCATION_KEYS := {LOCATION_KEY, LOCATION_SHA256_KEY, LOCATION_FETCH_MS_KEY, LOCATION_SOURCE_KEY}

  /** The metadata that goes both inside the stored object and on the pointer. */
  function CarriedMetadata(md: Metadata): Metadata {
    md - LOCATION_KEYS
  }

  /** The pointer at a stored batch, or nothing: a batch without rows always stays inline. */
  function Externalize(f: Frame, schema: int, url: string, sha: string): Option<(Frame, Stream)> {
    if f.batch.rows == 0 then None
    else
      var md := CarriedMetadata(f.md);
      Some((Frame(Batch(0, schema), md[LOCATION_KEY := url][LOCATION_SHA256_KEY := sha]),
            Stream([Frame(f.batch, md)], None)))
  }

  /** The resolver finds, under the pointer's metadata, what was stored. */
  predicate Finds(o: Options, p: Frame, stored: Stream) {
    && o.external.Some?
    && var fetched := o.external.value.fetch(Without(Without(p.md, STATE_KEY), CALL_STATE_KEY));
       fetched.Ok? && fetched.value.payload == stored
  }

  /** The tokens on a batch are both on the server's pointer and in the stored copy, and so count once. */
  lemma ServerPointerPointsAt(f: Frame, schema: int, url: string, sha: string, o: Options)
    requires f.batch.rows != 0 && f.md.Keys !! LOCATION_KEYS
    requires var (p, stored) := Externalize(f, schema, url, sha).value; Finds(o, p, stored)
    ensures PointsAt(Externalize(f, schema, url, sha).value.0, [f], o) && PointerFree([f])
  {
    assert CarriedMetadata(f.md) == f.md;
    assert [f][0] == f;
  }

  /** A reader whose resolver finds what was stored takes the server's pointer for the batch it stands for. */
  lemma ServerPointerPreservesMeaning(
    before: seq<Frame>, f: Frame, after: Stream, schema: int, url: string, sha: string, o: Options)
    requires f.batch.rows != 0 && f.md.Keys !! LOCATION_KEYS
    requires var (p, stored) := Externalize(f, schema, url, sha).value; Finds(o, p, stored)
    ensures var (p, stored) := Externalize(f, schema, url, sha).value;
            AlikeResponses(ParseResponse(Stream(before + [f] + after.frames, after.broken), o),
                           ParseResponse(Stream(before + [p] + after.frames, after.broken), o))
  {
    hide ParseResponse, AlikeResponses, PointsAt, PointerFree;
    ServerPointerPointsAt(f, schema, url, sha, o);
    ExternalizingPreservesMeaning(before, [f], after, Externalize(f, schema, url, sha).value.0, o);
  }

  lemma OneFrame(p: Frame, st: Parsed, o: Options)
    ensures ProcessAll(Stream([p], None), st, o, true) == Process(p, st, o, true)
  {
    hide Process;
    var r := Process(p, st, o, true);
    if r.error.None? { assert ProcessAll(Stream([p][1..], None), r.st, o, true) == Step(r.st, None); }
  }

  // No pointer is ever passed over in silence.

  predicate Delivered(st: Parsed) {
    forall i :: 0 <= i < |st.batches| ==> LOCATION_KEY !in st.batches[i].md
  }

  lemma ProcessDelivers(f: Frame, st: Parsed, o: Options)
    requires Delivered(st) && LOCATION_KEY !in f.md
    ensures Delivered(Process(f, st, o, true).st) && Delivered(Process(f, st, o, false).st)
  {
  }

  lemma {:induction false} PayloadDelivers(s: Stream, st: Parsed, o: Options)
    requires Delivered(st)
    ensures Delivered(ProcessAll(s, st, o, false).st)
    ensures ProcessAll(s, st, o, false).error.None? ==> PointerFree(s.frames)
    decreases |s.frames|
  {
    if s.frames == [] {
    } else {
      if LOCATION_KEY !in s.frames[0].md { ProcessDelivers(s.frames[0], st, o); }
      var r := Process(s.frames[0], st, o, false);
      if r.error.None? {
        PayloadDelivers(Stream(s.frames[1..], s.broken), r.st, o);
        if ProcessAll(s, st, o, false).error.None? {
          forall i | 0 <= i < |s.frames| ensures LOCATION_KEY !in s.frames[i].md {
            if i > 0 { assert s.frames[i] == s.frames[1..][i - 1]; }
          }
        }
      }
    }
  }

  /** Every pointer of a response that parses was fetched, and its payload held no further pointer. */
  predicate Fetches(f: Frame, o: Options) {
    LOCATION_KEY in f.md ==>
      && o.external.Some?
      && var fetched := o.external.value.fetch(Without(Without(f.md, STATE_KEY), CALL_STATE_KEY));
         fetched.Ok? && fetched.value.payload.broken.None? && PointerFree(fetched.value.payload.frames)
  }

  lemma ProcessFetches(f: Frame, st: Parsed, o: Options)
    requires Delivered(st)
    ensures Delivered(Process(f, st, o, true).st)
    ensures Process(f, st, o, true).error.None? ==> Fetches(f, o)
  {
    if LOCATION_KEY !in f.md {
      ProcessDelivers(f, st, o);
    } else if o.external.Some? {
      var st1 := st.(token := KeepKey(f.md, STATE_KEY, st.token),
                     callToken := KeepKey(f.md, CALL_STATE_KEY, st.callToken));
      var fetched := o.external.value.fetch(Without(Without(f.md, STATE_KEY), CALL_STATE_KEY));
      if fetched.Ok? {
        PayloadDelivers(fetched.value.payload, st1, o);
        BrokenPayload(fetched.value.payload, st1, o);
      }
    }
  }

  lemma {:induction false} BrokenPayload(s: Stream, st: Parsed, o: Options)
    ensures ProcessAll(s, st, o, false).error.None? ==> s.broken.None?
    decreases |s.frames|
  {
    hide Process;
    if s.frames == [] {
    } else {
      var r := Process(s.frames[0], st, o, false);
      if r.error.None? { BrokenPayload(Stream(s.frames[1..], s.broken), r.st, o); }
    }
  }

  lemma {:induction false} AllFetched(s: Stream, st: Parsed, o: Options)
    requires Delivered(st)
    ensures var r := ProcessAll(s, st, o, true);
            Delivered(r.st) && (r.error.None? ==> forall i :: 0 <= i < |s.frames| ==> Fetches(s.frames[i], o))
    decreases |s.frames|
  {
    hide Process, Fetches;
    if s.frames == [] {
    } else {
      ProcessFetches(s.frames[0], st, o);
      var r := Process(s.frames[0], st, o, true);
      if r.error.None? {
        AllFetched(Stream(s.frames[1..], s.broken), r.st, o);
        if ProcessAll(s, st, o, true).error.None? {
          forall i | 0 <= i < |s.frames| ensures Fetches(s.frames[i], o) {
            if i > 0 { assert s.frames[i] == s.frames[1..][i - 1]; }
          }
        }
      }
    }
  }

  /** A parsed response hands out at most one batch, never a pointer, and every pointer in it was resolved. */
  lemma NoPointerIsLost(s: Stream, o: Options)
    requires ParseResponse(s, o).result.Ok?
    ensures |ParseResponse(s, o).result.value.batches| <= 1
    ensures Delivered(ParseResponse(s, o).result.value)
    ensures forall i :: 0 <= i < |s.frames| ==> Fetches(s.frames[i], o)
  {
    AllFetched(s, EMPTY, o);
  }
}
