/** Resolving one external-location pointer: the walk over its payload and the metadata of the result. */
module Pointers {
  import opened Bytes
  import opened Frames

  const LOCATION_KEYS := {LOCATION_KEY, LOCATION_SHA256_KEY, LOCATION_FETCH_MS_KEY, LOCATION_SOURCE_KEY}

  /** The payload's keys over the outer frame's, no location key of either, and the reader's own provenance. */
  function ResolvedMetadata(outer: Metadata, inner: Metadata, url: string, ms: string): Metadata {
    Stamp((outer - LOCATION_KEYS) + (inner - LOCATION_KEYS), ms, url)
  }

  /** The logs that were dispatched, and the outcome. */
  datatype Walk = Walk(logs: seq<Metadata>, result: Result<Frame, RpcError>)

  /** The rest of a payload, given the data batch found so far. */
  function WalkFrames(s: Stream, data: Option<Frame>): Walk
    decreases |s.frames|
  {
    if s.frames == [] then
      Walk([], if s.broken.Some? then Err(s.broken.value)
               else if data.None? then Err(NoPayloadBatch)
               else Ok(data.value))
    else
      var rest := s.(frames := s.frames[1..]);
      match Classify(s.frames[0])
      case Log(m) => var w := WalkFrames(rest, data); w.(logs := [m] + w.logs)
      case Exception(e) => Walk([], Err(e))
      case Pointer => Walk([], Err(RedirectLoop))
      case Data => if data.Some? then Walk([], Err(SecondPayloadBatch)) else WalkFrames(rest, Some(s.frames[0]))
  }

  function Resolve(external: Option<Resolver>, outer: Metadata): Walk
    requires LOCATION_KEY in outer
  {
    if external.None? then Walk([], Err(UnresolvedPointer(outer[LOCATION_KEY])))
    else
      match external.value.fetch(outer)
      case Err(e) => Walk([], Err(e))
      case Ok(f) => Finish(WalkFrames(f.payload, None), outer, f.ms)
  }

  function Finish(w: Walk, outer: Metadata, ms: string): Walk
    requires LOCATION_KEY in outer
  {
    if w.result.Err? then w
    else
      var f := w.result.value;
      w.(result := Ok(f.(md := ResolvedMetadata(outer, f.md, outer[LOCATION_KEY], ms))))
  }

  method ResolveWith(external: Option<Resolver>, outer: Metadata)
    returns (logs: seq<Metadata>, r: Result<Frame, RpcError>)
    requires LOCATION_KEY in outer
    ensures Walk(logs, r) == Resolve(external, outer)
  {
    logs := [];
    if external.None? { return [], Err(UnresolvedPointer(outer[LOCATION_KEY])); }
    var fetched := external.value.fetch(outer);
    if fetched.Err? { return [], Err(fetched.error); }
    logs, r := WalkPayload(fetched.value.payload);
    if r.Err? { return; }
    var f := r.value;
    r := Ok(f.(md := ResolvedMetadata(outer, f.md, outer[LOCATION_KEY], fetched.value.ms)));
  }

  function Preceded(logs: seq<Metadata>, w: Walk): Walk {
    w.(logs := logs + w.logs)
  }

  method WalkPayload(s: Stream) returns (logs: seq<Metadata>, r: Result<Frame, RpcError>)
    ensures Walk(logs, r) == WalkFrames(s, None)
  {
    var data: Option<Frame> := None;
    logs := [];
    var i := 0;
    assert s.(frames := s.frames[0..]) == s && Preceded([], WalkFrames(s, None)) == WalkFrames(s, None);
    while i < |s.frames|
      invariant i <= |s.frames|
      invariant Preceded(logs, WalkFrames(s.(frames := s.frames[i..]), data)) == WalkFrames(s, None)
    {
      ghost var rest := s.(frames := s.frames[i + 1..]);
      assert s.frames[i..][1..] == s.frames[i + 1..];
      assert logs + [] == logs;
      match Classify(s.frames[i]) {
        case Log(m) =>
          assert logs + ([m] + WalkFrames(rest, data).logs) == (logs + [m]) + WalkFrames(rest, data).logs;
          logs := logs + [m];
        case Exception(e) => return logs, Err(e);
        case Pointer => return logs, Err(RedirectLoop);
        case Data =>
          if data.Some? { return logs, Err(SecondPayloadBatch); }
          data := Some(s.frames[i]);
      }
      i := i + 1;
    }
    assert logs + [] == logs;
    r := if s.broken.Some? then Err(s.broken.value) else if data.None? then Err(NoPayloadBatch) else Ok(data.value);
  }

  // What a payload holds, by kind.

  function LogsOf(fs: seq<Frame>): seq<Metadata> {
    if fs == [] then [] else (if Classify(fs[0]).Log? then [Classify(fs[0]).md] else []) + LogsOf(fs[1..])
  }

  function DataOf(fs: seq<Frame>): seq<Frame> {
    if fs == [] then [] else (if Classify(fs[0]).Data? then [fs[0]] else []) + DataOf(fs[1..])
  }

  predicate Plain(fs: seq<Frame>) {
    forall i :: 0 <= i < |fs| ==> Classify(fs[i]).Log? || Classify(fs[i]).Data?
  }

  function Found(data: Option<Frame>): seq<Frame> {
    if data.Some? then [data.value] else []
  }

  /** What a payload is refused for: the frame that decides, or how it ends. */
  function Fault(f: Frame): RpcError {
    if LOCATION_KEY in f.md then RedirectLoop
    else if f.batch.rows == 0 && LOG_LEVEL_KEY in f.md && f.md[LOG_LEVEL_KEY] == "EXCEPTION" then Remote(f.md)
    else SecondPayloadBatch
  }

  /** Nothing among the frames stops the walk. */
  predicate Walkable(fs: seq<Frame>, data: Option<Frame>) {
    Plain(fs) && |Found(data) + DataOf(fs)| <= 1
  }

  /**
   A payload that does not resolve fails at its first frame that cannot be walked over, with that frame's fault, or
   else by how it ends; the logs before that were dispatched, and no others.
   */
  lemma {:induction false} WalkFails(s: Stream, data: Option<Frame>) returns (k: nat)
    requires WalkFrames(s, data).result.Err?
    ensures k <= |s.frames| && Walkable(s.frames[..k], data)
    ensures k < |s.frames| ==> !Walkable(s.frames[..k + 1], data)
    ensures var w := WalkFrames(s, data);
            && w.logs == LogsOf(s.frames[..k])
            && w.result.error == if k < |s.frames| then Fault(s.frames[k])
                                 else if s.broken.Some? then s.broken.value
                                 else NoPayloadBatch
    decreases |s.frames|
  {
    hide Classify, Walkable, Fault;
    k := 0;
    EmptyWalkable(data);
    if s.frames == [] {
    } else {
      var f, rest := s.frames[0], s.(frames := s.frames[1..]);
      assert s.frames[..1] == [f] && s.frames[..0] == [];
      OneFrame(f, data);
      if !Walkable([f], data) {
        FaultStops(f, data);
      } else {
        var data' := if Classify(f).Data? then Some(f) else data;
        var j := WalkFails(rest, data');
        k := j + 1;
        FirstFrame(f, rest.frames[..j], data);
        assert s.frames[..k] == [f] + rest.frames[..j];
        if j < |rest.frames| {
          FirstFrame(f, rest.frames[..j + 1], data);
          assert s.frames[..k + 1] == [f] + rest.frames[..j + 1];
        }
      }
    }
  }

  lemma EmptyWalkable(data: Option<Frame>)
    ensures Walkable([], data)
  {
  }

  /** The fault of a frame that stops the walk is what the walk fails with. */
  lemma FaultStops(f: Frame, data: Option<Frame>)
    ensures Classify(f).Exception? ==> Classify(f).error == Fault(f)
    ensures Classify(f).Pointer? ==> Fault(f) == RedirectLoop
    ensures Classify(f).Data? ==> Fault(f) == SecondPayloadBatch
  {
  }

  lemma OneFrame(f: Frame, data: Option<Frame>)
    ensures Walkable([f], data) <==> Classify(f).Log? || (Classify(f).Data? && data.None?)
  {
    assert [f][0] == f && [f][1..] == [];
    assert DataOf([f]) == if Classify(f).Data? then [f] else [];
  }

  /** Walking over one more frame in front. */
  lemma FirstFrame(f: Frame, fs: seq<Frame>, data: Option<Frame>)
    requires Classify(f).Log? || (Classify(f).Data? && data.None?)
    ensures Walkable([f] + fs, data) <==> Walkable(fs, if Classify(f).Data? then Some(f) else data)
    ensures LogsOf([f] + fs) == (if Classify(f).Log? then [Classify(f).md] else []) + LogsOf(fs)
  {
    var all := [f] + fs;
    assert all[0] == f && all[1..] == fs;
    assert Plain(all) <==> Plain(fs) by {
      assert forall i :: 0 <= i < |fs| ==> all[i + 1] == fs[i];
      assert forall i :: 0 < i < |all| ==> all[i] == fs[i - 1];
    }
    assert DataOf(all) == (if Classify(f).Data? then [f] else []) + DataOf(fs);
  }

  /** A payload resolves exactly when it was read to its end, holds only logs and data, and one data batch. */
  lemma {:induction false} WalkExactly(s: Stream, data: Option<Frame>)
    ensures var w := WalkFrames(s, data);
            var all := Found(data) + DataOf(s.frames);
            && (w.result.Ok? <==> s.broken.None? && Plain(s.frames) && |all| == 1)
            && (w.result.Ok? ==> w.result.value == all[0] && w.logs == LogsOf(s.frames))
            && w.logs <= LogsOf(s.frames)
    decreases |s.frames|
  {
    hide Classify;
    if s.frames == [] {
    } else {
      var f, rest := s.frames[0], s.(frames := s.frames[1..]);
      assert Plain(s.frames) <==> (Classify(f).Log? || Classify(f).Data?) && Plain(rest.frames) by {
        assert forall i :: 0 < i < |s.frames| ==> s.frames[i] == rest.frames[i - 1];
        assert forall i :: 0 <= i < |rest.frames| ==> rest.frames[i] == s.frames[i + 1];
      }
      if Classify(f).Log? {
        WalkExactly(rest, data);
        assert DataOf(s.frames) == DataOf(rest.frames);
      } else if Classify(f).Data? {
        WalkExactly(rest, if data.Some? then data else Some(f));
        assert Found(data) + ([f] + DataOf(rest.frames)) == (Found(data) + [f]) + DataOf(rest.frames);
        assert LogsOf(s.frames) == LogsOf(rest.frames);
      }
    }
  }

  /** No location key from the wire survives; the payload's other keys win over the outer frame's. */
  lemma ResolvedMetadataKeys(outer: Metadata, inner: Metadata, url: string, ms: string)
    ensures var md := ResolvedMetadata(outer, inner, url, ms);
            && LOCATION_KEY !in md && LOCATION_SHA256_KEY !in md
            && md[LOCATION_SOURCE_KEY] == url && md[LOCATION_FETCH_MS_KEY] == ms
            && (forall k :: k !in LOCATION_KEYS ==> (k in md <==> k in inner || k in outer))
            && (forall k :: k !in LOCATION_KEYS && k in md ==> md[k] == if k in inner then inner[k] else outer[k])
  {
    KeysDiffer();
  }

  /**
   What resolving a pointer comes to: without a resolver or with a failed fetch, that failure and no logs; otherwise the
   logs and the one batch of the payload, under the pointer's own url, or the fault of the walk.
   */
  lemma ResolveExactly(external: Option<Resolver>, outer: Metadata)
    requires LOCATION_KEY in outer
    ensures var w := Resolve(external, outer);
            && (external.None? ==> w == Walk([], Err(UnresolvedPointer(outer[LOCATION_KEY]))))
            && (external.Some? ==>
                  match external.value.fetch(outer)
                  case Err(e) => w == Walk([], Err(e))
                  case Ok(x) =>
                    var walk, data := WalkFrames(x.payload, None), DataOf(x.payload.frames);
                    && w.logs == walk.logs
                    && (w.result.Ok? <==> x.payload.broken.None? && Plain(x.payload.frames) && |data| == 1)
                    && (w.result.Ok? ==>
                          && w.result.value.batch == data[0].batch
                          && w.result.value.md == ResolvedMetadata(outer, data[0].md, outer[LOCATION_KEY], x.ms))
                    && (w.result.Err? ==> walk.result == w.result))
  {
    hide WalkFrames, Plain, DataOf, ResolvedMetadata;
    if external.Some? && external.value.fetch(outer).Ok? {
      var s := external.value.fetch(outer).value.payload;
      WalkExactly(s, None);
      assert [] + DataOf(s.frames) == DataOf(s.frames);
    }
  }

  lemma KeysDiffer()
    ensures |LOCATION_KEY| == 16 && |LOCATION_SHA256_KEY| == 23 && |LOCATION_FETCH_MS_KEY| == 25
    ensures LOCATION_SOURCE_KEY != LOCATION_SHA256_KEY && |LOCATION_SOURCE_KEY| == 23
  {
    assert LOCATION_SOURCE_KEY[18] == 'o' && LOCATION_SHA256_KEY[18] == 'h';
  }
}
