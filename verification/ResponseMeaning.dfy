/**
 What a response means, said of its frames and not of the parser: a response is a list of items, pointers replaced by
 what they point at, and its outcome can be read off that list.
 */
module ResponseMeaning {
  import opened Bytes
  import opened Frames
  import RF = ResponseFrames

  /** Where a batch was fetched from, and how long that took. */
  datatype Origin = Inline | Outside(ms: string, url: string)

  datatype Item =
    | Note(md: Metadata)                   // a log message
    | Datum(frame: Frame, origin: Origin)  // a data batch
    | Tokens(md: Metadata)                 // the metadata of a pointer that is followed
    | Stop(error: RpcError)                // nothing after it is looked at

  /** A frame that is not followed: it has no location, or nobody may go there. */
  function ItemOf(f: Frame, origin: Origin): Item {
    if LOCATION_KEY in f.md then Stop(UnresolvedPointer(f.md[LOCATION_KEY]))
    else if f.batch.rows > 0 || LOG_LEVEL_KEY !in f.md then Datum(f, origin)
    else if f.md[LOG_LEVEL_KEY] == "EXCEPTION" then Stop(Remote(f.md))
    else Note(f.md)
  }

  function Ending(broken: Option<RpcError>): seq<Item> {
    if broken.Some? then [Stop(broken.value)] else []
  }

  /** The frames of a stored object; a pointer among them goes no further. */
  function Payload(s: Stream, origin: Origin): seq<Item>
    decreases |s.frames|
  {
    if s.frames == [] then Ending(s.broken)
    else [ItemOf(s.frames[0], origin)] + Payload(s.(frames := s.frames[1..]), origin)
  }

  /** The pointer's own tokens, then what it points at. */
  function Followed(f: Frame, resolver: Resolver): seq<Item>
    requires LOCATION_KEY in f.md
  {
    [Tokens(f.md)] +
    match resolver.fetch(f.md - {STATE_KEY, CALL_STATE_KEY})
    case Err(e) => [Stop(e)]
    case Ok(x) => Payload(x.payload, Outside(x.ms, f.md[LOCATION_KEY]))
  }

  function FrameItems(f: Frame, external: Option<Resolver>): seq<Item> {
    if LOCATION_KEY in f.md && external.Some? then Followed(f, external.value) else [ItemOf(f, Inline)]
  }

  function Items(s: Stream, external: Option<Resolver>): seq<Item>
    decreases |s.frames|
  {
    if s.frames == [] then Ending(s.broken)
    else FrameItems(s.frames[0], external) + Items(s.(frames := s.frames[1..]), external)
  }

  // Reading the outcome off the items.

  /** The error of the first item that stops. */
  function FirstStop(items: seq<Item>): Option<RpcError> {
    if items == [] then None
    else if items[0].Stop? then Some(items[0].error)
    else FirstStop(items[1..])
  }

  /** The log messages before it, in order. */
  function Notes(items: seq<Item>): seq<Metadata> {
    if items == [] || items[0].Stop? then []
    else (if items[0].Note? then [items[0].md] else []) + Notes(items[1..])
  }

  function Metadatas(items: seq<Item>): seq<Metadata> {
    if items == [] then []
    else (match items[0]
          case Datum(f, _) => [f.md]
          case Tokens(md) => [md]
          case _ => []) + Metadatas(items[1..])
  }

  /** The last value of a key, or what it was before. */
  function Last(mds: seq<Metadata>, key: string, before: Option<string>): Option<string> {
    if mds == [] then before
    else if key in mds[|mds| - 1] then Some(mds[|mds| - 1][key])
    else Last(mds[..|mds| - 1], key, before)
  }

  /**
   A batch that carries a cursor is only the cursor's carrier, except in an exchange, where it is data unless it is an
   empty batch behind another.
   */
  predicate IsResult(f: Frame, first: bool, exchange: bool) {
    STATE_KEY !in f.md || (exchange && (f.batch.rows > 0 || first))
  }

  /** The batch as the caller gets it: no state keys, and its provenance if it was fetched. */
  function Delivered(d: Item): Frame
    requires d.Datum?
  {
    var md := d.frame.md - {STATE_KEY, CALL_STATE_KEY};
    Frame(d.frame.batch,
          match d.origin
          case Inline => md
          case Outside(ms, url) => md[LOCATION_FETCH_MS_KEY := ms][LOCATION_SOURCE_KEY := url])
  }

  /** The results among the items; `first` when none came before. */
  function Results(items: seq<Item>, first: bool, exchange: bool): seq<Frame> {
    if items == [] then []
    else if items[0].Datum? && IsResult(items[0].frame, first, exchange) then
      [Delivered(items[0])] + Results(items[1..], false, exchange)
    else Results(items[1..], first, exchange)
  }

  /** Reading the items, after what `st` already holds, ends in `r`. */
  predicate Means(items: seq<Item>, st: RF.Parsed, r: RF.Step, o: RF.Options) {
    && r.error == FirstStop(items)
    && r.st.logs == st.logs + Notes(items)
    && (r.error.None? ==>
          && r.st.batches == st.batches + Results(items, st.batches == [], o.stateFrameIsData)
          && r.st.token == Last(Metadatas(items), STATE_KEY, st.token)
          && r.st.callToken == Last(Metadatas(items), CALL_STATE_KEY, st.callToken))
  }

  // Items one after another.

  lemma {:induction false} StopsAppend(a: seq<Item>, b: seq<Item>)
    ensures FirstStop(a + b) == if FirstStop(a).Some? then FirstStop(a) else FirstStop(b)
    ensures Notes(a + b) == Notes(a) + if FirstStop(a).Some? then [] else Notes(b)
    decreases |a|
  {
    if a == [] {
      assert a + b == b;
    } else {
      assert (a + b)[1..] == a[1..] + b;
      StopsAppend(a[1..], b);
    }
  }

  lemma {:induction false} MetadatasAppend(a: seq<Item>, b: seq<Item>)
    ensures Metadatas(a + b) == Metadatas(a) + Metadatas(b)
    decreases |a|
  {
    if a == [] {
      assert a + b == b;
    } else {
      assert (a + b)[1..] == a[1..] + b;
      MetadatasAppend(a[1..], b);
    }
  }

  lemma {:induction false} LastAppend(a: seq<Metadata>, b: seq<Metadata>, key: string, before: Option<string>)
    ensures Last(a + b, key, before) == Last(b, key, Last(a, key, before))
    decreases |b|
  {
    if b == [] {
      assert a + b == a;
    } else {
      assert (a + b)[..|a + b| - 1] == a + b[..|b| - 1];
      LastAppend(a, b[..|b| - 1], key, before);
    }
  }

  lemma {:induction false} ResultsAppend(a: seq<Item>, b: seq<Item>, first: bool, exchange: bool)
    ensures Results(a + b, first, exchange)
         == Results(a, first, exchange) + Results(b, first && Results(a, first, exchange) == [], exchange)
    decreases |a|
  {
    hide IsResult, Delivered;
    if a == [] {
      assert a + b == b;
    } else {
      assert (a + b)[1..] == a[1..] + b;
      ResultsAppend(a[1..], b, first && !(a[0].Datum? && IsResult(a[0].frame, first, exchange)), exchange);
    }
  }

  lemma MeansThen(a: seq<Item>, b: seq<Item>, st: RF.Parsed, mid: RF.Step, r: RF.Step, o: RF.Options)
    requires Means(a, st, mid, o) && if mid.error.Some? then r == mid else Means(b, mid.st, r, o)
    ensures Means(a + b, st, r, o)
  {
    hide FirstStop, Notes, Metadatas, Last, Results;
    StopsAppend(a, b);
    MetadatasAppend(a, b);
    LastAppend(Metadatas(a), Metadatas(b), STATE_KEY, st.token);
    LastAppend(Metadatas(a), Metadatas(b), CALL_STATE_KEY, st.callToken);
    ResultsAppend(a, b, st.batches == [], o.stateFrameIsData);
    Regroup(st.logs, Notes(a), Notes(b));
    if mid.error.Some? { assert Notes(a) + [] == Notes(a); }
    Regroup(st.batches, Results(a, st.batches == [], o.stateFrameIsData),
            Results(b, mid.st.batches == [], o.stateFrameIsData));
  }

  // The parser reads the items.

  lemma OneItem(item: Item, st: RF.Parsed, o: RF.Options)
    ensures FirstStop([item]) == if item.Stop? then Some(item.error) else None
    ensures Notes([item]) == if item.Note? then [item.md] else []
    ensures Results([item], st.batches == [], o.stateFrameIsData)
         == if item.Datum? && IsResult(item.frame, st.batches == [], o.stateFrameIsData) then [Delivered(item)] else []
    ensures item.Note? || item.Stop? ==> Metadatas([item]) == []
    ensures item.Datum? ==> Metadatas([item]) == [item.frame.md]
    ensures item.Tokens? ==> Metadatas([item]) == [item.md]
  {
    hide IsResult, Delivered;
    assert [item][1..] == [];
  }

  lemma LastOne(md: Metadata, key: string, before: Option<string>)
    ensures Last([md], key, before) == RF.KeepKey(md, key, before)
    ensures Last([], key, before) == before
  {
    assert [md][..0] == [];
  }

  lemma FrameMeans(f: Frame, st: RF.Parsed, o: RF.Options, allowExternal: bool)
    requires LOCATION_KEY !in f.md || !allowExternal || o.external.None?
    ensures Means([ItemOf(f, Inline)], st, RF.Process(f, st, o, allowExternal), o)
  {
    var item := ItemOf(f, Inline);
    OneItem(item, st, o);
    LastOne(f.md, STATE_KEY, st.token);
    LastOne(f.md, CALL_STATE_KEY, st.callToken);
    assert Without(Without(f.md, CALL_STATE_KEY), STATE_KEY) == f.md - {STATE_KEY, CALL_STATE_KEY};
    hide FirstStop, Notes, Metadatas, Last, Results;
    assert st.logs + [] == st.logs && st.batches + [] == st.batches;
  }

  lemma {:induction false} PayloadMeans(s: Stream, st: RF.Parsed, o: RF.Options)
    ensures Means(Payload(s, Inline), st, RF.ProcessAll(s, st, o, false), o)
    decreases |s.frames|
  {
    hide RF.Process, ItemOf, Means;
    if s.frames == [] {
      EndingMeans(s.broken, st, o);
    } else {
      var f, rest := s.frames[0], s.(frames := s.frames[1..]);
      FrameMeans(f, st, o, false);
      var mid := RF.Process(f, st, o, false);
      assert rest == Stream(s.frames[1..], s.broken);
      if mid.error.None? { PayloadMeans(rest, mid.st, o); }
      MeansThen([ItemOf(f, Inline)], Payload(rest, Inline), st, mid, RF.ProcessAll(s, st, o, false), o);
    }
  }

  lemma EndingMeans(broken: Option<RpcError>, st: RF.Parsed, o: RF.Options)
    ensures Means(Ending(broken), st, RF.Step(st, broken), o)
  {
    assert st.logs + [] == st.logs && st.batches + [] == st.batches;
  }

  /** Where a payload came from shows in the provenance of its batches and nowhere else. */
  lemma {:induction false} OriginHidden(s: Stream, ms: string, url: string)
    ensures var a, b := Payload(s, Inline), Payload(s, Outside(ms, url));
            FirstStop(a) == FirstStop(b) && Notes(a) == Notes(b) && Metadatas(a) == Metadatas(b)
    decreases |s.frames|
  {
    if s.frames == [] {
    } else {
      var f, rest, from := s.frames[0], s.(frames := s.frames[1..]), Outside(ms, url);
      OriginHidden(rest, ms, url);
      assert ([ItemOf(f, Inline)] + Payload(rest, Inline))[1..] == Payload(rest, Inline);
      assert ([ItemOf(f, from)] + Payload(rest, from))[1..] == Payload(rest, from);
    }
  }

  lemma {:induction false} OriginStamps(s: Stream, first: bool, exchange: bool, ms: string, url: string)
    ensures var x := Results(Payload(s, Inline), first, exchange);
            var y := Results(Payload(s, Outside(ms, url)), first, exchange);
            |x| == |y| && forall i :: 0 <= i < |x| ==> y[i] == Frame(x[i].batch, Stamp(x[i].md, ms, url))
    decreases |s.frames|
  {
    if s.frames == [] {
    } else {
      var f, rest, from := s.frames[0], s.(frames := s.frames[1..]), Outside(ms, url);
      var x, y := ItemOf(f, Inline), ItemOf(f, from);
      OriginStamps(rest, first && !(x.Datum? && IsResult(f, first, exchange)), exchange, ms, url);
      assert ([x] + Payload(rest, Inline))[1..] == Payload(rest, Inline);
      assert ([y] + Payload(rest, from))[1..] == Payload(rest, from);
      if x.Datum? { assert Delivered(y) == Frame(Delivered(x).batch, Stamp(Delivered(x).md, ms, url)); }
      hide IsResult, Delivered, ItemOf, Payload;
    }
  }

  lemma FollowedMeans(f: Frame, st: RF.Parsed, o: RF.Options)
    requires LOCATION_KEY in f.md && o.external.Some?
    ensures Means(Followed(f, o.external.value), st, RF.Process(f, st, o, true), o)
  {
    var st1 := st.(token := RF.KeepKey(f.md, STATE_KEY, st.token),
                   callToken := RF.KeepKey(f.md, CALL_STATE_KEY, st.callToken));
    assert Means([Tokens(f.md)], st, RF.Step(st1, None), o) by {
      OneItem(Tokens(f.md), st, o);
      LastOne(f.md, STATE_KEY, st.token);
      LastOne(f.md, CALL_STATE_KEY, st.callToken);
    }
    assert Without(Without(f.md, STATE_KEY), CALL_STATE_KEY) == f.md - {STATE_KEY, CALL_STATE_KEY};
    var rest := match o.external.value.fetch(f.md - {STATE_KEY, CALL_STATE_KEY})
                case Err(e) => [Stop(e)]
                case Ok(x) => Payload(x.payload, Outside(x.ms, f.md[LOCATION_KEY]));
    FetchedMeans(f, st1, o, rest);
    MeansThen([Tokens(f.md)], rest, st, RF.Step(st1, None), RF.Process(f, st, o, true), o);
  }

  /** What follows the pointer's own tokens. */
  lemma FetchedMeans(f: Frame, st1: RF.Parsed, o: RF.Options, rest: seq<Item>)
    requires LOCATION_KEY in f.md && o.external.Some?
    requires st1.token == RF.KeepKey(f.md, STATE_KEY, st1.token)
    requires st1.callToken == RF.KeepKey(f.md, CALL_STATE_KEY, st1.callToken)
    requires rest == match o.external.value.fetch(f.md - {STATE_KEY, CALL_STATE_KEY})
                     case Err(e) => [Stop(e)]
                     case Ok(x) => Payload(x.payload, Outside(x.ms, f.md[LOCATION_KEY]))
    ensures Means(rest, st1, RF.Process(f, st1, o, true), o)
  {
    assert Without(Without(f.md, STATE_KEY), CALL_STATE_KEY) == f.md - {STATE_KEY, CALL_STATE_KEY};
    var fetched := o.external.value.fetch(f.md - {STATE_KEY, CALL_STATE_KEY});
    if fetched.Err? {
      OneItem(Stop(fetched.error), st1, o);
    } else {
      var x, url := fetched.value, f.md[LOCATION_KEY];
      PayloadMeans(x.payload, st1, o);
      OriginHidden(x.payload, x.ms, url);
      OriginStamps(x.payload, st1.batches == [], o.stateFrameIsData, x.ms, url);
    }
  }

  lemma {:induction false} StreamMeans(s: Stream, st: RF.Parsed, o: RF.Options)
    ensures Means(Items(s, o.external), st, RF.ProcessAll(s, st, o, true), o)
    decreases |s.frames|
  {
    hide RF.Process, FrameItems, Means;
    if s.frames == [] {
      EndingMeans(s.broken, st, o);
    } else {
      var f, rest := s.frames[0], s.(frames := s.frames[1..]);
      FrameItemsMeans(f, st, o);
      var mid := RF.Process(f, st, o, true);
      assert rest == Stream(s.frames[1..], s.broken);
      if mid.error.None? { StreamMeans(rest, mid.st, o); }
      MeansThen(FrameItems(f, o.external), Items(rest, o.external), st, mid, RF.ProcessAll(s, st, o, true), o);
    }
  }

  lemma FrameItemsMeans(f: Frame, st: RF.Parsed, o: RF.Options)
    ensures Means(FrameItems(f, o.external), st, RF.Process(f, st, o, true), o)
  {
    hide RF.Process, Means, Followed, ItemOf;
    if LOCATION_KEY in f.md && o.external.Some? {
      FollowedMeans(f, st, o);
    } else {
      FrameMeans(f, st, o, true);
    }
  }

  /**
   Every response, whatever its frames and pointers: the log callback hears the messages before the first item that
   stops; the result is that item's error, or the failure of more than one result, or else the result's batch with the
   last cursor and call token of the stream.
   */
  lemma ParseMeans(s: Stream, o: RF.Options)
    ensures var items := Items(s, o.external);
            var results := Results(items, true, o.stateFrameIsData);
            RF.ParseResponse(s, o) ==
              RF.Response(
                if FirstStop(items).Some? then Err(FirstStop(items).value)
                else if |results| > 1 then Err(MultipleBatches)
                else Ok(RF.Parsed(results, Last(Metadatas(items), STATE_KEY, None),
                                  Last(Metadatas(items), CALL_STATE_KEY, None), Notes(items))),
                Notes(items))
  {
    hide RF.ProcessAll, Items, Results, FirstStop, Last, Metadatas, Notes;
    StreamMeans(s, RF.EMPTY, o);
    var items := Items(s, o.external);
    assert [] + Notes(items) == Notes(items);
    assert [] + Results(items, true, o.stateFrameIsData) == Results(items, true, o.stateFrameIsData);
  }

  // The same for a response without pointers, frame by frame.

  predicate IsException(f: Frame) {
    f.batch.rows == 0 && LOG_LEVEL_KEY in f.md && f.md[LOG_LEVEL_KEY] == "EXCEPTION"
  }

  predicate IsLog(f: Frame) {
    f.batch.rows == 0 && LOG_LEVEL_KEY in f.md && f.md[LOG_LEVEL_KEY] != "EXCEPTION"
  }

  /** Where the first error envelope stands, or the number of frames. */
  function FirstException(fs: seq<Frame>): (k: nat)
    ensures k <= |fs| && (k < |fs| ==> IsException(fs[k])) && forall i :: 0 <= i < k ==> !IsException(fs[i])
  {
    if fs == [] || IsException(fs[0]) then 0 else 1 + FirstException(fs[1..])
  }

  function LogsOf(fs: seq<Frame>): seq<Metadata> {
    if fs == [] then [] else (if IsLog(fs[0]) then [fs[0].md] else []) + LogsOf(fs[1..])
  }

  lemma {:induction false} PointerFreeItems(s: Stream, external: Option<Resolver>)
    requires RF.PointerFree(s.frames)
    ensures var items, k := Items(s, external), FirstException(s.frames);
            && FirstStop(items) == (if k < |s.frames| then Some(Remote(s.frames[k].md)) else s.broken)
            && Notes(items) == LogsOf(s.frames[..k])
    decreases |s.frames|
  {
    if s.frames == [] {
    } else {
      var f, rest := s.frames[0], s.(frames := s.frames[1..]);
      var k := FirstException(s.frames);
      assert LOCATION_KEY !in f.md;
      PointerFreeItems(rest, external);
      assert ([ItemOf(f, Inline)] + Items(rest, external))[1..] == Items(rest, external);
      if k > 0 { assert s.frames[..k][1..] == rest.frames[..k - 1] && s.frames[..k][0] == f; }
    }
  }

  /**
   A response without pointers fails exactly when it holds an error envelope, could not be read to its end or has more
   than one result; the first error envelope wins, and the logs are those before it.
   */
  lemma PointerFreeFails(s: Stream, o: RF.Options)
    requires RF.PointerFree(s.frames)
    ensures var r, k := RF.ParseResponse(s, o), FirstException(s.frames);
            var results := Results(Items(s, o.external), true, o.stateFrameIsData);
            && r.logs == LogsOf(s.frames[..k])
            && (r.result.Err? <==> k < |s.frames| || s.broken.Some? || |results| > 1)
            && (r.result.Err? ==>
                  r.result.error == if k < |s.frames| then Remote(s.frames[k].md)
                                    else if s.broken.Some? then s.broken.value
                                    else MultipleBatches)
  {
    hide RF.ParseResponse, Items, Results, FirstStop, Last, Metadatas, Notes;
    ParseMeans(s, o);
    PointerFreeItems(s, o.external);
  }
}
