/** The HTTPI request envelope: its encoding, and the adapter's reader over a stream of ring chunks. */
module RequestEnvelope {
  import opened Bytes
  import opened HttpiSyntax
  import opened RequestBudget

  const HTTPI_MAGIC: seq<byte> := [0x56, 0x47, 0x49, 0x48]
  const HTTPI_VERSION: byte := 1
  const HTTPI_REQUEST: byte := 1
  const BODY_CHUNK: byte := 1
  const BODY_END: byte := 2
  const MAX_HEADERS: nat := 1024
  const MAX_HEADER_BYTES: nat := 0x10_0000
  const MAX_METHOD_BYTES: nat := 16
  const MAX_PATH_BYTES: nat := 16384

  /** Text is carried as its UTF-8 bytes. */
  type Text = seq<byte>

  datatype Header = Header(name: Text, value: Text)

  datatype Request = Request(verb: Text, path: Text, headers: seq<Header>, body: seq<byte>)

  datatype EnvelopeError =
    | EndedEarly | InvalidEnvelope | HeadLimits | BadText | InvalidMethodOrPath
    | HeaderLimits | InvalidHeader | InvalidBodyFrame | Refused(reason: BudgetError)

  // Text.

  const BOM: seq<byte> := [0xEF, 0xBB, 0xBF]

  /** A fatal UTF-8 `TextDecoder`: ill-formed input throws, one leading byte-order mark is dropped. */
  function Decode(b: seq<byte>): (r: Result<Text, EnvelopeError>)
    ensures r.Err? ==> r.error == BadText
  {
    if !ValidUtf8(b) then Err(BadText) else if BOM <= b then Ok(b[3..]) else Ok(b)
  }

  /** Text is read exactly when it is well-formed, and with or without a byte-order mark it is the same text. */
  lemma DecodeExactly(b: seq<byte>)
    ensures Decode(b).Ok? <==> ValidUtf8(b)
    ensures ValidUtf8(b) && !(BOM <= b) ==> Decode(b) == Ok(b)
    ensures ValidUtf8(BOM + b) ==> Decode(BOM + b) == Ok(b)
  {
    assert (BOM + b)[3..] == b;
  }

  predicate IsVerb(t: Text) {
    t != [] && forall i :: 0 <= i < |t| ==> IsUpper(t[i])
  }

  predicate IsName(t: Text) {
    t != [] && forall i :: 0 <= i < |t| ==> IsTokenByte(t[i])
  }

  /** No control character but the tab. */
  predicate IsFieldValue(t: Text) {
    forall i :: 0 <= i < |t| ==> !(t[i] <= 8 || 10 <= t[i] <= 31 || t[i] == 0x7F)
  }

  // The reader's meaning, as a function of the byte stream.

  function Exactly(s: seq<byte>, n: nat): Result<(seq<byte>, seq<byte>), EnvelopeError> {
    if |s| < n then Err(EndedEarly) else Ok((s[..n], s[n..]))
  }

  predicate PrefixOk(p: seq<byte>)
    requires |p| == 20
  {
    p[..4] == HTTPI_MAGIC && p[4] == HTTPI_VERSION && p[5] == HTTPI_REQUEST && U16(p, 6) == 0
  }

  predicate HeadFits(verbLength: nat, pathLength: nat, headerCount: nat) {
    0 < verbLength <= MAX_METHOD_BYTES && 0 < pathLength <= MAX_PATH_BYTES && headerCount <= MAX_HEADERS
  }

  datatype Head = Head(verb: Text, path: Text, headerCount: nat)

  function ParseHead(s: seq<byte>): Result<(Head, seq<byte>), EnvelopeError> {
    var (prefix, s1) :- Exactly(s, 20);
    if !PrefixOk(prefix) then Err(InvalidEnvelope)
    else if !HeadFits(U16(prefix, 8), U32(prefix, 12), U32(prefix, 16)) then Err(HeadLimits)
    else
      var (v, s2) :- Exactly(s1, U16(prefix, 8));
      var verb :- Decode(v);
      var (p, s3) :- Exactly(s2, U32(prefix, 12));
      var path :- Decode(p);
      if !IsVerb(verb) || !IsRootedPath(path) then Err(InvalidMethodOrPath)
      else Ok((Head(verb, path, U32(prefix, 16)), s3))
  }

  /** One header field: its text, the running byte total, and the rest of the stream. */
  function ParseHeader(s: seq<byte>, total: nat): Result<(Header, nat, seq<byte>), EnvelopeError> {
    var (lengths, s1) :- Exactly(s, 8);
    var total' := total + U32(lengths, 0) + U32(lengths, 4);
    if U32(lengths, 0) == 0 || total' > MAX_HEADER_BYTES then Err(HeaderLimits)
    else
      var (n, s2) :- Exactly(s1, U32(lengths, 0));
      var name :- Decode(n);
      var (v, s3) :- Exactly(s2, U32(lengths, 4));
      var value :- Decode(v);
      if !IsName(name) || !IsFieldValue(value) then Err(InvalidHeader)
      else Ok((Header(name, value), total', s3))
  }

  function ParseHeaders(s: seq<byte>, count: nat, total: nat, sofar: seq<Header>)
    : Result<(seq<Header>, nat, seq<byte>), EnvelopeError>
  {
    if count == 0 then Ok((sofar, total, s))
    else
      var (h, total', s') :- ParseHeader(s, total);
      ParseHeaders(s', count - 1, total', sofar + [h])
  }

  /** The budget as one reader meets it: `others(k)` is what other claims hold when body frame `k` is reserved. */
  datatype Limits = Limits(perRequest: nat, aggregate: nat, others: nat -> nat)

  /** One body frame: a chunk and the rest of the stream, or the end frame and the rest. */
  function ParseFrame(s: seq<byte>, k: nat, held: nat, limits: Limits)
    : (r: Result<(Option<seq<byte>>, seq<byte>), EnvelopeError>)
    ensures r.Ok? ==> |r.value.1| < |s|
  {
    var (head, s1) :- Exactly(s, 8);
    var length := U32(head, 4);
    if head[0] == BODY_END && length == 0 then Ok((None, s1))
    else if head[0] != BODY_CHUNK || head[1] != 0 || head[2] != 0 || head[3] != 0 || length > IO_CHUNK_BYTES then
      Err(InvalidBodyFrame)
    else
      match Admission(limits.others(k) + held, limits.perRequest, limits.aggregate, held, length)
      case Err(e) => Err(Refused(e))
      case Ok(_) =>
        var (chunk, s2) :- Exactly(s1, length);
        Ok((Some(chunk), s2))
  }

  function ParseBody(s: seq<byte>, k: nat, body: seq<byte>, limits: Limits)
    : Result<(seq<byte>, seq<byte>), EnvelopeError>
    decreases |s|
  {
    var (chunk, s') :- ParseFrame(s, k, |body|, limits);
    if chunk.None? then Ok((body, s')) else ParseBody(s', k + 1, body + chunk.value, limits)
  }

  /** The request at the front of the stream and what follows its end frame. */
  function ParseRequest(s: seq<byte>, limits: Limits): Result<(Request, seq<byte>), EnvelopeError> {
    var (head, s1) :- ParseHead(s);
    var (headers, _, s2) :- ParseHeaders(s1, head.headerCount, 0, []);
    var (body, s3) :- ParseBody(s2, 0, [], limits);
    Ok((Request(head.verb, head.path, headers, body), s3))
  }

  // The encoding.

  function EncodeHead(r: Request, reserved: seq<byte>): seq<byte>
    requires |r.verb| < 0x1_0000 && |r.path| < 0x1_0000_0000 && |r.headers| < 0x1_0000_0000
  {
    HTTPI_MAGIC + [HTTPI_VERSION, HTTPI_REQUEST, 0, 0]
    + PutU16(|r.verb|) + reserved + PutU32(|r.path|) + PutU32(|r.headers|)
  }

  function EncodeHeader(h: Header): seq<byte>
    requires |h.name| < 0x1_0000_0000 && |h.value| < 0x1_0000_0000
  {
    PutU32(|h.name|) + PutU32(|h.value|) + h.name + h.value
  }

  function HeaderBytes(headers: seq<Header>): nat {
    if headers == [] then 0 else |headers[0].name| + |headers[0].value| + HeaderBytes(headers[1..])
  }

  function EncodeHeaders(headers: seq<Header>): seq<byte>
    requires HeaderBytes(headers) <= MAX_HEADER_BYTES
  {
    if headers == [] then [] else EncodeHeader(headers[0]) + EncodeHeaders(headers[1..])
  }

  function EncodeFrames(frames: seq<seq<byte>>): seq<byte>
    requires forall i :: 0 <= i < |frames| ==> |frames[i]| <= IO_CHUNK_BYTES
  {
    if frames == [] then []
    else [BODY_CHUNK, 0, 0, 0] + PutU32(|frames[0]|) + frames[0] + EncodeFrames(frames[1..])
  }

  predicate HeaderOk(h: Header) {
    IsName(h.name) && ValidUtf8(h.value) && IsFieldValue(h.value) && !(BOM <= h.value)
  }

  /** The requests an envelope can carry, and a split of the body into frames. */
  predicate Encodable(r: Request, frames: seq<seq<byte>>) {
    && IsVerb(r.verb) && |r.verb| <= MAX_METHOD_BYTES
    && IsRootedPath(r.path) && |r.path| <= MAX_PATH_BYTES
    && |r.headers| <= MAX_HEADERS && HeaderBytes(r.headers) <= MAX_HEADER_BYTES
    && (forall i :: 0 <= i < |r.headers| ==> HeaderOk(r.headers[i]))
    && Flatten(frames) == r.body
    && (forall i :: 0 <= i < |frames| ==> |frames[i]| <= IO_CHUNK_BYTES)
  }

  /** `reserved` and `slack` are the bytes of the prefix and of the end frame that the reader does not look at. */
  function EncodeRequest(r: Request, frames: seq<seq<byte>>, reserved: seq<byte>, slack: seq<byte>): seq<byte>
    requires Encodable(r, frames)
  {
    EncodeHead(r, reserved) + r.verb + r.path
    + EncodeHeaders(r.headers) + EncodeFrames(frames) + [BODY_END] + slack + PutU32(0)
  }

  // A verdict reached on a stream stands on every longer stream.

  lemma ExactlyAppend(s: seq<byte>, x: seq<byte>, n: nat)
    requires n <= |s|
    ensures Exactly(s, n).Ok? && Exactly(s + x, n) == Ok((Exactly(s, n).value.0, Exactly(s, n).value.1 + x))
  {
    assert (s + x)[..n] == s[..n];
    assert (s + x)[n..] == s[n..] + x;
  }

  lemma HeadAppend(s: seq<byte>, x: seq<byte>)
    requires ParseHead(s) != Err(EndedEarly)
    ensures match ParseHead(s)
            case Ok((h, rest)) => ParseHead(s + x) == Ok((h, rest + x))
            case Err(e) => ParseHead(s + x) == Err(e)
  {
    ExactlyAppend(s, x, 20);
    var (prefix, s1) := Exactly(s, 20).value;
    if PrefixOk(prefix) && HeadFits(U16(prefix, 8), U32(prefix, 12), U32(prefix, 16)) {
      var m, n := U16(prefix, 8), U32(prefix, 12);
      ExactlyAppend(s1, x, m);
      if Decode(s1[..m]).Ok? { ExactlyAppend(s1[m..], x, n); }
    }
  }

  lemma HeaderAppend(s: seq<byte>, x: seq<byte>, total: nat)
    requires ParseHeader(s, total) != Err(EndedEarly)
    ensures match ParseHeader(s, total)
            case Ok((h, t, rest)) => ParseHeader(s + x, total) == Ok((h, t, rest + x))
            case Err(e) => ParseHeader(s + x, total) == Err(e)
  {
    ExactlyAppend(s, x, 8);
    var (lengths, s1) := Exactly(s, 8).value;
    var m, n := U32(lengths, 0), U32(lengths, 4);
    if m != 0 && total + m + n <= MAX_HEADER_BYTES {
      ExactlyAppend(s1, x, m);
      if Decode(s1[..m]).Ok? { ExactlyAppend(s1[m..], x, n); }
    }
  }

  lemma FrameAppend(s: seq<byte>, x: seq<byte>, k: nat, held: nat, limits: Limits)
    requires ParseFrame(s, k, held, limits) != Err(EndedEarly)
    ensures match ParseFrame(s, k, held, limits)
            case Ok((c, rest)) => ParseFrame(s + x, k, held, limits) == Ok((c, rest + x))
            case Err(e) => ParseFrame(s + x, k, held, limits) == Err(e)
  {
    ExactlyAppend(s, x, 8);
    var (head, s1) := Exactly(s, 8).value;
    var n := U32(head, 4);
    if n <= |s1| { ExactlyAppend(s1, x, n); }
  }

  lemma {:induction false} HeadersAppend(s: seq<byte>, x: seq<byte>, count: nat, total: nat, sofar: seq<Header>)
    requires ParseHeaders(s, count, total, sofar) != Err(EndedEarly)
    ensures match ParseHeaders(s, count, total, sofar)
            case Ok((h, t, rest)) => ParseHeaders(s + x, count, total, sofar) == Ok((h, t, rest + x))
            case Err(e) => ParseHeaders(s + x, count, total, sofar) == Err(e)
    decreases count
  {
    hide ParseHeader;
    if count == 0 {
    } else {
      HeaderAppend(s, x, total);
      if ParseHeader(s, total).Ok? {
        var (h, t, rest) := ParseHeader(s, total).value;
        HeadersAppend(rest, x, count - 1, t, sofar + [h]);
      }
    }
  }

  lemma {:induction false} BodyAppend(s: seq<byte>, x: seq<byte>, k: nat, body: seq<byte>, limits: Limits)
    requires ParseBody(s, k, body, limits) != Err(EndedEarly)
    ensures match ParseBody(s, k, body, limits)
            case Ok((b, rest)) => ParseBody(s + x, k, body, limits) == Ok((b, rest + x))
            case Err(e) => ParseBody(s + x, k, body, limits) == Err(e)
    decreases |s|
  {
    FrameAppend(s, x, k, |body|, limits);
    if ParseFrame(s, k, |body|, limits).Ok? {
      var (c, rest) := ParseFrame(s, k, |body|, limits).value;
      if c.Some? { BodyAppend(rest, x, k + 1, body + c.value, limits); }
    }
  }

  lemma RequestAppend(s: seq<byte>, x: seq<byte>, limits: Limits)
    requires ParseRequest(s, limits) != Err(EndedEarly)
    ensures match ParseRequest(s, limits)
            case Ok((q, rest)) => ParseRequest(s + x, limits) == Ok((q, rest + x))
            case Err(e) => ParseRequest(s + x, limits) == Err(e)
  {
    HeadAppend(s, x);
    if ParseHead(s).Ok? {
      var (head, s1) := ParseHead(s).value;
      HeadersAppend(s1, x, head.headerCount, 0, []);
      if ParseHeaders(s1, head.headerCount, 0, []).Ok? {
        BodyAppend(ParseHeaders(s1, head.headerCount, 0, []).value.2, x, 0, [], limits);
      }
    }
  }

  // Round trip.

  /** Every prefix of the body fits beside what the other claims hold. */
  predicate FitsBudget(frames: seq<seq<byte>>, k: nat, held: nat, limits: Limits) {
    frames == [] ||
    (&& held + |frames[0]| <= limits.perRequest
     && limits.others(k) + held + |frames[0]| <= limits.aggregate
     && FitsBudget(frames[1..], k + 1, held + |frames[0]|, limits))
  }

  lemma AsciiDecodes(t: Text)
    requires forall i :: 0 <= i < |t| ==> t[i] < 0x80
    ensures Decode(t) == Ok(t)
  {
    AsciiIsUtf8(t);
  }

  lemma NamesAreAscii(t: Text)
    requires IsVerb(t) || IsName(t)
    ensures forall i :: 0 <= i < |t| ==> t[i] < 0x80
  {
  }

  lemma PathsAreAscii(t: Text)
    requires IsRootedPath(t)
    ensures forall i :: 0 <= i < |t| ==> t[i] < 0x80
  {
    forall i | 0 <= i < |t|
      ensures t[i] < 0x80
    {
      if i > 0 { assert t[i] == t[1..][i - 1]; }
    }
  }

  lemma VerbText(t: Text)
    requires IsVerb(t) || IsRootedPath(t) || IsName(t)
    ensures Decode(t) == Ok(t)
  {
    hide IsVerb, IsRootedPath, IsName, Decode;
    if IsRootedPath(t) { PathsAreAscii(t); } else { NamesAreAscii(t); }
    AsciiDecodes(t);
  }

  lemma TakeDrop(a: seq<byte>, b: seq<byte>)
    ensures (a + b)[..|a|] == a && (a + b)[|a|..] == b
    ensures Exactly(a + b, |a|) == Ok((a, b))
  {
  }

  /** The two length fields in front of a header, and what follows them. */
  lemma HeaderFields(h: Header, x: seq<byte>) returns (lengths: seq<byte>)
    requires |h.name| < 0x1_0000_0000 && |h.value| < 0x1_0000_0000
    ensures |lengths| == 8 && U32(lengths, 0) == |h.name| && U32(lengths, 4) == |h.value|
    ensures EncodeHeader(h) + x == lengths + (h.name + (h.value + x))
  {
    var first, second := PutU32(|h.name|), PutU32(|h.value|);
    lengths := first + second;
    hide PutU32, U32;
    assert lengths[0..4] == first && lengths[4..8] == second;
    FieldU32(lengths, 0, |h.name|);
    FieldU32(lengths, 4, |h.value|);
    assert EncodeHeader(h) + x == lengths + (h.name + (h.value + x));
  }

  lemma HeaderRoundTrip(h: Header, total: nat, x: seq<byte>)
    requires HeaderOk(h) && total + |h.name| + |h.value| <= MAX_HEADER_BYTES
    ensures ParseHeader(EncodeHeader(h) + x, total) == Ok((h, total + |h.name| + |h.value|, x))
  {
    assert h.name != [] && Decode(h.value) == Ok(h.value);
    hide EncodeHeader, U32, Decode, IsName, IsFieldValue;
    var lengths := HeaderFields(h, x);
    TakeDrop(lengths, h.name + (h.value + x));
    TakeDrop(h.name, h.value + x);
    TakeDrop(h.value, x);
    VerbText(h.name);
  }

  lemma HeadersStep(s: seq<byte>, count: nat, total: nat, sofar: seq<Header>, h: Header, total': nat, rest: seq<byte>)
    requires count > 0 && ParseHeader(s, total) == Ok((h, total', rest))
    ensures ParseHeaders(s, count, total, sofar) == ParseHeaders(rest, count - 1, total', sofar + [h])
  {
  }

  lemma EncodeHeadersFirst(headers: seq<Header>, x: seq<byte>)
    requires HeaderBytes(headers) <= MAX_HEADER_BYTES && headers != []
    ensures EncodeHeaders(headers) + x == EncodeHeader(headers[0]) + (EncodeHeaders(headers[1..]) + x)
  {
    Regroup(EncodeHeader(headers[0]), EncodeHeaders(headers[1..]), x);
  }

  lemma HeadersRoundTripStep(headers: seq<Header>, total: nat, sofar: seq<Header>, x: seq<byte>)
    requires headers != [] && HeaderOk(headers[0]) && total + HeaderBytes(headers) <= MAX_HEADER_BYTES
    ensures ParseHeaders(EncodeHeaders(headers) + x, |headers|, total, sofar)
         == ParseHeaders(EncodeHeaders(headers[1..]) + x, |headers[1..]|,
                         total + |headers[0].name| + |headers[0].value|, sofar + [headers[0]])
  {
    hide ParseHeader, EncodeHeader, HeaderOk;
    var h, rest := headers[0], EncodeHeaders(headers[1..]) + x;
    EncodeHeadersFirst(headers, x);
    HeaderRoundTrip(h, total, rest);
    HeadersStep(EncodeHeader(h) + rest, |headers|, total, sofar, h, total + |h.name| + |h.value|, rest);
  }

  lemma {:induction false} HeadersRoundTrip(headers: seq<Header>, total: nat, sofar: seq<Header>, x: seq<byte>)
    requires total + HeaderBytes(headers) <= MAX_HEADER_BYTES
    requires forall i :: 0 <= i < |headers| ==> HeaderOk(headers[i])
    ensures ParseHeaders(EncodeHeaders(headers) + x, |headers|, total, sofar)
         == Ok((sofar + headers, total + HeaderBytes(headers), x))
    decreases |headers|
  {
    hide ParseHeader, EncodeHeader, HeaderOk;
    if headers == [] {
      assert EncodeHeaders(headers) + x == x;
      assert sofar + headers == sofar;
    } else {
      HeadersRoundTripStep(headers, total, sofar, x);
      HeadersRoundTrip(headers[1..], total + |headers[0].name| + |headers[0].value|, sofar + [headers[0]], x);
      assert sofar + [headers[0]] + headers[1..] == sofar + headers;
    }
  }

  lemma FrameRoundTrip(chunk: seq<byte>, k: nat, held: nat, limits: Limits, x: seq<byte>)
    requires |chunk| <= IO_CHUNK_BYTES
    requires held + |chunk| <= limits.perRequest && limits.others(k) + held + |chunk| <= limits.aggregate
    ensures ParseFrame([BODY_CHUNK, 0, 0, 0] + PutU32(|chunk|) + chunk + x, k, held, limits) == Ok((Some(chunk), x))
  {
    var head := [BODY_CHUNK, 0, 0, 0] + PutU32(|chunk|);
    assert head[4..8] == PutU32(|chunk|);
    assert U32(head, 4) == |chunk|;
    assert head + chunk + x == head + (chunk + x);
    TakeDrop(head, chunk + x);
    TakeDrop(chunk, x);
  }

  function EndFrame(slack: seq<byte>): seq<byte> {
    [BODY_END] + slack + PutU32(0)
  }

  lemma BodyStep(s: seq<byte>, k: nat, body: seq<byte>, limits: Limits, chunk: seq<byte>, rest: seq<byte>)
    requires ParseFrame(s, k, |body|, limits) == Ok((Some(chunk), rest))
    ensures ParseBody(s, k, body, limits) == ParseBody(rest, k + 1, body + chunk, limits)
  {
  }

  lemma BodyEnds(k: nat, body: seq<byte>, limits: Limits, slack: seq<byte>, x: seq<byte>)
    requires |slack| == 3
    ensures ParseBody(EndFrame(slack) + x, k, body, limits) == Ok((body, x))
  {
    TakeDrop(EndFrame(slack), x);
    assert EndFrame(slack)[4..8] == PutU32(0);
    assert U32(EndFrame(slack), 4) == 0;
  }

  lemma BodyRoundTripStep(frames: seq<seq<byte>>, k: nat, body: seq<byte>, limits: Limits, tail: seq<byte>)
    requires forall i :: 0 <= i < |frames| ==> |frames[i]| <= IO_CHUNK_BYTES
    requires frames != [] && FitsBudget(frames, k, |body|, limits)
    ensures ParseBody(EncodeFrames(frames) + tail, k, body, limits)
         == ParseBody(EncodeFrames(frames[1..]) + tail, k + 1, body + frames[0], limits)
  {
    hide ParseFrame, PutU32;
    var first, rest := [BODY_CHUNK, 0, 0, 0] + PutU32(|frames[0]|) + frames[0], EncodeFrames(frames[1..]) + tail;
    Regroup(first, EncodeFrames(frames[1..]), tail);
    FrameRoundTrip(frames[0], k, |body|, limits, rest);
    BodyStep(first + rest, k, body, limits, frames[0], rest);
  }

  lemma {:induction false} BodyRoundTrip(
    frames: seq<seq<byte>>, k: nat, body: seq<byte>, limits: Limits, slack: seq<byte>, x: seq<byte>)
    requires forall i :: 0 <= i < |frames| ==> |frames[i]| <= IO_CHUNK_BYTES
    requires FitsBudget(frames, k, |body|, limits) && |slack| == 3
    ensures ParseBody(EncodeFrames(frames) + (EndFrame(slack) + x), k, body, limits) == Ok((body + Flatten(frames), x))
    decreases |frames|
  {
    hide ParseFrame, PutU32, EndFrame;
    if frames == [] {
      assert EncodeFrames(frames) + (EndFrame(slack) + x) == EndFrame(slack) + x;
      BodyEnds(k, body, limits, slack, x);
      assert body + Flatten(frames) == body;
    } else {
      BodyRoundTripStep(frames, k, body, limits, EndFrame(slack) + x);
      BodyRoundTrip(frames[1..], k + 1, body + frames[0], limits, slack, x);
      Regroup(body, frames[0], Flatten(frames[1..]));
    }
  }

  lemma HeadFields(r: Request, reserved: seq<byte>)
    requires |r.verb| < 0x1_0000 && |r.path| < 0x1_0000_0000 && |r.headers| < 0x1_0000_0000 && |reserved| == 2
    ensures var p := EncodeHead(r, reserved);
            && |p| == 20 && PrefixOk(p)
            && U16(p, 8) == |r.verb| && U32(p, 12) == |r.path| && U32(p, 16) == |r.headers|
  {
    var p := EncodeHead(r, reserved);
    var verb, path, count := PutU16(|r.verb|), PutU32(|r.path|), PutU32(|r.headers|);
    assert p[..4] == HTTPI_MAGIC && U16(p, 6) == 0;
    assert p[8..10] == verb && p[12..16] == path && p[16..20] == count;
    hide PutU16, PutU32, U16, U32, EncodeHead;
    FieldU16(p, 8, |r.verb|);
    FieldU32(p, 12, |r.path|);
    FieldU32(p, 16, |r.headers|);
  }

  lemma HeadRoundTrip(r: Request, frames: seq<seq<byte>>, reserved: seq<byte>, x: seq<byte>)
    requires Encodable(r, frames) && |reserved| == 2
    ensures ParseHead(EncodeHead(r, reserved) + r.verb + r.path + x) == Ok((Head(r.verb, r.path, |r.headers|), x))
  {
    assert r.verb != [] && r.path != [];
    hide EncodeHead, PrefixOk, U16, U32, Decode, IsVerb, IsRootedPath;
    var prefix := EncodeHead(r, reserved);
    HeadFields(r, reserved);
    Regroup(prefix + r.verb, r.path, x);
    Regroup(prefix, r.verb, r.path + x);
    TakeDrop(prefix, r.verb + (r.path + x));
    TakeDrop(r.verb, r.path + x);
    TakeDrop(r.path, x);
    VerbText(r.verb);
    VerbText(r.path);
  }

  lemma EncodedParts(r: Request, frames: seq<seq<byte>>, reserved: seq<byte>, slack: seq<byte>, x: seq<byte>)
    requires Encodable(r, frames)
    ensures EncodeRequest(r, frames, reserved, slack) + x
         == EncodeHead(r, reserved) + r.verb + r.path
            + (EncodeHeaders(r.headers) + (EncodeFrames(frames) + (EndFrame(slack) + x)))
  {
    var front := EncodeHead(r, reserved) + r.verb + r.path;
    var headers, body := EncodeHeaders(r.headers), EncodeFrames(frames);
    hide EncodeHead, EncodeHeaders, EncodeFrames, PutU32, Encodable;
    assert EncodeRequest(r, frames, reserved, slack) == front + headers + body + EndFrame(slack) by {
      Regroup(front + headers + body, [BODY_END], slack);
      Regroup(front + headers + body, [BODY_END] + slack, PutU32(0));
    }
    Regroup(front + headers + body, EndFrame(slack), x);
    Regroup(front + headers, body, EndFrame(slack) + x);
    Regroup(front, headers, body + (EndFrame(slack) + x));
  }

  lemma RequestParts(s: seq<byte>, limits: Limits, head: Head, s1: seq<byte>, s2: seq<byte>, r: Request, s3: seq<byte>)
    requires ParseHead(s) == Ok((head, s1)) && head.verb == r.verb && head.path == r.path
    requires ParseHeaders(s1, head.headerCount, 0, []) == Ok((r.headers, HeaderBytes(r.headers), s2))
    requires ParseBody(s2, 0, [], limits) == Ok((r.body, s3))
    ensures ParseRequest(s, limits) == Ok((r, s3))
  {
  }

  /**
   Every request within limits, every split of its body into frames, every value of the bytes the reader
   skips: parsing returns exactly the request and leaves exactly what follows the end frame.
   */
  lemma RequestRoundTrip(r: Request, frames: seq<seq<byte>>, reserved: seq<byte>, slack: seq<byte>, limits: Limits,
                         x: seq<byte>)
    requires Encodable(r, frames) && |reserved| == 2 && |slack| == 3 && FitsBudget(frames, 0, 0, limits)
    ensures ParseRequest(EncodeRequest(r, frames, reserved, slack) + x, limits) == Ok((r, x))
  {
    hide ParseHead, ParseHeaders, ParseBody, ParseRequest;
    hide EncodeRequest, EncodeHead, EncodeHeaders, EncodeFrames, EndFrame, HeaderOk;
    var tail := EncodeFrames(frames) + (EndFrame(slack) + x);
    var middle := EncodeHeaders(r.headers) + tail;
    EncodedParts(r, frames, reserved, slack, x);
    HeadRoundTrip(r, frames, reserved, middle);
    HeadersRoundTrip(r.headers, 0, [], tail);
    assert [] + r.headers == r.headers;
    BodyRoundTrip(frames, 0, [], limits, slack, x);
    assert [] + Flatten(frames) == r.body;
    var head := Head(r.verb, r.path, |r.headers|);
    RequestParts(EncodeRequest(r, frames, reserved, slack) + x, limits, head, middle, tail, r, x);
  }
}
