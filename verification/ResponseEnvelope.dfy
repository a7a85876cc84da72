/** The HTTPI response envelope: what the adapter writes for a claim, and the grammar a peer reads it by. */
module ResponseEnvelope {
  import opened Bytes
  import opened RequestEnvelope

  const HTTPI_RESPONSE: byte := 2
  const RAW_REPRESENTATION: nat := 1
  const TERMINAL_ONLY: nat := 2
  const BODY_TERMINAL: byte := 3
  const MAX_DETAIL_BYTES: nat := 512

  /** Why a response stopped: stage, category and dispatch certainty codes, and a sanitized message. */
  datatype Evidence = Evidence(stage: byte, category: byte, certainty: byte)

  datatype Ending = Complete | Terminal(evidence: Evidence, detail: seq<byte>)

  /** One response on the wire: a head, body chunks, and one closing frame. */
  datatype Sentence = Sentence(
    terminalOnly: bool, status: nat, headers: seq<Header>, chunks: seq<seq<byte>>, ending: Ending)

  // Failures by name, and the codes they travel as.

  datatype Stage = AtParse | AtResolve | AtConnect | AtRequest | AtResponseHead | AtResponseBody

  datatype Category =
    | InvalidRequest | UnauthorizedTarget | Unavailable | TimedOut | Cancelled | BrokenProtocol | BrokenTransport
    | Internal

  datatype Certainty = NotDispatched | Dispatched | Ambiguous

  datatype Failure = Failure(stage: Stage, category: Category, certainty: Certainty)

  function StageCode(s: Stage): byte {
    match s
    case AtParse => 1
    case AtResolve => 2
    case AtConnect => 3
    case AtRequest => 4
    case AtResponseHead => 5
    case AtResponseBody => 6
  }

  function CategoryCode(c: Category): byte {
    match c
    case InvalidRequest => 1
    case UnauthorizedTarget => 2
    case Unavailable => 3
    case TimedOut => 4
    case Cancelled => 5
    case BrokenProtocol => 6
    case BrokenTransport => 7
    case Internal => 8
  }

  function CertaintyCode(c: Certainty): byte {
    match c
    case NotDispatched => 1
    case Dispatched => 2
    case Ambiguous => 3
  }

  function Codes(f: Failure): Evidence {
    Evidence(StageCode(f.stage), CategoryCode(f.category), CertaintyCode(f.certainty))
  }

  // What the adapter learns about a claim.

  datatype BodyEnd = Exhausted | ReadFailed(message: seq<byte>)

  datatype Outcome =
    | ParseFailed(message: seq<byte>)
    | FetchFailed(structured: Option<Failure>, message: seq<byte>)
    | Responded(raw: bool, status: Option<int>, headers: seq<Header>, chunks: seq<seq<byte>>, end: BodyEnd)

  /** Control characters become spaces; the UTF-8 form is cut at the limit. */
  function SanitizedDetail(message: seq<byte>): (d: seq<byte>)
    ensures |d| <= MAX_DETAIL_BYTES
  {
    var text := seq(|message|, i requires 0 <= i < |message| =>
      if message[i] <= 0x1F || message[i] == 0x7F then 0x20 else message[i]);
    if |text| <= MAX_DETAIL_BYTES then text else text[..MAX_DETAIL_BYTES]
  }

  predicate HeadersFit(headers: seq<Header>) {
    |headers| <= MAX_HEADERS && HeaderBytes(headers) <= MAX_HEADER_BYTES
  }

  /** A status is sent only when it is an integer of three digits. */
  predicate StatusOk(status: Option<int>) {
    status.Some? && 100 <= status.value <= 999
  }

  /** A chunk that fits goes out whole, even when empty; a larger one in pieces of the I/O size. */
  function Pieces(value: seq<byte>): (p: seq<seq<byte>>)
    ensures forall i :: 0 <= i < |p| ==> |p[i]| <= IO_CHUNK_BYTES
  {
    if |value| <= IO_CHUNK_BYTES then [value]
    else [value[..IO_CHUNK_BYTES]] + Pieces(value[IO_CHUNK_BYTES..])
  }

  function AllPieces(chunks: seq<seq<byte>>): (p: seq<seq<byte>>)
    ensures forall i :: 0 <= i < |p| ==> |p[i]| <= IO_CHUNK_BYTES
  {
    if chunks == [] then [] else Pieces(chunks[0]) + AllPieces(chunks[1..])
  }

  lemma {:induction false} PiecesKeepBytes(value: seq<byte>)
    ensures Flatten(Pieces(value)) == value
  {
    if |value| <= IO_CHUNK_BYTES {
      FlattenOne(value);
    } else {
      PiecesKeepBytes(value[IO_CHUNK_BYTES..]);
      FlattenAppend([value[..IO_CHUNK_BYTES]], Pieces(value[IO_CHUNK_BYTES..]));
      FlattenOne(value[..IO_CHUNK_BYTES]);
    }
  }

  /** Splitting keeps the body: the pieces concatenate to what was read. */
  lemma {:induction false} AllPiecesKeepBytes(chunks: seq<seq<byte>>)
    ensures Flatten(AllPieces(chunks)) == Flatten(chunks)
  {
    if chunks == [] {
    } else {
      PiecesKeepBytes(chunks[0]);
      AllPiecesKeepBytes(chunks[1..]);
      FlattenAppend(Pieces(chunks[0]), AllPieces(chunks[1..]));
    }
  }

  function TerminalOnly(evidence: Evidence, message: seq<byte>): Sentence {
    Sentence(true, 0, [], [], Terminal(evidence, SanitizedDetail(message)))
  }

  const PARSE_EVIDENCE := Codes(Failure(AtParse, InvalidRequest, NotDispatched))
  const UNSTRUCTURED_EVIDENCE := Codes(Failure(AtRequest, BrokenTransport, Ambiguous))
  const HEAD_EVIDENCE := Codes(Failure(AtResponseHead, BrokenProtocol, Dispatched))
  const BODY_EVIDENCE := Codes(Failure(AtResponseBody, BrokenTransport, Dispatched))

  /** `message` is the text of the error a refused response head raises. */
  function SentenceFor(o: Outcome, message: seq<byte>): Sentence {
    match o
    case ParseFailed(m) => TerminalOnly(PARSE_EVIDENCE, m)
    case FetchFailed(structured, m) =>
      TerminalOnly(if structured.Some? then Codes(structured.value) else UNSTRUCTURED_EVIDENCE, m)
    case Responded(raw, status, headers, chunks, end) =>
      if !raw || !StatusOk(status) || !HeadersFit(headers) then TerminalOnly(HEAD_EVIDENCE, message)
      else Sentence(false, status.value, headers, AllPieces(chunks),
                    if end.Exhausted? then Complete else Terminal(BODY_EVIDENCE, SanitizedDetail(end.message)))
  }

  // The encoding.

  predicate WellFormed(s: Sentence) {
    && s.status < 0x1_0000 && HeadersFit(s.headers)
    && (forall i :: 0 <= i < |s.chunks| ==> |s.chunks[i]| <= IO_CHUNK_BYTES)
    && (s.ending.Terminal? ==> |s.ending.detail| <= MAX_DETAIL_BYTES)
  }

  function HeadPrefix(status: nat, headerCount: nat, terminalOnly: bool): (p: seq<byte>)
    requires status < 0x1_0000 && headerCount <= MAX_HEADERS
    ensures |p| == 16
  {
    HTTPI_MAGIC + [HTTPI_VERSION, HTTPI_RESPONSE]
    + PutU16(RAW_REPRESENTATION + if terminalOnly then TERMINAL_ONLY else 0)
    + PutU16(status) + PutU16(0) + PutU32(headerCount)
  }

  function ResponseHead(status: nat, headers: seq<Header>, terminalOnly: bool): seq<byte>
    requires status < 0x1_0000 && HeadersFit(headers)
  {
    HeadPrefix(status, |headers|, terminalOnly) + EncodeHeaders(headers)
  }

  function Frame(kind: byte, payload: seq<byte>, evidence: Evidence): seq<byte>
    requires |payload| < 0x1_0000_0000
  {
    [kind, evidence.stage, evidence.category, evidence.certainty] + PutU32(|payload|) + payload
  }

  const NO_EVIDENCE := Evidence(0, 0, 0)

  function ChunkFrames(chunks: seq<seq<byte>>): seq<byte>
    requires forall i :: 0 <= i < |chunks| ==> |chunks[i]| <= IO_CHUNK_BYTES
  {
    if chunks == [] then [] else Frame(BODY_CHUNK, chunks[0], NO_EVIDENCE) + ChunkFrames(chunks[1..])
  }

  function EndingFrame(e: Ending): seq<byte>
    requires e.Terminal? ==> |e.detail| <= MAX_DETAIL_BYTES
  {
    match e
    case Complete => Frame(BODY_END, [], NO_EVIDENCE)
    case Terminal(evidence, detail) => Frame(BODY_TERMINAL, detail, evidence)
  }

  function Encode(s: Sentence): seq<byte>
    requires WellFormed(s)
  {
    ResponseHead(s.status, s.headers, s.terminalOnly) + ChunkFrames(s.chunks) + EndingFrame(s.ending)
  }

  lemma SentenceForWellFormed(o: Outcome, message: seq<byte>)
    ensures WellFormed(SentenceFor(o, message))
  {
  }

  // The grammar, read from the front of a stream.

  function DecodeHeader(s: seq<byte>): Result<(Header, seq<byte>), EnvelopeError> {
    var (lengths, s1) :- Exactly(s, 8);
    var (name, s2) :- Exactly(s1, U32(lengths, 0));
    var (value, s3) :- Exactly(s2, U32(lengths, 4));
    Ok((Header(name, value), s3))
  }

  function DecodeHeaders(s: seq<byte>, count: nat): Result<(seq<Header>, seq<byte>), EnvelopeError> {
    if count == 0 then Ok(([], s))
    else
      var (h, s1) :- DecodeHeader(s);
      var (rest, s2) :- DecodeHeaders(s1, count - 1);
      Ok(([h] + rest, s2))
  }

  datatype ResponseStart = ResponseStart(terminalOnly: bool, status: nat, headerCount: nat)

  function DecodeStart(s: seq<byte>): Result<(ResponseStart, seq<byte>), EnvelopeError> {
    var (p, s1) :- Exactly(s, 16);
    if p[..4] != HTTPI_MAGIC || p[4] != HTTPI_VERSION || p[5] != HTTPI_RESPONSE
       || !(U16(p, 6) == 1 || U16(p, 6) == 3) then Err(InvalidEnvelope)
    else Ok((ResponseStart(U16(p, 6) == 3, U16(p, 8), U32(p, 12)), s1))
  }

  datatype Piece = Body(bytes: seq<byte>) | Closing(ending: Ending)

  function DecodeFrame(s: seq<byte>): (r: Result<(Piece, seq<byte>), EnvelopeError>)
    ensures r.Ok? ==> |r.value.1| < |s|
  {
    var (h, s1) :- Exactly(s, 8);
    var (payload, s2) :- Exactly(s1, U32(h, 4));
    if h[0] == BODY_CHUNK && h[1] == 0 && h[2] == 0 && h[3] == 0 && |payload| <= IO_CHUNK_BYTES then
      Ok((Body(payload), s2))
    else if h[0] == BODY_END && h[1] == 0 && h[2] == 0 && h[3] == 0 && payload == [] then Ok((Closing(Complete), s2))
    else if h[0] == BODY_TERMINAL && |payload| <= MAX_DETAIL_BYTES then
      Ok((Closing(Terminal(Evidence(h[1], h[2], h[3]), payload)), s2))
    else Err(InvalidBodyFrame)
  }

  function DecodeBody(s: seq<byte>): Result<(seq<seq<byte>>, Ending, seq<byte>), EnvelopeError>
    decreases |s|
  {
    var (piece, s1) :- DecodeFrame(s);
    match piece
    case Closing(e) => Ok(([], e, s1))
    case Body(b) =>
      var (rest, e, s2) :- DecodeBody(s1);
      Ok(([b] + rest, e, s2))
  }

  function Decode(s: seq<byte>): Result<(Sentence, seq<byte>), EnvelopeError> {
    var (start, s1) :- DecodeStart(s);
    var (headers, s2) :- DecodeHeaders(s1, start.headerCount);
    var (chunks, ending, s3) :- DecodeBody(s2);
    Ok((Sentence(start.terminalOnly, start.status, headers, chunks, ending), s3))
  }

  // Decoding inverts encoding.

  lemma DecodeHeaderInverts(h: Header, x: seq<byte>)
    requires |h.name| < 0x1_0000_0000 && |h.value| < 0x1_0000_0000
    ensures DecodeHeader(EncodeHeader(h) + x) == Ok((h, x))
  {
    hide EncodeHeader, U32;
    var lengths := HeaderFields(h, x);
    TakeDrop(lengths, h.name + (h.value + x));
    TakeDrop(h.name, h.value + x);
    TakeDrop(h.value, x);
  }

  lemma {:induction false} DecodeHeadersInverts(headers: seq<Header>, x: seq<byte>)
    requires HeaderBytes(headers) <= MAX_HEADER_BYTES
    ensures DecodeHeaders(EncodeHeaders(headers) + x, |headers|) == Ok((headers, x))
  {
    hide DecodeHeader, EncodeHeader;
    if headers == [] {
      assert EncodeHeaders(headers) + x == x;
    } else {
      EncodeHeadersFirst(headers, x);
      DecodeHeaderInverts(headers[0], EncodeHeaders(headers[1..]) + x);
      DecodeHeadersInverts(headers[1..], x);
      assert [headers[0]] + headers[1..] == headers;
    }
  }

  lemma HeadPrefixFields(status: nat, headerCount: nat, terminalOnly: bool)
    requires status < 0x1_0000 && headerCount <= MAX_HEADERS
    ensures var p := HeadPrefix(status, headerCount, terminalOnly);
            && p[..4] == HTTPI_MAGIC && p[4] == HTTPI_VERSION && p[5] == HTTPI_RESPONSE
            && U16(p, 6) == (if terminalOnly then 3 else 1) && U16(p, 8) == status && U32(p, 12) == headerCount
  {
    hide PutU16, PutU32, U16, U32;
    var p := HeadPrefix(status, headerCount, terminalOnly);
    var flags := RAW_REPRESENTATION + if terminalOnly then TERMINAL_ONLY else 0;
    assert p[6..8] == PutU16(flags) && p[8..10] == PutU16(status) && p[12..16] == PutU32(headerCount);
    FieldU16(p, 6, flags);
    FieldU16(p, 8, status);
    FieldU32(p, 12, headerCount);
  }

  lemma DecodeStartInverts(status: nat, headers: seq<Header>, terminalOnly: bool, x: seq<byte>)
    requires status < 0x1_0000 && HeadersFit(headers)
    ensures DecodeStart(ResponseHead(status, headers, terminalOnly) + x)
         == Ok((ResponseStart(terminalOnly, status, |headers|), EncodeHeaders(headers) + x))
  {
    hide HeadPrefix, U16, U32, EncodeHeaders, HeaderBytes;
    var p := HeadPrefix(status, |headers|, terminalOnly);
    HeadPrefixFields(status, |headers|, terminalOnly);
    Regroup(p, EncodeHeaders(headers), x);
    TakeDrop(p, EncodeHeaders(headers) + x);
  }

  lemma FramePieces(kind: byte, payload: seq<byte>, e: Evidence, x: seq<byte>)
    requires |payload| < 0x1_0000_0000
    ensures var h := [kind, e.stage, e.category, e.certainty] + PutU32(|payload|);
            && Exactly(Frame(kind, payload, e) + x, 8) == Ok((h, payload + x)) && U32(h, 4) == |payload|
            && Exactly(payload + x, |payload|) == Ok((payload, x))
            && h[0] == kind && h[1] == e.stage && h[2] == e.category && h[3] == e.certainty
  {
    var h := [kind, e.stage, e.category, e.certainty] + PutU32(|payload|);
    assert h[4..8] == PutU32(|payload|);
    assert Frame(kind, payload, e) + x == h + (payload + x);
    TakeDrop(h, payload + x);
    TakeDrop(payload, x);
  }

  lemma DecodeFrameInverts(p: Piece, x: seq<byte>)
    requires p.Body? ==> |p.bytes| <= IO_CHUNK_BYTES
    requires p.Closing? && p.ending.Terminal? ==> |p.ending.detail| <= MAX_DETAIL_BYTES
    ensures DecodeFrame((if p.Body? then Frame(BODY_CHUNK, p.bytes, NO_EVIDENCE) else EndingFrame(p.ending)) + x)
         == Ok((p, x))
  {
    match p
    case Body(b) => FramePieces(BODY_CHUNK, b, NO_EVIDENCE, x);
    case Closing(Complete) => FramePieces(BODY_END, [], NO_EVIDENCE, x);
    case Closing(Terminal(e, d)) => FramePieces(BODY_TERMINAL, d, e, x);
  }

  lemma {:induction false} DecodeBodyInverts(chunks: seq<seq<byte>>, e: Ending, x: seq<byte>)
    requires forall i :: 0 <= i < |chunks| ==> |chunks[i]| <= IO_CHUNK_BYTES
    requires e.Terminal? ==> |e.detail| <= MAX_DETAIL_BYTES
    ensures DecodeBody(ChunkFrames(chunks) + (EndingFrame(e) + x)) == Ok((chunks, e, x))
  {
    hide DecodeFrame, Frame, EndingFrame;
    var tail := EndingFrame(e) + x;
    if chunks == [] {
      assert ChunkFrames(chunks) + tail == tail;
      DecodeFrameInverts(Closing(e), x);
    } else {
      var first, rest := Frame(BODY_CHUNK, chunks[0], NO_EVIDENCE), ChunkFrames(chunks[1..]) + tail;
      Regroup(first, ChunkFrames(chunks[1..]), tail);
      DecodeFrameInverts(Body(chunks[0]), rest);
      DecodeBodyInverts(chunks[1..], e, x);
      assert [chunks[0]] + chunks[1..] == chunks;
    }
  }

  /** Every sentence, with any bytes behind it, decodes to itself and leaves those bytes. */
  lemma DecodeInverts(s: Sentence, x: seq<byte>)
    requires WellFormed(s)
    ensures Decode(Encode(s) + x) == Ok((s, x))
  {
    hide DecodeStart, DecodeHeaders, DecodeBody, ResponseHead, ChunkFrames, EndingFrame, EncodeHeaders;
    var tail := ChunkFrames(s.chunks) + (EndingFrame(s.ending) + x);
    assert Encode(s) + x == ResponseHead(s.status, s.headers, s.terminalOnly) + tail;
    DecodeStartInverts(s.status, s.headers, s.terminalOnly, tail);
    DecodeHeadersInverts(s.headers, tail);
    DecodeBodyInverts(s.chunks, s.ending, x);
  }

  // What decodes on a prefix decodes the same on the whole.

  lemma DecodeHeaderAppend(s: seq<byte>, x: seq<byte>)
    requires DecodeHeader(s).Ok?
    ensures DecodeHeader(s + x) == Ok((DecodeHeader(s).value.0, DecodeHeader(s).value.1 + x))
  {
    ExactlyAppend(s, x, 8);
    var (lengths, s1) := Exactly(s, 8).value;
    ExactlyAppend(s1, x, U32(lengths, 0));
    ExactlyAppend(s1[U32(lengths, 0)..], x, U32(lengths, 4));
  }

  lemma {:induction false} DecodeHeadersAppend(s: seq<byte>, x: seq<byte>, count: nat)
    requires DecodeHeaders(s, count).Ok?
    ensures DecodeHeaders(s + x, count) == Ok((DecodeHeaders(s, count).value.0, DecodeHeaders(s, count).value.1 + x))
    decreases count
  {
    hide DecodeHeader;
    if count == 0 {
    } else {
      DecodeHeaderAppend(s, x);
      DecodeHeadersAppend(DecodeHeader(s).value.1, x, count - 1);
    }
  }

  lemma DecodeFrameAppend(s: seq<byte>, x: seq<byte>)
    requires DecodeFrame(s).Ok?
    ensures DecodeFrame(s + x) == Ok((DecodeFrame(s).value.0, DecodeFrame(s).value.1 + x))
  {
    ExactlyAppend(s, x, 8);
    var (h, s1) := Exactly(s, 8).value;
    ExactlyAppend(s1, x, U32(h, 4));
  }

  lemma {:induction false} DecodeBodyAppend(s: seq<byte>, x: seq<byte>)
    requires DecodeBody(s).Ok?
    ensures var (c, e, rest) := DecodeBody(s).value; DecodeBody(s + x) == Ok((c, e, rest + x))
    decreases |s|
  {
    hide DecodeFrame;
    DecodeFrameAppend(s, x);
    if !DecodeFrame(s).value.0.Body? {
    } else {
      DecodeBodyAppend(DecodeFrame(s).value.1, x);
    }
  }

  lemma DecodeAppend(s: seq<byte>, x: seq<byte>)
    requires Decode(s).Ok?
    ensures Decode(s + x) == Ok((Decode(s).value.0, Decode(s).value.1 + x))
  {
    hide DecodeHeaders, DecodeBody;
    ExactlyAppend(s, x, 16);
    var (start, s1) := DecodeStart(s).value;
    DecodeHeadersAppend(s1, x, start.headerCount);
    DecodeBodyAppend(DecodeHeaders(s1, start.headerCount).value.1, x);
  }

  /** A response cut short anywhere is never mistaken for a complete one: what decodes is the whole sentence. */
  lemma TruncationDetected(s: Sentence, p: seq<byte>)
    requires WellFormed(s) && p <= Encode(s)
    ensures Decode(p).Ok? <==> p == Encode(s)
    ensures Decode(p).Ok? ==> Decode(p).value == (s, [])
  {
    hide Decode, Encode, WellFormed;
    DecodeInverts(s, []);
    assert Encode(s) + [] == Encode(s);
    if Decode(p).Ok? {
      var x := Encode(s)[|p|..];
      assert Encode(s) == p + x;
      DecodeAppend(p, x);
      assert |Decode(p).value.1 + x| == 0;
      assert p + x == p;
    }
  }

  /**
   A clean response is recovered whole: status, ordered headers, and the exact body, in chunks of the I/O size at
   most.
   */
  lemma CleanResponseRecovered(o: Outcome, message: seq<byte>)
    requires o.Responded? && o.raw && StatusOk(o.status) && HeadersFit(o.headers)
    ensures var s := SentenceFor(o, message);
            && WellFormed(s) && Decode(Encode(s)) == Ok((s, []))
            && !s.terminalOnly && s.status == o.status.value && s.headers == o.headers
            && Flatten(s.chunks) == Flatten(o.chunks)
            && (forall i :: 0 <= i < |s.chunks| ==> |s.chunks[i]| <= IO_CHUNK_BYTES)
            && (s.ending == Complete <==> o.end.Exhausted?)
  {
    hide Decode, Encode;
    var s := SentenceFor(o, message);
    AllPiecesKeepBytes(o.chunks);
    SentenceForWellFormed(o, message);
    DecodeInverts(s, []);
    assert Encode(s) + [] == Encode(s);
  }

  // What a failed claim tells the peer.

  /** The detail of a failure: the first bytes of its message, at most 512, with every control byte a space. */
  predicate IsDetail(d: seq<byte>, message: seq<byte>) {
    && |d| == Min(|message|, 512)
    && forall i :: 0 <= i < |d| ==>
         d[i] == if message[i] < 0x20 || message[i] == 0x7F then 0x20 else message[i]
  }

  lemma DetailExactly(message: seq<byte>)
    ensures IsDetail(SanitizedDetail(message), message)
  {
  }

  /** The claim got no response that can be sent: the reply has no head and no body. */
  predicate NoResponse(o: Outcome) {
    o.Responded? ==>
      !o.raw || o.status.None? || o.status.value < 100 || o.status.value > 999
      || |o.headers| > 1024 || HeaderBytes(o.headers) > 1024 * 1024
  }

  /** The failure that the peer should learn of. */
  function FailureOf(o: Outcome): Failure {
    match o
    case ParseFailed(_) => Failure(AtParse, InvalidRequest, NotDispatched)
    case FetchFailed(Some(f), _) => f
    case FetchFailed(None, _) => Failure(AtRequest, BrokenTransport, Ambiguous)
    case Responded(_, _, _, _, _) => Failure(AtResponseHead, BrokenProtocol, Dispatched)
  }

  lemma CodesDistinct(f: Failure, g: Failure)
    requires Codes(f) == Codes(g)
    ensures f == g
  {
  }

  lemma DecodeSentenceFor(o: Outcome, message: seq<byte>)
    ensures WellFormed(SentenceFor(o, message))
    ensures Decode(Encode(SentenceFor(o, message))) == Ok((SentenceFor(o, message), []))
  {
    hide Decode, Encode, SentenceFor, WellFormed;
    SentenceForWellFormed(o, message);
    DecodeInverts(SentenceFor(o, message), []);
    assert Encode(SentenceFor(o, message)) + [] == Encode(SentenceFor(o, message));
  }

  /**
   What the peer decodes when there is no response to send: one terminal frame with the codes of the failure that
   happened, the structured one's own if there is one, and the sanitized message.
   */
  lemma FailureReply(o: Outcome, message: seq<byte>)
    requires NoResponse(o)
    ensures WellFormed(SentenceFor(o, message))
    ensures var r := Decode(Encode(SentenceFor(o, message)));
            && r.Ok? && r.value.1 == []
            && var s := r.value.0;
               && s.terminalOnly && s.status == 0 && s.headers == [] && s.chunks == []
               && s.ending.Terminal? && s.ending.evidence == Codes(FailureOf(o))
               && IsDetail(s.ending.detail, if o.Responded? then message else o.message)
  {
    hide Decode, Encode, Codes;
    DecodeSentenceFor(o, message);
    DetailExactly(if o.Responded? then message else o.message);
  }

  /** A body that breaks off: head and body so far, then a terminal frame that says the request was dispatched. */
  lemma BrokenBodyReply(o: Outcome, message: seq<byte>)
    requires o.Responded? && !NoResponse(o) && o.end.ReadFailed?
    ensures WellFormed(SentenceFor(o, message))
    ensures var r := Decode(Encode(SentenceFor(o, message)));
            && r.Ok? && r.value.1 == []
            && var s := r.value.0;
               && !s.terminalOnly && s.status == o.status.value && s.headers == o.headers
               && Flatten(s.chunks) == Flatten(o.chunks)
               && s.ending.Terminal?
               && s.ending.evidence == Codes(Failure(AtResponseBody, BrokenTransport, Dispatched))
               && IsDetail(s.ending.detail, o.end.message)
  {
    hide Decode, Encode, Codes;
    DecodeSentenceFor(o, message);
    DetailExactly(o.end.message);
    AllPiecesKeepBytes(o.chunks);
  }

  /** Two outcomes without a response that share a reply are the same failure. */
  lemma RepliesTellFailures(a: Outcome, x: seq<byte>, b: Outcome, y: seq<byte>)
    requires NoResponse(a) && NoResponse(b)
    requires WellFormed(SentenceFor(a, x)) && WellFormed(SentenceFor(b, y))
    requires Encode(SentenceFor(a, x)) == Encode(SentenceFor(b, y))
    ensures FailureOf(a) == FailureOf(b)
  {
    hide Encode, Decode, SentenceFor, WellFormed, NoResponse, FailureOf, Codes;
    FailureReply(a, x);
    FailureReply(b, y);
    CodesDistinct(FailureOf(a), FailureOf(b));
  }
}
