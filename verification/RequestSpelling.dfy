/** The converse of reading a request: whatever is read was spelled as an envelope of the request it is read as. */
module RequestSpelling {
  import opened Bytes
  import opened HttpiSyntax
  import opened RequestBudget
  import opened RequestEnvelope

  /** The header as sent, which may open with a byte-order mark, and as read. */
  predicate ReadsAs(sent: Header, h: Header) {
    Decode(sent.name) == Ok(h.name) && Decode(sent.value) == Ok(h.value)
  }

  predicate AllReadAs(sent: seq<Header>, headers: seq<Header>) {
    |sent| == |headers| && forall i :: 0 <= i < |sent| ==> ReadsAs(sent[i], headers[i])
  }

  lemma ExactlySplits(s: seq<byte>, n: nat)
    requires Exactly(s, n).Ok?
    ensures var (a, b) := Exactly(s, n).value; s == a + b && |a| == n
  {
  }

  /** The fixed part of the head, its three lengths and the two bytes nobody looks at. */
  lemma PrefixSpelled(p: seq<byte>)
    requires |p| == 20 && PrefixOk(p)
    ensures p == HTTPI_MAGIC + [HTTPI_VERSION, HTTPI_REQUEST, 0, 0] + PutU16(U16(p, 8)) + p[10..12]
                 + PutU32(U32(p, 12)) + PutU32(U32(p, 16))
  {
    assert p[6] == 0 && p[7] == 0;
    PutReadU16(p, 8);
    PutReadU32(p, 12);
    PutReadU32(p, 16);
    hide PutU16, PutU32, U16, U32;
    assert p == p[..4] + [p[4], p[5], p[6], p[7]] + p[8..10] + p[10..12] + p[12..16] + p[16..20];
  }

  lemma HeadSpelled(s: seq<byte>, headers: seq<Header>) returns (verb: Text, path: Text, reserved: seq<byte>)
    requires ParseHead(s).Ok? && |headers| == ParseHead(s).value.0.headerCount
    ensures var (head, rest) := ParseHead(s).value;
            && |reserved| == 2 && Decode(verb) == Ok(head.verb) && Decode(path) == Ok(head.path)
            && HeadFits(|verb|, |path|, head.headerCount) && IsVerb(head.verb) && IsRootedPath(head.path)
            && s == EncodeHead(Request(verb, path, headers, []), reserved) + verb + path + rest
  {
    var (p, s1) := Exactly(s, 20).value;
    ExactlySplits(s, 20);
    PrefixSpelled(p);
    hide PrefixOk, U16, U32, PutU16, PutU32, Decode, IsVerb, IsRootedPath;
    var m, n := U16(p, 8), U32(p, 12);
    verb, path, reserved := s1[..m], s1[m..][..n], p[10..12];
    ExactlySplits(s1, m);
    ExactlySplits(s1[m..], n);
    var rest := s1[m..][n..];
    assert p == EncodeHead(Request(verb, path, headers, []), reserved);
    InOneRow(p, verb, path, rest);
  }

  lemma HeaderSpelled(s: seq<byte>, total: nat) returns (sent: Header)
    requires ParseHeader(s, total).Ok?
    ensures var (h, total', rest) := ParseHeader(s, total).value;
            && ReadsAs(sent, h) && IsName(h.name) && IsFieldValue(h.value) && sent.name != []
            && total' == total + |sent.name| + |sent.value| <= MAX_HEADER_BYTES
            && s == EncodeHeader(sent) + rest
  {
    var (lengths, s1) := Exactly(s, 8).value;
    ExactlySplits(s, 8);
    PutReadU32(lengths, 0);
    PutReadU32(lengths, 4);
    hide U32, PutU32, Decode, IsName, IsFieldValue;
    var m, n := U32(lengths, 0), U32(lengths, 4);
    sent := Header(s1[..m], s1[m..][..n]);
    ExactlySplits(s1, m);
    ExactlySplits(s1[m..], n);
    var rest := s1[m..][n..];
    assert lengths == PutU32(m) + PutU32(n);
    InOneRow(lengths, sent.name, sent.value, rest);
  }

  lemma InOneRow(a: seq<byte>, b: seq<byte>, c: seq<byte>, d: seq<byte>)
    ensures a + (b + (c + d)) == a + b + c + d
  {
    Regroup(b, c, d);
    Regroup(a, b, c + d);
    Regroup(a + b, c, d);
  }

  lemma {:induction false} HeadersSpelled(s: seq<byte>, count: nat, total: nat, sofar: seq<Header>)
    returns (sent: seq<Header>)
    requires ParseHeaders(s, count, total, sofar).Ok? && total <= MAX_HEADER_BYTES
    ensures var (headers, total', rest) := ParseHeaders(s, count, total, sofar).value;
            && |sent| == count && |headers| == |sofar| + count && headers[..|sofar|] == sofar
            && AllReadAs(sent, headers[|sofar|..])
            && (forall i :: |sofar| <= i < |headers| ==> IsName(headers[i].name) && IsFieldValue(headers[i].value))
            && total' == total + HeaderBytes(sent) <= MAX_HEADER_BYTES
            && s == EncodeHeaders(sent) + rest
    decreases count
  {
    hide ParseHeader, EncodeHeader, ReadsAs, IsName, IsFieldValue;
    if count == 0 {
      sent := [];
      assert EncodeHeaders([]) + s == s;
    } else {
      var first := HeaderSpelled(s, total);
      var (h, total', s') := ParseHeader(s, total).value;
      var others := HeadersSpelled(s', count - 1, total', sofar + [h]);
      sent := [first] + others;
      var (headers, _, rest) := ParseHeaders(s, count, total, sofar).value;
      assert sent[1..] == others && headers[|sofar|] == h by { assert headers[..|sofar| + 1][|sofar|] == h; }
      assert headers[..|sofar|] == headers[..|sofar| + 1][..|sofar|];
      forall i | 0 <= i < |sent|
        ensures ReadsAs(sent[i], headers[|sofar|..][i])
      {
        if i > 0 { assert headers[|sofar|..][i] == headers[|sofar| + 1..][i - 1]; }
      }
      EncodeHeadersFirst(sent, rest);
    }
  }

  /** A body frame as it was spelled, or the end frame with the three bytes nobody looks at. */
  lemma FrameSpelled(s: seq<byte>, k: nat, held: nat, limits: Limits) returns (slack: seq<byte>)
    requires ParseFrame(s, k, held, limits).Ok?
    ensures var (c, rest) := ParseFrame(s, k, held, limits).value;
            && |slack| == 3
            && (c.None? ==> s == EndFrame(slack) + rest)
            && (c.Some? ==>
                  && |c.value| <= IO_CHUNK_BYTES
                  && held + |c.value| <= limits.perRequest
                  && limits.others(k) + held + |c.value| <= limits.aggregate
                  && s == [BODY_CHUNK, 0, 0, 0] + PutU32(|c.value|) + c.value + rest)
  {
    var (head, s1) := Exactly(s, 8).value;
    ExactlySplits(s, 8);
    PutReadU32(head, 4);
    hide U32, PutU32;
    slack := head[1..4];
    assert head == [head[0], head[1], head[2], head[3]] + head[4..8];
    var n := U32(head, 4);
    if !(head[0] == BODY_END && n == 0) {
      ExactlySplits(s1, n);
      Regroup([BODY_CHUNK, 0, 0, 0] + PutU32(n), s1[..n], s1[n..]);
    } else {
      assert [BODY_END] + slack == [head[0], head[1], head[2], head[3]];
    }
  }

  lemma {:induction false} BodySpelled(s: seq<byte>, k: nat, body: seq<byte>, limits: Limits)
    returns (frames: seq<seq<byte>>, slack: seq<byte>)
    requires ParseBody(s, k, body, limits).Ok?
    ensures var (whole, rest) := ParseBody(s, k, body, limits).value;
            && |slack| == 3 && (forall i :: 0 <= i < |frames| ==> |frames[i]| <= IO_CHUNK_BYTES)
            && whole == body + Flatten(frames) && FitsBudget(frames, k, |body|, limits)
            && s == EncodeFrames(frames) + (EndFrame(slack) + rest)
    decreases |s|
  {
    hide ParseFrame, EndFrame, PutU32;
    slack := FrameSpelled(s, k, |body|, limits);
    var (c, s') := ParseFrame(s, k, |body|, limits).value;
    if c.None? {
      frames := [];
      assert body + Flatten([]) == body;
      assert EncodeFrames([]) + (EndFrame(slack) + s') == EndFrame(slack) + s';
    } else {
      var others;
      others, slack := BodySpelled(s', k + 1, body + c.value, limits);
      frames := [c.value] + others;
      BodyStep(s, k, body, limits, c.value, s');
      var (whole, rest) := ParseBody(s, k, body, limits).value;
      Regroup(body, c.value, Flatten(others));
      FrameInFront(c.value, others, EndFrame(slack) + rest);
    }
  }

  lemma FrameInFront(chunk: seq<byte>, others: seq<seq<byte>>, tail: seq<byte>)
    requires |chunk| <= IO_CHUNK_BYTES && forall i :: 0 <= i < |others| ==> |others[i]| <= IO_CHUNK_BYTES
    ensures EncodeFrames([chunk] + others) + tail
         == [BODY_CHUNK, 0, 0, 0] + PutU32(|chunk|) + chunk + (EncodeFrames(others) + tail)
    ensures Flatten([chunk] + others) == chunk + Flatten(others) && ([chunk] + others)[1..] == others
  {
    hide PutU32;
    assert ([chunk] + others)[1..] == others;
    Regroup([BODY_CHUNK, 0, 0, 0] + PutU32(|chunk|) + chunk, EncodeFrames(others), tail);
  }

  /** The envelope of a request whose texts may open with byte-order marks. */
  predicate Spells(
    s: seq<byte>, sent: Request, frames: seq<seq<byte>>, reserved: seq<byte>, slack: seq<byte>, rest: seq<byte>)
  {
    && HeadFits(|sent.verb|, |sent.path|, |sent.headers|) && HeaderBytes(sent.headers) <= MAX_HEADER_BYTES
    && (forall i :: 0 <= i < |frames| ==> |frames[i]| <= IO_CHUNK_BYTES)
    && sent.body == Flatten(frames) && |reserved| == 2 && |slack| == 3
    && s == EncodeHead(sent, reserved) + sent.verb + sent.path
            + (EncodeHeaders(sent.headers) + (EncodeFrames(frames) + (EndFrame(slack) + rest)))
  }

  /** What the reader makes of the texts, and what it has checked about them. */
  predicate ReadsAsRequest(sent: Request, q: Request) {
    && Decode(sent.verb) == Ok(q.verb) && IsVerb(q.verb)
    && Decode(sent.path) == Ok(q.path) && IsRootedPath(q.path)
    && AllReadAs(sent.headers, q.headers)
    && (forall i :: 0 <= i < |q.headers| ==> IsName(q.headers[i].name) && IsFieldValue(q.headers[i].value))
    && sent.body == q.body
  }

  /**
   Whatever is read as a request was spelled so: the version and kind of the envelope, lengths that tell the truth,
   legal texts in legal UTF-8, headers and body frames in order within their limits and the budget, and the end frame.
   */
  lemma ReadIsSpelled(s: seq<byte>, limits: Limits)
    returns (sent: Request, frames: seq<seq<byte>>, reserved: seq<byte>, slack: seq<byte>)
    requires ParseRequest(s, limits).Ok?
    ensures var (q, rest) := ParseRequest(s, limits).value;
            && Spells(s, sent, frames, reserved, slack, rest) && ReadsAsRequest(sent, q)
            && FitsBudget(frames, 0, 0, limits)
  {
    var (head, s1) := ParseHead(s).value;
    var headers := HeadersSpelled(s1, head.headerCount, 0, []);
    var (read, _, s2) := ParseHeaders(s1, head.headerCount, 0, []).value;
    assert read[0..] == read;
    frames, slack := BodySpelled(s2, 0, [], limits);
    assert [] + Flatten(frames) == Flatten(frames);
    var verb, path;
    verb, path, reserved := HeadSpelled(s, headers);
    sent := Request(verb, path, headers, Flatten(frames));
    hide ParseHead, ParseHeaders, ParseBody, EncodeHeaders, EncodeFrames, EndFrame, Decode, IsVerb, IsRootedPath;
    hide IsName, IsFieldValue, FitsBudget, HeaderBytes;
    assert EncodeHead(sent, reserved) == EncodeHead(Request(verb, path, headers, []), reserved);
  }

  // What is refused, and as what.

  /** The first eight bytes every request opens with: the magic, version 1, kind 1 and no flags. */
  const OPENING: seq<byte> := [0x56, 0x47, 0x49, 0x48, 1, 1, 0, 0]

  /** The fixed part of the head is looked at before anything behind it is read. */
  lemma HeadRefusedAs(s: seq<byte>)
    ensures |s| < 20 ==> ParseHead(s) == Err(EndedEarly)
    ensures |s| >= 20 && s[..8] != OPENING ==> ParseHead(s) == Err(InvalidEnvelope)
    ensures |s| >= 20 && s[..8] == OPENING
            && !(1 <= U16(s, 8) <= 16 && 1 <= U32(s, 12) <= 16384 && U32(s, 16) <= 1024) ==>
              ParseHead(s) == Err(HeadLimits)
  {
    if |s| >= 20 {
      var p := s[..20];
      assert p[..4] == s[..4] && s[..8][..4] == s[..4];
      assert s[..8] == OPENING <==> PrefixOk(p) by {
        assert s[..8] == s[..4] + [s[4], s[5], s[6], s[7]] && OPENING == OPENING[..4] + [1, 1, 0, 0];
      }
      assert U16(p, 8) == U16(s, 8) && U32(p, 12) == U32(s, 12) && U32(p, 16) == U32(s, 16);
    }
  }

  /** A body frame of a wrong kind or size is invalid; one the budget has no room for is refused before it is read. */
  lemma FrameRefusedAs(s: seq<byte>, k: nat, held: nat, limits: Limits)
    requires |s| >= 8 && !(s[0] == 2 && U32(s, 4) == 0)
    ensures s[..4] != [1, 0, 0, 0] || U32(s, 4) > 0x1_0000 ==> ParseFrame(s, k, held, limits) == Err(InvalidBodyFrame)
    ensures s[..4] == [1, 0, 0, 0] && U32(s, 4) <= 0x1_0000 ==>
              var r, n := ParseFrame(s, k, held, limits), U32(s, 4);
              && (r == Err(Refused(PerRequestLimit)) <==> held + n > limits.perRequest)
              && (r == Err(Refused(AggregateExhausted)) <==>
                    held + n <= limits.perRequest && limits.others(k) + held + n > limits.aggregate)
              && (r.Ok? ==> |s| >= 8 + n)
  {
    var head := s[..8];
    assert U32(head, 4) == U32(s, 4);
    assert s[..4] == [s[0], s[1], s[2], s[3]];
  }
}
