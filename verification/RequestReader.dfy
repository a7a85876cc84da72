/** The adapter's request reader: a cursor over the ring, and the loops that parse one request from it. */
module RequestReader {
  import opened Bytes
  import opened HttpiSyntax
  import opened RequestBudget
  import opened RequestEnvelope
  import RingProtocol
  import R = SharedRing

  /**
   `taken` is every byte handed out so far; `base` what the ring had delivered before this reader. A read that fails
   leaves in `seen` what had been sent when the write counter was last loaded, and in `waited` whether it was still
   polling when its wake-ups ran out.
   */
  class RingReader {
    const ring: R.SharedRing
    var pending: seq<byte>
    var waited: bool
    ghost const base: seq<byte>
    ghost var taken: seq<byte>
    ghost var seen: seq<byte>

    ghost predicate Valid()
      reads this, ring, ring.bytes
    {
      ring.Valid() && ring.got == base + taken + pending
    }

    constructor (ring: R.SharedRing)
      requires ring.Valid()
      ensures Valid() && this.ring == ring && pending == [] && taken == [] && base == ring.got
    {
      this.ring, pending, waited, base, taken, seen := ring, [], false, ring.got, [], [];
    }

    /**
     An early end while the claim is held means that everything seen at the last load was delivered and taken, and
     that the ring was closed by then, unless the reader is still waiting.
     */
    twostate predicate Starved()
      reads this, ring
    {
      && old(ring.sent) <= seen <= ring.sent
      && (ring.Owned() ==> base + taken == seen && (waited || ring.closed))
    }

    /** Bytes are only ever added to the ring, and none of the buffer changes outside it. */
    twostate predicate Grown()
      reads this, ring, ring.bytes
    {
      Valid() && old(taken) <= taken && old(ring.sent) <= ring.sent && ring.OutsideUnchanged()
    }

    /** A claim carries fewer than 2^31 bytes, so a reader cannot go on for ever. */
    lemma TakenBounded()
      requires Valid()
      ensures |taken| <= RingProtocol.MAX_INT32
    {
      assert |ring.got| <= |ring.sent|;
    }

    /**
     The next `length` bytes, however the ring chunks them. When the input ends first, every delivered
     byte has been taken and they were too few.
     */
    method Exact(length: nat, wakeups: nat) returns (r: Result<seq<byte>, EnvelopeError>)
      requires Valid() && wakeups > 0
      modifies this, ring, ring.bytes
      ensures Grown()
      ensures r.Ok? ==> |r.value| == length && taken == old(taken) + r.value
      ensures r.Err? ==> r.error == EndedEarly && |taken| < |old(taken)| + length && Starved()
    {
      hide R.SharedRing.Valid;
      var output := [];
      while |output| < length
        invariant Grown() && taken == old(taken) + output && |output| <= length
        decreases length - |output|
      {
        if |pending| == 0 {
          var ok := Refill(wakeups);
          if !ok { return Err(EndedEarly); }
        }
        var take := Min(length - |output|, |pending|);
        var part := Give(take);
        output := output + part;
      }
      r := Ok(output);
    }

    /** The next ring chunk becomes the pending bytes. */
    method Refill(wakeups: nat) returns (ok: bool)
      requires Valid() && wakeups > 0 && pending == []
      modifies this, ring, ring.bytes
      ensures Grown() && taken == old(taken)
      ensures if ok then pending != [] else Starved()
    {
      hide R.SharedRing.Valid;
      assert base + taken + [] == base + taken;
      var chunk, loaded := ring.ReadClientChunk(wakeups);
      ok := chunk.Chunk?;
      if ok {
        pending := chunk.bytes;
      } else {
        waited, seen := chunk.Waiting?, loaded;
      }
    }

    /** Hands out `n` pending bytes. */
    method Give(n: nat) returns (part: seq<byte>)
      requires Valid() && n <= |pending|
      modifies this
      ensures Valid() && |part| == n && taken == old(taken) + part && old(pending) == part + pending
    {
      hide R.SharedRing.Valid;
      part := pending[..n];
      assert pending == pending[..n] + pending[n..];
      assert base + (taken + pending[..n]) + pending[n..] == base + taken + (pending[..n] + pending[n..]);
      taken, pending := taken + pending[..n], pending[n..];
    }
  }

  /** What this reader has taken since it stood at `mark`. */
  ghost function Since(reader: RingReader, mark: nat): seq<byte>
    requires mark <= |reader.taken|
    reads reader
  {
    reader.taken[mark..]
  }

  lemma SuffixGrows(before: seq<byte>, more: seq<byte>, mark: nat)
    requires mark <= |before|
    ensures (before + more)[mark..] == before[mark..] + more
  {
  }

  /** The head as its three pieces decide it. */
  lemma HeadPieces(a: seq<byte>, b: seq<byte>, c: seq<byte>)
    requires |a| == 20 && PrefixOk(a) && HeadFits(U16(a, 8), U32(a, 12), U32(a, 16))
    ensures |b| < U16(a, 8) && c == [] ==> ParseHead(a + b + c) == Err(EndedEarly)
    ensures |b| == U16(a, 8) && Decode(b).Err? ==> ParseHead(a + b + c) == Err(BadText)
    ensures |b| == U16(a, 8) && Decode(b).Ok? && |c| < U32(a, 12) ==> ParseHead(a + b + c) == Err(EndedEarly)
    ensures |b| == U16(a, 8) && Decode(b).Ok? && |c| == U32(a, 12) ==>
      ParseHead(a + b + c) ==
        if Decode(c).Err? then Err(BadText)
        else if !IsVerb(Decode(b).value) || !IsRootedPath(Decode(c).value) then Err(InvalidMethodOrPath)
        else Ok((Head(Decode(b).value, Decode(c).value, U32(a, 16)), []))
  {
    hide PrefixOk, HeadFits, Decode, IsVerb, IsRootedPath;
    assert a + b + c == a + (b + c);
    TakeDrop(a, b + c);
    TakeDrop(b, c);
    assert |c| == U32(a, 12) ==> c[..U32(a, 12)] == c && c[U32(a, 12)..] == [];
    assert c == [] ==> b + c == b;
  }

  method ReadHead(reader: RingReader, wakeups: nat) returns (r: Result<Head, EnvelopeError>)
    requires reader.Valid() && wakeups > 0
    modifies reader, reader.ring, reader.ring.bytes
    ensures reader.Grown()
    ensures r == Err(EndedEarly) ==> reader.Starved()
    ensures ParseHead(Since(reader, |old(reader.taken)|))
         == match r case Ok(h) => Ok((h, [])) case Err(e) => Err(e)
  {
    hide RingReader.Valid, PrefixOk, HeadFits, Decode, IsVerb, IsRootedPath;
    ghost var mark := |reader.taken|;
    var prefix := reader.Exact(20, wakeups);
    if prefix.Err? { return Err(prefix.error); }
    ghost var a := prefix.value;
    assert Since(reader, mark) == a && a[..20] == a;
    if !PrefixOk(prefix.value) { return Err(InvalidEnvelope); }
    var verbLength, pathLength, headerCount := U16(prefix.value, 8), U32(prefix.value, 12), U32(prefix.value, 16);
    if !HeadFits(verbLength, pathLength, headerCount) { return Err(HeadLimits); }
    r := ReadVerbAndPath(reader, a, mark, verbLength, pathLength, headerCount, wakeups);
  }

  method ReadVerbAndPath(reader: RingReader, ghost a: seq<byte>, ghost mark: nat,
                         verbLength: nat, pathLength: nat, headerCount: nat, wakeups: nat)
    returns (r: Result<Head, EnvelopeError>)
    requires reader.Valid() && wakeups > 0 && mark <= |reader.taken| && Since(reader, mark) == a
    requires |a| == 20 && PrefixOk(a) && HeadFits(verbLength, pathLength, headerCount)
    requires verbLength == U16(a, 8) && pathLength == U32(a, 12) && headerCount == U32(a, 16)
    modifies reader, reader.ring, reader.ring.bytes
    ensures reader.Grown()
    ensures r == Err(EndedEarly) ==> reader.Starved()
    ensures ParseHead(Since(reader, mark)) == match r case Ok(h) => Ok((h, [])) case Err(e) => Err(e)
  {
    hide RingReader.Valid, ParseHead, PrefixOk, HeadFits, Decode, IsVerb, IsRootedPath;
    var v := reader.Exact(verbLength, wakeups);
    ghost var b := reader.taken[|old(reader.taken)|..];
    assert reader.taken == old(reader.taken) + b;
    HeadPieces(a, b, []);
    SuffixGrows(old(reader.taken), b, mark);
    assert a + b == a + b + [];
    ghost var before := reader.taken;
    if v.Err? { return Err(v.error); }
    assert b == v.value;
    var verb := Decode(v.value);
    if verb.Err? { return Err(verb.error); }
    var p := reader.Exact(pathLength, wakeups);
    ghost var c := reader.taken[|before|..];
    HeadPieces(a, b, c);
    assert reader.taken == before + c;
    SuffixGrows(before, c, mark);
    if p.Err? { return Err(p.error); }
    assert c == p.value;
    var path := Decode(p.value);
    if path.Err? { return Err(path.error); }
    if !IsVerb(verb.value) || !IsRootedPath(path.value) { return Err(InvalidMethodOrPath); }
    r := Ok(Head(verb.value, path.value, headerCount));
  }

  lemma HeaderPieces(a: seq<byte>, b: seq<byte>, c: seq<byte>, total: nat)
    requires |a| == 8 && U32(a, 0) != 0 && total + U32(a, 0) + U32(a, 4) <= MAX_HEADER_BYTES
    ensures |b| < U32(a, 0) && c == [] ==> ParseHeader(a + b + c, total) == Err(EndedEarly)
    ensures |b| == U32(a, 0) && Decode(b).Err? ==> ParseHeader(a + b + c, total) == Err(BadText)
    ensures |b| == U32(a, 0) && Decode(b).Ok? && |c| < U32(a, 4) ==> ParseHeader(a + b + c, total) == Err(EndedEarly)
    ensures |b| == U32(a, 0) && Decode(b).Ok? && |c| == U32(a, 4) ==>
      ParseHeader(a + b + c, total) ==
        if Decode(c).Err? then Err(BadText)
        else if !IsName(Decode(b).value) || !IsFieldValue(Decode(c).value) then Err(InvalidHeader)
        else Ok((Header(Decode(b).value, Decode(c).value), total + U32(a, 0) + U32(a, 4), []))
  {
    hide Decode, IsName, IsFieldValue;
    assert a + b + c == a + (b + c);
    TakeDrop(a, b + c);
    TakeDrop(b, c);
    assert |c| == U32(a, 4) ==> c[..U32(a, 4)] == c && c[U32(a, 4)..] == [];
    assert c == [] ==> b + c == b;
  }

  /** One header field, with the running byte total. */
  method ReadHeader(reader: RingReader, total: nat, wakeups: nat) returns (r: Result<(Header, nat), EnvelopeError>)
    requires reader.Valid() && wakeups > 0
    modifies reader, reader.ring, reader.ring.bytes
    ensures reader.Grown()
    ensures r == Err(EndedEarly) ==> reader.Starved()
    ensures ParseHeader(Since(reader, |old(reader.taken)|), total)
         == match r case Ok((h, t)) => Ok((h, t, [])) case Err(e) => Err(e)
  {
    hide RingReader.Valid, Decode, IsName, IsFieldValue;
    ghost var mark := |reader.taken|;
    var lengths := reader.Exact(8, wakeups);
    if lengths.Err? { return Err(lengths.error); }
    ghost var a := lengths.value;
    assert Since(reader, mark) == a && a[..8] == a;
    var nameLength, valueLength := U32(lengths.value, 0), U32(lengths.value, 4);
    var total' := total + nameLength + valueLength;
    if nameLength == 0 || total' > MAX_HEADER_BYTES { return Err(HeaderLimits); }
    r := ReadNameAndValue(reader, a, mark, nameLength, valueLength, total, wakeups);
  }

  method ReadNameAndValue(reader: RingReader, ghost a: seq<byte>, ghost mark: nat,
                          nameLength: nat, valueLength: nat, total: nat, wakeups: nat)
    returns (r: Result<(Header, nat), EnvelopeError>)
    requires reader.Valid() && wakeups > 0 && mark <= |reader.taken| && Since(reader, mark) == a && |a| == 8
    requires nameLength == U32(a, 0) && valueLength == U32(a, 4)
    requires nameLength != 0 && total + nameLength + valueLength <= MAX_HEADER_BYTES
    modifies reader, reader.ring, reader.ring.bytes
    ensures reader.Grown()
    ensures r == Err(EndedEarly) ==> reader.Starved()
    ensures ParseHeader(Since(reader, mark), total) == match r case Ok((h, t)) => Ok((h, t, [])) case Err(e) => Err(e)
  {
    hide RingReader.Valid, ParseHeader, Decode, IsName, IsFieldValue;
    var n := reader.Exact(nameLength, wakeups);
    ghost var b := reader.taken[|old(reader.taken)|..];
    assert reader.taken == old(reader.taken) + b;
    HeaderPieces(a, b, [], total);
    SuffixGrows(old(reader.taken), b, mark);
    assert a + b == a + b + [];
    ghost var before := reader.taken;
    if n.Err? { return Err(n.error); }
    assert b == n.value;
    var name := Decode(n.value);
    if name.Err? { return Err(name.error); }
    var v := reader.Exact(valueLength, wakeups);
    ghost var c := reader.taken[|before|..];
    HeaderPieces(a, b, c, total);
    assert reader.taken == before + c;
    SuffixGrows(before, c, mark);
    if v.Err? { return Err(v.error); }
    assert c == v.value;
    var value := Decode(v.value);
    if value.Err? { return Err(value.error); }
    if !IsName(name.value) || !IsFieldValue(value.value) { return Err(InvalidHeader); }
    r := Ok((Header(name.value, value.value), total + nameLength + valueLength));
  }

  /** Reading `done` headers and then the rest is reading them all. */
  lemma {:induction false} HeadersThen(a: seq<byte>, x: seq<byte>, done: nat, more: nat, total: nat, sofar: seq<Header>)
    requires ParseHeaders(a, done, total, sofar).Ok? && ParseHeaders(a, done, total, sofar).value.2 == []
    ensures var (h, t, _) := ParseHeaders(a, done, total, sofar).value;
            ParseHeaders(a + x, done + more, total, sofar) == ParseHeaders(x, more, t, h)
    decreases done
  {
    hide ParseHeader;
    if done == 0 {
      assert a + x == x;
    } else {
      HeaderAppend(a, x, total);
      var (h, t, rest) := ParseHeader(a, total).value;
      HeadersThen(rest, x, done - 1, more, t, sofar + [h]);
      HeadersStep(a + x, done + more, total, sofar, h, t, rest + x);
    }
  }

  method ReadHeaders(reader: RingReader, headerCount: nat, wakeups: nat) returns (r: Result<seq<Header>, EnvelopeError>)
    requires reader.Valid() && wakeups > 0
    modifies reader, reader.ring, reader.ring.bytes
    ensures reader.Grown()
    ensures r == Err(EndedEarly) ==> reader.Starved()
    ensures match r
            case Ok(h) =>
              exists t: nat :: ParseHeaders(Since(reader, |old(reader.taken)|), headerCount, 0, []) == Ok((h, t, []))
            case Err(e) => ParseHeaders(Since(reader, |old(reader.taken)|), headerCount, 0, []) == Err(e)
  {
    hide RingReader.Valid, ParseHeader;
    ghost var mark := |reader.taken|;
    var headers, headerBytes := [], 0;
    assert Since(reader, mark) == [];
    for i := 0 to headerCount
      invariant reader.Grown()
      invariant ParseHeaders(Since(reader, mark), i, 0, []) == Ok((headers, headerBytes, []))
    {
      ghost var a := Since(reader, mark);
      ghost var here, before := |reader.taken|, reader.taken;
      var h := ReadHeader(reader, headerBytes, wakeups);
      ghost var u := Since(reader, here);
      assert reader.taken == before + u;
      SuffixGrows(before, u, mark);
      HeadersThen(a, u, i, headerCount - i, 0, []);
      HeadersThen(a, u, i, 1, 0, []);
      if h.Err? { return Err(h.error); }
      HeadersStep(u, 1, headerBytes, headers, h.value.0, h.value.1, []);
      headers, headerBytes := headers + [h.value.0], h.value.1;
    }
    r := Ok(headers);
  }

  /** `n` body frames, none of them the end frame. */
  function Chunks(s: seq<byte>, n: nat, k: nat, body: seq<byte>, limits: Limits)
    : Result<(seq<byte>, seq<byte>), EnvelopeError>
  {
    if n == 0 then Ok((body, s))
    else
      var (chunk, s') :- ParseFrame(s, k, |body|, limits);
      if chunk.None? then Err(InvalidBodyFrame) else Chunks(s', n - 1, k + 1, body + chunk.value, limits)
  }

  lemma {:induction false} ChunksThen(a: seq<byte>, x: seq<byte>, n: nat, k: nat, body: seq<byte>, limits: Limits)
    requires Chunks(a, n, k, body, limits).Ok? && Chunks(a, n, k, body, limits).value.1 == []
    ensures var b := Chunks(a, n, k, body, limits).value.0;
            && ParseBody(a + x, k, body, limits) == ParseBody(x, k + n, b, limits)
            && Chunks(a + x, n + 1, k, body, limits) == Chunks(x, 1, k + n, b, limits)
    decreases n
  {
    hide ParseFrame;
    if n == 0 {
      assert a + x == x;
    } else {
      FrameAppend(a, x, k, |body|, limits);
      var (chunk, rest) := ParseFrame(a, k, |body|, limits).value;
      ChunksThen(rest, x, n - 1, k + 1, body + chunk.value, limits);
      BodyStep(a + x, k, body, limits, chunk.value, rest + x);
    }
  }

  /**
   One body frame. Before it is reserved the other claims may have moved: they now hold `others`. On
   success the frame is part of the budget's use; on a refusal or an early end `reserved` says what is.
   */
  method ReadFrame(reader: RingReader, budget: RequestBodyBudget, ghost k: nat, others: nat, held: nat,
                   ghost limits: Limits, wakeups: nat)
    returns (r: Result<Option<seq<byte>>, EnvelopeError>, reserved: nat)
    requires reader.Valid() && wakeups > 0 && limits.others(k) == others
    requires budget.perRequest == limits.perRequest && budget.aggregate == limits.aggregate
    modifies reader, reader.ring, reader.ring.bytes, budget
    ensures reader.Grown()
    ensures r == Err(EndedEarly) ==> reader.Starved()
    ensures ParseFrame(Since(reader, |old(reader.taken)|), k, held, limits)
         == match r case Ok(c) => Ok((c, [])) case Err(e) => Err(e)
    ensures budget.used == others + held + reserved
    ensures r.Ok? ==> reserved == if r.value.Some? then |r.value.value| else 0
  {
    hide RingReader.Valid;
    ghost var mark := |reader.taken|;
    budget.used, reserved := others + held, 0;
    var head := reader.Exact(8, wakeups);
    if head.Err? { return Err(head.error), 0; }
    ghost var a := head.value;
    assert Since(reader, mark) == a && a[..8] == a && a[8..] == [];
    var length := U32(head.value, 4);
    if head.value[0] == BODY_END && length == 0 { return Ok(None), 0; }
    if || head.value[0] != BODY_CHUNK || head.value[1] != 0 || head.value[2] != 0 || head.value[3] != 0
       || length > IO_CHUNK_BYTES {
      return Err(InvalidBodyFrame), 0;
    }
    var refused := budget.Reserve(held, length);
    if refused.Some? { return Err(Refused(refused.value)), 0; }
    reserved := length;
    ghost var before := reader.taken;
    var chunk := reader.Exact(length, wakeups);
    ghost var c := reader.taken[|before|..];
    assert reader.taken == before + c;
    SuffixGrows(before, c, mark);
    TakeDrop(a, c);
    if chunk.Err? { return Err(chunk.error), length; }
    assert c == chunk.value && c[..length] == c && c[length..] == [];
    r := Ok(Some(chunk.value));
  }

  lemma FrameLength(s: seq<byte>, k: nat, held: nat, limits: Limits)
    requires ParseFrame(s, k, held, limits).Ok?
    ensures |s| >= 8
  {
  }

  /** The body, frame by frame, reserving before every frame is read. */
  method ReadBody(reader: RingReader, budget: RequestBodyBudget, limits: Limits, wakeups: nat)
    returns (r: Result<seq<byte>, EnvelopeError>, reserved: nat, held: nat)
    requires reader.Valid() && wakeups > 0
    requires budget.perRequest == limits.perRequest && budget.aggregate == limits.aggregate
    modifies reader, reader.ring, reader.ring.bytes, budget
    ensures reader.Grown()
    ensures r == Err(EndedEarly) ==> reader.Starved()
    ensures ParseBody(Since(reader, |old(reader.taken)|), 0, [], limits)
         == match r case Ok(b) => Ok((b, [])) case Err(e) => Err(e)
    ensures budget.used == held + reserved
    ensures r.Ok? ==> reserved == |r.value|
  {
    hide RingReader.Valid, ParseFrame;
    ghost var mark := |reader.taken|;
    var body, k := [], 0;
    reserved := 0;
    assert Since(reader, mark) == [];
    while true
      invariant reader.Grown()
      invariant Chunks(Since(reader, mark), k, 0, [], limits) == Ok((body, []))
      invariant reserved == |body|
      decreases RingProtocol.MAX_INT32 - |reader.taken|
    {
      ghost var a := Since(reader, mark);
      ghost var here, before := |reader.taken|, reader.taken;
      held := limits.others(k);
      var frame, more := ReadFrame(reader, budget, k, held, |body|, limits, wakeups);
      reserved := reserved + more;
      ghost var u := Since(reader, here);
      assert reader.taken == before + u;
      SuffixGrows(before, u, mark);
      ChunksThen(a, u, k, 0, [], limits);
      if frame.Err? { return Err(frame.error), reserved, held; }
      if frame.value.None? { break; }
      reader.TakenBounded();
      FrameLength(u, k, |body|, limits);
      body, k := body + frame.value.value, k + 1;
    }
    r := Ok(body);
  }

  /**
   One request from the ring. The outcome is the parse of exactly the bytes taken: nothing past the end
   frame is consumed. A failure gives the whole reservation back; a success keeps the body's size reserved.
   `held` is what the other claims hold in the budget at the end.
   */
  method ReadHttpiRequest(reader: RingReader, budget: RequestBodyBudget, limits: Limits, wakeups: nat)
    returns (r: Result<Request, EnvelopeError>, ghost held: nat)
    requires reader.Valid() && wakeups > 0 && reader.taken == []
    requires budget.perRequest == limits.perRequest && budget.aggregate == limits.aggregate
    modifies reader, reader.ring, reader.ring.bytes, budget
    ensures reader.Grown()
    ensures r == Err(EndedEarly) ==> reader.Starved()
    ensures ParseRequest(reader.taken, limits) == match r case Ok(q) => Ok((q, [])) case Err(e) => Err(e)
    ensures budget.used == held + if r.Ok? then |r.value.body| else 0
  {
    hide RingReader.Valid, ParseHead, ParseHeaders, ParseBody, ParseRequest;
    held := budget.used;
    var head := ReadHead(reader, wakeups);
    ghost var a := reader.taken;
    assert Since(reader, 0) == a;
    if head.Err? {
      HeadDecides(a, head.error, limits);
      return Err(head.error), held;
    }
    var headers := ReadHeaders(reader, head.value.headerCount, wakeups);
    ghost var b := Since(reader, |a|);
    assert reader.taken == a + b;
    if headers.Err? {
      HeadersDecide(a, b, head.value, headers.error, limits);
      return Err(headers.error), held;
    }
    ghost var before := reader.taken;
    var body, reserved, others := ReadBody(reader, budget, limits, wakeups);
    ghost var c := Since(reader, |before|);
    assert reader.taken == a + b + c;
    BodyDecides(a, b, c, head.value, headers.value, limits);
    held := others;
    if body.Err? {
      budget.Release(reserved);
      return Err(body.error), held;
    }
    r := Ok(Request(head.value.verb, head.value.path, headers.value, body.value));
  }

  lemma HeadDecides(a: seq<byte>, e: EnvelopeError, limits: Limits)
    requires ParseHead(a) == Err(e)
    ensures ParseRequest(a, limits) == Err(e)
  {
    hide ParseHead;
  }

  lemma HeadersDecide(a: seq<byte>, b: seq<byte>, head: Head, e: EnvelopeError, limits: Limits)
    requires ParseHead(a) == Ok((head, [])) && ParseHeaders(b, head.headerCount, 0, []) == Err(e)
    ensures ParseRequest(a + b, limits) == Err(e)
  {
    hide ParseHead, ParseHeaders;
    HeadAppend(a, b);
    assert [] + b == b;
  }

  lemma BodyDecides(a: seq<byte>, b: seq<byte>, c: seq<byte>, head: Head, headers: seq<Header>, limits: Limits)
    requires ParseHead(a) == Ok((head, []))
    requires exists t: nat :: ParseHeaders(b, head.headerCount, 0, []) == Ok((headers, t, []))
    ensures ParseRequest(a + b + c, limits) == match ParseBody(c, 0, [], limits)
              case Ok((body, rest)) => Ok((Request(head.verb, head.path, headers, body), rest))
              case Err(e) => Err(e)
  {
    hide ParseHead, ParseHeaders, ParseBody;
    assert a + b + c == a + (b + c);
    HeadAppend(a, b + c);
    assert [] + (b + c) == b + c;
    HeadersAppend(b, c, head.headerCount, 0, []);
    assert [] + c == c;
  }

  /**
   What the reader returns for a stream that carries an encoded request, whatever the chunking and the
   timing: the request itself with the cursor right behind its end frame. Short of that the claim was lost, or every
   byte seen at the last load was taken, the encoding was not complete in them, and the ring was closed by then or the
   reader is still waiting.
   */
  method ReadEncodedRequest(reader: RingReader, budget: RequestBodyBudget, limits: Limits, wakeups: nat,
                            ghost q: Request, ghost frames: seq<seq<byte>>, ghost reserved: seq<byte>,
                            ghost slack: seq<byte>, ghost x: seq<byte>)
    returns (r: Result<Request, EnvelopeError>, ghost held: nat)
    requires reader.Valid() && wakeups > 0 && reader.taken == []
    requires budget.perRequest == limits.perRequest && budget.aggregate == limits.aggregate
    requires Encodable(q, frames) && |reserved| == 2 && |slack| == 3 && FitsBudget(frames, 0, 0, limits)
    modifies reader, reader.ring, reader.ring.bytes, budget
    ensures reader.Grown() && budget.used == held + if r.Ok? then |r.value.body| else 0
    ensures r == Err(EndedEarly) ==> reader.Starved()
    ensures var wire := reader.base + EncodeRequest(q, frames, reserved, slack);
            reader.ring.sent <= wire + x ==>
              || (r == Ok(q) && reader.base + reader.taken == wire)
              || (r == Err(EndedEarly) && (reader.ring.Owned() ==> !(wire <= reader.seen)))
  {
    hide R.SharedRing.Valid, RingReader.Valid, EncodeRequest, Encodable, FitsBudget, ParseRequest;
    r, held := ReadHttpiRequest(reader, budget, limits, wakeups);
    ghost var request := EncodeRequest(q, frames, reserved, slack);
    if reader.ring.sent <= reader.base + request + x {
      Regroup(reader.base, request, x);
      TakenIsPrefix(reader, request + x);
      if r != Err(EndedEarly) {
        DecodesToEncoded(reader.taken, q, frames, reserved, slack, limits, x);
      } else if reader.ring.Owned() && reader.base + request <= reader.seen {
        PrefixShifts(reader.base, request, reader.taken);
        CompleteNeverEndsEarly(reader.taken, q, frames, reserved, slack, limits);
      }
    }
  }

  lemma PrefixShifts(base: seq<byte>, a: seq<byte>, b: seq<byte>)
    requires base + a <= base + b
    ensures a <= b
  {
    assert forall i :: 0 <= i < |a| ==> a[i] == (base + a)[|base| + i] == (base + b)[|base| + i] == b[i];
  }

  lemma CompleteNeverEndsEarly(taken: seq<byte>, q: Request, frames: seq<seq<byte>>, reserved: seq<byte>,
                               slack: seq<byte>, limits: Limits)
    requires Encodable(q, frames) && |reserved| == 2 && |slack| == 3 && FitsBudget(frames, 0, 0, limits)
    requires EncodeRequest(q, frames, reserved, slack) <= taken
    ensures ParseRequest(taken, limits).Ok?
  {
    hide ParseRequest, EncodeRequest;
    var request := EncodeRequest(q, frames, reserved, slack);
    assert taken == request + taken[|request|..];
    RequestRoundTrip(q, frames, reserved, slack, limits, taken[|request|..]);
  }

  lemma TakenIsPrefix(reader: RingReader, stream: seq<byte>)
    requires reader.Valid() && reader.ring.sent <= reader.base + stream
    ensures reader.taken <= stream
  {
    assert reader.base + reader.taken + reader.pending <= reader.base + stream;
    assert forall i :: 0 <= i < |reader.taken| ==> reader.taken[i] == (reader.base + stream)[|reader.base| + i];
  }

  /** A prefix of an encoded stream that parses to a verdict parses to the request, and is all of its encoding. */
  lemma DecodesToEncoded(taken: seq<byte>, q: Request, frames: seq<seq<byte>>, reserved: seq<byte>, slack: seq<byte>,
                         limits: Limits, x: seq<byte>)
    requires Encodable(q, frames) && |reserved| == 2 && |slack| == 3 && FitsBudget(frames, 0, 0, limits)
    requires taken <= EncodeRequest(q, frames, reserved, slack) + x
    requires ParseRequest(taken, limits) != Err(EndedEarly)
    ensures ParseRequest(taken, limits).Ok? && ParseRequest(taken, limits).value.0 == q
    ensures ParseRequest(taken, limits).value.1 == [] ==> taken == EncodeRequest(q, frames, reserved, slack)
  {
    hide ParseRequest, Encodable, EncodeRequest, FitsBudget;
    var wire := EncodeRequest(q, frames, reserved, slack) + x;
    var later := wire[|taken|..];
    assert wire == taken + later;
    RequestAppend(taken, later, limits);
    RequestRoundTrip(q, frames, reserved, slack, limits, x);
    if ParseRequest(taken, limits).Ok? && ParseRequest(taken, limits).value.1 == [] {
      assert [] + later == later;
      assert |taken| == |wire| - |x|;
      assert taken == wire[..|wire| - |x|] == EncodeRequest(q, frames, reserved, slack);
    }
  }
}
