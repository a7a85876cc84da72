/** Response-size limits: how the builder settles them and how a reply is read within them. */
module ResponseLimits {
  import opened Bytes

  const MIN_LIMIT: nat := 65536
  const MAX_SAFE: nat := 0x1F_FFFF_FFFF_FFFF
  const DEFAULT_LIMIT: nat := 0x1000_0000

  predicate InRange(n: nat) {
    MIN_LIMIT <= n <= MAX_SAFE
  }

  // The builder.

  datatype Limits = Limits(encoded: nat, encodedExplicit: bool, decoded: nat, decodedExplicit: bool, accepted: nat)

  /** The limits of a built client. */
  datatype Built = Built(encoded: nat, decoded: nat, accepted: nat)

  const DEFAULTS := Limits(DEFAULT_LIMIT, false, DEFAULT_LIMIT, false, DEFAULT_LIMIT)

  datatype Setter = Encoded(n: nat) | Decoded(n: nat) | Accepted(n: nat)

  function Set(l: Limits, c: Setter): Limits {
    match c
    case Encoded(n) => l.(encoded := n, encodedExplicit := true)
    case Decoded(n) => l.(decoded := n, decodedExplicit := true)
    case Accepted(n) =>
      l.(accepted := n,
         encoded := if l.encodedExplicit then l.encoded else n,
         decoded := if l.decodedExplicit then l.decoded else n)
  }

  function Build(l: Limits): Built {
    Built(l.encoded, l.decoded, Min(Min(l.accepted, l.decoded), l.encoded))
  }

  /** The setters refuse a value out of range by panicking. */
  class HttpClientBuilder {
    var encoded: nat
    var encodedExplicit: bool
    var decoded: nat
    var decodedExplicit: bool
    var accepted: nat

    function View(): Limits
      reads this
    {
      Limits(encoded, encodedExplicit, decoded, decodedExplicit, accepted)
    }

    constructor ()
      ensures View() == DEFAULTS
    {
      encoded, decoded, accepted := DEFAULT_LIMIT, DEFAULT_LIMIT, DEFAULT_LIMIT;
      encodedExplicit, decodedExplicit := false, false;
    }

    method MaxEncodedResponseBytes(n: nat)
      requires InRange(n)
      modifies this
      ensures View() == Set(old(View()), Encoded(n))
    {
      encoded, encodedExplicit := n, true;
    }

    method MaxDecodedResponseBytes(n: nat)
      requires InRange(n)
      modifies this
      ensures View() == Set(old(View()), Decoded(n))
    {
      decoded, decodedExplicit := n, true;
    }

    method AcceptedMaxResponseBytes(n: nat)
      requires InRange(n)
      modifies this
      ensures View() == Set(old(View()), Accepted(n))
    {
      accepted := n;
      if !encodedExplicit { encoded := n; }
      if !decodedExplicit { decoded := n; }
    }
  }

  function SetAll(l: Limits, calls: seq<Setter>): Limits
    decreases |calls|
  {
    if calls == [] then l else SetAll(Set(l, calls[0]), calls[1..])
  }

  function LastEncoded(calls: seq<Setter>, before: Option<nat>): Option<nat> {
    if calls == [] then before else LastEncoded(calls[1..], if calls[0].Encoded? then Some(calls[0].n) else before)
  }

  function LastDecoded(calls: seq<Setter>, before: Option<nat>): Option<nat> {
    if calls == [] then before else LastDecoded(calls[1..], if calls[0].Decoded? then Some(calls[0].n) else before)
  }

  function LastAccepted(calls: seq<Setter>, before: Option<nat>): Option<nat> {
    if calls == [] then before else LastAccepted(calls[1..], if calls[0].Accepted? then Some(calls[0].n) else before)
  }

  /** The builder state that belongs to the last value given to each option. */
  function Settled(enc: Option<nat>, dec: Option<nat>, acc: Option<nat>): Limits {
    var a := if acc.Some? then acc.value else DEFAULT_LIMIT;
    Limits(if enc.Some? then enc.value else a, enc.Some?, if dec.Some? then dec.value else a, dec.Some?, a)
  }

  lemma {:induction false} SettersSettle(calls: seq<Setter>, enc: Option<nat>, dec: Option<nat>, acc: Option<nat>)
    ensures SetAll(Settled(enc, dec, acc), calls)
         == Settled(LastEncoded(calls, enc), LastDecoded(calls, dec), LastAccepted(calls, acc))
    decreases |calls|
  {
    if calls == [] {
    } else {
      var c := calls[0];
      SettersSettle(calls[1..], if c.Encoded? then Some(c.n) else enc, if c.Decoded? then Some(c.n) else dec,
                    if c.Accepted? then Some(c.n) else acc);
    }
  }

  /** Whatever the calls and their order, the built limits depend only on the last value of each option. */
  lemma BuiltFromLastValues(calls: seq<Setter>)
    ensures var b := Build(SetAll(DEFAULTS, calls));
            var enc, dec, acc := LastEncoded(calls, None), LastDecoded(calls, None), LastAccepted(calls, None);
            && b == Build(Settled(enc, dec, acc))
            && (enc.Some? ==> b.encoded == enc.value) && (dec.Some? ==> b.decoded == dec.value)
            && b.accepted <= b.encoded && b.accepted <= b.decoded
            && (acc.Some? ==> b.accepted <= acc.value)
            && (enc.None? && dec.None? ==> b.accepted == b.encoded == b.decoded)
  {
    SettersSettle(calls, None, None, None);
  }

  // Reading a reply.

  /** A reply over the decoded budget is a too-large response; one over the encoded ceiling alone, a transport error. */
  datatype ReadError = TooLarge | OverCeiling | Broken

  /** What successive reads return, up to and including an empty read or a failure. */
  datatype Reads = Reads(chunks: seq<seq<byte>>, fails: bool)

  function Bounded(r: Reads, sofar: seq<byte>, max: nat, over: ReadError): Result<seq<byte>, ReadError>
    decreases |r.chunks|
  {
    if r.chunks == [] then if r.fails then Err(Broken) else Ok(sofar)
    else if r.chunks[0] == [] then Ok(sofar)
    else if |sofar| + |r.chunks[0]| > max then Err(over)
    else Bounded(Reads(r.chunks[1..], r.fails), sofar + r.chunks[0], max, over)
  }

  /** `peak` is the most that was ever buffered. */
  method ReadBounded(r: Reads, max: nat, over: ReadError) returns (out: Result<seq<byte>, ReadError>, peak: nat)
    ensures out == Bounded(r, [], max, over)
    ensures peak <= max
    ensures out.Ok? ==> |out.value| <= peak
  {
    var buffer, i := [], 0;
    peak := 0;
    assert r.chunks[0..] == r.chunks;
    while i < |r.chunks| && r.chunks[i] != []
      invariant i <= |r.chunks| && |buffer| == peak <= max
      invariant Bounded(Reads(r.chunks[i..], r.fails), buffer, max, over) == Bounded(r, [], max, over)
    {
      if |buffer| + |r.chunks[i]| > max { return Err(over), peak; }
      assert r.chunks[i..][1..] == r.chunks[i + 1..];
      buffer, i := buffer + r.chunks[i], i + 1;
      peak := |buffer|;
    }
    if i == |r.chunks| && r.fails { return Err(Broken), peak; }
    out := Ok(buffer);
  }

  /** No read comes back empty before the end. */
  predicate Flowing(r: Reads) {
    forall i :: 0 <= i < |r.chunks| ==> r.chunks[i] != []
  }

  /** A stream of non-empty reads is returned whole exactly when it ends and fits. */
  lemma {:induction false} BoundedExactly(r: Reads, sofar: seq<byte>, max: nat, over: ReadError)
    requires Flowing(r)
    requires |sofar| <= max
    ensures Bounded(r, sofar, max, over).Ok? <==> !r.fails && |sofar + Flatten(r.chunks)| <= max
    ensures Bounded(r, sofar, max, over).Ok? ==> Bounded(r, sofar, max, over).value == sofar + Flatten(r.chunks)
    decreases |r.chunks|
  {
    if r.chunks == [] {
      assert sofar + Flatten(r.chunks) == sofar;
    } else {
      var next := sofar + r.chunks[0];
      assert sofar + Flatten(r.chunks) == next + Flatten(r.chunks[1..]);
      if |next| <= max { BoundedExactly(Reads(r.chunks[1..], r.fails), next, max, over); }
    }
  }

  /** A stream that is not returned is over the limit, or else broke off. */
  lemma {:induction false} BoundedFailure(r: Reads, sofar: seq<byte>, max: nat, over: ReadError)
    requires Flowing(r)
    requires |sofar| <= max && Bounded(r, sofar, max, over).Err?
    ensures Bounded(r, sofar, max, over).error == if |sofar + Flatten(r.chunks)| > max then over else Broken
    decreases |r.chunks|
  {
    if r.chunks == [] {
      assert sofar + Flatten(r.chunks) == sofar;
    } else {
      var next := sofar + r.chunks[0];
      assert sofar + Flatten(r.chunks) == next + Flatten(r.chunks[1..]);
      if |next| <= max { BoundedFailure(Reads(r.chunks[1..], r.fails), next, max, over); }
    }
  }

  datatype Encoding = Identity | Zstd | Gzip | Other

  /** A reply after its headers were parsed: the coding, the advertised limit, the declared length, the body reads. */
  datatype Reply = Reply(encoding: Encoding, serverLimit: Option<nat>, contentLength: Option<nat>, body: Reads)

  /** `discovered` is the limit learned from the capabilities. The decoders are given as what they yield. */
  datatype Client = Client(
    limits: Built, discovered: Option<nat>, unzstd: seq<byte> -> Reads, gunzip: seq<byte> -> Reads)

  function Lower(a: nat, limit: Option<nat>): nat {
    if limit.Some? && limit.value < a then limit.value else a
  }

  function DecodedLimit(c: Client, r: Reply): nat {
    Lower(Lower(Min(c.limits.decoded, c.limits.accepted), c.discovered), r.serverLimit)
  }

  function EncodedLimit(c: Client, r: Reply): nat {
    if r.encoding.Identity? then Min(c.limits.encoded, DecodedLimit(c, r)) else c.limits.encoded
  }

  function CeilingError(c: Client, r: Reply): ReadError {
    if r.encoding.Identity? && DecodedLimit(c, r) <= c.limits.encoded then TooLarge else OverCeiling
  }

  /** The body `send` returns, read and decoded within the limits. */
  method AcceptBody(c: Client, r: Reply) returns (body: Result<seq<byte>, ReadError>, rawPeak: nat)
    ensures body == Accept(c, r)
    ensures rawPeak <= EncodedLimit(c, r)
  {
    rawPeak := 0;
    var limit := DecodedLimit(c, r);
    var encodedLimit := EncodedLimit(c, r);
    if r.contentLength.Some? && r.contentLength.value > encodedLimit { return Err(CeilingError(c, r)), 0; }
    var raw;
    raw, rawPeak := ReadBounded(r.body, encodedLimit, CeilingError(c, r));
    if raw.Err? { return raw, rawPeak; }
    var peak;
    match r.encoding
    case Zstd => body, peak := ReadBounded(c.unzstd(raw.value), limit, TooLarge);
    case Gzip => body, peak := ReadBounded(c.gunzip(raw.value), limit, TooLarge);
    case _ => body := if |raw.value| > limit then Err(TooLarge) else Ok(raw.value);
  }

  /** What the decoder of a compressed coding yields. */
  function Decoded(c: Client, e: Encoding, raw: seq<byte>): Reads {
    if e.Zstd? then c.unzstd(raw) else c.gunzip(raw)
  }

  function Accept(c: Client, r: Reply): Result<seq<byte>, ReadError> {
    if r.contentLength.Some? && r.contentLength.value > EncodedLimit(c, r) then Err(CeilingError(c, r))
    else
      var raw :- Bounded(r.body, [], EncodedLimit(c, r), CeilingError(c, r));
      match r.encoding
      case Zstd | Gzip => Bounded(Decoded(c, r.encoding, raw), [], DecodedLimit(c, r), TooLarge)
      case _ => if |raw| > DecodedLimit(c, r) then Err(TooLarge) else Ok(raw)
  }

  lemma {:induction false} BoundedFits(r: Reads, sofar: seq<byte>, max: nat, over: ReadError)
    requires |sofar| <= max
    ensures Bounded(r, sofar, max, over).Ok? ==> |Bounded(r, sofar, max, over).value| <= max
    decreases |r.chunks|
  {
    if r.chunks == [] || |sofar| + |r.chunks[0]| > max {
    } else {
      BoundedFits(Reads(r.chunks[1..], r.fails), sofar + r.chunks[0], max, over);
    }
  }

  /**
   Every accepted body fits the client's accepted maximum, its decoded ceiling and any server limit, whatever its
   coding.
   */
  lemma AcceptedBodyFits(c: Client, r: Reply)
    requires Accept(c, r).Ok?
    ensures var n := |Accept(c, r).value|;
            && n <= c.limits.accepted && n <= c.limits.decoded
            && (c.discovered.Some? ==> n <= c.discovered.value)
            && (r.serverLimit.Some? ==> n <= r.serverLimit.value)
            && (r.encoding.Identity? ==> n <= c.limits.encoded)
  {
    BoundedFits(r.body, [], EncodedLimit(c, r), CeilingError(c, r));
    var raw := Bounded(r.body, [], EncodedLimit(c, r), CeilingError(c, r)).value;
    BoundedFits(Decoded(c, r.encoding, raw), [], DecodedLimit(c, r), TooLarge);
  }

  /** `n` decoded bytes are within every limit there is: the client's two, the discovered and the server's. */
  predicate WithinDecoded(c: Client, r: Reply, n: nat) {
    && n <= c.limits.decoded && n <= c.limits.accepted
    && (c.discovered.Some? ==> n <= c.discovered.value)
    && (r.serverLimit.Some? ==> n <= r.serverLimit.value)
  }

  /** An identity body is accepted whole exactly when it ends, its length was not overstated, and it fits. */
  lemma IdentityAcceptedExactly(c: Client, r: Reply)
    requires r.encoding.Identity? && Flowing(r.body)
    ensures var n := |Flatten(r.body.chunks)|;
            Accept(c, r).Ok? <==>
              && !r.body.fails && n <= c.limits.encoded && WithinDecoded(c, r, n)
              && (r.contentLength.Some? ==>
                    r.contentLength.value <= c.limits.encoded && WithinDecoded(c, r, r.contentLength.value))
    ensures Accept(c, r).Ok? ==> Accept(c, r).value == Flatten(r.body.chunks)
  {
    BoundedExactly(r.body, [], EncodedLimit(c, r), CeilingError(c, r));
    assert [] + Flatten(r.body.chunks) == Flatten(r.body.chunks);
  }

  /** A compressed body is what the decoder yields from the whole raw body, each side within its own limit. */
  lemma CompressedAcceptedExactly(c: Client, r: Reply)
    requires r.encoding.Zstd? || r.encoding.Gzip?
    requires Flowing(r.body)
    ensures var raw := Flatten(r.body.chunks);
            var out := if r.encoding.Zstd? then c.unzstd(raw) else c.gunzip(raw);
            Flowing(out) ==>
              && (Accept(c, r).Ok? <==>
                    && !r.body.fails && |raw| <= c.limits.encoded
                    && (r.contentLength.Some? ==> r.contentLength.value <= c.limits.encoded)
                    && !out.fails && WithinDecoded(c, r, |Flatten(out.chunks)|))
              && (Accept(c, r).Ok? ==> Accept(c, r).value == Flatten(out.chunks))
  {
    var raw := Flatten(r.body.chunks);
    var out := if r.encoding.Zstd? then c.unzstd(raw) else c.gunzip(raw);
    assert out == Decoded(c, r.encoding, raw);
    BoundedExactly(r.body, [], EncodedLimit(c, r), CeilingError(c, r));
    assert [] + Flatten(r.body.chunks) == Flatten(r.body.chunks);
    if Flowing(out) {
      BoundedExactly(out, [], DecodedLimit(c, r), TooLarge);
      assert [] + Flatten(out.chunks) == Flatten(out.chunks);
    }
  }

  /** A body in a coding the client does not know is passed on as it is, within both limits. */
  lemma OtherAcceptedExactly(c: Client, r: Reply)
    requires r.encoding.Other? && Flowing(r.body)
    ensures var n := |Flatten(r.body.chunks)|;
            Accept(c, r).Ok? <==>
              && !r.body.fails && n <= c.limits.encoded && WithinDecoded(c, r, n)
              && (r.contentLength.Some? ==> r.contentLength.value <= c.limits.encoded)
    ensures Accept(c, r).Ok? ==> Accept(c, r).value == Flatten(r.body.chunks)
  {
    BoundedExactly(r.body, [], EncodedLimit(c, r), CeilingError(c, r));
    assert [] + Flatten(r.body.chunks) == Flatten(r.body.chunks);
  }

  /**
   Why an identity body is refused: it is too large when some decoded limit is no higher than the encoded ceiling, over
   the ceiling when all are, and broken when it would have fitted.
   */
  lemma IdentityRefusedAs(c: Client, r: Reply)
    requires r.encoding.Identity? && Flowing(r.body)
    requires Accept(c, r).Err?
    ensures var n := |Flatten(r.body.chunks)|;
            var fits := n <= c.limits.encoded && WithinDecoded(c, r, n)
                        && (r.contentLength.Some? ==>
                              r.contentLength.value <= c.limits.encoded && WithinDecoded(c, r, r.contentLength.value));
            Accept(c, r).error == if fits then Broken
                                  else if WithinDecoded(c, r, c.limits.encoded + 1) then OverCeiling
                                  else TooLarge
  {
    BoundedExactly(r.body, [], EncodedLimit(c, r), CeilingError(c, r));
    assert [] + Flatten(r.body.chunks) == Flatten(r.body.chunks);
    if Bounded(r.body, [], EncodedLimit(c, r), CeilingError(c, r)).Err? {
      BoundedFailure(r.body, [], EncodedLimit(c, r), CeilingError(c, r));
    }
  }

  /** A compressed body that was read within the ceiling and decodes to too much is too large, not over the ceiling. */
  lemma CompressedRefusedAs(c: Client, r: Reply)
    requires (r.encoding.Zstd? || r.encoding.Gzip?) && Flowing(r.body) && Accept(c, r).Err?
    ensures var raw := Flatten(r.body.chunks);
            var out := if r.encoding.Zstd? then c.unzstd(raw) else c.gunzip(raw);
            Flowing(out) ==>
              Accept(c, r).error ==
                if (r.contentLength.Some? && r.contentLength.value > c.limits.encoded) || |raw| > c.limits.encoded
                then OverCeiling
                else if r.body.fails then Broken
                else if !WithinDecoded(c, r, |Flatten(out.chunks)|) then TooLarge
                else Broken
  {
    var raw := Flatten(r.body.chunks);
    var out := if r.encoding.Zstd? then c.unzstd(raw) else c.gunzip(raw);
    assert out == Decoded(c, r.encoding, raw);
    var limit, error := EncodedLimit(c, r), CeilingError(c, r);
    BoundedExactly(r.body, [], limit, error);
    assert [] + raw == raw && [] + Flatten(out.chunks) == Flatten(out.chunks);
    if Bounded(r.body, [], limit, error).Err? {
      BoundedFailure(r.body, [], limit, error);
    } else if Flowing(out) {
      BoundedExactly(out, [], DecodedLimit(c, r), TooLarge);
      if Bounded(out, [], DecodedLimit(c, r), TooLarge).Err? { BoundedFailure(out, [], DecodedLimit(c, r), TooLarge); }
    }
  }

  // The zstd window.

  const WINDOW_FLOOR: nat := 0x8_0000

  function Pow2(n: nat): (p: nat)
    ensures p > 0
  {
    if n == 0 then 1 else 2 * Pow2(n - 1)
  }

  /** Bits of the binary form; zero has none. */
  function BitLength(n: nat): nat {
    if n == 0 then 0 else 1 + BitLength(n / 2)
  }

  function Bounding(limit: nat): nat {
    if limit < WINDOW_FLOOR then WINDOW_FLOOR else limit
  }

  /** `limit` is a 64-bit `usize`. */
  function WindowLog(limit: nat): nat {
    var ceilLog := BitLength(Bounding(limit) - 1);
    if ceilLog < 19 then 19 else if ceilLog > 31 then 31 else ceilLog
  }

  lemma {:induction false} BitLengthBounds(n: nat)
    ensures n < Pow2(BitLength(n))
    ensures n > 0 ==> Pow2(BitLength(n) - 1) <= n
  {
    if n == 0 {
    } else {
      BitLengthBounds(n / 2);
    }
  }

  lemma {:induction false} Pow2Monotone(a: nat, b: nat)
    requires a <= b
    ensures Pow2(a) <= Pow2(b)
    decreases b
  {
    if a >= b {
    } else {
      Pow2Monotone(a, b - 1);
    }
  }

  lemma WindowFloor()
    ensures Pow2(19) == WINDOW_FLOOR
  {
    assert Pow2(4) == 16;
    assert Pow2(9) == 512;
    assert Pow2(14) == 16384;
  }

  /** The window is the least in 19..31 that covers the limit and the floor, or 31. */
  lemma WindowLogLeast(limit: nat)
    ensures 19 <= WindowLog(limit) <= 31
    ensures WindowLog(limit) < 31 ==> Bounding(limit) <= Pow2(WindowLog(limit))
    ensures forall v: nat :: 19 <= v < WindowLog(limit) ==> Pow2(v) < limit
    ensures limit <= Pow2(31) ==> limit <= Pow2(WindowLog(limit))
  {
    hide Pow2, BitLength;
    var ceilLog, w := BitLength(Bounding(limit) - 1), WindowLog(limit);
    BitLengthBounds(Bounding(limit) - 1);
    WindowFloor();
    forall v: nat | 19 <= v < w
      ensures Pow2(v) < limit
    {
      Pow2Monotone(v, ceilLog - 1);
      Pow2Monotone(19, v);
    }
    if ceilLog <= w { Pow2Monotone(ceilLog, w); }
  }
}
