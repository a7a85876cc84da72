/** The strict parser of `httpi://` targets. */
module HttpiTarget {
  import opened Bytes
  import opened HttpiSyntax
  import opened Separated

  datatype HttpiTarget = HttpiTarget(endpointId: seq<byte>, basePath: seq<byte>)

  datatype TargetError =
    | NotPrintable | WrongScheme | NotAPath | BadEndpointId | EndpointRefused
    | EmptyOrDotSegment | EncodedDotSegment | EncodedSeparator | Backslash | BadEscape

  const PREFIX: seq<byte> := Ascii("httpi://")
  const PERCENT: byte := 0x25
  const BACKSLASH: byte := 0x5C
  const DOT: byte := 0x2E

  predicate IsControl(b: byte) { b <= 0x20 || b == 0x7F }

  predicate IsForbidden(b: byte) { b in [0x3F, 0x23, 0x40] }

  // Percent decoding.

  function HexValue(b: byte): Option<nat> {
    if IsDigit(b) then Some(b - 0x30)
    else if 0x61 <= b <= 0x66 then Some(b - 0x57)
    else if 0x41 <= b <= 0x46 then Some(b - 0x37)
    else None
  }

  lemma HexValueSmall(b: byte)
    ensures HexValue(b).Some? ==> HexValue(b).value < 16
  {
  }

  const HEX_LOWER: seq<byte> := Ascii("0123456789abcdef")
  const HEX_UPPER: seq<byte> := Ascii("0123456789ABCDEF")

  /** A byte is a hex digit of a value exactly when it is the digit of that value in one of the two cases. */
  lemma HexExactly(b: byte, v: nat)
    ensures HexValue(b) == Some(v) <==> v < 16 && (b == HEX_LOWER[v] || b == HEX_UPPER[v])
  {
  }

  /** The escape of every byte, in any mix of cases, decodes to that byte. */
  lemma EscapeDecodes(b: byte, high: byte, low: byte)
    requires high in {HEX_LOWER[b / 16], HEX_UPPER[b / 16]} && low in {HEX_LOWER[b % 16], HEX_UPPER[b % 16]}
    ensures Decode([PERCENT, high, low]) == Ok([b])
  {
    HexExactly(high, b / 16);
    HexExactly(low, b % 16);
    var s := [PERCENT, high, low];
    assert s[3..] == [] && Decode(s[3..]) == Ok([]);
    assert 16 * (b / 16) + b % 16 == b && [b] + [] == [b];
  }

  /** One decoded byte as it is spelled in the segment. */
  datatype Piece = Plain(b: byte) | Escaped(high: byte, low: byte) {
    predicate Valid() {
      match this
      case Plain(b) => b != PERCENT && b != BACKSLASH
      case Escaped(high, low) => HexValue(high).Some? && HexValue(low).Some?
    }

    function Spelling(): seq<byte> {
      match this
      case Plain(b) => [b]
      case Escaped(high, low) => [PERCENT, high, low]
    }

    function Meaning(): nat
      requires Valid()
    {
      match this
      case Plain(b) => b
      case Escaped(high, low) => 16 * HexValue(high).value + HexValue(low).value
    }
  }

  function Decode(s: seq<byte>): Result<seq<byte>, TargetError> {
    if s == [] then Ok([])
    else if s[0] == BACKSLASH then Err(Backslash)
    else if s[0] != PERCENT then
      var rest :- Decode(s[1..]);
      Ok([s[0]] + rest)
    else if |s| < 3 || HexValue(s[1]).None? || HexValue(s[2]).None? then Err(BadEscape)
    else
      var rest :- Decode(s[3..]);
      Ok([16 * HexValue(s[1]).value + HexValue(s[2]).value] + rest)
  }

  method PercentDecodeSegment(s: seq<byte>) returns (r: Result<seq<byte>, TargetError>)
    ensures r == Decode(s)
  {
    hide HexValue;
    var output, index := [], 0;
    assert s[0..] == s;
    assert Decode(s).Ok? ==> [] + Decode(s).value == Decode(s).value;
    while index < |s|
      invariant index <= |s|
      invariant Decode(s) == Prepend(output, Decode(s[index..]))
    {
      if s[index] != PERCENT {
        if s[index] == BACKSLASH { return Err(Backslash); }
        DecodePlain(s[index..], output);
        assert s[index..][1..] == s[index + 1..];
        output, index := output + [s[index]], index + 1;
      } else {
        if index + 2 >= |s| { return Err(BadEscape); }
        var high, low := HexValue(s[index + 1]), HexValue(s[index + 2]);
        if high.None? || low.None? { return Err(BadEscape); }
        HexValueSmall(s[index + 1]);
        HexValueSmall(s[index + 2]);
        DecodeEscape(s[index..], output);
        assert s[index..][3..] == s[index + 3..];
        output, index := output + [16 * high.value + low.value], index + 3;
      }
    }
    assert s[index..] == [] && output + [] == output;
    r := Ok(output);
  }

  function Prepend(front: seq<byte>, r: Result<seq<byte>, TargetError>): Result<seq<byte>, TargetError> {
    if r.Ok? then Ok(front + r.value) else r
  }

  lemma DecodePlain(s: seq<byte>, front: seq<byte>)
    requires s != [] && s[0] != PERCENT && s[0] != BACKSLASH
    ensures Prepend(front, Decode(s)) == Prepend(front + [s[0]], Decode(s[1..]))
  {
    if Decode(s[1..]).Ok? {
      assert front + ([s[0]] + Decode(s[1..]).value) == front + [s[0]] + Decode(s[1..]).value;
    }
  }

  lemma DecodeEscape(s: seq<byte>, front: seq<byte>)
    requires |s| >= 3 && s[0] == PERCENT && HexValue(s[1]).Some? && HexValue(s[2]).Some?
    ensures var b: nat := 16 * HexValue(s[1]).value + HexValue(s[2]).value;
            b < 256 && Prepend(front, Decode(s)) == Prepend(front + [b], Decode(s[3..]))
  {
    HexValueSmall(s[1]);
    HexValueSmall(s[2]);
    var b := 16 * HexValue(s[1]).value + HexValue(s[2]).value;
    if Decode(s[3..]).Ok? {
      assert front + ([b] + Decode(s[3..]).value) == front + [b] + Decode(s[3..]).value;
    }
  }

  predicate AllValid(ps: seq<Piece>) {
    forall k :: 0 <= k < |ps| ==> ps[k].Valid()
  }

  function SpellAll(ps: seq<Piece>): seq<byte> {
    if ps == [] then [] else ps[0].Spelling() + SpellAll(ps[1..])
  }

  function MeanAll(ps: seq<Piece>): seq<nat>
    requires AllValid(ps)
  {
    if ps == [] then [] else [ps[0].Meaning()] + MeanAll(ps[1..])
  }

  /** A segment spelled with valid pieces decodes to what they mean. */
  lemma {:induction false} DecodeReadsPieces(ps: seq<Piece>)
    requires AllValid(ps)
    ensures Decode(SpellAll(ps)) == Ok(MeanAll(ps))
  {
    if ps == [] {
    } else {
      DecodeReadsPieces(ps[1..]);
      var s := SpellAll(ps);
      match ps[0]
      case Plain(b) => assert s[1..] == SpellAll(ps[1..]);
      case Escaped(high, low) => assert s[3..] == SpellAll(ps[1..]);
    }
  }

  /** Only such segments decode. */
  lemma {:induction false} DecodedHasPieces(s: seq<byte>) returns (ps: seq<Piece>)
    requires Decode(s).Ok?
    ensures AllValid(ps) && SpellAll(ps) == s && MeanAll(ps) == Decode(s).value
  {
    ps := [];
    if s == [] {
    } else {
      var first := if s[0] != PERCENT then Plain(s[0]) else Escaped(s[1], s[2]);
      var n := |first.Spelling()|;
      var rest := DecodedHasPieces(s[n..]);
      ps := [first] + rest;
      assert ps[1..] == rest;
      assert s == first.Spelling() + s[n..];
    }
  }

  /** A segment that does not decode fails at its first backslash or its first percent sign without two hex digits. */
  lemma {:induction false} DecodeFails(s: seq<byte>) returns (k: nat)
    requires Decode(s).Err?
    ensures k < |s| && Decode(s[..k]).Ok?
    ensures if s[k] == 0x5C then Decode(s) == Err(Backslash)
            else
              && s[k] == 0x25 && (k + 2 >= |s| || HexValue(s[k + 1]).None? || HexValue(s[k + 2]).None?)
              && Decode(s) == Err(BadEscape)
  {
    k := 0;
    if s[0] == BACKSLASH || (s[0] == PERCENT && (|s| < 3 || HexValue(s[1]).None? || HexValue(s[2]).None?)) {
    } else {
      var n := if s[0] == PERCENT then 3 else 1;
      var j := DecodeFails(s[n..]);
      k := n + j;
      assert s[..k][n..] == s[n..][..j] && forall i :: 0 <= i < n ==> s[..k][i] == s[i];
      assert s[k] == s[n..][j] && forall i :: k < i < |s| ==> s[i] == s[n..][i - n];
    }
  }

  // The base path.

  predicate IsDots(s: seq<byte>) { s == [DOT] || s == [DOT, DOT] }

  predicate HasSeparator(s: seq<byte>) {
    exists i :: 0 <= i < |s| && (s[i] == SLASH || s[i] == BACKSLASH || IsControl(s[i]))
  }

  function CheckSegment(s: seq<byte>): Result<(), TargetError> {
    if s == [] || IsDots(s) then Err(EmptyOrDotSegment)
    else
      var decoded :- Decode(s);
      if IsDots(decoded) then Err(EncodedDotSegment)
      else if HasSeparator(decoded) then Err(EncodedSeparator)
      else Ok(())
  }

  function CheckSegments(parts: seq<seq<byte>>): Result<(), TargetError> {
    if parts == [] then Ok(()) else var _ :- CheckSegment(parts[0]); CheckSegments(parts[1..])
  }

  method ValidateBasePath(path: seq<byte>) returns (r: Result<(), TargetError>)
    ensures r == if path == [] then Ok(()) else CheckSegments(Split(path, SLASH))
  {
    hide Decode, HasSeparator, IsDots, Split;
    if path == [] { return Ok(()); }
    var parts := Split(path, SLASH);
    assert parts[0..] == parts;
    for k := 0 to |parts|
      invariant CheckSegments(parts) == CheckSegments(parts[k..])
    {
      assert parts[k..][1..] == parts[k + 1..];
      if parts[k] == [] || IsDots(parts[k]) { return Err(EmptyOrDotSegment); }
      var decoded := PercentDecodeSegment(parts[k]);
      if decoded.Err? { return Err(decoded.error); }
      if IsDots(decoded.value) { return Err(EncodedDotSegment); }
      if HasSeparator(decoded.value) { return Err(EncodedSeparator); }
    }
    r := Ok(());
  }

  /** It decodes to something that is neither a dot segment nor holds a separator, backslash, blank or control. */
  predicate SafeSegment(s: seq<byte>) {
    s != [] && Decode(s).Ok? && !IsDots(Decode(s).value) && !HasSeparator(Decode(s).value)
  }

  predicate SafeSegments(parts: seq<seq<byte>>) {
    forall k :: 0 <= k < |parts| ==> SafeSegment(parts[k])
  }

  /** Byte for byte: what a safe segment decodes to is no dot segment, and every byte of it is harmless in a path. */
  lemma SafeSegmentMeans(s: seq<byte>)
    ensures SafeSegment(s) <==>
              && s != [] && Decode(s).Ok?
              && var d := Decode(s).value;
                 && d != Ascii(".") && d != Ascii("..")
                 && forall i :: 0 <= i < |d| ==> d[i] > 0x20 && d[i] != 0x7F && d[i] != 0x2F && d[i] != 0x5C
  {
  }

  /** The plain dot test is subsumed by the test on the decoded bytes. */
  lemma CheckSegmentExactly(s: seq<byte>)
    ensures CheckSegment(s).Ok? <==> SafeSegment(s)
  {
    if IsDots(s) { DecodeDots(s); }
  }

  /**
   What a segment is refused for: being empty or dots as it stands, a spelling that does not decode, dots once decoded,
   or else a decoded byte that has no place in a path.
   */
  lemma SegmentRefusedAs(s: seq<byte>)
    requires CheckSegment(s).Err?
    ensures CheckSegment(s).error ==
            if s == [] || s == Ascii(".") || s == Ascii("..") then EmptyOrDotSegment
            else if Decode(s).Err? then Decode(s).error
            else if Decode(s).value == Ascii(".") || Decode(s).value == Ascii("..") then EncodedDotSegment
            else EncodedSeparator
  {
  }

  lemma DecodeDots(s: seq<byte>)
    requires IsDots(s)
    ensures Decode(s) == Ok(s)
  {
    var last := s[|s| - 1..];
    assert Decode(last[1..]) == Ok([]) && last == [DOT] + last[1..];
    assert Decode(last) == Ok([DOT] + []);
    if |s| == 2 {
      assert s[1..] == last && s == [DOT] + last;
    } else {
      assert s == last;
    }
  }

  lemma {:induction false} CheckSegmentsExactly(parts: seq<seq<byte>>)
    ensures CheckSegments(parts).Ok? <==> SafeSegments(parts)
  {
    hide CheckSegment, SafeSegment;
    if parts == [] {
    } else {
      CheckSegmentExactly(parts[0]);
      CheckSegmentsExactly(parts[1..]);
      assert forall k :: 0 < k < |parts| ==> parts[k] == parts[1..][k - 1];
      assert forall k :: 0 <= k < |parts[1..]| ==> parts[1..][k] == parts[k + 1];
    }
  }

  // The target.

  /** The index of the first slash, or the length. */
  function FirstSlash(s: seq<byte>): (n: nat)
    ensures n <= |s|
  {
    if s == [] || s[0] == SLASH then 0 else 1 + FirstSlash(s[1..])
  }

  predicate Printable(s: seq<byte>) {
    forall i :: 0 <= i < |s| ==> !IsControl(s[i])
  }

  predicate NoneForbidden(s: seq<byte>) {
    forall i :: 0 <= i < |s| ==> !IsForbidden(s[i])
  }

  /** No blank, control, question mark, number sign or at sign. */
  lemma PlainTextMeans(s: seq<byte>)
    ensures Printable(s) && NoneForbidden(s) <==>
              forall i :: 0 <= i < |s| ==> s[i] > 0x20 && s[i] != 0x7F && s[i] !in Ascii("?#@")
  {
    assert Ascii("?#@") == [0x3F, 0x23, 0x40];
  }

  /** `known` says which ids the transport's own address parser accepts. */
  function Parse(value: seq<byte>, known: seq<byte> -> bool): Result<HttpiTarget, TargetError> {
    if value == [] || !Printable(value) then Err(NotPrintable)
    else if !(PREFIX <= value) then Err(WrongScheme)
    else
      var rest := value[|PREFIX|..];
      if !NoneForbidden(rest) then Err(NotAPath)
      else Assemble(rest[..FirstSlash(rest)], rest[FirstSlash(rest)..], known)
  }

  /** `tail` starts at the first slash, if there is one. */
  function Assemble(id: seq<byte>, tail: seq<byte>, known: seq<byte> -> bool): Result<HttpiTarget, TargetError> {
    if !IsEndpointId(id) then Err(BadEndpointId)
    else if !known(id) then Err(EndpointRefused)
    else if |tail| <= 1 then Ok(HttpiTarget(id, []))
    else
      var _ :- CheckSegments(Split(tail[1..], SLASH));
      Ok(HttpiTarget(id, [SLASH] + tail[1..]))
  }

  /**
   What a text is refused for, in this order: nothing or a control in it, another scheme, a byte that ends a path, an
   endpoint id of another form or unknown, and then its first bad segment.
   */
  lemma TargetRefusedAs(value: seq<byte>, known: seq<byte> -> bool)
    requires Parse(value, known).Err?
    ensures Parse(value, known).error ==
            if value == [] || exists i :: 0 <= i < |value| && (value[i] <= 0x20 || value[i] == 0x7F) then NotPrintable
            else if !(Ascii("httpi://") <= value) then WrongScheme
            else
              var rest := value[8..];
              var id, tail := rest[..FirstSlash(rest)], rest[FirstSlash(rest)..];
              if exists i :: 0 <= i < |rest| && rest[i] in [0x3F, 0x23, 0x40] then NotAPath
              else if !IsEndpointId(id) then BadEndpointId
              else if !known(id) then EndpointRefused
              else if |tail| > 1 && CheckSegments(Split(tail[1..], SLASH)).Err? then
                CheckSegments(Split(tail[1..], SLASH)).error
              else NotAPath
  {
    hide CheckSegments, Split, IsEndpointId, FirstSlash;
  }

  function Reprint(t: HttpiTarget): seq<byte> {
    PREFIX + t.endpointId + t.basePath
  }

  /** The base paths a target can have: none, or a slash before safe segments. */
  predicate SafePath(path: seq<byte>) {
    path == [] || (path[0] == SLASH && |path| > 1 && SafeSegments(Split(path[1..], SLASH)))
  }

  predicate IsTarget(t: HttpiTarget, known: seq<byte> -> bool) {
    && IsEndpointId(t.endpointId) && known(t.endpointId)
    && SafePath(t.basePath) && Printable(t.basePath) && NoneForbidden(t.basePath)
  }

  /** The target's text, or that text with a slash after a target that has no path. */
  predicate Prints(t: HttpiTarget, slash: bool, value: seq<byte>) {
    if slash then t.basePath == [] && value == Reprint(t) + [SLASH] else value == Reprint(t)
  }

  lemma {:induction false} FirstSlashSplits(s: seq<byte>)
    ensures FirstSlash(s) < |s| ==> s[FirstSlash(s)] == SLASH
  {
    if s == [] || s[0] == SLASH {
    } else {
      FirstSlashSplits(s[1..]);
    }
  }

  lemma {:induction false} FirstSlashAfter(id: seq<byte>, tail: seq<byte>)
    requires SLASH !in id && (tail == [] || tail[0] == SLASH)
    ensures FirstSlash(id + tail) == |id|
  {
    if id == [] {
      assert id + tail == tail;
    } else {
      assert (id + tail)[1..] == id[1..] + tail;
      FirstSlashAfter(id[1..], tail);
    }
  }

  lemma ClassesOfParts(a: seq<byte>, b: seq<byte>)
    ensures Printable(a + b) <==> Printable(a) && Printable(b)
    ensures NoneForbidden(a + b) <==> NoneForbidden(a) && NoneForbidden(b)
  {
    hide IsControl, IsForbidden;
    assert forall i :: 0 <= i < |a| ==> (a + b)[i] == a[i];
    assert forall i :: 0 <= i < |b| ==> (a + b)[|a| + i] == b[i];
  }

  /** What the last stage returns belongs to what it was given. */
  lemma AssembledIsTarget(id: seq<byte>, tail: seq<byte>, known: seq<byte> -> bool)
    requires Assemble(id, tail, known).Ok? && (tail == [] || tail[0] == SLASH) && Printable(tail) && NoneForbidden(tail)
    ensures var t := Assemble(id, tail, known).value;
            && IsTarget(t, known) && t.endpointId == id
            && (if tail == [SLASH] then t.basePath == [] else t.basePath == tail)
  {
    hide IsEndpointId, CheckSegments, SafeSegments, Split, Printable, NoneForbidden;
    if |tail| > 1 {
      CheckSegmentsExactly(Split(tail[1..], SLASH));
      assert [SLASH] + tail[1..] == tail;
    } else {
      assert tail == [] || tail == [SLASH];
      NothingForbidden();
    }
  }

  lemma NothingForbidden()
    ensures Printable([]) && NoneForbidden([])
  {
  }

  /** An accepted text is its target printed again, but for a lone root slash; every segment of the target is safe. */
  lemma AcceptedReprints(value: seq<byte>, known: seq<byte> -> bool)
    requires Parse(value, known).Ok?
    ensures var t := Parse(value, known).value; IsTarget(t, known) && Prints(t, value != Reprint(t), value)
  {
    hide IsTarget, Assemble, Printable, NoneForbidden;
    var rest := value[|PREFIX|..];
    var cut := FirstSlash(rest);
    var id, tail := rest[..cut], rest[cut..];
    assert value == PREFIX + rest && rest == id + tail;
    ClassesOfParts(PREFIX, rest);
    ClassesOfParts(id, tail);
    FirstSlashSplits(rest);
    AssembledIsTarget(id, tail, known);
    assert PREFIX + (id + tail) == PREFIX + id + tail;
    assert PREFIX + id + [] == PREFIX + id;
  }

  lemma PrefixClasses()
    ensures |PREFIX| == 8 && Printable(PREFIX)
  {
  }

  lemma EndpointIdClasses(t: HttpiTarget, known: seq<byte> -> bool)
    requires IsTarget(t, known)
    ensures Printable(t.endpointId) && NoneForbidden(t.endpointId) && SLASH !in t.endpointId
  {
  }

  /** The text after the prefix of a target, with or without the lone slash. */
  lemma TailParses(t: HttpiTarget, known: seq<byte> -> bool, tail: seq<byte>)
    requires IsTarget(t, known) && (tail == t.basePath || (t.basePath == [] && tail == [SLASH]))
    ensures Assemble(t.endpointId, tail, known) == Ok(t)
    ensures (tail == [] || tail[0] == SLASH) && Printable(tail) && NoneForbidden(tail)
  {
    hide IsEndpointId, CheckSegments, SafeSegments, Split;
    if t.basePath != [] {
      CheckSegmentsExactly(Split(tail[1..], SLASH));
      assert tail == [SLASH] + tail[1..];
    }
  }

  /** Every target is read back from its own text, and from that text with a lone root slash. */
  lemma ReprintParses(t: HttpiTarget, known: seq<byte> -> bool, slash: bool, value: seq<byte>)
    requires IsTarget(t, known) && Prints(t, slash, value)
    ensures Parse(value, known) == Ok(t)
  {
    hide IsTarget, Assemble, Printable, NoneForbidden, FirstSlash;
    var tail := if slash then [SLASH] else t.basePath;
    var rest := t.endpointId + tail;
    TailParses(t, known, tail);
    EndpointIdClasses(t, known);
    ClassesOfParts(t.endpointId, tail);
    FirstSlashAfter(t.endpointId, tail);
    PrefixClasses();
    ClassesOfParts(PREFIX, rest);
    RestOfText(t, slash, value, tail);
    assert rest[..|t.endpointId|] == t.endpointId && rest[|t.endpointId|..] == tail;
  }

  lemma RestOfText(t: HttpiTarget, slash: bool, value: seq<byte>, tail: seq<byte>)
    requires Prints(t, slash, value) && tail == if slash then [SLASH] else t.basePath
    ensures value == PREFIX + (t.endpointId + tail) && PREFIX <= value && value[|PREFIX|..] == t.endpointId + tail
  {
    assert PREFIX + (t.endpointId + tail) == PREFIX + t.endpointId + tail;
    assert PREFIX + t.endpointId + [] == PREFIX + t.endpointId;
  }

  /** Exactly the texts of targets, and those of pathless targets with a slash, are accepted. */
  lemma AcceptedExactly(value: seq<byte>, known: seq<byte> -> bool)
    ensures Parse(value, known).Ok? <==>
            exists t: HttpiTarget, slash: bool :: IsTarget(t, known) && Prints(t, slash, value)
  {
    hide Parse, IsTarget, Prints;
    if Parse(value, known).Ok? { AcceptedReprints(value, known); }
    forall t: HttpiTarget, slash: bool | IsTarget(t, known) && Prints(t, slash, value)
      ensures Parse(value, known).Ok?
    {
      ReprintParses(t, known, slash, value);
    }
  }
}
