/** The resume blob: a stream's cursor and call token packed into one string, and back. */
module ResumeToken {
  import opened Bytes
  import opened HttpiSyntax

  const COLON: byte := 0x3A
  const USIZE_LIMIT: int := 0x1_0000_0000_0000_0000

  /** A `str`: well-formed UTF-8. Lengths and offsets count bytes. */
  type Str = s: seq<byte> | ValidUtf8(s) witness []

  // Decimal.

  function Digits(n: nat): (d: seq<byte>)
    ensures d != [] && forall i :: 0 <= i < |d| ==> IsDigit(d[i])
  {
    if n < 10 then [0x30 + n] else Digits(n / 10) + [0x30 + n % 10]
  }

  function DigitValue(b: byte): nat
    requires IsDigit(b)
  {
    b - 0x30
  }

  function DigitsValue(d: seq<byte>): nat
    requires forall i :: 0 <= i < |d| ==> IsDigit(d[i])
  {
    if d == [] then 0 else 10 * DigitsValue(d[..|d| - 1]) + DigitValue(d[|d| - 1])
  }

  lemma {:induction false} DigitsInvert(n: nat)
    ensures DigitsValue(Digits(n)) == n
  {
    if n < 10 {
    } else {
      var d := Digits(n);
      assert d[..|d| - 1] == Digits(n / 10);
      DigitsInvert(n / 10);
    }
  }

  /** `str::parse::<usize>`: digits, an optional plus sign, and no overflow. */
  function ParseUsize(s: seq<byte>): Option<nat> {
    var digits := if s != [] && s[0] == 0x2B then s[1..] else s;
    if digits != [] && (forall i :: 0 <= i < |digits| ==> IsDigit(digits[i])) && DigitsValue(digits) < USIZE_LIMIT then
      Some(DigitsValue(digits))
    else None
  }

  /** Index of the first colon, or the length. */
  function FirstColon(s: seq<byte>): (k: nat)
    ensures k <= |s| && (k < |s| ==> s[k] == COLON)
    ensures forall i :: 0 <= i < k ==> s[i] != COLON
  {
    if s == [] || s[0] == COLON then 0 else 1 + FirstColon(s[1..])
  }

  predicate IsCharBoundary(s: seq<byte>, k: nat)
    requires k <= |s|
  {
    k == 0 || k == |s| || !IsContinuation(s[k])
  }

  function Pack(cursor: Str, call: Option<Str>): Str {
    match call
    case Some(c) => Packed(cursor, c); Digits(|cursor|) + [COLON] + cursor + c
    case None => cursor
  }

  lemma Packed(cursor: Str, call: Str)
    ensures ValidUtf8(Digits(|cursor|) + [COLON] + cursor + call)
  {
    AsciiIsUtf8(Digits(|cursor|) + [COLON]);
    Utf8Concat(Digits(|cursor|) + [COLON], cursor);
    Utf8Concat(Digits(|cursor|) + [COLON] + cursor, call);
  }

  /** The blob opens with a length that fits what follows its first colon. */
  predicate LooksPacked(token: seq<byte>) {
    var k := FirstColon(token);
    && k < |token|
    && var n := ParseUsize(token[..k]);
       n.Some? && n.value <= |token[k + 1..]| && IsCharBoundary(token[k + 1..], n.value)
  }

  lemma AfterColon(token: Str, k: nat)
    requires k < |token| && token[k] == COLON
    ensures ValidUtf8(token[k + 1..])
  {
    Utf8Split(token, k);
    assert Utf8Length(token[k..]) == 1 && token[k..][1..] == token[k + 1..];
  }

  lemma Halves(token: Str)
    requires LooksPacked(token)
    ensures var k := FirstColon(token);
            var rest, n := token[k + 1..], ParseUsize(token[..k]).value;
            ValidUtf8(rest[..n]) && ValidUtf8(rest[n..])
  {
    hide ParseUsize, FirstColon, ValidUtf8;
    var k := FirstColon(token);
    AfterColon(token, k);
    Utf8Split(token[k + 1..], ParseUsize(token[..k]).value);
  }

  function Unpack(token: Str): (Str, Option<Str>) {
    if !LooksPacked(token) then (token, None)
    else
      var k := FirstColon(token);
      var rest, n := token[k + 1..], ParseUsize(token[..k]).value;
      Halves(token);
      (rest[..n], if rest[n..] == [] then None else Some(rest[n..]))
  }

  lemma PackedPrefix(cursor: seq<byte>, rest: seq<byte>)
    ensures var t := Digits(|cursor|) + [COLON] + rest;
            && FirstColon(t) == |Digits(|cursor|)|
            && t[..FirstColon(t)] == Digits(|cursor|) && t[FirstColon(t) + 1..] == rest
  {
    var d := Digits(|cursor|);
    var t := d + [COLON] + rest;
    var k := FirstColon(t);
    assert t[|d|] == COLON;
    assert forall i :: 0 <= i < |d| ==> t[i] == d[i] && t[i] != COLON;
    assert t[..|d|] == d;
    assert t[|d| + 1..] == rest;
  }

  lemma ReadsDigits(n: nat)
    requires n < USIZE_LIMIT
    ensures ParseUsize(Digits(n)) == Some(n)
  {
    DigitsInvert(n);
    assert Digits(n)[0] != 0x2B;
  }

  /** A blob that opens with the length of its cursor looks packed. */
  lemma PackLooksPacked(cursor: Str, call: Str)
    requires |cursor| < USIZE_LIMIT
    ensures var t := Digits(|cursor|) + [COLON] + (cursor + call);
            && LooksPacked(t) && ParseUsize(t[..FirstColon(t)]) == Some(|cursor|)
            && t[FirstColon(t) + 1..] == cursor + call && FirstColon(t) < |t|
  {
    PackedPrefix(cursor, cursor + call);
    ReadsDigits(|cursor|);
    hide Digits, ParseUsize, FirstColon;
    assert (cursor + call)[..|cursor|] == cursor;
    if call != [] { assert (cursor + call)[|cursor|] == call[0] && Utf8Length(call) > 0; }
  }

  /** Both halves come back, for every cursor and every non-empty call token; an empty call token comes back as none. */
  lemma UnpackInvertsPack(cursor: Str, call: Str)
    requires |cursor| < USIZE_LIMIT
    ensures Unpack(Pack(cursor, Some(call))) == (cursor, if call == [] then None else Some(call))
  {
    PackLooksPacked(cursor, call);
    hide Digits, ParseUsize, FirstColon, LooksPacked, ValidUtf8;
    Regroup(Digits(|cursor|) + [COLON], cursor, call);
    assert (cursor + call)[..|cursor|] == cursor && (cursor + call)[|cursor|..] == call;
  }

  /** A bare cursor reads back as itself exactly when it does not look packed; a colon-free one never does. */
  lemma BareCursorExactly(cursor: Str)
    ensures Unpack(Pack(cursor, None)) == (cursor, None) <==> !LooksPacked(cursor)
    ensures COLON !in cursor ==> !LooksPacked(cursor)
  {
    if LooksPacked(cursor) {
      assert |Unpack(cursor).0| < |cursor|;
    }
  }

  /** A cursor with a colon can come back as something else. */
  lemma BareCursorMisread()
    ensures ValidUtf8([0x30, COLON, 0x61])
    ensures var cursor: Str := [0x30, COLON, 0x61]; Unpack(Pack(cursor, None)) == ([], Some([0x61]))
  {
    var t := [0x30, COLON, 0x61];
    AsciiIsUtf8(t);
    assert FirstColon(t) == 1 by { assert t[1..][0] == COLON; }
    assert t[..1] == [0x30] && t[2..] == [0x61];
    assert DigitsValue([0x30]) == 0 by { assert [0x30][..0] == []; }
    assert [0x61][..0] == [] && [0x61][0..] == [0x61];
  }

  predicate Readable(cursor: Str, call: Option<Str>) {
    |cursor| < USIZE_LIMIT && if call.Some? then call.value != [] else !LooksPacked(cursor)
  }

  /** The blob determines the position: packing is injective on what reads back. */
  lemma PackInjective(c1: Str, k1: Option<Str>, c2: Str, k2: Option<Str>)
    requires Readable(c1, k1) && Readable(c2, k2) && Pack(c1, k1) == Pack(c2, k2)
    ensures c1 == c2 && k1 == k2
  {
    if k1.Some? { UnpackInvertsPack(c1, k1.value); }
    if k2.Some? { UnpackInvertsPack(c2, k2.value); }
  }

  lemma ReadableRoundTrip(cursor: Str, call: Option<Str>)
    requires |cursor| < USIZE_LIMIT
    ensures Unpack(Pack(cursor, call)) == (cursor, call) <==> Readable(cursor, call)
  {
    if call.Some? { UnpackInvertsPack(cursor, call.value); } else { BareCursorExactly(cursor); }
  }
}
