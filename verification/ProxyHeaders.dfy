/** Header sanitising of the HTTP bridge, after section 7.6.1 of RFC 9110. */
module ProxyHeaders {
  import opened Bytes
  import opened HttpiSyntax
  import opened Separated

  /** A header name in its lower-case form. */
  type Name = string

  /** Every name with its values in order; a name that is present has at least one value. */
  type Headers = map<Name, seq<seq<byte>>>

  const CONNECTION: Name := "connection"
  const HOST: Name := "host"
  const IDENTITY: Name := "vgi-forwarded-iroh-endpoint"
  const COMMA: byte := 0x2C

  const HOP_BY_HOP: set<Name> := {
    CONNECTION, "keep-alive", "proxy-authenticate", "proxy-authorization", "proxy-connection", "te", "trailer",
    "transfer-encoding", "upgrade"
  }

  predicate WellFormed(h: Headers) {
    forall n :: n in h ==> h[n] != []
  }

  // Optional whitespace.

  predicate IsBlank(b: byte) { b == 0x20 || b == 0x09 }

  predicate AllBlank(s: seq<byte>) {
    forall i :: 0 <= i < |s| ==> IsBlank(s[i])
  }

  function Trim(s: seq<byte>): seq<byte>
    decreases |s|
  {
    if s == [] then []
    else if IsBlank(s[0]) then Trim(s[1..])
    else if IsBlank(s[|s| - 1]) then Trim(s[..|s| - 1])
    else s
  }

  predicate Around(s: seq<byte>, before: seq<byte>, t: seq<byte>, after: seq<byte>) {
    s == before + t + after && AllBlank(before) && AllBlank(after)
  }

  /** `t` is `s` without the blanks around it. */
  ghost predicate IsTrimmed(s: seq<byte>, t: seq<byte>) {
    && (t != [] ==> !IsBlank(t[0]) && !IsBlank(t[|t| - 1]))
    && exists before, after :: Around(s, before, t, after)
  }

  lemma AroundWider(s: seq<byte>, before: seq<byte>, t: seq<byte>, after: seq<byte>)
    requires s != [] && IsBlank(s[0]) && Around(s[1..], before, t, after)
    ensures Around(s, [s[0]] + before, t, after)
  {
    assert s == [s[0]] + s[1..];
    assert [s[0]] + (before + t + after) == ([s[0]] + before) + t + after;
  }

  lemma AroundLonger(s: seq<byte>, before: seq<byte>, t: seq<byte>, after: seq<byte>)
    requires s != [] && IsBlank(s[|s| - 1]) && Around(s[..|s| - 1], before, t, after)
    ensures Around(s, before, t, after + [s[|s| - 1]])
  {
    assert s == s[..|s| - 1] + [s[|s| - 1]];
    assert (before + t + after) + [s[|s| - 1]] == before + t + (after + [s[|s| - 1]]);
  }

  lemma TrimmedWider(s: seq<byte>, t: seq<byte>)
    requires s != [] && IsBlank(s[0]) && IsTrimmed(s[1..], t)
    ensures IsTrimmed(s, t)
  {
    hide AllBlank, Around;
    var before, after :| Around(s[1..], before, t, after);
    AroundWider(s, before, t, after);
  }

  lemma TrimmedLonger(s: seq<byte>, t: seq<byte>)
    requires s != [] && IsBlank(s[|s| - 1]) && IsTrimmed(s[..|s| - 1], t)
    ensures IsTrimmed(s, t)
  {
    hide AllBlank, Around;
    var before, after :| Around(s[..|s| - 1], before, t, after);
    AroundLonger(s, before, t, after);
  }

  lemma NothingToTrim(s: seq<byte>)
    requires s == [] || (!IsBlank(s[0]) && !IsBlank(s[|s| - 1]))
    ensures IsTrimmed(s, s)
  {
    assert [] + s + [] == s;
    assert Around(s, [], s, []);
  }

  lemma {:induction false} TrimTrims(s: seq<byte>)
    ensures IsTrimmed(s, Trim(s))
    decreases |s|
  {
    hide IsTrimmed;
    if s == [] {
      NothingToTrim(s);
    } else if IsBlank(s[0]) {
      TrimTrims(s[1..]);
      TrimmedWider(s, Trim(s[1..]));
    } else if IsBlank(s[|s| - 1]) {
      TrimTrims(s[..|s| - 1]);
      TrimmedLonger(s, Trim(s[..|s| - 1]));
    } else {
      NothingToTrim(s);
    }
  }

  method TrimOptionalWhitespace(s: seq<byte>) returns (t: seq<byte>)
    ensures t == Trim(s)
    ensures IsTrimmed(s, t)
  {
    t := s;
    while t != [] && IsBlank(t[0])
      invariant Trim(t) == Trim(s)
      decreases |t|
    {
      t := t[1..];
    }
    while t != [] && IsBlank(t[|t| - 1])
      invariant Trim(t) == Trim(s)
      invariant t != [] ==> !IsBlank(t[0])
      decreases |t|
    {
      t := t[..|t| - 1];
    }
    TrimTrims(s);
  }

  // Names.

  const MAX_NAME: nat := 0xFFFF

  function Lower(b: byte): byte {
    if IsUpper(b) then b + 0x20 else b
  }

  function ParseName(s: seq<byte>): Option<Name> {
    if s == [] || |s| > MAX_NAME || exists i :: 0 <= i < |s| && !IsTokenByte(s[i]) then None
    else Some(seq(|s|, i requires 0 <= i < |s| => Lower(s[i]) as char))
  }

  /** A name is a token of at most 65535 bytes, with its capital letters in lower case. */
  lemma ParseNameExactly(s: seq<byte>, n: Name)
    ensures ParseName(s) == Some(n) <==>
              && 0 < |s| <= 65535 && |n| == |s|
              && forall i :: 0 <= i < |s| ==>
                   IsTokenByte(s[i]) && n[i] as int == if 0x41 <= s[i] <= 0x5A then s[i] + 0x20 else s[i]
  {
    if ParseName(s).Some? && |n| == |s| {
      var m := ParseName(s).value;
      assert m == n <==> forall i :: 0 <= i < |s| ==> m[i] == n[i];
    }
  }

  predicate Names(part: seq<byte>, n: Name) {
    ParseName(Trim(part)) == Some(n)
  }

  /** The names a list of comma-separated elements nominates. */
  function NamesOf(parts: seq<seq<byte>>): set<Name> {
    if parts == [] then {} else NamesOf(parts[..|parts| - 1]) + NameSet(parts[|parts| - 1])
  }

  function NameSet(part: seq<byte>): set<Name> {
    var n := ParseName(Trim(part));
    if n.Some? then {n.value} else {}
  }

  lemma {:induction false} NamesOfExactly(parts: seq<seq<byte>>, n: Name)
    ensures n in NamesOf(parts) <==> exists j :: 0 <= j < |parts| && Names(parts[j], n)
  {
    hide Trim, ParseName;
    if parts == [] {
    } else {
      var front := parts[..|parts| - 1];
      NamesOfExactly(front, n);
      assert forall j :: 0 <= j < |front| ==> front[j] == parts[j];
      assert n in NameSet(parts[|parts| - 1]) <==> Names(parts[|parts| - 1], n);
    }
  }

  function Values(h: Headers, n: Name): seq<seq<byte>> {
    if n in h then h[n] else []
  }

  /** The names nominated by the `Connection` values. */
  function Nominated(values: seq<seq<byte>>): set<Name> {
    if values == [] then {} else NamesOf(Split(values[0], COMMA)) + Nominated(values[1..])
  }

  lemma {:induction false} NominatedAppend(values: seq<seq<byte>>, v: seq<byte>)
    ensures Nominated(values + [v]) == Nominated(values) + NamesOf(Split(v, COMMA))
  {
    if values == [] {
      assert values + [v] == [v];
    } else {
      assert (values + [v])[1..] == values[1..] + [v];
      NominatedAppend(values[1..], v);
    }
  }

  /** Some comma-separated element of the value is the name, up to case and blanks. */
  predicate Nominates(value: seq<byte>, n: Name) {
    exists j :: 0 <= j < |Split(value, COMMA)| && Names(Split(value, COMMA)[j], n)
  }

  lemma {:induction false} NominatedExactly(values: seq<seq<byte>>, n: Name)
    ensures n in Nominated(values) <==> exists k :: 0 <= k < |values| && Nominates(values[k], n)
  {
    hide Names, Split, NamesOf;
    if values == [] {
    } else {
      NamesOfExactly(Split(values[0], COMMA), n);
      assert n in NamesOf(Split(values[0], COMMA)) <==> Nominates(values[0], n);
      var rest := values[1..];
      NominatedExactly(rest, n);
      assert forall k :: 0 <= k < |rest| ==> rest[k] == values[k + 1];
      assert forall k :: 0 < k < |values| ==> values[k] == rest[k - 1];
    }
  }

  method NamesIn(parts: seq<seq<byte>>) returns (names: set<Name>)
    ensures names == NamesOf(parts)
  {
    hide Trim, ParseName;
    names := {};
    for j := 0 to |parts|
      invariant names == NamesOf(parts[..j])
    {
      assert parts[..j + 1][..j] == parts[..j];
      var token := TrimOptionalWhitespace(parts[j]);
      var name := ParseName(token);
      if name.Some? { names := names + {name.value}; }
    }
    assert parts[..|parts|] == parts;
  }

  method ConnectionNominated(h: Headers) returns (nominated: set<Name>)
    ensures nominated == Nominated(Values(h, CONNECTION))
  {
    hide NamesOf, Split;
    nominated := {};
    var values := Values(h, CONNECTION);
    for k := 0 to |values|
      invariant nominated == Nominated(values[..k])
    {
      assert values[..k + 1] == values[..k] + [values[k]];
      NominatedAppend(values[..k], values[k]);
      var names := NamesIn(Split(values[k], COMMA));
      nominated := nominated + names;
    }
    assert values[..|values|] == values;
  }

  // The sanitizers.

  predicate Removed(h: Headers, n: Name) {
    n in HOP_BY_HOP || n in Nominated(Values(h, CONNECTION))
  }

  function Stripped(h: Headers): Headers {
    map n | n in h && !Removed(h, n) :: h[n]
  }

  method AppendAll(h: Headers, name: Name, values: seq<seq<byte>>) returns (out: Headers)
    requires name !in h && values != []
    ensures out == h[name := values]
  {
    out := h;
    for i := 0 to |values|
      invariant out == if i == 0 then h else h[name := values[..i]]
    {
      assert values[..i + 1] == values[..i] + [values[i]];
      out := out[name := Values(out, name) + [values[i]]];
    }
    assert values[..|values|] == values;
  }

  method StripHopByHop(h: Headers) returns (clean: Headers)
    requires WellFormed(h)
    ensures clean == Stripped(h)
  {
    hide Nominated, Values;
    clean := map[];
    var nominated := ConnectionNominated(h);
    var keys := h.Keys;
    while keys != {}
      invariant keys <= h.Keys
      invariant clean == map n | n in h && n !in keys && !Removed(h, n) :: h[n]
      decreases |keys|
    {
      var name :| name in keys;
      keys := keys - {name};
      if name !in HOP_BY_HOP && name !in nominated {
        clean := AppendAll(clean, name, h[name]);
      }
    }
  }

  function SanitizedRequest(h: Headers): Headers {
    Stripped(h) - {HOST, IDENTITY}
  }

  function SanitizedResponse(h: Headers): Headers {
    Stripped(h) - {IDENTITY}
  }

  method SanitizeRequestHeaders(h: Headers) returns (clean: Headers)
    requires WellFormed(h)
    ensures clean == SanitizedRequest(h)
  {
    clean := StripHopByHop(h);
    clean := clean - {HOST};
    clean := clean - {IDENTITY};
  }

  method SanitizeResponseHeaders(h: Headers) returns (clean: Headers)
    requires WellFormed(h)
    ensures clean == SanitizedResponse(h)
  {
    clean := StripHopByHop(h);
    clean := clean - {IDENTITY};
  }

  /** Hop-by-hop and nominated names are gone, every other name keeps its values in order, and again changes nothing. */
  lemma StrippedIsEndToEnd(h: Headers)
    ensures forall n :: n in Stripped(h) ==> n in h && Stripped(h)[n] == h[n]
    ensures forall n :: n in h ==> (n in Stripped(h) <==> !Removed(h, n))
    ensures Stripped(Stripped(h)) == Stripped(h)
  {
    assert Removed(h, CONNECTION);
    assert Values(Stripped(h), CONNECTION) == [];
  }

  lemma SanitizingTwice(h: Headers)
    ensures SanitizedRequest(SanitizedRequest(h)) == SanitizedRequest(h)
    ensures SanitizedResponse(SanitizedResponse(h)) == SanitizedResponse(h)
  {
    assert Removed(h, CONNECTION);
    assert Values(SanitizedRequest(h), CONNECTION) == [] == Values(SanitizedResponse(h), CONNECTION);
  }

  /**
   The response keeps exactly the names that are not hop-by-hop, not nominated by its Connection values and not the
   identity, with their values in order.
   */
  lemma ResponseKeepsEndToEnd(h: Headers)
    ensures var out := SanitizedResponse(h);
            && (forall n :: n in out <==>
                  n in h && n !in HOP_BY_HOP && n !in Nominated(Values(h, CONNECTION)) && n != IDENTITY)
            && (forall n :: n in out ==> out[n] == h[n])
  {
  }

  // The identity header.

  function HexDigit(n: nat): byte
    requires n < 16
  {
    if n < 10 then 0x30 + n else 0x57 + n
  }

  function HexValue(b: byte): nat {
    if IsDigit(b) then b - 0x30 else if 0x61 <= b <= 0x66 then b - 0x57 else 0
  }

  function Hex(s: seq<byte>): seq<byte> {
    if s == [] then [] else [HexDigit(s[0] / 16), HexDigit(s[0] % 16)] + Hex(s[1..])
  }

  function Unhex(s: seq<byte>): seq<byte> {
    if |s| < 2 then [] else [(16 * HexValue(s[0]) + HexValue(s[1])) % 256] + Unhex(s[2..])
  }

  lemma HexByte(b: byte)
    ensures 16 * HexValue(HexDigit(b / 16)) + HexValue(HexDigit(b % 16)) == b
    ensures IsLowerHex(HexDigit(b / 16)) && IsLowerHex(HexDigit(b % 16))
  {
    assert b == 16 * (b / 16) + b % 16;
  }

  lemma HexFirst(s: seq<byte>)
    requires s != []
    ensures |Hex(s)| == 2 + |Hex(s[1..])| && Hex(s)[2..] == Hex(s[1..])
    ensures IsLowerHex(Hex(s)[0]) && IsLowerHex(Hex(s)[1])
    ensures 16 * HexValue(Hex(s)[0]) + HexValue(Hex(s)[1]) == s[0]
  {
    HexByte(s[0]);
    hide HexDigit, HexValue, IsLowerHex;
  }

  lemma {:induction false} HexReadsBack(s: seq<byte>)
    ensures |Hex(s)| == 2 * |s| && Unhex(Hex(s)) == s
    ensures forall i :: 0 <= i < |Hex(s)| ==> IsLowerHex(Hex(s)[i])
  {
    if s == [] {
    } else {
      hide HexDigit, HexValue, IsLowerHex;
      HexFirst(s);
      hide Hex;
      HexReadsBack(s[1..]);
      assert s == [s[0]] + s[1..];
      assert forall i :: 2 <= i < |Hex(s)| ==> Hex(s)[i] == Hex(s[1..])[i - 2];
    }
  }

  /** The headers of the request sent upstream. */
  method ProxiedHeaders(h: Headers, host: seq<byte>, peer: seq<byte>) returns (out: Headers)
    requires WellFormed(h)
    ensures out == Forwarded(h, host, peer)
  {
    out := SanitizeRequestHeaders(h);
    out := out[HOST := [host]];
    out := out[IDENTITY := [Hex(peer)]];
  }

  function Forwarded(h: Headers, host: seq<byte>, peer: seq<byte>): Headers {
    SanitizedRequest(h)[HOST := [host]][IDENTITY := [Hex(peer)]]
  }

  /** Whatever the caller sent, upstream sees one identity header, it names this peer and no other, and one host. */
  lemma ForwardedIdentity(h: Headers, host: seq<byte>, peer: seq<byte>)
    ensures var out := Forwarded(h, host, peer);
            && out[IDENTITY] == [Hex(peer)] && Unhex(out[IDENTITY][0]) == peer
            && out[HOST] == [host]
            && (forall n :: n in out && n !in {HOST, IDENTITY} <==> n in h && !Removed(h, n) && n !in {HOST, IDENTITY})
            && (forall n :: n in out && n !in {HOST, IDENTITY} ==> out[n] == h[n])
            && (forall n :: n in out ==> n !in HOP_BY_HOP)
  {
    HexReadsBack(peer);
    assert |HOST| == 4 && |IDENTITY| == 27;
  }

  /** Two peers never share an identity header. */
  lemma IdentityDistinct(h: Headers, host: seq<byte>, p: seq<byte>, q: seq<byte>)
    requires Forwarded(h, host, p) == Forwarded(h, host, q)
    ensures p == q
  {
    ForwardedIdentity(h, host, p);
    ForwardedIdentity(h, host, q);
  }
}
