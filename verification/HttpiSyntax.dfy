/** The character classes and path shape that adapter targets and request envelopes share. */
module HttpiSyntax {
  import opened Bytes

  /** The bytes of an ASCII literal. */
  function Ascii(s: string): (b: seq<byte>)
    requires forall i :: 0 <= i < |s| ==> s[i] < 128 as char
    ensures |b| == |s| && forall i :: 0 <= i < |s| ==> b[i] == s[i] as int
  {
    seq(|s|, i requires 0 <= i < |s| => s[i] as int)
  }

  predicate IsDigit(b: byte) { 0x30 <= b <= 0x39 }

  predicate IsUpper(b: byte) { 0x41 <= b <= 0x5A }

  predicate IsLower(b: byte) { 0x61 <= b <= 0x7A }

  predicate IsAlnum(b: byte) { IsDigit(b) || IsUpper(b) || IsLower(b) }

  predicate IsLowerHex(b: byte) { IsDigit(b) || 0x61 <= b <= 0x66 }

  /** `[A-Za-z0-9._~!$&'()*+,;=:@-]` */
  predicate IsPathByte(b: byte) {
    || IsAlnum(b)
    || b in [0x2E, 0x5F, 0x7E, 0x21, 0x24, 0x26, 0x27, 0x28, 0x29, 0x2A, 0x2B, 0x2C, 0x3B, 0x3D, 0x3A, 0x40, 0x2D]
  }

  /** `tchar` of section 5.6.2 of RFC 9110. */
  predicate IsTokenByte(b: byte) {
    IsAlnum(b) || b in [0x21, 0x23, 0x24, 0x25, 0x26, 0x27, 0x2A, 0x2B, 0x2D, 0x2E, 0x5E, 0x5F, 0x60, 0x7C, 0x7E]
  }

  const SLASH: byte := 0x2F

  /** One or more slash-separated runs of path bytes, none of them empty. */
  predicate IsSegments(p: seq<byte>) {
    && p != []
    && p[0] != SLASH && p[|p| - 1] != SLASH
    && (forall i :: 0 <= i < |p| ==> IsPathByte(p[i]) || p[i] == SLASH)
    && (forall i :: 0 < i < |p| && p[i] == SLASH ==> p[i - 1] != SLASH)
  }

  /** A rooted path: the root alone, or a slash before a run of segments. */
  predicate IsRootedPath(p: seq<byte>) {
    p != [] && p[0] == SLASH && (|p| == 1 || IsSegments(p[1..]))
  }

  predicate IsEndpointId(e: seq<byte>) {
    |e| == 64 && forall i :: 0 <= i < |e| ==> IsLowerHex(e[i])
  }
}
