/** Bytes, the failure-carrying wrappers and the small sequence facts shared by the other modules. */
module Bytes {

  type byte = x: int | 0 <= x < 256

  /** The largest piece the adapter copies or frames at once. */
  const IO_CHUNK_BYTES: nat := 65536

  datatype Option<+T> = None | Some(value: T)

  datatype Result<+T, +E> = Ok(value: T) | Err(error: E) {
    predicate IsFailure() { Err? }

    function PropagateFailure<U>(): Result<U, E>
      requires Err?
    {
      Err(error)
    }

    function Extract(): T
      requires Ok?
    {
      value
    }
  }

  function Min(a: int, b: int): (r: int)
    ensures r <= a && r <= b && (r == a || r == b)
  {
    if a < b then a else b
  }

  lemma Regroup<T>(a: seq<T>, b: seq<T>, c: seq<T>)
    ensures a + b + c == a + (b + c)
  {
  }

  lemma SplitAt<T>(s: seq<T>, i: nat)
    requires i < |s|
    ensures s[..i + 1] == s[..i] + [s[i]] && s == s[..i + 1] + s[i + 1..]
  {
  }

  /** Concatenation of a list of chunks. */
  function Flatten<T>(chunks: seq<seq<T>>): seq<T> {
    if chunks == [] then [] else chunks[0] + Flatten(chunks[1..])
  }

  lemma {:induction false} FlattenAppend<T>(a: seq<seq<T>>, b: seq<seq<T>>)
    ensures Flatten(a + b) == Flatten(a) + Flatten(b)
  {
    if a == [] {
      assert a + b == b;
    } else {
      FlattenAppend(a[1..], b);
      assert (a + b)[0] == a[0] && (a + b)[1..] == a[1..] + b;
      Regroup(a[0], Flatten(a[1..]), Flatten(b));
    }
  }

  lemma FlattenOne<T>(c: seq<T>)
    ensures Flatten([c]) == c
  {
    assert Flatten([c]) == [c][0] + Flatten([c][1..]);
  }

  // Little-endian fields of the envelope.

  function U16(b: seq<byte>, offset: nat): (n: nat)
    requires offset + 2 <= |b|
    ensures n < 0x1_0000
  {
    b[offset] as int + 256 * (b[offset + 1] as int)
  }

  function U32(b: seq<byte>, offset: nat): (n: nat)
    requires offset + 4 <= |b|
    ensures n < 0x1_0000_0000
  {
    b[offset] as int + 256 * (b[offset + 1] as int)
    + 0x1_0000 * (b[offset + 2] as int) + 0x100_0000 * (b[offset + 3] as int)
  }

  function PutU16(n: nat): (b: seq<byte>)
    requires n < 0x1_0000
    ensures |b| == 2 && U16(b, 0) == n
  {
    [n % 256, n / 256]
  }

  function PutU32(n: nat): (b: seq<byte>)
    requires n < 0x1_0000_0000
    ensures |b| == 4 && U32(b, 0) == n
  {
    var high, higher, highest := n / 256, n / 256 / 256, n / 256 / 256 / 256;
    [n % 256, high % 256, higher % 256, highest]
  }

  lemma FieldU16(b: seq<byte>, offset: nat, n: nat)
    requires offset + 2 <= |b| && n < 0x1_0000 && b[offset..offset + 2] == PutU16(n)
    ensures U16(b, offset) == n
  {
    assert b[offset] == PutU16(n)[0] && b[offset + 1] == PutU16(n)[1];
  }

  lemma FieldU32(b: seq<byte>, offset: nat, n: nat)
    requires offset + 4 <= |b| && n < 0x1_0000_0000 && b[offset..offset + 4] == PutU32(n)
    ensures U32(b, offset) == n
  {
    var f := b[offset..offset + 4];
    assert f[0] == b[offset] && f[1] == b[offset + 1] && f[2] == b[offset + 2] && f[3] == b[offset + 3];
  }

  lemma PutReadU16(b: seq<byte>, offset: nat)
    requires offset + 2 <= |b|
    ensures PutU16(U16(b, offset)) == b[offset..offset + 2]
  {
  }

  lemma LowByte(n: nat, low: byte, rest: nat)
    requires n == low as int + 256 * rest
    ensures n % 256 == low && n / 256 == rest
  {
  }

  lemma PutReadU32(b: seq<byte>, offset: nat)
    requires offset + 4 <= |b|
    ensures PutU32(U32(b, offset)) == b[offset..offset + 4]
  {
    var n, f := U32(b, offset), b[offset..offset + 4];
    var higher := f[2] as int + 256 * (f[3] as int);
    var high := f[1] as int + 256 * higher;
    assert n == f[0] as int + 256 * high;
    LowByte(n, f[0], high);
    LowByte(high, f[1], higher);
    LowByte(higher, f[2], f[3]);
    assert PutU32(n) == [f[0], f[1], f[2], f[3]];
  }

  // Text is carried as its UTF-8 bytes.

  predicate IsContinuation(b: byte) {
    0x80 <= b < 0xC0
  }

  /** Length of the well-formed UTF-8 sequence at the front of `b`, or 0 when there is none. */
  function Utf8Length(b: seq<byte>): (n: nat)
    requires |b| > 0
    ensures n <= |b| && n <= 4
    ensures n > 0 ==> !IsContinuation(b[0])
    ensures forall i :: 1 <= i < n ==> IsContinuation(b[i])
    ensures b[0] < 0x80 ==> n == 1
    ensures forall i :: 0 <= i < n && b[i] < 0x80 ==> n == 1
  {
    if b[0] < 0x80 then 1
    else if 0xC2 <= b[0] <= 0xDF then
      if |b| >= 2 && IsContinuation(b[1]) then 2 else 0
    else if 0xE0 <= b[0] <= 0xEF then
      if |b| >= 3 && IsContinuation(b[1]) && IsContinuation(b[2])
         && (b[0] == 0xE0 ==> b[1] >= 0xA0) && (b[0] == 0xED ==> b[1] < 0xA0) then 3 else 0
    else if 0xF0 <= b[0] <= 0xF4 then
      if |b| >= 4 && IsContinuation(b[1]) && IsContinuation(b[2]) && IsContinuation(b[3])
         && (b[0] == 0xF0 ==> b[1] >= 0x90) && (b[0] == 0xF4 ==> b[1] < 0x90) then 4 else 0
    else 0
  }

  predicate ValidUtf8(b: seq<byte>) {
    b == [] || (Utf8Length(b) > 0 && ValidUtf8(b[Utf8Length(b)..]))
  }

  lemma {:induction false} AsciiIsUtf8(b: seq<byte>)
    requires forall i :: 0 <= i < |b| ==> b[i] < 0x80
    ensures ValidUtf8(b)
  {
    if b == [] {
    } else {
      AsciiIsUtf8(b[1..]);
    }
  }

  lemma Utf8LengthLocal(a: seq<byte>, x: seq<byte>)
    requires a != [] && Utf8Length(a) > 0
    ensures Utf8Length(a + x) == Utf8Length(a)
  {
  }

  lemma DropAppend(a: seq<byte>, b: seq<byte>, n: nat)
    requires n <= |a|
    ensures (a + b)[n..] == a[n..] + b
  {
  }

  lemma {:induction false} Utf8Concat(a: seq<byte>, b: seq<byte>)
    requires ValidUtf8(a) && ValidUtf8(b)
    ensures ValidUtf8(a + b)
  {
    hide Utf8Length;
    if a == [] {
      assert a + b == b;
    } else {
      var n := Utf8Length(a);
      Utf8LengthLocal(a, b);
      Utf8Concat(a[n..], b);
      DropAppend(a, b, n);
    }
  }

  /** A string splits at a character boundary into two strings. */
  lemma {:induction false} Utf8Split(s: seq<byte>, k: nat)
    requires ValidUtf8(s) && k <= |s| && (k == 0 || k == |s| || !IsContinuation(s[k]))
    ensures ValidUtf8(s[..k]) && ValidUtf8(s[k..])
  {
    hide Utf8Length;
    if k == 0 {
      assert s[..k] == [] && s[k..] == s;
    } else {
      var n := Utf8Length(s);
      assert n <= k;
      Utf8Split(s[n..], k - n);
      assert s[..k][n..] == s[n..][..k - n] && s[k..] == s[n..][k - n..];
      Utf8Prefix(s, k);
    }
  }

  lemma Utf8Prefix(s: seq<byte>, k: nat)
    requires s != [] && 0 < Utf8Length(s) <= k <= |s|
    ensures Utf8Length(s[..k]) == Utf8Length(s)
  {
  }
}
