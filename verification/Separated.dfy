/** Splitting at a separator byte and joining again. */
module Separated {
  import opened Bytes

  function Split(s: seq<byte>, at: byte): (parts: seq<seq<byte>>)
    ensures parts != []
  {
    if s == [] then [[]]
    else if s[0] == at then [[]] + Split(s[1..], at)
    else var rest := Split(s[1..], at); [[s[0]] + rest[0]] + rest[1..]
  }

  function Join(parts: seq<seq<byte>>, at: byte): seq<byte> {
    if parts == [] then []
    else if |parts| == 1 then parts[0]
    else parts[0] + [at] + Join(parts[1..], at)
  }

  /** The parts hold no separator and give the whole back when joined, which only one list of them does. */
  lemma {:induction false} SplitJoins(s: seq<byte>, at: byte)
    ensures Join(Split(s, at), at) == s
    ensures forall k :: 0 <= k < |Split(s, at)| ==> at !in Split(s, at)[k]
  {
    if s == [] {
    } else {
      SplitJoins(s[1..], at);
      var rest := Split(s[1..], at);
      assert s == [s[0]] + s[1..];
      if s[0] == at {
        JoinSeparator(rest, at);
      } else {
        JoinByte(s[0], rest, at);
      }
    }
  }

  lemma JoinSeparator(parts: seq<seq<byte>>, at: byte)
    requires parts != []
    ensures Join([[]] + parts, at) == [at] + Join(parts, at)
  {
    assert ([[]] + parts)[1..] == parts;
  }

  lemma JoinByte(b: byte, parts: seq<seq<byte>>, at: byte)
    requires parts != []
    ensures Join([[b] + parts[0]] + parts[1..], at) == [b] + Join(parts, at)
  {
    assert ([[b] + parts[0]] + parts[1..])[1..] == parts[1..];
  }

  lemma {:induction false} JoinSplits(parts: seq<seq<byte>>, at: byte)
    requires parts != [] && forall k :: 0 <= k < |parts| ==> at !in parts[k]
    ensures Split(Join(parts, at), at) == parts
    decreases |parts|, |parts[0]|
  {
    var s := Join(parts, at);
    if parts[0] != [] {
      var fewer := parts[0 := parts[0][1..]];
      JoinSplits(fewer, at);
      assert s[1..] == Join(fewer, at) by { assert fewer[1..] == parts[1..]; }
      assert s[0] == parts[0][0];
      assert parts[0] == [s[0]] + fewer[0] && parts == [parts[0]] + fewer[1..];
    } else if |parts| > 1 {
      JoinSplits(parts[1..], at);
      assert s[0] == at && s[1..] == Join(parts[1..], at);
    }
  }
}
